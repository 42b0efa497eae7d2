/**
  The URL fragment of the work view (`parseFragment`, `formatFragment`, `resolveFragment` of
  `jeedom2ha_workview.js`), character by character.
 */
module Fragment {
  import opened Prelude
  import opened Decimal
  import opened Text

  /** `only` is the field `seule`: the tree shows that room alone. */
  datatype ViewState = ViewState(piece: Option<int>, eq: Option<int>, filter: Option<string>, only: bool)

  datatype Field = PieceField(n: int) | EqField(n: int) | FilterField(key: string) | OnlyField

  const PREFIX := "j2ha-vue="
  const FILTER_KEYS := ["published", "blocked", "to_apply", "other", "unread"]
  const LIMIT := 1_000_000_000
  const EMPTY := ViewState(None, None, None, false)

  predicate IsLower(c: char) { 'a' <= c <= 'z' }

  predicate IsWord(c: char) { IsLower(c) || 'A' <= c <= 'Z' || IsDigit(c) || c == '_' }

  /** `POSITIVE_RE` and `INT_RE`. */
  predicate IsPositiveText(s: string) { 1 <= |s| <= 9 && AllDigits(s) && s[0] != '0' }

  predicate IsIntText(s: string) { s == "0" || IsPositiveText(s) }

  // ---------------------------------------------------------------------------------------
  // Reading
  // ---------------------------------------------------------------------------------------

  function FirstColon(s: string): (k: nat)
    ensures k <= |s| && (k < |s| ==> s[k] == ':')
  {
    if s == "" || s[0] == ':' then 0 else 1 + FirstColon(s[1..])
  }

  function FieldOf(key: string, value: string): Option<Field> {
    if key == "piece" && IsIntText(value) then Some(PieceField(DigitsValue(value)))
    else if key == "eq" && IsPositiveText(value) then Some(EqField(DigitsValue(value)))
    else if key == "f" && value in FILTER_KEYS then Some(FilterField(value))
    else if key == "seule" && value == "1" then Some(OnlyField)
    else None
  }

  /** One `key:value` part. */
  function ReadField(part: string): Option<Field> {
    var k := FirstColon(part);
    if k == |part| then None
    else
      var key, value := part[..k], part[k+1..];
      if key != "" && value != "" && (forall i :: 0 <= i < |key| ==> IsLower(key[i])) && forall i ::
        0 <= i < |value| ==> IsWord(value[i])
      then FieldOf(key, value) else None
  }

  /** The texts that are fields: a key, a colon, and a number as it is printed, a filter, or the one that means yes. */
  lemma ReadFieldMeaning(part: string, f: Field)
    ensures ReadField(part) == Some(f) <==>
      match f
      case PieceField(n) => 0 <= n < LIMIT && part == "piece" + ":" + IntText(n)
      case EqField(n) => 1 <= n < LIMIT && part == "eq" + ":" + IntText(n)
      case FilterField(key) => key in {"published", "blocked", "to_apply", "other", "unread"} && part == "f" + ":" + key
      case OnlyField => part == "seule" + ":" + "1"
  {
    KeysAreLower();
    FieldsAreBounded(part);
    if ReadField(part).Some? {
      ReadIsPrinted(part);
    }
    match f
    case PieceField(n) =>
      if 0 <= n < LIMIT {
        PrintedInt(n);
        ReadPrinted("piece", IntText(n));
      }
    case EqField(n) =>
      if 1 <= n < LIMIT {
        PrintedInt(n);
        ReadPrinted("eq", IntText(n));
      }
    case FilterField(key) =>
      if key in FILTER_KEYS {
        FilterKeysAreWords(key);
        ReadPrinted("f", key);
      }
    case OnlyField =>
      assert IsWord("1"[0]);
      ReadPrinted("seule", "1");
  }

  /** A field that is read has the printed form. */
  lemma ReadIsPrinted(part: string)
    requires ReadField(part).Some?
    ensures part == match ReadField(part).value
      case PieceField(n) => "piece" + ":" + IntText(n)
      case EqField(n) => "eq" + ":" + IntText(n)
      case FilterField(key) => "f" + ":" + key
      case OnlyField => "seule" + ":" + "1"
  {
    var k := FirstColon(part);
    var key, value := part[..k], part[k+1..];
    assert part == key + ":" + value;
    if IsIntText(value) {
      CanonicalDigits(value);
    }
  }

  function Kind(f: Field): nat {
    match f
    case PieceField(_) => 0
    case EqField(_) => 1
    case FilterField(_) => 2
    case OnlyField => 3
  }

  function Apply(s: ViewState, f: Field): ViewState {
    match f
    case PieceField(n) => s.(piece := Some(n))
    case EqField(n) => s.(eq := Some(n))
    case FilterField(key) => s.(filter := Some(key))
    case OnlyField => s.(only := true)
  }

  datatype Reading = Reading(state: ViewState, seen: set<nat>)

  function ReadParts(parts: seq<string>): Option<Reading> {
    if parts == [] then Some(Reading(EMPTY, {}))
    else
      var before := ReadParts(parts[..|parts|-1]);
      var field := ReadField(parts[|parts|-1]);
      if before.None? || field.None? || Kind(field.value) in before.value.seen then None
      else Some(Reading(Apply(before.value.state, field.value), before.value.seen + {Kind(field.value)}))
  }

  function ParseParts(parts: seq<string>): Option<ViewState> {
    match ReadParts(parts)
    case None => None
    case Some(r) => if (r.state.eq.Some? || r.state.only) && r.state.piece.None? then None else Some(r.state)
  }

  function Parse(hash: string): Option<ViewState> {
    var text := if hash != "" && hash[0] == '#' then hash[1..] else hash;
    if PREFIX <= text && text != PREFIX then ParseParts(Split(text[|PREFIX|..], ';')) else None
  }

  method ParseFragment(hash: string) returns (r: Option<ViewState>)
    ensures r == Parse(hash)
  {
    hide ReadField, Split;
    var text := if hash != "" && hash[0] == '#' then hash[1..] else hash;
    if !(PREFIX <= text) {
      return None;
    }
    var body := text[|PREFIX|..];
    if body == "" {
      assert text == PREFIX + body;
      return None;
    }
    var out := EMPTY;
    var seen: set<nat> := {};
    var parts := Split(body, ';');
    for i := 0 to |parts|
      invariant ReadParts(parts[..i]) == Some(Reading(out, seen))
    {
      assert parts[..i+1][..i] == parts[..i];
      var field := ReadField(parts[i]);
      if field.None? || Kind(field.value) in seen {
        NeverAccepted(parts, i + 1);
        return None;
      }
      seen := seen + {Kind(field.value)};
      out := Apply(out, field.value);
    }
    assert parts[..|parts|] == parts;
    if out.eq.Some? && out.piece.None? {
      return None;
    }
    if out.only && out.piece.None? {
      return None;
    }
    r := Some(out);
  }

  lemma {:induction false} NeverAccepted(parts: seq<string>, i: nat)
    requires i <= |parts| && ReadParts(parts[..i]).None?
    ensures ReadParts(parts).None?
  {
    if i < |parts| {
      assert parts[..|parts|-1][..i] == parts[..i];
      NeverAccepted(parts[..|parts|-1], i);
    } else {
      assert parts[..i] == parts;
    }
  }

  // ---------------------------------------------------------------------------------------
  // Printing
  // ---------------------------------------------------------------------------------------

  function PiecePart(s: ViewState): seq<string> {
    if s.piece.Some? then ["piece" + ":" + IntText(s.piece.value)] else []
  }

  function EqPart(s: ViewState): seq<string> { if s.eq.Some? then ["eq" + ":" + IntText(s.eq.value)] else [] }

  function FilterPart(s: ViewState): seq<string> {
    if s.filter.Some? && s.filter.value in FILTER_KEYS then ["f" + ":" + s.filter.value] else []
  }

  function OnlyPart(s: ViewState): seq<string> { if s.only && s.piece.Some? then ["seule" + ":" + "1"] else [] }

  function PrintedParts(s: ViewState): seq<string> { PiecePart(s) + EqPart(s) + FilterPart(s) + OnlyPart(s) }

  function Format(s: ViewState): string {
    if PrintedParts(s) != [] then "#" + PREFIX + Join(PrintedParts(s), ";") else ""
  }

  /** Nothing to say prints nothing; a filter that is none, and a lone room without room, are not printed. */
  lemma FormatMeaning(s: ViewState)
    ensures Format(s) == "" <==> s.piece.None? && s.eq.None? && !(s.filter.Some? && s.filter.value in FILTER_KEYS)
    ensures s.filter.Some? && s.filter.value !in FILTER_KEYS ==> Format(s) == Format(s.(filter := None))
    ensures s.piece.None? ==> Format(s) == Format(s.(only := false))
  {
  }

  // ---------------------------------------------------------------------------------------
  // Round trip
  // ---------------------------------------------------------------------------------------

  /**
    The states a fragment can name: decimal ids of at most nine digits, and an equipment or a lone room only with its
    room.
  */
  predicate WellFormed(s: ViewState) {
    && (s.piece.Some? ==> 0 <= s.piece.value < LIMIT)
    && (s.eq.Some? ==> 1 <= s.eq.value < LIMIT && s.piece.Some?)
    && (s.filter.Some? ==> s.filter.value in FILTER_KEYS)
    && (s.only ==> s.piece.Some?)
    && (s.piece.Some? || s.filter.Some?)
  }

  lemma NineDigits(n: nat)
    ensures |Digits(n)| <= 9 <==> n < LIMIT
  {
    DigitsLength(n, 9);
    assert PowerOfTen(3) == 1000;
    assert PowerOfTen(6) == 1000000;
    assert PowerOfTen(9) == LIMIT;
  }

  /** A decimal text of the expressions is the printed form of its value. */
  lemma IntTexts(value: string)
    requires IsIntText(value)
    ensures DigitsValue(value) < LIMIT && (IsPositiveText(value) <==> DigitsValue(value) > 0)
  {
    CanonicalDigits(value);
    NineDigits(DigitsValue(value));
    if value == "0" {
      assert value[..0] == "";
    }
  }

  lemma PrintedInt(n: nat)
    requires n < LIMIT
    ensures IsIntText(IntText(n)) && DigitsValue(IntText(n)) == n && (n > 0 <==> IsPositiveText(IntText(n)))
    ensures forall i :: 0 <= i < |IntText(n)| ==> IsWord(IntText(n)[i])
  {
    NineDigits(n);
    DigitsRoundTrip(n);
    assert n == 0 ==> Digits(n) == "0";
  }

  lemma {:induction false} FirstColonAt(key: string, value: string)
    requires ':' !in key
    ensures FirstColon(key + ":" + value) == |key|
  {
    var s := key + ":" + value;
    if key == "" {
      assert s[0] == ':';
    } else {
      assert s[0] == key[0] && s[1..] == key[1..] + ":" + value;
      FirstColonAt(key[1..], value);
    }
  }

  /** Reading a printed part gives its field back. */
  lemma ReadPrinted(key: string, value: string)
    requires key != "" && value != ""
    requires forall i :: 0 <= i < |key| ==> IsLower(key[i])
    requires forall i :: 0 <= i < |value| ==> IsWord(value[i])
    ensures ReadField(key + ":" + value) == FieldOf(key, value)
    ensures ';' !in key + ":" + value
  {
    FirstColonAt(key, value);
    var s := key + ":" + value;
    assert s[..|key|] == key && s[|key|+1..] == value;
  }

  lemma {:induction false} JoinIsEmpty(parts: seq<string>)
    requires parts != [] && parts[0] != ""
    ensures Join(parts, ";") != ""
  {
  }

  lemma ParseOfBody(body: string)
    requires body != ""
    ensures Parse("#" + PREFIX + body) == ParseParts(Split(body, ';'))
  {
  }

  lemma ParseOfParts(parts: seq<string>)
    requires parts != [] && parts[0] != "" && forall i :: 0 <= i < |parts| ==> ';' !in parts[i]
    ensures Parse("#" + PREFIX + Join(parts, ";")) == ParseParts(parts)
  {
    hide ParseParts, Split, Join, Parse;
    JoinIsEmpty(parts);
    SplitJoin(parts, ';');
    ParseOfBody(Join(parts, ";"));
  }

  /** The parts read so far give the state, from fields of lower kinds only. */
  ghost predicate Stage(parts: seq<string>, state: ViewState, kind: nat) {
    ReadParts(parts).Some? && ReadParts(parts).value.state == state && forall k :: k in ReadParts(parts).value.seen ==>
      k < kind
  }

  lemma AddPart(parts: seq<string>, state: ViewState, part: string, f: Field)
    requires Stage(parts, state, Kind(f)) && ReadField(part) == Some(f)
    ensures Stage(parts + [part], Apply(state, f), Kind(f) + 1)
  {
  }

  lemma SkipPart(parts: seq<string>, state: ViewState, kind: nat)
    requires Stage(parts, state, kind)
    ensures Stage(parts, state, kind + 1)
  {
  }

  lemma KeysAreLower()
    ensures forall i :: 0 <= i < |"piece"| ==> IsLower("piece"[i])
    ensures forall i :: 0 <= i < |"eq"| ==> IsLower("eq"[i])
    ensures forall i :: 0 <= i < |"f"| ==> IsLower("f"[i])
    ensures forall i :: 0 <= i < |"seule"| ==> IsLower("seule"[i])
    ensures "piece" != "eq" && "piece" != "f" && "piece" != "seule" && "eq" != "f" && "eq" != "seule" && "f" != "seule"
  {
  }

  lemma FilterKeysAreWords(key: string)
    requires key in FILTER_KEYS
    ensures key != "" && forall i :: 0 <= i < |key| ==> IsWord(key[i])
  {
  }

  /** The part of a field, when the state has it. */
  ghost predicate IsPart(parts: seq<string>, present: bool, f: Field) {
    if present then |parts| == 1 && parts[0] != "" && ReadField(parts[0]) == Some(f) && ';' !in parts[0]
    else parts == []
  }

  lemma PrintedPiece(s: ViewState)
    requires WellFormed(s)
    ensures IsPart(PiecePart(s), s.piece.Some?, PieceField(s.piece.GetOr(0)))
  {
    hide ReadField, IntText, IsIntText, IsPositiveText;
    KeysAreLower();
    if s.piece.Some? {
      PrintedInt(s.piece.value);
      ReadPrinted("piece", IntText(s.piece.value));
    }
  }

  lemma PrintedEq(s: ViewState)
    requires WellFormed(s)
    ensures IsPart(EqPart(s), s.eq.Some?, EqField(s.eq.GetOr(0)))
  {
    hide ReadField, IntText, IsIntText, IsPositiveText;
    KeysAreLower();
    if s.eq.Some? {
      PrintedInt(s.eq.value);
      ReadPrinted("eq", IntText(s.eq.value));
    }
  }

  lemma PrintedFilter(s: ViewState)
    requires WellFormed(s)
    ensures IsPart(FilterPart(s), s.filter.Some?, FilterField(s.filter.GetOr("")))
  {
    hide ReadField;
    KeysAreLower();
    if s.filter.Some? {
      FilterKeysAreWords(s.filter.value);
      ReadPrinted("f", s.filter.value);
    }
  }

  lemma PrintedOnly(s: ViewState)
    requires WellFormed(s)
    ensures IsPart(OnlyPart(s), s.only, OnlyField)
  {
    hide ReadField;
    KeysAreLower();
    assert IsWord("1"[0]);
    ReadPrinted("seule", "1");
  }

  /** Reading the printed parts one kind after the other. */
  lemma PrintedStage(s: ViewState)
    requires WellFormed(s)
    ensures Stage(PrintedParts(s), s, 4)
  {
    hide ReadParts, Stage, PiecePart, EqPart, FilterPart, OnlyPart, IsPart;
    PrintedPiece(s);
    PrintedEq(s);
    PrintedFilter(s);
    PrintedOnly(s);
    var p1 := PiecePart(s) + EqPart(s);
    var p2 := p1 + FilterPart(s);
    NothingRead();
    StageOf([], EMPTY, PiecePart(s), s.piece.Some?, PieceField(s.piece.GetOr(0)));
    assert [] + PiecePart(s) == PiecePart(s);
    StageOf(PiecePart(s), ViewState(s.piece, None, None, false), EqPart(s), s.eq.Some?, EqField(s.eq.GetOr(0)));
    StageOf(p1, ViewState(s.piece, s.eq, None, false), FilterPart(s), s.filter.Some?, FilterField(s.filter.GetOr("")));
    StageOf(p2, ViewState(s.piece, s.eq, s.filter, false), OnlyPart(s), s.only, OnlyField);
  }

  lemma PrintedPartsAreClean(s: ViewState)
    requires WellFormed(s)
    ensures var p := PrintedParts(s); p != [] && forall i :: 0 <= i < |p| ==> p[i] != "" && ';' !in p[i]
  {
    hide ReadField, PiecePart, EqPart, FilterPart, OnlyPart;
    PrintedPiece(s);
    PrintedEq(s);
    PrintedFilter(s);
    PrintedOnly(s);
  }

  /** Every well-formed state is read back from its printed form. */
  lemma PrintedIsParsed(s: ViewState)
    requires WellFormed(s)
    ensures Parse(Format(s)) == Some(s)
  {
    hide Parse, Stage, ParseParts, PrintedParts, Join;
    PrintedStage(s);
    PrintedPartsAreClean(s);
    WholeStage(s);
    ParseOfParts(PrintedParts(s));
  }

  lemma NothingRead()
    ensures Stage([], EMPTY, 0)
  {
  }

  /** At most one more part. */
  lemma StageOf(parts: seq<string>, state: ViewState, more: seq<string>, present: bool, f: Field)
    requires Stage(parts, state, Kind(f))
    requires IsPart(more, present, f)
    ensures Stage(parts + more, if present then Apply(state, f) else state, Kind(f) + 1)
  {
    hide ReadField, Stage;
    if present {
      AddPart(parts, state, more[0], f);
      assert more == [more[0]];
    } else {
      SkipPart(parts, state, Kind(f));
      assert parts + more == parts;
    }
  }

  lemma WholeStage(s: ViewState)
    requires WellFormed(s) && Stage(PrintedParts(s), s, 4)
    ensures ParseParts(PrintedParts(s)) == Some(s)
  {
  }

  /** What a state says, field by field. */
  predicate Holds(s: ViewState, f: Field) {
    match f
    case PieceField(n) => s.piece == Some(n)
    case EqField(n) => s.eq == Some(n)
    case FilterField(key) => s.filter == Some(key)
    case OnlyField => s.only
  }

  ghost predicate Says(parts: seq<string>, f: Field) { exists i :: 0 <= i < |parts| && ReadField(parts[i]) == Some(f) }

  /** Every part is a field, no two of one kind. */
  ghost predicate Acceptable(parts: seq<string>) {
    && (forall i :: 0 <= i < |parts| ==> ReadField(parts[i]).Some?)
    && (forall i, j :: 0 <= i < j < |parts| ==> Kind(ReadField(parts[i]).value) != Kind(ReadField(parts[j]).value))
  }

  ghost predicate Sees(parts: seq<string>, kind: nat) {
    exists i :: 0 <= i < |parts| && ReadField(parts[i]).Some? && Kind(ReadField(parts[i]).value) == kind
  }

  lemma {:induction false} ReadPartsMeaning(parts: seq<string>)
    ensures ReadParts(parts).Some? <==> Acceptable(parts)
    ensures ReadParts(parts).Some? ==> forall f :: Says(parts, f) <==> Holds(ReadParts(parts).value.state, f)
    ensures ReadParts(parts).Some? ==> forall kind :: kind in ReadParts(parts).value.seen <==> Sees(parts, kind)
  {
    hide ReadField;
    if parts != [] {
      var n := |parts| - 1;
      var front := parts[..n];
      ReadPartsMeaning(front);
      assert Acceptable(parts) ==> Acceptable(front);
      if ReadParts(front).Some? && ReadField(parts[n]).Some? {
        var g := ReadField(parts[n]).value;
        forall kind ensures Sees(parts, kind) <==> Sees(front, kind) || Kind(g) == kind {
          if Sees(front, kind) {
            var i :| 0 <= i < |front| && ReadField(front[i]).Some? && Kind(ReadField(front[i]).value) == kind;
            assert ReadField(parts[i]).Some?;
          }
        }
        forall f ensures Says(parts, f) <==> Says(front, f) || f == g {
          if Says(front, f) {
            var i :| 0 <= i < |front| && ReadField(front[i]) == Some(f);
            assert ReadField(parts[i]) == Some(f);
          }
        }
        if Kind(g) !in ReadParts(front).value.seen {
          assert Acceptable(parts);
          NewKind(front, g);
        }
      }
    }
  }

  lemma NewKind(front: seq<string>, g: Field)
    requires ReadParts(front).Some? && !Sees(front, Kind(g))
    requires forall f :: Says(front, f) <==> Holds(ReadParts(front).value.state, f)
    ensures forall f :: Holds(Apply(ReadParts(front).value.state, g), f) <==>
      Holds(ReadParts(front).value.state, f) || f == g
  {
  }

  lemma FieldsAreBounded(part: string)
    ensures match ReadField(part)
            case Some(PieceField(n)) => 0 <= n < LIMIT
            case Some(EqField(n)) => 1 <= n < LIMIT
            case Some(FilterField(key)) => key in FILTER_KEYS
            case _ => true
  {
    var k := FirstColon(part);
    if k < |part| && IsIntText(part[k+1..]) {
      IntTexts(part[k+1..]);
    }
  }

  /** Whatever the fragment, what is read is well-formed. */
  lemma ParsedIsWellFormed(hash: string)
    requires Parse(hash).Some?
    ensures WellFormed(Parse(hash).value)
  {
    hide ReadField, Split, FILTER_KEYS;
    var text := if hash != "" && hash[0] == '#' then hash[1..] else hash;
    var parts := Split(text[|PREFIX|..], ';');
    var s := Parse(hash).value;
    hide Parse, ReadParts;
    ReadPartsMeaning(parts);
    forall i | 0 <= i < |parts| ensures match ReadField(parts[i])
            case Some(PieceField(n)) => 0 <= n < LIMIT
            case Some(EqField(n)) => 1 <= n < LIMIT
            case Some(FilterField(key)) => key in FILTER_KEYS
            case _ => true {
      FieldsAreBounded(parts[i]);
    }
    assert Says(parts, ReadField(parts[0]).value);
    assert Holds(s, ReadField(parts[0]).value);
    if s.piece.Some? { assert Says(parts, PieceField(s.piece.value)); }
    if s.eq.Some? { assert Says(parts, EqField(s.eq.value)); }
    if s.filter.Some? { assert Says(parts, FilterField(s.filter.value)); }
  }

  /** Printing and reading gives the state back exactly for the well-formed states. */
  lemma RoundTripExactlyWhen(s: ViewState)
    ensures Parse(Format(s)) == Some(s) <==> WellFormed(s)
  {
    hide Parse, Format, WellFormed;
    if WellFormed(s) {
      PrintedIsParsed(s);
    }
    if Parse(Format(s)) == Some(s) {
      ParsedIsWellFormed(Format(s));
    }
  }

  /** The printed form of an accepted fragment names the same state. */
  lemma ReparseIsStable(hash: string)
    requires Parse(hash).Some?
    ensures Parse(Format(Parse(hash).value)) == Parse(hash)
  {
    ParsedIsWellFormed(hash);
    PrintedIsParsed(Parse(hash).value);
  }

  // ---------------------------------------------------------------------------------------
  // Order of the fields
  // ---------------------------------------------------------------------------------------

  lemma {:induction false} Occurrences(s: seq<string>, x: string)
    ensures multiset(s)[x] <= 1 <==> forall i, j :: 0 <= i < j < |s| ==> s[i] != x || s[j] != x
    ensures multiset(s)[x] > 0 <==> x in s
  {
    if s != [] {
      var n := |s| - 1;
      Occurrences(s[..n], x);
      assert s == s[..n] + [s[n]];
      assert multiset(s)[x] == multiset(s[..n])[x] + if s[n] == x then 1 else 0;
      if s[n] == x && x in s[..n] {
        var i :| 0 <= i < n && s[i] == x;
        assert multiset(s)[x] > 1;
      }
    }
  }

  lemma ReorderedIsAcceptable(p: seq<string>, q: seq<string>)
    requires multiset(p) == multiset(q) && Acceptable(p)
    ensures Acceptable(q)
  {
    hide ReadField;
    forall i | 0 <= i < |q| ensures q[i] in p {
      Occurrences(p, q[i]);
      Occurrences(q, q[i]);
    }
    forall i, j | 0 <= i < j < |q| ensures Kind(ReadField(q[i]).value) != Kind(ReadField(q[j]).value) {
      if Kind(ReadField(q[i]).value) == Kind(ReadField(q[j]).value) {
        assert q[i] == q[j];
        Occurrences(p, q[i]);
        Occurrences(q, q[i]);
      }
    }
  }

  /** The fields may come in any order: the state read, or the refusal, is the same. */
  lemma OrderDoesNotMatter(p: seq<string>, q: seq<string>)
    requires multiset(p) == multiset(q)
    ensures ParseParts(p) == ParseParts(q)
  {
    hide ReadParts, Acceptable, Holds;
    ReadPartsMeaning(p);
    ReadPartsMeaning(q);
    if Acceptable(p) || Acceptable(q) {
      if Acceptable(p) { ReorderedIsAcceptable(p, q); } else { ReorderedIsAcceptable(q, p); }
      forall f ensures Says(p, f) <==> Says(q, f) {
        SaysReordered(p, q, f);
      }
      SameFields(ReadParts(p).value.state, ReadParts(q).value.state);
    }
  }

  /** The same on the texts: two fragments made of the same fields read alike. */
  lemma FragmentsReadAlike(a: string, b: string)
    requires multiset(Split(a, ';')) == multiset(Split(b, ';'))
    ensures Parse("#" + PREFIX + a) == Parse("#" + PREFIX + b)
  {
    hide ParseParts, Split, Parse;
    if a == "" || b == "" {
      OneEmptyPart(a, b);
    } else {
      OrderDoesNotMatter(Split(a, ';'), Split(b, ';'));
      ParseOfBody(a);
      ParseOfBody(b);
    }
  }

  lemma OneEmptyPart(a: string, b: string)
    requires multiset(Split(a, ';')) == multiset(Split(b, ';')) && (a == "" || b == "")
    ensures a == b
  {
    var short, long := if a == "" then a else b, if a == "" then b else a;
    assert Split(short, ';') == [""];
    assert |Split(long, ';')| == |multiset(Split(long, ';'))| == 1;
    Occurrences(Split(short, ';'), "");
    Occurrences(Split(long, ';'), "");
    assert Split(long, ';')[0] == "";
  }

  /** The printed fields of a state name it in any order. */
  lemma AnyOrderIsParsed(s: ViewState, q: seq<string>)
    requires WellFormed(s) && multiset(q) == multiset(PrintedParts(s))
    ensures Parse("#" + PREFIX + Join(q, ";")) == Some(s)
  {
    hide Parse, ParseParts, PrintedParts, Join, Stage, Split;
    var p := PrintedParts(s);
    PrintedStage(s);
    WholeStage(s);
    PrintedPartsAreClean(s);
    assert |q| == |multiset(q)| == |multiset(p)| == |p|;
    forall i | 0 <= i < |q| ensures q[i] != "" && ';' !in q[i] {
      Occurrences(p, q[i]);
      Occurrences(q, q[i]);
    }
    OrderDoesNotMatter(p, q);
    ParseOfParts(q);
  }

  lemma SaysReordered(p: seq<string>, q: seq<string>, f: Field)
    requires multiset(p) == multiset(q)
    ensures Says(p, f) <==> Says(q, f)
  {
    hide ReadField;
    if Says(p, f) {
      var i :| 0 <= i < |p| && ReadField(p[i]) == Some(f);
      Occurrences(p, p[i]);
      Occurrences(q, p[i]);
    }
    if Says(q, f) {
      var i :| 0 <= i < |q| && ReadField(q[i]) == Some(f);
      Occurrences(p, q[i]);
      Occurrences(q, q[i]);
    }
  }

  lemma SameFields(s: ViewState, t: ViewState)
    requires forall f :: Holds(s, f) <==> Holds(t, f)
    ensures s == t
  {
    assert s.piece.Some? ==> Holds(s, PieceField(s.piece.value));
    assert t.piece.Some? ==> Holds(t, PieceField(t.piece.value));
    assert s.eq.Some? ==> Holds(s, EqField(s.eq.value));
    assert t.eq.Some? ==> Holds(t, EqField(t.eq.value));
    assert s.filter.Some? ==> Holds(s, FilterField(s.filter.value));
    assert t.filter.Some? ==> Holds(t, FilterField(t.filter.value));
    assert Holds(s, OnlyField) <==> Holds(t, OnlyField);
  }

  // ---------------------------------------------------------------------------------------
  // Resolving
  // ---------------------------------------------------------------------------------------

  /** A room of the page, by the ids of its equipments. */
  datatype PageRoom = PageRoom(id: int, equipments: seq<int>)

  /** The first room with the id that is asked for. */
  ghost predicate IsFirstRoom(rooms: seq<PageRoom>, k: nat, id: int) {
    && k < |rooms| && rooms[k].id == id && forall i :: 0 <= i < k ==> rooms[i].id != id
  }

  /** The state names a room of the page and, if any, an equipment of that room. */
  ghost predicate Resolvable(s: ViewState, rooms: seq<PageRoom>) {
    if s.piece.None? then s.eq.None?
    else exists k: nat :: IsFirstRoom(rooms, k, s.piece.value) && (s.eq.Some? ==> s.eq.value in rooms[k].equipments)
  }

  /** `resolveFragment`: accepted exactly when it names what exists, and then unchanged. */
  method ResolveFragment(parsed: Option<ViewState>, rooms: seq<PageRoom>) returns (r: Option<ViewState>)
    ensures r.Some? <==> parsed.Some? && Resolvable(parsed.value, rooms)
    ensures r.Some? && r.value.piece.Some? ==> r == parsed
    ensures r.Some? && r.value.piece.None? ==> r.value == ViewState(None, None, parsed.value.filter, false)
    ensures r.Some? && WellFormed(parsed.value) ==> r == parsed
  {
    if parsed.None? {
      return None;
    }
    var s := parsed.value;
    if s.piece.None? {
      return if s.eq.None? then Some(ViewState(None, None, s.filter, false)) else None;
    }
    var room: Option<PageRoom> := None;
    ghost var found := 0;
    for i := 0 to |rooms|
      invariant room.None? && forall k :: 0 <= k < i ==> rooms[k].id != s.piece.value
    {
      if rooms[i].id == s.piece.value {
        room := Some(rooms[i]);
        found := i;
        break;
      }
    }
    if room.None? {
      return None;
    }
    assert forall k: nat :: IsFirstRoom(rooms, k, s.piece.value) <==> k == found;
    if s.eq.Some? && s.eq.value !in room.value.equipments {
      return None;
    }
    r := Some(ViewState(s.piece, s.eq, s.filter, s.only));
  }
}
