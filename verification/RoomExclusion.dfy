/**
  The rooms excluded by hand, kept as comma-separated text (`jeedom2ha_room_exclusion.php`).  PHP's `is_numeric`
  and `intval` are parameters; what is asked of them is said in `ReadsDecimals`.
 */
module RoomExclusion {
  import opened Prelude
  import opened Text
  import opened Decimal
  import opened CsvTokens

  /** PHP's integers, on 64 bits. */
  predicate IsPhpInt(n: int) { -0x8000_0000_0000_0000 <= n < 0x8000_0000_0000_0000 }

  datatype Php = Php(isNumeric: string -> bool, intVal: string -> int)
  {
    /** The text of an integer is numeric and reads back as that integer; the empty text is not numeric. */
    ghost predicate ReadsDecimals() {
      !isNumeric("") && forall n: int :: IsPhpInt(n) ==> isNumeric(IntText(n)) && intVal(IntText(n)) == n
    }

    predicate Means(token: string, id: int) { isNumeric(token) && intVal(token) == id }
  }

  // ---------------------------------------------------------------------------------------
  // Ids
  // ---------------------------------------------------------------------------------------

  /** `jeedom2ha_excluded_object_ids`. */
  function ExcludedIds(csv: string, php: Php): seq<int> {
    var kept := Filter(Unique(TrimAll(Split(csv, COMMA))), php.isNumeric);
    seq(|kept|, i requires 0 <= i < |kept| => php.intVal(kept[i]))
  }

  /** An id is excluded when a token means it. */
  predicate Excludes(tokens: seq<string>, id: int, php: Php) {
    exists i :: 0 <= i < |tokens| && php.Means(tokens[i], id)
  }

  /** The ids the extraction reads are those the tokens mean. */
  lemma IdsAreMeant(csv: string, id: int, php: Php)
    requires php.ReadsDecimals()
    ensures id in ExcludedIds(csv, php) <==> Excludes(Tokens(csv), id, php)
  {
    hide Split, Trim;
    var trimmed := TrimAll(Split(csv, COMMA));
    var kept := Filter(Unique(trimmed), php.isNumeric);
    if id in ExcludedIds(csv, php) {
      var i :| 0 <= i < |kept| && php.intVal(kept[i]) == id;
      FilterMembers(Unique(trimmed), php.isNumeric, kept[i]);
      UniqueMeaning(trimmed, kept[i]);
      FilterMembers(trimmed, (t: string) => t != "", kept[i]);
      var k :| 0 <= k < |Tokens(csv)| && Tokens(csv)[k] == kept[i];
      assert php.Means(Tokens(csv)[k], id);
    }
    if Excludes(Tokens(csv), id, php) {
      var i :| 0 <= i < |Tokens(csv)| && php.Means(Tokens(csv)[i], id);
      var t := Tokens(csv)[i];
      FilterMembers(trimmed, (t: string) => t != "", t);
      UniqueMeaning(trimmed, t);
      FilterMembers(Unique(trimmed), php.isNumeric, t);
      var k :| 0 <= k < |kept| && kept[k] == t;
      assert ExcludedIds(csv, php)[k] == id;
    }
  }

  // ---------------------------------------------------------------------------------------
  // One edit
  // ---------------------------------------------------------------------------------------

  datatype Edit = Edit(csv: string, changed: bool, ids: seq<int>)

  /** The tokens after the edit: the id added at the end, or every token that means it removed. */
  function EditedTokens(tokens: seq<string>, id: int, excluded: bool, php: Php): seq<string> {
    if excluded then tokens + [IntText(id)] else Filter(tokens, (t: string) => !php.Means(t, id))
  }

  /**
    `jeedom2ha_toggle_excluded_object`.  The text is touched only when the id is not in the wanted state yet; the other
    tokens stay, in order.
  */
  method Toggle(csv: string, id: int, excluded: bool, php: Php) returns (e: Edit)
    requires php.ReadsDecimals() && IsPhpInt(id)
    ensures e.changed <==> Excludes(Tokens(csv), id, php) != excluded
    ensures !e.changed ==> e.csv == csv
    ensures e.changed ==> Tokens(e.csv) == EditedTokens(Tokens(csv), id, excluded, php)
    ensures e.ids == ExcludedIds(e.csv, php)
  {
    hide Trim, ExcludedIds, Join;
    var parts := Split(csv, COMMA);
    hide Split;
    var tokens: seq<string> := [];
    ghost var given := (t: string) => t != "";
    FilterStep([], "", given);
    assert TrimAll(parts)[..0] == [];
    for i := 0 to |parts|
      invariant tokens == Filter(TrimAll(parts)[..i], given)
    {
      var token := Trim(parts[i], IsSpace);
      assert TrimAll(parts)[..i+1] == TrimAll(parts)[..i] + [token];
      FilterStep(TrimAll(parts)[..i], token, given);
      if token != "" {
        tokens := tokens + [token];
      }
    }
    assert TrimAll(parts)[..|parts|] == TrimAll(parts);
    var present := false;
    for i := 0 to |tokens|
      invariant !present && forall k :: 0 <= k < i ==> !php.Means(tokens[k], id)
    {
      if php.Means(tokens[i], id) {
        present := true;
        break;
      }
    }
    assert present == Excludes(tokens, id, php);
    if present == excluded {
      return Edit(csv, false, ExcludedIds(csv, php));
    }
    forall t | t in tokens ensures IsToken(t) {
      TokensAreTokens(csv, t);
    }
    DecimalIsToken(id);
    var next := if excluded then tokens + [IntText(id)] else Filter(tokens, (t: string) => !php.Means(t, id));
    forall i | 0 <= i < |next| ensures IsToken(next[i]) {
      assert next[i] in next;
      FilterMembers(tokens, (t: string) => !php.Means(t, id), next[i]);
    }
    TokensOfJoin(next);
    e := Edit(Join(next, [COMMA]), true, ExcludedIds(Join(next, [COMMA]), php));
  }

  lemma DecimalIsToken(id: int)
    ensures IsToken(IntText(id))
  {
  }

  /** The edit changes the id, and that one only, whatever else the text holds. */
  lemma EditIsExact(tokens: seq<string>, id: int, excluded: bool, php: Php, other: int)
    requires php.ReadsDecimals() && IsPhpInt(id)
    ensures Excludes(EditedTokens(tokens, id, excluded, php), other, php) <==>
      if other == id then excluded else Excludes(tokens, other, php)
  {
    hide IntText;
    assert php.Means(IntText(id), id);
    var after := EditedTokens(tokens, id, excluded, php);
    if excluded {
      assert after[|tokens|] == IntText(id);
      if Excludes(tokens, other, php) {
        var i :| 0 <= i < |tokens| && php.Means(tokens[i], other);
        assert after[i] == tokens[i];
      }
    } else {
      var stays := (t: string) => !php.Means(t, id);
      if Excludes(after, other, php) {
        var i :| 0 <= i < |after| && php.Means(after[i], other);
        FilterMembers(tokens, stays, after[i]);
        var k :| 0 <= k < |tokens| && tokens[k] == after[i];
        assert php.Means(tokens[k], other);
      }
      if other != id && Excludes(tokens, other, php) {
        var i :| 0 <= i < |tokens| && php.Means(tokens[i], other);
        FilterMembers(tokens, stays, tokens[i]);
        var k :| 0 <= k < |after| && after[k] == tokens[i];
        assert php.Means(after[k], other);
      }
    }
  }

  /** Excluding a room and taking it back gives the tokens back. */
  lemma {:induction false} ToggleTwiceRestores(tokens: seq<string>, id: int, php: Php)
    requires php.ReadsDecimals() && IsPhpInt(id) && !Excludes(tokens, id, php)
    ensures EditedTokens(EditedTokens(tokens, id, true, php), id, false, php) == tokens
  {
    hide IntText;
    var stays := (t: string) => !php.Means(t, id);
    assert php.Means(IntText(id), id);
    FilterStep(tokens, IntText(id), stays);
    FilterAll(tokens, stays);
  }

  // ---------------------------------------------------------------------------------------
  // The route
  // ---------------------------------------------------------------------------------------

  datatype Raw = IntegerValue(n: int) | TextValue(s: string) | OtherValue

  datatype Refusal = InvalidId | InvalidValue | UnknownRoom

  datatype Saved = Saved(id: int, excluded: bool, changed: bool, ids: seq<int>)

  predicate IsNineDigits(s: string) { 1 <= |s| <= 9 && AllDigits(s) && s[0] != '0' }

  /** `/^[1-9][0-9]{0,8}$/`: PHP's `$` also stands before a final line feed. */
  predicate MatchesId(s: string) { IsNineDigits(s) || (s != "" && s[|s|-1] == '\n' && IsNineDigits(s[..|s|-1])) }

  function IdText(raw: Raw): Option<string> {
    match raw
    case IntegerValue(n) => Some(IntText(n))
    case TextValue(s) => Some(s)
    case OtherValue => None
  }

  function IdValue(s: string): int
    requires MatchesId(s)
  {
    if IsNineDigits(s) then DigitsValue(s) else DigitsValue(s[..|s|-1])
  }

  function CheckRequest(raw: Raw, excluded: Raw, exists': int -> bool): Result<int, Refusal> {
    if IdText(raw).None? || !MatchesId(IdText(raw).value) then Err(InvalidId)
    else if excluded != TextValue("1") && excluded != TextValue("0") then Err(InvalidValue)
    else if !exists'(IdValue(IdText(raw).value)) then Err(UnknownRoom)
    else Ok(IdValue(IdText(raw).value))
  }

  /** What a request is refused for, in the order it is looked at; what is accepted names a room that exists. */
  lemma CheckMeaning(raw: Raw, excluded: Raw, exists': int -> bool)
    ensures var r := CheckRequest(raw, excluded, exists');
      var text := if raw.IntegerValue? then Some(IntText(raw.n)) else if raw.TextValue? then Some(raw.s) else None;
      var named := text.Some? && MatchesId(text.value);
      var valued := excluded == TextValue("0") || excluded == TextValue("1");
      && (r == Err(InvalidId) <==> !named)
      && (r == Err(InvalidValue) <==> named && !valued)
      && (r == Err(UnknownRoom) <==> named && valued && !exists'(IdValue(text.value)))
      && (r.Ok? ==> named && r.value == IdValue(text.value) && exists'(r.value))
  {
    hide MatchesId;
  }

  /** An accepted integer is itself, between 1 and 999 999 999. */
  lemma AcceptedIds(n: int)
    ensures MatchesId(IntText(n)) <==> 1 <= n < 1_000_000_000
    ensures MatchesId(IntText(n)) ==> IdValue(IntText(n)) == n
  {
    var digits := Digits(if n < 0 then -n else n);
    assert IsDigit(digits[|digits|-1]);
    if n >= 0 {
      DigitsRoundTrip(n);
      DigitsLength(n, 9);
      assert PowerOfTen(3) == 1000;
      assert PowerOfTen(6) == 1000000;
      assert PowerOfTen(9) == 1_000_000_000;
    }
  }

  /** The text that is accepted is the decimal text of its id, except when it ends with a line feed. */
  lemma AcceptedTextExactlyWhen(s: string)
    requires MatchesId(s)
    ensures s == IntText(IdValue(s)) <==> s[|s|-1] != '\n'
  {
    if IsNineDigits(s) {
      CanonicalDigits(s);
    } else {
      assert s[|s|-1] == '\n';
      var id := IdValue(s);
      AcceptedIsSmall(s);
      assert IsDigit(IntText(id)[|IntText(id)|-1]);
    }
  }

  /** A room id followed by a line feed is answered as the id alone. */
  lemma LineFeedIsAccepted(s: string, excluded: Raw, exists': int -> bool)
    requires IsNineDigits(s)
    ensures MatchesId(s + "\n")
    ensures CheckRequest(TextValue(s + "\n"), excluded, exists') == CheckRequest(TextValue(s), excluded, exists')
  {
    assert (s + "\n")[..|s|] == s;
  }

  /** The ids read from the two texts differ at one id at most, which is as asked for in the second. */
  ghost predicate DiffersAt(before: string, after: string, id: int, excluded: bool, php: Php) {
    forall k :: k in ExcludedIds(after, php) <==> if k == id then excluded else k in ExcludedIds(before, php)
  }

  /** An accepted id has nine digits at most. */
  lemma AcceptedIsSmall(s: string)
    requires MatchesId(s)
    ensures 1 <= IdValue(s) < 1_000_000_000
  {
    var digits := if IsNineDigits(s) then s else s[..|s|-1];
    CanonicalDigits(digits);
    AcceptedIds(DigitsValue(digits));
  }

  class Config {
    var excludedObjects: string
    var writes: nat

    constructor (csv: string)
      ensures excludedObjects == csv && writes == 0
    {
      excludedObjects, writes := csv, 0;
    }

    /** `jeedom2ha_save_room_exclusion`: a refusal writes nothing, and an edit without effect neither. */
    method SaveRoomExclusion(raw: Raw, excluded: Raw, exists': int -> bool, php: Php)
      returns (r: Result<Saved, Refusal>)
      requires php.ReadsDecimals()
      modifies this
      ensures r.Err? <==> CheckRequest(raw, excluded, exists').Err?
      ensures r.Err? ==>
        r.error == CheckRequest(raw, excluded, exists').error && excludedObjects == old(excludedObjects)
        && writes == old(writes)
      ensures r.Ok? ==>
        && r.value.id == CheckRequest(raw, excluded, exists').value
        && r.value.excluded == (excluded == TextValue("1"))
      ensures r.Ok? ==>
        && r.value.ids == ExcludedIds(excludedObjects, php)
        && writes == old(writes) + if r.value.changed then 1 else 0
      ensures r.Ok? && !r.value.changed ==> excludedObjects == old(excludedObjects)
      ensures r.Ok? ==> DiffersAt(old(excludedObjects), excludedObjects, r.value.id, r.value.excluded, php)
    {
      hide MatchesId, ExcludedIds, Tokens, Excludes, EditedTokens;
      var text := IdText(raw);
      if text.None? || !MatchesId(text.value) {
        return Err(InvalidId);
      }
      if excluded != TextValue("1") && excluded != TextValue("0") {
        return Err(InvalidValue);
      }
      var id := IdValue(text.value);
      if !exists'(id) {
        return Err(UnknownRoom);
      }
      AcceptedIsSmall(text.value);
      var wanted := excluded == TextValue("1");
      var edit := Toggle(excludedObjects, id, wanted, php);
      if edit.changed {
        excludedObjects := edit.csv;
        writes := writes + 1;
      }
      forall k ensures k in ExcludedIds(excludedObjects, php) <==>
        if k == id then wanted else k in ExcludedIds(old(excludedObjects), php)
      {
        IdsAreMeant(excludedObjects, k, php);
        IdsAreMeant(old(excludedObjects), k, php);
        EditIsExact(Tokens(old(excludedObjects)), id, wanted, php, k);
      }
      r := Ok(Saved(id, wanted, edit.changed, edit.ids));
    }
  }
}
