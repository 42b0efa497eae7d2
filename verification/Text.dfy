/** Splitting, joining and trimming of text. */
module Text {
  import opened Prelude

  /** `split(sep)` in JavaScript, `explode` in PHP: always at least one part. */
  function Split(s: string, sep: char): (r: seq<string>)
    ensures r != []
  {
    if s == "" then [""]
    else if s[0] == sep then [""] + Split(s[1..], sep)
    else
      var rest := Split(s[1..], sep);
      [[s[0]] + rest[0]] + rest[1..]
  }

  function Join(parts: seq<string>, sep: string): string {
    if parts == [] then "" else if |parts| == 1 then parts[0] else parts[0] + sep + Join(parts[1..], sep)
  }

  lemma {:induction false} SplitFirst(part: string, rest: string, sep: char)
    requires sep !in part
    ensures Split(part, sep) == [part] && Split(part + [sep] + rest, sep) == [part] + Split(rest, sep)
  {
    if part == "" {
      assert part + [sep] + rest == [sep] + rest;
      assert ([sep] + rest)[1..] == rest;
    } else {
      SplitFirst(part[1..], rest, sep);
      assert (part + [sep] + rest)[1..] == part[1..] + [sep] + rest;
      assert part == [part[0]] + part[1..];
    }
  }

  /** Parts without the separator are found again. */
  lemma {:induction false} SplitJoin(parts: seq<string>, sep: char)
    requires parts != [] && forall i :: 0 <= i < |parts| ==> sep !in parts[i]
    ensures Split(Join(parts, [sep]), sep) == parts
  {
    hide Split;
    if |parts| == 1 {
      SplitFirst(parts[0], "", sep);
      assert parts == [parts[0]];
    } else {
      var rest := parts[1..];
      SplitJoin(rest, sep);
      SplitFirst(parts[0], Join(rest, [sep]), sep);
      assert parts == [parts[0]] + rest;
    }
  }

  lemma {:induction false} SplitHasNoSeparator(s: string, sep: char)
    ensures forall i :: 0 <= i < |Split(s, sep)| ==> sep !in Split(s, sep)[i]
  {
    if s != "" {
      SplitHasNoSeparator(s[1..], sep);
    }
  }

  function TrimLeft(s: string, blank: char -> bool): string {
    if s != "" && blank(s[0]) then TrimLeft(s[1..], blank) else s
  }

  function TrimRight(s: string, blank: char -> bool): string {
    if s != "" && blank(s[|s|-1]) then TrimRight(s[..|s|-1], blank) else s
  }

  function Trim(s: string, blank: char -> bool): string { TrimRight(TrimLeft(s, blank), blank) }

  predicate IsTrimmed(s: string, blank: char -> bool) { s != "" ==> !blank(s[0]) && !blank(s[|s|-1]) }

  lemma {:induction false} TrimmedLeft(s: string, blank: char -> bool)
    ensures var t := TrimLeft(s, blank); (t != "" ==> !blank(t[0])) && forall c :: c in t ==> c in s
  {
    if s != "" && blank(s[0]) {
      TrimmedLeft(s[1..], blank);
    }
  }

  lemma {:induction false} TrimmedRight(s: string, blank: char -> bool)
    ensures var t := TrimRight(s, blank); t <= s && (t != "" ==> !blank(t[|t|-1])) && forall c :: c in t ==> c in s
  {
    if s != "" && blank(s[|s|-1]) {
      TrimmedRight(s[..|s|-1], blank);
    }
  }

  /** A trimmed text is trimmed, made of characters of the text, and stays as it is. */
  lemma TrimMeaning(s: string, blank: char -> bool)
    ensures IsTrimmed(Trim(s, blank), blank) && forall c :: c in Trim(s, blank) ==> c in s
    ensures IsTrimmed(s, blank) ==> Trim(s, blank) == s
  {
    TrimmedLeft(s, blank);
    TrimmedRight(TrimLeft(s, blank), blank);
  }

  /** Only the blanks around a text are taken off. */
  lemma {:induction false} TrimPadded(before: string, s: string, after: string, blank: char -> bool)
    requires IsTrimmed(s, blank) && forall c :: c in before + after ==> blank(c)
    ensures Trim(before + s + after, blank) == s
  {
    if before != "" {
      TrimPadded(before[1..], s, after, blank);
      assert (before + s + after)[1..] == before[1..] + s + after;
    } else if after != "" && s != "" {
      TrimPadded(before, s, after[..|after|-1], blank);
      assert (s + after)[..|s + after|-1] == s + after[..|after|-1];
      assert before + s == s;
    } else if after != "" {
      TrimPadded(before, s, after[1..], blank);
      assert (before + s + after)[1..] == before + s + after[1..];
    } else {
      TrimMeaning(s, blank);
      assert before + s + after == s;
    }
  }

  /** The texts part where the one is over, or has the lesser character. */
  lemma {:induction false} LessMeaning(a: string, b: string)
    ensures Less(a, b) <==> exists k :: PartsAt(a, b, k)
  {
    if a != "" && b != "" && a[0] == b[0] {
      LessMeaning(a[1..], b[1..]);
      if k :| PartsAt(a[1..], b[1..], k) {
        assert a == [a[0]] + a[1..] && b == [b[0]] + b[1..];
        assert a[..k+1] == [a[0]] + a[1..][..k] && b[..k+1] == [b[0]] + b[1..][..k];
        assert PartsAt(a, b, k + 1);
      }
      if k :| PartsAt(a, b, k) {
        assert k > 0;
        assert a[1..][..k-1] == a[..k][1..] && b[1..][..k-1] == b[..k][1..];
        assert PartsAt(a[1..], b[1..], k - 1);
      }
    } else if b != "" && (a == "" || a[0] < b[0]) {
      assert PartsAt(a, b, 0);
    }
  }

  predicate PartsAt(a: string, b: string, k: int) {
    0 <= k <= |a| && k < |b| && a[..k] == b[..k] && (k == |a| || a[k] < b[k])
  }

  /** The order of the first character that differs, a text coming before those it begins. */
  predicate Less(a: string, b: string) {
    b != "" && (a == "" || a[0] < b[0] || (a[0] == b[0] && Less(a[1..], b[1..])))
  }
}
