/** Decimal text of integers: how identifiers become keys, topics and fragments, and how they are read back. */
module Decimal {
  import opened Prelude
  import opened Text

  predicate IsDigit(c: char) { '0' <= c <= '9' }

  predicate AllDigits(s: string) { forall i :: 0 <= i < |s| ==> IsDigit(s[i]) }

  function DigitOf(c: char): (d: nat)
    requires IsDigit(c)
    ensures d < 10
  {
    c as int - '0' as int
  }

  function DigitChar(d: nat): (c: char)
    requires d < 10
    ensures IsDigit(c) && DigitOf(c) == d
  {
    (d + '0' as int) as char
  }

  /** Shortest decimal text of a natural number. */
  function Digits(n: nat): (s: string)
    ensures s != "" && AllDigits(s)
    ensures s[0] == '0' <==> n == 0
  {
    if n < 10 then [DigitChar(n)] else Digits(n / 10) + [DigitChar(n % 10)]
  }

  /** Value of a run of digits, leading zeros allowed. */
  function DigitsValue(s: string): nat
    requires AllDigits(s)
  {
    if s == "" then 0 else 10 * DigitsValue(s[..|s|-1]) + DigitOf(s[|s|-1])
  }

  lemma {:induction false} DigitsRoundTrip(n: nat)
    ensures DigitsValue(Digits(n)) == n
  {
    if n < 10 {
      assert Digits(n)[..0] == "";
    } else {
      DigitsRoundTrip(n / 10);
      assert Digits(n)[..|Digits(n)|-1] == Digits(n / 10);
    }
  }

  /** A canonical run of digits is the text of its value. */
  lemma {:induction false} CanonicalDigits(s: string)
    requires s != "" && AllDigits(s) && (s[0] == '0' ==> |s| == 1)
    ensures Digits(DigitsValue(s)) == s
    ensures s[0] != '0' ==> DigitsValue(s) > 0
  {
    if |s| == 1 {
      assert s[..0] == "";
      assert DigitsValue(s) == DigitOf(s[0]);
      assert s == [DigitChar(DigitOf(s[0]))];
    } else {
      var front := s[..|s|-1];
      CanonicalDigits(front);
      assert s == front + [DigitChar(DigitOf(s[|s|-1]))];
      assert DigitsValue(s) / 10 == DigitsValue(front);
    }
  }

  function PowerOfTen(k: nat): nat { if k == 0 then 1 else 10 * PowerOfTen(k - 1) }

  /** A text of at most `k` digits is a number below ten to the power `k`, and conversely. */
  lemma {:induction false} DigitsLength(n: nat, k: nat)
    requires k > 0
    ensures |Digits(n)| <= k <==> n < PowerOfTen(k)
  {
    if n >= 10 {
      if k > 1 {
        DigitsLength(n / 10, k - 1);
      }
    } else if k > 1 {
      PowerPositive(k - 1);
    }
  }

  lemma {:induction false} PowerPositive(k: nat)
    ensures PowerOfTen(k) >= 1
  {
    if k > 0 { PowerPositive(k - 1); }
  }

  /** Text of an integer: `str(n)`, `String(n)`. */
  function IntText(n: int): (s: string)
    ensures s != "" && (s[0] == '-' <==> n < 0)
  {
    if n < 0 then "-" + Digits(-n) else Digits(n)
  }

  lemma IntTextInjective(a: int, b: int)
    requires IntText(a) == IntText(b)
    ensures a == b
  {
    if a < 0 {
      assert IntText(a)[1..] == Digits(-a) && IntText(b)[1..] == Digits(-b);
      DigitsRoundTrip(-a);
      DigitsRoundTrip(-b);
    } else {
      DigitsRoundTrip(a);
      DigitsRoundTrip(b);
    }
  }

  // ---------------------------------------------------------------------------------------
  // Python's `int(text)`
  // ---------------------------------------------------------------------------------------

  /** The blanks of ASCII, for Python. */
  predicate IsBlank(c: char) {
    || c == ' ' || c == '\t' || c == '\n' || c == '\r' || c == '\U{000B}' || c == '\U{000C}'
    || '\U{001C}' <= c <= '\U{001F}'
  }

  /** Digits with single underscores between them. */
  predicate IsIntBody(s: string) {
    s != "" && IsDigit(s[0])
    && (|s| == 1 || IsIntBody(s[1..]) || (s[1] == '_' && IsIntBody(s[2..])))
  }

  function WithoutUnderscores(s: string): string {
    if s == "" then "" else (if s[0] == '_' then "" else [s[0]]) + WithoutUnderscores(s[1..])
  }

  lemma {:induction false} BodyDigits(s: string)
    requires IsIntBody(s)
    ensures AllDigits(WithoutUnderscores(s))
  {
    if |s| > 1 {
      if IsIntBody(s[1..]) {
        BodyDigits(s[1..]);
      } else {
        BodyDigits(s[2..]);
        assert s[1..][1..] == s[2..];
        assert WithoutUnderscores(s[1..]) == WithoutUnderscores(s[2..]);
      }
    } else {
      assert s[1..] == "";
    }
  }

  function ParseBody(s: string): Option<nat> {
    if IsIntBody(s) then
      BodyDigits(s);
      Some(DigitsValue(WithoutUnderscores(s)))
    else None
  }

  /** None stands for the ValueError. */
  function ParseInt(text: string): Option<int> {
    var s := Trim(text, IsBlank);
    if s == "" then None
    else if s[0] == '-' || s[0] == '+' then
      var body := ParseBody(s[1..]);
      if body.None? then None
      else
        var magnitude: int := body.value;
        Some(if s[0] == '-' then -magnitude else magnitude)
    else ParseBody(s)
  }

  /** Digits and underscores that stand between two digits. */
  lemma {:induction false} IntBodyMeaning(s: string)
    ensures IsIntBody(s) <==>
      && s != "" && IsDigit(s[0]) && IsDigit(s[|s|-1]) && (forall i :: 0 <= i < |s| ==> IsDigit(s[i]) || s[i] == '_')
      && forall i :: 0 <= i < |s| - 1 ==> IsDigit(s[i]) || IsDigit(s[i + 1])
    decreases |s|
  {
    if |s| > 1 {
      var one := s[1..];
      IntBodyMeaning(one);
      assert forall i :: 0 <= i < |one| ==> one[i] == s[i + 1];
      if s[1] == '_' && |s| > 2 {
        var two := s[2..];
        IntBodyMeaning(two);
        assert forall i :: 0 <= i < |two| ==> two[i] == s[i + 2];
      }
      assert forall i :: 1 <= i < |s| ==> s[i] == one[i - 1];
      assert |s| > 2 ==> forall i :: 2 <= i < |s| ==> s[i] == s[2..][i - 2];
    }
  }

  /** An optional sign, then digits; anything else is refused. */
  lemma ParseIntMeaning(text: string)
    ensures var s := Trim(text, IsBlank);
      var signed := s != "" && (s[0] == '-' || s[0] == '+');
      var body := if signed then s[1..] else s;
      && (ParseInt(text).Some? <==> IsIntBody(body))
      && (IsIntBody(body) ==> AllDigits(WithoutUnderscores(body)))
      && (IsIntBody(body) ==>
         var n: int := DigitsValue(WithoutUnderscores(body));
         ParseInt(text) == Some(if signed && s[0] == '-' then -n else n))
  {
    var s := Trim(text, IsBlank);
    var body := if s != "" && (s[0] == '-' || s[0] == '+') then s[1..] else s;
    if IsIntBody(body) {
      BodyDigits(body);
    }
  }

  lemma {:induction false} DigitsAreBody(s: string)
    requires s != "" && AllDigits(s)
    ensures IsIntBody(s) && WithoutUnderscores(s) == s
  {
    if |s| > 1 {
      DigitsAreBody(s[1..]);
    } else {
      assert s[1..] == "";
    }
    assert [s[0]] + s[1..] == s;
  }

  lemma ParseDigits(s: string)
    requires s != "" && AllDigits(s)
    ensures ParseInt(s) == Some(DigitsValue(s))
  {
    assert IsDigit(s[0]) && IsDigit(s[|s|-1]);
    DigitsAreBody(s);
  }

  lemma ParseIntText(n: int)
    ensures ParseInt(IntText(n)) == Some(n)
  {
    var t := IntText(n);
    var digits := Digits(if n < 0 then -n else n);
    assert IsDigit(digits[0]);
    assert n < 0 ==> t[0] == '-' && t[1..] == digits;
    IntTextIsTrimmed(n);
    TrimMeaning(t, IsBlank);
    DigitsAreBody(digits);
    DigitsRoundTrip(if n < 0 then -n else n);
    hide Trim, IsTrimmed, Digits, DigitsValue, IsIntBody, WithoutUnderscores;
  }

  /** Blanks around an integer change nothing. */
  lemma ParsePadded(before: string, n: int, after: string)
    requires forall c :: c in before + after ==>
      c in " \t\n\r\U{000B}\U{000C}\U{001C}\U{001D}\U{001E}\U{001F}"
    ensures ParseInt(before + IntText(n) + after) == Some(n)
  {
    ParseIntText(n);
    var t := IntText(n);
    IntTextIsTrimmed(n);
    TrimPadded(before, t, after, IsBlank);
    TrimMeaning(t, IsBlank);
  }

  lemma IntTextIsTrimmed(n: int)
    ensures IsTrimmed(IntText(n), IsBlank)
  {
    var digits := Digits(if n < 0 then -n else n);
    assert IsDigit(digits[0]) && IsDigit(digits[|digits|-1]);
  }
}
