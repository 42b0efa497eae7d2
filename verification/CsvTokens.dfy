/** Comma-separated text: its tokens, and how they are written back. */
module CsvTokens {
  import opened Prelude
  import opened Text

  const COMMA := ','

  /** What PHP's `trim` removes. */
  predicate IsSpace(c: char) { c == ' ' || c == '\t' || c == '\n' || c == '\r' || c == '\0' || c == '\U{000B}' }

  function TrimAll(parts: seq<string>): (r: seq<string>)
    ensures |r| == |parts| && forall i :: 0 <= i < |r| ==> r[i] == Trim(parts[i], IsSpace)
  {
    seq(|parts|, i requires 0 <= i < |parts| => Trim(parts[i], IsSpace))
  }

  /** The tokens of the text: trimmed, the empty ones left out. */
  function Tokens(csv: string): seq<string> { Filter(TrimAll(Split(csv, COMMA)), (t: string) => t != "") }

  /** A token that can be written and read back. */
  predicate IsToken(t: string) { t != "" && IsTrimmed(t, IsSpace) && COMMA !in t }

  lemma TokensAreTokens(csv: string, t: string)
    requires t in Tokens(csv)
    ensures IsToken(t)
  {
    hide Split, Trim, IsTrimmed;
    var parts := Split(csv, COMMA);
    FilterMembers(TrimAll(parts), (t: string) => t != "", t);
    var i :| 0 <= i < |parts| && TrimAll(parts)[i] == t;
    TrimMeaning(parts[i], IsSpace);
    SplitHasNoSeparator(csv, COMMA);
  }

  /** Written tokens are read back. */
  lemma TokensOfJoin(tokens: seq<string>)
    requires forall i :: 0 <= i < |tokens| ==> IsToken(tokens[i])
    ensures Tokens(Join(tokens, [COMMA])) == tokens
  {
    hide Trim, IsTrimmed, Split, Join;
    if tokens == [] {
      EmptyText();
    } else {
      SplitJoin(tokens, COMMA);
      forall i | 0 <= i < |tokens| ensures Trim(tokens[i], IsSpace) == tokens[i] {
        TrimMeaning(tokens[i], IsSpace);
      }
      assert TrimAll(tokens) == tokens;
      FilterAll(tokens, (t: string) => t != "");
    }
  }

  lemma EmptyText()
    ensures Tokens(Join([], [COMMA])) == []
  {
    assert TrimAll([""]) == [""];
    FilterStep([], "", (t: string) => t != "");
    assert [] + [""] == [""];
  }

  /** A text of blanks holds no token: spaces, tabs, ends of line, null characters and vertical tabs. */
  lemma BlanksAreNoToken(c: char)
    ensures Tokens([c]) == [] <==> c in {' ', '\t', '\n', '\r', '\0', '\U{000B}', ','}
  {
    if c == COMMA {
      TokensOfComma();
    } else {
      TokensOfOne(c);
      TrimOfOne(c);
    }
  }

  lemma TokensOfComma()
    ensures Tokens([COMMA]) == []
  {
    var given := (t: string) => t != "";
    assert Split([COMMA], COMMA) == ["", ""] && [] + [""] == [""] && [""] + [""] == ["", ""];
    assert TrimAll(["", ""]) == ["", ""];
    FilterStep([], "", given);
    FilterStep([""], "", given);
  }

  lemma TokensOfOne(c: char)
    requires c != COMMA
    ensures Tokens([c]) == if Trim([c], IsSpace) != "" then [Trim([c], IsSpace)] else []
  {
    SplitFirst([c], "", COMMA);
    hide Trim, IsSpace;
    assert TrimAll([[c]]) == [] + [Trim([c], IsSpace)];
    FilterStep([], Trim([c], IsSpace), (t: string) => t != "");
  }

  lemma TrimOfOne(c: char)
    ensures Trim([c], IsSpace) == "" <==> IsSpace(c)
  {
    if IsSpace(c) {
      assert [c][1..] == "" && TrimLeft("", IsSpace) == "" && TrimLeft([c], IsSpace) == "";
    } else {
      TrimMeaning([c], IsSpace);
    }
  }

  /** `array_unique`: the first of equal texts. */
  function Unique(tokens: seq<string>): seq<string> {
    if tokens == [] then []
    else
      var before, last := Unique(tokens[..|tokens|-1]), tokens[|tokens|-1];
      if last in before then before else before + [last]
  }

  lemma {:induction false} UniqueMeaning(tokens: seq<string>, t: string)
    ensures t in Unique(tokens) <==> t in tokens
    ensures Distinct(Unique(tokens))
  {
    if tokens != [] {
      var n := |tokens| - 1;
      UniqueMeaning(tokens[..n], t);
      assert tokens == tokens[..n] + [tokens[n]];
    }
  }
}
