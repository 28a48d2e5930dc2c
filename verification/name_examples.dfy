/**
 * The name rule on the inputs of tests/testname.cpp, for name lists that
 * hold JOHN and PETER.
 */
module NameExamples {
  import opened Optional
  import opened Rules
  import opened Words
  import opened NameRule

  /** Empty content holds no name. */
  lemma EmptyContent(names: Names)
    ensures FindMatches(names, "") == []
  {
  }

  /** Characters that are no delimiter leave an open word open. */
  lemma {:induction false} RunThroughWord(names: Names, content: string, i: nat, e: nat, b: nat)
    requires b <= i <= e <= |content|
    requires forall k :: i <= k < e ==> !IsEnd(NameEnds, content[k])
    ensures Run(names, content, i, Scan(true, b)) == Run(names, content, e, Scan(true, b))
    decreases e - i
  {
    if i < e {
      RunThroughWord(names, content, i + 1, e, b);
    }
  }

  lemma JohnIsKnown(names: Names)
    requires "JOHN" in names.first
    ensures Known(names, "John")
  {
    assert Upper("John") == "JOHN";
  }

  lemma PeterIsKnown(names: Names)
    requires "PETER" in names.first || "PETER" in names.last
    ensures Known(names, "Peter")
  {
    assert Upper("Peter") == "PETER";
  }

  /** Outside a word an upper-case letter opens one. */
  lemma RunOpens(names: Names, content: string, i: nat, s: Scan)
    requires i < |content| && !s.inWord && IsUpper(content[i])
    ensures Run(names, content, i, s) == Run(names, content, i + 1, Scan(true, i))
  {
  }

  /** A delimiter closes the open word, reporting it when the name is known. */
  lemma RunCloses(names: Names, content: string, i: nat, b: nat)
    requires b <= i < |content| && IsEnd(NameEnds, content[i])
    ensures Run(names, content, i, Scan(true, b)) ==
      (if Known(names, content[b..i]) then [NewMatch(content[b..i], b, i)] else []) + Run(names, content, i + 1, Scan(false, b))
  {
  }

  /** A word open at the end of the content is checked with the content's size as end. */
  lemma RunEnds(names: Names, content: string, b: nat)
    requires b <= |content|
    ensures Run(names, content, |content|, Scan(true, b)) ==
      if Known(names, content[b..]) then [NewMatch(content[b..], b, |content|)] else []
  {
    assert content[b..|content|] == content[b..];
  }

  /** A word that a delimiter closes: scanned from its first letter to the delimiter. */
  lemma ClosedWord(names: Names, content: string, b: nat, e: nat, s: Scan)
    requires b < e < |content| && !s.inWord && IsUpper(content[b])
    requires forall k :: b < k < e ==> !IsEnd(NameEnds, content[k])
    requires IsEnd(NameEnds, content[e])
    ensures Run(names, content, b, s) ==
      (if Known(names, content[b..e]) then [NewMatch(content[b..e], b, e)] else []) + Run(names, content, e + 1, Scan(false, b))
  {
    RunOpens(names, content, b, s);
    RunThroughWord(names, content, b + 1, e, b);
    RunCloses(names, content, e, b);
  }

  /** A word that runs to the end of the content. */
  lemma FinalWord(names: Names, content: string, b: nat, s: Scan)
    requires b < |content| && !s.inWord && IsUpper(content[b])
    requires forall k :: b < k < |content| ==> !IsEnd(NameEnds, content[k])
    ensures Run(names, content, b, s) ==
      if Known(names, content[b..]) then [NewMatch(content[b..], b, |content|)] else []
  {
    RunOpens(names, content, b, s);
    RunThroughWord(names, content, b + 1, |content|, b);
    RunEnds(names, content, b);
  }

  /** A single known name running to the end of the content is reported, end = size. */
  lemma SingleName(names: Names)
    requires "JOHN" in names.first
    ensures FindMatches(names, "John") == [NewMatch("John", 0, 4)]
  {
    var c := "John";
    FinalWord(names, c, 0, Start);
    assert c[0..] == "John";
    JohnIsKnown(names);
  }

  lemma JohnThenPeter(names: Names, c: string)
    requires c == "John Peter"
    requires Known(names, "John") && Known(names, "Peter")
    ensures Run(names, c, 0, Start) == [NewMatch("John", 0, 4)] + Run(names, c, 5, Scan(false, 0))
    ensures Run(names, c, 5, Scan(false, 0)) == [NewMatch("Peter", 5, 10)]
  {
    ClosedWord(names, c, 0, 4, Start);
    FinalWord(names, c, 5, Scan(false, 0));
    assert c[0..4] == "John";
    assert c[5..] == "Peter";
  }

  /** Two known names separated by a space are reported separately; nothing merges them. */
  lemma DoubleName(names: Names)
    requires "JOHN" in names.first && "PETER" in names.first
    ensures FindMatches(names, "John Peter") == [NewMatch("John", 0, 4), NewMatch("Peter", 5, 10)]
  {
    JohnIsKnown(names);
    PeterIsKnown(names);
    JohnThenPeter(names, "John Peter");
  }

  /** A reported name never holds a delimiter, so no report spans two words. */
  lemma NoDelimiterInName(names: Names, content: string, m: MatchResult)
    requires m in FindMatches(names, content)
    ensures forall k :: 0 <= k < |m.text| ==> !IsEnd(NameEnds, m.text[k])
  {
    FindMatchesExact(names, content);
    forall k | 0 <= k < |m.text|
      ensures !IsEnd(NameEnds, m.text[k])
    {
      assert m.text[k] == content[m.start + k];
    }
  }

  /** Whatever the lists and the content, "John Peter" is never reported as one name. */
  lemma NoMergedName(names: Names, content: string, m: MatchResult)
    requires m in FindMatches(names, content)
    ensures m.text != "John Peter"
  {
    NoDelimiterInName(names, content, m);
    assert "John Peter"[4] == ' ';
  }
}
