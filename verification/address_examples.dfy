/**
 * The address rule on the inputs of tests/testaddress.cpp, for any street
 * dictionary holding "Aabyvej".
 */
module AddressExamples {
  import opened Optional
  import opened Rules
  import opened Words
  import opened AddressRule

  /** Outside a word an upper-case letter opens one that has collected that letter. */
  lemma RunOpens(dict: set<string>, content: string, i: nat, s: Scan)
    requires i < |content| && !s.inWord && IsUpper(content[i])
    ensures Run(dict, content, i, s) == Run(dict, content, i + 1, Scan(true, i, content[i..i + 1]))
  {
    assert [] + [content[i]] == content[i..i + 1];
  }

  /** A space closes the open word, reporting it when the dictionary holds it. */
  lemma RunCloses(dict: set<string>, content: string, i: nat, s: Scan)
    requires i < |content| && s.inWord && content[i] == ' '
    ensures Run(dict, content, i, s) ==
      (if s.address in dict then [NewMatch(s.address, s.begin, i)] else []) + Run(dict, content, i + 1, s.(inWord := false))
  {
  }

  /** Outside a word a character other than an upper-case letter is skipped. */
  lemma RunOutside(dict: set<string>, content: string, i: nat, s: Scan)
    requires i < |content| && !s.inWord && !IsUpper(content[i])
    ensures Run(dict, content, i, s) == Run(dict, content, i + 1, s)
  {
  }

  /** Inside a word every character up to the next space is collected. */
  lemma {:induction false} RunThroughWord(dict: set<string>, content: string, i: nat, e: nat, s: Scan)
    requires i <= e <= |content| && s.inWord
    requires forall k :: i <= k < e ==> content[k] != ' '
    ensures Run(dict, content, i, s) == Run(dict, content, e, s.(address := s.address + content[i..e]))
    decreases e - i
  {
    if i < e {
      var s' := s.(address := s.address + [content[i]]);
      assert Run(dict, content, i, s) == Run(dict, content, i + 1, s');
      RunThroughWord(dict, content, i + 1, e, s');
      assert s'.address + content[i + 1..e] == s.address + content[i..e];
    } else {
      assert s.address + content[i..e] == s.address;
    }
  }

  /** "Aabyvej" opens at 0 and stays open through index 6. */
  lemma StreetOpen(dict: set<string>, c: string)
    requires |c| >= 7 && c[..7] == "Aabyvej"
    ensures Run(dict, c, 0, Start) == Run(dict, c, 7, Scan(true, 0, "Aabyvej"))
  {
    RunOpens(dict, c, 0, Start);
    RunThroughWord(dict, c, 1, 7, Scan(true, 0, c[0..1]));
    assert c[0..1] + c[1..7] == c[..7];
  }

  /** Empty content holds no address. */
  lemma EmptyContent(dict: set<string>)
    ensures FindMatches(dict, "") == []
  {
  }

  /** The street name alone, with no space after it, is never a candidate. */
  lemma StreetNameOnly(dict: set<string>)
    ensures FindMatches(dict, "Aabyvej") == []
  {
    StreetOpen(dict, "Aabyvej");
  }

  /** The street name and the number 1 are reported as one address from 0 to 8. */
  lemma StreetAndNumber(dict: set<string>)
    requires "Aabyvej" in dict
    ensures FindMatches(dict, "Aabyvej 1") == [NewMatch("Aabyvej 1", 0, 8)]
  {
    var c := "Aabyvej 1";
    StreetOpen(dict, c);
    var s7 := Scan(true, 0, "Aabyvej");
    RunCloses(dict, c, 7, s7);
    RunOutside(dict, c, 8, s7.(inWord := false));
    var m := NewMatch("Aabyvej", 0, 7);
    assert Candidates(dict, c) == [m];
    assert DigitRun(c, 9) == 0;
    assert DigitRun(c, 8) == 1;
    assert "Aabyvej" + " " + c[8..9] == "Aabyvej 1";
    assert AppendNumber(m, c) == Some(NewMatch("Aabyvej 1", 0, 8));
  }

  /** A house number with a leading zero is rejected. */
  lemma LeadingZero(dict: set<string>)
    requires "Aabyvej" in dict
    ensures FindMatches(dict, "Aabyvej 01") == []
  {
    var c := "Aabyvej 01";
    StreetOpen(dict, c);
    var s7 := Scan(true, 0, "Aabyvej");
    RunCloses(dict, c, 7, s7);
    RunOutside(dict, c, 8, s7.(inWord := false));
    RunOutside(dict, c, 9, s7.(inWord := false));
    var m := NewMatch("Aabyvej", 0, 7);
    assert Candidates(dict, c) == [m];
    assert AppendNumber(m, c) == None;
  }

  /** Whatever the dictionary and the content, a two-word street name and its number are never reported whole. */
  lemma TwoWordStreet(dict: set<string>, content: string, x: MatchResult)
    requires x in FindMatches(dict, content)
    ensures x.text != "Aabenraa Landevej 1"
  {
    OneSpace(dict, content, x);
    var t := "Aabenraa Landevej 1";
    assert t[8] == ' ' && t[17] == ' ';
  }
}
