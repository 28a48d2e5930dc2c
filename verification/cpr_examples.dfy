/**
 * The detector on the inputs of tests/testcpr.cpp. Ten-character inputs
 * follow from CprCompleteness.ExactlyTen; longer ones from soundness (no
 * reported match can fit) or from the boundary rule.
 */
module CprExamples {
  import opened Optional
  import opened Rules
  import opened CprChars
  import opened CprNumber
  import opened CprDetector
  import opened CprSoundness
  import opened CprCompleteness
  import opened CprChecksum
  import opened CprFindings

  /** Texts shorter than ten characters are not scanned at all. */
  lemma ShortText(det: Detector, text: seq<char>)
    requires |text| < 10
    ensures FindMatches(det, text) == [] && FindMatchesAsWritten(det, text) == []
  {
  }

  /** A plain number is reported from its first to its last digit. */
  lemma BasicNumber()
    ensures FindMatches(NewDetector(false), "1111111118") == [NewMatch("1111111118", 0, 9)]
    ensures FindMatches(NewDetector(true), "1111111118") == [NewMatch("1111111118", 0, 9)]
  {
    OnesValid();
    ExactlyTen(NewDetector(false), Ones);
    ExactlyTen(NewDetector(true), Ones);
  }

  /** 29 February 2008 exists. */
  lemma LeapDay()
    ensures FindMatches(NewDetector(false), "2902081111") == [NewMatch("2902081111", 0, 9)]
  {
    var t := "2902081111";
    assert AllDigits(t);
    assert Day(t) == 29 && Month(t) == 2 && Year(t) == 8 && Control(t) == 1111;
    assert IsValidCpr(t, false);
    ExactlyTen(NewDetector(false), t);
  }

  /** 29 February 2011 does not exist. */
  lemma NoLeapDay()
    ensures FindMatches(NewDetector(false), "2902111111") == []
  {
    var t := "2902111111";
    assert Year(t) == 11;
    ExactlyTen(NewDetector(false), t);
  }

  /** Day 99 of month 99 is no date. */
  lemma NoDate()
    ensures FindMatches(NewDetector(false), "9999999999") == []
  {
    var t := "9999999999";
    assert Month(t) == 99;
    ExactlyTen(NewDetector(false), t);
  }

  /** 30 February does not exist. */
  lemma FebruaryThirty()
    ensures FindMatches(NewDetector(false), "3002111111") == []
  {
    var t := "3002111111";
    assert Day(t) == 30 && Month(t) == 2;
    ExactlyTen(NewDetector(false), t);
  }

  /** The control part 0000 is rejected. */
  lemma ControlZero()
    ensures FindMatches(NewDetector(false), "1111110000") == []
  {
    var t := "1111110000";
    assert Control(t) == 0;
    ExactlyTen(NewDetector(false), t);
  }

  /** With the checksum on, 1111111111 is rejected: its weighted sum is 37. */
  lemma ChecksumFails()
    ensures FindMatches(NewDetector(true), "1111111111") == []
  {
    var t := "1111111111";
    assert WeightedSum(t, 10) == 37;
    ExactlyTen(NewDetector(true), t);
  }

  /** Outside a candidate, with no boundary character anywhere ahead, nothing is ever reported. */
  lemma {:induction false} NoBoundaryNoMatch(mode: Mode, det: Detector, text: seq<char>, s: Scan)
    requires s.state == Empty && !IsPreviousOk(s.previous) && s.pos <= |text|
    requires forall k :: s.pos <= k < |text| ==> !IsPreviousOk(text[k])
    ensures Run(mode, det, text, s) == []
    decreases |text| - s.pos
  {
    if s.pos < |text| {
      var o := Step(mode, det, text[s.pos], Ahead(text, s.pos), s);
      assert o == Quiet(Skip(s.(previous := text[s.pos])));
      NoBoundaryNoMatch(mode, det, text, o.next);
    }
  }

  /** A number glued to a preceding '#' is not reported. */
  lemma GluedPrefix(det: Detector)
    ensures FindMatches(det, "#1111111118") == []
  {
    var t := "#1111111118";
    var o := StepAt(det, t, Initial);
    assert o == Quiet(Advance(Initial.(previous := '#')));
    NoBoundaryNoMatch(Intended, det, t, o.next);
  }

  /** Under soundness, digit j of a reported match is a digit of the text. */
  lemma ReportedDigit(det: Detector, text: seq<char>, m: MatchResult, j: nat)
    requires j < 10
    ensures Reported(det, text, m) ==> DigitPos(text, m.start, j) < |text| && IsDigit(text[DigitPos(text, m.start, j)])
  {
  }

  lemma ReportedWithin(det: Detector, text: seq<char>, m: MatchResult)
    ensures Reported(det, text, m) ==> m.start + 9 <= m.end < |text|
  {
    if Reported(det, text, m) {
      ReportedSpan(det, text, m);
    }
  }

  /** A text in which no match can be reported yields nothing. */
  lemma NoneReported(det: Detector, text: seq<char>)
    requires forall m :: !Reported(det, text, m)
    ensures FindMatches(det, text) == []
  {
    FindMatchesSound(det, text);
    HeadIn(FindMatches(det, text));
  }

  lemma HeadIn(r: seq<MatchResult>)
    ensures |r| > 0 ==> r[0] in r
  {
  }

  /** The first six characters are digits. */
  ghost predicate SixDigits(t: seq<char>)
  {
    |t| >= 6 && forall k :: 0 <= k < 6 ==> IsDigit(t[k])
  }

  /** Digit j of a number starting at b would fall on a character that is no digit, or past the end. */
  predicate NoDigit(t: seq<char>, b: nat, j: nat)
  {
    var p := DigitPos(t, b, j); !(p < |t| && IsDigit(t[p]))
  }

  /** In eleven characters whose seventh is neither a digit nor a separator every start misplaces a digit. */
  lemma SeventhNoRoom(t: seq<char>, b: nat)
    requires |t| == 11 && SixDigits(t) && !IsDigit(t[6]) && !IsSeparator(t[6])
    ensures NoDigit(t, b, if b == 0 then 6 else if b == 1 then 5 else 9)
  {
    DigitPosBounds(t, b, 9);
    if b == 0 {
      DigitPosOverDigits(t, 0, 5);
      assert DigitPos(t, 0, 6) == 6;
    } else if b == 1 {
      DigitPosOverDigits(t, 1, 4);
      assert DigitPos(t, 1, 5) == 6;
    }
  }

  lemma SeventhBlocks(det: Detector, t: seq<char>, m: MatchResult)
    requires |t| == 11 && SixDigits(t) && !IsDigit(t[6]) && !IsSeparator(t[6])
    ensures !Reported(det, t, m)
  {
    SeventhNoRoom(t, m.start);
    ReportedDigit(det, t, m, if m.start == 0 then 6 else if m.start == 1 then 5 else 9);
  }

  /** Six digits followed by a character that is neither a digit nor a separator cannot hold a number in eleven characters. */
  lemma BlockedSeventh(det: Detector, t: seq<char>)
    requires |t| == 11 && SixDigits(t) && !IsDigit(t[6]) && !IsSeparator(t[6])
    ensures FindMatches(det, t) == []
  {
    forall m
      ensures !Reported(det, t, m)
    {
      SeventhBlocks(det, t, m);
    }
    NoneReported(det, t);
  }

  /** A letter where the separator would stand resets the candidate. */
  lemma LetterSeparator(det: Detector)
    ensures FindMatches(det, "111111b1118") == []
  {
    BlockedSeventh(det, "111111b1118");
  }

  /** Every character from b up to the j-th digit is a digit or a skipped separator, when the digits are digits. */
  lemma {:induction false} DigitPosCovers(text: seq<char>, b: nat, j: nat, k: nat)
    requires forall i :: 0 <= i <= j ==> DigitPos(text, b, i) < |text| && IsDigit(text[DigitPos(text, b, i)])
    requires b <= k <= DigitPos(text, b, j)
    ensures IsDigit(text[k]) || IsSeparator(text[k])
    decreases j
  {
    if j > 0 && k <= DigitPos(text, b, j - 1) {
      DigitPosCovers(text, b, j - 1, k);
    }
  }

  /** Every character a reported match spans is a digit or a separator. */
  lemma ReportedChars(det: Detector, text: seq<char>, m: MatchResult, k: nat)
    ensures Reported(det, text, m) && m.start <= k <= m.end ==>
      k < |text| && (IsDigit(text[k]) || IsSeparator(text[k]))
  {
    if Reported(det, text, m) && m.start <= k <= m.end {
      forall i | 0 <= i <= 9
        ensures DigitPos(text, m.start, i) < |text| && IsDigit(text[DigitPos(text, m.start, i)])
      {
        ReportedDigit(det, text, m, i);
      }
      DigitPosCovers(text, m.start, 9, k);
    }
  }

  /** The input of tests/testcpr.cpp:55-64. */
  const TabText: string := "111111\t1118\n111111\t0137\n111111\nBACON"

  /** A character no number can span: neither a digit nor a separator. */
  predicate Blocker(t: seq<char>, k: nat)
  {
    k < |t| && !IsDigit(t[k]) && !IsSeparator(t[k])
  }

  /** Thirty-six characters with blockers at 6, 11, 18, 23 and 30 leave no room for a number. */
  lemma FiveBlockers(det: Detector, t: seq<char>, m: MatchResult)
    requires |t| == 36 && Blocker(t, 6) && Blocker(t, 11) && Blocker(t, 18) && Blocker(t, 23) && Blocker(t, 30)
    ensures !Reported(det, t, m)
  {
    var k := if m.start <= 6 then 6 else if m.start <= 11 then 11 else if m.start <= 18 then 18
      else if m.start <= 23 then 23 else 30;
    ReportedWithin(det, t, m);
    ReportedChars(det, t, m, k);
  }

  /** Every ten characters of TabText include a tab or a newline, which no number can span. */
  lemma TabTextBlocks(det: Detector, m: MatchResult)
    ensures !Reported(det, TabText, m)
  {
    var t := TabText;
    assert |t| == 36;
    assert t[6] == '\t' && t[11] == '\n' && t[18] == '\t' && t[23] == '\n' && t[30] == '\n';
    FiveBlockers(det, t, m);
  }

  /**
   * Tab is not one of the separators, so numbers split by a tab are not
   * reported, neither alone nor in the text of the test.
   */
  lemma TabSeparator(det: Detector)
    ensures !IsSeparator('\t')
    ensures FindMatches(det, "111111\t1118") == []
    ensures FindMatches(det, TabText) == []
  {
    BlockedSeventh(det, "111111\t1118");
    forall m
      ensures !Reported(det, TabText, m)
    {
      TabTextBlocks(det, m);
    }
    NoneReported(det, TabText);
  }

  /** The spaced text's digits from offset 0, 1 and 2: each run hits a space where it needs a digit. */
  lemma DoubleSpaceFrom(t: seq<char>)
    requires |t| == 12 && SixDigits(t) && t[6] == ' ' && t[7] == ' '
    ensures DigitPos(t, 0, 6) == 7 && DigitPos(t, 1, 5) == 6 && DigitPos(t, 2, 4) == 7
  {
    DigitPosOverDigits(t, 0, 5);
    DigitPosOverDigits(t, 1, 4);
    DigitPosOverDigits(t, 2, 3);
  }

  /** In twelve characters with two spaces after six digits every start puts a digit on a space, or past the end. */
  lemma DoubleSpaceNoRoom(t: seq<char>, b: nat)
    requires |t| == 12 && SixDigits(t) && t[6] == ' ' && t[7] == ' '
    ensures NoDigit(t, b, if b <= 2 then 6 - b else 9)
  {
    DigitPosBounds(t, b, 9);
    DoubleSpaceFrom(t);
  }

  lemma DoubleSpaceBlocks(det: Detector, t: seq<char>, m: MatchResult)
    requires |t| == 12 && SixDigits(t) && t[6] == ' ' && t[7] == ' '
    ensures !Reported(det, t, m)
  {
    DoubleSpaceNoRoom(t, m.start);
    ReportedDigit(det, t, m, if m.start <= 2 then 6 - m.start else 9);
  }

  /** At most one separator stands between the year and the control part. */
  lemma TwoSeparators(det: Detector)
    ensures FindMatches(det, "111111  1118") == []
  {
    forall m
      ensures !Reported(det, "111111  1118", m)
    {
      DoubleSpaceBlocks(det, "111111  1118", m);
    }
    NoneReported(det, "111111  1118");
  }

  /** Ten digits followed by a character that may not follow a match leave no room for a number's last digit. */
  lemma SuffixNoRoom(t: seq<char>, b: nat)
    requires |t| == 11 && (forall k :: 0 <= k < 10 ==> IsDigit(t[k])) && !IsDigit(t[10]) && !IsPreviousOk(t[10])
    ensures var e := DigitPos(t, b, 9); !(e < |t| && IsDigit(t[e]) && Bounded(t, e))
  {
    DigitPosBounds(t, b, 9);
    if b == 0 {
      DigitPosOverDigits(t, 0, 9);
    } else if b == 1 {
      DigitPosOverDigits(t, 1, 8);
      assert DigitPos(t, 1, 9) == 10;
    }
  }

  lemma SuffixBlocks(det: Detector, t: seq<char>, m: MatchResult)
    requires |t| == 11 && (forall k :: 0 <= k < 10 ==> IsDigit(t[k])) && !IsDigit(t[10]) && !IsPreviousOk(t[10])
    ensures !Reported(det, t, m)
  {
    ReportedDigit(det, t, m, 9);
    SuffixNoRoom(t, m.start);
  }

  /** A number glued to a following '#' is not reported. */
  lemma GluedSuffix(det: Detector)
    ensures FindMatches(det, "1111111118#") == []
  {
    forall m
      ensures !Reported(det, "1111111118#", m)
    {
      SuffixBlocks(det, "1111111118#", m);
    }
    NoneReported(det, "1111111118#");
  }

  /** The configuration after "1x": the candidate opened by 1 was reset by x, leaving NUL as previous character. */
  const AfterReset: Scan := Scan(Empty, B1, '\0', 0, false, false, 2, 2)

  lemma ResetHead(t: seq<char>)
    requires |t| >= 2 && t[0] == '1' && t[1] == 'x'
    ensures Run(Intended, Plain, t, Initial) == Run(Intended, Plain, t, AfterReset)
  {
    var s1 := Scan(First, B1, '1', 0, false, false, 1, 1);
    assert Initial.cpr[0 := '1'] == B1;
    assert StepAt(Plain, t, Initial) == Quiet(s1);
    assert B1[1 := '\0'] == B1;
    assert StepAt(Plain, t, s1) == Quiet(AfterReset);
  }

  /** Ten digits at offset b stand one after another, so they form a number laid out there. */
  lemma DigitsAt(t: seq<char>, b: nat, d: seq<char>)
    requires b + 10 <= |t| && t[b..b + 10] == d && AllDigits(d)
    ensures IsCprAt(t, b, d) && DigitPos(t, b, 9) == b + 9
  {
    forall j | 0 <= j < 10
      ensures DigitPos(t, b, j) == b + j
    {
      assert forall k :: b < k <= b + 9 ==> IsDigit(t[k]) by {
        assert forall k :: b < k <= b + 9 ==> t[k] == d[k - b];
      }
      DigitPosOverDigits(t, b, j);
    }
  }

  /** FindsFromEmpty with the configuration after the match handed back. */
  lemma FindFrom(det: Detector, text: seq<char>, s: Scan, d: seq<char>) returns (u: Scan)
    requires s.state == Empty && IsPreviousOk(s.previous) && s.pos <= |text|
    requires IsCprAt(text, s.pos, d) && IsValidCpr(d, det.checkMod11) && Bounded(text, DigitPos(text, s.pos, 9))
    ensures u.state == Empty && u.pos == DigitPos(text, s.pos, 9) + 1 && u.previous == d[9]
    ensures Run(Intended, det, text, s) == [NewMatch(d, s.pos, DigitPos(text, s.pos, 9))] + Run(Intended, det, text, u)
  {
    FindsFromEmpty(det, text, s, d);
    u :| u.state == Empty && u.pos == DigitPos(text, s.pos, 9) + 1 && u.previous == d[9]
      && Run(Intended, det, text, s) == [NewMatch(d, s.pos, DigitPos(text, s.pos, 9))] + Run(Intended, det, text, u);
  }

  /** "1x" followed by a valid number that runs to the end: the number is reported from offset 2. */
  lemma ResetThenNumber(t: seq<char>, d: seq<char>)
    requires |t| == 12 && t[0] == '1' && t[1] == 'x' && t[2..12] == d && IsValidCpr(d, false)
    ensures Run(Intended, Plain, t, Initial) == [NewMatch(d, 2, 11)]
  {
    ResetHead(t);
    DigitsAt(t, 2, d);
    var u := FindFrom(Plain, t, AfterReset, d);
    assert Run(Intended, Plain, t, u) == [];
  }

  /**
   * A rejected character clears the previous-character register to NUL, so
   * the character right after it may start a candidate although no boundary
   * precedes it: "1x0101011111" reports 0101011111 from offset 2.
   */
  lemma StartAfterReset()
    ensures FindMatches(Plain, "1x0101011111") == [NewMatch("0101011111", 2, 11)]
  {
    var t := "1x0101011111";
    var d := "0101011111";
    assert t[2..12] == d;
    assert IsValidCpr(d, false) by {
      assert AllDigits(d);
      assert Day(d) == 1 && Month(d) == 1 && Year(d) == 1 && Control(d) == 1111;
    }
    ResetThenNumber(t, d);
  }

  /** In Empty after a digit, a space is only recorded as the previous character. */
  lemma SpaceAfterDigit(t: seq<char>, u: Scan)
    requires u.state == Empty && u.pos < |t| && t[u.pos] == ' ' && IsDigit(u.previous)
    ensures Run(Intended, Plain, t, u) == Run(Intended, Plain, t, Skip(u.(previous := ' ')))
  {
    assert StepAt(Plain, t, u) == Quiet(Skip(u.(previous := ' ')));
  }

  /** After a number ending at offset 9, a space and a valid number running to the end: that number is reported. */
  lemma SecondOfPair(t: seq<char>, u: Scan, d2: seq<char>)
    requires |t| == 21 && t[10] == ' ' && t[11..21] == d2 && IsValidCpr(d2, false)
    requires u.state == Empty && u.pos == 10 && IsDigit(u.previous)
    ensures Run(Intended, Plain, t, u) == [NewMatch(d2, 11, 20)]
  {
    DigitsAt(t, 11, d2);
    SpaceAfterDigit(t, u);
    var v := FindFrom(Plain, t, Skip(u.(previous := ' ')), d2);
    assert Run(Intended, Plain, t, v) == [];
  }

  /** Two valid numbers separated by one space, the second running to the end, are both reported. */
  lemma SpacedPair(t: seq<char>, d1: seq<char>, d2: seq<char>)
    requires |t| == 21 && t[0..10] == d1 && t[10] == ' ' && t[11..21] == d2
    requires IsValidCpr(d1, false) && IsValidCpr(d2, false)
    ensures Run(Intended, Plain, t, Initial) == [NewMatch(d1, 0, 9), NewMatch(d2, 11, 20)]
  {
    DigitsAt(t, 0, d1);
    assert Bounded(t, 9);
    var u := FindFrom(Plain, t, Initial, d1);
    assert IsDigit(u.previous) by { assert u.previous == d1[9]; }
    SecondOfPair(t, u, d2);
  }

  /** 23 April 1951 with control 6782 is a valid number. */
  lemma SecondValid()
    ensures IsValidCpr("2304516782", false)
  {
    var d := "2304516782";
    assert AllDigits(d);
    assert Day(d) == 23 && Month(d) == 4 && Year(d) == 51 && Control(d) == 6782;
  }

  /** Two numbers separated by one space are both reported, each with its own offsets. */
  lemma TwoNumbers()
    ensures FindMatches(Plain, "1111111118 2304516782") ==
      [NewMatch("1111111118", 0, 9), NewMatch("2304516782", 11, 20)]
  {
    var t := "1111111118 2304516782";
    assert t[0..10] == Ones && t[11..21] == "2304516782";
    OnesValid();
    SecondValid();
    SpacedPair(t, Ones, "2304516782");
  }
}
