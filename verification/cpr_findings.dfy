/**
 * Two places where find_matches as written departs from what its own test
 * suite and documentation promise, each shown on a concrete input, next to
 * the corrected scan (`FindMatches`) that the rest of the model uses:
 *
 *  - offsets come from a counter that skipped separators do not advance, so
 *    "11 11 11 1118" is reported as ending at 9 rather than at 12;
 *  - the tenth character is appended even when it was rejected, so
 *    "111111111a" is reported as the "number" 111111111 followed by NUL.
 */
module CprFindings {
  import opened Optional
  import opened Rules
  import opened CprChars
  import opened CprNumber
  import opened CprDetector
  import opened CprCalendar
  import opened CprSoundness
  import opened CprCompleteness
  import opened CprChecksum

  const B1: Buffer := "1\0\0\0\0\0\0\0\0\0"
  const B2: Buffer := "11\0\0\0\0\0\0\0\0"
  const B3: Buffer := "111\0\0\0\0\0\0\0"
  const B4: Buffer := "1111\0\0\0\0\0\0"
  const B5: Buffer := "11111\0\0\0\0\0"
  const B6: Buffer := "111111\0\0\0\0"
  const B7: Buffer := "1111111\0\0\0"
  const B8: Buffer := "11111111\0\0"
  const B9: Buffer := "111111111\0"

  /** On the buffer 111, a fourth 1 makes day 11 of month 11, which check_day_month keeps. */
  lemma MonthElevenKept(mode: Mode, ahead: char, s: Scan)
    requires s.state == Third && s.cpr == B3 && s.previous == '1'
    ensures Step(mode, Plain, '1', ahead, s)
      == Outcome(Advance(s.(state := Fourth, previous := '1', cpr := B4, leapYear := false, allowSeparator := true)), None)
  {
    assert B3[3 := '1'] == B4;
    assert B4[0..2] == "11" && B4[2..4] == "11";
    StoiOfDigits("11");
    ValueOfTwo("11");
    assert CheckDayMonth(B4) == DayMonth(true, false);
  }

  /** On the buffer 111111111, the source appends even a rejected tenth character, stored as NUL. */
  lemma NulAppended(ahead: char, s: Scan)
    requires s.state == Match && s.cpr == B9 && IsPreviousOk(ahead)
    ensures Step(AsWritten, Plain, 'a', ahead, s)
      == Outcome(Advance(s.(state := Empty, previous := 'a', cpr := B9, allowSeparator := false)),
                 Some(NewMatch(B9, s.begin, s.count)))
  {
    assert B9[9 := '\0'] == B9;
    assert B9[6..10] == "111\0";
    assert LeadingDigits("111\0") == 3 by {
      assert "111\0"[1..] == "11\0" && "11\0"[1..] == "1\0" && "1\0"[1..] == "\0";
    }
    assert "111\0"[..3] == "111";
    assert "111"[..2] == "11";
    ValueOfTwo("11");
  }

  /** The trace of find_matches as written on "111111111a". */
  const NulText: string := "111111111a"

  lemma NulRunHead()
    ensures Run(AsWritten, Plain, NulText, Initial)
      == Run(AsWritten, Plain, NulText, Scan(Fourth, B4, '1', 0, true, false, 4, 4))
  {
    var t := NulText;
    var s1 := Scan(First, B1, '1', 0, false, false, 1, 1);
    var s2 := Scan(Second, B2, '1', 0, true, false, 2, 2);
    var s3 := Scan(Third, B3, '1', 0, true, false, 3, 3);
    assert Step(AsWritten, Plain, '1', '1', Initial) == Outcome(s1, None);
    assert Step(AsWritten, Plain, '1', '1', s1) == Outcome(s2, None);
    assert Step(AsWritten, Plain, '1', '1', s2) == Outcome(s3, None);
    MonthElevenKept(AsWritten, '1', s3);
  }

  lemma NulRunMiddle()
    ensures Run(AsWritten, Plain, NulText, Scan(Fourth, B4, '1', 0, true, false, 4, 4))
      == Run(AsWritten, Plain, NulText, Scan(Seventh, B7, '1', 0, true, false, 7, 7))
  {
    var s4 := Scan(Fourth, B4, '1', 0, true, false, 4, 4);
    var s5 := Scan(Fifth, B5, '1', 0, true, false, 5, 5);
    var s6 := Scan(Sixth, B6, '1', 0, true, false, 6, 6);
    var s7 := Scan(Seventh, B7, '1', 0, true, false, 7, 7);
    assert Step(AsWritten, Plain, '1', '1', s4) == Outcome(s5, None);
    assert Step(AsWritten, Plain, '1', '1', s5) == Outcome(s6, None);
    assert Step(AsWritten, Plain, '1', '1', s6) == Outcome(s7, None);
  }

  lemma NulRunTail()
    ensures Run(AsWritten, Plain, NulText, Scan(Seventh, B7, '1', 0, true, false, 7, 7)) == [NewMatch(B9, 0, 9)]
  {
    var s7 := Scan(Seventh, B7, '1', 0, true, false, 7, 7);
    var s8 := Scan(Eighth, B8, '1', 0, true, false, 8, 8);
    var s9 := Scan(Match, B9, '1', 0, true, false, 9, 9);
    assert Step(AsWritten, Plain, '1', '1', s7) == Outcome(s8, None);
    assert Step(AsWritten, Plain, '1', 'a', s8) == Outcome(s9, None);
    NulAppended('\0', s9);
  }

  /**
   * As written, find_matches reports "111111111a" as a match whose tenth
   * character is NUL; the corrected scan reports nothing, since the text is
   * not ten digits.
   */
  lemma NulMatchAsWritten()
    ensures FindMatchesAsWritten(Plain, NulText) == [NewMatch(B9, 0, 9)]
    ensures !IsValidCpr(B9, false)
    ensures FindMatches(Plain, NulText) == []
  {
    NulRunHead();
    NulRunMiddle();
    NulRunTail();
    assert !IsDigit(B9[9]);
    ExactlyTen(Plain, NulText);
    assert !IsDigit(NulText[9]);
  }

  /** The number 1111111118 that the test suite writes as "11 11 11 1118". */
  const Ones: Buffer := "1111111118"

  const SpacedText: string := "11 11 11 1118"

  /** On the buffer 111111111, a tenth digit 8 with a boundary after it completes 1111111118. */
  lemma EightAppended(mode: Mode, ahead: char, s: Scan)
    requires s.state == Match && s.cpr == B9 && IsPreviousOk(ahead)
    ensures Step(mode, Plain, '8', ahead, s)
      == Outcome(Advance(s.(state := Empty, previous := '8', cpr := Ones, allowSeparator := false)),
                 Some(NewMatch(Ones, s.begin, if mode == Intended then s.pos else s.count)))
  {
    assert B9[9 := '8'] == Ones;
    assert Ones[6..10] == "1118";
    StoiOfDigits("1118");
    ControlField(Ones);
  }

  lemma SpacedRunHead()
    ensures Run(AsWritten, Plain, SpacedText, Initial)
      == Run(AsWritten, Plain, SpacedText, Scan(Third, B3, '1', 0, false, false, 4, 3))
  {
    var s1 := Scan(First, B1, '1', 0, false, false, 1, 1);
    var s2 := Scan(Second, B2, '1', 0, true, false, 2, 2);
    var s3 := Scan(Second, B2, '1', 0, false, false, 3, 2);
    var s4 := Scan(Third, B3, '1', 0, false, false, 4, 3);
    assert Step(AsWritten, Plain, '1', '1', Initial) == Outcome(s1, None);
    assert Step(AsWritten, Plain, '1', ' ', s1) == Outcome(s2, None);
    assert Step(AsWritten, Plain, ' ', '1', s2) == Outcome(s3, None);
    assert Step(AsWritten, Plain, '1', '1', s3) == Outcome(s4, None);
  }

  lemma SpacedRunMonth()
    ensures Run(AsWritten, Plain, SpacedText, Scan(Third, B3, '1', 0, false, false, 4, 3))
      == Run(AsWritten, Plain, SpacedText, Scan(Fourth, B4, '1', 0, false, false, 6, 4))
  {
    var s4 := Scan(Third, B3, '1', 0, false, false, 4, 3);
    var s5 := Scan(Fourth, B4, '1', 0, true, false, 5, 4);
    MonthElevenKept(AsWritten, ' ', s4);
    assert Step(AsWritten, Plain, ' ', '1', s5) == Outcome(s5.(allowSeparator := false, pos := 6), None);
  }

  lemma SpacedRunMiddle()
    ensures Run(AsWritten, Plain, SpacedText, Scan(Fourth, B4, '1', 0, false, false, 6, 4))
      == Run(AsWritten, Plain, SpacedText, Scan(Sixth, B6, '1', 0, true, false, 8, 6))
  {
    var s6 := Scan(Fourth, B4, '1', 0, false, false, 6, 4);
    var s7 := Scan(Fifth, B5, '1', 0, false, false, 7, 5);
    var s8 := Scan(Sixth, B6, '1', 0, true, false, 8, 6);
    assert Step(AsWritten, Plain, '1', '1', s6) == Outcome(s7, None);
    assert Step(AsWritten, Plain, '1', ' ', s7) == Outcome(s8, None);
  }

  lemma SpacedRunYear()
    ensures Run(AsWritten, Plain, SpacedText, Scan(Sixth, B6, '1', 0, true, false, 8, 6))
      == Run(AsWritten, Plain, SpacedText, Scan(Seventh, B7, '1', 0, false, false, 10, 7))
  {
    var s8 := Scan(Sixth, B6, '1', 0, true, false, 8, 6);
    var s9 := Scan(Sixth, B6, '1', 0, false, false, 9, 6);
    var s10 := Scan(Seventh, B7, '1', 0, false, false, 10, 7);
    assert Step(AsWritten, Plain, ' ', '1', s8) == Outcome(s9, None);
    assert Step(AsWritten, Plain, '1', '1', s9) == Outcome(s10, None);
  }

  lemma SpacedRunTail()
    ensures Run(AsWritten, Plain, SpacedText, Scan(Seventh, B7, '1', 0, false, false, 10, 7)) == [NewMatch(Ones, 0, 9)]
  {
    var s10 := Scan(Seventh, B7, '1', 0, false, false, 10, 7);
    var s11 := Scan(Eighth, B8, '1', 0, false, false, 11, 8);
    var s12 := Scan(Match, B9, '1', 0, false, false, 12, 9);
    assert Step(AsWritten, Plain, '1', '1', s10) == Outcome(s11, None);
    assert Step(AsWritten, Plain, '1', '8', s11) == Outcome(s12, None);
    EightAppended(AsWritten, '\0', s12);
  }

  /** Where the digits of 1111111118 stand in "11 11 11 1118": the last one at index 12. */
  lemma SpacedLayout()
    ensures IsCprAt(SpacedText, 0, Ones) && DigitPos(SpacedText, 0, 9) == 12
  {
    var t := SpacedText;
    assert DigitPos(t, 0, 1) == 1;
    assert DigitPos(t, 0, 2) == 3;
    assert DigitPos(t, 0, 3) == 4;
    assert DigitPos(t, 0, 4) == 6;
    assert DigitPos(t, 0, 5) == 7;
    assert DigitPos(t, 0, 6) == 9;
    assert DigitPos(t, 0, 7) == 10;
    assert DigitPos(t, 0, 8) == 11;
    assert DigitPos(t, 0, 9) == 12;
  }

  /**
   * As written, find_matches reports "11 11 11 1118" as ending at offset 9,
   * because the three skipped spaces never advance its counter; the test
   * suite expects 12, the index of the last digit, which is what the
   * corrected scan reports.
   */
  lemma OffsetDriftAsWritten()
    ensures FindMatchesAsWritten(Plain, SpacedText) == [NewMatch(Ones, 0, 9)]
    ensures FindMatches(Plain, SpacedText) == [NewMatch(Ones, 0, 12)]
  {
    SpacedRunHead();
    SpacedRunMonth();
    SpacedRunMiddle();
    SpacedRunYear();
    SpacedRunTail();
    SpacedIntended();
  }

  /** The corrected scan reports "11 11 11 1118" from offset 0 to offset 12. */
  lemma SpacedIntended()
    ensures FindMatches(Plain, SpacedText) == [NewMatch(Ones, 0, 12)]
  {
    SpacedLayout();
    OnesValid();
    FindsFromEmpty(Plain, SpacedText, Initial, Ones);
    var t: Scan :| t.pos == 13 && Run(Intended, Plain, SpacedText, Initial) == [NewMatch(Ones, 0, 12)] + Run(Intended, Plain, SpacedText, t);
    assert Run(Intended, Plain, SpacedText, t) == [];
  }

  /** 11 November 2011 with control part 1118 is a valid CPR number, with or without the checksum. */
  lemma OnesValid()
    ensures IsValidCpr(Ones, false) && IsValidCpr(Ones, true)
  {
    assert AllDigits(Ones);
    assert WeightedSum(Ones, 10) == 44;
  }
}
