/**
 * Completeness of the CPR detector: once the scan stands on the first
 * digit of a valid, properly bounded CPR number with a boundary character
 * before it, it reports exactly that number and carries on after it.
 * Together with soundness this pins down the result on ten-character
 * texts and shows how the checksum flag filters the matches.
 */
module CprCompleteness {
  import opened Optional
  import opened Rules
  import opened CprChars
  import opened CprNumber
  import opened CprDetector
  import opened CprCalendar
  import opened CprSoundness

  /** The scan is part-way through the number d starting at s.begin, which it should report. */
  ghost predicate Tracks(det: Detector, text: seq<char>, s: Scan, d: seq<char>)
  {
    && 1 <= Stored(s.state)
    && Candidate(text, s, Stored(s.state))
    && IsCprAt(text, s.begin, d)
    && IsValidCpr(d, det.checkMod11)
    && Bounded(text, DigitPos(text, s.begin, 9))
  }

  /** A valid number passes the automaton's digit tables. */
  lemma ValidMeetsTables(d: seq<char>, checkMod11: bool)
    requires IsValidCpr(d, checkMod11)
    ensures DigitTables(d)
  {
    assert AllDigits(d[..6]) by {
      assert forall j :: 0 <= j < 6 ==> d[..6][j] == d[j];
    }
    TablesAreRanges(d);
  }

  /** What Tracks says about the buffer and the character under the cursor. */
  lemma TracksFacts(det: Detector, text: seq<char>, s: Scan, d: seq<char>)
    requires Tracks(det, text, s, d)
    ensures var k := Stored(s.state);
      && DigitTables(d)
      && (forall j :: 0 <= j < k ==> s.cpr[j] == d[j])
      && s.pos < |text|
      && (!(IsGap(k) && s.allowSeparator && SeparatorBefore(k, text[s.pos])) ==> text[s.pos] == d[k])
  {
    var k := Stored(s.state);
    ValidMeetsTables(d, det.checkMod11);
    DigitPosBounds(text, s.begin, k);
    assert s.pos <= DigitPos(text, s.begin, k);
    if !(IsGap(k) && s.allowSeparator && SeparatorBefore(k, text[s.pos])) {
      DigitPosAt(text, s, k);
    }
  }

  /**
   * One step on a tracked number: before the tenth digit the scan keeps the
   * start and either skips a separator or stores one more digit; on the
   * tenth it reports d and returns to Empty.
   */
  ghost predicate Progresses(det: Detector, text: seq<char>, s: Scan, d: seq<char>, o: Outcome)
    requires |d| == 10
  {
    if s.state == Match then
      && o.emitted == Some(NewMatch(d, s.begin, DigitPos(text, s.begin, 9)))
      && o.next.state == Empty
      && o.next.pos == DigitPos(text, s.begin, 9) + 1
      && o.next.previous == d[9]
    else
      && o.emitted.None?
      && o.next.begin == s.begin
      && (o.next.state == s.state || Stored(o.next.state) == Stored(s.state) + 1)
  }

  lemma ProgressFromFirst(det: Detector, text: seq<char>, s: Scan, d: seq<char>)
    requires Tracks(det, text, s, d) && s.state == First
    ensures s.pos < |text| && Progresses(det, text, s, d, StepAt(det, text, s))
  {
    TracksFacts(det, text, s, d);
    MakePredicateIsMembership("01", text[s.pos]);
  }

  lemma ProgressFromSecond(det: Detector, text: seq<char>, s: Scan, d: seq<char>)
    requires Tracks(det, text, s, d) && s.state == Second
    ensures s.pos < |text| && Progresses(det, text, s, d, StepAt(det, text, s))
  {
    TracksFacts(det, text, s, d);
    MakePredicateIsMembership("01", text[s.pos]);
  }

  lemma ProgressFromThird(det: Detector, text: seq<char>, s: Scan, d: seq<char>)
    requires Tracks(det, text, s, d) && s.state == Third
    ensures s.pos < |text| && Progresses(det, text, s, d, StepAt(det, text, s))
  {
    TracksFacts(det, text, s, d);
    var c := text[s.pos];
    var cpr := s.cpr[3 := c];
    MakePredicateIsMembership("012", c);
    assert AllDigits(cpr[..4]) by {
      assert forall j :: 0 <= j < 4 ==> cpr[..4][j] == d[j];
    }
    CheckDayMonthIsCalendar(cpr);
  }

  lemma ProgressFromFourth(det: Detector, text: seq<char>, s: Scan, d: seq<char>)
    requires Tracks(det, text, s, d) && s.state == Fourth
    ensures s.pos < |text| && Progresses(det, text, s, d, StepAt(det, text, s))
  {
    TracksFacts(det, text, s, d);
  }

  lemma ProgressFromFifth(det: Detector, text: seq<char>, s: Scan, d: seq<char>)
    requires Tracks(det, text, s, d) && s.state == Fifth
    ensures s.pos < |text| && Progresses(det, text, s, d, StepAt(det, text, s))
  {
    TracksFacts(det, text, s, d);
  }

  lemma ProgressFromSixth(det: Detector, text: seq<char>, s: Scan, d: seq<char>)
    requires Tracks(det, text, s, d) && s.state == Sixth
    ensures s.pos < |text| && Progresses(det, text, s, d, StepAt(det, text, s))
  {
    TracksFacts(det, text, s, d);
    var c := text[s.pos];
    var cpr := s.cpr[6 := c];
    if !(s.allowSeparator && IsSeparator(c)) {
      assert AllDigits(cpr[..7]) by {
        assert forall j :: 0 <= j < 7 ==> cpr[..7][j] == d[j];
      }
      CheckLeapYearIsDivisibility(cpr);
    }
  }

  lemma ProgressFromSeventh(det: Detector, text: seq<char>, s: Scan, d: seq<char>)
    requires Tracks(det, text, s, d) && s.state == Seventh
    ensures s.pos < |text| && Progresses(det, text, s, d, StepAt(det, text, s))
  {
    TracksFacts(det, text, s, d);
  }

  lemma ProgressFromEighth(det: Detector, text: seq<char>, s: Scan, d: seq<char>)
    requires Tracks(det, text, s, d) && s.state == Eighth
    ensures s.pos < |text| && Progresses(det, text, s, d, StepAt(det, text, s))
  {
    TracksFacts(det, text, s, d);
  }

  /** In Match, a tenth digit with a boundary after it and a non-zero control part is reported. */
  lemma MatchEmits(det: Detector, text: seq<char>, s: Scan)
    requires s.state == Match && s.pos < |text|
    requires IsDigit(text[s.pos]) && IsPreviousOk(Ahead(text, s.pos))
    requires var cpr := s.cpr[9 := text[s.pos]];
      Stoi(cpr[6..10]) > 0 && (det.checkMod11 ==> PassesModulus11(cpr))
    ensures var o := StepAt(det, text, s);
      && o.emitted == Some(NewMatch(s.cpr[9 := text[s.pos]], s.begin, s.pos))
      && o.next.state == Empty && o.next.pos == s.pos + 1 && o.next.previous == text[s.pos]
  {
  }

  lemma ProgressFromMatch(det: Detector, text: seq<char>, s: Scan, d: seq<char>)
    requires Tracks(det, text, s, d) && s.state == Match
    ensures s.pos < |text| && Progresses(det, text, s, d, StepAt(det, text, s))
  {
    TracksFacts(det, text, s, d);
    var c := text[s.pos];
    var cpr := s.cpr[9 := c];
    DigitPosAt(text, s, 9);
    assert cpr == d;
    assert AllDigits(d[6..10]) by {
      assert forall j :: 0 <= j < 4 ==> d[6..10][j] == d[j + 6];
    }
    StoiOfDigits(d[6..10]);
    ControlField(d);
    ControlNonzero(d);
    MatchEmits(det, text, s);
  }

  lemma ProgressStep(det: Detector, text: seq<char>, s: Scan, d: seq<char>)
    requires Tracks(det, text, s, d)
    ensures s.pos < |text| && Progresses(det, text, s, d, StepAt(det, text, s))
  {
    if s.state == First {
      ProgressFromFirst(det, text, s, d);
    } else if s.state == Second {
      ProgressFromSecond(det, text, s, d);
    } else if s.state == Third {
      ProgressFromThird(det, text, s, d);
    } else if s.state == Fourth {
      ProgressFromFourth(det, text, s, d);
    } else if s.state == Fifth {
      ProgressFromFifth(det, text, s, d);
    } else if s.state == Sixth {
      ProgressFromSixth(det, text, s, d);
    } else if s.state == Seventh {
      ProgressFromSeventh(det, text, s, d);
    } else if s.state == Eighth {
      ProgressFromEighth(det, text, s, d);
    } else {
      ProgressFromMatch(det, text, s, d);
    }
  }

  /** From a tracked configuration the scan reports d next, then resumes in Empty right after it. */
  lemma {:induction false} RunFinds(det: Detector, text: seq<char>, s: Scan, d: seq<char>)
    requires Tracks(det, text, s, d)
    ensures exists t: Scan ::
      && t.state == Empty
      && t.pos == DigitPos(text, s.begin, 9) + 1
      && t.previous == d[9]
      && Run(Intended, det, text, s) == [NewMatch(d, s.begin, DigitPos(text, s.begin, 9))] + Run(Intended, det, text, t)
    decreases |text| - s.pos
  {
    ProgressStep(det, text, s, d);
    StepPreserves(det, text, s);
    var o := StepAt(det, text, s);
    assert Run(Intended, det, text, s) == (if o.emitted.Some? then [o.emitted.value] else []) + Run(Intended, det, text, o.next);
    if s.state != Match {
      assert Tracks(det, text, o.next, d);
      RunFinds(det, text, o.next, d);
    }
  }

  /** In Empty with a boundary character before it, a digit 0-3 starts a candidate. */
  lemma StartsCandidate(det: Detector, text: seq<char>, s: Scan)
    requires s.state == Empty && IsPreviousOk(s.previous) && s.pos < |text| && '0' <= text[s.pos] <= '3'
    ensures var o := StepAt(det, text, s); o.emitted.None? && o.next.begin == s.pos && o.next.state == First
  {
    MakePredicateIsMembership("0123", text[s.pos]);
  }

  /**
   * Completeness from a boundary: in Empty with a boundary character before
   * it, the scan reports the valid, bounded number d that starts under the
   * cursor, and nothing before it.
   */
  lemma FindsFromEmpty(det: Detector, text: seq<char>, s: Scan, d: seq<char>)
    requires s.state == Empty && IsPreviousOk(s.previous) && s.pos <= |text|
    requires IsCprAt(text, s.pos, d) && IsValidCpr(d, det.checkMod11) && Bounded(text, DigitPos(text, s.pos, 9))
    ensures exists t: Scan ::
      && t.state == Empty
      && t.pos == DigitPos(text, s.pos, 9) + 1
      && t.previous == d[9]
      && Run(Intended, det, text, s) == [NewMatch(d, s.pos, DigitPos(text, s.pos, 9))] + Run(Intended, det, text, t)
  {
    assert text[DigitPos(text, s.pos, 0)] == d[0];
    ValidMeetsTables(d, det.checkMod11);
    StartsCandidate(det, text, s);
    StepFromEmpty(det, text, s);
    var o := StepAt(det, text, s);
    assert Tracks(det, text, o.next, d);
    assert Run(Intended, det, text, s) == Run(Intended, det, text, o.next);
    RunFinds(det, text, o.next, d);
  }

  /** A valid, bounded number at the very start of the text is the first match reported. */
  lemma FindsLeading(det: Detector, text: seq<char>, d: seq<char>)
    requires IsCprAt(text, 0, d) && IsValidCpr(d, det.checkMod11) && Bounded(text, DigitPos(text, 0, 9))
    ensures |FindMatches(det, text)| >= 1
    ensures FindMatches(det, text)[0] == NewMatch(d, 0, DigitPos(text, 0, 9))
  {
    DigitPosBounds(text, 0, 9);
    FindsFromEmpty(det, text, Initial, d);
  }

  /** A reported match in a ten-character text is the whole text. */
  lemma TenCharMatch(det: Detector, text: seq<char>, m: MatchResult)
    requires |text| == 10 && Reported(det, text, m)
    ensures m == NewMatch(text, 0, 9) && IsValidCpr(text, det.checkMod11)
  {
    ReportedSpan(det, text, m);
    forall j | 0 <= j < 10
      ensures DigitPos(text, 0, j) == j
    {
      DigitPosBounds(text, 0, j);
      DigitPosGrowth(text, 0, j, 9);
    }
    assert m.text == text;
  }

  /**
   * On a text of exactly ten characters find_matches reports the text itself
   * when it is a valid CPR number and nothing otherwise.
   */
  lemma ExactlyTen(det: Detector, text: seq<char>)
    requires |text| == 10
    ensures FindMatches(det, text) == if IsValidCpr(text, det.checkMod11) then [NewMatch(text, 0, 9)] else []
  {
    var r := FindMatches(det, text);
    FindMatchesSound(det, text);
    assert r != [] ==> IsValidCpr(text, det.checkMod11) by {
      if r != [] {
        assert r[0] in r;
        TenCharMatch(det, text, r[0]);
      }
    }
    if IsValidCpr(text, det.checkMod11) {
      forall j | 0 <= j < 10
        ensures DigitPos(text, 0, j) == j
      {
        DigitPosPlain(text, 0, j);
      }
      FindsFromEmpty(det, text, Initial, text);
      var t: Scan :| t.state == Empty && t.pos == 10
        && Run(Intended, det, text, Initial) == [NewMatch(text, 0, 9)] + Run(Intended, det, text, t);
    }
  }
}
