/**
 * Soundness of the CPR detector: every match it reports is a valid CPR
 * number standing at the reported offsets with word boundaries after it,
 * and matches come out in increasing, non-overlapping order. The proof
 * carries an invariant relating each automaton configuration to the part
 * of the text already read.
 */
module CprSoundness {
  import opened Optional
  import opened Rules
  import opened CprChars
  import opened CprNumber
  import opened CprDetector
  import opened CprCalendar
  import opened CprBoundary

  /** What the detector promises of each match it reports in `text`. */
  ghost predicate Reported(det: Detector, text: seq<char>, m: MatchResult)
  {
    && m.sensitivity == Critical
    && m.probability == 1.0
    && IsValidCpr(m.text, det.checkMod11)
    && IsCprAt(text, m.start, m.text)
    && m.end == DigitPos(text, m.start, 9)
    && Bounded(text, m.end)
  }

  /** The first k buffered digits pass every check the automaton has applied to them. */
  ghost predicate PrefixOk(d: Buffer, k: nat)
  {
    && k <= 10
    && (forall j :: 0 <= j < k ==> IsDigit(d[j]))
    && (k >= 1 ==> d[0] <= '3')
    && (k >= 2 ==> 1 <= Day(d) <= 31)
    && (k >= 3 ==> d[2] <= '1')
    && (k >= 4 ==> 1 <= Month(d) <= 12 && Day(d) <= DaysInMonth(Month(d)))
    && (k >= 6 ==> Year(d) != 0)
    && (k >= 7 && Day(d) == 29 && Month(d) == 2 ==> Year(d) % 4 == 0)
  }

  /** A separator for the boundary after digit k has been read but digit k + 1 has not. */
  predicate Pending(s: Scan, k: nat)
  {
    IsGap(k) && !s.allowSeparator
  }

  /** A configuration holding k digits of a candidate that begins at s.begin. */
  ghost predicate Candidate(text: seq<char>, s: Scan, k: nat)
    requires 1 <= k <= 9
  {
    && s.begin < s.pos <= |text|
    && PrefixOk(s.cpr, k)
    && s.previous == s.cpr[k - 1]
    && (forall j :: 0 <= j < k ==> DigitPos(text, s.begin, j) < |text| && text[DigitPos(text, s.begin, j)] == s.cpr[j])
    && s.pos == DigitPos(text, s.begin, k - 1) + 1 + (if Pending(s, k) then 1 else 0)
    && (Pending(s, k) ==> SeparatorBefore(k, text[s.pos - 1]))
    && (k >= 4 ==> s.leapYear == (Day(s.cpr) == 29 && Month(s.cpr) == 2))
  }

  /** The invariant of every configuration the scan of `text` reaches. */
  ghost predicate Consistent(text: seq<char>, s: Scan)
  {
    && s.pos <= |text|
    && (Stored(s.state) > 0 ==> Candidate(text, s, Stored(s.state)))
  }

  /** No match found from s onwards starts before this offset. */
  function Floor(s: Scan): nat
  {
    if s.state == Empty then s.pos else s.begin
  }

  ghost predicate StepOk(det: Detector, text: seq<char>, s: Scan, o: Outcome)
  {
    && Consistent(text, o.next)
    && Floor(o.next) >= Floor(s)
    && (o.emitted.Some? ==>
          && Reported(det, text, o.emitted.value)
          && o.emitted.value.start >= Floor(s)
          && o.emitted.value.end < Floor(o.next))
  }

  function StepAt(det: Detector, text: seq<char>, s: Scan): Outcome
    requires s.pos < |text|
  {
    Step(Intended, det, text[s.pos], Ahead(text, s.pos), s)
  }

  /** The layout step behind DigitPosAt, stated over positions alone. */
  lemma DigitPosNext(text: seq<char>, b: nat, k: nat, pos: nat, allow: bool)
    requires 1 <= k && pos < |text|
    requires pos == DigitPos(text, b, k - 1) + 1 + (if IsGap(k) && !allow then 1 else 0)
    requires IsGap(k) && !allow ==> SeparatorBefore(k, text[pos - 1])
    requires IsGap(k) && allow ==> !SeparatorBefore(k, text[pos])
    ensures DigitPos(text, b, k) == pos
  {
  }

  /** Where the k-th digit lands when the next character is not a skipped separator. */
  lemma DigitPosAt(text: seq<char>, s: Scan, k: nat)
    requires 1 <= k <= 9 && Candidate(text, s, k) && s.pos < |text|
    requires IsGap(k) && s.allowSeparator ==> !SeparatorBefore(k, text[s.pos])
    ensures DigitPos(text, s.begin, k) == s.pos
  {
    DigitPosNext(text, s.begin, k, s.pos, s.allowSeparator);
  }

  /** Reading digit k + 1 extends the candidate. */
  lemma ExtendCandidate(text: seq<char>, s: Scan, t: Scan, k: nat)
    requires 1 <= k <= 8 && Candidate(text, s, k) && s.pos < |text|
    requires DigitPos(text, s.begin, k) == s.pos
    requires t.begin == s.begin && t.pos == s.pos + 1
    requires t.cpr == s.cpr[k := text[s.pos]] && t.previous == text[s.pos]
    requires PrefixOk(t.cpr, k + 1)
    requires IsGap(k + 1) ==> t.allowSeparator
    requires k + 1 >= 4 ==> t.leapYear == (Day(t.cpr) == 29 && Month(t.cpr) == 2)
    ensures Candidate(text, t, k + 1)
  {
    forall j | 0 <= j < k + 1
      ensures DigitPos(text, t.begin, j) < |text| && text[DigitPos(text, t.begin, j)] == t.cpr[j]
    {
      if j < k {
        assert t.cpr[j] == s.cpr[j];
      }
    }
  }

  /** Skipping the one separator allowed at boundary k keeps the candidate. */
  lemma SkipSeparator(text: seq<char>, s: Scan, t: Scan, k: nat)
    requires 1 <= k <= 9 && Candidate(text, s, k) && s.pos < |text|
    requires IsGap(k) && s.allowSeparator && SeparatorBefore(k, text[s.pos])
    requires t == s.(allowSeparator := false, pos := s.pos + 1)
    ensures Candidate(text, t, k)
  {
  }

  /** The checks already passed survive writing a later buffer slot. */
  lemma PrefixFrame(d: Buffer, k: nat, c: char)
    requires k < 10 && PrefixOk(d, k)
    ensures var e := d[k := c];
      && (forall j :: 0 <= j < k ==> IsDigit(e[j]))
      && (k >= 2 ==> Day(e) == Day(d))
      && (k >= 4 ==> Month(e) == Month(d))
      && (k >= 6 ==> Year(e) == Year(d))
  {
  }

  lemma StepFromEmpty(det: Detector, text: seq<char>, s: Scan)
    requires Consistent(text, s) && s.pos < |text| && s.state == Empty
    ensures StepOk(det, text, s, StepAt(det, text, s))
  {
    var o := StepAt(det, text, s);
    if o.next.state == First {
      assert o.next.cpr[0] == text[s.pos];
      assert Candidate(text, o.next, 1);
    }
  }

  /** The first state resets or stores the second day digit admitted by the first. */
  lemma FirstShape(det: Detector, text: seq<char>, s: Scan)
    requires s.pos < |text| && s.state == First
    ensures var o := StepAt(det, text, s);
      var c := text[s.pos];
      && o.emitted.None?
      && (o.next.state == Empty || o.next.state == Second)
      && (o.next.state == Second ==>
            && ((s.previous == '0' && IsNonzeroDigit(c)) || ((s.previous == '1' || s.previous == '2') && IsDigit(c))
                || (s.previous == '3' && '0' <= c <= '1'))
            && o.next == Advance(s.(state := Second, previous := c, cpr := s.cpr[1 := c], allowSeparator := true)))
  {
    MakePredicateIsMembership("01", text[s.pos]);
  }

  lemma StepFromFirst(det: Detector, text: seq<char>, s: Scan)
    requires Consistent(text, s) && s.pos < |text| && s.state == First
    ensures StepOk(det, text, s, StepAt(det, text, s))
  {
    var o := StepAt(det, text, s);
    FirstShape(det, text, s);
    if o.next.state == Second {
      PrefixFrame(s.cpr, 1, text[s.pos]);
      DigitPosAt(text, s, 1);
      ExtendCandidate(text, s, o.next, 1);
    }
  }

  /** The second state skips a space once, resets, or stores the first month digit. */
  lemma SecondShape(det: Detector, text: seq<char>, s: Scan)
    requires s.pos < |text| && s.state == Second
    ensures var o := StepAt(det, text, s);
      var c := text[s.pos];
      && o.emitted.None?
      && (IsSpace(c) && s.allowSeparator ==> o.next == s.(allowSeparator := false, pos := s.pos + 1))
      && (o.next.state == Empty || o.next.state == Second || o.next.state == Third)
      && (o.next.state == Second ==> IsSpace(c) && s.allowSeparator)
      && (o.next.state == Third ==>
            && !(IsSpace(c) && s.allowSeparator)
            && '0' <= c <= '1'
            && o.next == Advance(s.(state := Third, previous := c, cpr := s.cpr[2 := c])))
  {
    MakePredicateIsMembership("01", text[s.pos]);
  }

  lemma StepFromSecond(det: Detector, text: seq<char>, s: Scan)
    requires Consistent(text, s) && s.pos < |text| && s.state == Second
    ensures StepOk(det, text, s, StepAt(det, text, s))
  {
    var o := StepAt(det, text, s);
    SecondShape(det, text, s);
    if o.next.state == Second {
      SkipSeparator(text, s, o.next, 2);
    } else if o.next.state == Third {
      PrefixFrame(s.cpr, 2, text[s.pos]);
      DigitPosAt(text, s, 2);
      ExtendCandidate(text, s, o.next, 2);
    }
  }

  /** The third state either resets or moves to Fourth with the month digit stored and checked. */
  lemma ThirdShape(det: Detector, text: seq<char>, s: Scan)
    requires s.pos < |text| && s.state == Third
    ensures var o := StepAt(det, text, s);
      var c := text[s.pos];
      var cpr := s.cpr[3 := c];
      && o.emitted.None?
      && (o.next.state == Empty || o.next.state == Fourth)
      && (o.next.state == Fourth ==>
            && ((s.previous == '0' && IsNonzeroDigit(c)) || (s.previous == '1' && '0' <= c <= '2'))
            && CheckDayMonth(cpr).survives
            && o.next == Advance(s.(state := Fourth, previous := c, cpr := cpr,
                                    leapYear := CheckDayMonth(cpr).leap, allowSeparator := true)))
  {
    MakePredicateIsMembership("012", text[s.pos]);
  }

  /** A month digit that passes the table and check_day_month keeps the first four digits a calendar date. */
  lemma MonthDigitOk(d: Buffer, c: char)
    requires PrefixOk(d, 3)
    requires (d[2] == '0' && IsNonzeroDigit(c)) || (d[2] == '1' && '0' <= c <= '2')
    requires CheckDayMonth(d[3 := c]).survives
    ensures PrefixOk(d[3 := c], 4)
    ensures CheckDayMonth(d[3 := c]).leap <==> Day(d[3 := c]) == 29 && Month(d[3 := c]) == 2
  {
    var e := d[3 := c];
    PrefixFrame(d, 3, c);
    assert AllDigits(e[..4]) by {
      assert forall j :: 0 <= j < 4 ==> e[..4][j] == e[j];
    }
    CheckDayMonthIsCalendar(e);
  }

  lemma StepFromThird(det: Detector, text: seq<char>, s: Scan)
    requires Consistent(text, s) && s.pos < |text| && s.state == Third
    ensures StepOk(det, text, s, StepAt(det, text, s))
  {
    var o := StepAt(det, text, s);
    ThirdShape(det, text, s);
    if o.next.state == Fourth {
      MonthDigitOk(s.cpr, text[s.pos]);
      DigitPosAt(text, s, 3);
      ExtendCandidate(text, s, o.next, 3);
    }
  }

  /** The fourth state skips a space once, resets, or stores the first year digit. */
  lemma FourthShape(det: Detector, text: seq<char>, s: Scan)
    requires s.pos < |text| && s.state == Fourth
    ensures var o := StepAt(det, text, s);
      var c := text[s.pos];
      && o.emitted.None?
      && (IsSpace(c) && s.allowSeparator ==> o.next == s.(allowSeparator := false, pos := s.pos + 1))
      && (o.next.state == Empty || o.next.state == Fourth || o.next.state == Fifth)
      && (o.next.state == Fourth ==> IsSpace(c) && s.allowSeparator)
      && (o.next.state == Fifth ==>
            && !(IsSpace(c) && s.allowSeparator)
            && IsDigit(c)
            && o.next == Advance(s.(state := Fifth, previous := c, cpr := s.cpr[4 := c])))
  {
  }

  lemma StepFromFourth(det: Detector, text: seq<char>, s: Scan)
    requires Consistent(text, s) && s.pos < |text| && s.state == Fourth
    ensures StepOk(det, text, s, StepAt(det, text, s))
  {
    var o := StepAt(det, text, s);
    FourthShape(det, text, s);
    if o.next.state == Fourth {
      SkipSeparator(text, s, o.next, 4);
    } else if o.next.state == Fifth {
      PrefixFrame(s.cpr, 4, text[s.pos]);
      DigitPosAt(text, s, 4);
      ExtendCandidate(text, s, o.next, 4);
    }
  }

  /** The fifth state resets or stores the second year digit, which may not make the year 00. */
  lemma FifthShape(det: Detector, text: seq<char>, s: Scan)
    requires s.pos < |text| && s.state == Fifth
    ensures var o := StepAt(det, text, s);
      var c := text[s.pos];
      && o.emitted.None?
      && (o.next.state == Empty || o.next.state == Sixth)
      && (o.next.state == Sixth ==>
            && IsDigit(c) && (s.previous == '0' ==> c != '0')
            && o.next == Advance(s.(state := Sixth, previous := c, cpr := s.cpr[5 := c], allowSeparator := true)))
  {
  }

  /** A second year digit that does not make the year 00 keeps the first six digits valid. */
  lemma YearDigitOk(d: Buffer, c: char)
    requires PrefixOk(d, 5) && IsDigit(c) && (d[4] == '0' ==> c != '0')
    ensures PrefixOk(d[5 := c], 6)
    ensures Day(d[5 := c]) == Day(d) && Month(d[5 := c]) == Month(d)
  {
    PrefixFrame(d, 5, c);
  }

  lemma StepFromFifth(det: Detector, text: seq<char>, s: Scan)
    requires Consistent(text, s) && s.pos < |text| && s.state == Fifth
    ensures StepOk(det, text, s, StepAt(det, text, s))
  {
    var o := StepAt(det, text, s);
    FifthShape(det, text, s);
    if o.next.state == Sixth {
      YearDigitOk(s.cpr, text[s.pos]);
      DigitPosAt(text, s, 5);
      ExtendCandidate(text, s, o.next, 5);
    }
  }

  /** The sixth state skips a separator, resets, or moves to Seventh once the leap year is checked. */
  lemma SixthShape(det: Detector, text: seq<char>, s: Scan)
    requires s.pos < |text| && s.state == Sixth
    ensures var o := StepAt(det, text, s);
      var c := text[s.pos];
      var cpr := s.cpr[6 := c];
      && o.emitted.None?
      && (s.allowSeparator && IsSeparator(c) ==> o.next == s.(allowSeparator := false, pos := s.pos + 1))
      && (o.next.state == Sixth || o.next.state == Empty || o.next.state == Seventh)
      && (o.next.state == Seventh ==>
            && !(s.allowSeparator && IsSeparator(c))
            && IsDigit(c)
            && (s.leapYear ==> CheckLeapYear(cpr))
            && o.next == Advance(s.(state := Seventh, previous := c, cpr := cpr)))
      && (o.next.state == Sixth ==> s.allowSeparator && IsSeparator(c))
  {
  }

  /** A first control digit that passes check_leap_year on February 29 keeps the first seven digits valid. */
  lemma ControlDigitOk(d: Buffer, c: char, leap: bool)
    requires PrefixOk(d, 6) && IsDigit(c)
    requires leap == (Day(d) == 29 && Month(d) == 2)
    requires leap ==> CheckLeapYear(d[6 := c])
    ensures PrefixOk(d[6 := c], 7)
  {
    var e := d[6 := c];
    PrefixFrame(d, 6, c);
    assert AllDigits(e[..7]) by {
      assert forall j :: 0 <= j < 7 ==> e[..7][j] == e[j];
    }
    CheckLeapYearIsDivisibility(e);
  }

  lemma StepFromSixth(det: Detector, text: seq<char>, s: Scan)
    requires Consistent(text, s) && s.pos < |text| && s.state == Sixth
    ensures StepOk(det, text, s, StepAt(det, text, s))
  {
    var o := StepAt(det, text, s);
    SixthShape(det, text, s);
    if o.next.state == Sixth {
      SkipSeparator(text, s, o.next, 6);
    } else if o.next.state == Seventh {
      ControlDigitOk(s.cpr, text[s.pos], s.leapYear);
      DigitPosAt(text, s, 6);
      ExtendCandidate(text, s, o.next, 6);
    }
  }

  /** The seventh and eighth states reset or store one more control digit. */
  lemma ControlShape(det: Detector, text: seq<char>, s: Scan)
    requires s.pos < |text| && (s.state == Seventh || s.state == Eighth)
    ensures var o := StepAt(det, text, s);
      var c := text[s.pos];
      var k := Stored(s.state);
      && o.emitted.None?
      && (o.next.state == Empty || Stored(o.next.state) == k + 1)
      && (o.next.state != Empty ==>
            && IsDigit(c)
            && o.next == Advance(s.(state := o.next.state, previous := c, cpr := s.cpr[k := c])))
  {
  }

  lemma StepFromSeventh(det: Detector, text: seq<char>, s: Scan)
    requires Consistent(text, s) && s.pos < |text| && s.state == Seventh
    ensures StepOk(det, text, s, StepAt(det, text, s))
  {
    var o := StepAt(det, text, s);
    ControlShape(det, text, s);
    if o.next.state != Empty {
      PrefixFrame(s.cpr, 7, text[s.pos]);
      DigitPosAt(text, s, 7);
      ExtendCandidate(text, s, o.next, 7);
    }
  }

  lemma StepFromEighth(det: Detector, text: seq<char>, s: Scan)
    requires Consistent(text, s) && s.pos < |text| && s.state == Eighth
    ensures StepOk(det, text, s, StepAt(det, text, s))
  {
    var o := StepAt(det, text, s);
    ControlShape(det, text, s);
    if o.next.state != Empty {
      PrefixFrame(s.cpr, 8, text[s.pos]);
      DigitPosAt(text, s, 8);
      ExtendCandidate(text, s, o.next, 8);
    }
  }

  lemma StepFromMatch(det: Detector, text: seq<char>, s: Scan)
    requires Consistent(text, s) && s.pos < |text| && s.state == Match
    ensures StepOk(det, text, s, StepAt(det, text, s))
  {
    var o := StepAt(det, text, s);
    var c := text[s.pos];
    if o.emitted.Some? {
      var m := o.emitted.value;
      var d := s.cpr[9 := c];
      assert m == NewMatch(d, s.begin, s.pos, Critical);
      PrefixFrame(s.cpr, 9, c);
      assert AllDigits(d[6..10]) by {
        assert forall j :: 0 <= j < 4 ==> d[6..10][j] == d[j + 6];
      }
      StoiOfDigits(d[6..10]);
      ControlField(d);
      DigitPosAt(text, s, 9);
      assert IsCprAt(text, s.begin, d) by {
        forall j | 0 <= j < 10
          ensures DigitPos(text, s.begin, j) < |text| && text[DigitPos(text, s.begin, j)] == d[j]
        {
          if j < 9 {
            assert d[j] == s.cpr[j];
          }
        }
      }
      assert Reported(det, text, m);
    }
  }

  /** Every step of the scan keeps the invariant and reports only sound matches. */
  lemma StepPreserves(det: Detector, text: seq<char>, s: Scan)
    requires Consistent(text, s) && s.pos < |text|
    ensures StepOk(det, text, s, StepAt(det, text, s))
  {
    match s.state
    case Empty => StepFromEmpty(det, text, s);
    case First => StepFromFirst(det, text, s);
    case Second => StepFromSecond(det, text, s);
    case Third => StepFromThird(det, text, s);
    case Fourth => StepFromFourth(det, text, s);
    case Fifth => StepFromFifth(det, text, s);
    case Sixth => StepFromSixth(det, text, s);
    case Seventh => StepFromSeventh(det, text, s);
    case Eighth => StepFromEighth(det, text, s);
    case Match => StepFromMatch(det, text, s);
  }

  /** Every match the scan reports from s onwards is sound, starts no earlier than Floor(s), and the matches are in order. */
  lemma {:induction false} RunSound(det: Detector, text: seq<char>, s: Scan)
    requires Consistent(text, s)
    ensures var r := Run(Intended, det, text, s);
      && (forall m :: m in r ==> Reported(det, text, m) && m.start >= Floor(s))
      && Ordered(r)
    decreases |text| - s.pos
  {
    if s.pos < |text| {
      var o := StepAt(det, text, s);
      StepPreserves(det, text, s);
      RunSound(det, text, o.next);
      var rest := Run(Intended, det, text, o.next);
      if o.emitted.Some? {
        OrderedCons(o.emitted.value, rest, Floor(o.next));
        assert Run(Intended, det, text, s) == [o.emitted.value] + rest;
      } else {
        assert Run(Intended, det, text, s) == rest;
      }
    }
  }

  /**
   * Soundness of find_matches: each match is a valid CPR number laid out in
   * the text at its reported start, with word boundaries before its start and
   * after its end, and the matches are reported left to right without
   * overlapping.
   */
  lemma FindMatchesSound(det: Detector, text: seq<char>)
    ensures var r := FindMatches(det, text);
      && (forall m :: m in r ==> Reported(det, text, m))
      && (forall m :: m in r ==> m.start < |text| && LeftBoundary(det, text, m.start))
      && Ordered(r)
  {
    if |text| >= 10 {
      RunSound(det, text, Initial);
    }
    FindMatchesLeftBounded(det, text);
  }

  /** A reported match spans ten to thirteen characters inside the text and meets the digit tables. */
  lemma ReportedSpan(det: Detector, text: seq<char>, m: MatchResult)
    requires Reported(det, text, m)
    ensures |m.text| == 10 && DigitTables(m.text)
    ensures m.start + 9 <= m.end <= m.start + 12 && m.end < |text|
  {
    DigitPosBounds(text, m.start, 9);
    TablesAreRanges(m.text);
  }
}
