/**
 * How the detector's digit-level checks relate to the calendar: the digit
 * tables, check_day_month's odd/even month rule and check_leap_year,
 * each shown equivalent to a plain statement about day, month and year.
 */
module CprCalendar {
  import opened CprChars
  import opened CprNumber
  import opened CprDetector

  /** The admissible-digit tables the automaton applies, position by position. */
  predicate DigitTables(d: seq<char>)
    requires |d| >= 6
  {
    && '0' <= d[0] <= '3'
    && (if d[0] == '0' then IsNonzeroDigit(d[1]) else if d[0] == '3' then d[1] in "01" else IsDigit(d[1]))
    && d[2] in "01"
    && (if d[2] == '0' then IsNonzeroDigit(d[3]) else d[3] in "012")
    && IsDigit(d[4])
    && (if d[4] == '0' then IsNonzeroDigit(d[5]) else IsDigit(d[5]))
  }

  lemma ValueOfTwo(s: seq<char>)
    requires |s| == 2
    ensures Value(s) == 10 * DigitValue(s[0]) + DigitValue(s[1])
  {
    assert s[..1][..0] == [];
    assert s[..1][0] == s[0];
    assert Value(s[..1]) == DigitValue(s[0]);
  }

  /** Day, month and year are the decimal values of their two-digit fields. */
  lemma DateFields(d: seq<char>)
    requires |d| >= 6
    ensures Day(d) == Value(d[0..2]) && Month(d) == Value(d[2..4]) && Year(d) == Value(d[4..6])
  {
    ValueOfTwo(d[0..2]);
    ValueOfTwo(d[2..4]);
    ValueOfTwo(d[4..6]);
  }

  /** The control part is the decimal value of its four-digit field. */
  lemma ControlField(d: seq<char>)
    requires |d| >= 10
    ensures Control(d) == Value(d[6..10])
  {
    var s := d[6..10];
    assert s[..3] == d[6..9];
    assert d[6..9][..2] == d[6..8];
    ValueOfTwo(d[6..8]);
    assert Value(d[6..9]) == 10 * Value(d[6..8]) + DigitValue(d[8]);
    assert Value(s) == 10 * Value(d[6..9]) + DigitValue(d[9]);
  }

  /** std::stoi on a string of digits is its decimal value. */
  lemma StoiOfDigits(s: seq<char>)
    requires AllDigits(s)
    ensures Stoi(s) == Value(s)
  {
    assert s[..LeadingDigits(s)] == s;
  }

  /** The control part is non-zero exactly when one of its four digits is not '0'. */
  lemma ControlNonzero(d: seq<char>)
    requires |d| >= 10 && AllDigits(d[6..10])
    ensures Control(d) != 0 <==> d[6..10] != "0000"
    ensures Control(d) >= 0
  {
    if d[6..10] != "0000" {
      var j :| 0 <= j < 4 && d[6..10][j] != "0000"[j];
    }
  }

  /**
   * The digit tables admit exactly the days 1-31, the months 1-12 and the
   * years 1-99: day and month 00 are impossible, and so is year 00, which
   * makes the year-zero branch of check_leap_year unreachable.
   */
  lemma {:induction false} TablesAreRanges(d: seq<char>)
    requires |d| >= 6 && AllDigits(d[..6])
    ensures DigitTables(d) <==> (1 <= Day(d) <= 31 && 1 <= Month(d) <= 12 && 1 <= Year(d))
  {
    assert forall j :: 0 <= j < 6 ==> IsDigit(d[..6][j]);
  }

  /**
   * check_day_month against the calendar: on a plausible day and month it
   * keeps the candidate exactly when the day exists in that month (February
   * counting 29), and raises the leap-year flag exactly on February 29.
   */
  lemma CheckDayMonthIsCalendar(d: seq<char>)
    requires |d| >= 6 && AllDigits(d[..4])
    requires 1 <= Month(d) <= 12 && 1 <= Day(d) <= 31
    ensures CheckDayMonth(d).survives <==> Day(d) <= DaysInMonth(Month(d))
    ensures CheckDayMonth(d).leap <==> Day(d) == 29 && Month(d) == 2
  {
    assert forall j :: 0 <= j < 2 ==> IsDigit(d[0..2][j]) by {
      assert forall j :: 0 <= j < 2 ==> d[0..2][j] == d[..4][j];
    }
    assert forall j :: 0 <= j < 2 ==> IsDigit(d[2..4][j]) by {
      assert forall j :: 0 <= j < 2 ==> d[2..4][j] == d[..4][j + 2];
    }
    StoiOfDigits(d[0..2]);
    StoiOfDigits(d[2..4]);
    DateFields(d);
    var month := Month(d);
    assert month in {1, 2, 3, 4, 5, 6, 7, 8, 9, 10, 11, 12};
  }

  /** check_leap_year on a year other than 00 keeps the candidate exactly in years divisible by four. */
  lemma CheckLeapYearIsDivisibility(d: seq<char>)
    requires |d| >= 7 && AllDigits(d[..7])
    requires Year(d) != 0
    ensures CheckLeapYear(d) <==> Year(d) % 4 == 0
  {
    assert forall j :: 0 <= j < 2 ==> IsDigit(d[4..6][j]) by {
      assert forall j :: 0 <= j < 2 ==> d[4..6][j] == d[..7][j + 4];
    }
    assert IsDigit(d[6..7][0]) by {
      assert d[6..7][0] == d[..7][6];
    }
    StoiOfDigits(d[4..6]);
    StoiOfDigits(d[6..7]);
    DateFields(d);
  }
}
