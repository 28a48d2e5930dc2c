/**
 * What a CPR number is, stated independently of the detector's automaton:
 * the ten digits DDMMYY-SSSS with a plausible date and a non-zero control
 * part, optionally passing the weighted modulus-11 check, and where such a
 * number sits in a text when single separators are allowed between its
 * day, month, year and control parts.
 */
module CprNumber {
  import opened CprChars

  /** The numeric value of a digit character (NUL gives -48, as in the source's arithmetic). */
  function DigitValue(c: char): int
  {
    c as int - '0' as int
  }

  predicate AllDigits(s: seq<char>)
  {
    forall j :: 0 <= j < |s| ==> IsDigit(s[j])
  }

  /** The decimal value of a string of digits. */
  function Value(s: seq<char>): int
    decreases |s|
  {
    if |s| == 0 then 0 else 10 * Value(s[..|s| - 1]) + DigitValue(s[|s| - 1])
  }

  /** Length of the run of digits that begins the string. */
  function LeadingDigits(s: seq<char>): (n: nat)
    ensures n <= |s|
    ensures AllDigits(s[..n])
    ensures n < |s| ==> !IsDigit(s[n])
    decreases |s|
  {
    if |s| > 0 && IsDigit(s[0]) then
      var n := 1 + LeadingDigits(s[1..]);
      assert s[..n] == [s[0]] + s[1..][..n - 1];
      n
    else 0
  }

  /** std::stoi on a string that starts with a digit: the value of its leading digit run. */
  function Stoi(s: seq<char>): int
  {
    Value(s[..LeadingDigits(s)])
  }

  /** Day DD, month MM and year YY, read from the first six digits DDMMYY. */
  function Day(d: seq<char>): int
    requires |d| >= 2
  {
    10 * DigitValue(d[0]) + DigitValue(d[1])
  }

  function Month(d: seq<char>): int
    requires |d| >= 4
  {
    10 * DigitValue(d[2]) + DigitValue(d[3])
  }

  function Year(d: seq<char>): int
    requires |d| >= 6
  {
    10 * DigitValue(d[4]) + DigitValue(d[5])
  }

  /** The four-digit control sequence SSSS. */
  function Control(d: seq<char>): int
    requires |d| >= 10
  {
    1000 * DigitValue(d[6]) + 100 * DigitValue(d[7]) + 10 * DigitValue(d[8]) + DigitValue(d[9])
  }

  /** The longest day a month can have; February counts 29, leap years are checked separately. */
  function DaysInMonth(month: int): int
  {
    if month == 2 then 29
    else if month == 4 || month == 6 || month == 9 || month == 11 then 30
    else 31
  }

  /** Sum of the first n digits, each multiplied by its modulus-11 factor. */
  function WeightedSum(d: seq<char>, n: nat): int
    requires n <= |d| && n <= 10
  {
    if n == 0 then 0 else WeightedSum(d, n - 1) + DigitValue(d[n - 1]) * Modulus11Factors[n - 1]
  }

  predicate PassesModulus11(d: seq<char>)
    requires |d| >= 10
  {
    WeightedSum(d, 10) % 11 == 0
  }

  /**
   * A number the detector is meant to report: ten digits, a calendar date
   * (February 29 only in years divisible by four), a year other than 00,
   * a control part other than 0000, and the checksum when it is enabled.
   */
  predicate IsValidCpr(d: seq<char>, checkMod11: bool)
  {
    && |d| == 10
    && AllDigits(d)
    && 1 <= Month(d) <= 12
    && 1 <= Day(d) <= DaysInMonth(Month(d))
    && (Day(d) == 29 && Month(d) == 2 ==> Year(d) % 4 == 0)
    && Year(d) != 0
    && Control(d) != 0
    && (checkMod11 ==> PassesModulus11(d))
  }

  /** The digit boundaries where a separator may stand: after the day, the month and the year. */
  predicate IsGap(j: nat)
  {
    j == 2 || j == 4 || j == 6
  }

  /** The separators allowed before digit j: only a space inside the date, also '-' and '/' after it. */
  predicate SeparatorBefore(j: nat, c: char)
  {
    if j == 6 then IsSeparator(c) else IsSpace(c)
  }

  /**
   * Where the j-th digit of a number starting at b stands: right after the
   * previous digit, or one further when a separator allowed at that
   * boundary intervenes.
   */
  function DigitPos(text: seq<char>, b: nat, j: nat): (p: nat)
    ensures p >= b + j
    decreases j
  {
    if j == 0 then b
    else
      var p := DigitPos(text, b, j - 1) + 1;
      if IsGap(j) && p < |text| && SeparatorBefore(j, text[p]) then p + 1 else p
  }

  /** How many separator boundaries lie before digit j. */
  function GapsBefore(j: nat): nat
  {
    (if j >= 2 then 1 else 0) + (if j >= 4 then 1 else 0) + (if j >= 6 then 1 else 0)
  }

  /** Digit j stands j places after the start, plus at most one place per boundary passed. */
  lemma {:induction false} DigitPosBounds(text: seq<char>, b: nat, j: nat)
    ensures b + j <= DigitPos(text, b, j) <= b + j + GapsBefore(j)
    decreases j
  {
    if j > 0 {
      DigitPosBounds(text, b, j - 1);
    }
  }

  /** Each further digit stands at least one place further on. */
  lemma {:induction false} DigitPosGrowth(text: seq<char>, b: nat, i: nat, j: nat)
    requires i <= j
    ensures DigitPos(text, b, i) + (j - i) <= DigitPos(text, b, j)
    decreases j
  {
    if i < j {
      DigitPosGrowth(text, b, i, j - 1);
      assert DigitPos(text, b, j - 1) + 1 <= DigitPos(text, b, j);
    }
  }

  /** In a text of digits no separator is skipped: digit j stands j places after the start. */
  lemma {:induction false} DigitPosPlain(text: seq<char>, b: nat, j: nat)
    requires AllDigits(text)
    ensures DigitPos(text, b, j) == b + j
    decreases j
  {
    if j > 0 {
      DigitPosPlain(text, b, j - 1);
    }
  }

  /** Where the characters after the start are digits no separator is skipped. */
  lemma {:induction false} DigitPosOverDigits(text: seq<char>, b: nat, j: nat)
    requires forall k :: b < k <= b + j && k < |text| ==> IsDigit(text[k])
    ensures DigitPos(text, b, j) == b + j
    decreases j
  {
    if j > 0 {
      DigitPosOverDigits(text, b, j - 1);
    }
  }

  /** The text holds the ten digits d, starting at b, laid out as DigitPos describes. */
  predicate IsCprAt(text: seq<char>, b: nat, d: seq<char>)
  {
    && |d| == 10
    && forall j :: 0 <= j < 10 ==> DigitPos(text, b, j) < |text| && text[DigitPos(text, b, j)] == d[j]
  }

  /** Position e is followed by the end of the text or by a character that may follow a match. */
  predicate Bounded(text: seq<char>, e: nat)
  {
    e + 1 == |text| || (e + 1 < |text| && IsPreviousOk(text[e + 1]))
  }
}
