/**
 * The word boundary before a CPR number. A candidate opens only when the
 * previous-character register passes is_previous_ok. That register holds the
 * character read last, except that update leaves NUL in it when it drops an
 * open candidate. So a reported number starts at the beginning of the text,
 * after NUL, space, newline or tab, or right after the character that dropped
 * a candidate.
 */
module CprBoundary {
  import opened Rules
  import opened CprChars
  import opened CprDetector

  /** The configuration n steps of the corrected scan of `text` lead to from s. */
  function Steps(det: Detector, text: seq<char>, s: Scan, n: nat): (r: Scan)
    requires s.pos + n <= |text|
    ensures r.pos == s.pos + n
    decreases n
  {
    if n == 0 then s
    else Steps(det, text, Step(Intended, det, text[s.pos], Ahead(text, s.pos), s).next, n - 1)
  }

  /** The configuration the corrected scan of `text` has reached before reading index i. */
  function ScanAt(det: Detector, text: seq<char>, i: nat): (s: Scan)
    requires i <= |text|
    ensures s.pos == i
  {
    Steps(det, text, Initial, i)
  }

  /** One more step after n steps is the step from where the n steps lead. */
  lemma {:induction false} StepsLast(det: Detector, text: seq<char>, s: Scan, n: nat)
    requires s.pos + n < |text|
    ensures var e := Steps(det, text, s, n);
      Steps(det, text, s, n + 1) == Step(Intended, det, text[e.pos], Ahead(text, e.pos), e).next
    decreases n
  {
    if n > 0 {
      StepsLast(det, text, Step(Intended, det, text[s.pos], Ahead(text, s.pos), s).next, n - 1);
    }
  }

  /** The configuration before index i + 1 is one step on from the one before index i. */
  lemma ScanAtNext(det: Detector, text: seq<char>, i: nat)
    requires i < |text|
    ensures ScanAt(det, text, i + 1) == Step(Intended, det, text[i], Ahead(text, i), ScanAt(det, text, i)).next
  {
    StepsLast(det, text, Initial, i);
  }

  /** Reading index i dropped a candidate holding one to eight digits, and update left NUL in the register. */
  ghost predicate DroppedAt(det: Detector, text: seq<char>, i: nat)
    requires i < |text|
  {
    && 1 <= Stored(ScanAt(det, text, i).state) <= 8
    && ScanAt(det, text, i + 1).state == Empty
    && ScanAt(det, text, i + 1).previous == '\0'
  }

  /** What may stand before the first digit of a number starting at offset b. */
  ghost predicate LeftBoundary(det: Detector, text: seq<char>, b: nat)
    requires b <= |text|
  {
    b == 0 || IsPreviousOk(text[b - 1]) || DroppedAt(det, text, b - 1)
  }

  /**
   * Leaving a candidate for Empty puts the character just read into the
   * register, or NUL when update rejected it. Only Empty opens a candidate,
   * and only with a boundary in the register; the offset of its first digit
   * is then kept until it closes.
   */
  lemma StepRegister(mode: Mode, det: Detector, c: char, ahead: char, s: Scan)
    ensures var o := Step(mode, det, c, ahead, s);
      && (o.next.state == Empty ==> o.next.previous == c || (1 <= Stored(s.state) <= 8 && o.next.previous == '\0'))
      && (s.state != Empty ==> o.next.begin == s.begin)
      && (s.state == Empty && o.next.state != Empty ==> o.next.begin == Here(mode, s) && IsPreviousOk(s.previous))
  {
  }

  /** StepRegister for the step that reads index i - 1. */
  lemma ScanAtRegister(det: Detector, text: seq<char>, i: nat)
    requires 0 < i <= |text|
    ensures var p := ScanAt(det, text, i - 1);
      var n := ScanAt(det, text, i);
      && (n.state == Empty ==> n.previous == text[i - 1] || (1 <= Stored(p.state) <= 8 && n.previous == '\0'))
      && (p.state != Empty ==> n.begin == p.begin)
      && (p.state == Empty && n.state != Empty ==> n.begin == i - 1 && IsPreviousOk(p.previous))
  {
    ScanAtNext(det, text, i - 1);
    StepRegister(Intended, det, text[i - 1], Ahead(text, i - 1), ScanAt(det, text, i - 1));
  }

  /** In Empty, the register holds the character read last, NUL at the start, or NUL after a dropped candidate. */
  lemma EmptyRegister(det: Detector, text: seq<char>, i: nat)
    requires i <= |text| && ScanAt(det, text, i).state == Empty
    ensures var s := ScanAt(det, text, i);
      || (i == 0 && s.previous == '\0')
      || (i > 0 && (s.previous == text[i - 1] || DroppedAt(det, text, i - 1)))
  {
    if i > 0 {
      ScanAtRegister(det, text, i);
    }
  }

  /** Every open candidate began before the cursor, at a left boundary. */
  lemma {:induction false} OpenedAtBoundary(det: Detector, text: seq<char>, i: nat)
    requires i <= |text|
    ensures var s := ScanAt(det, text, i);
      s.state != Empty ==> s.begin < i && LeftBoundary(det, text, s.begin)
    decreases i
  {
    if i > 0 {
      OpenedAtBoundary(det, text, i - 1);
      ScanAtRegister(det, text, i);
      if ScanAt(det, text, i - 1).state == Empty {
        EmptyRegister(det, text, i - 1);
      }
    }
  }

  /** Every match the scan reports from index i onwards starts at a left boundary. */
  lemma {:induction false} RunLeftBounded(det: Detector, text: seq<char>, i: nat)
    requires i <= |text|
    ensures forall m :: m in Run(Intended, det, text, ScanAt(det, text, i)) ==>
      m.start < |text| && LeftBoundary(det, text, m.start)
    decreases |text| - i
  {
    if i < |text| {
      var s := ScanAt(det, text, i);
      var o := Step(Intended, det, text[i], Ahead(text, i), s);
      ScanAtNext(det, text, i);
      RunLeftBounded(det, text, i + 1);
      if o.emitted.Some? {
        OpenedAtBoundary(det, text, i);
        assert Run(Intended, det, text, s) == [o.emitted.value] + Run(Intended, det, text, o.next);
      } else {
        assert Run(Intended, det, text, s) == Run(Intended, det, text, o.next);
      }
    }
  }

  /** Every match of find_matches starts at a left boundary. */
  lemma FindMatchesLeftBounded(det: Detector, text: seq<char>)
    ensures forall m :: m in FindMatches(det, text) ==> m.start < |text| && LeftBoundary(det, text, m.start)
  {
    if |text| >= 10 {
      RunLeftBounded(det, text, 0);
    }
  }

  /** From Empty, a character other than a digit opens no candidate. */
  lemma NonDigitKeepsEmpty(mode: Mode, det: Detector, c: char, ahead: char, s: Scan)
    requires s.state == Empty && !IsDigit(c)
    ensures Step(mode, det, c, ahead, s).next.state == Empty
  {
    MakePredicateIsMembership("0123", c);
  }

  /** No candidate opens before the first digit of the text. */
  lemma {:induction false} EmptyBeforeDigits(det: Detector, text: seq<char>, i: nat)
    requires i <= |text| && forall j :: 0 <= j < i ==> !IsDigit(text[j])
    ensures ScanAt(det, text, i).state == Empty
    decreases i
  {
    if i > 0 {
      EmptyBeforeDigits(det, text, i - 1);
      ScanAtNext(det, text, i - 1);
      NonDigitKeepsEmpty(Intended, det, text[i - 1], Ahead(text, i - 1), ScanAt(det, text, i - 1));
    }
  }

  /** Before the first digit of the text no candidate is open, so none is dropped. */
  lemma NoDropBeforeDigits(det: Detector, text: seq<char>, i: nat)
    requires i < |text| && forall j :: 0 <= j < i ==> !IsDigit(text[j])
    ensures !DroppedAt(det, text, i)
  {
    EmptyBeforeDigits(det, text, i);
  }

  /**
   * With no digit earlier in the text, the character before a reported
   * number is NUL, space, newline or tab: "#1111111118 x" reports nothing at 1.
   */
  lemma GluedStart(det: Detector, text: seq<char>, m: MatchResult)
    requires m in FindMatches(det, text)
    ensures 0 < m.start < |text| && (forall j :: 0 <= j < m.start - 1 ==> !IsDigit(text[j]))
      ==> IsPreviousOk(text[m.start - 1])
  {
    var b := m.start;
    assert b < |text| && LeftBoundary(det, text, b) by {
      FindMatchesLeftBounded(det, text);
    }
    if 0 < b && (forall j :: 0 <= j < b - 1 ==> !IsDigit(text[j])) {
      NoDropBeforeDigits(det, text, b - 1);
    }
  }
}
