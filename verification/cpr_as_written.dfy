/**
 * The detector as written compared with the corrected one over every input.
 * Both variants take the same state transitions: they differ only in the
 * offsets they record and in the as-written scan appending a buffer whose
 * tenth character was rejected (and so is NUL). Dropping those NUL-ended
 * matches leaves exactly the texts the corrected scan reports, in the same
 * order, so every property of the reported texts carries over. The
 * as-written offsets come from the counter and still increase from match
 * to match.
 */
module CprAsWritten {
  import opened Rules
  import opened CprChars
  import opened CprNumber
  import opened CprDetector
  import opened CprSoundness

  /** A match whose tenth character is a digit, the only kind the corrected scan appends. */
  predicate Finished(m: MatchResult)
  {
    |m.text| == 10 && IsDigit(m.text[9])
  }

  /** The matches of r whose tenth character is a digit, in order. */
  function DropUnfinished(r: seq<MatchResult>): (k: seq<MatchResult>)
    ensures |k| <= |r|
    ensures forall m :: m in k <==> m in r && Finished(m)
    decreases |r|
  {
    if |r| == 0 then []
    else (if Finished(r[0]) then [r[0]] else []) + DropUnfinished(r[1..])
  }

  /** The texts of a list of matches. */
  function Texts(r: seq<MatchResult>): (t: seq<string>)
    ensures |t| == |r|
    ensures forall k :: 0 <= k < |r| ==> t[k] == r[k].text
  {
    seq(|r|, k requires 0 <= k < |r| => r[k].text)
  }

  /** Two configurations that agree on everything but the offset of the candidate's first digit. */
  predicate SameButBegin(s: Scan, t: Scan)
  {
    s.(begin := t.begin) == t
  }

  /**
   * One step from configurations that differ only in `begin`: the next ones
   * again differ only in `begin`; when the corrected step appends a match the
   * as-written step appends one with the same text; an as-written match with
   * no corrected counterpart ends in NUL.
   */
  lemma StepAgrees(det: Detector, c: char, ahead: char, s: Scan, t: Scan)
    requires SameButBegin(s, t)
    ensures var a := Step(AsWritten, det, c, ahead, s);
      var b := Step(Intended, det, c, ahead, t);
      && SameButBegin(a.next, b.next)
      && (b.emitted.Some? ==> a.emitted.Some? && a.emitted.value.text == b.emitted.value.text)
      && (a.emitted.Some? && b.emitted.None? ==> a.emitted.value.text[9] == '\0')
  {
    if s.state == Match {
      MatchAgrees(det, c, ahead, s, t);
    } else if s.state in {Empty, First, Second, Third} {
      EarlyAgrees(det, c, ahead, s, t);
    } else {
      LateAgrees(det, c, ahead, s, t);
    }
  }

  /** Before the month is complete neither variant appends, and they move alike. */
  lemma EarlyAgrees(det: Detector, c: char, ahead: char, s: Scan, t: Scan)
    requires SameButBegin(s, t) && s.state in {Empty, First, Second, Third}
    ensures SameButBegin(Step(AsWritten, det, c, ahead, s).next, Step(Intended, det, c, ahead, t).next)
  {
  }

  /** From the fifth to the ninth digit neither variant appends, and they move alike. */
  lemma LateAgrees(det: Detector, c: char, ahead: char, s: Scan, t: Scan)
    requires SameButBegin(s, t) && s.state in {Fourth, Fifth, Sixth, Seventh, Eighth}
    ensures SameButBegin(Step(AsWritten, det, c, ahead, s).next, Step(Intended, det, c, ahead, t).next)
  {
  }

  /** In state Match the two variants check the same buffer; only the corrected one also asks for a tenth digit. */
  lemma MatchAgrees(det: Detector, c: char, ahead: char, s: Scan, t: Scan)
    requires SameButBegin(s, t) && s.state == Match
    ensures var a := Step(AsWritten, det, c, ahead, s);
      var b := Step(Intended, det, c, ahead, t);
      && SameButBegin(a.next, b.next)
      && (b.emitted.Some? ==> a.emitted.Some? && a.emitted.value.text == b.emitted.value.text)
      && (a.emitted.Some? && b.emitted.None? ==> a.emitted.value.text[9] == '\0')
  {
    var (st, ch) := Update(c, Match, AnyDigit);
    var cpr := s.cpr[9 := ch];
    assert t.cpr == s.cpr;
    assert st != Match ==> cpr[9] == '\0';
  }

  lemma TextsCons(m: MatchResult, r: seq<MatchResult>)
    ensures Texts([m] + r) == [m.text] + Texts(r)
  {
  }

  /**
   * From configurations that differ only in `begin`, the as-written scan
   * without its NUL-ended matches reports the corrected scan's texts, in order.
   */
  lemma {:induction false} RunAgrees(det: Detector, text: seq<char>, s: Scan, t: Scan)
    requires s.pos <= |text| && SameButBegin(s, t)
    ensures Texts(DropUnfinished(Run(AsWritten, det, text, s))) == Texts(Run(Intended, det, text, t))
    decreases |text| - s.pos
  {
    if s.pos < |text| {
      var c := text[s.pos];
      var ahead := Ahead(text, s.pos);
      var a := Step(AsWritten, det, c, ahead, s);
      var b := Step(Intended, det, c, ahead, t);
      StepAgrees(det, c, ahead, s, t);
      RunAgrees(det, text, a.next, b.next);
      var ra := Run(AsWritten, det, text, a.next);
      var rb := Run(Intended, det, text, b.next);
      if a.emitted.Some? {
        var m := a.emitted.value;
        assert Run(AsWritten, det, text, s) == [m] + ra;
        assert ([m] + ra)[1..] == ra;
        if b.emitted.Some? {
          assert Run(Intended, det, text, t) == [b.emitted.value] + rb;
          assert Finished(m);
          assert DropUnfinished([m] + ra) == [m] + DropUnfinished(ra);
          TextsCons(m, DropUnfinished(ra));
          TextsCons(b.emitted.value, rb);
        } else {
          assert Run(Intended, det, text, t) == rb;
          assert !Finished(m);
          assert DropUnfinished([m] + ra) == DropUnfinished(ra);
        }
      } else {
        assert Run(AsWritten, det, text, s) == ra;
        assert Run(Intended, det, text, t) == rb;
      }
    }
  }

  /**
   * find_matches as written, once the matches ending in NUL are dropped,
   * reports exactly the texts of the corrected find_matches, in order.
   */
  lemma TextsAgree(det: Detector, text: seq<char>)
    ensures Texts(DropUnfinished(FindMatchesAsWritten(det, text))) == Texts(FindMatches(det, text))
  {
    if |text| >= 10 {
      RunAgrees(det, text, Initial, Initial);
    }
  }

  /** Every as-written match either is one the corrected scan reports or ends in NUL. */
  lemma AsWrittenTenth(det: Detector, text: seq<char>, m: MatchResult)
    requires m in FindMatchesAsWritten(det, text)
    ensures Finished(m) || m.text[9] == '\0'
  {
  }

  /**
   * The texts the as-written scan reports with a digit in tenth place are
   * valid CPR numbers: calendar date, year other than 00, control other than
   * 0000, and the checksum when it is enabled. Each is Critical with
   * probability 1.0.
   */
  lemma AsWrittenFinishedValid(det: Detector, text: seq<char>, m: MatchResult)
    requires m in DropUnfinished(FindMatchesAsWritten(det, text))
    ensures IsValidCpr(m.text, det.checkMod11)
    ensures m.sensitivity == Critical && m.probability == 1.0
  {
    var k := DropUnfinished(FindMatchesAsWritten(det, text));
    var r := FindMatches(det, text);
    TextsAgree(det, text);
    FindMatchesSound(det, text);
    var i :| 0 <= i < |k| && k[i] == m;
    assert Texts(k)[i] == Texts(r)[i];
    assert r[i] in r;
  }

  /** The offset the next reported match can start at: the open candidate's, or the counter. */
  function Floor(s: Scan): nat
  {
    if s.state == Empty then s.count else s.begin
  }

  /** An open candidate began no later than the counter now stands. */
  predicate CountAhead(s: Scan)
  {
    s.state != Empty ==> s.begin <= s.count
  }

  /** One as-written step keeps CountAhead, never lowers the floor, and appends below the next floor. */
  lemma StepCounts(det: Detector, c: char, ahead: char, s: Scan)
    requires CountAhead(s)
    ensures var o := Step(AsWritten, det, c, ahead, s);
      && CountAhead(o.next)
      && Floor(s) <= Floor(o.next)
      && (o.emitted.Some? ==> Floor(s) <= o.emitted.value.start && o.emitted.value.end < Floor(o.next))
  {
  }

  /**
   * From a configuration meeting CountAhead, the as-written matches start no
   * earlier than the floor and are strictly ordered by their counter offsets.
   */
  lemma {:induction false} RunOrdered(det: Detector, text: seq<char>, s: Scan)
    requires s.pos <= |text| && CountAhead(s)
    ensures var r := Run(AsWritten, det, text, s);
      && Ordered(r)
      && (forall m :: m in r ==> m.start >= Floor(s))
    decreases |text| - s.pos
  {
    if s.pos < |text| {
      var o := Step(AsWritten, det, text[s.pos], Ahead(text, s.pos), s);
      StepCounts(det, text[s.pos], Ahead(text, s.pos), s);
      RunOrdered(det, text, o.next);
      var rest := Run(AsWritten, det, text, o.next);
      if o.emitted.Some? {
        OrderedCons(o.emitted.value, rest, Floor(o.next));
        assert Run(AsWritten, det, text, s) == [o.emitted.value] + rest;
      }
    }
  }

  /** Dropping matches from an ordered list keeps it ordered. */
  lemma {:induction false} DropKeepsOrder(r: seq<MatchResult>)
    requires Ordered(r)
    ensures Ordered(DropUnfinished(r))
    decreases |r|
  {
    if |r| > 0 {
      var rest := DropUnfinished(r[1..]);
      assert Ordered(r[1..]) by {
        forall a, b | 0 <= a < b < |r[1..]|
          ensures r[1..][a].end < r[1..][b].start
        {
          assert r[1..][a] == r[a + 1] && r[1..][b] == r[b + 1];
        }
      }
      DropKeepsOrder(r[1..]);
      if Finished(r[0]) {
        forall m | m in rest
          ensures m.start >= r[0].end + 1
        {
          var j :| 0 <= j < |r[1..]| && r[1..][j] == m;
          assert r[j + 1] == m;
        }
        OrderedCons(r[0], rest, r[0].end + 1);
      }
    }
  }

  /**
   * The as-written matches come out strictly ordered by their recorded
   * offsets, and so do those that remain when the NUL-ended ones are dropped.
   */
  lemma AsWrittenOrdered(det: Detector, text: seq<char>)
    ensures Ordered(FindMatchesAsWritten(det, text))
    ensures Ordered(DropUnfinished(FindMatchesAsWritten(det, text)))
  {
    if |text| >= 10 {
      RunOrdered(det, text, Initial);
    }
    DropKeepsOrder(FindMatchesAsWritten(det, text));
  }
}
