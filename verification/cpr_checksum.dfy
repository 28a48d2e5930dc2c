/**
 * How the detector's two flags act on its result: the modulus-11 flag only
 * drops the matches whose checksum fails, and the context flag changes
 * nothing (examine_context is never consulted by find_matches).
 */
module CprChecksum {
  import opened Optional
  import opened Rules
  import opened CprNumber
  import opened CprDetector

  /** A match whose text passes the weighted modulus-11 check. */
  predicate Passes(m: MatchResult)
  {
    |m.text| >= 10 && PassesModulus11(m.text)
  }

  /** The matches of r that pass the checksum, in their original order. */
  function KeepPassing(r: seq<MatchResult>): (k: seq<MatchResult>)
    ensures |k| <= |r|
    ensures forall m :: m in k <==> m in r && Passes(m)
  {
    if |r| == 0 then []
    else (if Passes(r[0]) then [r[0]] else []) + KeepPassing(r[1..])
  }

  /** The same detector with its checksum flag on or off and its context flag cleared. */
  const Plain: Detector := Detector(false, false)

  /** What the checksum flag does to one emitted match. */
  function Screen(det: Detector, e: Option<MatchResult>): Option<MatchResult>
  {
    if det.checkMod11 && e.Some? && !Passes(e.value) then None else e
  }

  /** One step under any detector is the plain step with its match screened. */
  lemma StepScreened(mode: Mode, det: Detector, c: char, ahead: char, s: Scan)
    ensures var o := Step(mode, det, c, ahead, s);
      var p := Step(mode, Plain, c, ahead, s);
      o.next == p.next && o.emitted == Screen(det, p.emitted)
  {
  }

  lemma {:induction false} KeepPassingAppend(a: seq<MatchResult>, b: seq<MatchResult>)
    ensures KeepPassing(a + b) == KeepPassing(a) + KeepPassing(b)
    decreases |a|
  {
    if |a| == 0 {
      assert a + b == b;
    } else {
      assert (a + b)[0] == a[0];
      assert (a + b)[1..] == a[1..] + b;
      KeepPassingAppend(a[1..], b);
    }
  }

  /** The scan under any detector is the plain scan with failing matches dropped when the checksum flag is on. */
  lemma {:induction false} RunScreened(mode: Mode, det: Detector, text: seq<char>, s: Scan)
    requires s.pos <= |text|
    ensures Run(mode, det, text, s) ==
      if det.checkMod11 then KeepPassing(Run(mode, Plain, text, s)) else Run(mode, Plain, text, s)
    decreases |text| - s.pos
  {
    if s.pos < |text| {
      var c, ahead := text[s.pos], Ahead(text, s.pos);
      StepScreened(mode, det, c, ahead, s);
      var p := Step(mode, Plain, c, ahead, s);
      RunScreened(mode, det, text, p.next);
      var head := if p.emitted.Some? then [p.emitted.value] else [];
      KeepPassingAppend(head, Run(mode, Plain, text, p.next));
    }
  }

  /** Turning the checksum on keeps exactly the matches whose checksum passes, in order. */
  lemma ChecksumFilters(examineContext: bool, text: seq<char>)
    ensures FindMatches(Detector(true, examineContext), text) == KeepPassing(FindMatches(Detector(false, examineContext), text))
  {
    if |text| >= 10 {
      RunScreened(Intended, Detector(true, examineContext), text, Initial);
      RunScreened(Intended, Detector(false, examineContext), text, Initial);
    }
  }

  /** The context flag has no effect on the result. */
  lemma ContextIgnored(checkMod11: bool, x: bool, y: bool, text: seq<char>)
    ensures FindMatches(Detector(checkMod11, x), text) == FindMatches(Detector(checkMod11, y), text)
  {
    if |text| >= 10 {
      RunScreened(Intended, Detector(checkMod11, x), text, Initial);
      RunScreened(Intended, Detector(checkMod11, y), text, Initial);
    }
  }
}
