/**
 * The value types every scanning rule returns: the sensitivity tiers and one
 * located match (include/os2dsrules.hpp).
 */
module Rules {

  /** The five sensitivity tiers, in declaration order. */
  datatype Sensitivity = Information | Notice | Warning | Problem | Critical

  /** Position of a tier in the declaration order. */
  function Rank(s: Sensitivity): nat
  {
    match s
    case Information => 0
    case Notice => 1
    case Warning => 2
    case Problem => 3
    case Critical => 4
  }

  /** The integer each tier is declared with: evenly spaced, so strictly increasing with the rank. */
  function Level(s: Sensitivity): (n: nat)
    ensures n == 250 * Rank(s)
  {
    match s
    case Information => 0
    case Notice => 250
    case Warning => 500
    case Problem => 750
    case Critical => 1000
  }

  lemma LevelOrdersTiers(a: Sensitivity, b: Sensitivity)
    ensures Rank(a) < Rank(b) <==> Level(a) < Level(b)
    ensures Level(a) == Level(b) ==> a == b
    ensures Level(Information) == 0 && Level(Critical) == 1000
  {
  }

  /**
   * One detected span. `text` is the matched text, `start` and `end` offsets
   * into the scanned content; the type itself imposes no relation between
   * them, each rule documents its own convention. The probability is a
   * double in the source and is carried here as an uninterpreted real.
   */
  datatype MatchResult = MatchResult(text: string, start: nat, end: nat, sensitivity: Sensitivity, probability: real)

  /** The constructor with its defaults: sensitivity Critical and probability 1.0. */
  function NewMatch(text: string, start: nat, end: nat, sensitivity: Sensitivity := Critical, probability: real := 1.0): (m: MatchResult)
    ensures m.text == text && m.start == start && m.end == end
    ensures m.sensitivity == sensitivity && m.probability == probability
  {
    MatchResult(text, start, end, sensitivity, probability)
  }

  /** Results appear left to right: each one ends before any later one starts, so none overlap. */
  ghost predicate Ordered(r: seq<MatchResult>)
  {
    forall a, b :: 0 <= a < b < |r| ==> r[a].end < r[b].start
  }

  /** A result placed before an ordered list that starts no earlier than `floor` keeps it ordered. */
  lemma OrderedCons(e: MatchResult, rest: seq<MatchResult>, floor: int)
    requires Ordered(rest)
    requires forall m :: m in rest ==> m.start >= floor
    requires e.end < floor
    ensures Ordered([e] + rest)
  {
    var r := [e] + rest;
    forall a, b | 0 <= a < b < |r|
      ensures r[a].end < r[b].start
    {
      assert r[b] == rest[b - 1];
      if a > 0 {
        assert r[a] == rest[a - 1];
      } else {
        assert rest[b - 1] in rest;
      }
    }
  }
}
