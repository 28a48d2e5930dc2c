/**
 * The bucket of the separately chained hash set (AbstractHashSet::Chain in
 * include/data_structures.hpp). A chain always has a head node; a
 * default-constructed one holds the empty string view. The linked nodes are
 * modelled as the sequence of their values, head first.
 */
module Chains {

  /** A chain: the head value followed by the values of the linked nodes. */
  type Chain = c: seq<string> | |c| >= 1 witness [""]

  /** The chain a default-constructed bucket holds: one node with the empty value. */
  const Default: Chain := [""]

  /** Whether some node holds `v`: compare the head, then ask the next node if there is one. */
  function Contains(c: Chain, v: string): (b: bool)
    ensures b <==> v in c
    decreases |c|
  {
    if c[0] == v then true
    else if |c| > 1 then Contains(c[1..], v)
    else false
  }

  /** The number of nodes: one for this node plus the length of the rest. */
  function Length(c: Chain): (n: nat)
    ensures n == |c|
    decreases |c|
  {
    if |c| > 1 then 1 + Length(c[1..]) else 1
  }

  /** Hand the value down to the last node and link a new node holding it after that one. */
  function Append(c: Chain, v: string): (r: Chain)
    ensures r == c + [v]
    ensures Length(r) == Length(c) + 1
    decreases |c|
  {
    if |c| == 1 then [c[0], v]
    else [c[0]] + Append(c[1..], v)
  }

  /**
   * What remains linked from the parent's pointer after remove(v, prev) runs
   * on chain c: `hasPrev` says whether a previous node was passed. A node
   * holding v is unlinked only when it has a previous node; otherwise the
   * call is handed down the chain.
   */
  function RemoveFrom(c: Chain, v: string, hasPrev: bool): (r: seq<string>)
    ensures !hasPrev && c[0] == v ==> r == c
    ensures hasPrev && c[0] == v ==> r == c[1..]
    ensures v !in c ==> r == c
    ensures |c| - 1 <= |r| <= |c|
    ensures forall w :: w in r ==> w in c
    decreases |c|
  {
    if c[0] == v then (if hasPrev then c[1..] else c)
    else [c[0]] + (if |c| > 1 then RemoveFrom(c[1..], v, true) else [])
  }

  /** remove(v) on a chain, called with no previous node. */
  function Remove(c: Chain, v: string): (r: Chain)
    ensures r[0] == c[0]
    ensures |c| - 1 <= |r| <= |c|
    ensures forall w :: w in r ==> w in c
  {
    RemoveFrom(c, v, false)
  }

  /** The chain without the node at index i. */
  function Without(c: seq<string>, i: nat): seq<string>
    requires i < |c|
  {
    c[..i] + c[i + 1..]
  }

  /** The index of the first node holding v. */
  function FirstIndex(c: seq<string>, v: string): (i: nat)
    requires v in c
    ensures i < |c| && c[i] == v
    ensures forall k :: 0 <= k < i ==> c[k] != v
  {
    if c[0] == v then 0 else 1 + FirstIndex(c[1..], v)
  }

  /** Dropping a node after the head keeps the head in front. */
  lemma WithoutCons(c: seq<string>, i: nat)
    requires 0 < i < |c|
    ensures Without(c, i) == [c[0]] + Without(c[1..], i - 1)
  {
    assert c[..i] == [c[0]] + c[1..][..i - 1];
    assert c[i + 1..] == c[1..][i..];
  }

  /** Removing from a tail (a previous node exists) drops exactly the first node holding v. */
  lemma {:induction false} RemoveFromDropsFirst(c: Chain, v: string)
    requires v in c
    ensures RemoveFrom(c, v, true) == Without(c, FirstIndex(c, v))
    decreases |c|
  {
    if c[0] != v {
      var t: Chain := c[1..];
      RemoveFromDropsFirst(t, v);
      assert FirstIndex(c, v) == FirstIndex(t, v) + 1;
      WithoutCons(c, FirstIndex(c, v));
    } else {
      assert c[..0] == [];
    }
  }

  /**
   * remove(v) leaves the chain unchanged when the head holds v (the head has
   * no previous node to unlink it from) or when no node holds v; otherwise it
   * unlinks the first node holding v, which lies after the head, and keeps the
   * others in order.
   */
  lemma RemoveSpec(c: Chain, v: string)
    ensures c[0] == v ==> Remove(c, v) == c
    ensures v !in c ==> Remove(c, v) == c
    ensures c[0] != v && v in c ==> FirstIndex(c, v) > 0 && Remove(c, v) == Without(c, FirstIndex(c, v))
  {
    if c[0] != v && v in c {
      var t: Chain := c[1..];
      RemoveFromDropsFirst(t, v);
      assert FirstIndex(c, v) == FirstIndex(t, v) + 1;
      WithoutCons(c, FirstIndex(c, v));
    }
  }

  /** A chain holds no value twice. */
  ghost predicate Distinct(c: seq<string>)
  {
    forall a, b :: 0 <= a < b < |c| ==> c[a] != c[b]
  }

  /** Removing from a chain without repeats, when the head does not hold v, leaves no node holding v. */
  lemma RemoveDistinct(c: Chain, v: string)
    requires Distinct(c) && c[0] != v
    ensures v !in Remove(c, v)
    ensures |Remove(c, v)| == if v in c then |c| - 1 else |c|
  {
    RemoveSpec(c, v);
    if v in c {
      var i := FirstIndex(c, v);
      forall k | 0 <= k < |Without(c, i)|
        ensures Without(c, i)[k] != v
      {
        if k < i {
          assert Without(c, i)[k] == c[k];
        } else {
          assert Without(c, i)[k] == c[k + 1];
        }
      }
    }
  }
}
