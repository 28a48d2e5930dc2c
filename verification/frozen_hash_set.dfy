/**
 * FrozenHashSet (include/data_structures.hpp): a string set built once from
 * an array of values, one chain per bucket, the bucket count equal to the
 * number of initial values. The standard library's string hash is not part
 * of this model: the set carries an arbitrary hash function and every
 * property below holds whatever that function is.
 */
module FrozenHashSets {
  import opened Chains

  datatype FrozenHashSet = FrozenHashSet(hash: string -> nat, buckets: seq<Chain>)

  /** The bucket a value belongs to: its hash modulo the bucket count. */
  function Index(hash: string -> nat, size: nat, v: string): (i: nat)
    requires size > 0
    ensures i < size
  {
    hash(v) % size
  }

  /** A set whose every bucket still holds the default chain. */
  function Empty(hash: string -> nat, size: nat): (h: FrozenHashSet)
    ensures h.hash == hash && |h.buckets| == size
    ensures forall i :: 0 <= i < size ==> h.buckets[i] == Default
  {
    FrozenHashSet(hash, seq(size, _ => Default))
  }

  /**
   * insert(v): a value its bucket already holds is skipped; a bucket whose
   * head holds the empty string is replaced by a fresh one-node chain;
   * otherwise v is appended to the bucket's chain.
   */
  function Insert(h: FrozenHashSet, v: string): (r: FrozenHashSet)
    requires |h.buckets| > 0
    ensures r.hash == h.hash && |r.buckets| == |h.buckets|
    ensures v in r.buckets[Index(h.hash, |h.buckets|, v)]
    ensures forall j :: 0 <= j < |h.buckets| && j != Index(h.hash, |h.buckets|, v) ==> r.buckets[j] == h.buckets[j]
  {
    var i := Index(h.hash, |h.buckets|, v);
    var chain := h.buckets[i];
    if Chains.Contains(chain, v) then h
    else if chain[0] == "" then h.(buckets := h.buckets[i := [v]])
    else h.(buckets := h.buckets[i := Append(chain, v)])
  }

  /** Insert the values one after another, first to last. */
  function InsertAll(h: FrozenHashSet, vals: seq<string>): (r: FrozenHashSet)
    requires |h.buckets| > 0
    ensures r.hash == h.hash && |r.buckets| == |h.buckets|
    decreases |vals|
  {
    if |vals| == 0 then h else InsertAll(Insert(h, vals[0]), vals[1..])
  }

  /** The constructor: as many buckets as initial values, each value inserted in array order. */
  function Build(hash: string -> nat, init: seq<string>): (h: FrozenHashSet)
    ensures h.hash == hash && |h.buckets| == |init|
  {
    if |init| == 0 then Empty(hash, 0) else InsertAll(Empty(hash, |init|), init)
  }

  /** contains(v): look v up in the chain of its bucket. */
  function Contains(h: FrozenHashSet, v: string): (b: bool)
    requires |h.buckets| > 0
    ensures b <==> exists k :: 0 <= k < |h.buckets[Index(h.hash, |h.buckets|, v)]| && h.buckets[Index(h.hash, |h.buckets|, v)][k] == v
  {
    Chains.Contains(h.buckets[Index(h.hash, |h.buckets|, v)], v)
  }

  /** The non-empty values of a sequence. */
  function NonEmpty(vals: seq<string>): set<string>
  {
    set w | w in vals && w != ""
  }

  /**
   * The invariant insert keeps, for the set S of non-empty values inserted so
   * far: every non-empty value stored sits in its own bucket and belongs to S,
   * every member of S is stored in its bucket, a bucket whose head is empty
   * is still the default chain, and no chain holds a value twice.
   */
  ghost predicate Holds(h: FrozenHashSet, S: set<string>)
  {
    && |h.buckets| > 0
    && (forall i, k :: 0 <= i < |h.buckets| && 0 <= k < |h.buckets[i]| && h.buckets[i][k] != "" ==>
          h.buckets[i][k] in S && Index(h.hash, |h.buckets|, h.buckets[i][k]) == i)
    && (forall w :: w in S ==> w != "" && w in h.buckets[Index(h.hash, |h.buckets|, w)])
    && (forall i :: 0 <= i < |h.buckets| && h.buckets[i][0] == "" ==> h.buckets[i] == Default)
    && (forall i :: 0 <= i < |h.buckets| ==> Distinct(h.buckets[i]))
  }

  /** Inserting a value its bucket already holds changes nothing. */
  lemma InsertPresent(h: FrozenHashSet, S: set<string>, v: string)
    requires Holds(h, S)
    requires Chains.Contains(h.buckets[Index(h.hash, |h.buckets|, v)], v)
    ensures Insert(h, v) == h
    ensures v == "" || v in S
  {
    var chain := h.buckets[Index(h.hash, |h.buckets|, v)];
    var k :| 0 <= k < |chain| && chain[k] == v;
  }

  /** A bucket still holding the default chain receives the one-node chain [v]. */
  lemma InsertIntoDefault(h: FrozenHashSet, S: set<string>, v: string)
    requires Holds(h, S)
    requires var chain := h.buckets[Index(h.hash, |h.buckets|, v)];
      !Chains.Contains(chain, v) && chain[0] == ""
    ensures Holds(Insert(h, v), S + {v})
  {
    var i := Index(h.hash, |h.buckets|, v);
    assert h.buckets[i] == Default;
    assert forall w :: w in S ==> Index(h.hash, |h.buckets|, w) != i;
    assert Insert(h, v).buckets == h.buckets[i := [v]];
  }

  /** Otherwise v is appended at the tail of its bucket's chain. */
  lemma InsertAppended(h: FrozenHashSet, S: set<string>, v: string)
    requires Holds(h, S)
    requires var chain := h.buckets[Index(h.hash, |h.buckets|, v)];
      !Chains.Contains(chain, v) && chain[0] != ""
    ensures Holds(Insert(h, v), if v == "" then S else S + {v})
  {
    var i := Index(h.hash, |h.buckets|, v);
    var chain := h.buckets[i];
    var r := Insert(h, v);
    var S' := if v == "" then S else S + {v};
    assert r.buckets == h.buckets[i := chain + [v]];
    assert Distinct(r.buckets[i]) by {
      assert forall k :: 0 <= k < |chain| ==> chain[k] != v;
    }
    forall k | 0 <= k < |r.buckets[i]|
      ensures r.buckets[i][k] != "" ==> r.buckets[i][k] in S' && Index(h.hash, |h.buckets|, r.buckets[i][k]) == i
    {
      if k < |chain| {
        assert r.buckets[i][k] == chain[k];
      }
    }
  }

  lemma InsertKeeps(h: FrozenHashSet, S: set<string>, v: string)
    requires Holds(h, S)
    ensures Holds(Insert(h, v), if v == "" then S else S + {v})
  {
    var chain := h.buckets[Index(h.hash, |h.buckets|, v)];
    if Chains.Contains(chain, v) {
      InsertPresent(h, S, v);
      assert (if v == "" then S else S + {v}) == S;
    } else if chain[0] == "" {
      InsertIntoDefault(h, S, v);
    } else {
      InsertAppended(h, S, v);
    }
  }

  lemma NonEmptyCons(vals: seq<string>)
    requires |vals| > 0
    ensures NonEmpty(vals) == (if vals[0] == "" then {} else {vals[0]}) + NonEmpty(vals[1..])
  {
    assert forall w :: w in vals <==> w == vals[0] || w in vals[1..];
  }

  lemma {:induction false} InsertAllKeeps(h: FrozenHashSet, S: set<string>, vals: seq<string>)
    requires Holds(h, S)
    ensures Holds(InsertAll(h, vals), S + NonEmpty(vals))
    decreases |vals|
  {
    if |vals| > 0 {
      var v := vals[0];
      InsertKeeps(h, S, v);
      InsertAllKeeps(Insert(h, v), if v == "" then S else S + {v}, vals[1..]);
      NonEmptyCons(vals);
    } else {
      assert NonEmpty(vals) == {};
    }
  }

  lemma BuildHolds(hash: string -> nat, init: seq<string>)
    requires |init| > 0
    ensures Holds(Build(hash, init), NonEmpty(init))
  {
    var e := Empty(hash, |init|);
    assert Holds(e, {});
    InsertAllKeeps(e, {}, init);
  }

  /**
   * After construction every non-empty value of the initializer is found,
   * and no other non-empty value is: chains compare whole values, so a hash
   * collision never produces a false positive.
   */
  lemma BuildContains(hash: string -> nat, init: seq<string>, v: string)
    requires |init| > 0 && v != ""
    ensures Contains(Build(hash, init), v) <==> v in init
  {
    var h := Build(hash, init);
    BuildHolds(hash, init);
    if Contains(h, v) {
      var c := h.buckets[Index(hash, |init|, v)];
      var k :| 0 <= k < |c| && c[k] == v;
    }
  }

  /**
   * Querying the empty string answers true whenever no non-empty initial
   * value shares its bucket, whether or not the empty string was inserted:
   * the bucket then still holds the default chain, whose head is empty.
   */
  lemma EmptyStringFoundInUnusedBucket(hash: string -> nat, init: seq<string>)
    requires |init| > 0
    requires forall w :: w in init && w != "" ==> Index(hash, |init|, w) != Index(hash, |init|, "")
    ensures Contains(Build(hash, init), "")
  {
    var h := Build(hash, init);
    BuildHolds(hash, init);
    var head := h.buckets[Index(hash, |init|, "")][0];
    assert head != "" ==> head in NonEmpty(init);
  }

  /** Every chain of a built set is free of repeats: insert skips a value its bucket already holds. */
  lemma BuildDistinct(hash: string -> nat, init: seq<string>, i: nat)
    requires i < |init|
    ensures Distinct(Build(hash, init).buckets[i])
  {
    BuildHolds(hash, init);
  }

  /**
   * As written, inserting the empty string and then a non-empty value with
   * the same bucket loses the empty string: the first insert finds "" at the
   * head of the default chain and stores nothing, and the second replaces
   * that chain because its head is empty. Shown here with a hash that sends
   * every value to bucket 0.
   */
  lemma EmptyStringLostAsWritten()
    ensures var init := ["", "a"];
      var h := Build(_ => 0, init);
      "" in init && !Contains(h, "")
  {
    var hash: string -> nat := _ => 0;
    var e := Empty(hash, 2);
    assert e.buckets == [Default, Default];
    var h1 := Insert(e, "");
    assert h1 == e;
    var h2 := Insert(h1, "a");
    assert h2.buckets == [["a"], Default];
    assert InsertAll(e, ["", "a"]) == InsertAll(h1, ["a"]);
    assert InsertAll(h1, ["a"]) == InsertAll(h2, []);
    assert !Chains.Contains(["a"], "");
  }

  /**
   * The corrected layout, as the set was evidently meant to behave: a bucket
   * holds no chain until its first value arrives (an empty sequence here),
   * so the empty string is stored like any other value.
   */
  datatype IntendedSet = IntendedSet(hash: string -> nat, buckets: seq<seq<string>>)

  function InsertIntended(h: IntendedSet, v: string): (r: IntendedSet)
    requires |h.buckets| > 0
    ensures r.hash == h.hash && |r.buckets| == |h.buckets|
  {
    var i := Index(h.hash, |h.buckets|, v);
    if v in h.buckets[i] then h else h.(buckets := h.buckets[i := h.buckets[i] + [v]])
  }

  function InsertAllIntended(h: IntendedSet, vals: seq<string>): (r: IntendedSet)
    requires |h.buckets| > 0
    ensures r.hash == h.hash && |r.buckets| == |h.buckets|
    decreases |vals|
  {
    if |vals| == 0 then h else InsertAllIntended(InsertIntended(h, vals[0]), vals[1..])
  }

  function BuildIntended(hash: string -> nat, init: seq<string>): (h: IntendedSet)
    ensures h.hash == hash && |h.buckets| == |init|
  {
    var e := IntendedSet(hash, seq(|init|, _ => []));
    if |init| == 0 then e else InsertAllIntended(e, init)
  }

  function ContainsIntended(h: IntendedSet, v: string): bool
    requires |h.buckets| > 0
  {
    v in h.buckets[Index(h.hash, |h.buckets|, v)]
  }

  /** Every stored value sits in its own bucket and belongs to S, and every member of S is stored. */
  ghost predicate HoldsIntended(h: IntendedSet, S: set<string>)
  {
    && |h.buckets| > 0
    && (forall i, k :: 0 <= i < |h.buckets| && 0 <= k < |h.buckets[i]| ==>
          h.buckets[i][k] in S && Index(h.hash, |h.buckets|, h.buckets[i][k]) == i)
    && (forall w :: w in S ==> w in h.buckets[Index(h.hash, |h.buckets|, w)])
  }

  lemma InsertIntendedKeeps(h: IntendedSet, S: set<string>, v: string)
    requires HoldsIntended(h, S)
    ensures HoldsIntended(InsertIntended(h, v), S + {v})
  {
    var i := Index(h.hash, |h.buckets|, v);
    var chain := h.buckets[i];
    if v !in chain {
      var r := InsertIntended(h, v);
      assert r.buckets == h.buckets[i := chain + [v]];
      forall k | 0 <= k < |r.buckets[i]|
        ensures r.buckets[i][k] in S + {v} && Index(h.hash, |h.buckets|, r.buckets[i][k]) == i
      {
        if k < |chain| {
          assert r.buckets[i][k] == chain[k];
        }
      }
    } else {
      var k :| 0 <= k < |chain| && chain[k] == v;
      assert S + {v} == S;
    }
  }

  lemma {:induction false} InsertAllIntendedKeeps(h: IntendedSet, S: set<string>, vals: seq<string>)
    requires HoldsIntended(h, S)
    ensures HoldsIntended(InsertAllIntended(h, vals), S + set w | w in vals)
    decreases |vals|
  {
    if |vals| > 0 {
      InsertIntendedKeeps(h, S, vals[0]);
      InsertAllIntendedKeeps(InsertIntended(h, vals[0]), S + {vals[0]}, vals[1..]);
      assert forall w :: w in vals <==> w == vals[0] || w in vals[1..];
      assert (S + {vals[0]}) + (set w | w in vals[1..]) == S + set w | w in vals;
    } else {
      assert (set w: string | w in vals) == {};
    }
  }

  /** The corrected set contains exactly the initial values, the empty string included. */
  lemma BuildIntendedContains(hash: string -> nat, init: seq<string>, v: string)
    requires |init| > 0
    ensures ContainsIntended(BuildIntended(hash, init), v) <==> v in init
  {
    var e := IntendedSet(hash, seq(|init|, _ => []));
    assert HoldsIntended(e, {});
    InsertAllIntendedKeeps(e, {}, init);
    var h := BuildIntended(hash, init);
    if ContainsIntended(h, v) {
      var c := h.buckets[Index(hash, |init|, v)];
      var k :| 0 <= k < |c| && c[k] == v;
    }
  }

  /** On non-empty values the set as written and the corrected one agree. */
  lemma BuildAgreesOnNonEmpty(hash: string -> nat, init: seq<string>, v: string)
    requires |init| > 0 && v != ""
    ensures Contains(Build(hash, init), v) == ContainsIntended(BuildIntended(hash, init), v)
  {
    BuildContains(hash, init, v);
    BuildIntendedContains(hash, init, v);
  }
}
