/**
 * The PCY first pass over integer baskets: per-item counts, and eleven hash
 * buckets counting the ordered pairs i < j of each basket; then the pairs
 * 1 <= i < j <= 6 the second pass would count.
 */
module Pcy {
  import opened Outcomes
  import Itemsets

  const Buckets: nat := 11

  /** `(i * j) % 11`; the modulus is positive, so Python's floored remainder and Dafny's agree. */
  function HashPair(i: int, j: int): (b: int)
    ensures 0 <= b < Buckets
  {
    (i * j) % 11
  }

  /** The pairs i < j of one basket. */
  function Pairs(basket: set<int>): (ps: set<(int, int)>)
    ensures forall p :: p in ps <==> p.0 in basket && p.1 in basket && p.0 < p.1
  {
    set i, j | i in basket && j in basket && i < j :: (i, j)
  }

  /** The pairs of a set that hash to bucket b. */
  function Hashed(ps: set<(int, int)>, b: int): (hs: set<(int, int)>)
    ensures forall p :: p in hs <==> p in ps && HashPair(p.0, p.1) == b
  {
    set p | p in ps && HashPair(p.0, p.1) == b
  }

  /** What bucket b holds after the first pass: the basket pairs that hash to it. */
  function BucketTotal(baskets: seq<set<int>>, b: int): (n: nat)
    ensures !(0 <= b < Buckets) ==> n == 0
  {
    if |baskets| == 0 then 0
    else
      var hs := Hashed(Pairs(baskets[|baskets| - 1]), b);
      assert !(0 <= b < Buckets) ==> hs == {};
      BucketTotal(baskets[..|baskets| - 1], b) + |hs|
  }

  /** The number of pairs i < j over all baskets. */
  function PairTotal(baskets: seq<set<int>>): nat
  {
    if |baskets| == 0 then 0 else PairTotal(baskets[..|baskets| - 1]) + |Pairs(baskets[|baskets| - 1])|
  }

  // ---------------------------------------------------------------------------
  // The first pass
  // ---------------------------------------------------------------------------

  /** Some member of a non-empty set: the iteration order of a Python set is not modelled. */
  method Pick<T>(s: set<T>) returns (x: T)
    requires s != {}
    ensures x in s
  {
    x :| x in s;
  }

  /** `item_counts[item] = item_counts.get(item, 0) + 1` for every item of one basket. */
  method CountItems(counts: map<int, nat>, basket: set<int>) returns (updated: map<int, nat>)
    ensures forall x :: x in updated <==> x in counts || x in basket
    ensures forall x :: x in updated ==>
              updated[x] == (if x in counts then counts[x] else 0) + (if x in basket then 1 else 0)
  {
    updated := counts;
    var rest := basket;
    while rest != {}
      invariant rest <= basket
      invariant forall x :: x in updated <==> x in counts || x in basket - rest
      invariant forall x :: x in updated ==>
                  updated[x] == (if x in counts then counts[x] else 0) + (if x in basket - rest then 1 else 0)
      decreases |rest|
    {
      var item := Pick(rest);
      updated := updated[item := (if item in updated then updated[item] else 0) + 1];
      rest := rest - {item};
    }
  }

  /** Adding one new pair adds one to its own bucket and nothing to the others. */
  lemma HashedAdd(ps: set<(int, int)>, p: (int, int), b: int)
    requires p !in ps
    ensures |Hashed(ps + {p}, b)| == |Hashed(ps, b)| + (if HashPair(p.0, p.1) == b then 1 else 0)
  {
    if HashPair(p.0, p.1) == b {
      assert Hashed(ps + {p}, b) == Hashed(ps, b) + {p};
    } else {
      assert Hashed(ps + {p}, b) == Hashed(ps, b);
    }
  }

  lemma HashedAddAll(ps: set<(int, int)>, p: (int, int))
    requires p !in ps
    ensures |ps + {p}| == |ps| + 1
    ensures forall b :: 0 <= b < Buckets ==>
              |Hashed(ps + {p}, b)| == |Hashed(ps, b)| + (if HashPair(p.0, p.1) == b then 1 else 0)
  {
    forall b | 0 <= b < Buckets
      ensures |Hashed(ps + {p}, b)| == |Hashed(ps, b)| + (if HashPair(p.0, p.1) == b then 1 else 0)
    {
      HashedAdd(ps, p, b);
    }
  }

  /** `bucket_counts[hash_pair(i, j)] += 1`, for a pair not yet counted on top of `base`. */
  method CountPair(buckets: array<nat>, ghost base: seq<nat>, ghost seen: set<(int, int)>, i: int, j: int)
    requires buckets.Length == Buckets == |base| && (i, j) !in seen
    requires forall b :: 0 <= b < Buckets ==> buckets[b] == base[b] + |Hashed(seen, b)|
    requires Sum(buckets[..]) == Sum(base) + |seen|
    modifies buckets
    ensures forall b :: 0 <= b < Buckets ==> buckets[b] == base[b] + |Hashed(seen + {(i, j)}, b)|
    ensures Sum(buckets[..]) == Sum(base) + |seen + {(i, j)}|
  {
    var bucket := HashPair(i, j);
    HashedAddAll(seen, (i, j));
    SumIncrement(buckets[..], bucket);
    buckets[bucket] := buckets[bucket] + 1;
    assert buckets[..] == old(buckets[..])[bucket := old(buckets[..])[bucket] + 1];
  }

  /** The inner loop: every pair (i, j) with j in the basket and i < j, counted on top of `seen`. */
  method CountPairsWith(basket: set<int>, i: int, buckets: array<nat>, ghost base: seq<nat>, ghost seen: set<(int, int)>)
    returns (ghost seen': set<(int, int)>)
    requires buckets.Length == Buckets == |base|
    requires forall p :: p in seen ==> p.0 != i
    requires forall b :: 0 <= b < Buckets ==> buckets[b] == base[b] + |Hashed(seen, b)|
    requires Sum(buckets[..]) == Sum(base) + |seen|
    modifies buckets
    ensures forall p :: p in seen' <==> p in seen || (p.0 == i && p.1 in basket && i < p.1)
    ensures forall b :: 0 <= b < Buckets ==> buckets[b] == base[b] + |Hashed(seen', b)|
    ensures Sum(buckets[..]) == Sum(base) + |seen'|
  {
    seen' := seen;
    var inner := basket;
    while inner != {}
      invariant inner <= basket
      invariant forall p :: p in seen' <==> p in seen || (p.0 == i && p.1 in basket - inner && i < p.1)
      invariant forall b :: 0 <= b < Buckets ==> buckets[b] == base[b] + |Hashed(seen', b)|
      invariant Sum(buckets[..]) == Sum(base) + |seen'|
      decreases |inner|
    {
      var j := Pick(inner);
      if i < j {
        assert (i, j) !in seen';
        CountPair(buckets, base, seen', i, j);
        seen' := seen' + {(i, j)};
      }
      inner := inner - {j};
    }
  }

  /** `bucket_counts[hash_pair(i, j)] += 1` for every pair i < j of one basket. */
  method CountPairs(basket: set<int>, buckets: array<nat>)
    requires buckets.Length == Buckets
    modifies buckets
    ensures forall b :: 0 <= b < Buckets ==> buckets[b] == old(buckets[b]) + |Hashed(Pairs(basket), b)|
    ensures Sum(buckets[..]) == old(Sum(buckets[..])) + |Pairs(basket)|
  {
    ghost var base := buckets[..];
    ghost var seen: set<(int, int)> := {};
    var outer := basket;
    while outer != {}
      invariant outer <= basket
      invariant forall p :: p in seen <==> p.0 in basket - outer && p.1 in basket && p.0 < p.1
      invariant forall b :: 0 <= b < Buckets ==> buckets[b] == base[b] + |Hashed(seen, b)|
      invariant Sum(buckets[..]) == Sum(base) + |seen|
      decreases |outer|
    {
      var i := Pick(outer);
      seen := CountPairsWith(basket, i, buckets, base, seen);
      outer := outer - {i};
    }
    assert seen == Pairs(basket);
  }

  /** `first_pass`. */
  method FirstPass(baskets: seq<set<int>>) returns (itemCounts: map<int, nat>, bucketCounts: seq<nat>)
    ensures forall x :: x in itemCounts <==> Itemsets.Support(baskets, x) > 0
    ensures forall x :: x in itemCounts ==> itemCounts[x] == Itemsets.Support(baskets, x)
    ensures |bucketCounts| == Buckets
    ensures forall b :: 0 <= b < Buckets ==> bucketCounts[b] == BucketTotal(baskets, b)
    ensures Sum(bucketCounts) == PairTotal(baskets)
  {
    itemCounts := map[];
    var buckets := new nat[Buckets](_ => 0);
    SumZeros(buckets[..]);
    var k := 0;
    while k < |baskets|
      invariant k <= |baskets|
      invariant forall x :: x in itemCounts <==> Itemsets.Support(baskets[..k], x) > 0
      invariant forall x :: x in itemCounts ==> itemCounts[x] == Itemsets.Support(baskets[..k], x)
      invariant forall b :: 0 <= b < Buckets ==> buckets[b] == BucketTotal(baskets[..k], b)
      invariant Sum(buckets[..]) == PairTotal(baskets[..k])
    {
      assert baskets[..k + 1][..k] == baskets[..k];
      itemCounts := CountItems(itemCounts, baskets[k]);
      CountPairs(baskets[k], buckets);
      k := k + 1;
    }
    assert baskets[..k] == baskets;
    bucketCounts := buckets[..];
  }

  // ---------------------------------------------------------------------------
  // What the buckets add up to
  // ---------------------------------------------------------------------------

  function Sum(s: seq<nat>): nat
  {
    if |s| == 0 then 0 else Sum(s[..|s| - 1]) + s[|s| - 1]
  }

  lemma {:induction false} SumZeros(s: seq<nat>)
    requires forall k :: 0 <= k < |s| ==> s[k] == 0
    ensures Sum(s) == 0
  {
    if |s| > 0 {
      SumZeros(s[..|s| - 1]);
    }
  }

  /** One increment of one bucket adds one to the total. */
  lemma {:induction false} SumIncrement(s: seq<nat>, k: nat)
    requires k < |s|
    ensures Sum(s[k := s[k] + 1]) == Sum(s) + 1
  {
    var t := s[k := s[k] + 1];
    if k < |s| - 1 {
      assert t[..|t| - 1] == s[..|s| - 1][k := s[k] + 1];
      SumIncrement(s[..|s| - 1], k);
    } else {
      assert t[..|t| - 1] == s[..|s| - 1];
    }
  }

  // ---------------------------------------------------------------------------
  // The second pass
  // ---------------------------------------------------------------------------

  /** The number of baskets holding both i and j. */
  function PairSupport(baskets: seq<set<int>>, i: int, j: int): nat
  {
    if |baskets| == 0 then 0
    else PairSupport(baskets[..|baskets| - 1], i, j) + (if i in baskets[|baskets| - 1] && j in baskets[|baskets| - 1] then 1 else 0)
  }

  /** A pair is counted in the second pass: both items and its bucket reach four. */
  predicate Selected(itemCounts: map<int, nat>, bucketCounts: seq<nat>, i: int, j: int)
    requires |bucketCounts| == Buckets
    // The test does not depend on the order of the pair.
    ensures Selected(itemCounts, bucketCounts, i, j) <==>
              j in itemCounts && i in itemCounts && itemCounts[j] >= 4 && itemCounts[i] >= 4 && bucketCounts[HashPair(j, i)] >= 4
  {
    i in itemCounts && j in itemCounts && itemCounts[i] >= 4 && itemCounts[j] >= 4 && bucketCounts[HashPair(i, j)] >= 4
  }

  predicate PairBefore(p: (int, int), q: (int, int))
  {
    p.0 < q.0 || (p.0 == q.0 && p.1 < q.1)
  }

  /**
   * The second-pass loop over 1 <= i < j <= 6. A missing item raises KeyError:
   * `missing` names it, and `selected` holds the pairs printed before that.
   */
  method SecondPass(itemCounts: map<int, nat>, bucketCounts: seq<nat>) returns (selected: seq<(int, int)>, missing: Option<int>)
    requires |bucketCounts| == Buckets
    ensures forall p :: p in selected ==> 1 <= p.0 < p.1 <= 6 && Selected(itemCounts, bucketCounts, p.0, p.1)
    ensures forall a, b :: 0 <= a < b < |selected| ==> PairBefore(selected[a], selected[b])
    ensures missing.Some? ==> 1 <= missing.value <= 6 && missing.value !in itemCounts
    ensures missing.None? ==> forall i, j :: 1 <= i < j <= 6 ==> ((i, j) in selected <==> Selected(itemCounts, bucketCounts, i, j))
    ensures (forall x :: 1 <= x <= 6 ==> x in itemCounts) ==> missing.None?
  {
    selected := [];
    var i := 1;
    while i < 7
      invariant 1 <= i <= 7
      invariant forall p :: p in selected ==> 1 <= p.0 < i && p.0 < p.1 <= 6 && Selected(itemCounts, bucketCounts, p.0, p.1)
      invariant forall a, b :: 0 <= a < b < |selected| ==> PairBefore(selected[a], selected[b])
      invariant forall i', j :: 1 <= i' < i && i' < j <= 6 ==> ((i', j) in selected <==> Selected(itemCounts, bucketCounts, i', j))
    {
      var j := i + 1;
      while j < 7
        invariant i + 1 <= j <= 7
        invariant forall p :: p in selected ==> 1 <= p.0 <= i && p.0 < p.1 <= 6 && (p.0 == i ==> p.1 < j)
                                                && Selected(itemCounts, bucketCounts, p.0, p.1)
        invariant forall a, b :: 0 <= a < b < |selected| ==> PairBefore(selected[a], selected[b])
        invariant forall i', j' :: 1 <= i' < i && i' < j' <= 6 ==> ((i', j') in selected <==> Selected(itemCounts, bucketCounts, i', j'))
        invariant forall j' :: i < j' < j ==> ((i, j') in selected <==> Selected(itemCounts, bucketCounts, i, j'))
      {
        if i !in itemCounts {
          return selected, Some(i);
        }
        if itemCounts[i] >= 4 {
          if j !in itemCounts {
            return selected, Some(j);
          }
          if itemCounts[j] >= 4 && bucketCounts[HashPair(i, j)] >= 4 {
            selected := selected + [(i, j)];
          }
        }
        j := j + 1;
      }
      i := i + 1;
    }
    return selected, None;
  }

  /**
   * PCY loses no frequent pair: a pair held by at least four baskets has both
   * items counted at least four times and its bucket at least four, so the
   * second pass counts it.
   */
  lemma FrequentPairSelected(baskets: seq<set<int>>, itemCounts: map<int, nat>, bucketCounts: seq<nat>, i: int, j: int)
    requires forall x :: x in itemCounts <==> Itemsets.Support(baskets, x) > 0
    requires forall x :: x in itemCounts ==> itemCounts[x] == Itemsets.Support(baskets, x)
    requires |bucketCounts| == Buckets && forall b :: 0 <= b < Buckets ==> bucketCounts[b] == BucketTotal(baskets, b)
    requires i < j && PairSupport(baskets, i, j) >= 4
    ensures Selected(itemCounts, bucketCounts, i, j)
  {
    PairSupportBounds(baskets, i, j);
  }

  lemma {:induction false} PairSupportBounds(baskets: seq<set<int>>, i: int, j: int)
    requires i < j
    ensures PairSupport(baskets, i, j) <= Itemsets.Support(baskets, i)
    ensures PairSupport(baskets, i, j) <= Itemsets.Support(baskets, j)
    ensures PairSupport(baskets, i, j) <= BucketTotal(baskets, HashPair(i, j))
  {
    if |baskets| > 0 {
      var last := baskets[|baskets| - 1];
      PairSupportBounds(baskets[..|baskets| - 1], i, j);
      if i in last && j in last {
        assert (i, j) in Hashed(Pairs(last), HashPair(i, j));
      }
    }
  }
}
