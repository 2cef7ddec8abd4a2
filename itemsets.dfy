/**
 * Apriori over a list of baskets: the frequent single items, the candidate
 * pairs built from them, their supports, the frequent pairs, and the
 * association rules one item of a frequent pair gives for the other.
 */
module Itemsets {
  import opened Outcomes
  import opened Strings

  type Item = string

  // ---------------------------------------------------------------------------
  // Support counts
  // ---------------------------------------------------------------------------

  /** `sum(item in basket for basket in baskets)`: the number of baskets holding x. */
  function Support<T(==)>(baskets: seq<set<T>>, x: T): (n: nat)
    ensures n <= |baskets|
  {
    if |baskets| == 0 then 0
    else Support(baskets[..|baskets| - 1], x) + (if x in baskets[|baskets| - 1] then 1 else 0)
  }

  /** `sum(c.issubset(basket) for basket in baskets)`. */
  function SupportOfSet(baskets: seq<set<Item>>, c: set<Item>): (n: nat)
    ensures n <= |baskets|
  {
    if |baskets| == 0 then 0
    else SupportOfSet(baskets[..|baskets| - 1], c) + (if c <= baskets[|baskets| - 1] then 1 else 0)
  }

  /** An itemset is contained in no more baskets than any of its items. */
  lemma {:induction false} SupportOfSetAtMostItem(baskets: seq<set<Item>>, c: set<Item>, x: Item)
    requires x in c
    ensures SupportOfSet(baskets, c) <= Support(baskets, x)
  {
    if |baskets| > 0 {
      SupportOfSetAtMostItem(baskets[..|baskets| - 1], c, x);
    }
  }

  /** A larger itemset is contained in no more baskets (the Apriori principle). */
  lemma {:induction false} SupportAntitone(baskets: seq<set<Item>>, c: set<Item>, d: set<Item>)
    requires c <= d
    ensures SupportOfSet(baskets, d) <= SupportOfSet(baskets, c)
  {
    if |baskets| > 0 {
      SupportAntitone(baskets[..|baskets| - 1], c, d);
    }
  }

  /** `set.union(*baskets)`, for any number of baskets. */
  function Items(baskets: seq<set<Item>>): (s: set<Item>)
    ensures forall x :: x in s <==> Support(baskets, x) > 0
  {
    if |baskets| == 0 then {}
    else Items(baskets[..|baskets| - 1]) + baskets[|baskets| - 1]
  }

  // ---------------------------------------------------------------------------
  // The steps
  // ---------------------------------------------------------------------------

  /**
   * `get_frequent_itemsets`: every item of some basket whose support reaches the
   * threshold, with that support. `set.union()` without a basket raises, so an
   * empty basket list gives None.
   */
  function FrequentItems(baskets: seq<set<Item>>, minSupport: int): (r: Option<map<Item, nat>>)
    ensures r.None? <==> |baskets| == 0
    ensures r.Some? ==> forall x :: x in r.value <==> Support(baskets, x) > 0 && Support(baskets, x) >= minSupport
    ensures r.Some? ==> forall x :: x in r.value ==> r.value[x] == Support(baskets, x)
  {
    if |baskets| == 0 then None
    else Some(map x | x in Items(baskets) && Support(baskets, x) >= minSupport :: Support(baskets, x))
  }

  /** `generate_candidates`: the pairs {i, j} with i < j, both in the input. */
  function GenerateCandidates(prev: set<Item>): (cs: set<set<Item>>)
    ensures forall c :: c in cs ==> c <= prev && 0 < |c| <= 2
  {
    set i, j | i in prev && j in prev && LexLess(i, j) :: {i, j}
  }

  /** A two-element set is {x, y} for any two different members x, y. */
  lemma PairParts(c: set<Item>, x: Item)
    requires |c| == 2 && x in c
    ensures exists y :: y in c && y != x && c == {x, y}
  {
    var rest := c - {x};
    assert c == rest + {x};
    assert rest * {x} == {};
    assert |rest| == 1;
    var y :| y in rest;
    assert rest - {y} == {} by {
      assert rest == (rest - {y}) + {y};
      assert (rest - {y}) * {y} == {};
    }
    assert c == {x, y};
  }

  /** The candidates are exactly the two-element subsets of the input. */
  lemma CandidatesArePairs(prev: set<Item>, c: set<Item>)
    ensures c in GenerateCandidates(prev) <==> |c| == 2 && c <= prev
  {
    if c in GenerateCandidates(prev) {
      var i, j :| i in prev && j in prev && LexLess(i, j) && c == {i, j};
      LexLessIrreflexive(i);
      assert |{i, j}| == 2;
    }
    if |c| == 2 && c <= prev {
      var x :| x in c;
      PairParts(c, x);
      var y :| y in c && y != x && c == {x, y};
      LexLessTotal(x, y);
      if LexLess(x, y) {
        assert c in GenerateCandidates(prev);
      } else {
        assert c == {y, x};
        assert c in GenerateCandidates(prev);
      }
    }
  }

  /** `count_itemsets`: each candidate with the number of baskets holding all of it. */
  function CountItemsets(candidates: set<set<Item>>, baskets: seq<set<Item>>): (counts: map<set<Item>, nat>)
    ensures counts.Keys == candidates
    ensures forall c :: c in counts ==> counts[c] == SupportOfSet(baskets, c)
    ensures forall c :: c in counts ==> counts[c] <= |baskets|
  {
    map c | c in candidates :: SupportOfSet(baskets, c)
  }

  /** The frequent-pair filter of `apriori`. */
  function FrequentPairs(support: map<set<Item>, nat>, minSupport: int): (r: map<set<Item>, nat>)
    ensures forall c :: c in r <==> c in support && support[c] >= minSupport
    ensures forall c :: c in r ==> r[c] == support[c]
  {
    map c | c in support && support[c] >= minSupport :: support[c]
  }

  /** Steps 1 and 2 of `apriori`: the frequent items and the frequent pairs. */
  function Apriori(baskets: seq<set<Item>>, minSupport: int): (r: Option<(map<Item, nat>, map<set<Item>, nat>)>)
    ensures r.None? <==> |baskets| == 0
    ensures r.Some? ==> forall c :: c in r.value.1 ==>
              && c <= r.value.0.Keys
              && r.value.1[c] == SupportOfSet(baskets, c) && r.value.1[c] >= minSupport
  {
    match FrequentItems(baskets, minSupport)
    case None => None
    case Some(f1) => Some((f1, FrequentPairs(CountItemsets(GenerateCandidates(f1.Keys), baskets), minSupport)))
  }

  /**
   * Pruning by frequent items loses nothing: for a positive threshold the
   * frequent pairs are exactly the two-item sets contained in at least
   * `minSupport` baskets, each with that count.
   */
  lemma AprioriExact(baskets: seq<set<Item>>, minSupport: int, c: set<Item>)
    requires |baskets| > 0 && minSupport >= 1
    ensures var f2 := Apriori(baskets, minSupport).value.1;
            && (c in f2 <==> |c| == 2 && SupportOfSet(baskets, c) >= minSupport)
            && (c in f2 ==> f2[c] == SupportOfSet(baskets, c))
  {
    var f1 := FrequentItems(baskets, minSupport).value;
    CandidatesArePairs(f1.Keys, c);
    if |c| == 2 && SupportOfSet(baskets, c) >= minSupport {
      forall x | x in c
        ensures x in f1.Keys
      {
        SupportOfSetAtMostItem(baskets, c, x);
      }
    }
  }

  // ---------------------------------------------------------------------------
  // Association rules
  // ---------------------------------------------------------------------------

  datatype Rule = Rule(antecedent: Item, consequent: Item, confidence: real)

  /** The pairs are two-item sets whose items all have a positive count. */
  predicate RulesDefined(pairs: map<set<Item>, nat>, itemCounts: map<Item, nat>)
  {
    forall c :: c in pairs ==> |c| == 2 && forall x :: x in c ==> x in itemCounts && itemCounts[x] > 0
  }

  /** `count / item_counts[item]`. */
  function Confidence(count: nat, itemCount: nat): real
    requires itemCount > 0
  {
    count as real / itemCount as real
  }

  /** The rules `generate_association_rules` keeps: one per direction of a pair, confident enough. */
  predicate IsRule(pairs: map<set<Item>, nat>, itemCounts: map<Item, nat>, minConfidence: real, r: Rule)
    requires RulesDefined(pairs, itemCounts)
  {
    && r.antecedent != r.consequent
    && {r.antecedent, r.consequent} in pairs
    && r.confidence == Confidence(pairs[{r.antecedent, r.consequent}], itemCounts[r.antecedent])
    && r.confidence >= minConfidence
  }

  /** `generate_association_rules`: the pairs and their items in whatever order the sets yield them. */
  method GenerateRules(pairs: map<set<Item>, nat>, itemCounts: map<Item, nat>, minConfidence: real) returns (rules: seq<Rule>)
    requires RulesDefined(pairs, itemCounts)
    ensures forall r :: r in rules <==> IsRule(pairs, itemCounts, minConfidence, r)
    ensures forall i, j :: 0 <= i < j < |rules| ==>
              (rules[i].antecedent, rules[i].consequent) != (rules[j].antecedent, rules[j].consequent)
  {
    rules := [];
    var pending := pairs.Keys;
    while pending != {}
      invariant pending <= pairs.Keys
      invariant forall r :: r in rules <==> IsRule(pairs, itemCounts, minConfidence, r) && {r.antecedent, r.consequent} !in pending
      invariant forall i, j :: 0 <= i < j < |rules| ==>
                  (rules[i].antecedent, rules[i].consequent) != (rules[j].antecedent, rules[j].consequent)
      decreases |pending|
    {
      var itemset :| itemset in pending;
      rules := RulesOfPair(pairs, itemCounts, minConfidence, pending, itemset, rules);
      pending := pending - {itemset};
    }
  }

  /** The inner loop: both directions of one pair. */
  method RulesOfPair(pairs: map<set<Item>, nat>, itemCounts: map<Item, nat>, minConfidence: real,
                     pending: set<set<Item>>, itemset: set<Item>, before: seq<Rule>) returns (rules: seq<Rule>)
    requires RulesDefined(pairs, itemCounts) && itemset in pending && pending <= pairs.Keys
    requires forall r :: r in before <==> IsRule(pairs, itemCounts, minConfidence, r) && {r.antecedent, r.consequent} !in pending
    requires forall i, j :: 0 <= i < j < |before| ==>
               (before[i].antecedent, before[i].consequent) != (before[j].antecedent, before[j].consequent)
    ensures forall r :: r in rules <==> IsRule(pairs, itemCounts, minConfidence, r) && {r.antecedent, r.consequent} !in pending - {itemset}
    ensures forall i, j :: 0 <= i < j < |rules| ==>
              (rules[i].antecedent, rules[i].consequent) != (rules[j].antecedent, rules[j].consequent)
  {
    rules := before;
    var count := pairs[itemset];
    var items := itemset;
    while items != {}
      invariant items <= itemset
      invariant forall r :: r in rules <==> (IsRule(pairs, itemCounts, minConfidence, r)
                  && ({r.antecedent, r.consequent} !in pending
                      || ({r.antecedent, r.consequent} == itemset && r.antecedent !in items)))
      invariant forall i, j :: 0 <= i < j < |rules| ==>
                  (rules[i].antecedent, rules[i].consequent) != (rules[j].antecedent, rules[j].consequent)
      decreases |items|
    {
      var item :| item in items;
      PairParts(itemset, item);
      var other :| other in itemset && other != item && itemset == {item, other};
      var confidence := count as real / itemCounts[item] as real;
      if confidence >= minConfidence {
        var rule := Rule(item, other, confidence);
        assert IsRule(pairs, itemCounts, minConfidence, rule);
        forall k | 0 <= k < |rules|
          ensures (rules[k].antecedent, rules[k].consequent) != (item, other)
        {
          assert rules[k] in rules;
        }
        rules := rules + [rule];
      }
      items := items - {item};
    }
  }

  /** A ratio of a positive count to a count at least as large lies in (0, 1]. */
  lemma RatioAtMostOne(count: nat, itemCount: nat)
    requires 0 < count <= itemCount
    ensures 0.0 < Confidence(count, itemCount) <= 1.0
  {
    var q := Confidence(count, itemCount);
    assert q * itemCount as real == count as real;
  }

  /**
   * On apriori's own maps every rule's confidence is the pair's support
   * over its antecedent's, which lies in (0, 1].
   */
  lemma RuleConfidence(baskets: seq<set<Item>>, minSupport: int, minConfidence: real, r: Rule)
    requires |baskets| > 0 && minSupport >= 1
    requires var a := Apriori(baskets, minSupport).value;
             RulesDefined(a.1, a.0) && IsRule(a.1, a.0, minConfidence, r)
    ensures r.confidence == Confidence(SupportOfSet(baskets, {r.antecedent, r.consequent}), Support(baskets, r.antecedent))
    ensures 0.0 < r.confidence <= 1.0
  {
    var a := Apriori(baskets, minSupport).value;
    var c := {r.antecedent, r.consequent};
    AprioriExact(baskets, minSupport, c);
    SupportOfSetAtMostItem(baskets, c, r.antecedent);
    assert a.1[c] == SupportOfSet(baskets, c);
    assert a.0[r.antecedent] == Support(baskets, r.antecedent);
    RatioAtMostOne(SupportOfSet(baskets, c), Support(baskets, r.antecedent));
  }

  /** Apriori's own maps always meet what the rule step needs. */
  lemma AprioriRulesDefined(baskets: seq<set<Item>>, minSupport: int)
    requires |baskets| > 0 && minSupport >= 1
    ensures RulesDefined(Apriori(baskets, minSupport).value.1, Apriori(baskets, minSupport).value.0)
  {
    var a := Apriori(baskets, minSupport).value;
    forall c | c in a.1
      ensures |c| == 2 && forall x :: x in c ==> x in a.0 && a.0[x] > 0
    {
      AprioriExact(baskets, minSupport, c);
      forall x | x in c
        ensures x in a.0 && a.0[x] > 0
      {
        SupportOfSetAtMostItem(baskets, c, x);
      }
    }
  }
}
