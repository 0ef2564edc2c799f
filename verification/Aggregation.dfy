/**
 Averages over items and over groups of items: `aggregate` and `aggregate_by` of
 backend/evaluation/scoring.py, and the counting in `execute` of
 backend/app/services/evaluation_service.py.
 */
module Aggregation {
  import opened Wrappers
  import opened Sequences
  import opened RetrievalMetrics
  import opened Scoring

  datatype Stat = Stat(mean: Option<real>, n: nat)

  datatype Aggregated = Aggregated(metrics: map<Metric, Stat>, failureCategories: map<Category, nat>, itemCount: nat)

  /** One metric over all items; an item without it counts as undefined. */
  function ValueFor(score: ItemScore, m: Metric): Option<real> {
    if m in score.metrics then score.metrics[m] else None
  }

  function Column(scores: seq<ItemScore>, m: Metric): (r: seq<Option<real>>)
    ensures |r| == |scores|
  {
    if |scores| == 0 then [] else Column(scores[..|scores| - 1], m) + [ValueFor(scores[|scores| - 1], m)]
  }

  function CategoryCount(scores: seq<ItemScore>, c: Category): nat {
    if |scores| == 0 then 0
    else CategoryCount(scores[..|scores| - 1], c) + if scores[|scores| - 1].failureCategory == Some(c) then 1 else 0
  }

  /** What an aggregate says, metric by metric and category by category. */
  ghost predicate Aggregates(scores: seq<ItemScore>, a: Aggregated) {
    && (forall m :: m in a.metrics <==> exists s | s in scores :: m in s.metrics)
    && (forall m | m in a.metrics :: a.metrics[m] == Stat(Mean(Column(scores, m)), DefinedCount(Column(scores, m))))
    && (forall c :: c in a.failureCategories <==> CategoryCount(scores, c) > 0)
    && (forall c | c in a.failureCategories :: a.failureCategories[c] == CategoryCount(scores, c))
    && a.itemCount == |scores|
  }

  /** `aggregate`. */
  method Aggregate(scores: seq<ItemScore>) returns (a: Aggregated)
    ensures Aggregates(scores, a)
  {
    var metrics := CollectMetrics(scores);
    var categories := CountCategories(scores);
    a := Aggregated(metrics, categories, |scores|);
  }

  method CountCategories(scores: seq<ItemScore>) returns (categories: map<Category, nat>)
    ensures forall c :: c in categories <==> CategoryCount(scores, c) > 0
    ensures forall c | c in categories :: categories[c] == CategoryCount(scores, c)
  {
    categories := map[];
    for n := 0 to |scores|
      invariant forall c :: c in categories <==> CategoryCount(scores[..n], c) > 0
      invariant forall c | c in categories :: categories[c] == CategoryCount(scores[..n], c)
    {
      assert scores[..n + 1][..n] == scores[..n];
      var category := scores[n].failureCategory;
      if category.Some? {
        var c := category.value;
        categories := categories[c := (if c in categories then categories[c] else 0) + 1];
      }
    }
    assert scores[..|scores|] == scores;
  }

  method CollectMetrics(scores: seq<ItemScore>) returns (metrics: map<Metric, Stat>)
    ensures forall m :: m in metrics <==> exists s | s in scores :: m in s.metrics
    ensures forall m | m in metrics :: metrics[m] == Stat(Mean(Column(scores, m)), DefinedCount(Column(scores, m)))
  {
    hide Column, Mean, DefinedCount;
    var names: set<Metric> := {};
    for n := 0 to |scores|
      invariant forall m :: m in names <==> exists s | s in scores[..n] :: m in s.metrics
    {
      assert scores[..n + 1] == scores[..n] + [scores[n]];
      assert scores[n] in scores[..n + 1];
      names := names + scores[n].metrics.Keys;
    }
    assert scores[..|scores|] == scores;
    metrics := map m | m in names :: Stat(Mean(Column(scores, m)), DefinedCount(Column(scores, m)));
  }

  // ----- groups -----

  /** The items of one group, in order. */
  function Group(items: seq<(string, ItemScore)>, key: string): seq<ItemScore> {
    if |items| == 0 then []
    else
      Group(items[..|items| - 1], key)
      + if items[|items| - 1].0 == key then [items[|items| - 1].1] else []
  }

  function Labels(items: seq<(string, ItemScore)>): set<string> {
    set item | item in items :: item.0
  }

  /** `aggregate_by`; the result is a dictionary, so the order its keys were sorted in is not in it. */
  method AggregateBy(items: seq<(string, ItemScore)>) returns (r: map<string, Aggregated>)
    ensures forall key :: key in r <==> key in Labels(items)
    ensures forall key | key in r :: Aggregates(Group(items, key), r[key])
  {
    hide Aggregates;
    var groups: map<string, seq<ItemScore>> := map[];
    for n := 0 to |items|
      invariant forall key :: key in groups <==> key in Labels(items[..n])
      invariant forall key | key in groups :: groups[key] == Group(items[..n], key)
      invariant forall key | key !in groups :: Group(items[..n], key) == []
    {
      assert items[..n + 1][..n] == items[..n];
      assert items[..n + 1] == items[..n] + [items[n]];
      assert Labels(items[..n + 1]) == Labels(items[..n]) + {items[n].0};
      var (key, score) := items[n];
      groups := groups[key := (if key in groups then groups[key] else []) + [score]];
    }
    assert items[..|items|] == items;
    r := map[];
    var left := groups.Keys;
    while left != {}
      invariant left <= groups.Keys
      invariant forall key :: key in r <==> key in groups && key !in left
      invariant forall key | key in r :: Aggregates(Group(items, key), r[key])
      decreases |left|
    {
      var key :| key in left;
      var a := Aggregate(groups[key]);
      r := r[key := a];
      left := left - {key};
    }
  }

  // ----- totals -----

  function Total(scores: seq<ItemScore>, weigh: ItemScore -> real): real {
    if |scores| == 0 then 0.0 else Total(scores[..|scores| - 1], weigh) + weigh(scores[|scores| - 1])
  }

  function GroupTotals(items: seq<(string, ItemScore)>, keys: seq<string>, weigh: ItemScore -> real): real {
    if |keys| == 0 then 0.0
    else GroupTotals(items, keys[..|keys| - 1], weigh) + Total(Group(items, keys[|keys| - 1]), weigh)
  }

  function Pooled(items: seq<(string, ItemScore)>): (r: seq<ItemScore>)
    ensures |r| == |items|
  {
    seq(|items|, i requires 0 <= i < |items| => items[i].1)
  }

  lemma {:induction false} OneMoreItem(items: seq<(string, ItemScore)>, item: (string, ItemScore), keys: seq<string>, weigh: ItemScore -> real)
    requires AllDifferent(keys)
    ensures GroupTotals(items + [item], keys, weigh)
         == GroupTotals(items, keys, weigh) + if item.0 in keys then weigh(item.1) else 0.0
  {
    if |keys| > 0 {
      var front, last := keys[..|keys| - 1], keys[|keys| - 1];
      assert keys == front + [last];
      OneMoreItem(items, item, front, weigh);
      assert (items + [item])[..|items|] == items;
      var group := Group(items, last);
      if item.0 == last {
        assert (group + [item.1])[..|group|] == group;
      } else {
        assert group + [] == group;
      }
    }
  }

  lemma {:induction false} NoItems(keys: seq<string>, weigh: ItemScore -> real)
    ensures GroupTotals([], keys, weigh) == 0.0
  {
    if |keys| > 0 {
      NoItems(keys[..|keys| - 1], weigh);
    }
  }

  /** However items are labelled, what is added up over the groups is what is added up
      over all of them. */
  lemma {:induction false} GroupsAddUp(items: seq<(string, ItemScore)>, keys: seq<string>, weigh: ItemScore -> real)
    requires AllDifferent(keys) && forall item | item in items :: item.0 in keys
    ensures GroupTotals(items, keys, weigh) == Total(Pooled(items), weigh)
  {
    if |items| == 0 {
      NoItems(keys, weigh);
    } else {
      hide GroupTotals, Total, Pooled;
      var n := |items| - 1;
      GroupsAddUp(items[..n], keys, weigh);
      OneMoreItem(items[..n], items[n], keys, weigh);
      assert items == items[..n] + [items[n]];
      assert items[n] in items;
      PooledTotal(items, weigh);
    }
  }

  lemma PooledTotal(items: seq<(string, ItemScore)>, weigh: ItemScore -> real)
    requires |items| > 0
    ensures Total(Pooled(items), weigh) == Total(Pooled(items[..|items| - 1]), weigh) + weigh(items[|items| - 1].1)
  {
    assert Pooled(items)[..|items| - 1] == Pooled(items[..|items| - 1]);
  }

  // What the aggregates are totals of.

  function Defines(m: Metric): ItemScore -> real {
    (s: ItemScore) => if ValueFor(s, m).Some? then 1.0 else 0.0
  }

  function Worth(m: Metric): ItemScore -> real {
    (s: ItemScore) => if ValueFor(s, m).Some? then ValueFor(s, m).value else 0.0
  }

  function InCategory(c: Category): ItemScore -> real {
    (s: ItemScore) => if s.failureCategory == Some(c) then 1.0 else 0.0
  }

  function Each(): ItemScore -> real {
    (s: ItemScore) => 1.0
  }

  lemma OneMoreValue(column: seq<Option<real>>, v: Option<real>)
    ensures DefinedCount(column + [v]) == DefinedCount(column) + if v.Some? then 1 else 0
    ensures Sum(Defined(column + [v])) == Sum(Defined(column)) + if v.Some? then v.value else 0.0
  {
    assert (column + [v])[..|column|] == column;
    var before := Defined(column);
    if v.Some? {
      assert (before + [v.value])[..|before|] == before;
    } else {
      assert before + [] == before;
    }
  }

  lemma OneMoreScore(scores: seq<ItemScore>, m: Metric)
    requires |scores| > 0
    ensures var front, last := scores[..|scores| - 1], scores[|scores| - 1];
            && Column(scores, m) == Column(front, m) + [ValueFor(last, m)]
            && Total(scores, Defines(m)) == Total(front, Defines(m)) + (if ValueFor(last, m).Some? then 1.0 else 0.0)
            && Total(scores, Worth(m)) == Total(front, Worth(m)) + (if ValueFor(last, m).Some? then ValueFor(last, m).value else 0.0)
  {
  }

  lemma NoScores(m: Metric)
    ensures DefinedCount(Column([], m)) == 0 && Sum(Defined(Column([], m))) == 0.0
    ensures Total([], Defines(m)) == 0.0 && Total([], Worth(m)) == 0.0
  {
  }

  lemma {:induction false} ColumnTotals(scores: seq<ItemScore>, m: Metric)
    ensures DefinedCount(Column(scores, m)) as real == Total(scores, Defines(m))
    ensures Sum(Defined(Column(scores, m))) == Total(scores, Worth(m))
  {
    hide *;
    if |scores| == 0 {
      NoScores(m);
    } else {
      var front, last := scores[..|scores| - 1], scores[|scores| - 1];
      ColumnTotals(front, m);
      OneMoreScore(scores, m);
      OneMoreValue(Column(front, m), ValueFor(last, m));
    }
  }

  lemma {:induction false} CategoryTotal(scores: seq<ItemScore>, c: Category)
    ensures CategoryCount(scores, c) as real == Total(scores, InCategory(c))
  {
    if |scores| > 0 {
      CategoryTotal(scores[..|scores| - 1], c);
    }
  }

  lemma {:induction false} SizeTotal(scores: seq<ItemScore>)
    ensures |scores| as real == Total(scores, Each())
  {
    if |scores| > 0 {
      SizeTotal(scores[..|scores| - 1]);
    }
  }

  // ----- recombination, in the terms of the aggregates -----

  /** The groups' aggregates, one per key. */
  ghost predicate Reports(items: seq<(string, ItemScore)>, keys: seq<string>, parts: seq<Aggregated>) {
    && AllDifferent(keys) && (forall item | item in items :: item.0 in keys)
    && |parts| == |keys| && forall i | 0 <= i < |keys| :: Aggregates(Group(items, keys[i]), parts[i])
  }

  function CountIn(a: Aggregated, m: Metric): nat {
    if m in a.metrics then a.metrics[m].n else 0
  }

  /** The mean times the number of items it is over. */
  function SumIn(a: Aggregated, m: Metric): real {
    if m in a.metrics && a.metrics[m].mean.Some? then a.metrics[m].mean.value * a.metrics[m].n as real else 0.0
  }

  function CategoryIn(a: Aggregated, c: Category): nat {
    if c in a.failureCategories then a.failureCategories[c] else 0
  }

  function Counts(m: Metric): Aggregated -> real {
    (a: Aggregated) => CountIn(a, m) as real
  }

  function Sums(m: Metric): Aggregated -> real {
    (a: Aggregated) => SumIn(a, m)
  }

  function Categories(c: Category): Aggregated -> real {
    (a: Aggregated) => CategoryIn(a, c) as real
  }

  function Sizes(): Aggregated -> real {
    (a: Aggregated) => a.itemCount as real
  }

  function AddUp(parts: seq<Aggregated>, f: Aggregated -> real): real {
    if |parts| == 0 then 0.0 else AddUp(parts[..|parts| - 1], f) + f(parts[|parts| - 1])
  }

  lemma AggregateTotals(scores: seq<ItemScore>, a: Aggregated, m: Metric, c: Category)
    requires Aggregates(scores, a)
    ensures CountIn(a, m) as real == Total(scores, Defines(m))
    ensures SumIn(a, m) == Total(scores, Worth(m))
    ensures CategoryIn(a, c) as real == Total(scores, InCategory(c))
    ensures a.itemCount as real == Total(scores, Each())
    ensures m in a.metrics ==> (a.metrics[m].mean.Some? <==> CountIn(a, m) > 0)
  {
    hide Total, CategoryCount, Column, Defined, Sum;
    ColumnTotals(scores, m);
    CategoryTotal(scores, c);
    SizeTotal(scores);
    if m !in a.metrics {
      NeverDefined(scores, m);
    } else if a.metrics[m].mean.Some? {
      var defined := Defined(Column(scores, m));
      assert Sum(defined) / |defined| as real * |defined| as real == Sum(defined);
    } else {
      NothingToSum(Defined(Column(scores, m)));
    }
  }

  /** One more item: its value joins the sum behind the mean and the count if it has
      one, its category is counted, and so is the item. */
  lemma AggregateGrows(scores: seq<ItemScore>, s: ItemScore, a: Aggregated, b: Aggregated, m: Metric, c: Category)
    requires Aggregates(scores, a) && Aggregates(scores + [s], b)
    ensures var value := if m in s.metrics then s.metrics[m] else None;
            && CountIn(b, m) == CountIn(a, m) + (if value.Some? then 1 else 0)
            && SumIn(b, m) == SumIn(a, m) + (if value.Some? then value.value else 0.0)
    ensures CategoryIn(b, c) == CategoryIn(a, c) + if s.failureCategory == Some(c) then 1 else 0
    ensures b.itemCount == a.itemCount + 1
  {
    hide Aggregates, CountIn, SumIn, CategoryIn, Total;
    AggregateTotals(scores, a, m, c);
    AggregateTotals(scores + [s], b, m, c);
    TotalGrows(scores, s, Defines(m));
    TotalGrows(scores, s, Worth(m));
    TotalGrows(scores, s, InCategory(c));
    TotalGrows(scores, s, Each());
  }

  lemma TotalGrows(scores: seq<ItemScore>, s: ItemScore, weigh: ItemScore -> real)
    ensures Total(scores + [s], weigh) == Total(scores, weigh) + weigh(s)
  {
    assert (scores + [s])[..|scores|] == scores;
  }

  /** Of no items there is nothing to say. */
  lemma NothingAggregated(a: Aggregated)
    requires Aggregates([], a)
    ensures a == Aggregated(map[], map[], 0)
  {
    assert a.metrics.Keys == {} && a.failureCategories.Keys == {};
  }

  lemma NothingToSum(xs: seq<real>)
    ensures |xs| == 0 ==> Sum(xs) == 0.0
  {
  }

  lemma {:induction false} NeverDefined(scores: seq<ItemScore>, m: Metric)
    requires forall s | s in scores :: m !in s.metrics
    ensures Total(scores, Defines(m)) == 0.0 && Total(scores, Worth(m)) == 0.0
  {
    if |scores| > 0 {
      NeverDefined(scores[..|scores| - 1], m);
    }
  }

  lemma {:induction false} AddUpGroups(items: seq<(string, ItemScore)>, keys: seq<string>, parts: seq<Aggregated>, f: Aggregated -> real, weigh: ItemScore -> real)
    requires |parts| == |keys|
    requires forall i | 0 <= i < |keys| :: f(parts[i]) == Total(Group(items, keys[i]), weigh)
    ensures AddUp(parts, f) == GroupTotals(items, keys, weigh)
  {
    if |keys| > 0 {
      var n := |keys| - 1;
      AddUpGroups(items, keys[..n], parts[..n], f, weigh);
    }
  }

  /** Counts, sums behind the means, item counts and failure categories of the groups
      add up to those of the pooled items. */
  lemma GroupsRecombine(items: seq<(string, ItemScore)>, keys: seq<string>, parts: seq<Aggregated>, overall: Aggregated, m: Metric, c: Category)
    requires Reports(items, keys, parts) && Aggregates(Pooled(items), overall)
    ensures AddUp(parts, Counts(m)) == CountIn(overall, m) as real
    ensures AddUp(parts, Sums(m)) == SumIn(overall, m)
    ensures AddUp(parts, Categories(c)) == CategoryIn(overall, c) as real
    ensures AddUp(parts, Sizes()) == overall.itemCount as real
  {
    hide Aggregates, Total, AddUp, CountIn, SumIn, CategoryIn, Group;
    AggregateTotals(Pooled(items), overall, m, c);
    forall i | 0 <= i < |keys|
      ensures CountIn(parts[i], m) as real == Total(Group(items, keys[i]), Defines(m))
      ensures SumIn(parts[i], m) == Total(Group(items, keys[i]), Worth(m))
      ensures CategoryIn(parts[i], c) as real == Total(Group(items, keys[i]), InCategory(c))
      ensures parts[i].itemCount as real == Total(Group(items, keys[i]), Each())
    {
      AggregateTotals(Group(items, keys[i]), parts[i], m, c);
    }
    GroupsAddUp(items, keys, Defines(m));
    GroupsAddUp(items, keys, Worth(m));
    GroupsAddUp(items, keys, InCategory(c));
    GroupsAddUp(items, keys, Each());
    AddUpGroups(items, keys, parts, Counts(m), Defines(m));
    AddUpGroups(items, keys, parts, Sums(m), Worth(m));
    AddUpGroups(items, keys, parts, Categories(c), InCategory(c));
    AddUpGroups(items, keys, parts, Sizes(), Each());
  }

  // ----- the overall mean lies between the groups' -----

  /** One more group below the bound keeps the total below it. */
  lemma Below(bound: real, sum: real, count: real, s: real, c: real)
    requires count >= 0.0 && sum <= bound * count && (count > 0.0 ==> sum < bound * count)
    requires c >= 0.0 && (c > 0.0 ==> s < bound * c) && (c == 0.0 ==> s == 0.0)
    ensures sum + s <= bound * (count + c)
    ensures count + c > 0.0 ==> sum + s < bound * (count + c)
  {
    Distribute(bound, count, c);
    if c == 0.0 {
      assert bound * c == 0.0;
    }
  }

  lemma Above(bound: real, sum: real, count: real, s: real, c: real)
    requires count >= 0.0 && sum >= bound * count && (count > 0.0 ==> sum > bound * count)
    requires c >= 0.0 && (c > 0.0 ==> s > bound * c) && (c == 0.0 ==> s == 0.0)
    ensures sum + s >= bound * (count + c)
    ensures count + c > 0.0 ==> sum + s > bound * (count + c)
  {
    Distribute(bound, count, c);
    if c == 0.0 {
      assert bound * c == 0.0;
    }
  }

  lemma OneMoreGroup(parts: seq<Aggregated>, m: Metric)
    ensures |parts| == 0 ==> AddUp(parts, Sums(m)) == 0.0 == AddUp(parts, Counts(m))
    ensures |parts| > 0 ==>
              var front, last := parts[..|parts| - 1], parts[|parts| - 1];
              && AddUp(parts, Sums(m)) == AddUp(front, Sums(m)) + SumIn(last, m)
              && AddUp(parts, Counts(m)) == AddUp(front, Counts(m)) + CountIn(last, m) as real
  {
  }

  lemma {:induction false} MeansBelow(parts: seq<Aggregated>, m: Metric, bound: real)
    requires forall a | a in parts && CountIn(a, m) > 0 :: SumIn(a, m) < bound * CountIn(a, m) as real
    requires forall a | a in parts && CountIn(a, m) == 0 :: SumIn(a, m) == 0.0
    ensures AddUp(parts, Counts(m)) >= 0.0
    ensures AddUp(parts, Sums(m)) <= bound * AddUp(parts, Counts(m))
    ensures AddUp(parts, Counts(m)) > 0.0 ==> AddUp(parts, Sums(m)) < bound * AddUp(parts, Counts(m))
  {
    hide *;
    OneMoreGroup(parts, m);
    if |parts| > 0 {
      var n := |parts| - 1;
      assert parts[n] in parts;
      MeansBelow(parts[..n], m, bound);
      Below(bound, AddUp(parts[..n], Sums(m)), AddUp(parts[..n], Counts(m)), SumIn(parts[n], m), CountIn(parts[n], m) as real);
    }
  }

  lemma {:induction false} MeansAbove(parts: seq<Aggregated>, m: Metric, bound: real)
    requires forall a | a in parts && CountIn(a, m) > 0 :: SumIn(a, m) > bound * CountIn(a, m) as real
    requires forall a | a in parts && CountIn(a, m) == 0 :: SumIn(a, m) == 0.0
    ensures AddUp(parts, Counts(m)) >= 0.0
    ensures AddUp(parts, Sums(m)) >= bound * AddUp(parts, Counts(m))
    ensures AddUp(parts, Counts(m)) > 0.0 ==> AddUp(parts, Sums(m)) > bound * AddUp(parts, Counts(m))
  {
    hide *;
    OneMoreGroup(parts, m);
    if |parts| > 0 {
      var n := |parts| - 1;
      assert parts[n] in parts;
      MeansAbove(parts[..n], m, bound);
      Above(bound, AddUp(parts[..n], Sums(m)), AddUp(parts[..n], Counts(m)), SumIn(parts[n], m), CountIn(parts[n], m) as real);
    }
  }

  lemma Distribute(a: real, x: real, y: real)
    ensures a * (x + y) == a * x + a * y
  {
  }

  /** The aggregate has a mean for the metric. */
  predicate HasMean(a: Aggregated, m: Metric) {
    m in a.metrics && a.metrics[m].mean.Some?
  }

  lemma MeanIsShare(scores: seq<ItemScore>, a: Aggregated, m: Metric)
    requires Aggregates(scores, a)
    ensures MeanFits(a, m)
  {
    hide Column, Defined, Sum;
  }

  lemma LargerProduct(x: real, y: real, n: real)
    requires n > 0.0
    ensures x * n < y * n <==> x < y
  {
    assert (y - x) * n == y * n - x * n;
    if x < y {
      assert (y - x) * n > 0.0;
    } else {
      assert (y - x) * n <= 0.0;
    }
  }

  /** Sums are means times counts, and the parts add up to the whole. */
  ghost predicate AddsUpTo(parts: seq<Aggregated>, m: Metric, overall: Aggregated) {
    && (forall a | a in parts :: MeanFits(a, m)) && MeanFits(overall, m)
    && AddUp(parts, Counts(m)) == CountIn(overall, m) as real
    && AddUp(parts, Sums(m)) == SumIn(overall, m)
  }

  ghost predicate MeanFits(a: Aggregated, m: Metric) {
    && (HasMean(a, m) <==> CountIn(a, m) > 0)
    && (HasMean(a, m) ==> SumIn(a, m) == a.metrics[m].mean.value * CountIn(a, m) as real)
    && (!HasMean(a, m) ==> SumIn(a, m) == 0.0)
  }

  /** Comparing a group's mean with a bound compares its sum with the bound times its count. */
  lemma MeanAgainst(a: Aggregated, m: Metric, bound: real)
    requires MeanFits(a, m)
    ensures CountIn(a, m) == 0 ==> SumIn(a, m) == 0.0
    ensures HasMean(a, m) <==> CountIn(a, m) > 0
    ensures HasMean(a, m) ==> (a.metrics[m].mean.value > bound <==> SumIn(a, m) > bound * CountIn(a, m) as real)
    ensures HasMean(a, m) ==> (a.metrics[m].mean.value < bound <==> SumIn(a, m) < bound * CountIn(a, m) as real)
  {
    hide CountIn, SumIn;
    if HasMean(a, m) {
      LargerProduct(bound, a.metrics[m].mean.value, CountIn(a, m) as real);
      LargerProduct(a.metrics[m].mean.value, bound, CountIn(a, m) as real);
    }
  }

  lemma NotAllAbove(parts: seq<Aggregated>, m: Metric, overall: Aggregated)
    requires AddsUpTo(parts, m, overall) && HasMean(overall, m)
    ensures exists low | low in parts :: HasMean(low, m) && low.metrics[m].mean.value <= overall.metrics[m].mean.value
  {
    hide AddUp, CountIn, SumIn, MeanFits;
    var mean := overall.metrics[m].mean.value;
    MeanAgainst(overall, m, mean);
    if forall a | a in parts && HasMean(a, m) :: a.metrics[m].mean.value > mean {
      forall a | a in parts
        ensures CountIn(a, m) > 0 ==> SumIn(a, m) > mean * CountIn(a, m) as real
        ensures CountIn(a, m) == 0 ==> SumIn(a, m) == 0.0
      {
        MeanAgainst(a, m, mean);
      }
      MeansAbove(parts, m, mean);
    }
  }

  lemma NotAllBelow(parts: seq<Aggregated>, m: Metric, overall: Aggregated)
    requires AddsUpTo(parts, m, overall) && HasMean(overall, m)
    ensures exists high | high in parts :: HasMean(high, m) && overall.metrics[m].mean.value <= high.metrics[m].mean.value
  {
    hide AddUp, CountIn, SumIn, MeanFits;
    var mean := overall.metrics[m].mean.value;
    MeanAgainst(overall, m, mean);
    if forall a | a in parts && HasMean(a, m) :: a.metrics[m].mean.value < mean {
      forall a | a in parts
        ensures CountIn(a, m) > 0 ==> SumIn(a, m) < mean * CountIn(a, m) as real
        ensures CountIn(a, m) == 0 ==> SumIn(a, m) == 0.0
      {
        MeanAgainst(a, m, mean);
      }
      MeansBelow(parts, m, mean);
    }
  }

  /** A pooled mean is never beyond all of its groups' means. */
  lemma OverallMeanIsBetween(items: seq<(string, ItemScore)>, keys: seq<string>, parts: seq<Aggregated>, overall: Aggregated, m: Metric)
    requires Reports(items, keys, parts) && Aggregates(Pooled(items), overall) && HasMean(overall, m)
    ensures exists low | low in parts :: HasMean(low, m) && low.metrics[m].mean.value <= overall.metrics[m].mean.value
    ensures exists high | high in parts :: HasMean(high, m) && overall.metrics[m].mean.value <= high.metrics[m].mean.value
  {
    hide Aggregates, AddUp, CountIn, SumIn, Pooled, MeanFits;
    GroupsRecombine(items, keys, parts, overall, m, ExecutionError);
    MeanIsShare(Pooled(items), overall, m);
    forall a | a in parts
      ensures MeanFits(a, m)
    {
      var i :| 0 <= i < |parts| && parts[i] == a;
      MeanIsShare(Group(items, keys[i]), a, m);
    }
    NotAllAbove(parts, m, overall);
    NotAllBelow(parts, m, overall);
  }

  // ----- counting failures -----

  /** A missing, undefined or zero flag is not a failure. */
  predicate CountsAsFailed(score: ItemScore) {
    FailedFlag in score.metrics && score.metrics[FailedFlag].Some? && score.metrics[FailedFlag].value != 0.0
  }

  function CompletedCount(scores: seq<ItemScore>): nat {
    if |scores| == 0 then 0
    else CompletedCount(scores[..|scores| - 1]) + if CountsAsFailed(scores[|scores| - 1]) then 0 else 1
  }

  /** A run's failed items are exactly those categorised as execution errors. */
  lemma {:induction false} FailedAreExecutionErrors(scores: seq<ItemScore>)
    requires forall s | s in scores :: FromItem(s)
    ensures |scores| - CompletedCount(scores) == CategoryCount(scores, ExecutionError)
  {
    hide PlainMetrics;
    if |scores| > 0 {
      var n := |scores| - 1;
      assert scores[n] in scores;
      FailedAreExecutionErrors(scores[..n]);
    }
  }
}
