/**
 Retrieval metrics, backend/evaluation/metrics/retrieval.py, over ranked chunk
 identifiers and a gold set. `discount(i)` stands for `1 / log2(i + 1)`: positive and
 strictly falling is all the results need.
 */
module RetrievalMetrics {
  import opened Wrappers
  import opened Identifiers
  import opened Fractions
  import opened Sequences

  type Discount = nat -> real

  ghost predicate Falling(discount: Discount) {
    && (forall i :: discount(i) > 0.0)
    && (forall i, j | i < j :: discount(j) < discount(i))
  }

  /** `_top`: at most the first `k`. */
  function Top(retrieved: seq<Uuid>, k: nat): (r: seq<Uuid>)
    ensures r <= retrieved && |r| <= k
    ensures |r| == k || r == retrieved
  {
    if |retrieved| <= k then retrieved else retrieved[..k]
  }

  /** Without gold a metric is undefined; with it, all but nDCG reject a non-positive depth. */
  datatype Measured = BadK | Undefined | Value(value: real)

  function RecallAtK(retrieved: seq<Uuid>, gold: set<Uuid>, k: int): Measured {
    if |gold| == 0 then Undefined
    else if k <= 0 then BadK
    else Value(|Members(Top(retrieved, k)) * gold| as real / |gold| as real)
  }

  function PrecisionAtK(retrieved: seq<Uuid>, gold: set<Uuid>, k: int): Measured {
    if |gold| == 0 then Undefined
    else if k <= 0 then BadK
    else if |Top(retrieved, k)| == 0 then Value(0.0)
    else Value(|Members(Top(retrieved, k)) * gold| as real / |Top(retrieved, k)| as real)
  }

  function HitRateAtK(retrieved: seq<Uuid>, gold: set<Uuid>, k: int): Measured {
    if |gold| == 0 then Undefined
    else if k <= 0 then BadK
    else Value(if Members(Top(retrieved, k)) * gold != {} then 1.0 else 0.0)
  }

  /** The position (from one) of the first gold chunk. */
  function FirstGold(retrieved: seq<Uuid>, gold: set<Uuid>): (r: Option<nat>)
    ensures r.None? <==> forall x | x in retrieved :: x !in gold
    ensures r.Some? ==>
      1 <= r.value <= |retrieved| && retrieved[r.value - 1] in gold && forall i | 0 <= i < r.value - 1 :: retrieved[i] !in gold
  {
    if |retrieved| == 0 then None
    else if retrieved[0] in gold then Some(1)
    else
      match FirstGold(retrieved[1..], gold)
      case None => None
      case Some(p) => Some(p + 1)
  }

  function ReciprocalRank(retrieved: seq<Uuid>, gold: set<Uuid>): Measured {
    if |gold| == 0 then Undefined
    else
      match FirstGold(retrieved, gold)
      case None => Value(0.0)
      case Some(p) => Value(1.0 / p as real)
  }

  /** The sum over gold positions of a list. */
  function Dcg(discount: Discount, ids: seq<Uuid>, gold: set<Uuid>): real {
    if |ids| == 0 then 0.0
    else Dcg(discount, ids[..|ids| - 1], gold) + if ids[|ids| - 1] in gold then discount(|ids|) else 0.0
  }

  function DcgAtK(discount: Discount, retrieved: seq<Uuid>, gold: set<Uuid>, k: nat): real {
    Dcg(discount, Top(retrieved, k), gold)
  }

  /** The first `n` discounts, the best any `n` gold chunks can earn. */
  function Ideal(discount: Discount, n: nat): real {
    if n == 0 then 0.0 else Ideal(discount, n - 1) + discount(n)
  }

  function IdealHits(gold: set<Uuid>, k: nat): nat {
    if |gold| < k then |gold| else k
  }

  function NdcgAtK(discount: Discount, retrieved: seq<Uuid>, gold: set<Uuid>, k: int): Measured {
    if |gold| == 0 then Undefined
    else if k <= 0 then Undefined // the ideal sum is empty
    else
      var ideal := Ideal(discount, IdealHits(gold, k));
      if ideal == 0.0 then Undefined else Value(DcgAtK(discount, retrieved, gold, k) / ideal)
  }

  // ----- nDCG -----

  function GoldHits(ids: seq<Uuid>, gold: set<Uuid>): (n: nat)
    ensures n <= |ids|
  {
    if |ids| == 0 then 0 else GoldHits(ids[..|ids| - 1], gold) + if ids[|ids| - 1] in gold then 1 else 0
  }

  lemma FrontSet(ids: seq<Uuid>)
    requires AllDifferent(ids) && |ids| > 0
    ensures var front, last := ids[..|ids| - 1], ids[|ids| - 1];
            AllDifferent(front) && last !in Members(front) && Members(ids) == Members(front) + {last}
  {
    assert ids == ids[..|ids| - 1] + [ids[|ids| - 1]];
  }

  lemma OneMoreGold(s: set<Uuid>, x: Uuid, gold: set<Uuid>)
    requires x !in s
    ensures |(s + {x}) * gold| == |s * gold| + if x in gold then 1 else 0
  {
    if x in gold {
      assert (s + {x}) * gold == s * gold + {x};
    } else {
      assert (s + {x}) * gold == s * gold;
    }
  }

  lemma {:induction false} GoldHitsAreGold(ids: seq<Uuid>, gold: set<Uuid>)
    requires AllDifferent(ids)
    ensures GoldHits(ids, gold) == |Members(ids) * gold|
  {
    if |ids| > 0 {
      hide Members, AllDifferent;
      var front, last := ids[..|ids| - 1], ids[|ids| - 1];
      FrontSet(ids);
      GoldHitsAreGold(front, gold);
      OneMoreGold(Members(front), last, gold);
    } else {
      assert Members(ids) * gold == {};
    }
  }

  lemma SubsetSize<T>(a: set<T>, b: set<T>)
    requires a <= b
    ensures |a| <= |b|
  {
    assert b == a + (b - a);
  }

  lemma HitsFit(ids: seq<Uuid>, gold: set<Uuid>, k: nat)
    requires AllDifferent(ids) && |ids| <= k
    ensures GoldHits(ids, gold) <= IdealHits(gold, k)
  {
    GoldHitsAreGold(ids, gold);
    SubsetSize(Members(ids) * gold, gold);
  }

  lemma {:induction false} IdealGrows(discount: Discount, m: nat, n: nat)
    requires Falling(discount) && m <= n
    ensures Ideal(discount, m) <= Ideal(discount, n)
    ensures m < n ==> Ideal(discount, m) < Ideal(discount, n)
  {
    if m < n {
      IdealGrows(discount, m, n - 1);
    }
  }

  /** The first `n` positions are gold. */
  predicate LeadsWithGold(ids: seq<Uuid>, gold: set<Uuid>, n: nat) {
    n <= |ids| && forall i | 0 <= i < n :: ids[i] in gold
  }

  /** Gold hits earn at most the first discounts, and exactly those only from the front. */
  lemma {:induction false} DcgAgainstIdeal(discount: Discount, ids: seq<Uuid>, gold: set<Uuid>)
    requires Falling(discount)
    ensures Dcg(discount, ids, gold) <= Ideal(discount, GoldHits(ids, gold))
    ensures Dcg(discount, ids, gold) == Ideal(discount, GoldHits(ids, gold)) <==> LeadsWithGold(ids, gold, GoldHits(ids, gold))
  {
    if |ids| > 0 {
      var n := |ids| - 1;
      var front := ids[..n];
      var h := GoldHits(front, gold);
      DcgAgainstIdeal(discount, front, gold);
      if ids[n] in gold {
        assert h < n ==> discount(n + 1) < discount(h + 1);
        assert h == n ==> discount(n + 1) == discount(h + 1);
        if h < n {
          GoldBeyond(ids, gold, h + 1);
        } else {
          assert forall i | 0 <= i < n :: ids[i] == front[i];
        }
      } else {
        assert forall i | 0 <= i < n :: ids[i] == front[i];
      }
    }
  }

  /** Fewer gold than positions means the front is not all gold, if the last is gold. */
  lemma GoldBeyond(ids: seq<Uuid>, gold: set<Uuid>, n: nat)
    requires 0 < n < |ids| && GoldHits(ids, gold) == n && ids[|ids| - 1] in gold
    ensures !LeadsWithGold(ids, gold, n)
  {
    if LeadsWithGold(ids, gold, n) {
      var front := ids[..|ids| - 1];
      assert LeadsWithGold(front, gold, n);
      GoldAtLeast(front, gold, n);
    }
  }

  lemma {:induction false} GoldAtLeast(ids: seq<Uuid>, gold: set<Uuid>, n: nat)
    requires LeadsWithGold(ids, gold, n)
    ensures GoldHits(ids, gold) >= n
  {
    if n > 0 {
      var front := ids[..|ids| - 1];
      GoldAtLeast(front, gold, if n < |ids| then n else n - 1);
    }
  }

  /** One of the first `k` positions is gold. */
  ghost predicate AnyGold(retrieved: seq<Uuid>, gold: set<Uuid>, k: nat) {
    exists i | 0 <= i < |retrieved| && i < k :: retrieved[i] in gold
  }

  lemma AnyGoldIsOnTop(retrieved: seq<Uuid>, gold: set<Uuid>, k: nat)
    ensures AnyGold(retrieved, gold, k) <==> Members(Top(retrieved, k)) * gold != {}
    ensures AnyGold(retrieved, gold, k) <==> exists x | x in Top(retrieved, k) :: x in gold
  {
    var top := Top(retrieved, k);
    assert forall i | 0 <= i < |top| :: top[i] == retrieved[i];
    if i :| 0 <= i < |retrieved| && i < k && retrieved[i] in gold {
      assert top[i] in Members(top) * gold && top[i] in top;
    }
  }

  /** Normalised gain is between nothing and one, and one exactly when every slot that
      could hold gold does so from the front. */
  lemma NdcgRange(discount: Discount, retrieved: seq<Uuid>, gold: set<Uuid>, k: nat)
    requires Falling(discount) && AllDifferent(retrieved) && |gold| > 0 && k > 0
    ensures var m := NdcgAtK(discount, retrieved, gold, k);
            && m.Value? && 0.0 <= m.value <= 1.0
            && (m.value == 1.0 <==> LeadsWithGold(retrieved, gold, if |gold| < k then |gold| else k))
            && (m.value == 0.0 <==> !AnyGold(retrieved, gold, k))
  {
    var top, n := Top(retrieved, k), IdealHits(gold, k);
    var h := GoldHits(top, gold);
    HitsFit(top, gold, k);
    IdealGrows(discount, h, n);
    IdealGrows(discount, 0, n);
    DcgAgainstIdeal(discount, top, gold);
    DcgIsPositive(discount, top, gold);
    var dcg, ideal := Dcg(discount, top, gold), Ideal(discount, n);
    if LeadsWithGold(retrieved, gold, n) {
      assert LeadsWithGold(top, gold, n);
      GoldAtLeast(top, gold, n);
    }
    assert dcg == ideal <==> LeadsWithGold(retrieved, gold, n) by {
      if dcg == ideal {
        assert h == n;
        assert forall i | 0 <= i < n :: top[i] == retrieved[i];
      }
    }
    RatioRange(dcg, ideal);
    AnyGoldIsOnTop(retrieved, gold, k);
  }

  lemma RatioRange(a: real, b: real)
    requires 0.0 <= a <= b && b > 0.0
    ensures 0.0 <= a / b <= 1.0
    ensures a / b == 1.0 <==> a == b
    ensures a / b == 0.0 <==> a == 0.0
  {
    assert a / b * b == a;
  }

  lemma {:induction false} DcgIsPositive(discount: Discount, ids: seq<Uuid>, gold: set<Uuid>)
    requires Falling(discount)
    ensures Dcg(discount, ids, gold) >= 0.0
    ensures Dcg(discount, ids, gold) == 0.0 <==> forall x | x in ids :: x !in gold
  {
    if |ids| > 0 {
      var front, last := ids[..|ids| - 1], ids[|ids| - 1];
      assert ids == front + [last];
      DcgIsPositive(discount, front, gold);
    }
  }

  lemma {:induction false} DcgConcat(discount: Discount, a: seq<Uuid>, b: seq<Uuid>, c: seq<Uuid>, gold: set<Uuid>)
    requires |a| == |b| && Dcg(discount, a, gold) < Dcg(discount, b, gold)
    ensures Dcg(discount, a + c, gold) < Dcg(discount, b + c, gold)
  {
    if |c| == 0 {
      assert a + c == a && b + c == b;
    } else {
      var n := |c| - 1;
      assert (a + c)[..|a + c| - 1] == a + c[..n] && (b + c)[..|b + c| - 1] == b + c[..n];
      DcgConcat(discount, a, b, c[..n], gold);
    }
  }

  /** Moving a gold chunk ahead of its neighbour that is not gold, inside the first `k`. */
  lemma SwappingGoldUpHelps(discount: Discount, before: seq<Uuid>, x: Uuid, y: Uuid, after: seq<Uuid>, gold: set<Uuid>, k: nat)
    requires Falling(discount) && |gold| > 0
    requires x !in gold && y in gold && |before| + 2 <= k
    ensures var worse, better := NdcgAtK(discount, before + [x, y] + after, gold, k), NdcgAtK(discount, before + [y, x] + after, gold, k);
            worse.Value? && better.Value? && worse.value < better.value
  {
    var n := |before| + 2;
    var rest := if n + |after| <= k then after else after[..k - n];
    var a, b := before + [x, y], before + [y, x];
    assert a[..n - 1] == before + [x] && (before + [x])[..n - 2] == before;
    assert b[..n - 1] == before + [y] && (before + [y])[..n - 2] == before;
    assert Top(a + after, k) == a + rest && Top(b + after, k) == b + rest;
    DcgConcat(discount, a, b, rest, gold);
    IdealGrows(discount, 0, IdealHits(gold, k));
    RatioOrder(DcgAtK(discount, a + after, gold, k), DcgAtK(discount, b + after, gold, k), Ideal(discount, IdealHits(gold, k)));
  }

  lemma RatioOrder(a: real, b: real, c: real)
    requires a < b && c > 0.0
    ensures a / c < b / c
  {
    assert a / c * c == a && b / c * c == b;
  }

  /** When a metric has no value: without gold none has; with gold, a depth that is not
      positive leaves nDCG undefined and is refused by the others. */
  lemma WithoutValue(discount: Discount, retrieved: seq<Uuid>, gold: set<Uuid>, k: int)
    requires Falling(discount)
    ensures NdcgAtK(discount, retrieved, gold, k).Value? <==> gold != {} && k > 0
    ensures NdcgAtK(discount, retrieved, gold, k) != BadK
    ensures var refused := gold != {} && k <= 0;
            && (RecallAtK(retrieved, gold, k) == BadK <==> refused)
            && (PrecisionAtK(retrieved, gold, k) == BadK <==> refused)
            && (HitRateAtK(retrieved, gold, k) == BadK <==> refused)
            && (RecallAtK(retrieved, gold, k) == Undefined <==> gold == {})
            && (PrecisionAtK(retrieved, gold, k) == Undefined <==> gold == {})
            && (HitRateAtK(retrieved, gold, k) == Undefined <==> gold == {})
  {
    if gold != {} && k > 0 {
      IdealGrows(discount, 0, IdealHits(gold, k));
    }
  }

  // ----- recall, precision, hit rate, reciprocal rank -----

  /** The gold chunks at one of the first `k` positions. */
  ghost function GoldWithin(retrieved: seq<Uuid>, gold: set<Uuid>, k: nat): set<Uuid> {
    set i | 0 <= i < |retrieved| && i < k && retrieved[i] in gold :: retrieved[i]
  }

  lemma GoldWithinIs(retrieved: seq<Uuid>, gold: set<Uuid>, k: nat)
    ensures GoldWithin(retrieved, gold, k) == Members(Top(retrieved, k)) * gold
  {
    var top := Top(retrieved, k);
    assert forall i | 0 <= i < |top| :: top[i] == retrieved[i];
  }

  /** Recall and precision count the same hits, one against what is gold and one against
      what was looked at; precision is positive exactly when there is a hit, and without
      results it is zero. */
  lemma RecallAndPrecision(retrieved: seq<Uuid>, gold: set<Uuid>, k: nat)
    requires |gold| > 0 && k > 0
    ensures RecallAtK(retrieved, gold, k).Value? && PrecisionAtK(retrieved, gold, k).Value?
    ensures var looked := if |retrieved| < k then |retrieved| else k;
            && RecallAtK(retrieved, gold, k).value * |gold| as real == |GoldWithin(retrieved, gold, k)| as real
            && PrecisionAtK(retrieved, gold, k).value * looked as real == |GoldWithin(retrieved, gold, k)| as real
    ensures PrecisionAtK(retrieved, gold, k).value > 0.0 <==> AnyGold(retrieved, gold, k)
    ensures retrieved == [] ==> PrecisionAtK(retrieved, gold, k).value == 0.0
  {
    GoldWithinIs(retrieved, gold, k);
    AnyGoldIsOnTop(retrieved, gold, k);
    hide GoldWithin, AnyGold, Members, Top;
    var hits := Members(Top(retrieved, k)) * gold;
    Quotient(|hits|, |gold|);
    if |Top(retrieved, k)| == 0 {
      TopOfNothing(retrieved, gold, k);
    } else {
      Quotient(|hits|, |Top(retrieved, k)|);
    }
  }

  lemma TopOfNothing(retrieved: seq<Uuid>, gold: set<Uuid>, k: nat)
    requires |Top(retrieved, k)| == 0
    ensures Members(Top(retrieved, k)) * gold == {}
  {
  }

  lemma Quotient(a: nat, b: nat)
    requires b > 0
    ensures a as real / b as real * b as real == a as real
    ensures a as real / b as real > 0.0 <==> a > 0
  {
    if a > 0 {
      FractionIsPositive(a as real, b as real);
    }
  }

  lemma FractionIsPositive(a: real, b: real)
    requires a > 0.0 && b > 0.0
    ensures a / b > 0.0
  {
  }

  /** Looking deeper never lowers recall or hit rate. */
  lemma DeeperFindsMore(retrieved: seq<Uuid>, gold: set<Uuid>, k: nat, k': nat)
    requires |gold| > 0 && 0 < k <= k'
    ensures RecallAtK(retrieved, gold, k).value <= RecallAtK(retrieved, gold, k').value <= 1.0
    ensures HitRateAtK(retrieved, gold, k).value <= HitRateAtK(retrieved, gold, k').value
  {
    var a, b := Members(Top(retrieved, k)) * gold, Members(Top(retrieved, k')) * gold;
    assert a <= b;
    SubsetSize(a, b);
    SubsetSize(b, gold);
    var g := |gold| as real;
    FractionOrder(|b| as real, g, |a| as real, g);
    FractionOrder(1.0, 1.0, |b| as real, g);
  }

  /** Hit rate, recall and the reciprocal rank agree on whether a gold chunk is in the
      first `k`. */
  lemma HitIffRecallIffRank(retrieved: seq<Uuid>, gold: set<Uuid>, k: nat)
    requires |gold| > 0 && k > 0
    ensures HitRateAtK(retrieved, gold, k).value == if AnyGold(retrieved, gold, k) then 1.0 else 0.0
    ensures HitRateAtK(retrieved, gold, k).value == 1.0 <==> RecallAtK(retrieved, gold, k).value > 0.0
    ensures HitRateAtK(retrieved, gold, k).value == 1.0 <==> ReciprocalRank(retrieved, gold).value >= 1.0 / k as real
  {
    hide AnyGold, Members, Top, ReciprocalRank;
    var found := Members(Top(retrieved, k)) * gold;
    AnyGoldIsOnTop(retrieved, gold, k);
    Quotient(|found|, |gold|);
    assert |found| > 0 <==> found != {};
    RankReaches(retrieved, gold, k);
  }

  lemma RankReaches(retrieved: seq<Uuid>, gold: set<Uuid>, k: nat)
    requires |gold| > 0 && k > 0
    ensures ReciprocalRank(retrieved, gold).Value?
    ensures AnyGold(retrieved, gold, k) <==> ReciprocalRank(retrieved, gold).value >= 1.0 / k as real
  {
    Quotient(1, k);
    match FirstGold(retrieved, gold)
    case None =>
    case Some(p) =>
      if p <= k {
        UnitFractions(p, k);
      } else {
        UnitFractions(k, p);
      }
  }

  ghost predicate FirstGoldAt(retrieved: seq<Uuid>, gold: set<Uuid>, p: nat) {
    p < |retrieved| && retrieved[p] in gold && forall i | 0 <= i < p :: retrieved[i] !in gold
  }

  lemma FirstGoldIs(retrieved: seq<Uuid>, gold: set<Uuid>, p: nat)
    requires FirstGoldAt(retrieved, gold, p)
    ensures FirstGold(retrieved, gold) == Some(p + 1)
  {
    var first := FirstGold(retrieved, gold);
    assert first.Some? by {
      assert retrieved[p] in retrieved;
    }
    assert retrieved[first.value - 1] in gold;
  }

  /** The reciprocal rank is undefined without gold, zero when no result is gold, and
      otherwise the inverse of the first place that is. */
  lemma RankIsInverse(retrieved: seq<Uuid>, gold: set<Uuid>, p: nat)
    ensures if gold == {} then ReciprocalRank(retrieved, gold) == Undefined else ReciprocalRank(retrieved, gold).Value?
    ensures gold != {} && (forall id | id in retrieved :: id !in gold) ==> ReciprocalRank(retrieved, gold) == Value(0.0)
    ensures FirstGoldAt(retrieved, gold, p) ==>
      ReciprocalRank(retrieved, gold).Value? && ReciprocalRank(retrieved, gold).value * (p + 1) as real == 1.0
  {
    if FirstGoldAt(retrieved, gold, p) {
      hide FirstGold;
      FirstGoldIs(retrieved, gold, p);
      Inverse(p + 1);
    }
  }

  lemma Inverse(n: nat)
    requires n > 0
    ensures 1.0 / n as real * n as real == 1.0
  {
  }

  lemma UnitFractions(p: nat, k: nat)
    requires 0 < p <= k
    ensures 1.0 / p as real >= 1.0 / k as real
    ensures p < k ==> 1.0 / p as real > 1.0 / k as real
  {
    FractionOrder(1.0, p as real, 1.0, k as real);
    FractionOrder(1.0, k as real, 1.0, p as real);
  }

  // ----- averages -----

  function Defined(values: seq<Option<real>>): seq<real> {
    if |values| == 0 then []
    else Defined(values[..|values| - 1]) + if values[|values| - 1].Some? then [values[|values| - 1].value] else []
  }

  function Sum(xs: seq<real>): real {
    if |xs| == 0 then 0.0 else Sum(xs[..|xs| - 1]) + xs[|xs| - 1]
  }

  function Mean(values: seq<Option<real>>): Option<real> {
    var defined := Defined(values);
    if |defined| == 0 then None else Some(Sum(defined) / |defined| as real)
  }

  function DefinedCount(values: seq<Option<real>>): nat {
    |Defined(values)|
  }
}
