/**
 What rank fusion promises: it exists and does not depend on the order of the arms, it
 loses no hit, scores are what the contributions are worth, and unanimous order is
 respected.
 */
module FusionLaws {
  import opened Identifiers
  import opened Fractions
  import opened Sequences
  import opened Sorting
  import opened Fusion

  function Ids(fused: seq<Fused>): (r: seq<Uuid>)
    ensures |r| == |fused| && forall i | 0 <= i < |r| :: r[i] == fused[i].chunkId
  {
    seq(|fused|, i requires 0 <= i < |fused| => fused[i].chunkId)
  }

  function HitIds(hits: seq<Hit>): (r: seq<Uuid>)
    ensures |r| == |hits| && forall i | 0 <= i < |r| :: r[i] == hits[i].chunkId
  {
    seq(|hits|, i requires 0 <= i < |hits| => hits[i].chunkId)
  }

  ghost predicate DistinctHits(hits: seq<Hit>) {
    AllDifferent(HitIds(hits))
  }

  ghost predicate InRanking(hits: seq<Hit>, id: Uuid) {
    exists p | 0 <= p < |hits| :: hits[p].chunkId == id
  }

  // ----- the fusion is determined by scores alone -----

  /** A list of entries is the only ordered one with its elements. */
  lemma OrderedEntriesUnique(xs: seq<Entry>, ys: seq<Entry>)
    requires forall i, j | 0 <= i < j < |xs| :: Outranks(xs[i].score, xs[i].id, xs[j].score, xs[j].id)
    requires forall i, j | 0 <= i < j < |ys| :: Outranks(ys[i].score, ys[i].id, ys[j].score, ys[j].id)
    requires forall e :: e in xs <==> e in ys
    ensures xs == ys
  {
    DistinctBag(xs);
    DistinctBag(ys);
    forall e
      ensures multiset(xs)[e] == multiset(ys)[e]
    {
      assert e in xs <==> e in multiset(xs);
      assert e in ys <==> e in multiset(ys);
    }
    SameContentsSameOrder(xs, ys, RanksNoLater);
  }

  function FusedEntries(fused: seq<Fused>): (r: seq<Entry>)
    ensures |r| == |fused| && forall i | 0 <= i < |r| :: r[i] == Entry(fused[i].score, fused[i].chunkId)
  {
    seq(|fused|, i requires 0 <= i < |fused| => Entry(fused[i].score, fused[i].chunkId))
  }

  lemma FusedEntriesAre(k: nat, arms: seq<Arm>, fused: seq<Fused>, e: Entry)
    requires k > 0 && IsFusion(k, arms, fused)
    ensures e in FusedEntries(fused) <==> Found(arms, e.id) && e.score == Score(k, arms, e.id)
  {
    hide Score, Found;
    if e in FusedEntries(fused) {
      var i :| 0 <= i < |fused| && FusedEntries(fused)[i] == e;
      assert Describes(k, arms, fused[i], i);
    }
    if Found(arms, e.id) {
      var i :| 0 <= i < |fused| && fused[i].chunkId == e.id;
      assert Describes(k, arms, fused[i], i);
      assert FusedEntries(fused)[i] == Entry(Score(k, arms, e.id), e.id);
    }
  }

  /** Arms that find the same chunks with the same total scores fuse to the same order. */
  lemma FusionIsUnique(k: nat, arms: seq<Arm>, arms': seq<Arm>, f: seq<Fused>, g: seq<Fused>)
    requires k > 0 && IsFusion(k, arms, f) && IsFusion(k, arms', g)
    requires forall id :: Score(k, arms, id) == Score(k, arms', id)
    requires forall id :: Found(arms, id) <==> Found(arms', id)
    ensures FusedEntries(f) == FusedEntries(g)
  {
    hide Score, Found, Describes;
    forall e
      ensures e in FusedEntries(f) <==> e in FusedEntries(g)
    {
      FusedEntriesAre(k, arms, f, e);
      FusedEntriesAre(k, arms', g, e);
    }
    OrderedEntriesUnique(FusedEntries(f), FusedEntries(g));
  }

  lemma ScoreLast(k: nat, arms: seq<Arm>, arm: Arm, id: Uuid)
    requires k > 0
    ensures Score(k, arms + [arm], id) == Score(k, arms, id) + ArmScore(k, arm, id)
  {
    hide ArmScore;
    assert (arms + [arm])[..|arms|] == arms;
  }

  lemma {:induction false} ScoreWithout(k: nat, a: seq<Arm>, arm: Arm, b: seq<Arm>, id: Uuid)
    requires k > 0
    ensures Score(k, a + [arm] + b, id) == Score(k, a + b, id) + ArmScore(k, arm, id)
  {
    hide *;
    if |b| == 0 {
      assert a + [arm] + b == a + [arm] && a + b == a;
      ScoreLast(k, a, arm, id);
    } else {
      var n := |b| - 1;
      ScoreWithout(k, a, arm, b[..n], id);
      assert a + [arm] + b == (a + [arm] + b[..n]) + [b[n]];
      assert a + b == (a + b[..n]) + [b[n]];
      ScoreLast(k, a + [arm] + b[..n], b[n], id);
      ScoreLast(k, a + b[..n], b[n], id);
    }
  }

  /** A permutation has the last element somewhere, with a permutation of the rest around it. */
  lemma LastMoved<T>(xs: seq<T>, ys: seq<T>) returns (a: seq<T>, b: seq<T>)
    requires |xs| > 0 && multiset(xs) == multiset(ys)
    ensures ys == a + [xs[|xs| - 1]] + b && multiset(xs[..|xs| - 1]) == multiset(a + b)
  {
    var n := |xs| - 1;
    assert xs[n] in multiset(xs);
    var i :| 0 <= i < |ys| && ys[i] == xs[n];
    a, b := ys[..i], ys[i + 1..];
    assert ys == a + [xs[n]] + b;
    assert xs == xs[..n] + [xs[n]];
    assert multiset(a + b) == multiset(ys) - multiset{xs[n]};
  }

  lemma {:induction false} ScorePermuted(k: nat, arms: seq<Arm>, arms': seq<Arm>, id: Uuid)
    requires k > 0 && multiset(arms) == multiset(arms')
    ensures Score(k, arms, id) == Score(k, arms', id)
  {
    hide *;
    if |arms| > 0 {
      var n := |arms| - 1;
      var a, b := LastMoved(arms, arms');
      ScorePermuted(k, arms[..n], a + b, id);
      ScoreWithout(k, a, arms[n], b, id);
      assert arms == arms[..n] + [arms[n]];
      ScoreLast(k, arms[..n], arms[n], id);
    } else {
      assert |arms'| == |multiset(arms')| == 0;
      assert arms == arms';
    }
  }

  lemma {:induction false} HitsAreInArms(arms: seq<Arm>, h: Hit)
    ensures h in AllHits(arms) <==> exists arm | arm in arms :: h in arm.ranking
  {
    if |arms| > 0 {
      var front, last := arms[..|arms| - 1], arms[|arms| - 1];
      assert arms == front + [last];
      HitsAreInArms(front, h);
    }
  }

  lemma FoundInArms(arms: seq<Arm>, id: Uuid)
    ensures Found(arms, id) <==> exists arm | arm in arms :: InRanking(arm.ranking, id)
  {
    if Found(arms, id) {
      var h :| h in AllHits(arms) && h.chunkId == id;
      HitsAreInArms(arms, h);
      var arm :| arm in arms && h in arm.ranking;
      assert InRanking(arm.ranking, id);
    }
    if arm :| arm in arms && InRanking(arm.ranking, id) {
      var p :| 0 <= p < |arm.ranking| && arm.ranking[p].chunkId == id;
      HitsAreInArms(arms, arm.ranking[p]);
    }
  }

  /** Listing the arms, with their weights, in another order changes neither the
      chunks, nor their order, nor their scores. */
  lemma ArmOrderIsIrrelevant(k: nat, arms: seq<Arm>, arms': seq<Arm>, f: seq<Fused>, g: seq<Fused>)
    requires k > 0 && multiset(arms) == multiset(arms')
    requires IsFusion(k, arms, f) && IsFusion(k, arms', g)
    ensures FusedEntries(f) == FusedEntries(g)
  {
    hide IsFusion, Score, Found;
    forall id
      ensures Score(k, arms, id) == Score(k, arms', id) && (Found(arms, id) <==> Found(arms', id))
    {
      ScorePermuted(k, arms, arms', id);
      FoundInArms(arms, id);
      FoundInArms(arms', id);
      assert forall arm :: arm in arms <==> arm in multiset(arms);
      assert forall arm :: arm in arms' <==> arm in multiset(arms');
    }
    FusionIsUnique(k, arms, arms', f, g);
  }

  // ----- no hit is lost -----

  function CountOf(hits: seq<Hit>, id: Uuid): nat {
    if |hits| == 0 then 0
    else CountOf(hits[..|hits| - 1], id) + if hits[|hits| - 1].chunkId == id then 1 else 0
  }

  lemma {:induction false} CountConcat(a: seq<Hit>, b: seq<Hit>, id: Uuid)
    ensures CountOf(a + b, id) == CountOf(a, id) + CountOf(b, id)
  {
    if |b| == 0 {
      assert a + b == a;
    } else {
      assert (a + b)[..|a + b| - 1] == a + b[..|b| - 1];
      CountConcat(a, b[..|b| - 1], id);
    }
  }

  lemma {:induction false} ArmContributionCount(ranking: seq<Hit>, id: Uuid)
    ensures |ArmContributions(ranking, id)| == CountOf(ranking, id)
  {
    if |ranking| > 0 {
      ArmContributionCount(ranking[..|ranking| - 1], id);
    }
  }

  lemma {:induction false} ContributionCount(arms: seq<Arm>, id: Uuid)
    ensures |Contributions(arms, id)| == CountOf(AllHits(arms), id)
  {
    hide ArmContributions, CountOf;
    if |arms| > 0 {
      var front, last := arms[..|arms| - 1], arms[|arms| - 1];
      ContributionCount(front, id);
      ArmContributionCount(last.ranking, id);
      CountConcat(AllHits(front), last.ranking, id);
    } else {
      assert CountOf([], id) == 0 by { ArmContributionCount([], id); NoContributions(id); }
    }
  }

  lemma NoContributions(id: Uuid)
    ensures ArmContributions([], id) == []
  {
  }

  function SumOfCounts(ids: seq<Uuid>, hits: seq<Hit>): nat {
    if |ids| == 0 then 0 else SumOfCounts(ids[..|ids| - 1], hits) + CountOf(hits, ids[|ids| - 1])
  }

  lemma {:induction false} OneMoreCounted(ids: seq<Uuid>, hits: seq<Hit>, h: Hit)
    requires AllDifferent(ids)
    ensures SumOfCounts(ids, hits + [h]) == SumOfCounts(ids, hits) + if h.chunkId in ids then 1 else 0
  {
    if |ids| > 0 {
      var front, last := ids[..|ids| - 1], ids[|ids| - 1];
      assert ids == front + [last];
      OneMoreCounted(front, hits, h);
      assert (hits + [h])[..|hits|] == hits;
    }
  }

  lemma {:induction false} EveryHitCounted(ids: seq<Uuid>, hits: seq<Hit>)
    requires AllDifferent(ids)
    requires forall h | h in hits :: h.chunkId in ids
    ensures SumOfCounts(ids, hits) == |hits|
  {
    if |hits| == 0 {
      NothingCounted(ids);
    } else {
      var n := |hits| - 1;
      EveryHitCounted(ids, hits[..n]);
      OneMoreCounted(ids, hits[..n], hits[n]);
      assert hits == hits[..n] + [hits[n]];
    }
  }

  lemma {:induction false} NothingCounted(ids: seq<Uuid>)
    ensures SumOfCounts(ids, []) == 0
  {
    if |ids| > 0 {
      NothingCounted(ids[..|ids| - 1]);
    }
  }

  function TotalContributions(fused: seq<Fused>): nat {
    if |fused| == 0 then 0
    else TotalContributions(fused[..|fused| - 1]) + |fused[|fused| - 1].contributions|
  }

  lemma {:induction false} TotalIsSum(arms: seq<Arm>, fused: seq<Fused>)
    requires forall f | f in fused :: f.contributions == Contributions(arms, f.chunkId)
    ensures TotalContributions(fused) == SumOfCounts(Ids(fused), AllHits(arms))
  {
    hide CountOf, Contributions, AllHits;
    if |fused| > 0 {
      var n := |fused| - 1;
      TotalIsSum(arms, fused[..n]);
      assert Ids(fused)[..n] == Ids(fused[..n]);
      assert fused[n] in fused;
      ContributionCount(arms, fused[n].chunkId);
    }
  }

  /** Every hit of every arm is a contribution to exactly one fused result. */
  lemma ContributionsAreConserved(k: nat, arms: seq<Arm>, fused: seq<Fused>)
    requires k > 0 && IsFusion(k, arms, fused)
    ensures TotalContributions(fused) == |AllHits(arms)|
  {
    hide Score, Contributions, CountOf, AllHits, TotalContributions, SumOfCounts;
    forall f | f in fused
      ensures f.contributions == Contributions(arms, f.chunkId)
    {
      var i :| 0 <= i < |fused| && fused[i] == f;
      assert Describes(k, arms, fused[i], i);
    }
    TotalIsSum(arms, fused);
    forall h | h in AllHits(arms)
      ensures h.chunkId in Ids(fused)
    {
      assert Found(arms, h.chunkId);
      var i :| 0 <= i < |fused| && fused[i].chunkId == h.chunkId;
      assert Ids(fused)[i] == h.chunkId;
    }
    EveryHitCounted(Ids(fused), AllHits(arms));
  }

  // ----- a score is what its contributions are worth -----

  function SharesOf(k: nat, weight: real, contributions: seq<Contribution>): real
    requires k > 0
  {
    if |contributions| == 0 then 0.0
    else
      var n := |contributions| - 1;
      SharesOf(k, weight, contributions[..n]) + Share(k, weight, contributions[n].rank)
  }

  lemma OneMoreShare(k: nat, weight: real, before: seq<Contribution>, last: Contribution)
    requires k > 0
    ensures SharesOf(k, weight, before + [last]) == SharesOf(k, weight, before) + Share(k, weight, last.rank)
  {
    hide Share;
    assert (before + [last])[..|before|] == before;
  }

  lemma OneMoreOfArm(k: nat, arm: Arm, id: Uuid)
    requires k > 0 && |arm.ranking| > 0
    ensures var n := |arm.ranking| - 1;
            var front, hit := Arm(arm.ranking[..n], arm.weight), arm.ranking[n];
            if hit.chunkId == id then
              && ArmScore(k, arm, id) == ArmScore(k, front, id) + Share(k, arm.weight, n)
              && ArmContributions(arm.ranking, id)
                 == ArmContributions(front.ranking, id) + [Contribution(hit.retriever, n, hit.score)]
            else
              && ArmScore(k, arm, id) == ArmScore(k, front, id)
              && ArmContributions(arm.ranking, id) == ArmContributions(front.ranking, id)
  {
    hide Share;
  }

  /** Each arm adds to a chunk's score exactly what the contributions reported for it
      are worth, rank by rank. */
  lemma {:induction false} ContributionsExplainScore(k: nat, arm: Arm, id: Uuid)
    requires k > 0
    ensures ArmScore(k, arm, id) == SharesOf(k, arm.weight, ArmContributions(arm.ranking, id))
    decreases |arm.ranking|
  {
    hide *;
    if |arm.ranking| > 0 {
      var n := |arm.ranking| - 1;
      ContributionsExplainScore(k, Arm(arm.ranking[..n], arm.weight), id);
      OneMoreOfArm(k, arm, id);
      OneMoreShare(k, arm.weight, ArmContributions(arm.ranking[..n], id), Contribution(arm.ranking[n].retriever, n, arm.ranking[n].score));
    } else {
      NothingContributed(k, arm, id);
    }
  }

  lemma NothingContributed(k: nat, arm: Arm, id: Uuid)
    requires k > 0 && |arm.ranking| == 0
    ensures ArmScore(k, arm, id) == 0.0 == SharesOf(k, arm.weight, ArmContributions(arm.ranking, id))
  {
  }

  /** What the arms' contributions are worth, arm by arm. */
  function Worth(k: nat, arms: seq<Arm>, id: Uuid): real
    requires k > 0
  {
    if |arms| == 0 then 0.0
    else
      var last := arms[|arms| - 1];
      Worth(k, arms[..|arms| - 1], id) + SharesOf(k, last.weight, ArmContributions(last.ranking, id))
  }

  lemma {:induction false} ScoreIsWorth(k: nat, arms: seq<Arm>, id: Uuid)
    requires k > 0
    ensures Score(k, arms, id) == Worth(k, arms, id)
  {
    hide ArmScore, SharesOf, ArmContributions;
    if |arms| > 0 {
      ScoreIsWorth(k, arms[..|arms| - 1], id);
      ContributionsExplainScore(k, arms[|arms| - 1], id);
    }
  }

  // ----- what a single hit brings -----

  /** A chunk that one arm alone found, at one place, scores the arm's weight over k
      plus that place counted from one. */
  lemma SoleFinderScore(k: nat, arms: seq<Arm>, t: nat, p: nat)
    requires k > 0 && t < |arms| && DistinctHits(arms[t].ranking) && p < |arms[t].ranking|
    requires forall s | 0 <= s < |arms| && s != t :: !InRanking(arms[s].ranking, arms[t].ranking[p].chunkId)
    ensures Score(k, arms, arms[t].ranking[p].chunkId) * (k + p + 1) as real == arms[t].weight
  {
    hide ArmScore, DistinctHits;
    var id := arms[t].ranking[p].chunkId;
    SoleArmScores(k, arms, t, id);
    ArmScoreAt(k, arms[t], p);
    assert arms[t].weight / (k + p + 1) as real * (k + p + 1) as real == arms[t].weight;
  }

  lemma {:induction false} SoleArmScores(k: nat, arms: seq<Arm>, t: nat, id: Uuid)
    requires k > 0 && t < |arms|
    requires forall s | 0 <= s < |arms| && s != t :: !InRanking(arms[s].ranking, id)
    ensures Score(k, arms, id) == ArmScore(k, arms[t], id)
  {
    hide ArmScore, InRanking;
    var n := |arms| - 1;
    if t == n {
      OtherArmsScoreNothing(k, arms[..n], id);
    } else {
      SoleArmScores(k, arms[..n], t, id);
      NotRankedScoresNothing(k, arms[n], id);
    }
  }

  lemma NotRankedScoresNothing(k: nat, arm: Arm, id: Uuid)
    requires k > 0 && !InRanking(arm.ranking, id)
    ensures ArmScore(k, arm, id) == 0.0
  {
    NotInArm(k, arm, id);
  }

  lemma {:induction false} OtherArmsScoreNothing(k: nat, arms: seq<Arm>, id: Uuid)
    requires k > 0 && forall s | 0 <= s < |arms| :: !InRanking(arms[s].ranking, id)
    ensures Score(k, arms, id) == 0.0
  {
    hide ArmScore, InRanking;
    if |arms| > 0 {
      OtherArmsScoreNothing(k, arms[..|arms| - 1], id);
      NotRankedScoresNothing(k, arms[|arms| - 1], id);
    }
  }

  lemma {:induction false} HitContributes(ranking: seq<Hit>, p: nat)
    requires p < |ranking|
    ensures Contribution(ranking[p].retriever, p, ranking[p].score) in ArmContributions(ranking, ranking[p].chunkId)
  {
    var n := |ranking| - 1;
    if p < n {
      HitContributes(ranking[..n], p);
    }
  }

  lemma {:induction false} ArmContributes(arms: seq<Arm>, t: nat, id: Uuid, c: Contribution)
    requires t < |arms| && c in ArmContributions(arms[t].ranking, id)
    ensures c in Contributions(arms, id)
  {
    hide ArmContributions;
    var n := |arms| - 1;
    if t < n {
      ArmContributes(arms[..n], t, id, c);
    }
  }

  /** Whatever an arm returned, at whatever place, is among the fused results, with its
      place and score in that arm among its contributions. */
  lemma EveryHitIsFused(k: nat, arms: seq<Arm>, fused: seq<Fused>, t: nat, p: nat)
    requires k > 0 && IsFusion(k, arms, fused) && t < |arms| && p < |arms[t].ranking|
    ensures var hit := arms[t].ranking[p];
            exists i | 0 <= i < |fused| ::
              fused[i].chunkId == hit.chunkId && Contribution(hit.retriever, p, hit.score) in fused[i].contributions
  {
    hide Score, Contributions, ArmContributions, AllHits;
    var hit := arms[t].ranking[p];
    assert arms[t] in arms && InRanking(arms[t].ranking, hit.chunkId);
    FoundInArms(arms, hit.chunkId);
    HitContributes(arms[t].ranking, p);
    ArmContributes(arms, t, hit.chunkId, Contribution(hit.retriever, p, hit.score));
    var i :| 0 <= i < |fused| && fused[i].chunkId == hit.chunkId;
    assert Describes(k, arms, fused[i], i);
  }

  // ----- unanimous order -----

  lemma {:induction false} ArmScoreAt(k: nat, arm: Arm, p: nat)
    requires k > 0 && DistinctHits(arm.ranking) && p < |arm.ranking|
    ensures ArmScore(k, arm, arm.ranking[p].chunkId) == Share(k, arm.weight, p)
    decreases |arm.ranking|
  {
    hide Share;
    var n := |arm.ranking| - 1;
    var front := Arm(arm.ranking[..n], arm.weight);
    if p == n {
      NotInArm(k, front, arm.ranking[n].chunkId);
    } else {
      ArmScoreAt(k, front, p);
    }
  }

  lemma ShareOrder(k: nat, weight: real, p: nat, q: nat)
    requires k > 0 && weight >= 0.0 && p <= q
    ensures Share(k, weight, q) <= Share(k, weight, p)
    ensures weight > 0.0 && p < q ==> Share(k, weight, q) < Share(k, weight, p)
    ensures 0.0 <= Share(k, weight, q) && (weight > 0.0 ==> 0.0 < Share(k, weight, q))
  {
    var x, y := (k + p + 1) as real, (k + q + 1) as real;
    FractionOrder(weight, y, weight, x);
    FractionOrder(weight, x, weight, y);
    FractionOrder(0.0, 1.0, weight, y);
  }

  /** Wherever `b` is ranked, `a` is ranked before it. */
  ghost predicate AheadIn(hits: seq<Hit>, a: Uuid, b: Uuid) {
    forall q | 0 <= q < |hits| && hits[q].chunkId == b :: exists p | 0 <= p < q :: hits[p].chunkId == a
  }

  ghost predicate Unanimous(arms: seq<Arm>, a: Uuid, b: Uuid) {
    forall arm | arm in arms :: arm.weight > 0.0 && DistinctHits(arm.ranking) && AheadIn(arm.ranking, a, b)
  }

  lemma ArmPrefers(k: nat, arm: Arm, a: Uuid, b: Uuid)
    requires k > 0 && arm.weight > 0.0 && DistinctHits(arm.ranking) && AheadIn(arm.ranking, a, b)
    ensures ArmScore(k, arm, b) <= ArmScore(k, arm, a)
    ensures InRanking(arm.ranking, b) ==> ArmScore(k, arm, b) < ArmScore(k, arm, a)
  {
    hide ArmScore, Share;
    var hits := arm.ranking;
    if q :| 0 <= q < |hits| && hits[q].chunkId == b {
      var p :| 0 <= p < q && hits[p].chunkId == a;
      ArmScoreAt(k, arm, p);
      ArmScoreAt(k, arm, q);
      ShareOrder(k, arm.weight, p, q);
    } else {
      NotInArm(k, arm, b);
      if p :| 0 <= p < |hits| && hits[p].chunkId == a {
        ArmScoreAt(k, arm, p);
        ShareOrder(k, arm.weight, 0, p);
      } else {
        NotInArm(k, arm, a);
      }
    }
  }

  lemma {:induction false} UnanimousScores(k: nat, arms: seq<Arm>, a: Uuid, b: Uuid)
    requires k > 0 && Unanimous(arms, a, b)
    ensures Score(k, arms, b) <= Score(k, arms, a)
    ensures (exists arm | arm in arms :: InRanking(arm.ranking, b)) ==> Score(k, arms, b) < Score(k, arms, a)
  {
    hide ArmScore, AheadIn, InRanking, DistinctHits;
    if |arms| > 0 {
      var front, last := arms[..|arms| - 1], arms[|arms| - 1];
      assert arms == front + [last];
      UnanimousScores(k, front, a, b);
      ArmPrefers(k, last, a, b);
    }
  }

  /** Places in the fused list follow rank. */
  lemma PlaceIsRank(k: nat, arms: seq<Arm>, fused: seq<Fused>, i: nat, j: nat)
    requires k > 0 && IsFusion(k, arms, fused) && i < |fused| && j < |fused|
    ensures i < j <==> Outranks(Score(k, arms, fused[i].chunkId), fused[i].chunkId, Score(k, arms, fused[j].chunkId), fused[j].chunkId)
  {
    hide Score, Found;
    assert Describes(k, arms, fused[i], i) && Describes(k, arms, fused[j], j);
    assert i < j ==> Outranks(fused[i].score, fused[i].chunkId, fused[j].score, fused[j].chunkId);
    assert j < i ==> Outranks(fused[j].score, fused[j].chunkId, fused[i].score, fused[i].chunkId);
  }

  /** If `a` is ahead of `b` in every arm that has `b`, it is ahead in the fusion. */
  lemma UnanimityIsRespected(k: nat, arms: seq<Arm>, fused: seq<Fused>, a: Uuid, b: Uuid)
    requires k > 0 && IsFusion(k, arms, fused) && Unanimous(arms, a, b) && Found(arms, b)
    ensures exists i, j | 0 <= i < j < |fused| :: fused[i].chunkId == a && fused[j].chunkId == b
  {
    hide Score, Describes, DistinctHits;
    FoundInArms(arms, b);
    UnanimousScores(k, arms, a, b);
    var arm :| arm in arms && InRanking(arm.ranking, b);
    var q :| 0 <= q < |arm.ranking| && arm.ranking[q].chunkId == b;
    assert AheadIn(arm.ranking, a, b);
    var p :| 0 <= p < q && arm.ranking[p].chunkId == a;
    assert InRanking(arm.ranking, a);
    FoundInArms(arms, a);
    var i :| 0 <= i < |fused| && fused[i].chunkId == a;
    var j :| 0 <= j < |fused| && fused[j].chunkId == b;
    PlaceIsRank(k, arms, fused, i, j);
  }

  // ----- one arm alone -----

  lemma {:induction false} OnlyArmScores(k: nat, arms: seq<Arm>, t: nat, id: Uuid)
    requires k > 0 && t < |arms| && forall s | 0 <= s < |arms| && s != t :: arms[s].ranking == []
    ensures Score(k, arms, id) == ArmScore(k, arms[t], id)
  {
    var n := |arms| - 1;
    if t == n {
      NoArmScores(k, arms[..n], id);
    } else {
      OnlyArmScores(k, arms[..n], t, id);
    }
  }

  lemma {:induction false} NoArmScores(k: nat, arms: seq<Arm>, id: Uuid)
    requires k > 0 && forall arm | arm in arms :: arm.ranking == []
    ensures Score(k, arms, id) == 0.0
  {
    if |arms| > 0 {
      assert arms == arms[..|arms| - 1] + [arms[|arms| - 1]];
      NoArmScores(k, arms[..|arms| - 1], id);
    }
  }

  /** When only one arm returned anything, its order is reproduced. */
  lemma OneArmIsReproduced(k: nat, arms: seq<Arm>, t: nat, fused: seq<Fused>)
    requires k > 0 && t < |arms| && IsFusion(k, arms, fused)
    requires forall s | 0 <= s < |arms| && s != t :: arms[s].ranking == []
    requires arms[t].weight > 0.0 && DistinctHits(arms[t].ranking)
    ensures Ids(fused) == HitIds(arms[t].ranking)
  {
    hide Score, ArmScore, Share, IsFusion;
    var arm := arms[t];
    var hits := arm.ranking;
    var own := seq(|hits|, i requires 0 <= i < |hits| => Entry(Share(k, arm.weight, i), hits[i].chunkId));
    forall i, j | 0 <= i < j < |own|
      ensures Outranks(own[i].score, own[i].id, own[j].score, own[j].id)
    {
      ShareOrder(k, arm.weight, i, j);
    }
    forall e
      ensures e in FusedEntries(fused) <==> e in own
    {
      FusedEntriesAre(k, arms, fused, e);
      FoundInArms(arms, e.id);
      OnlyArmScores(k, arms, t, e.id);
      if Found(arms, e.id) {
        var found :| found in arms && InRanking(found.ranking, e.id);
        assert found == arm;
        var i :| 0 <= i < |hits| && hits[i].chunkId == e.id;
        ArmScoreAt(k, arm, i);
        assert own[i] == Entry(ArmScore(k, arm, e.id), e.id);
      }
      if i :| 0 <= i < |own| && own[i] == e {
        ArmScoreAt(k, arm, i);
        assert InRanking(hits, e.id);
      }
    }
    FusedAreOrdered(k, arms, fused);
    OrderedEntriesUnique(FusedEntries(fused), own);
    assert forall i | 0 <= i < |fused| :: FusedEntries(fused)[i] == own[i];
  }

  lemma FusedAreOrdered(k: nat, arms: seq<Arm>, fused: seq<Fused>)
    requires k > 0 && IsFusion(k, arms, fused)
    ensures var es := FusedEntries(fused);
            forall i, j | 0 <= i < j < |es| :: Outranks(es[i].score, es[i].id, es[j].score, es[j].id)
  {
  }

  // ----- there always is a fusion -----

  /** The chunks of a list, each where it first appears. */
  function KeysOf(hits: seq<Hit>): seq<Uuid> {
    if |hits| == 0 then []
    else
      var before, id := KeysOf(hits[..|hits| - 1]), hits[|hits| - 1].chunkId;
      if id in before then before else before + [id]
  }

  lemma {:induction false} KeysAre(hits: seq<Hit>)
    ensures AllDifferent(KeysOf(hits))
    ensures forall id :: id in KeysOf(hits) <==> exists h | h in hits :: h.chunkId == id
  {
    if |hits| > 0 {
      var front, last := hits[..|hits| - 1], hits[|hits| - 1];
      assert hits == front + [last];
      KeysAre(front);
      assert last in hits;
    }
  }

  lemma {:induction false} SomeFirstSighting(hits: seq<Hit>, id: Uuid)
    requires exists h | h in hits :: h.chunkId == id
    ensures Sighted(hits, id)
  {
    var n := |hits| - 1;
    var front := hits[..n];
    if exists h | h in front :: h.chunkId == id {
      SomeFirstSighting(front, id);
      var h :| IsFirstSighting(front, h) && h.chunkId == id;
      var i :| 0 <= i < |front| && front[i] == h && forall j | 0 <= j < i :: front[j].chunkId != id;
      assert hits[i] == h && forall j | 0 <= j < i :: hits[j] == front[j];
    } else {
      assert forall j | 0 <= j < n :: front[j] in front && hits[j] == front[j];
      assert hits[n].chunkId == id;
      assert IsFirstSighting(hits, hits[n]);
    }
  }

  ghost predicate Sighted(hits: seq<Hit>, id: Uuid) {
    exists h :: IsFirstSighting(hits, h) && h.chunkId == id
  }

  ghost function FirstSighting(hits: seq<Hit>, id: Uuid): (h: Hit)
    requires Sighted(hits, id)
    ensures IsFirstSighting(hits, h) && h.chunkId == id
  {
    var h :| IsFirstSighting(hits, h) && h.chunkId == id;
    h
  }

  /** Any arms have a fusion. */
  lemma FusionExists(k: nat, arms: seq<Arm>)
    requires k > 0
    ensures exists fused :: IsFusion(k, arms, fused)
  {
    hide Score, Contributions, AllHits, FirstTerms, SortBy, KeysOf, IsFirstSighting, Sighted;
    var hits := AllHits(arms);
    var order := KeysOf(hits);
    KeysAre(hits);
    var scores := map id | id in order :: Score(k, arms, id);
    SortedEntries(order, scores);
    var s := SortBy(Entries(order, scores), RanksNoLater);
    forall i | 0 <= i < |s|
      ensures Sighted(hits, s[i].id)
    {
      assert s[i] in s;
      SomeFirstSighting(hits, s[i].id);
    }
    var fused := seq(|s|, i requires 0 <= i < |s| =>
      Fused(s[i].id, FirstSighting(hits, s[i].id).text, s[i].score, i, FirstTerms(hits, s[i].id), Contributions(arms, s[i].id)));
    forall i | 0 <= i < |fused|
      ensures Describes(k, arms, fused[i], i)
    {
      assert s[i] in s;
    }
    forall id
      ensures Found(arms, id) <==> exists i | 0 <= i < |fused| :: fused[i].chunkId == id
    {
      if id in order {
        var i :| 0 <= i < |s| && s[i] == Entry(scores[id], id);
        assert fused[i].chunkId == id;
      }
      if i :| 0 <= i < |fused| && fused[i].chunkId == id {
        assert s[i] in s;
      }
    }
    assert IsFusion(k, arms, fused);
  }

  // ----- how many there are -----

  function FoundIds(arms: seq<Arm>): set<Uuid> {
    set h | h in AllHits(arms) :: h.chunkId
  }

  /** There is one result for each chunk found. */
  lemma OneResultEach(k: nat, arms: seq<Arm>, fused: seq<Fused>)
    requires k > 0 && IsFusion(k, arms, fused)
    ensures AllDifferent(Ids(fused)) && |fused| == |FoundIds(arms)|
  {
    hide Describes, Score, AllHits;
    forall i, j | 0 <= i < j < |fused|
      ensures fused[i].chunkId != fused[j].chunkId
    {
      PlaceIsRank(k, arms, fused, i, j);
    }
    DifferentCount(Ids(fused));
    assert Members(Ids(fused)) == FoundIds(arms) by {
      forall x
        ensures x in Ids(fused) <==> x in FoundIds(arms)
      {
        assert Found(arms, x) <==> x in FoundIds(arms);
        if x in Ids(fused) {
          var i :| 0 <= i < |fused| && Ids(fused)[i] == x;
          assert fused[i].chunkId == x;
        }
        if Found(arms, x) {
          var i :| 0 <= i < |fused| && fused[i].chunkId == x;
          assert Ids(fused)[i] == x;
        }
      }
    }
  }
}
