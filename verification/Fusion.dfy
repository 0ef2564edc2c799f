/**
 Reciprocal rank fusion, backend/core/retrieval/fusion.py. Scores are exact reals.
 The dictionaries the source fills are refined to a definition that mentions
 neither dictionaries nor sorting: `IsFusion`.
 */
module Fusion {
  import opened Wrappers
  import opened Identifiers
  import opened Sequences
  import opened Sorting

  datatype Retriever = Semantic | Keyword | Hybrid

  datatype Hit = Hit(chunkId: Uuid, text: string, retriever: Retriever, score: real, matchedTerms: seq<string>)

  datatype Contribution = Contribution(retriever: Retriever, rank: nat, score: real)

  datatype Fused = Fused(
    chunkId: Uuid, text: string, score: real, rank: nat,
    matchedTerms: seq<string>, contributions: seq<Contribution>)

  /** One retriever's ranking and the weight it carries. */
  datatype Arm = Arm(ranking: seq<Hit>, weight: real)

  // ----- what fusion means -----

  /** What the place at `position` (from zero) is worth. */
  function Share(k: nat, weight: real, position: nat): real
    requires k > 0
  {
    weight / (k + position + 1) as real
  }

  function ArmScore(k: nat, arm: Arm, id: Uuid): real
    requires k > 0
    decreases |arm.ranking|
  {
    if |arm.ranking| == 0 then 0.0
    else
      var n := |arm.ranking| - 1;
      ArmScore(k, Arm(arm.ranking[..n], arm.weight), id)
      + if arm.ranking[n].chunkId == id then Share(k, arm.weight, n) else 0.0
  }

  function Score(k: nat, arms: seq<Arm>, id: Uuid): real
    requires k > 0
  {
    if |arms| == 0 then 0.0
    else Score(k, arms[..|arms| - 1], id) + ArmScore(k, arms[|arms| - 1], id)
  }

  function ArmContributions(ranking: seq<Hit>, id: Uuid): seq<Contribution> {
    if |ranking| == 0 then []
    else
      var n := |ranking| - 1;
      ArmContributions(ranking[..n], id)
      + if ranking[n].chunkId == id then [Contribution(ranking[n].retriever, n, ranking[n].score)] else []
  }

  function Contributions(arms: seq<Arm>, id: Uuid): seq<Contribution> {
    if |arms| == 0 then []
    else Contributions(arms[..|arms| - 1], id) + ArmContributions(arms[|arms| - 1].ranking, id)
  }

  /** Every hit, arm after arm. */
  function AllHits(arms: seq<Arm>): seq<Hit> {
    if |arms| == 0 then [] else AllHits(arms[..|arms| - 1]) + arms[|arms| - 1].ranking
  }

  ghost predicate Found(arms: seq<Arm>, id: Uuid) {
    exists h | h in AllHits(arms) :: h.chunkId == id
  }

  /** The first hit of a chunk. */
  ghost predicate IsFirstSighting(hits: seq<Hit>, h: Hit) {
    exists i | 0 <= i < |hits| :: hits[i] == h && forall j | 0 <= j < i :: hits[j].chunkId != h.chunkId
  }

  /** `_first_matched_terms` over all hits in order. */
  function FirstTerms(hits: seq<Hit>, id: Uuid): (terms: seq<string>)
    ensures |terms| == 0 <==> forall h | h in hits && h.chunkId == id :: |h.matchedTerms| == 0
    ensures |terms| > 0 ==> exists i | 0 <= i < |hits| ::
      hits[i].chunkId == id && hits[i].matchedTerms == terms
      && forall j | 0 <= j < i && hits[j].chunkId == id :: |hits[j].matchedTerms| == 0
  {
    if |hits| == 0 then []
    else if hits[0].chunkId == id && |hits[0].matchedTerms| > 0 then hits[0].matchedTerms
    else
      var rest := FirstTerms(hits[1..], id);
      assert |rest| > 0 ==> exists i | 0 <= i < |hits[1..]| ::
        hits[1..][i].chunkId == id && hits[1..][i].matchedTerms == rest
        && forall j | 0 <= j < i && hits[1..][j].chunkId == id :: |hits[1..][j].matchedTerms| == 0;
      rest
  }

  /** Higher score first, then smaller identifier. */
  predicate Outranks(s: real, a: Uuid, t: real, b: Uuid) {
    s > t || (s == t && a < b)
  }

  ghost predicate Describes(k: nat, arms: seq<Arm>, f: Fused, rank: nat)
    requires k > 0
  {
    && f.rank == rank
    && f.score == Score(k, arms, f.chunkId)
    && f.contributions == Contributions(arms, f.chunkId)
    && f.matchedTerms == FirstTerms(AllHits(arms), f.chunkId)
    && exists h :: IsFirstSighting(AllHits(arms), h) && h.chunkId == f.chunkId && h.text == f.text
  }

  /** The list holds every chunk found, once, described by its own hits, in order of rank. */
  ghost predicate IsFusion(k: nat, arms: seq<Arm>, fused: seq<Fused>)
    requires k > 0
  {
    && (forall i | 0 <= i < |fused| :: Describes(k, arms, fused[i], i))
    && (forall i, j | 0 <= i < j < |fused| :: Outranks(fused[i].score, fused[i].chunkId, fused[j].score, fused[j].chunkId))
    && (forall id :: Found(arms, id) <==> exists i | 0 <= i < |fused| :: fused[i].chunkId == id)
  }

  // ----- the dictionaries -----

  /** The dictionaries after the given arms; `order` lists the keys as first inserted. */
  ghost predicate Tabulates(
    k: nat, arms: seq<Arm>, order: seq<Uuid>, scores: map<Uuid, real>,
    contributions: map<Uuid, seq<Contribution>>, exemplar: map<Uuid, Hit>)
    requires k > 0
  {
    && (forall id :: id in order <==> Found(arms, id))
    && AllDifferent(order)
    && (forall id :: id in scores <==> id in order)
    && (forall id :: id in contributions <==> id in order)
    && (forall id :: id in exemplar <==> id in order)
    && (forall id | id in scores :: scores[id] == Score(k, arms, id))
    && (forall id | id in contributions :: contributions[id] == Contributions(arms, id))
    && (forall id | id in exemplar :: exemplar[id].chunkId == id && IsFirstSighting(AllHits(arms), exemplar[id]))
  }

  lemma {:induction false} NotInArm(k: nat, arm: Arm, id: Uuid)
    requires k > 0 && forall h | h in arm.ranking :: h.chunkId != id
    ensures ArmScore(k, arm, id) == 0.0 && ArmContributions(arm.ranking, id) == []
    decreases |arm.ranking|
  {
    if |arm.ranking| > 0 {
      NotInArm(k, Arm(arm.ranking[..|arm.ranking| - 1], arm.weight), id);
    }
  }

  lemma {:induction false} NotFound(k: nat, arms: seq<Arm>, id: Uuid)
    requires k > 0 && !Found(arms, id)
    ensures Score(k, arms, id) == 0.0 && Contributions(arms, id) == []
  {
    if |arms| > 0 {
      var front, last := arms[..|arms| - 1], arms[|arms| - 1];
      assert AllHits(arms) == AllHits(front) + last.ranking;
      NotFound(k, front, id);
      NotInArm(k, last, id);
    }
  }

  /** What one more hit in the last arm changes. */
  lemma OneMoreHit(k: nat, arms: seq<Arm>, arm: Arm, m: nat, id: Uuid)
    requires k > 0 && m < |arm.ranking|
    ensures var before := arms + [Arm(arm.ranking[..m], arm.weight)];
            var after := arms + [Arm(arm.ranking[..m + 1], arm.weight)];
            var h := arm.ranking[m];
            && Score(k, after, id) == Score(k, before, id) + (if h.chunkId == id then Share(k, arm.weight, m) else 0.0)
            && Contributions(after, id)
               == Contributions(before, id) + (if h.chunkId == id then [Contribution(h.retriever, m, h.score)] else [])
            && AllHits(after) == AllHits(before) + [h]
  {
    var before, after := arms + [Arm(arm.ranking[..m], arm.weight)], arms + [Arm(arm.ranking[..m + 1], arm.weight)];
    assert before[..|arms|] == arms && after[..|arms|] == arms;
    assert arm.ranking[..m + 1][..m] == arm.ranking[..m];
  }

  lemma NoHitsYet(k: nat, arms: seq<Arm>, weight: real)
    requires k > 0
    ensures forall id :: Score(k, arms + [Arm([], weight)], id) == Score(k, arms, id)
    ensures forall id :: Contributions(arms + [Arm([], weight)], id) == Contributions(arms, id)
    ensures AllHits(arms + [Arm([], weight)]) == AllHits(arms)
  {
    assert (arms + [Arm([], weight)])[..|arms|] == arms;
    assert ArmContributions([], 0) == [];
  }

  lemma TabulateStep(
    k: nat, arms: seq<Arm>, arm: Arm, m: nat, order: seq<Uuid>, scores: map<Uuid, real>,
    contributions: map<Uuid, seq<Contribution>>, exemplar: map<Uuid, Hit>)
    requires k > 0 && m < |arm.ranking|
    requires Tabulates(k, arms + [Arm(arm.ranking[..m], arm.weight)], order, scores, contributions, exemplar)
    ensures var h := arm.ranking[m];
            var id := h.chunkId;
            Tabulates(
              k, arms + [Arm(arm.ranking[..m + 1], arm.weight)],
              if id in exemplar then order else order + [id],
              scores[id := (if id in scores then scores[id] else 0.0) + Share(k, arm.weight, m)],
              contributions[id := (if id in contributions then contributions[id] else []) + [Contribution(h.retriever, m, h.score)]],
              if id in exemplar then exemplar else exemplar[id := h])
  {
    hide Score, Contributions, AllHits, Found, IsFirstSighting;
    var before, after := arms + [Arm(arm.ranking[..m], arm.weight)], arms + [Arm(arm.ranking[..m + 1], arm.weight)];
    var h := arm.ranking[m];
    OneMoreHit(k, arms, arm, m, h.chunkId);
    OneMoreSighting(before, after, h);
    forall id | id != h.chunkId
      ensures Score(k, after, id) == Score(k, before, id) && Contributions(after, id) == Contributions(before, id)
    {
      OneMoreHit(k, arms, arm, m, id);
      assert Contributions(before, id) + [] == Contributions(before, id);
    }
    if h.chunkId !in order {
      NotFound(k, before, h.chunkId);
    }
  }

  lemma OneMoreSighting(before: seq<Arm>, after: seq<Arm>, h: Hit)
    requires AllHits(after) == AllHits(before) + [h]
    ensures forall id :: Found(after, id) <==> Found(before, id) || id == h.chunkId
    ensures forall x | IsFirstSighting(AllHits(before), x) :: IsFirstSighting(AllHits(after), x)
    ensures !Found(before, h.chunkId) ==> IsFirstSighting(AllHits(after), h)
  {
    hide AllHits;
    var xs, ys := AllHits(before), AllHits(after);
    assert ys[|xs|] == h;
    forall x | IsFirstSighting(xs, x)
      ensures IsFirstSighting(ys, x)
    {
      var i :| 0 <= i < |xs| && xs[i] == x && forall j | 0 <= j < i :: xs[j].chunkId != x.chunkId;
      assert ys[i] == x && forall j | 0 <= j < i :: ys[j] == xs[j];
    }
    if !Found(before, h.chunkId) {
      assert forall j | 0 <= j < |xs| :: xs[j] in xs && ys[j] == xs[j];
    }
  }

  datatype Entry = Entry(score: real, id: Uuid)

  /** The sort key of the source, `(-score, str(chunk_id))`. */
  predicate RanksNoLater(a: Entry, b: Entry) {
    a.score > b.score || (a.score == b.score && a.id <= b.id)
  }

  function Entries(order: seq<Uuid>, scores: map<Uuid, real>): seq<Entry>
    requires forall id | id in order :: id in scores
  {
    seq(|order|, i requires 0 <= i < |order| => assert order[i] in order; Entry(scores[order[i]], order[i]))
  }

  /** Sorting the keys by score and identifier lists each once, strictly by rank. */
  lemma SortedEntries(order: seq<Uuid>, scores: map<Uuid, real>)
    requires forall id | id in order :: id in scores
    requires AllDifferent(order)
    ensures var s := SortBy(Entries(order, scores), RanksNoLater);
            && (forall e | e in s :: e.id in order && e.score == scores[e.id])
            && (forall id | id in order :: Entry(scores[id], id) in s)
            && forall i, j | 0 <= i < j < |s| :: Outranks(s[i].score, s[i].id, s[j].score, s[j].id)
  {
    hide SortBy;
    var es := Entries(order, scores);
    var s := SortBy(es, RanksNoLater);
    SortByContents(es, RanksNoLater);
    SortBySorted(es, RanksNoLater);
    SameMembers(es, s);
    forall id | id in order
      ensures Entry(scores[id], id) in s
    {
      var i :| 0 <= i < |order| && order[i] == id;
      assert es[i] == Entry(scores[id], id);
    }
    SortedStaysDistinct(es, s);
  }

  lemma SameMembers<T>(xs: seq<T>, ys: seq<T>)
    requires multiset(xs) == multiset(ys)
    ensures forall x :: x in xs <==> x in ys
  {
    assert forall x :: x in xs <==> x in multiset(xs);
    assert forall x :: x in ys <==> x in multiset(ys);
  }

  lemma SortedStaysDistinct<T>(xs: seq<T>, ys: seq<T>)
    requires AllDifferent(xs) && multiset(xs) == multiset(ys)
    ensures AllDifferent(ys)
  {
    SameMembers(xs, ys);
    DistinctBag(xs);
    BagDistinct(ys);
  }

  /** A list without repetitions has each element once in its multiset, and conversely. */
  lemma {:induction false} DistinctBag<T>(xs: seq<T>)
    requires AllDifferent(xs)
    ensures forall x | x in xs :: multiset(xs)[x] == 1
  {
    if |xs| > 0 {
      var n := |xs| - 1;
      DistinctBag(xs[..n]);
      assert xs == xs[..n] + [xs[n]];
      assert xs[n] !in multiset(xs[..n]);
    }
  }

  lemma BagDistinct<T>(xs: seq<T>)
    requires forall x | x in xs :: multiset(xs)[x] == 1
    ensures AllDifferent(xs)
  {
    forall i, j | 0 <= i < j < |xs|
      ensures xs[i] != xs[j]
    {
      var a, b := xs[..j], xs[j + 1..];
      assert xs == a + [xs[j]] + b;
      assert multiset(xs) == multiset(a) + multiset{xs[j]} + multiset(b);
      assert xs[j] in xs && multiset(a)[xs[j]] == 0;
      assert a[i] in multiset(a);
    }
  }

  lemma NothingTabulated(k: nat)
    requires k > 0
    ensures Tabulates(k, [], [], map[], map[], map[])
  {
  }

  lemma TabulateNextArm(
    k: nat, arms: seq<Arm>, weight: real, order: seq<Uuid>, scores: map<Uuid, real>,
    contributions: map<Uuid, seq<Contribution>>, exemplar: map<Uuid, Hit>)
    requires k > 0 && Tabulates(k, arms, order, scores, contributions, exemplar)
    ensures Tabulates(k, arms + [Arm([], weight)], order, scores, contributions, exemplar)
  {
    hide Score, Contributions, AllHits;
    NoHitsYet(k, arms, weight);
    assert forall id :: Found(arms + [Arm([], weight)], id) <==> Found(arms, id);
  }

  lemma DescribeKey(
    k: nat, arms: seq<Arm>, order: seq<Uuid>, scores: map<Uuid, real>,
    contributions: map<Uuid, seq<Contribution>>, exemplar: map<Uuid, Hit>, id: Uuid, rank: nat)
    requires k > 0 && Tabulates(k, arms, order, scores, contributions, exemplar) && id in order
    ensures id in scores && id in contributions && id in exemplar
    ensures Describes(
      k, arms, Fused(id, exemplar[id].text, scores[id], rank, FirstTerms(AllHits(arms), id), contributions[id]), rank)
  {
  }

  lemma KeysAreDistinct(
    k: nat, arms: seq<Arm>, order: seq<Uuid>, scores: map<Uuid, real>,
    contributions: map<Uuid, seq<Contribution>>, exemplar: map<Uuid, Hit>)
    requires k > 0 && Tabulates(k, arms, order, scores, contributions, exemplar)
    ensures forall id | id in order :: id in scores
    ensures AllDifferent(order)
    ensures forall id :: Found(arms, id) <==> id in order
  {
  }

  // ----- the function -----

  function DefaultWeights(n: nat): (r: seq<real>)
    ensures |r| == n && forall w | w in r :: w == 1.0
  {
    seq(n, _ => 1.0)
  }

  function ArmsOf(rankings: seq<seq<Hit>>, weights: seq<real>): seq<Arm>
    requires |rankings| == |weights|
  {
    seq(|rankings|, i requires 0 <= i < |rankings| => Arm(rankings[i], weights[i]))
  }

  /** `reciprocal_rank_fusion`. */
  method Fuse(rankings: seq<seq<Hit>>, k: int, weights: Option<seq<real>>) returns (r: Result<seq<Fused>, string>)
    ensures r.Failure? <==> (weights.Some? && |weights.value| != |rankings|) || k <= 0
    ensures r.Success? ==>
      IsFusion(k, ArmsOf(rankings, if weights.Some? then weights.value else DefaultWeights(|rankings|)), r.value)
  {
    hide Tabulates, Score, Contributions, AllHits, Describes, Found, FirstTerms, SortBy;
    var used := if weights.Some? then weights.value else DefaultWeights(|rankings|);
    if |used| != |rankings| {
      return Failure("weights must have one entry per ranking");
    }
    if k <= 0 {
      return Failure("k must be positive");
    }
    var arms := ArmsOf(rankings, used);
    var scores: map<Uuid, real> := map[];
    var contributions: map<Uuid, seq<Contribution>> := map[];
    var exemplar: map<Uuid, Hit> := map[];
    var order: seq<Uuid> := [];
    NothingTabulated(k);
    for n := 0 to |rankings|
      invariant Tabulates(k, arms[..n], order, scores, contributions, exemplar)
    {
      var ranking, weight := rankings[n], used[n];
      TabulateNextArm(k, arms[..n], weight, order, scores, contributions, exemplar);
      for position := 0 to |ranking|
        invariant Tabulates(k, arms[..n] + [Arm(ranking[..position], weight)], order, scores, contributions, exemplar)
      {
        var hit := ranking[position];
        var id := hit.chunkId;
        TabulateStep(k, arms[..n], Arm(ranking, weight), position, order, scores, contributions, exemplar);
        scores := scores[id := (if id in scores then scores[id] else 0.0) + Share(k, weight, position)];
        contributions := contributions[id :=
          (if id in contributions then contributions[id] else []) + [Contribution(hit.retriever, position, hit.score)]];
        if id !in exemplar {
          exemplar := exemplar[id := hit];
          order := order + [id];
        }
      }
      assert ranking[..|ranking|] == ranking;
      assert arms[..n] + [Arm(ranking, weight)] == arms[..n + 1];
    }
    assert arms[..|rankings|] == arms;
    KeysAreDistinct(k, arms, order, scores, contributions, exemplar);
    var ordered := SortBy(Entries(order, scores), RanksNoLater);
    SortedEntries(order, scores);
    var fused: seq<Fused> := [];
    for rank := 0 to |ordered|
      invariant |fused| == rank
      invariant forall i | 0 <= i < rank ::
        Describes(k, arms, fused[i], i) && fused[i].chunkId == ordered[i].id && fused[i].score == ordered[i].score
    {
      var id := ordered[rank].id;
      assert ordered[rank] in ordered;
      DescribeKey(k, arms, order, scores, contributions, exemplar, id, rank);
      fused := fused + [Fused(id, exemplar[id].text, scores[id], rank, FirstTerms(AllHits(arms), id), contributions[id])];
    }
    forall id
      ensures Found(arms, id) <==> exists i | 0 <= i < |fused| :: fused[i].chunkId == id
    {
      if id in order {
        var i :| 0 <= i < |ordered| && ordered[i] == Entry(scores[id], id);
        assert fused[i].chunkId == id;
      }
      if i :| 0 <= i < |fused| && fused[i].chunkId == id {
        assert ordered[i] in ordered;
      }
    }
    r := Success(fused);
  }
}
