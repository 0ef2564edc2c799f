/**
 "A chunk found by both arms outranks one found by either alone": when that is so.
 Then the two retrievers that fuse arms, backend/app/retrieval/hybrid.py and
 backend/app/retrieval/adaptive.py, and for which requests each keeps the promise.
 */
module Agreement {
  import opened Wrappers
  import opened Identifiers
  import opened Fractions
  import opened Sequences
  import opened Fusion
  import opened FusionLaws

  function Pair(a: seq<Hit>, v: real, b: seq<Hit>, w: real): seq<Arm> {
    [Arm(a, v), Arm(b, w)]
  }

  ghost predicate FoundByBoth(a: seq<Hit>, b: seq<Hit>, id: Uuid) {
    InRanking(a, id) && InRanking(b, id)
  }

  ghost predicate FoundByOne(a: seq<Hit>, b: seq<Hit>, id: Uuid) {
    (InRanking(a, id) || InRanking(b, id)) && !FoundByBoth(a, b, id)
  }

  /** Whatever two arms of at most this depth return, agreement ranks first. */
  ghost predicate AgreementWins(k: nat, v: real, w: real, depth: nat)
    requires k > 0
  {
    forall a, b, x, y |
      DistinctHits(a) && DistinctHits(b) && |a| <= depth && |b| <= depth && FoundByBoth(a, b, x) && FoundByOne(a, b, y) ::
      var arms := Pair(a, v, b, w);
      Outranks(Score(k, arms, x), x, Score(k, arms, y), y)
  }

  function Larger(v: real, w: real): real {
    if v < w then w else v
  }

  /** What a caller can check beforehand. */
  predicate ShallowEnough(k: nat, v: real, w: real, depth: nat) {
    depth <= 1 || (v > 0.0 && w > 0.0 && OutweighsBest(k, v, w, depth))
  }

  /** The last place in both arms is worth more than the best place in one. */
  predicate OutweighsBest(k: nat, v: real, w: real, depth: nat) {
    (v + w) * (k + 1) as real > Larger(v, w) * (k + depth) as real
  }

  lemma PairScore(k: nat, a: seq<Hit>, v: real, b: seq<Hit>, w: real, id: Uuid)
    requires k > 0
    ensures Score(k, Pair(a, v, b, w), id) == ArmScore(k, Arm(a, v), id) + ArmScore(k, Arm(b, w), id)
  {
    hide ArmScore;
    var arms := Pair(a, v, b, w);
    assert arms[..1] == [Arm(a, v)] && arms[..1][..0] == [];
    assert Score(k, [], id) == 0.0;
    assert Score(k, [Arm(a, v)], id) == ArmScore(k, Arm(a, v), id);
  }

  /** The range of what an arm can be worth to a chunk. */
  lemma ArmScoreRange(k: nat, arm: Arm, depth: nat, id: Uuid)
    requires k > 0 && arm.weight >= 0.0 && DistinctHits(arm.ranking) && |arm.ranking| <= depth
    ensures InRanking(arm.ranking, id) ==>
      depth > 0 && Share(k, arm.weight, depth - 1) <= ArmScore(k, arm, id) <= Share(k, arm.weight, 0)
    ensures !InRanking(arm.ranking, id) ==> ArmScore(k, arm, id) == 0.0
  {
    hide ArmScore, Share;
    if p :| 0 <= p < |arm.ranking| && arm.ranking[p].chunkId == id {
      ArmScoreAt(k, arm, p);
      ShareOrder(k, arm.weight, 0, p);
      ShareOrder(k, arm.weight, p, depth - 1);
    } else {
      NotInArm(k, arm, id);
    }
  }

  lemma SharesAdd(k: nat, v: real, w: real, p: nat)
    requires k > 0
    ensures Share(k, v, p) + Share(k, w, p) == Share(k, v + w, p)
  {
  }

  lemma ShareCompare(k: nat, u: real, p: nat, v: real, q: nat)
    requires k > 0
    ensures Share(k, u, p) < Share(k, v, q) <==> u * (k + q + 1) as real < v * (k + p + 1) as real
  {
    FractionOrder(u, (k + p + 1) as real, v, (k + q + 1) as real);
  }

  /** Arms of depth one cannot both find one chunk while one finds another. */
  lemma TwoPlaces(a: seq<Hit>, b: seq<Hit>, depth: nat, x: Uuid, y: Uuid)
    requires |a| <= depth && |b| <= depth && FoundByBoth(a, b, x) && FoundByOne(a, b, y)
    ensures depth > 1
  {
  }

  lemma ShallowSuffices(k: nat, v: real, w: real, depth: nat, a: seq<Hit>, b: seq<Hit>, x: Uuid, y: Uuid)
    requires k > 0 && ShallowEnough(k, v, w, depth)
    requires DistinctHits(a) && DistinctHits(b) && |a| <= depth && |b| <= depth
    requires FoundByBoth(a, b, x) && FoundByOne(a, b, y)
    ensures Score(k, Pair(a, v, b, w), x) > Score(k, Pair(a, v, b, w), y)
  {
    hide ArmScore, Share, Score, DistinctHits;
    TwoPlaces(a, b, depth, x, y);
    PairScore(k, a, v, b, w, x);
    PairScore(k, a, v, b, w, y);
    ArmScoreRange(k, Arm(a, v), depth, x);
    ArmScoreRange(k, Arm(b, w), depth, x);
    ArmScoreRange(k, Arm(a, v), depth, y);
    ArmScoreRange(k, Arm(b, w), depth, y);
    SharesAdd(k, v, w, depth - 1);
    var most := if v < w then w else v;
    ShareCompare(k, most, 0, v + w, depth - 1);
    ShareCompare(k, most, 0, v, 0);
    ShareCompare(k, most, 0, w, 0);
    assert v * (k + 1) as real <= most * (k + 1) as real;
    assert w * (k + 1) as real <= most * (k + 1) as real;
  }

  // ----- and it is necessary -----

  function HitOf(id: Uuid): (h: Hit)
    ensures h.chunkId == id
  {
    Hit(id, "", Semantic, 0.0, [])
  }

  /** `depth - 1` chunks of its own from `first` on, then the shared chunk. */
  function Run(first: nat, depth: nat, shared: Uuid): (r: seq<Hit>)
    requires depth > 0
    ensures |r| == depth
    ensures forall i | 0 <= i < depth :: r[i].chunkId == if i == depth - 1 then shared else first + i
    decreases depth
  {
    if depth == 1 then [HitOf(shared)] else [HitOf(first)] + Run(first + 1, depth - 1, shared)
  }

  lemma RunIs(first: nat, depth: nat, shared: Uuid)
    requires depth > 0 && shared >= first + depth
    ensures DistinctHits(Run(first, depth, shared))
    ensures forall id: Uuid :: InRanking(Run(first, depth, shared), id) <==> id == shared || first <= id < first + depth - 1
  {
    var r := Run(first, depth, shared);
    forall id: Uuid
      ensures InRanking(r, id) <==> id == shared || first <= id < first + depth - 1
    {
      if id == shared {
        assert r[depth - 1].chunkId == id;
      } else if first <= id < first + depth - 1 {
        assert r[id - first].chunkId == id;
      }
    }
  }

  /** With a negative weight, being found a second time never helps. */
  lemma WeightsMatter(k: nat, v: real, w: real, depth: nat)
    requires k > 0 && depth > 1 && Larger(v, w) >= 0.0 && !ShallowEnough(k, v, w, depth)
    ensures !OutweighsBest(k, v, w, depth)
  {
    if v <= 0.0 || w <= 0.0 {
      var most := Larger(v, w);
      assert (v + w) * (k + 1) as real <= most * (k + 1) as real;
      assert most * (k + depth) as real - most * (k + 1) as real == most * (depth - 1) as real >= 0.0;
    }
  }

  /** Two rankings that break the promise: the chunk both find is not first. */
  function Witness(v: real, w: real, depth: nat): (seq<Hit>, seq<Hit>)
    requires depth > 1
  {
    if Larger(v, w) < 0.0 then ([HitOf(1)], [HitOf(1), HitOf(0)])
    // The best single place belongs to the heavier arm, and holds the smallest identifier.
    else if v < w then (Run(depth, depth, 2 * depth), Run(0, depth, 2 * depth))
    else (Run(0, depth, 2 * depth), Run(depth, depth, 2 * depth))
  }

  function SharedByWitness(v: real, w: real, depth: nat): Uuid {
    if Larger(v, w) < 0.0 then 1 else 2 * depth
  }

  lemma WitnessShape(v: real, w: real, depth: nat)
    requires depth > 1
    ensures var (a, b) := Witness(v, w, depth);
            && DistinctHits(a) && DistinctHits(b) && |a| <= depth && |b| <= depth
            && FoundByBoth(a, b, SharedByWitness(v, w, depth)) && FoundByOne(a, b, 0)
  {
    hide Run;
    if Larger(v, w) < 0.0 {
      var b := [HitOf(1), HitOf(0)];
      assert [HitOf(1)][0].chunkId == 1 && b[0].chunkId == 1 && b[1].chunkId == 0;
    } else {
      RunIs(0, depth, 2 * depth);
      RunIs(depth, depth, 2 * depth);
    }
  }

  /** What two runs that share their last chunk are worth to a chunk together. */
  function RunsScore(k: nat, heavy: real, light: real, depth: nat, id: Uuid): real
    requires k > 0 && depth > 0
  {
    ArmScore(k, Arm(Run(0, depth, 2 * depth), heavy), id) + ArmScore(k, Arm(Run(depth, depth, 2 * depth), light), id)
  }

  lemma FirstOfRuns(k: nat, heavy: real, light: real, depth: nat, id: Uuid)
    requires k > 0 && depth > 1 && heavy >= light && heavy >= 0.0
    requires (heavy + light) * (k + 1) as real <= heavy * (k + depth) as real
    ensures RunsScore(k, heavy, light, depth, id) <= RunsScore(k, heavy, light, depth, 0)
  {
    hide Run, ArmScore, Share, DistinctHits;
    var x := 2 * depth;
    RunScores(k, heavy, 0, depth, x);
    RunScores(k, light, depth, depth, x);
    if id == x {
      SharesAdd(k, heavy, light, depth - 1);
      ShareCompare(k, heavy, 0, heavy + light, depth - 1);
    } else {
      OwnScore(k, heavy, 0, depth, x, id);
      OwnScore(k, light, depth, depth, x, id);
      ShareOfLarger(k, heavy, light);
    }
  }

  lemma ShareOfLarger(k: nat, heavy: real, light: real)
    requires k > 0 && heavy >= light
    ensures Share(k, light, 0) <= Share(k, heavy, 0)
    ensures heavy >= 0.0 ==> Share(k, heavy, 0) >= 0.0
  {
    hide Share;
    ShareCompare(k, heavy, 0, light, 0);
    assert (heavy - light) * (k + 1) as real >= 0.0;
    if heavy >= 0.0 {
      ShareOrder(k, heavy, 0, 0);
    }
  }

  /** In the fusion of the witness, nothing comes before the chunk only one arm found. */
  lemma WitnessScores(k: nat, v: real, w: real, depth: nat, id: Uuid)
    requires k > 0 && depth > 1 && !ShallowEnough(k, v, w, depth) && id != 0
    requires var (a, b) := Witness(v, w, depth); InRanking(a, id) || InRanking(b, id)
    ensures var (a, b) := Witness(v, w, depth);
            var arms := Pair(a, v, b, w);
            Outranks(Score(k, arms, 0), 0, Score(k, arms, id), id)
  {
    hide Run, ArmScore, Share, Score, InRanking, DistinctHits;
    if Larger(v, w) < 0.0 {
      NegativeScores(k, v, w, id);
    } else {
      var (a, b) := Witness(v, w, depth);
      WeightsMatter(k, v, w, depth);
      PairScore(k, a, v, b, w, 0);
      PairScore(k, a, v, b, w, id);
      FirstOfRuns(k, Larger(v, w), if v < w then v else w, depth, id);
    }
  }

  /** A chunk of a run's own is worth no more than the run's first place, or nothing. */
  lemma OwnScore(k: nat, weight: real, first: nat, depth: nat, shared: Uuid, id: Uuid)
    requires k > 0 && depth > 1 && shared >= first + depth && id != shared
    ensures var score := ArmScore(k, Arm(Run(first, depth, shared), weight), id);
            if first <= id < first + depth - 1 then score <= (if weight > 0.0 then Share(k, weight, 0) else 0.0) else score == 0.0
  {
    hide ArmScore, Share, Run;
    var arm := Arm(Run(first, depth, shared), weight);
    RunIs(first, depth, shared);
    if first <= id < first + depth - 1 {
      var p := id - first;
      assert arm.ranking[p].chunkId == id;
      ArmScoreAt(k, arm, p);
      if weight > 0.0 {
        ShareOrder(k, weight, 0, p);
      } else {
        ShareSign(k, weight, p);
      }
    } else {
      forall h | h in arm.ranking
        ensures h.chunkId != id
      {
        var i :| 0 <= i < |arm.ranking| && arm.ranking[i] == h;
        assert InRanking(arm.ranking, h.chunkId);
      }
      NotInArm(k, arm, id);
    }
  }

  lemma ShareSign(k: nat, weight: real, p: nat)
    requires k > 0 && weight <= 0.0
    ensures Share(k, weight, p) <= 0.0
    ensures weight < 0.0 ==> Share(k, weight, p) < 0.0
  {
    FractionOrder(weight, (k + p + 1) as real, 0.0, 1.0);
    FractionOrder(0.0, 1.0, weight, (k + p + 1) as real);
  }

  /** Two negative weights: being found twice, and early, is worst. */
  lemma NegativeScores(k: nat, v: real, w: real, id: Uuid)
    requires k > 0 && v < 0.0 && w < 0.0 && id != 0
    requires InRanking([HitOf(1)], id) || InRanking([HitOf(1), HitOf(0)], id)
    ensures Score(k, Pair([HitOf(1)], v, [HitOf(1), HitOf(0)], w), id) < Score(k, Pair([HitOf(1)], v, [HitOf(1), HitOf(0)], w), 0)
  {
    hide ArmScore, Share, Score;
    var a, b := [HitOf(1)], [HitOf(1), HitOf(0)];
    assert id == 1;
    PairScore(k, a, v, b, w, 1);
    PairScore(k, a, v, b, w, 0);
    ArmScoreAt(k, Arm(a, v), 0);
    ArmScoreAt(k, Arm(b, w), 0);
    ArmScoreAt(k, Arm(b, w), 1);
    NotInArm(k, Arm(a, v), 0);
    ShareSign(k, v, 0);
    ShareCompare(k, w, 0, w, 1);
    assert w * (k + 2) as real == w * (k + 1) as real + w;
  }

  lemma DeepFails(k: nat, v: real, w: real, depth: nat)
    requires k > 0 && !ShallowEnough(k, v, w, depth)
    ensures !AgreementWins(k, v, w, depth)
  {
    hide Score, DistinctHits, InRanking, Witness, FoundByOne;
    var (a, b) := Witness(v, w, depth);
    var x := SharedByWitness(v, w, depth);
    WitnessShape(v, w, depth);
    WitnessScores(k, v, w, depth, x);
    var arms := Pair(a, v, b, w);
    assert FoundByBoth(a, b, x) && FoundByOne(a, b, 0);
    assert !Outranks(Score(k, arms, x), x, Score(k, arms, 0), 0);
  }

  lemma RunScores(k: nat, weight: real, first: nat, depth: nat, shared: Uuid)
    requires k > 0 && depth > 1 && shared >= first + depth
    ensures ArmScore(k, Arm(Run(first, depth, shared), weight), shared) == Share(k, weight, depth - 1)
    ensures ArmScore(k, Arm(Run(first, depth, shared), weight), 0) == if first == 0 then Share(k, weight, 0) else 0.0
  {
    hide ArmScore, Share;
    var arm := Arm(Run(first, depth, shared), weight);
    RunIs(first, depth, shared);
    assert arm.ranking[depth - 1].chunkId == shared;
    ArmScoreAt(k, arm, depth - 1);
    if first == 0 {
      assert arm.ranking[0].chunkId == 0;
      ArmScoreAt(k, arm, 0);
    } else {
      forall h | h in arm.ranking
        ensures h.chunkId != 0
      {
        var i :| 0 <= i < |arm.ranking| && arm.ranking[i] == h;
      }
      NotInArm(k, arm, 0);
    }
  }

  /** The promise holds for all rankings of a depth exactly when the weights, whatever
      their sign, carry it. */
  lemma AgreementWinsIff(k: nat, v: real, w: real, depth: nat)
    requires k > 0
    ensures AgreementWins(k, v, w, depth) <==> ShallowEnough(k, v, w, depth)
  {
    hide Score, DistinctHits, FoundByBoth, FoundByOne;
    if ShallowEnough(k, v, w, depth) {
      forall a, b, x, y |
        DistinctHits(a) && DistinctHits(b) && |a| <= depth && |b| <= depth && FoundByBoth(a, b, x) && FoundByOne(a, b, y)
        ensures var arms := Pair(a, v, b, w); Outranks(Score(k, arms, x), x, Score(k, arms, y), y)
      {
        ShallowSuffices(k, v, w, depth, a, b, x, y);
      }
    } else {
      DeepFails(k, v, w, depth);
    }
  }

  /** With equal weights the arms may be one deeper than the constant. */
  lemma EqualWeights(k: nat, w: real, depth: nat)
    requires k > 0 && w > 0.0
    ensures ShallowEnough(k, w, w, depth) <==> depth <= k + 1
  {
    var x, y := (k + 1) as real, (k + depth) as real;
    var slack := 2.0 * x - y;
    assert (w + w) * x - w * y == w * slack;
    assert slack == (k + 2 - depth) as real;
    if depth <= k + 1 {
      assert w * slack > 0.0;
    } else {
      assert w * slack <= 0.0;
    }
  }

  // ----- retrievers -----

  /** A retriever, whatever is behind it: a function of the query and how many hits to return. */
  type Search = nat -> seq<Hit>

  /** At most the number asked for, and no chunk twice. */
  ghost predicate Returns(search: Search) {
    forall n :: |search(n)| <= n && DistinctHits(search(n))
  }

  const RRF_K := 60
  const DEFAULT_FETCH_MULTIPLIER := 3
  const MIN_FETCH_K := 20

  /** Deep enough for the multiple asked for and for a small request, and no deeper. */
  function FetchK(topK: nat, multiplier: nat): (depth: nat)
    ensures depth >= topK * multiplier && depth >= 20 && (depth == topK * multiplier || depth == 20)
  {
    if topK * multiplier < MIN_FETCH_K then MIN_FETCH_K else topK * multiplier
  }

  ghost predicate FusedTop(k: nat, arms: seq<Arm>, topK: nat, result: seq<Fused>)
    requires k > 0
  {
    exists fused :: IsFusion(k, arms, fused) && result == if |fused| < topK then fused else fused[..topK]
  }

  /** `HybridRetriever.retrieve`. */
  method HybridRetrieve(dense: Search, keyword: Search, k: int, multiplier: nat, weights: Option<seq<real>>, topK: nat)
    returns (r: Result<seq<Fused>, string>)
    ensures r.Failure? <==> k <= 0 || (weights.Some? && |weights.value| != 2)
    ensures r.Success? ==>
      var w := if weights.Some? then weights.value else [1.0, 1.0];
      exists depth: nat ::
        && depth >= topK * multiplier && depth >= 20 && (depth == topK * multiplier || depth == 20)
        && FusedTop(k, Pair(dense(depth), w[0], keyword(depth), w[1]), topK, r.value)
  {
    hide IsFusion;
    var deep := FetchK(topK, multiplier);
    var denseHits, keywordHits := dense(deep), keyword(deep);
    var fused := Fuse([denseHits, keywordHits], k, weights);
    match fused
    case Failure(e) => r := Failure(e);
    case Success(all) =>
      ghost var w := if weights.Some? then weights.value else [1.0, 1.0];
      assert DefaultWeights(2) == [1.0, 1.0];
      assert ArmsOf([denseHits, keywordHits], w) == Pair(denseHits, w[0], keywordHits, w[1]);
      r := Success(if |all| < topK then all else all[..topK]);
      assert FusedTop(k, Pair(dense(deep), w[0], keyword(deep), w[1]), topK, r.value);
  }

  /** Of what a default hybrid search fuses: every chunk either arm returned when asked
      for three times as many as wanted, and for twenty at least, at whatever place, is
      fused with that arm's contribution. */
  lemma HybridFusesThePool(dense: Search, keyword: Search, topK: nat, fused: seq<Fused>, p: nat)
    requires var depth := if 3 * topK < 20 then 20 else 3 * topK;
             && IsFusion(RRF_K, Pair(dense(depth), 1.0, keyword(depth), 1.0), fused)
    ensures FetchK(topK, DEFAULT_FETCH_MULTIPLIER) == if 3 * topK < 20 then 20 else 3 * topK
    ensures var depth := if 3 * topK < 20 then 20 else 3 * topK;
            && (p < |dense(depth)| ==> FusedFrom(fused, dense(depth)[p], p))
            && (p < |keyword(depth)| ==> FusedFrom(fused, keyword(depth)[p], p))
  {
    hide IsFusion;
    var depth := if 3 * topK < 20 then 20 else 3 * topK;
    var arms := Pair(dense(depth), 1.0, keyword(depth), 1.0);
    if p < |dense(depth)| {
      EveryHitIsFused(RRF_K, arms, fused, 0, p);
    }
    if p < |keyword(depth)| {
      EveryHitIsFused(RRF_K, arms, fused, 1, p);
    }
  }

  /** The hit is among the results, with its place among the contributions. */
  ghost predicate FusedFrom(fused: seq<Fused>, hit: Hit, place: nat) {
    exists i | 0 <= i < |fused| ::
      fused[i].chunkId == hit.chunkId && Contribution(hit.retriever, place, hit.score) in fused[i].contributions
  }

  /** A shallow enough fusion, cut to its first results, keeps agreement first and
      never cuts it off in favour of a chunk only one arm found. */
  lemma TopKeepsAgreement(k: nat, a: seq<Hit>, v: real, b: seq<Hit>, w: real, depth: nat, topK: nat, result: seq<Fused>, x: Uuid, j: nat)
    requires k > 0 && AgreementWins(k, v, w, depth)
    requires DistinctHits(a) && DistinctHits(b) && |a| <= depth && |b| <= depth
    requires FusedTop(k, Pair(a, v, b, w), topK, result)
    requires FoundByBoth(a, b, x) && j < |result| && FoundByOne(a, b, result[j].chunkId)
    ensures exists i | 0 <= i < j :: result[i].chunkId == x
  {
    hide Score, DistinctHits, InRanking, Describes;
    var arms := Pair(a, v, b, w);
    var fused: seq<Fused> :| IsFusion(k, arms, fused) && result == if |fused| < topK then fused else fused[..topK];
    FoundInArms(arms, x);
    assert arms[0] in arms && InRanking(arms[0].ranking, x);
    var i :| 0 <= i < |fused| && fused[i].chunkId == x;
    PlaceIsRank(k, arms, fused, i, j);
    assert result[i] == fused[i];
  }

  /** Every chunk both arms found comes before every chunk one found. */
  ghost predicate AgreementFirst(a: seq<Hit>, b: seq<Hit>, result: seq<Fused>) {
    forall x, j | FoundByBoth(a, b, x) && 0 <= j < |result| && FoundByOne(a, b, result[j].chunkId) ::
      Precedes(result, x, j)
  }

  ghost predicate Precedes(result: seq<Fused>, x: Uuid, j: int) {
    exists i | 0 <= i < j :: i < |result| && result[i].chunkId == x
  }

  /** Whatever two retrievers are fused at this depth, what comes back keeps the promise. */
  ghost predicate ResultsKeepPromise(k: nat, v: real, w: real, depth: nat, topK: nat)
    requires k > 0
  {
    forall dense: Search, keyword: Search, result |
      Returns(dense) && Returns(keyword) && FusedTop(k, Pair(dense(depth), v, keyword(depth), w), topK, result) ::
      AgreementFirst(dense(depth), keyword(depth), result)
  }

  lemma ShallowResults(k: nat, v: real, w: real, depth: nat, topK: nat, a: seq<Hit>, b: seq<Hit>, result: seq<Fused>)
    requires k > 0 && (topK == 0 || ShallowEnough(k, v, w, depth))
    requires DistinctHits(a) && DistinctHits(b) && |a| <= depth && |b| <= depth
    requires FusedTop(k, Pair(a, v, b, w), topK, result)
    ensures AgreementFirst(a, b, result)
  {
    hide FoundByBoth, FoundByOne, AgreementWins, DistinctHits, IsFusion;
    if topK > 0 {
      AgreementWinsIff(k, v, w, depth);
      forall x, j | FoundByBoth(a, b, x) && 0 <= j < |result| && FoundByOne(a, b, result[j].chunkId)
        ensures Precedes(result, x, j)
      {
        TopKeepsAgreement(k, a, v, b, w, depth, topK, result, x, j);
      }
    }
  }

  /** In the fusion of the witness, the first result is the chunk one arm found. */
  lemma WitnessIsFirst(k: nat, v: real, w: real, depth: nat, fused: seq<Fused>)
    requires k > 0 && depth > 1 && !ShallowEnough(k, v, w, depth)
    requires var (a, b) := Witness(v, w, depth); IsFusion(k, Pair(a, v, b, w), fused)
    ensures |fused| > 0 && fused[0].chunkId == 0
  {
    hide Witness, Score, ArmScore, InRanking, Describes, ShallowEnough;
    var (a, b) := Witness(v, w, depth);
    var arms := Pair(a, v, b, w);
    WitnessShape(v, w, depth);
    assert arms[0] in arms && arms[1] in arms;
    FoundInArms(arms, 0);
    var i :| 0 <= i < |fused| && fused[i].chunkId == 0;
    var first := fused[0].chunkId;
    assert Found(arms, first);
    FoundInArms(arms, first);
    if first != 0 {
      WitnessScores(k, v, w, depth, first);
      PlaceIsRank(k, arms, fused, i, 0);
    }
  }

  /** A retriever that has this list, if it is asked for enough. */
  function Fixed(hits: seq<Hit>): Search {
    (n: nat) => if |hits| <= n then hits else []
  }

  lemma DeepResults(k: nat, v: real, w: real, depth: nat, topK: nat)
    requires k > 0 && topK > 0 && !ShallowEnough(k, v, w, depth)
    ensures !ResultsKeepPromise(k, v, w, depth, topK)
  {
    hide Witness, FoundByBoth, FoundByOne, IsFusion, ShallowEnough, DistinctHits;
    DepthBeyondOne(k, v, w, depth);
    var (a, b) := Witness(v, w, depth);
    WitnessShape(v, w, depth);
    var dense, keyword := Fixed(a), Fixed(b);
    assert DistinctHits([]) by { NothingDistinct(); }
    assert Returns(dense) && Returns(keyword);
    var arms := Pair(a, v, b, w);
    FusionExists(k, arms);
    var fused: seq<Fused> :| IsFusion(k, arms, fused);
    WitnessIsFirst(k, v, w, depth, fused);
    var result := if |fused| < topK then fused else fused[..topK];
    assert FusedTop(k, arms, topK, result);
    assert result[0].chunkId == 0;
    assert !Precedes(result, SharedByWitness(v, w, depth), 0);
    assert !AgreementFirst(dense(depth), keyword(depth), result);
  }

  lemma DepthBeyondOne(k: nat, v: real, w: real, depth: nat)
    requires !ShallowEnough(k, v, w, depth)
    ensures depth > 1
  {
  }

  lemma NothingDistinct()
    ensures DistinctHits([])
  {
  }

  /** What comes back keeps the promise, for all retrievers, exactly when nothing is
      asked for or the weights carry it at the depth fetched. */
  lemma ResultsKeepPromiseIff(k: nat, v: real, w: real, depth: nat, topK: nat)
    requires k > 0
    ensures ResultsKeepPromise(k, v, w, depth, topK) <==> topK == 0 || ShallowEnough(k, v, w, depth)
  {
    hide FusedTop, AgreementFirst, ShallowEnough, DistinctHits, Pair;
    if topK == 0 || ShallowEnough(k, v, w, depth) {
      forall dense: Search, keyword: Search, result |
        Returns(dense) && Returns(keyword) && FusedTop(k, Pair(dense(depth), v, keyword(depth), w), topK, result)
        ensures AgreementFirst(dense(depth), keyword(depth), result)
      {
        ShallowResults(k, v, w, depth, topK, dense(depth), keyword(depth), result);
      }
    } else {
      DeepResults(k, v, w, depth, topK);
    }
  }

  /** What the default hybrid retriever returns keeps the promise up to twenty results
      and no further. */
  lemma HybridPromiseIff(topK: nat)
    ensures ResultsKeepPromise(RRF_K, 1.0, 1.0, FetchK(topK, DEFAULT_FETCH_MULTIPLIER), topK) <==> topK <= 20
  {
    hide ResultsKeepPromise;
    ResultsKeepPromiseIff(RRF_K, 1.0, 1.0, FetchK(topK, DEFAULT_FETCH_MULTIPLIER), topK);
    EqualWeights(RRF_K, 1.0, FetchK(topK, DEFAULT_FETCH_MULTIPLIER));
  }

  /** What a default hybrid search returns for up to twenty results. */
  lemma HybridAgreementFirst(dense: Search, keyword: Search, topK: nat, result: seq<Fused>, x: Uuid, j: nat)
    requires Returns(dense) && Returns(keyword) && topK <= 20
    requires var n := FetchK(topK, DEFAULT_FETCH_MULTIPLIER);
             && FusedTop(RRF_K, Pair(dense(n), 1.0, keyword(n), 1.0), topK, result)
             && FoundByBoth(dense(n), keyword(n), x) && j < |result| && FoundByOne(dense(n), keyword(n), result[j].chunkId)
    ensures exists i | 0 <= i < j :: result[i].chunkId == x
  {
    hide AgreementWins, FusedTop, FoundByBoth, FoundByOne;
    var n := FetchK(topK, DEFAULT_FETCH_MULTIPLIER);
    AgreementWinsIff(RRF_K, 1.0, 1.0, n);
    EqualWeights(RRF_K, 1.0, n);
    assert |dense(n)| <= n && |keyword(n)| <= n;
    TopKeepsAgreement(RRF_K, dense(n), 1.0, keyword(n), 1.0, n, topK, result, x, j);
  }

  // ----- the laws of fusion, for what is returned -----

  /** As many results as were asked for, or as there are chunks. */
  lemma ReturnedLength(k: nat, arms: seq<Arm>, topK: nat, result: seq<Fused>)
    requires k > 0 && FusedTop(k, arms, topK, result)
    ensures AllDifferent(Ids(result)) && |result| == if |FoundIds(arms)| < topK then |FoundIds(arms)| else topK
  {
    hide IsFusion, FoundIds;
    var fused: seq<Fused> :| IsFusion(k, arms, fused) && result == if |fused| < topK then fused else fused[..topK];
    OneResultEach(k, arms, fused);
    assert forall i | 0 <= i < |result| :: Ids(result)[i] == Ids(fused)[i];
  }

  /** What is ahead in every arm is ahead in what is returned, and not cut off instead. */
  lemma ReturnedUnanimity(k: nat, arms: seq<Arm>, topK: nat, result: seq<Fused>, a: Uuid, j: nat)
    requires k > 0 && FusedTop(k, arms, topK, result) && j < |result|
    requires Unanimous(arms, a, result[j].chunkId)
    ensures Precedes(result, a, j)
  {
    hide Unanimous, Describes;
    var b := result[j].chunkId;
    var fused: seq<Fused> :| IsFusion(k, arms, fused) && result == if |fused| < topK then fused else fused[..topK];
    assert fused[j].chunkId == b;
    UnanimityIsRespected(k, arms, fused, a, b);
    var i, j' :| 0 <= i < j' < |fused| && fused[i].chunkId == a && fused[j'].chunkId == b;
    OneResultEach(k, arms, fused);
    assert Ids(fused)[j] == Ids(fused)[j'];
    assert result[i] == fused[i];
  }

  /** When one arm alone returned anything, its first results are what is returned. */
  lemma ReturnedArm(k: nat, arms: seq<Arm>, t: nat, topK: nat, result: seq<Fused>)
    requires k > 0 && t < |arms| && FusedTop(k, arms, topK, result)
    requires forall s | 0 <= s < |arms| && s != t :: arms[s].ranking == []
    requires arms[t].weight > 0.0 && DistinctHits(arms[t].ranking)
    ensures var own := HitIds(arms[t].ranking); Ids(result) == if |own| < topK then own else own[..topK]
  {
    hide IsFusion, DistinctHits;
    var fused: seq<Fused> :| IsFusion(k, arms, fused) && result == if |fused| < topK then fused else fused[..topK];
    OneArmIsReproduced(k, arms, t, fused);
    assert forall i | 0 <= i < |result| :: Ids(result)[i] == Ids(fused)[i];
  }

  // ----- adaptive retrieval -----

  datatype QueryType = Conceptual | ExactEntity | Technical | Numeric | MultiHop | Comparative | Temporal | Ambiguous

  datatype Profile = Profile(semanticWeight: real, keywordWeight: real, fetchMultiplier: int) {
    /** `RetrievalProfile.__post_init__`. */
    predicate Valid() {
      && semanticWeight >= 0.0 && keywordWeight >= 0.0
      && !(semanticWeight == 0.0 && keywordWeight == 0.0)
      && fetchMultiplier >= 1
    }
  }

  function DefaultProfile(t: QueryType): (p: Profile)
    ensures p.Valid()
  {
    match t
    case Conceptual => Profile(0.75, 0.25, 3)
    case ExactEntity => Profile(0.25, 0.75, 3)
    case Technical => Profile(0.5, 0.5, 3)
    case Numeric => Profile(0.5, 0.5, 3)
    case MultiHop => Profile(0.5, 0.5, 5)
    case Comparative => Profile(0.6, 0.4, 5)
    case Temporal => Profile(0.5, 0.5, 3)
    case Ambiguous => Profile(0.5, 0.5, 5)
  }

  class AdaptiveRetriever {
    const dense: Search
    const keyword: Search
    const analyze: string -> QueryType
    const profiles: map<QueryType, Profile>
    const fallback: Profile
    const k: int
    var lastAnalysis: Option<QueryType>
    var lastProfile: Option<Profile>

    constructor (dense: Search, keyword: Search, analyze: string -> QueryType, profiles: map<QueryType, Profile>, fallback: Profile, k: int)
      ensures this.dense == dense && this.keyword == keyword && this.analyze == analyze
      ensures this.profiles == profiles && this.fallback == fallback && this.k == k
      ensures lastAnalysis == None && lastProfile == None
    {
      this.dense, this.keyword, this.analyze := dense, keyword, analyze;
      this.profiles, this.fallback, this.k := profiles, fallback, k;
      lastAnalysis, lastProfile := None, None;
    }

    /** `RuleBasedRetrievalPolicy.profile_for`. */
    function ProfileFor(t: QueryType): Profile {
      if t in profiles then profiles[t] else fallback
    }

    /** Weights and pool come from the query; the caller still gets `topK` results. */
    method Retrieve(text: string, topK: nat) returns (r: Result<seq<Fused>, string>)
      requires ProfileFor(analyze(text)).Valid()
      modifies this
      ensures lastAnalysis == Some(analyze(text))
      ensures lastProfile == Some(if analyze(text) in profiles then profiles[analyze(text)] else fallback)
      ensures r.Failure? <==> k <= 0
      ensures r.Success? ==>
        var p := if analyze(text) in profiles then profiles[analyze(text)] else fallback;
        var deep := topK * p.fetchMultiplier;
        FusedTop(k, Pair(dense(deep), p.semanticWeight, keyword(deep), p.keywordWeight), topK, r.value)
    {
      hide IsFusion;
      var t := analyze(text);
      var p := ProfileFor(t);
      lastAnalysis, lastProfile := Some(t), Some(p);
      var deep := topK * p.fetchMultiplier;
      var denseHits, keywordHits := dense(deep), keyword(deep);
      var weights := [p.semanticWeight, p.keywordWeight];
      var fused := Fuse([denseHits, keywordHits], k, Some(weights));
      match fused
      case Failure(e) => r := Failure(e);
      case Success(all) =>
        assert ArmsOf([denseHits, keywordHits], weights) == Pair(denseHits, p.semanticWeight, keywordHits, p.keywordWeight);
        r := Success(if |all| < topK then all else all[..topK]);
    }
  }

  /** How many results each kind of query may ask for under the default profiles. */
  function PromisedTopK(t: QueryType): nat {
    match t
    case Conceptual => 7
    case ExactEntity => 7
    case Technical => 20
    case Numeric => 20
    case MultiHop => 12
    case Comparative => 8
    case Temporal => 20
    case Ambiguous => 12
  }

  /** What adaptive retrieval returns keeps the promise up to these sizes and no
      further; a conceptual query at the default ten results is beyond them. */
  lemma AdaptivePromiseIff(t: QueryType, topK: nat)
    ensures var p := DefaultProfile(t);
            ResultsKeepPromise(RRF_K, p.semanticWeight, p.keywordWeight, topK * p.fetchMultiplier, topK) <==> topK <= PromisedTopK(t)
  {
    hide ResultsKeepPromise;
    var p := DefaultProfile(t);
    ResultsKeepPromiseIff(RRF_K, p.semanticWeight, p.keywordWeight, topK * p.fetchMultiplier, topK);
  }

  // ----- which arm leads -----

  /** Among chunks one arm alone found, at the same place in theirs: the heavier arm's
      is placed first, and with equal weights the smaller identifier. */
  lemma HeavierArmLeads(k: nat, a: seq<Hit>, v: real, b: seq<Hit>, w: real, q: nat, fused: seq<Fused>)
    requires k > 0 && IsFusion(k, Pair(a, v, b, w), fused) && q < |a| && q < |b| && DistinctHits(a) && DistinctHits(b)
    requires !InRanking(b, a[q].chunkId) && !InRanking(a, b[q].chunkId)
    ensures exists i, j | 0 <= i < |fused| && 0 <= j < |fused| ::
      && fused[i].chunkId == a[q].chunkId && fused[j].chunkId == b[q].chunkId
      && (i < j <==> v > w || (v == w && a[q].chunkId < b[q].chunkId))
  {
    hide Score, DistinctHits, Describes;
    var arms := Pair(a, v, b, w);
    var x, y := a[q].chunkId, b[q].chunkId;
    EveryHitIsFused(k, arms, fused, 0, q);
    EveryHitIsFused(k, arms, fused, 1, q);
    var i :| 0 <= i < |fused| && fused[i].chunkId == x;
    var j :| 0 <= j < |fused| && fused[j].chunkId == y;
    SoleFinderScore(k, arms, 0, q);
    SoleFinderScore(k, arms, 1, q);
    ProductOrder(Score(k, arms, x), Score(k, arms, y), (k + q + 1) as real);
    PlaceIsRank(k, arms, fused, i, j);
  }

  lemma ProductOrder(s: real, t: real, n: real)
    requires n > 0.0
    ensures s > t <==> s * n > t * n
    ensures s == t <==> s * n == t * n
  {
    FractionOrder(s * n, n, t * n, n);
    FractionOrder(t * n, n, s * n, n);
    assert s * n / n == s && t * n / n == t;
  }

  /** Which arm leads by default: the dense one for conceptual and comparative queries,
      the keyword one for exact entities, neither otherwise. */
  lemma LeadingArm(t: QueryType, a: seq<Hit>, b: seq<Hit>, q: nat, fused: seq<Fused>)
    requires q < |a| && q < |b| && DistinctHits(a) && DistinctHits(b)
    requires !InRanking(b, a[q].chunkId) && !InRanking(a, b[q].chunkId)
    requires IsFusion(RRF_K, Pair(a, DefaultProfile(t).semanticWeight, b, DefaultProfile(t).keywordWeight), fused)
    ensures exists i, j | 0 <= i < |fused| && 0 <= j < |fused| ::
      && fused[i].chunkId == a[q].chunkId && fused[j].chunkId == b[q].chunkId
      && (i < j <==> match t
                     case Conceptual => true
                     case Comparative => true
                     case ExactEntity => false
                     case _ => a[q].chunkId < b[q].chunkId)
  {
    hide IsFusion, DistinctHits, InRanking;
    var p := DefaultProfile(t);
    HeavierArmLeads(RRF_K, a, p.semanticWeight, b, p.keywordWeight, q, fused);
  }

  /** The default weights of an arm share out one, and pools are three or five times what is wanted. */
  lemma DefaultsAreShares(t: QueryType)
    ensures var p := DefaultProfile(t);
            && p.semanticWeight + p.keywordWeight == 1.0
            && p.fetchMultiplier == if t.MultiHop? || t.Comparative? || t.Ambiguous? then 5 else 3
  {
  }
}
