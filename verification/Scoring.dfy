/**
 Per-item scores and their aggregation: backend/evaluation/scoring.py with the
 citation metrics of backend/evaluation/metrics/citation.py.
 */
module Scoring {
  import opened Wrappers
  import opened Identifiers
  import opened Sequences
  import opened RetrievalMetrics
  import opened Grounding

  datatype ClaimCitations = ClaimCitations(text: string, cited: seq<Uuid>)

  // ----- citation metrics -----

  function CitationPrecision(cited: set<Uuid>, gold: set<Uuid>): Option<real> {
    if |gold| == 0 || |cited| == 0 then None else Some(|cited * gold| as real / |cited| as real)
  }

  function CitationRecall(cited: set<Uuid>, gold: set<Uuid>): Option<real> {
    if |gold| == 0 then None else Some(|cited * gold| as real / |gold| as real)
  }

  function EvidenceCoverage(cited: set<Uuid>, retrieved: seq<Uuid>): Option<real> {
    if |retrieved| == 0 || |Members(retrieved)| == 0 then None
    else Some(|cited * Members(retrieved)| as real / |Members(retrieved)| as real)
  }

  function Uncited(claims: seq<ClaimCitations>): nat {
    if |claims| == 0 then 0 else Uncited(claims[..|claims| - 1]) + if |claims[|claims| - 1].cited| == 0 then 1 else 0
  }

  function UnsupportedClaimRate(claims: seq<ClaimCitations>): Option<real> {
    if |claims| == 0 then None else Some(Uncited(claims) as real / |claims| as real)
  }

  function TotalCited(claims: seq<ClaimCitations>): nat {
    if |claims| == 0 then 0 else TotalCited(claims[..|claims| - 1]) + |claims[|claims| - 1].cited|
  }

  function CountIn(ids: seq<Uuid>, available: set<Uuid>): nat {
    if |ids| == 0 then 0 else CountIn(ids[..|ids| - 1], available) + if ids[|ids| - 1] in available then 1 else 0
  }

  function ValidCited(claims: seq<ClaimCitations>, available: set<Uuid>): nat {
    if |claims| == 0 then 0
    else ValidCited(claims[..|claims| - 1], available) + CountIn(claims[|claims| - 1].cited, available)
  }

  function CitationValidity(claims: seq<ClaimCitations>, retrieved: seq<Uuid>): Option<real> {
    if TotalCited(claims) == 0 then None
    else Some(ValidCited(claims, Members(retrieved)) as real / TotalCited(claims) as real)
  }

  // ----- items -----

  datatype Item = Item(goldChunks: seq<Uuid>, expectsAbstention: bool)

  datatype Latencies = Latencies(total: Option<real>, retrieval: Option<real>, generation: Option<real>)

  const UNTIMED := Latencies(None, None, None)

  datatype Observation = Observation(
    retrieved: seq<Uuid>, claims: seq<ClaimCitations>, abstained: bool,
    inputTokens: int, outputTokens: int, cost: Option<real>, latencies: Latencies, errorCode: Option<string>)
  {
    predicate Erred() {
      errorCode.Some? && errorCode.value != ""
    }

    function Cited(): set<Uuid> {
      set c, id | c in claims && id in c.cited :: id
    }
  }

  datatype Metric =
    | Recall(k: int) | Precision(k: int) | HitRate(k: int) | Ndcg(k: int) | Mrr
    | CitedPrecision | CitedRecall | CitedValidity | Coverage | UnsupportedRate | AbstentionCorrect
    | InputTokens | OutputTokens | TotalTokens | Cost | LatencyMs | RetrievalLatencyMs | GenerationLatencyMs | FailedFlag

  datatype Category =
    | ExecutionError | RetrievalMiss | OverAbstention | AnsweredWithoutEvidence | InventedCitation | UnsupportedClaim

  datatype ItemScore = ItemScore(metrics: map<Metric, Option<real>>, failureCategory: Option<Category>)

  function Flag(b: bool): real {
    if b then 1.0 else 0.0
  }

  function ToOption(m: Measured): Option<real> {
    if m.Value? then Some(m.value) else None
  }

  /** `_categorise`: the first reason that applies. */
  function Categorise(item: Item, o: Observation, metrics: map<Metric, Option<real>>): Option<Category> {
    var validity := if CitedValidity in metrics then metrics[CitedValidity] else None;
    var unsupported := if UnsupportedRate in metrics then metrics[UnsupportedRate] else None;
    if o.Erred() then Some(ExecutionError)
    else if |item.goldChunks| > 0 && Members(o.retrieved) * Members(item.goldChunks) == {} then Some(RetrievalMiss)
    else if o.abstained && !item.expectsAbstention then Some(OverAbstention)
    else if !o.abstained && item.expectsAbstention then Some(AnsweredWithoutEvidence)
    else if validity.Some? && validity.value < 1.0 then Some(InventedCitation)
    else if unsupported.Some? && unsupported.value > 0.0 then Some(UnsupportedClaim)
    else None
  }

  /** The metrics that do not depend on a depth. */
  function PlainMetrics(item: Item, o: Observation): map<Metric, Option<real>> {
    var gold := Members(item.goldChunks);
    map[
      Mrr := ToOption(ReciprocalRank(o.retrieved, gold)),
      CitedPrecision := CitationPrecision(o.Cited(), gold),
      CitedRecall := CitationRecall(o.Cited(), gold),
      CitedValidity := CitationValidity(o.claims, o.retrieved),
      Coverage := EvidenceCoverage(o.Cited(), o.retrieved),
      UnsupportedRate := UnsupportedClaimRate(o.claims),
      AbstentionCorrect := Some(Flag(o.abstained == item.expectsAbstention)),
      InputTokens := Some(o.inputTokens as real),
      OutputTokens := Some(o.outputTokens as real),
      TotalTokens := Some((o.inputTokens + o.outputTokens) as real),
      Cost := o.cost,
      LatencyMs := o.latencies.total,
      RetrievalLatencyMs := o.latencies.retrieval,
      GenerationLatencyMs := o.latencies.generation,
      FailedFlag := Some(Flag(o.Erred()))
    ]
  }

  /** The four metrics of one depth. */
  ghost predicate HasDepth(metrics: map<Metric, Option<real>>, discount: Discount, item: Item, o: Observation, k: int) {
    var gold := Members(item.goldChunks);
    && Recall(k) in metrics && metrics[Recall(k)] == ToOption(RecallAtK(o.retrieved, gold, k))
    && Precision(k) in metrics && metrics[Precision(k)] == ToOption(PrecisionAtK(o.retrieved, gold, k))
    && HitRate(k) in metrics && metrics[HitRate(k)] == ToOption(HitRateAtK(o.retrieved, gold, k))
    && Ndcg(k) in metrics && metrics[Ndcg(k)] == ToOption(NdcgAtK(discount, o.retrieved, gold, k))
  }

  function WithDepth(metrics: map<Metric, Option<real>>, discount: Discount, item: Item, o: Observation, k: int): map<Metric, Option<real>> {
    var gold := Members(item.goldChunks);
    metrics[Recall(k) := ToOption(RecallAtK(o.retrieved, gold, k))]
           [Precision(k) := ToOption(PrecisionAtK(o.retrieved, gold, k))]
           [HitRate(k) := ToOption(HitRateAtK(o.retrieved, gold, k))]
           [Ndcg(k) := ToOption(NdcgAtK(discount, o.retrieved, gold, k))]
  }

  lemma DepthAdded(metrics: map<Metric, Option<real>>, discount: Discount, item: Item, o: Observation, k: int)
    ensures HasDepth(WithDepth(metrics, discount, item, o, k), discount, item, o, k)
    ensures forall j | HasDepth(metrics, discount, item, o, j) :: HasDepth(WithDepth(metrics, discount, item, o, k), discount, item, o, j)
  {
    hide RecallAtK, PrecisionAtK, HitRateAtK, NdcgAtK, ToOption;
  }

  predicate IsPlain(m: Metric) {
    !m.Recall? && !m.Precision? && !m.HitRate? && !m.Ndcg?
  }

  /** The depth in a metric's name is one of these. */
  predicate AtDepth(m: Metric, kValues: seq<int>) {
    !IsPlain(m) && m.k in kValues
  }

  lemma PlainKeys(item: Item, o: Observation)
    ensures forall m :: m in PlainMetrics(item, o) <==> IsPlain(m)
  {
    hide ReciprocalRank, CitationPrecision, CitationRecall, CitationValidity, EvidenceCoverage, UnsupportedClaimRate;
  }

  lemma DepthKeys(metrics: map<Metric, Option<real>>, discount: Discount, item: Item, o: Observation, kValues: seq<int>, n: nat)
    requires n < |kValues| && forall m | m in metrics :: AtDepth(m, kValues[..n])
    ensures forall m | m in WithDepth(metrics, discount, item, o, kValues[n]) :: AtDepth(m, kValues[..n + 1])
  {
    hide RecallAtK, PrecisionAtK, HitRateAtK, NdcgAtK, ToOption;
    assert kValues[..n + 1] == kValues[..n] + [kValues[n]];
  }

  lemma PlainValues(item: Item, o: Observation)
    ensures CitedValidity in PlainMetrics(item, o) && PlainMetrics(item, o)[CitedValidity] == CitationValidity(o.claims, o.retrieved)
    ensures UnsupportedRate in PlainMetrics(item, o)
    ensures FailedFlag in PlainMetrics(item, o) && PlainMetrics(item, o)[FailedFlag] == Some(Flag(o.Erred()))
  {
    hide ReciprocalRank, CitationPrecision, CitationRecall, CitationValidity, EvidenceCoverage, UnsupportedClaimRate, ToOption;
  }

  lemma PlainAdded(metrics: map<Metric, Option<real>>, item: Item, o: Observation)
    ensures var all := metrics + PlainMetrics(item, o);
            && Categorise(item, o, all) == Categorise(item, o, PlainMetrics(item, o))
            && (forall discount, k | HasDepth(metrics, discount, item, o, k) :: HasDepth(all, discount, item, o, k))
  {
    hide PlainMetrics, RecallAtK, PrecisionAtK, HitRateAtK, NdcgAtK, ToOption;
    PlainKeys(item, o);
    PlainValues(item, o);
  }

  /** The score of some item and observation, as `score_item` made it. */
  ghost predicate FromItem(score: ItemScore) {
    exists item, o: Observation :: FailedFlag in score.metrics && score.metrics[FailedFlag] == Some(Flag(o.Erred()))
      && score.failureCategory == Categorise(item, o, PlainMetrics(item, o))
  }

  /** Every metric has its own value and there is no other; the category is the first reason. */
  ghost predicate IsScore(discount: Discount, item: Item, o: Observation, kValues: seq<int>, score: ItemScore) {
    && (forall k | k in kValues :: HasDepth(score.metrics, discount, item, o, k))
    && (forall m | m in PlainMetrics(item, o) :: m in score.metrics && score.metrics[m] == PlainMetrics(item, o)[m])
    && (forall m | m in score.metrics :: IsPlain(m) || AtDepth(m, kValues))
    && score.failureCategory == Categorise(item, o, PlainMetrics(item, o))
  }

  /** `score_item`; a non-positive depth is refused unless nothing is gold. */
  method ScoreItem(discount: Discount, item: Item, o: Observation, kValues: seq<int>) returns (r: Option<ItemScore>)
    ensures r.None? <==> |Members(item.goldChunks)| > 0 && exists k | k in kValues :: k <= 0
    ensures r.Some? ==> IsScore(discount, item, o, kValues, r.value) && FromItem(r.value)
  {
    hide HasDepth, WithDepth, PlainMetrics, AtDepth, IsPlain;
    var gold := Members(item.goldChunks);
    var metrics: map<Metric, Option<real>> := map[];
    for n := 0 to |kValues|
      invariant |gold| > 0 ==> forall k | k in kValues[..n] :: k > 0
      invariant forall k | k in kValues[..n] :: HasDepth(metrics, discount, item, o, k)
      invariant forall m | m in metrics :: AtDepth(m, kValues[..n])
    {
      var k := kValues[n];
      assert k in kValues && kValues[..n + 1] == kValues[..n] + [k];
      if |gold| > 0 && k <= 0 {
        return None;
      }
      DepthAdded(metrics, discount, item, o, k);
      DepthKeys(metrics, discount, item, o, kValues, n);
      metrics := WithDepth(metrics, discount, item, o, k);
    }
    assert kValues[..|kValues|] == kValues;
    PlainAdded(metrics, item, o);
    PlainValues(item, o);
    PlainKeys(item, o);
    metrics := metrics + PlainMetrics(item, o);
    r := Some(ItemScore(metrics, Categorise(item, o, metrics)));
  }

  // ----- generated observations -----

  /** What `_run_item` reports: a failed item, retrieval alone, or a generated answer. */
  datatype ItemRun =
    | ItemFailed(code: string)
    | OnlyRetrieved(ids: seq<Uuid>)
    | Generated(ids: seq<Uuid>, answer: GeneratedAnswer, inputTokens: int, outputTokens: int)

  function CitationsOf(claims: seq<Claim>): (r: seq<ClaimCitations>)
    ensures |r| == |claims| && forall i | 0 <= i < |r| :: r[i] == ClaimCitations(claims[i].text, claims[i].evidence)
  {
    seq(|claims|, i requires 0 <= i < |claims| => ClaimCitations(claims[i].text, claims[i].evidence))
  }

  function ObservationOf(run: ItemRun): Observation {
    match run
    case ItemFailed(code) => Observation([], [], false, 0, 0, None, UNTIMED, Some(code))
    case OnlyRetrieved(ids) => Observation(ids, [], false, 0, 0, None, UNTIMED, None)
    case Generated(ids, answer, input, output) =>
      Observation(ids, CitationsOf(answer.claims), answer.abstained, input, output, None, UNTIMED, None)
  }

  /** The answer came out of `ParseAnswer` over the same evidence. */
  ghost predicate FromParser(run: ItemRun) {
    run.Generated? ==> Accepted(run.answer.claims, run.ids)
  }

  lemma {:induction false} AllCounted(ids: seq<Uuid>, available: set<Uuid>)
    requires forall id | id in ids :: id in available
    ensures CountIn(ids, available) == |ids|
  {
    if |ids| > 0 {
      AllCounted(ids[..|ids| - 1], available);
    }
  }

  lemma {:induction false} AllValid(claims: seq<ClaimCitations>, available: set<Uuid>)
    requires forall c, id | c in claims && id in c.cited :: id in available
    ensures ValidCited(claims, available) == TotalCited(claims)
  {
    if |claims| > 0 {
      AllValid(claims[..|claims| - 1], available);
      AllCounted(claims[|claims| - 1].cited, available);
    }
  }

  /** However the model behaves, the citation validity of a run is undefined or one,
      so no item is ever put down to an invented citation. */
  lemma InventedCitationIsUnreachable(item: Item, run: ItemRun)
    requires FromParser(run)
    ensures var o := ObservationOf(run);
            && (CitationValidity(o.claims, o.retrieved).None? || CitationValidity(o.claims, o.retrieved).value == 1.0)
            && Categorise(item, o, PlainMetrics(item, o)) != Some(InventedCitation)
  {
    hide PlainMetrics, IsClaim;
    var o := ObservationOf(run);
    PlainValues(item, o);
    forall c, id | c in o.claims && id in c.cited
      ensures id in Members(o.retrieved)
    {
      var i :| 0 <= i < |o.claims| && o.claims[i] == c;
      var claim := run.answer.claims[i];
      assert claim in run.answer.claims;
      var raw :| IsClaim(raw, run.ids, claim);
      ClaimsAreSound(raw, run.ids, claim);
    }
    AllValid(o.claims, Members(o.retrieved));
    if TotalCited(o.claims) > 0 {
      var n := TotalCited(o.claims) as real;
      RatioRange(n, n);
    }
  }
}
