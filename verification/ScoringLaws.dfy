/**
 What the numbers of an item's score say: the citation metrics as counts, the plain
 facts as they were observed, and each failure category by its exact condition.
 */
module ScoringLaws {
  import opened Wrappers
  import opened Identifiers
  import opened Sequences
  import opened RetrievalMetrics
  import opened Scoring

  /** A metric of the score, which has it. */
  ghost predicate Has(score: ItemScore, m: Metric, value: Option<real>) {
    m in score.metrics && score.metrics[m] == value
  }

  /** Everything some claim cites. */
  ghost predicate IsCited(claims: seq<ClaimCitations>, cited: set<Uuid>) {
    forall id :: id in cited <==> exists c | c in claims :: id in c.cited
  }

  lemma CitedIs(o: Observation, cited: set<Uuid>)
    requires IsCited(o.claims, cited)
    ensures o.Cited() == cited
  {
  }

  lemma Ratio(a: nat, b: nat)
    requires a <= b && b > 0
    ensures var x := a as real / b as real;
            x * b as real == a as real && 0.0 <= x <= 1.0 && (x == 1.0 <==> a == b) && (x == 0.0 <==> a == 0)
  {
    RatioRange(a as real, b as real);
  }

  /** A subset is the whole set exactly when it is as large. */
  lemma WholeSet<T>(a: set<T>, b: set<T>)
    requires a <= b
    ensures |a| <= |b| && (|a| == |b| <==> a == b)
  {
    SubsetSize(a, b);
    assert b == a + (b - a);
  }

  // ----- citations against gold and evidence -----

  /** Precision times what was cited counts the cited gold chunks. */
  lemma PrecisionMeans(cited: set<Uuid>, gold: set<Uuid>)
    ensures CitationPrecision(cited, gold).None? <==> gold == {} || cited == {}
    ensures CitationPrecision(cited, gold).Some? ==>
      var x := CitationPrecision(cited, gold).value;
      && x * |cited| as real == |cited * gold| as real && 0.0 <= x <= 1.0
      && (x == 1.0 <==> cited <= gold) && (x == 0.0 <==> cited !! gold)
  {
    if gold != {} && cited != {} {
      var both := cited * gold;
      WholeSet(both, cited);
      assert both == cited <==> cited <= gold;
      Ratio(|both|, |cited|);
    }
  }

  /** Recall times what is gold counts the same chunks. */
  lemma RecallMeans(cited: set<Uuid>, gold: set<Uuid>)
    ensures CitationRecall(cited, gold).None? <==> gold == {}
    ensures CitationRecall(cited, gold).Some? ==>
      var x := CitationRecall(cited, gold).value;
      && x * |gold| as real == |cited * gold| as real && 0.0 <= x <= 1.0
      && (x == 1.0 <==> gold <= cited) && (x == 0.0 <==> cited !! gold)
  {
    if gold != {} {
      var both := cited * gold;
      WholeSet(both, gold);
      assert both == gold <==> gold <= cited;
      Ratio(|both|, |gold|);
    }
  }

  /** Coverage times the distinct retrieved chunks counts those that are cited. */
  lemma CoverageMeans(cited: set<Uuid>, retrieved: seq<Uuid>)
    ensures EvidenceCoverage(cited, retrieved).None? <==> retrieved == []
    ensures EvidenceCoverage(cited, retrieved).Some? ==>
      var x := EvidenceCoverage(cited, retrieved).value;
      && x * |Members(retrieved)| as real == |cited * Members(retrieved)| as real && 0.0 <= x <= 1.0
      && (x == 1.0 <==> forall id | id in retrieved :: id in cited)
  {
    var evidence := Members(retrieved);
    if retrieved != [] {
      assert retrieved[0] in evidence;
      var both := cited * evidence;
      WholeSet(both, evidence);
      assert both == evidence <==> evidence <= cited;
      assert evidence <= cited <==> forall id | id in retrieved :: id in cited;
      Ratio(|both|, |evidence|);
    }
  }

  // ----- claims that cite nothing -----

  function Unsupporting(claims: seq<ClaimCitations>): set<nat> {
    set i: nat | i < |claims| && claims[i].cited == []
  }

  lemma OneMoreClaimSeen(claims: seq<ClaimCitations>)
    requires |claims| > 0
    ensures var n := |claims| - 1;
            |Unsupporting(claims)| == |Unsupporting(claims[..n])| + if claims[n].cited == [] then 1 else 0
  {
    var n := |claims| - 1;
    var before := Unsupporting(claims[..n]);
    assert n !in before;
    if claims[n].cited == [] {
      assert Unsupporting(claims) == before + {n};
    } else {
      assert Unsupporting(claims) == before;
    }
  }

  lemma {:induction false} UncitedAre(claims: seq<ClaimCitations>)
    ensures Uncited(claims) == |Unsupporting(claims)| <= |claims|
  {
    if |claims| > 0 {
      hide Unsupporting;
      UncitedAre(claims[..|claims| - 1]);
      OneMoreClaimSeen(claims);
    } else {
      assert Unsupporting(claims) == {};
    }
  }

  lemma {:induction false} UncitedEnds(claims: seq<ClaimCitations>)
    ensures Uncited(claims) <= |claims|
    ensures Uncited(claims) == 0 <==> forall c | c in claims :: c.cited != []
    ensures Uncited(claims) == |claims| <==> forall c | c in claims :: c.cited == []
  {
    if |claims| > 0 {
      var n := |claims| - 1;
      UncitedEnds(claims[..n]);
      assert claims == claims[..n] + [claims[n]];
    }
  }

  lemma UnsupportedShare(claims: seq<ClaimCitations>)
    ensures UnsupportedClaimRate(claims)
         == if claims == [] then None else Some(|Unsupporting(claims)| as real / |claims| as real)
  {
    hide Uncited, Unsupporting;
    UncitedAre(claims);
  }

  /** The unsupported rate times the number of claims counts those that cite nothing. */
  lemma UnsupportedMeans(claims: seq<ClaimCitations>)
    ensures UnsupportedClaimRate(claims).None? <==> claims == []
    ensures UnsupportedClaimRate(claims).Some? ==>
      var x := UnsupportedClaimRate(claims).value;
      && x * |claims| as real == |Unsupporting(claims)| as real && 0.0 <= x <= 1.0
      && (x == 0.0 <==> forall c | c in claims :: c.cited != [])
      && (x == 1.0 <==> forall c | c in claims :: c.cited == [])
  {
    hide Uncited, Unsupporting, UnsupportedClaimRate;
    UnsupportedShare(claims);
    UncitedAre(claims);
    UncitedEnds(claims);
    if claims != [] {
      Ratio(Uncited(claims), |claims|);
    }
  }

  // ----- citations that were not retrieved -----

  lemma {:induction false} CountBounds(ids: seq<Uuid>, available: set<Uuid>)
    ensures CountIn(ids, available) <= |ids|
    ensures CountIn(ids, available) == |ids| <==> forall id | id in ids :: id in available
    ensures CountIn(ids, available) == 0 <==> forall id | id in ids :: id !in available
  {
    if |ids| > 0 {
      var n := |ids| - 1;
      CountBounds(ids[..n], available);
      assert ids == ids[..n] + [ids[n]];
    }
  }

  lemma {:induction false} ValidBounds(claims: seq<ClaimCitations>, available: set<Uuid>)
    ensures ValidCited(claims, available) <= TotalCited(claims)
    ensures ValidCited(claims, available) == TotalCited(claims) <==> forall c, id | c in claims && id in c.cited :: id in available
    ensures ValidCited(claims, available) == 0 <==> forall c, id | c in claims && id in c.cited :: id !in available
    ensures TotalCited(claims) == 0 <==> forall c | c in claims :: c.cited == []
  {
    hide CountIn;
    if |claims| > 0 {
      var n := |claims| - 1;
      ValidBounds(claims[..n], available);
      CountBounds(claims[n].cited, available);
      assert claims == claims[..n] + [claims[n]];
      assert claims[n] in claims;
      if |claims[n].cited| > 0 {
        assert claims[n].cited[0] in claims[n].cited;
      }
    }
  }

  /** The places of citations, by claim and by position in its list. */
  ghost function CitationPlaces(claims: seq<ClaimCitations>): set<(nat, nat)> {
    set i: nat, j: nat | i < |claims| && j < |claims[i].cited| :: (i, j)
  }

  /** Those whose chunk is one of these. */
  ghost function ValidPlaces(claims: seq<ClaimCitations>, available: set<Uuid>): set<(nat, nat)> {
    set i: nat, j: nat | i < |claims| && j < |claims[i].cited| && claims[i].cited[j] in available :: (i, j)
  }

  ghost function PlacesIn(ids: seq<Uuid>, available: set<Uuid>, n: nat): set<(nat, nat)> {
    set j: nat | j < |ids| && ids[j] in available :: (n, j)
  }

  lemma {:induction false} CountIsPlaces(ids: seq<Uuid>, available: set<Uuid>, n: nat)
    ensures CountIn(ids, available) == |PlacesIn(ids, available, n)|
  {
    if |ids| > 0 {
      var m := |ids| - 1;
      var before := PlacesIn(ids[..m], available, n);
      CountIsPlaces(ids[..m], available, n);
      assert (n, m) !in before;
      assert PlacesIn(ids, available, n) == if ids[m] in available then before + {(n, m)} else before;
    } else {
      assert PlacesIn(ids, available, n) == {};
    }
  }

  lemma PlacesOfLast(claims: seq<ClaimCitations>, available: set<Uuid>)
    requires |claims| > 0
    ensures var n := |claims| - 1;
            |ValidPlaces(claims, available)| == |ValidPlaces(claims[..n], available)| + |PlacesIn(claims[n].cited, available, n)|
  {
    var n := |claims| - 1;
    var before, last := ValidPlaces(claims[..n], available), PlacesIn(claims[n].cited, available, n);
    assert before !! last;
    assert ValidPlaces(claims, available) == before + last;
  }

  lemma {:induction false} ValidArePlaces(claims: seq<ClaimCitations>, available: set<Uuid>)
    ensures ValidCited(claims, available) == |ValidPlaces(claims, available)|
  {
    if |claims| > 0 {
      hide CountIn, ValidPlaces, PlacesIn;
      var n := |claims| - 1;
      ValidArePlaces(claims[..n], available);
      CountIsPlaces(claims[n].cited, available, n);
      PlacesOfLast(claims, available);
    } else {
      assert ValidPlaces(claims, available) == {};
    }
  }

  lemma TotalArePlaces(claims: seq<ClaimCitations>)
    ensures TotalCited(claims) == |CitationPlaces(claims)|
  {
    hide ValidCited, TotalCited;
    var all := set c, id | c in claims && id in c.cited :: id;
    ValidBounds(claims, all);
    ValidArePlaces(claims, all);
    assert ValidPlaces(claims, all) == CitationPlaces(claims) by {
      forall i: nat, j: nat | i < |claims| && j < |claims[i].cited|
        ensures claims[i].cited[j] in all
      {
        assert claims[i] in claims && claims[i].cited[j] in claims[i].cited;
      }
    }
  }

  /** Validity times the citations counts those of retrieved chunks. */
  lemma ValidityCounts(claims: seq<ClaimCitations>, retrieved: seq<Uuid>)
    ensures CitationValidity(claims, retrieved).None? <==> |CitationPlaces(claims)| == 0
    ensures CitationValidity(claims, retrieved).Some? ==>
      CitationValidity(claims, retrieved).value * |CitationPlaces(claims)| as real == |ValidPlaces(claims, Members(retrieved))| as real
  {
    hide ValidCited, TotalCited, ValidPlaces, CitationPlaces;
    TotalArePlaces(claims);
    ValidArePlaces(claims, Members(retrieved));
    ValidBounds(claims, Members(retrieved));
    if TotalCited(claims) > 0 {
      Ratio(ValidCited(claims, Members(retrieved)), TotalCited(claims));
    }
  }

  /** Validity is undefined when nothing is cited, one when everything cited was
      retrieved, zero when nothing was. */
  lemma ValidityMeans(claims: seq<ClaimCitations>, retrieved: seq<Uuid>)
    ensures CitationValidity(claims, retrieved).None? <==> forall c | c in claims :: c.cited == []
    ensures CitationValidity(claims, retrieved).Some? ==>
      var x := CitationValidity(claims, retrieved).value;
      && 0.0 <= x <= 1.0
      && (x == 1.0 <==> forall c, id | c in claims && id in c.cited :: id in retrieved)
      && (x == 0.0 <==> forall c, id | c in claims && id in c.cited :: id !in retrieved)
  {
    hide ValidCited, TotalCited;
    var available := Members(retrieved);
    ValidBounds(claims, available);
    assert forall id :: id in available <==> id in retrieved;
    if TotalCited(claims) > 0 {
      Ratio(ValidCited(claims, available), TotalCited(claims));
      var x := CitationValidity(claims, retrieved).value;
      assert x == 1.0 <==> forall c, id | c in claims && id in c.cited :: id in available;
      assert x == 0.0 <==> forall c, id | c in claims && id in c.cited :: id !in available;
    }
  }

  // ----- plain facts -----

  /** The score's citation metrics are those of what the claims cite, of the gold
      chunks and of what was retrieved. */
  lemma CitationMetricsAre(discount: Discount, item: Item, o: Observation, ks: seq<int>, score: ItemScore, cited: set<Uuid>)
    requires IsScore(discount, item, o, ks, score) && IsCited(o.claims, cited)
    ensures var gold := Members(item.goldChunks);
            && Has(score, CitedPrecision, CitationPrecision(cited, gold))
            && Has(score, CitedRecall, CitationRecall(cited, gold))
            && Has(score, CitedValidity, CitationValidity(o.claims, o.retrieved))
            && Has(score, Coverage, EvidenceCoverage(cited, o.retrieved))
            && Has(score, UnsupportedRate, UnsupportedClaimRate(o.claims))
  {
    hide HasDepth, AtDepth, Categorise, CitationPrecision, CitationRecall, CitationValidity, EvidenceCoverage, UnsupportedClaimRate, ReciprocalRank, Members;
    CitedIs(o, cited);
    var plain := PlainMetrics(item, o);
    assert CitedPrecision in plain && CitedRecall in plain && CitedValidity in plain;
    assert Coverage in plain && UnsupportedRate in plain;
  }

  /** The score's reciprocal rank is absent without gold, zero when nothing retrieved is
      gold, and the inverse of the first place that is. */
  lemma RankScored(discount: Discount, item: Item, o: Observation, ks: seq<int>, score: ItemScore, p: nat)
    requires IsScore(discount, item, o, ks, score)
    ensures Mrr in score.metrics && (score.metrics[Mrr].None? <==> |item.goldChunks| == 0)
    ensures |item.goldChunks| > 0 && (forall id | id in o.retrieved :: id !in item.goldChunks) ==> score.metrics[Mrr] == Some(0.0)
    ensures p < |o.retrieved| && o.retrieved[p] in item.goldChunks && (forall i | 0 <= i < p :: o.retrieved[i] !in item.goldChunks) ==>
      score.metrics[Mrr].Some? && score.metrics[Mrr].value * (p + 1) as real == 1.0
  {
    hide IsScore, ReciprocalRank, FirstGoldAt;
    var gold := Members(item.goldChunks);
    RankIs(discount, item, o, ks, score);
    assert gold == {} <==> |item.goldChunks| == 0 by {
      if |item.goldChunks| > 0 {
        assert item.goldChunks[0] in gold;
      }
    }
    FirstIsPlace(o.retrieved, item.goldChunks, p);
    RankIsInverse(o.retrieved, gold, p);
  }

  lemma RankIs(discount: Discount, item: Item, o: Observation, ks: seq<int>, score: ItemScore)
    requires IsScore(discount, item, o, ks, score)
    ensures Has(score, Mrr, ToOption(ReciprocalRank(o.retrieved, Members(item.goldChunks))))
  {
    hide HasDepth, AtDepth, Categorise, CitationPrecision, CitationRecall, CitationValidity, EvidenceCoverage, UnsupportedClaimRate, ReciprocalRank, ToOption;
    assert Mrr in PlainMetrics(item, o);
  }

  lemma FirstIsPlace(retrieved: seq<Uuid>, gold: seq<Uuid>, p: nat)
    ensures FirstGoldAt(retrieved, Members(gold), p)
       <==> p < |retrieved| && retrieved[p] in gold && forall i | 0 <= i < p :: retrieved[i] !in gold
  {
  }

  /** At each depth asked for the score has the four depth metrics, and at no other. */
  lemma DepthMetricsAre(discount: Discount, item: Item, o: Observation, ks: seq<int>, score: ItemScore, k: int)
    requires IsScore(discount, item, o, ks, score)
    ensures k in ks <==> Recall(k) in score.metrics
    ensures k in ks && k > 0 ==>
      var gold := Members(item.goldChunks);
      && Has(score, Recall(k), if gold == {} then None else Some(RecallAtK(o.retrieved, gold, k).value))
      && Has(score, Precision(k), if gold == {} then None else Some(PrecisionAtK(o.retrieved, gold, k).value))
      && Has(score, HitRate(k), if gold == {} then None else Some(HitRateAtK(o.retrieved, gold, k).value))
      && Has(score, Ndcg(k), if NdcgAtK(discount, o.retrieved, gold, k).Value? then Some(NdcgAtK(discount, o.retrieved, gold, k).value) else None)
  {
    hide PlainMetrics, Categorise, Members, NdcgAtK;
    if k in ks {
      assert HasDepth(score.metrics, discount, item, o, k);
    }
  }

  /** What the score says of the observation itself: tokens, cost and times as they
      were, a failure exactly when there is an error code, and abstention right exactly
      when it was expected. */
  lemma ScoreRepeatsObservation(discount: Discount, item: Item, o: Observation, ks: seq<int>, score: ItemScore)
    requires IsScore(discount, item, o, ks, score)
    ensures Has(score, InputTokens, Some(o.inputTokens as real)) && Has(score, OutputTokens, Some(o.outputTokens as real))
    ensures Has(score, TotalTokens, Some(o.inputTokens as real + o.outputTokens as real)) && Has(score, Cost, o.cost)
    ensures Has(score, LatencyMs, o.latencies.total)
    ensures Has(score, RetrievalLatencyMs, o.latencies.retrieval) && Has(score, GenerationLatencyMs, o.latencies.generation)
    ensures Has(score, FailedFlag, Some(if o.errorCode == None || o.errorCode == Some("") then 0.0 else 1.0))
    ensures Has(score, AbstentionCorrect, Some(if o.abstained <==> item.expectsAbstention then 1.0 else 0.0))
  {
    hide HasDepth, AtDepth, Categorise, CitationPrecision, CitationRecall, CitationValidity, EvidenceCoverage, UnsupportedClaimRate, ReciprocalRank;
    var plain := PlainMetrics(item, o);
    assert InputTokens in plain && OutputTokens in plain && TotalTokens in plain && Cost in plain;
    assert LatencyMs in plain && RetrievalLatencyMs in plain && GenerationLatencyMs in plain;
    assert FailedFlag in plain && AbstentionCorrect in plain;
  }

  // ----- categories -----

  /** No gold chunk was retrieved, although there are some. */
  ghost predicate Missed(item: Item, o: Observation) {
    |item.goldChunks| > 0 && forall id | id in o.retrieved :: id !in item.goldChunks
  }

  ghost predicate Failed(o: Observation) {
    o.errorCode.Some? && o.errorCode.value != ""
  }

  /** Nothing failed, something relevant was retrieved if there is any, and abstaining was right. */
  ghost predicate Sound(item: Item, o: Observation) {
    !Failed(o) && !Missed(item, o) && (o.abstained <==> item.expectsAbstention)
  }

  /** Some citation was not retrieved. */
  ghost predicate Invents(o: Observation) {
    exists c, id | c in o.claims && id in c.cited :: id !in o.retrieved
  }

  /** Each category by its exact condition. */
  lemma CategoriesAre(discount: Discount, item: Item, o: Observation, ks: seq<int>, score: ItemScore)
    requires IsScore(discount, item, o, ks, score)
    ensures score.failureCategory == Some(ExecutionError) <==> Failed(o)
    ensures score.failureCategory == Some(RetrievalMiss) <==> !Failed(o) && Missed(item, o)
    ensures score.failureCategory == Some(OverAbstention)
       <==> !Failed(o) && !Missed(item, o) && o.abstained && !item.expectsAbstention
    ensures score.failureCategory == Some(AnsweredWithoutEvidence)
       <==> !Failed(o) && !Missed(item, o) && !o.abstained && item.expectsAbstention
    ensures score.failureCategory == Some(InventedCitation) <==> Sound(item, o) && Invents(o)
    ensures score.failureCategory == Some(UnsupportedClaim)
       <==> Sound(item, o) && !Invents(o) && exists c | c in o.claims :: c.cited == []
    ensures score.failureCategory == None
       <==> Sound(item, o) && !Invents(o) && forall c | c in o.claims :: c.cited != []
  {
    hide IsScore, Categorise, CitationValidity, UnsupportedClaimRate;
    CategoryIs(discount, item, o, ks, score);
    CategoriseReads(item, o);
    ValidityMeans(o.claims, o.retrieved);
    UnsupportedMeans(o.claims);
    MissedIff(item, o);
    if CitationValidity(o.claims, o.retrieved).None? {
      assert !Invents(o);
    }
  }

  lemma CategoryIs(discount: Discount, item: Item, o: Observation, ks: seq<int>, score: ItemScore)
    requires IsScore(discount, item, o, ks, score)
    ensures score.failureCategory == Categorise(item, o, PlainMetrics(item, o))
  {
    hide Categorise, PlainMetrics, HasDepth, AtDepth;
  }

  lemma MissedIff(item: Item, o: Observation)
    ensures Missed(item, o) <==> |item.goldChunks| > 0 && Members(o.retrieved) * Members(item.goldChunks) == {}
  {
    var met := Members(o.retrieved) * Members(item.goldChunks);
    if id :| id in o.retrieved && id in item.goldChunks {
      assert id in met;
    }
  }

  /** The reasons in their order, read from the observation. */
  lemma CategoriseReads(item: Item, o: Observation)
    ensures var validity, rate := CitationValidity(o.claims, o.retrieved), UnsupportedClaimRate(o.claims);
            Categorise(item, o, PlainMetrics(item, o))
            == if Failed(o) then Some(ExecutionError)
               else if |item.goldChunks| > 0 && Members(o.retrieved) * Members(item.goldChunks) == {} then Some(RetrievalMiss)
               else if o.abstained && !item.expectsAbstention then Some(OverAbstention)
               else if !o.abstained && item.expectsAbstention then Some(AnsweredWithoutEvidence)
               else if validity.Some? && validity.value < 1.0 then Some(InventedCitation)
               else if rate.Some? && rate.value > 0.0 then Some(UnsupportedClaim)
               else None
  {
    hide CitationPrecision, CitationRecall, CitationValidity, EvidenceCoverage, UnsupportedClaimRate, ReciprocalRank, ToOption;
    var plain := PlainMetrics(item, o);
    assert CitedValidity in plain && UnsupportedRate in plain;
  }
}
