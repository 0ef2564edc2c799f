/**
 Facts that need several modules: fused results meet the premise of the metrics that
 judge them, and what the model replies is scored as what was retrieved.
 */
module EndToEnd {
  import opened Wrappers
  import opened Identifiers
  import opened Sequences
  import opened Fusion
  import opened FusionLaws
  import opened RetrievalMetrics
  import G = Grounding
  import Q = AnsweredQueries
  import R = EvaluationRuns
  import S = Scoring

  /** Whatever the arms returned, normalised gain of the fused list is at most one. */
  lemma FusedNdcgIsNormalised(rrfK: nat, arms: seq<Arm>, fused: seq<Fused>, discount: Discount, gold: set<Uuid>, k: nat)
    requires rrfK > 0 && IsFusion(rrfK, arms, fused) && Falling(discount) && |gold| > 0 && k > 0
    ensures AllDifferent(Ids(fused))
    ensures var m := NdcgAtK(discount, Ids(fused), gold, k);
            m.Value? && 0.0 <= m.value <= 1.0
            && (m.value == 1.0 <==> LeadsWithGold(Ids(fused), gold, if |gold| < k then |gold| else k))
  {
    hide IsFusion, NdcgAtK;
    OneResultEach(rrfK, arms, fused);
    NdcgRange(discount, Ids(fused), gold, k);
  }

  /** Repetitions would break that: one gold chunk listed twice scores above one. */
  lemma RepeatedGoldExceedsOne(discount: Discount, id: Uuid, k: nat)
    requires Falling(discount) && k >= 2
    ensures NdcgAtK(discount, [id, id], {id}, k).Value? && NdcgAtK(discount, [id, id], {id}, k).value > 1.0
  {
    assert [id, id][..1] == [id] && [id][..0] == [];
    var d1, d2 := discount(1), discount(2);
    assert Dcg(discount, [id], {id}) == d1;
    assert Dcg(discount, [id, id], {id}) == d1 + d2;
    assert Ideal(discount, 1) == d1;
    RatioOrder(d1, d1 + d2, d1);
    RatioRange(d1, d1);
  }

  // ----- from the model's reply to the score -----

  /** An evaluated item from end to end, whatever the model replies: unless something
      other than a `DomainError` goes through, everything it cites was retrieved, so
      validity is undefined or one and nothing is put down to invention. */
  method RunAndScore(attempt: R.Attempt, generates: bool, row: R.ItemRow, discount: Discount)
    returns (r: Option<(S.Observation, S.ItemScore)>)
    ensures r.None? <==> R.Escapes(attempt, generates)
    ensures r.Some? ==>
      var (o, score) := r.value;
      && (forall c, id | c in o.claims && id in c.cited :: id in o.retrieved)
      && (S.CitationValidity(o.claims, o.retrieved).None? || S.CitationValidity(o.claims, o.retrieved).value == 1.0)
      && score.failureCategory != Some(S.InventedCitation)
      && S.IsScore(discount, R.SpecOf(row), o, R.DEFAULT_K_VALUES, score)
  {
    hide R.Escapes, R.RunsAs, S.FromParser, S.IsScore, S.FromItem, S.CitationValidity, S.Categorise;
    var run := R.RunItem(attempt, generates);
    if run.None? {
      return None;
    }
    var o := S.ObservationOf(run.value);
    var score := S.ScoreItem(discount, R.SpecOf(row), o, R.DEFAULT_K_VALUES);
    S.InventedCitationIsUnreachable(R.SpecOf(row), run.value);
    ScoreCategory(discount, R.SpecOf(row), o, score.value);
    CitedWasRetrieved(run.value);
    return Some((o, score.value));
  }

  lemma CitedWasRetrieved(run: S.ItemRun)
    requires S.FromParser(run)
    ensures var o := S.ObservationOf(run); forall c, id | c in o.claims && id in c.cited :: id in o.retrieved
  {
    hide G.Accepted;
    var o := S.ObservationOf(run);
    forall c, id | c in o.claims && id in c.cited
      ensures id in o.retrieved
    {
      var i :| 0 <= i < |o.claims| && o.claims[i] == c;
      assert run.answer.claims[i] in run.answer.claims;
      Q.CitesRetrieved(run.answer.claims, run.ids, run.answer.claims[i]);
    }
  }

  lemma ScoreCategory(discount: Discount, item: S.Item, o: S.Observation, score: S.ItemScore)
    requires S.IsScore(discount, item, o, R.DEFAULT_K_VALUES, score)
    ensures score.failureCategory == S.Categorise(item, o, S.PlainMetrics(item, o))
  {
  }
}
