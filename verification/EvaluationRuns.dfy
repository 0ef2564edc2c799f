/**
 Evaluation runs, backend/app/services/evaluation_service.py: `_run_item`, which turns
 an item's failure into an observation, and `execute`, which commits twice - once to
 say that the run is running, once to say how it ended.
 */
module EvaluationRuns {
  import opened Wrappers
  import opened Identifiers
  import opened RetrievalMetrics
  import opened Grounding
  import opened Scoring
  import opened ScoringLaws
  import opened Aggregation
  import opened Sessions

  // ----- one item -----

  /** What happens to one item: retrieval fails, or it returns these chunks and the
      model, if it is asked, this reply. */
  datatype Attempt = RetrievalFails(failure: Failure) | Retrieves(ids: seq<Uuid>, reply: Reply)

  /** The item raises something that is not a `DomainError`. */
  ghost predicate Escapes(attempt: Attempt, generates: bool) {
    match attempt
    case RetrievalFails(failure) => failure.OtherException?
    case Retrieves(ids, reply) => generates && GenerationEscapes(ids, reply)
  }

  /** The item fails with a `DomainError`. */
  ghost predicate FailsCleanly(attempt: Attempt, generates: bool) {
    match attempt
    case RetrievalFails(failure) => failure.DomainError?
    case Retrieves(ids, reply) => generates && GenerationFails(ids, reply)
  }

  function CodeOf(attempt: Attempt): Code {
    match attempt
    case RetrievalFails(failure) => if failure.DomainError? then failure.code else GENERATION_FAILED
    case Retrieves(_, reply) => FailureCode(reply)
  }

  /** How an item that raises nothing else ends. */
  ghost predicate RunsAs(attempt: Attempt, generates: bool, run: ItemRun) {
    !Escapes(attempt, generates)
    && if FailsCleanly(attempt, generates) then run == ItemFailed(CodeOf(attempt))
       else if !generates then run == OnlyRetrieved(attempt.ids)
       else run.Generated? && run.ids == attempt.ids
            && Generates(run.ids, attempt.reply, Generation(run.answer, run.inputTokens, run.outputTokens))
  }

  /** `_run_item`; nothing is returned when an exception other than a `DomainError`
      goes through it. */
  method RunItem(attempt: Attempt, generates: bool) returns (r: Option<ItemRun>)
    ensures r.None? <==> Escapes(attempt, generates)
    ensures r.Some? ==> RunsAs(attempt, generates, r.value) && FromParser(r.value)
  {
    hide GenerationEscapes, GenerationFails, Generates, Accepted;
    match attempt
    case RetrievalFails(failure) =>
      return if failure.DomainError? then Some(ItemFailed(failure.code)) else None;
    case Retrieves(ids, reply) =>
      if !generates {
        return Some(OnlyRetrieved(ids));
      }
      var generated := Generate(ids, reply);
      match generated
      case Failure(failure) =>
        return if failure.DomainError? then Some(ItemFailed(failure.code)) else None;
      case Success(g) =>
        return Some(Generated(ids, g.answer, g.inputTokens, g.outputTokens));
  }

  // ----- a run -----

  /** A stored item; its labels may be unknown to this version of the code. */
  datatype ItemRow = ItemRow(known: bool, condition: string, goldChunks: seq<Uuid>)

  /** `_to_spec`; an incomplete item is one that should be refused. */
  function SpecOf(row: ItemRow): Item {
    Item(row.goldChunks, row.condition == "incomplete")
  }

  datatype RunStatus = PENDING | RUNNING | COMPLETED | FAILED

  datatype Report = Report(overall: Aggregated, byCondition: map<string, Aggregated>)

  datatype RunRow = RunRow(
    status: RunStatus, completedCount: int, failedCount: int, report: Option<Report>, errorCode: Option<Code>)

  datatype ResultRow = ResultRow(run: Uuid, item: nat, observation: Observation, score: ItemScore)

  datatype Ledger = Ledger(runs: map<Uuid, RunRow>, results: seq<ResultRow>)

  datatype Ending = Ended | NoSuchRun | Raised(failure: Failure)

  const DEFAULT_K_VALUES := [1, 3, 5, 10]

  ghost predicate ItemEscapes(row: ItemRow, attempt: Attempt, generates: bool) {
    !row.known || Escapes(attempt, generates)
  }

  ghost predicate SomeItemEscapes(rows: seq<ItemRow>, attempts: seq<Attempt>, generates: bool)
    requires |rows| == |attempts|
  {
    exists n | 0 <= n < |rows| :: ItemEscapes(rows[n], attempts[n], generates)
  }

  /** The row recorded for one item is of what that item did. */
  ghost predicate RecordsItem(discount: Discount, id: Uuid, n: nat, row: ItemRow, attempt: Attempt, generates: bool, result: ResultRow) {
    exists run ::
      && RunsAs(attempt, generates, run) && FromParser(run)
      && result.run == id && result.item == n && result.observation == ObservationOf(run)
      && IsScore(discount, SpecOf(row), result.observation, DEFAULT_K_VALUES, result.score)
      && FromItem(result.score)
  }

  /** One row for every item, in order. */
  ghost predicate RecordsAll(discount: Discount, id: Uuid, rows: seq<ItemRow>, attempts: seq<Attempt>, generates: bool, results: seq<ResultRow>)
    requires |rows| == |attempts|
  {
    |results| == |rows|
    && forall n | 0 <= n < |rows| :: RecordsItem(discount, id, n, rows[n], attempts[n], generates, results[n])
  }

  function Scored(rows: seq<ItemRow>, results: seq<ResultRow>): (r: seq<(string, ItemScore)>)
    requires |rows| == |results|
    ensures |r| == |rows| && forall n | 0 <= n < |r| :: r[n] == (rows[n].condition, results[n].score)
  {
    seq(|rows|, n requires 0 <= n < |rows| => (rows[n].condition, results[n].score))
  }

  /** The report and the counts are those of the recorded scores. */
  ghost predicate Summarises(run: RunRow, scored: seq<(string, ItemScore)>) {
    && run.report.Some? && Aggregates(Pooled(scored), run.report.value.overall)
    && run.report.value.byCondition.Keys == Labels(scored)
    && (forall key | key in run.report.value.byCondition :: Aggregates(Group(scored, key), run.report.value.byCondition[key]))
    && run.completedCount + run.failedCount == |scored|
    && run.failedCount == CategoryCount(Pooled(scored), ExecutionError)
  }

  /** The loop over the items, up to the first that raises something else. */
  method RunItems(discount: Discount, id: Uuid, rows: seq<ItemRow>, attempts: seq<Attempt>, generates: bool)
    returns (r: Option<seq<ResultRow>>)
    requires |rows| == |attempts|
    ensures r.None? <==> SomeItemEscapes(rows, attempts, generates)
    ensures r.Some? ==> RecordsAll(discount, id, rows, attempts, generates, r.value)
  {
    hide Escapes, RunsAs, FromParser, IsScore, FromItem;
    var results: seq<ResultRow> := [];
    for n := 0 to |rows|
      invariant |results| == n
      invariant forall i | 0 <= i < n :: !ItemEscapes(rows[i], attempts[i], generates)
      invariant forall i | 0 <= i < n :: RecordsItem(discount, id, i, rows[i], attempts[i], generates, results[i])
    {
      if !rows[n].known {
        assert ItemEscapes(rows[n], attempts[n], generates);
        return None;
      }
      var run := RunItem(attempts[n], generates);
      if run.None? {
        assert ItemEscapes(rows[n], attempts[n], generates);
        return None;
      }
      var o := ObservationOf(run.value);
      var score := ScoreItem(discount, SpecOf(rows[n]), o, DEFAULT_K_VALUES);
      results := results + [ResultRow(id, n, o, score.value)];
      assert RecordsItem(discount, id, n, rows[n], attempts[n], generates, results[n]);
    }
    return Some(results);
  }

  method CountCompleted(scored: seq<(string, ItemScore)>) returns (count: nat)
    ensures count == CompletedCount(Pooled(scored))
  {
    count := 0;
    var scores := Pooled(scored);
    for n := 0 to |scores|
      invariant count == CompletedCount(scores[..n])
    {
      assert scores[..n + 1][..n] == scores[..n];
      if !CountsAsFailed(scores[n]) {
        count := count + 1;
      }
    }
    assert scores[..|scores|] == scores;
  }

  function WithRun(db: Ledger, id: Uuid, run: RunRow): Ledger {
    db.(runs := db.runs[id := run])
  }

  /** Rolling back and recording a `DomainError`; anything else goes through. */
  method Fail(s: Session<Ledger>, id: Uuid, failure: Failure)
    requires id in s.committed.runs
    modifies s
    ensures failure.OtherException? ==> s.committed == old(s.committed) && s.history == old(s.history)
    ensures failure.DomainError? ==>
      && s.committed == WithRun(old(s.committed), id, old(s.committed).runs[id].(status := FAILED, errorCode := Some(failure.code)))
      && s.history == old(s.history) + [s.committed]
  {
    if failure.DomainError? {
      s.Rollback();
      s.working := WithRun(s.working, id, s.working.runs[id].(status := FAILED, errorCode := Some(failure.code)));
      s.Commit();
    }
  }

  /** How `execute` ends: the first thing that goes wrong, unless it is an item's own
      `DomainError`. */
  ghost function EndingOf(setup: Option<Failure>, rows: seq<ItemRow>, attempts: seq<Attempt>, generates: bool, finishing: Option<Failure>): Ending
    requires |rows| == |attempts|
  {
    if setup.Some? then Raised(setup.value)
    else if SomeItemEscapes(rows, attempts, generates) then Raised(OtherException)
    else if finishing.Some? then Raised(finishing.value)
    else Ended
  }

  /** What the database says of a run that ended so. */
  function StatusAfter(ending: Ending): RunStatus {
    match ending
    case Ended => COMPLETED
    case NoSuchRun => PENDING
    case Raised(DomainError(_)) => FAILED
    case Raised(OtherException) => RUNNING
  }

  function Started(db: Ledger, id: Uuid): Ledger
    requires id in db.runs
  {
    WithRun(db, id, db.runs[id].(status := RUNNING))
  }

  /** While it runs, the database says so of that run and nothing else has changed. */
  lemma RunningIsShown(db: Ledger, id: Uuid)
    requires id in db.runs
    ensures TouchesOnly(db, Started(db, id), id) && Started(db, id).results == db.results
    ensures Started(db, id).runs[id].status == RUNNING && Started(db, id).runs[id].report == db.runs[id].report
  {
  }

  /** Nothing but the run, and results only if it completed. */
  ghost predicate TouchesOnly(before: Ledger, after: Ledger, id: Uuid) {
    && id in before.runs && after.runs.Keys == before.runs.Keys
    && (forall other | other in before.runs && other != id :: after.runs[other] == before.runs[other])
    && (after.runs[id].status != COMPLETED ==> after.results == before.results)
    && (after.runs[id].status != FAILED ==> after.runs[id].errorCode == before.runs[id].errorCode)
  }

  /** `execute`: the run is RUNNING until it has ended one way or the other, and the
      results are committed with the status or not at all. */
  method Execute(s: Session<Ledger>, id: Uuid, discount: Discount, rows: seq<ItemRow>, attempts: seq<Attempt>,
                 generates: bool, setup: Option<Failure>, finishing: Option<Failure>)
    returns (r: Ending)
    requires s.working == s.committed && |rows| == |attempts|
    modifies s
    ensures r == if id in old(s.committed).runs then EndingOf(setup, rows, attempts, generates, finishing) else NoSuchRun
    ensures r == NoSuchRun ==> s.committed == old(s.committed) && s.history == old(s.history)
    ensures r != NoSuchRun ==>
      && TouchesOnly(old(s.committed), s.committed, id) && s.committed.runs[id].status == StatusAfter(r)
      && s.history == old(s.history) + [Started(old(s.committed), id)] + (if StatusAfter(r) == RUNNING then [] else [s.committed])
    ensures r == Raised(OtherException) ==> s.committed == Started(old(s.committed), id)
    ensures r.Raised? && r.failure.DomainError? ==> s.committed.runs[id].errorCode == Some(r.failure.code)
    ensures r == Ended ==> exists results ::
      && RecordsAll(discount, id, rows, attempts, generates, results)
      && s.committed.results == old(s.committed).results + results
      && Summarises(s.committed.runs[id], Scored(rows, results))
  {
    hide SomeItemEscapes, RecordsAll, Summarises, Aggregates, CompletedCount, Labels, Group, Scored;
    if id !in s.working.runs {
      return NoSuchRun;
    }
    s.working := Started(s.working, id);
    s.Commit();
    if setup.Some? {
      Fail(s, id, setup.value);
      return Raised(setup.value);
    }
    var results := RunItems(discount, id, rows, attempts, generates);
    if results.None? {
      return Raised(OtherException);
    }
    RecordsEach(discount, id, rows, attempts, generates, results.value);
    var scored := Scored(rows, results.value);
    var completed := CountCompleted(scored);
    var overall := Aggregate(Pooled(scored));
    var byCondition := AggregateBy(scored);
    var row := s.working.runs[id].(
      status := COMPLETED, completedCount := completed, failedCount := |scored| - completed,
      report := Some(Report(overall, byCondition)));
    ReportSummarises(discount, id, rows, attempts, generates, results.value, row);
    s.working := Ledger(s.working.runs[id := row], s.working.results + results.value);
    if finishing.Some? {
      Fail(s, id, finishing.value);
      return Raised(finishing.value);
    }
    s.Commit();
    return Ended;
  }

  lemma RecordsEach(discount: Discount, id: Uuid, rows: seq<ItemRow>, attempts: seq<Attempt>, generates: bool, results: seq<ResultRow>)
    requires |rows| == |attempts| && RecordsAll(discount, id, rows, attempts, generates, results)
    ensures |results| == |rows|
  {
  }

  lemma ReportSummarises(
    discount: Discount, id: Uuid, rows: seq<ItemRow>, attempts: seq<Attempt>, generates: bool, results: seq<ResultRow>, run: RunRow)
    requires |rows| == |attempts| == |results| && RecordsAll(discount, id, rows, attempts, generates, results)
    requires var scored := Scored(rows, results);
             && run.report.Some? && Aggregates(Pooled(scored), run.report.value.overall)
             && (forall key :: key in run.report.value.byCondition <==> key in Labels(scored))
             && (forall key | key in run.report.value.byCondition :: Aggregates(Group(scored, key), run.report.value.byCondition[key]))
             && run.completedCount == CompletedCount(Pooled(scored)) && run.failedCount == |scored| - run.completedCount
    ensures Summarises(run, Scored(rows, results))
  {
    hide Aggregates, RunsAs, FromParser, IsScore, FromItem, Group, Labels;
    var scored := Scored(rows, results);
    forall score | score in Pooled(scored)
      ensures FromItem(score)
    {
      var n :| 0 <= n < |scored| && Pooled(scored)[n] == score;
      assert RecordsItem(discount, id, n, rows[n], attempts[n], generates, results[n]);
    }
    FailedAreExecutionErrors(Pooled(scored));
    assert run.report.value.byCondition.Keys == Labels(scored);
  }

  /** A run completes, with a row for every item, exactly when the providers could be
      set up, the last commit went through and no item raised anything but a
      `DomainError`; it stays RUNNING, with nothing recorded, when the first thing to
      go wrong was anything else. */
  lemma RunCompletesIff(setup: Option<Failure>, rows: seq<ItemRow>, attempts: seq<Attempt>, generates: bool, finishing: Option<Failure>)
    requires |rows| == |attempts|
    ensures var status := StatusAfter(EndingOf(setup, rows, attempts, generates, finishing));
            && (status == COMPLETED
                <==> setup.None? && finishing.None? && forall n | 0 <= n < |rows| :: rows[n].known && !Escapes(attempts[n], generates))
            && (status == RUNNING
                <==> if setup.Some? then setup.value.OtherException?
                     else finishing == Some(OtherException)
                          || exists n | 0 <= n < |rows| :: !rows[n].known || Escapes(attempts[n], generates))
            && (status == FAILED <==> status != COMPLETED && status != RUNNING)
  {
    hide Escapes;
    if n :| 0 <= n < |rows| && (!rows[n].known || Escapes(attempts[n], generates)) {
      assert ItemEscapes(rows[n], attempts[n], generates);
    }
  }

  // ----- what is recorded -----

  /** An item is recorded as an execution error exactly when it failed, and never as
      an invented citation. */
  lemma RecordedCategory(discount: Discount, id: Uuid, n: nat, row: ItemRow, attempt: Attempt, generates: bool, result: ResultRow)
    requires RecordsItem(discount, id, n, row, attempt, generates, result)
    ensures result.score.failureCategory == Some(ExecutionError) <==> FailsCleanly(attempt, generates)
    ensures result.score.failureCategory != Some(InventedCitation)
  {
    hide HasDepth, PlainMetrics, Generates, GenerationEscapes, GenerationFails, FromItem, FromParser, AtDepth;
    var run: ItemRun :| RunsAs(attempt, generates, run) && FromParser(run) && result.observation == ObservationOf(run)
      && IsScore(discount, SpecOf(row), result.observation, DEFAULT_K_VALUES, result.score);
    InventedCitationIsUnreachable(SpecOf(row), run);
    assert run.ItemFailed? ==> run.code != "";
  }

  /** What is observed, from what retrieval and the model returned. */
  lemma ObservationTells(attempt: Attempt, generates: bool, run: ItemRun)
    requires RunsAs(attempt, generates, run)
    ensures var o := ObservationOf(run);
            if FailsCleanly(attempt, generates) then
              && o.retrieved == [] && o.claims == [] && !o.abstained && o.inputTokens == 0 && o.outputTokens == 0
              && o.errorCode == Some(
                   if attempt.RetrievalFails? then attempt.failure.code
                   else if attempt.reply.ModelFails? then attempt.reply.failure.code
                   else "GENERATION_FAILED")
            else
              && attempt.Retrieves? && o.retrieved == attempt.ids && o.errorCode == None
              && (generates && attempt.ids != [] ==>
                    && attempt.reply.Replies? && attempt.reply.payload.AnswerObject?
                    && o.inputTokens == attempt.reply.inputTokens && o.outputTokens == attempt.reply.outputTokens
                    && o.abstained == attempt.reply.payload.abstained)
              && (!generates || attempt.ids == [] ==>
                    && o.inputTokens == 0 && o.outputTokens == 0 && o.claims == []
                    && o.abstained == generates)
  {
    hide IsParsed, Overflows;
    if generates && !FailsCleanly(attempt, generates) && attempt.ids != [] {
      Unparsed(attempt.reply.payload, run.ids, run.answer);
    }
  }

  lemma Unparsed(payload: Payload, ids: seq<Uuid>, answer: GeneratedAnswer)
    requires payload.AnswerObject? && IsParsed(payload, ids, answer)
    ensures answer.abstained == payload.abstained
  {
    hide AreClaims, KeptClaims, TotalInvented;
  }

  /** Each observed claim is an entry of the reply with its text, and each entry with a
      text is observed. */
  lemma ClaimsTell(attempt: Attempt, run: ItemRun)
    requires RunsAs(attempt, true, run) && !FailsCleanly(attempt, true) && attempt.ids != []
    requires attempt.reply.payload.claims.Entries?
    ensures var (entries, claims) := (attempt.reply.payload.claims.entries, ObservationOf(run).claims);
            && (forall c | c in claims :: exists raw | raw in entries :: raw.ClaimObject? && raw.text != "" && raw.text == c.text)
            && (forall raw | raw in entries && raw.ClaimObject? && raw.text != "" :: exists c | c in claims :: c.text == raw.text)
  {
    var entries := attempt.reply.payload.claims.entries;
    hide RunsAs, KeptClaims, AreClaims;
    KeptAre(entries);
    ClaimsOfRun(attempt, run);
    TextsTell(KeptClaims(entries), run.ids, run.answer.claims);
  }

  lemma ClaimsOfRun(attempt: Attempt, run: ItemRun)
    requires RunsAs(attempt, true, run) && !FailsCleanly(attempt, true) && attempt.ids != []
    requires attempt.reply.payload.claims.Entries?
    ensures run.Generated? && AreClaims(KeptClaims(attempt.reply.payload.claims.entries), run.ids, run.answer.claims)
  {
    hide Overflows, KeptClaims, TotalInvented, AreClaims;
  }

  lemma TextsTell(kept: seq<RawClaim>, ids: seq<Uuid>, claims: seq<Claim>)
    requires AreClaims(kept, ids, claims)
    ensures var cited := CitationsOf(claims);
            && (forall c | c in cited :: exists raw | raw in kept :: raw.ClaimObject? && raw.text == c.text)
            && (forall raw | raw in kept && raw.ClaimObject? :: exists c | c in cited :: c.text == raw.text)
  {
    hide Resolves;
    var cited := CitationsOf(claims);
    forall c | c in cited
      ensures exists raw | raw in kept :: raw.ClaimObject? && raw.text == c.text
    {
      var i :| 0 <= i < |cited| && cited[i] == c;
      assert IsClaim(kept[i], ids, claims[i]) && kept[i] in kept;
    }
    forall raw | raw in kept && raw.ClaimObject?
      ensures exists c | c in cited :: c.text == raw.text
    {
      var i :| 0 <= i < |kept| && kept[i] == raw;
      assert IsClaim(kept[i], ids, claims[i]) && cited[i] in cited;
    }
  }

  /** Abstaining is right exactly on incomplete items, and wrong in one of two ways;
      what was missed is what the item calls gold. */
  lemma AbstentionByCondition(discount: Discount, id: Uuid, n: nat, row: ItemRow, attempt: Attempt, generates: bool, result: ResultRow)
    requires RecordsItem(discount, id, n, row, attempt, generates, result)
    ensures var (o, failed) := (result.observation, FailsCleanly(attempt, generates));
            var missed := |row.goldChunks| > 0 && forall x | x in o.retrieved :: x !in row.goldChunks;
            && Has(result.score, AbstentionCorrect, Some(if o.abstained <==> row.condition == "incomplete" then 1.0 else 0.0))
            && (result.score.failureCategory == Some(RetrievalMiss) <==> !failed && missed)
            && (result.score.failureCategory == Some(OverAbstention)
                <==> !failed && !missed && o.abstained && row.condition != "incomplete")
            && (result.score.failureCategory == Some(AnsweredWithoutEvidence)
                <==> !failed && !missed && !o.abstained && row.condition == "incomplete")
  {
    hide IsScore, RunsAs, FailsCleanly, FromParser, FromItem;
    RecordedCategory(discount, id, n, row, attempt, generates, result);
    ScoreRepeatsObservation(discount, SpecOf(row), result.observation, DEFAULT_K_VALUES, result.score);
    CategoriesAre(discount, SpecOf(row), result.observation, DEFAULT_K_VALUES, result.score);
  }

  /** A recorded score looks at the first 1, 3, 5 and 10 results. */
  lemma DepthsRecorded(discount: Discount, id: Uuid, n: nat, row: ItemRow, attempt: Attempt, generates: bool, result: ResultRow, k: int)
    requires RecordsItem(discount, id, n, row, attempt, generates, result)
    ensures Recall(k) in result.score.metrics <==> k in {1, 3, 5, 10}
    ensures result.run == id && result.item == n
  {
    hide IsScore, RunsAs, FromParser, FromItem;
    DepthMetricsAre(discount, SpecOf(row), result.observation, DEFAULT_K_VALUES, result.score, k);
  }

  ghost function FailedAttempts(attempts: seq<Attempt>, generates: bool): nat {
    if |attempts| == 0 then 0
    else FailedAttempts(attempts[..|attempts| - 1], generates) + if FailsCleanly(attempts[|attempts| - 1], generates) then 1 else 0
  }

  lemma {:induction false} FailuresAreCounted(
    discount: Discount, id: Uuid, rows: seq<ItemRow>, attempts: seq<Attempt>, generates: bool, results: seq<ResultRow>)
    requires |rows| == |attempts| && RecordsAll(discount, id, rows, attempts, generates, results)
    ensures CategoryCount(Pooled(Scored(rows, results)), ExecutionError) == FailedAttempts(attempts, generates)
  {
    hide RecordsItem, FailsCleanly;
    if |rows| > 0 {
      var n := |rows| - 1;
      RecordedCategory(discount, id, n, rows[n], attempts[n], generates, results[n]);
      FailuresAreCounted(discount, id, rows[..n], attempts[..n], generates, results[..n]);
      var scores := Pooled(Scored(rows, results));
      assert scores[..n] == Pooled(Scored(rows[..n], results[..n]));
    }
  }

  /** A completed run's failed count is the number of its items that failed, however. */
  lemma FailedCountIsFailures(
    discount: Discount, id: Uuid, rows: seq<ItemRow>, attempts: seq<Attempt>, generates: bool, results: seq<ResultRow>, run: RunRow)
    requires |rows| == |attempts| && RecordsAll(discount, id, rows, attempts, generates, results)
    requires Summarises(run, Scored(rows, results))
    ensures run.failedCount == FailedAttempts(attempts, generates)
    ensures run.completedCount == |rows| - FailedAttempts(attempts, generates)
  {
    hide RecordsItem, Aggregates, FailsCleanly;
    FailuresAreCounted(discount, id, rows, attempts, generates, results);
  }
}
