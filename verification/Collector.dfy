/**
 `TraceCollector` as the object it is, and the pipeline code that runs on it.
 Programs are trees of stages, exceptions and handlers; running one on a collector
 completes exactly the calls the program makes, at the innermost open level.
 */
module Collector {
  import opened Wrappers
  import opened Identifiers
  import opened Sorting
  import opened Tracing

  datatype Usage = Usage(inputTokens: int, outputTokens: int, cost: Option<real>)

  const NO_USAGE := Usage(0, 0, None)

  /** Costs add up; no cost at all stays no cost. */
  function Plus(u: Usage, v: Usage): Usage {
    Usage(u.inputTokens + v.inputTokens, u.outputTokens + v.outputTokens,
          if v.cost.None? then u.cost else Some((if u.cost.Some? then u.cost.value else 0.0) + v.cost.value))
  }

  datatype TraceRecord = TraceRecord(
    traceId: Uuid, status: Status, spans: seq<SpanRecord>, usage: Usage,
    errorCode: Option<string>, errorMessage: Option<string>)
  {
    /** `TraceRecord.stage`: the first span of a stage. */
    function StageSpan(stage: Stage): (r: Option<SpanRecord>)
      ensures r.None? <==> forall s | s in spans :: s.report.stage != stage
      ensures r.Some? ==> exists i | 0 <= i < |spans| ::
        spans[i] == r.value && r.value.report.stage == stage && forall j | 0 <= j < i :: spans[j].report.stage != stage
    {
      FirstOf(spans, stage)
    }
  }

  function FirstOf(spans: seq<SpanRecord>, stage: Stage): (r: Option<SpanRecord>)
    ensures r.None? <==> forall s | s in spans :: s.report.stage != stage
    ensures r.Some? ==> exists i | 0 <= i < |spans| ::
      spans[i] == r.value && r.value.report.stage == stage && forall j | 0 <= j < i :: spans[j].report.stage != stage
  {
    if |spans| == 0 then None
    else if spans[0].report.stage == stage then Some(spans[0])
    else
      var r := FirstOf(spans[1..], stage);
      assert r.Some? ==> exists i | 0 <= i < |spans[1..]| ::
        spans[1..][i] == r.value && forall j | 0 <= j < i :: spans[1..][j].report.stage != stage;
      r
  }

  class TraceCollector {
    const traceId: Uuid
    var spans: seq<SpanRecord>
    var stack: seq<SpanId>
    var sequence: nat
    var usage: Usage
    /** The calls behind the flat fields. */
    ghost var spine: Spine
    /** How high the stack was when each span opened, in start order. */
    ghost var heights: seq<nat>

    ghost predicate Valid()
      reads this
    {
      && sequence == spine.Started()
      && stack == StackOf(traceId, spine, 0)
      && spans == PostSpine(traceId, spine, None, 0)
      && heights == OpenHeights(spine, 0)
    }

    constructor (traceId: Uuid)
      ensures Valid() && this.traceId == traceId
      ensures spine == Here(Nil) && heights == [] && usage == NO_USAGE
    {
      this.traceId := traceId;
      spans, stack, sequence, usage := [], [], 0, NO_USAGE;
      spine, heights := Here(Nil), [];
      new;
      NoSpansPost(traceId, None, 0);
    }

    method RecordUsage(more: Usage)
      requires Valid()
      modifies this`usage
      ensures Valid()
      ensures usage.inputTokens == old(usage).inputTokens + more.inputTokens
      ensures usage.outputTokens == old(usage).outputTokens + more.outputTokens
      ensures more.cost.None? ==> usage.cost == old(usage).cost
      ensures more.cost.Some? && old(usage).cost.None? ==> usage.cost == more.cost
      ensures more.cost.Some? && old(usage).cost.Some? ==> usage.cost == Some(old(usage).cost.value + more.cost.value)
    {
      usage := Plus(usage, more);
    }

    /** What `span` does before its body runs. */
    method Enter(stage: Stage) returns (open: OpenSpan)
      requires Valid()
      modifies this`stack, this`sequence, this`spine, this`heights
      ensures Valid() && spine == old(spine).Open(stage)
      ensures stack == old(stack) + [open.spanId] && open.parent == Top(old(stack)) && open.sequence == old(sequence)
      ensures open == Innermost(traceId, spine, None, 0)
      ensures heights == old(heights) + [|old(stack)|]
    {
      open := OpenSpan(Drawn(traceId, sequence), Top(stack), sequence, stage);
      OpenPushes(traceId, spine, stage, 0);
      OpenRecordsNothing(traceId, spine, stage, None, 0);
      OpenLocals(traceId, spine, stage, None, 0);
      OpenAddsHeight(traceId, spine, stage, 0, 0);
      heights := heights + [|stack|];
      sequence := sequence + 1;
      stack := stack + [open.spanId];
      spine := spine.Open(stage);
    }

    /** What `span` does once its body has returned or raised. */
    method Exit(open: OpenSpan, outcome: Outcome)
      requires Valid() && spine.Inside?
      requires open == Innermost(traceId, spine, None, 0)
      modifies this`stack, this`spans, this`spine
      ensures Valid() && spine == old(spine).Close(outcome)
      ensures stack == old(stack)[..|old(stack)| - 1]
      ensures spans == old(spans) + [Recorded(open, outcome)]
    {
      ClosePops(traceId, spine, outcome, 0);
      CloseRecords(traceId, spine, outcome, None, 0);
      CloseKeepsHeights(spine, outcome, 0);
      var status := OK;
      var errorCode, errorMessage: Option<string> := None, None;
      match outcome {
        case Returned =>
        case Failed(Domain(code, message)) =>
          status, errorCode, errorMessage := ERROR, Some(code), Some(message);
        case Failed(Unexpected(message)) =>
          status, errorCode, errorMessage := ERROR, Some("INTERNAL_ERROR"), Some(message);
        case Failed(NotAnException) =>
      }
      stack := stack[..|stack| - 1];
      spans := spans + [SpanRecord(open.sequence, open.spanId, open.parent, Report(open.stage, status, errorCode, errorMessage))];
      spine := spine.Close(outcome);
    }

    /** The finished record lists every completed span parents first, at any moment. */
    method Finish(errorCode: Option<string>, errorMessage: Option<string>) returns (record: TraceRecord)
      requires Valid()
      ensures record.spans == PreSpine(traceId, spine, None, 0)
      ensures record.traceId == traceId && record.usage == usage
      ensures record.errorCode == errorCode && record.errorMessage == errorMessage
      ensures record.status == ERROR <==> errorCode.Some? || exists s | s in record.spans :: s.report.status == ERROR
    {
      var failed := errorCode.Some? || exists s | s in spans :: s.report.status == ERROR;
      var ordered := SortBy(spans, StartedBefore);
      SortByContents(spans, StartedBefore);
      assert forall s :: s in spans <==> s in multiset(ordered);
      SortedSpansArePreOrder(traceId, spine, None, 0);
      record := TraceRecord(traceId, if failed then ERROR else OK, ordered, usage, errorCode, errorMessage);
    }
  }

  // ----- pipeline code -----

  /** Code that runs under a collector: use some tokens, open a stage, catch what
      a piece of code raises, raise. */
  datatype Code =
    | Done
    | Raise(raised: Raised)
    | Use(usage: Usage, rest: Code)
    | Span(stage: Stage, body: Code, rest: Code)
    | Try(attempt: Code, handler: Code, rest: Code)

  function OutcomeOf(code: Code): Outcome {
    match code
    case Done => Returned
    case Raise(raised) => Failed(raised)
    case Use(_, rest) => OutcomeOf(rest)
    case Span(_, body, rest) => if OutcomeOf(body).Failed? then OutcomeOf(body) else OutcomeOf(rest)
    case Try(attempt, handler, rest) =>
      if OutcomeOf(attempt).Failed? && OutcomeOf(handler).Failed? then OutcomeOf(handler) else OutcomeOf(rest)
  }

  /** The stages the code actually reaches, nested as they ran. */
  function Calls(code: Code): Forest<Call> {
    match code
    case Done => Nil
    case Raise(_) => Nil
    case Use(_, rest) => Calls(rest)
    case Span(stage, body, rest) =>
      Tree(Call(stage, OutcomeOf(body)), Calls(body), if OutcomeOf(body).Failed? then Nil else Calls(rest))
    case Try(attempt, handler, rest) =>
      if OutcomeOf(attempt).Returned? then Append(Calls(attempt), Calls(rest))
      else if OutcomeOf(handler).Returned? then Append(Append(Calls(attempt), Calls(handler)), Calls(rest))
      else Append(Calls(attempt), Calls(handler))
  }

  /** Every usage report the code reaches, in order. */
  function Used(code: Code): seq<Usage> {
    match code
    case Done => []
    case Raise(_) => []
    case Use(usage, rest) => [usage] + Used(rest)
    case Span(_, body, rest) => Used(body) + if OutcomeOf(body).Failed? then [] else Used(rest)
    case Try(attempt, handler, rest) =>
      Used(attempt)
      + (if OutcomeOf(attempt).Failed? then Used(handler) else [])
      + (if OutcomeOf(attempt).Failed? && OutcomeOf(handler).Failed? then [] else Used(rest))
  }

  function Total(from: Usage, reports: seq<Usage>): Usage
    decreases |reports|
  {
    if |reports| == 0 then from else Total(Plus(from, reports[0]), reports[1..])
  }

  lemma TotalNothing(from: Usage)
    ensures Total(from, []) == from
  {
  }

  lemma TotalFirst(from: Usage, first: Usage, rest: seq<Usage>)
    ensures Total(from, [first] + rest) == Total(Plus(from, first), rest)
  {
    assert ([first] + rest)[1..] == rest;
  }

  lemma {:induction false} TotalConcat(from: Usage, a: seq<Usage>, b: seq<Usage>)
    ensures Total(from, a + b) == Total(Total(from, a), b)
    decreases |a|
  {
    if |a| == 0 {
      assert a + b == b;
    } else {
      assert (a + b)[1..] == a[1..] + b;
      TotalConcat(Plus(from, a[0]), a[1..], b);
    }
  }

  lemma {:induction false} AppendNil<L>(f: Forest<L>)
    ensures Append(f, Nil) == f
  {
    match f
    case Nil =>
    case Tree(_, _, sib) => AppendNil(sib);
  }

  lemma AppendToOne<L>(root: L, children: Forest<L>, g: Forest<L>)
    ensures Append(Tree(root, children, Nil), g) == Tree(root, children, g)
  {
  }

  lemma {:induction false} AppendAssociative<L>(f: Forest<L>, g: Forest<L>, h: Forest<L>)
    ensures Append(Append(f, g), h) == Append(f, Append(g, h))
  {
    match f
    case Nil =>
    case Tree(_, _, sib) => AppendAssociative(sib, g, h);
  }

  lemma {:induction false} AddNothing(s: Spine)
    ensures s.Add(Nil) == s
  {
    AppendNil(s.done);
    if s.Inside? {
      AddNothing(s.within);
    }
  }

  lemma {:induction false} AddTwice(s: Spine, f: Forest<Call>, g: Forest<Call>)
    ensures s.Add(f).Add(g) == s.Add(Append(f, g))
  {
    AppendAssociative(s.done, f, g);
    if s.Inside? {
      AddTwice(s.within, f, g);
    }
  }

  /** Opening a span, completing calls in it and closing it completes one call. */
  lemma {:induction false} OpenAddClose(s: Spine, stage: Stage, f: Forest<Call>, outcome: Outcome)
    ensures s.Open(stage).Add(f).Inside?
    ensures s.Open(stage).Add(f).Close(outcome) == s.Add(Tree(Call(stage, outcome), f, Nil))
    ensures forall trace: Uuid, parent: Option<SpanId>, n: nat ::
      Innermost(trace, s.Open(stage).Add(f), parent, n) == Innermost(trace, s.Open(stage), parent, n)
  {
    if s.Inside? {
      OpenAddClose(s.within, stage, f, outcome);
    }
  }

  /** Running code leaves the collector with the same open spans, whatever it
      raises, and with the calls it made completed below them. */
  method Run(c: TraceCollector, code: Code) returns (outcome: Outcome)
    requires c.Valid()
    modifies c
    ensures c.Valid()
    ensures outcome == OutcomeOf(code)
    ensures c.spine == old(c.spine).Add(Calls(code))
    ensures c.stack == old(c.stack)
    ensures c.usage == Total(old(c.usage), Used(code))
    decreases code
  {
    hide TraceCollector.Valid, Innermost, StackOf, PostSpine, OpenHeights, Total, Append;
    ghost var spine := c.spine;
    TotalNothing(c.usage);
    match code
    case Done =>
      outcome := Returned;
      AddNothing(spine);
    case Raise(raised) =>
      outcome := Failed(raised);
      AddNothing(spine);
    case Use(usage, rest) =>
      c.RecordUsage(usage);
      assert c.usage == Plus(old(c.usage), usage);
      TotalFirst(old(c.usage), usage, Used(rest));
      outcome := Run(c, rest);
    case Span(stage, body, rest) =>
      var open := c.Enter(stage);
      outcome := Run(c, body);
      OpenAddClose(spine, stage, Calls(body), outcome);
      c.Exit(open, outcome);
      var call := Tree(Call(stage, outcome), Calls(body), Nil);
      TotalConcat(old(c.usage), Used(body), if outcome.Failed? then [] else Used(rest));
      TotalNothing(c.usage);
      if outcome.Returned? {
        outcome := Run(c, rest);
        AddTwice(spine, call, Calls(rest));
        AppendToOne(Call(stage, Returned), Calls(body), Calls(rest));
      }
    case Try(attempt, handler, rest) =>
      outcome := Run(c, attempt);
      ghost var ran, used := Calls(attempt), Used(attempt);
      if outcome.Failed? {
        outcome := Run(c, handler);
        AddTwice(spine, ran, Calls(handler));
        TotalConcat(old(c.usage), used, Used(handler));
        ran, used := Append(ran, Calls(handler)), used + Used(handler);
      }
      if outcome.Returned? {
        outcome := Run(c, rest);
        AddTwice(spine, ran, Calls(rest));
        TotalConcat(old(c.usage), used, Used(rest));
      }
      assert c.usage == Total(old(c.usage), Used(code)) by {
        assert used + [] == used;
      }
  }

  /** The call raised something an `except Exception` clause sees. */
  predicate RaisedException(call: Call) {
    call.outcome.Failed? && !call.outcome.raised.NotAnException?
  }

  /** Record by record, what is reported is what was called. */
  ghost predicate Reporting(records: seq<SpanRecord>, calls: seq<Call>) {
    |records| == |calls| && forall i | 0 <= i < |records| :: records[i].report == ReportOf(calls[i])
  }

  lemma ReportingConcat(a: seq<SpanRecord>, b: seq<SpanRecord>, x: seq<Call>, y: seq<Call>)
    requires Reporting(a, x) && Reporting(b, y)
    ensures Reporting(a + b, x + y)
  {
    hide ReportOf;
  }

  lemma {:induction false} RecordsReport(trace: Uuid, f: Forest<Call>, parent: Option<SpanId>, n: nat)
    ensures Reporting(PreOrder(Records(trace, f, parent, n)), PreOrder(f))
  {
    if f.Tree? {
      hide Records, ReportOf;
      var m := n + 1 + Size(f.children);
      FirstSpan(trace, f, parent, n);
      RecordsReport(trace, f.children, Some(Drawn(trace, n)), n + 1);
      RecordsReport(trace, f.siblings, parent, m);
      ReportInOrder(trace, f, parent, n);
    }
  }

  lemma ReportInOrder(trace: Uuid, f: Forest<Call>, parent: Option<SpanId>, n: nat)
    requires f.Tree?
    requires Reporting(PreOrder(Records(trace, f.children, Some(Drawn(trace, n)), n + 1)), PreOrder(f.children))
    requires Reporting(PreOrder(Records(trace, f.siblings, parent, n + 1 + Size(f.children))), PreOrder(f.siblings))
    ensures Reporting(
      [SpanRecord(n, Drawn(trace, n), parent, ReportOf(f.root))]
      + PreOrder(Records(trace, f.children, Some(Drawn(trace, n)), n + 1))
      + PreOrder(Records(trace, f.siblings, parent, n + 1 + Size(f.children))), PreOrder(f))
  {
    hide Records, ReportOf, Reporting;
    var first := SpanRecord(n, Drawn(trace, n), parent, ReportOf(f.root));
    var inner := PreOrder(Records(trace, f.children, Some(Drawn(trace, n)), n + 1));
    assert Reporting([first], [f.root]) by { ReportsOne(first, f.root); }
    ReportingConcat([first], inner, [f.root], PreOrder(f.children));
    ReportingConcat([first] + inner, PreOrder(Records(trace, f.siblings, parent, n + 1 + Size(f.children))),
                    [f.root] + PreOrder(f.children), PreOrder(f.siblings));
  }

  lemma ReportsOne(record: SpanRecord, call: Call)
    requires record.report == ReportOf(call)
    ensures Reporting([record], [call])
  {
  }

  /** A record has status ERROR exactly when its call raised an exception the handlers name. */
  lemma ErrorsAreExceptions(trace: Uuid, f: Forest<Call>, parent: Option<SpanId>, n: nat)
    ensures Size(Records(trace, f, parent, n)) == Size(f)
    ensures forall i | 0 <= i < Size(f) ::
      PreOrder(Records(trace, f, parent, n))[i].report.status == ERROR <==> RaisedException(PreOrder(f)[i])
    ensures (exists s | s in PreOrder(Records(trace, f, parent, n)) :: s.report.status == ERROR)
       <==> exists call | call in PreOrder(f) :: RaisedException(call)
  {
    RecordsReport(trace, f, parent, n);
    RecordsSize(trace, f, parent, n);
    hide PreOrder, Records;
    var spans, calls := PreOrder(Records(trace, f, parent, n)), PreOrder(f);
    assert forall i | 0 <= i < |calls| :: spans[i].report.status == ERROR <==> RaisedException(calls[i]);
    if s :| s in spans && s.report.status == ERROR {
      var i :| 0 <= i < |spans| && spans[i] == s;
      assert RaisedException(calls[i]);
    }
    if call :| call in calls && RaisedException(call) {
      var i :| 0 <= i < |calls| && calls[i] == call;
      assert spans[i].report.status == ERROR;
    }
  }

  /** What a record says of a call: its stage, and how the stage was left. */
  lemma RecordsTell(trace: Uuid, f: Forest<Call>, parent: Option<SpanId>, n: nat, i: nat)
    requires i < Size(f)
    ensures Size(Records(trace, f, parent, n)) == Size(f)
    ensures var said, call := PreOrder(Records(trace, f, parent, n))[i].report, PreOrder(f)[i];
            && said.stage == call.stage
            && (call.outcome.Returned? ==> said.status == OK && said.errorCode == None && said.errorMessage == None)
            && (forall code, message | call.outcome == Failed(Domain(code, message)) ::
                  said.status == ERROR && said.errorCode == Some(code) && said.errorMessage == Some(message))
            && (forall message | call.outcome == Failed(Unexpected(message)) ::
                  said.status == ERROR && said.errorCode == Some("INTERNAL_ERROR") && said.errorMessage == Some(message))
            && (call.outcome == Failed(NotAnException) ==> said.status == OK && said.errorCode == None && said.errorMessage == None)
  {
    RecordsSize(trace, f, parent, n);
    RecordsReport(trace, f, parent, n);
    hide PreOrder, Records;
  }

  /** A whole traced execution: what it records is the pre-order of the calls it
      made, the calls can be read back from it, and it counts as failed when it was
      told so or when some stage raised an exception, caught or not. */
  method TraceExecution(traceId: Uuid, code: Code, errorCode: Option<string>, errorMessage: Option<string>)
    returns (outcome: Outcome, record: TraceRecord)
    ensures outcome == OutcomeOf(code)
    ensures record.spans == PreOrder(Records(traceId, Calls(code), None, 0))
    ensures ReadForest(record.spans, None) == (Reports(Calls(code)), [])
    ensures |record.spans| == Size(Calls(code))
    ensures forall i | 0 <= i < |record.spans| ::
      var said, call := record.spans[i].report, PreOrder(Calls(code))[i];
      && said.stage == call.stage
      && (call.outcome.Returned? ==> said.status == OK && said.errorCode == None && said.errorMessage == None)
      && (forall code, message | call.outcome == Failed(Domain(code, message)) ::
            said.status == ERROR && said.errorCode == Some(code) && said.errorMessage == Some(message))
      && (forall message | call.outcome == Failed(Unexpected(message)) ::
            said.status == ERROR && said.errorCode == Some("INTERNAL_ERROR") && said.errorMessage == Some(message))
      && (call.outcome == Failed(NotAnException) ==> said.status == OK && said.errorCode == None && said.errorMessage == None)
    ensures record.usage.inputTokens == InputTokens(Used(code)) && record.usage.outputTokens == OutputTokens(Used(code))
    ensures record.usage.cost == if Costs(Used(code)) == [] then None else Some(SumOf(Costs(Used(code))))
    ensures record.status == ERROR <==> errorCode.Some? || exists call | call in PreOrder(Calls(code)) :: RaisedException(call)
  {
    hide PreOrder, Records, ReportOf;
    var collector := new TraceCollector(traceId);
    outcome := Run(collector, code);
    record := collector.Finish(errorCode, errorMessage);
    RecordsSize(traceId, Calls(code), None, 0);
    forall i | 0 <= i < |record.spans| {
      RecordsTell(traceId, Calls(code), None, 0, i);
    }
    ForestIsRebuilt(traceId, Calls(code));
    ErrorsAreExceptions(traceId, Calls(code), None, 0);
    UsageIsTotalled(NO_USAGE, Used(code));
  }

  /** A cancelled stage leaves a record that says it succeeded. */
  lemma CancelledStageLooksFine(trace: Uuid, stage: Stage)
    ensures var code := Span(stage, Raise(NotAnException), Done);
            OutcomeOf(code).Failed?
            && PreOrder(Records(trace, Calls(code), None, 0)) == [SpanRecord(0, Drawn(trace, 0), None, Report(stage, OK, None, None))]
  {
    var code := Span(stage, Raise(NotAnException), Done);
    assert Calls(code) == Tree(Call(stage, Failed(NotAnException)), Nil, Nil);
    OneSpan(trace, Call(stage, Failed(NotAnException)), Nil, None, 0);
  }

  function InputTokens(reports: seq<Usage>): int {
    if |reports| == 0 then 0 else reports[0].inputTokens + InputTokens(reports[1..])
  }

  function OutputTokens(reports: seq<Usage>): int {
    if |reports| == 0 then 0 else reports[0].outputTokens + OutputTokens(reports[1..])
  }

  /** The costs that were reported. */
  function Costs(reports: seq<Usage>): seq<real> {
    if |reports| == 0 then []
    else (if reports[0].cost.Some? then [reports[0].cost.value] else []) + Costs(reports[1..])
  }

  function SumOf(costs: seq<real>): real {
    if |costs| == 0 then 0.0 else costs[0] + SumOf(costs[1..])
  }

  /** What reporting usage one after another comes to: sums of tokens, and a cost that
      is absent exactly when nothing had a price and otherwise the sum of the prices. */
  lemma {:induction false} UsageIsTotalled(from: Usage, reports: seq<Usage>)
    ensures var total := Total(from, reports);
            && total.inputTokens == from.inputTokens + InputTokens(reports)
            && total.outputTokens == from.outputTokens + OutputTokens(reports)
            && (total.cost.None? <==> from.cost.None? && Costs(reports) == [])
            && (total.cost.Some? ==>
                  total.cost.value == (if from.cost.Some? then from.cost.value else 0.0) + SumOf(Costs(reports)))
    decreases |reports|
  {
    if |reports| > 0 {
      UsageIsTotalled(Plus(from, reports[0]), reports[1..]);
      if reports[0].cost.Some? {
        var price, others := reports[0].cost.value, Costs(reports[1..]);
        assert Costs(reports) == [price] + others && ([price] + others)[1..] == others;
      } else {
        assert Costs(reports) == Costs(reports[1..]);
      }
    }
  }
}
