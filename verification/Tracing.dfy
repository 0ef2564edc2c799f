/**
 The in-memory trace recorder, backend/core/tracing/recorder.py.

 The collector is a flat machine: a stack of open span identifiers, a list of
 records in completion order and a counter. What it means is a `Spine`: the calls
 completed so far, grouped under the spans that are still open.
 */
module Tracing {
  import opened Wrappers
  import opened Identifiers
  import opened Sorting

  type Stage = string

  /** A span identifier: the n-th the trace draws, so never one drawn before. */
  datatype SpanId = Drawn(trace: Uuid, nth: nat)

  datatype Status = OK | ERROR

  /** What can leave a stage's body: a `DomainError`, any other `Exception`, or
      something the handlers do not name because it is not an `Exception`
      (a cancelled task). */
  datatype Raised =
    | Domain(code: string, message: string)
    | Unexpected(message: string)
    | NotAnException

  datatype Outcome = Returned | Failed(raised: Raised)

  datatype Call = Call(stage: Stage, outcome: Outcome)

  /** The part of a span record that says what happened. */
  datatype Report = Report(stage: Stage, status: Status, errorCode: Option<string>, errorMessage: Option<string>)

  datatype SpanRecord = SpanRecord(sequence: nat, spanId: SpanId, parent: Option<SpanId>, report: Report)

  /** The locals `span` keeps while its body runs. */
  datatype OpenSpan = OpenSpan(spanId: SpanId, parent: Option<SpanId>, sequence: nat, stage: Stage)

  function ReportOf(call: Call): Report {
    match call.outcome
    case Returned => Report(call.stage, OK, None, None)
    case Failed(Domain(code, message)) => Report(call.stage, ERROR, Some(code), Some(message))
    case Failed(Unexpected(message)) => Report(call.stage, ERROR, Some("INTERNAL_ERROR"), Some(message))
    case Failed(NotAnException) => Report(call.stage, OK, None, None)
  }

  /** An ordered forest, first child and next sibling. */
  datatype Forest<L> = Nil | Tree(root: L, children: Forest<L>, siblings: Forest<L>)

  function Size<L>(f: Forest<L>): nat {
    match f
    case Nil => 0
    case Tree(_, ch, sib) => 1 + Size(ch) + Size(sib)
  }

  function Append<L>(f: Forest<L>, g: Forest<L>): (r: Forest<L>)
    ensures Size(r) == Size(f) + Size(g)
  {
    match f
    case Nil => g
    case Tree(root, ch, sib) => Tree(root, ch, Append(sib, g))
  }

  function Reports(f: Forest<Call>): Forest<Report> {
    match f
    case Nil => Nil
    case Tree(call, ch, sib) => Tree(ReportOf(call), Reports(ch), Reports(sib))
  }

  /** Parents first. */
  function PreOrder<L>(f: Forest<L>): (r: seq<L>)
    ensures |r| == Size(f)
  {
    match f
    case Nil => []
    case Tree(root, ch, sib) => [root] + PreOrder(ch) + PreOrder(sib)
  }

  /** Children first. */
  function PostOrder<L>(f: Forest<L>): (r: seq<L>)
    ensures |r| == Size(f)
  {
    match f
    case Nil => []
    case Tree(root, ch, sib) => PostOrder(ch) + [root] + PostOrder(sib)
  }

  /** The records of a forest of calls: the n-th span to start has number n and the
      n-th identifier, and its parent is the span that contains it. */
  function Records(trace: Uuid, f: Forest<Call>, parent: Option<SpanId>, n: nat): Forest<SpanRecord>
  {
    match f
    case Nil => Nil
    case Tree(call, ch, sib) =>
      Tree(SpanRecord(n, Drawn(trace, n), parent, ReportOf(call)),
           Records(trace, ch, Some(Drawn(trace, n)), n + 1),
           Records(trace, sib, parent, n + 1 + Size(ch)))
  }

  /** Completed calls below the open spans, outermost first. */
  datatype Spine =
    | Here(done: Forest<Call>)
    | Inside(done: Forest<Call>, stage: Stage, within: Spine)
  {
    function Started(): nat {
      match this
      case Here(done) => Size(done)
      case Inside(done, _, within) => Size(done) + 1 + within.Started()
    }

    function Open(stage: Stage): (s: Spine)
      ensures s.Inside? && s.Started() == Started() + 1
    {
      match this
      case Here(done) => Inside(done, stage, Here(Nil))
      case Inside(done, outer, within) => Inside(done, outer, within.Open(stage))
    }

    function Close(outcome: Outcome): (s: Spine)
      requires Inside?
      ensures s.Started() == Started()
    {
      assert Size<Call>(Nil) == 0;
      if within.Here? then Here(Append(done, Tree(Call(stage, outcome), within.done, Nil)))
      else Inside(done, stage, within.Close(outcome))
    }

    /** More calls completed at the innermost level. */
    function Add(f: Forest<Call>): (s: Spine)
      ensures s.Started() == Started() + Size(f)
      ensures s.Inside? == Inside?
    {
      match this
      case Here(done) => Here(Append(done, f))
      case Inside(done, stage, within) => Inside(done, stage, within.Add(f))
    }
  }

  function StackOf(trace: Uuid, s: Spine, n: nat): (r: seq<SpanId>)
    ensures s.Inside? <==> |r| > 0
  {
    match s
    case Here(_) => []
    case Inside(done, _, within) => [Drawn(trace, n + Size(done))] + StackOf(trace, within, n + Size(done) + 1)
  }

  function PreSpine(trace: Uuid, s: Spine, parent: Option<SpanId>, n: nat): seq<SpanRecord> {
    match s
    case Here(done) => PreOrder(Records(trace, done, parent, n))
    case Inside(done, _, within) =>
      PreOrder(Records(trace, done, parent, n)) + PreSpine(trace, within, Some(Drawn(trace, n + Size(done))), n + Size(done) + 1)
  }

  function PostSpine(trace: Uuid, s: Spine, parent: Option<SpanId>, n: nat): seq<SpanRecord> {
    match s
    case Here(done) => PostOrder(Records(trace, done, parent, n))
    case Inside(done, _, within) =>
      PostOrder(Records(trace, done, parent, n)) + PostSpine(trace, within, Some(Drawn(trace, n + Size(done))), n + Size(done) + 1)
  }

  /** The locals of the innermost open span. */
  function Innermost(trace: Uuid, s: Spine, parent: Option<SpanId>, n: nat): OpenSpan
    requires s.Inside?
  {
    var m := n + Size(s.done);
    if s.within.Here? then OpenSpan(Drawn(trace, m), parent, m, s.stage)
    else Innermost(trace, s.within, Some(Drawn(trace, m)), m + 1)
  }

  /** How deep each call of a forest lies, in start order. */
  function Depths<L>(f: Forest<L>, d: nat): (r: seq<nat>)
    ensures |r| == Size(f)
  {
    match f
    case Nil => []
    case Tree(_, ch, sib) => [d] + Depths(ch, d + 1) + Depths(sib, d)
  }

  /** How many spans enclosed each span that started, open ones included, in start order. */
  function OpenHeights(s: Spine, d: nat): (r: seq<nat>)
    ensures |r| == s.Started()
  {
    match s
    case Here(done) => Depths(done, d)
    case Inside(done, _, within) => Depths(done, d) + [d] + OpenHeights(within, d + 1)
  }

  function Top(stack: seq<SpanId>): Option<SpanId> {
    if |stack| == 0 then None else Some(stack[|stack| - 1])
  }

  function Recorded(open: OpenSpan, outcome: Outcome): SpanRecord {
    SpanRecord(open.sequence, open.spanId, open.parent, ReportOf(Call(open.stage, outcome)))
  }

  // ----- the flat machine follows the spine -----

  lemma {:induction false} PostOrderAppend<L>(f: Forest<L>, g: Forest<L>)
    ensures PostOrder(Append(f, g)) == PostOrder(f) + PostOrder(g)
  {
    match f
    case Nil =>
    case Tree(_, _, sib) => PostOrderAppend(sib, g);
  }

  lemma {:induction false} RecordsAppend(trace: Uuid, f: Forest<Call>, g: Forest<Call>, parent: Option<SpanId>, n: nat)
    ensures Records(trace, Append(f, g), parent, n)
         == Append(Records(trace, f, parent, n), Records(trace, g, parent, n + Size(f)))
  {
    match f
    case Nil =>
    case Tree(_, ch, sib) => RecordsAppend(trace, sib, g, parent, n + 1 + Size(ch));
  }

  lemma {:induction false} OpenPushes(trace: Uuid, s: Spine, stage: Stage, n: nat)
    ensures StackOf(trace, s.Open(stage), n) == StackOf(trace, s, n) + [Drawn(trace, n + s.Started())]
  {
    if s.Inside? {
      OpenPushes(trace, s.within, stage, n + Size(s.done) + 1);
    }
  }

  lemma {:induction false} OpenRecordsNothing(trace: Uuid, s: Spine, stage: Stage, parent: Option<SpanId>, n: nat)
    ensures PostSpine(trace, s.Open(stage), parent, n) == PostSpine(trace, s, parent, n)
  {
    hide PostOrder, Records;
    if s.Inside? {
      OpenRecordsNothing(trace, s.within, stage, Some(Drawn(trace, n + Size(s.done))), n + Size(s.done) + 1);
    } else {
      var records := PostOrder(Records(trace, s.done, parent, n));
      assert records + [] == records;
      NoSpansPost(trace, Some(Drawn(trace, n + Size(s.done))), n + Size(s.done) + 1);
    }
  }

  lemma NoSpansPost(trace: Uuid, parent: Option<SpanId>, n: nat)
    ensures PostOrder(Records(trace, Nil, parent, n)) == []
  {
  }

  lemma {:induction false} OpenLocals(trace: Uuid, s: Spine, stage: Stage, parent: Option<SpanId>, n: nat)
    ensures Innermost(trace, s.Open(stage), parent, n)
         == OpenSpan(Drawn(trace, n + s.Started()), if s.Here? then parent else Top(StackOf(trace, s, n)), n + s.Started(), stage)
  {
    if s.Inside? {
      OpenLocals(trace, s.within, stage, Some(Drawn(trace, n + Size(s.done))), n + Size(s.done) + 1);
    }
  }

  lemma {:induction false} DepthsAppend<L>(f: Forest<L>, g: Forest<L>, d: nat)
    ensures Depths(Append(f, g), d) == Depths(f, d) + Depths(g, d)
  {
    match f
    case Nil =>
    case Tree(_, ch, sib) =>
      DepthsAppend(sib, g, d);
      ConcatAssociative([d] + Depths(ch, d + 1), Depths(sib, d), Depths(g, d));
  }

  /** A span that opens is as high as the stack is. */
  lemma {:induction false} OpenAddsHeight(trace: Uuid, s: Spine, stage: Stage, n: nat, d: nat)
    ensures OpenHeights(s.Open(stage), d) == OpenHeights(s, d) + [d + |StackOf(trace, s, n)|]
  {
    var front := Depths(s.done, d);
    if s.Inside? {
      OpenAddsHeight(trace, s.within, stage, n + Size(s.done) + 1, d + 1);
      ConcatAssociative(front + [d], OpenHeights(s.within, d + 1), [d + |StackOf(trace, s, n)|]);
    } else {
      assert front + [d] + [] == front + [d];
    }
  }

  /** Closing a span does not change how high any span was opened. */
  lemma {:induction false} CloseKeepsHeights(s: Spine, outcome: Outcome, d: nat)
    requires s.Inside?
    ensures OpenHeights(s.Close(outcome), d) == OpenHeights(s, d)
  {
    hide Depths;
    if s.within.Here? {
      var call := Call(s.stage, outcome);
      DepthsAppend(s.done, Tree(call, s.within.done, Nil), d);
      OneCallDepths(call, s.within.done, d);
      ConcatAssociative(Depths(s.done, d), [d], Depths(s.within.done, d + 1));
    } else {
      CloseKeepsHeights(s.within, outcome, d + 1);
    }
  }

  lemma OneCallDepths(call: Call, inside: Forest<Call>, d: nat)
    ensures Depths(Tree(call, inside, Nil), d) == [d] + Depths(inside, d + 1)
  {
    assert Depths<Call>(Nil, d) == [];
  }

  lemma {:induction false} ClosePops(trace: Uuid, s: Spine, outcome: Outcome, n: nat)
    requires s.Inside?
    ensures StackOf(trace, s.Close(outcome), n) == StackOf(trace, s, n)[..|StackOf(trace, s, n)| - 1]
  {
    if s.within.Inside? {
      ClosePops(trace, s.within, outcome, n + Size(s.done) + 1);
    }
  }

  lemma {:induction false} CloseRecords(trace: Uuid, s: Spine, outcome: Outcome, parent: Option<SpanId>, n: nat)
    requires s.Inside?
    ensures PostSpine(trace, s.Close(outcome), parent, n)
         == PostSpine(trace, s, parent, n) + [Recorded(Innermost(trace, s, parent, n), outcome)]
  {
    hide PostOrder, Records;
    var m := n + Size(s.done);
    if s.within.Here? {
      CloseLast(trace, s.done, Call(s.stage, outcome), s.within.done, parent, n);
    } else {
      CloseRecords(trace, s.within, outcome, Some(Drawn(trace, m)), m + 1);
      ConcatAssociative(PostOrder(Records(trace, s.done, parent, n)),
                        PostSpine(trace, s.within, Some(Drawn(trace, m)), m + 1),
                        [Recorded(Innermost(trace, s, parent, n), outcome)]);
    }
  }

  lemma ConcatAssociative<T>(a: seq<T>, b: seq<T>, c: seq<T>)
    ensures a + (b + c) == a + b + c
  {
  }

  lemma CloseLast(trace: Uuid, done: Forest<Call>, call: Call, inside: Forest<Call>, parent: Option<SpanId>, n: nat)
    ensures var m := n + Size(done);
            PostOrder(Records(trace, Append(done, Tree(call, inside, Nil)), parent, n))
            == PostOrder(Records(trace, done, parent, n))
               + PostOrder(Records(trace, inside, Some(Drawn(trace, m)), m + 1))
               + [SpanRecord(m, Drawn(trace, m), parent, ReportOf(call))]
  {
    hide PostOrder, Records;
    var m := n + Size(done);
    var span := Tree(call, inside, Nil);
    RecordsAppend(trace, done, span, parent, n);
    PostOrderAppend(Records(trace, done, parent, n), Records(trace, span, parent, m));
    OneSpan(trace, call, inside, parent, m);
  }

  lemma OneSpan(trace: Uuid, call: Call, inside: Forest<Call>, parent: Option<SpanId>, m: nat)
    ensures PostOrder(Records(trace, Tree(call, inside, Nil), parent, m))
         == PostOrder(Records(trace, inside, Some(Drawn(trace, m)), m + 1)) + [SpanRecord(m, Drawn(trace, m), parent, ReportOf(call))]
  {
  }

  // ----- start order -----

  predicate StartedBefore(a: SpanRecord, b: SpanRecord) {
    a.sequence <= b.sequence
  }

  lemma {:induction false} OrdersHaveSameContents<L>(f: Forest<L>)
    ensures multiset(PostOrder(f)) == multiset(PreOrder(f))
  {
    match f
    case Nil =>
    case Tree(root, ch, sib) =>
      OrdersHaveSameContents(ch);
      OrdersHaveSameContents(sib);
  }

  lemma {:induction false} RecordsSize(trace: Uuid, f: Forest<Call>, parent: Option<SpanId>, n: nat)
    ensures Size(Records(trace, f, parent, n)) == Size(f)
  {
    match f
    case Nil =>
    case Tree(_, ch, sib) =>
      RecordsSize(trace, ch, Some(Drawn(trace, n)), n + 1);
      RecordsSize(trace, sib, parent, n + 1 + Size(ch));
  }

  lemma {:induction false} StartOrderNumbers(trace: Uuid, f: Forest<Call>, parent: Option<SpanId>, n: nat)
    ensures var r := PreOrder(Records(trace, f, parent, n));
            |r| == Size(f) && forall i | 0 <= i < |r| :: r[i].sequence == n + i && r[i].spanId == Drawn(trace, n + i)
  {
    if f.Tree? {
      hide PreOrder, Records;
      var m := n + 1 + Size(f.children);
      FirstSpan(trace, f, parent, n);
      RecordsSize(trace, f, parent, n);
      StartOrderNumbers(trace, f.children, Some(Drawn(trace, n)), n + 1);
      StartOrderNumbers(trace, f.siblings, parent, m);
    }
  }

  /** Records listed by strictly increasing number, all numbers from `lo` up. */
  ghost predicate Increasing(records: seq<SpanRecord>, lo: nat) {
    && (forall i | 0 <= i < |records| :: lo <= records[i].sequence)
    && (forall i, j | 0 <= i < j < |records| :: records[i].sequence < records[j].sequence)
  }

  lemma {:induction false} SpineContents(trace: Uuid, s: Spine, parent: Option<SpanId>, n: nat)
    ensures multiset(PostSpine(trace, s, parent, n)) == multiset(PreSpine(trace, s, parent, n))
  {
    hide PostOrder, PreOrder, Records;
    OrdersHaveSameContents(Records(trace, s.done, parent, n));
    if s.Inside? {
      SpineContents(trace, s.within, Some(Drawn(trace, n + Size(s.done))), n + Size(s.done) + 1);
    }
  }

  lemma {:induction false} SpineIncreasing(trace: Uuid, s: Spine, parent: Option<SpanId>, n: nat)
    ensures Increasing(PreSpine(trace, s, parent, n), n)
  {
    hide PreOrder, Records;
    StartOrderNumbers(trace, s.done, parent, n);
    if s.Inside? {
      var m := n + Size(s.done);
      SpineIncreasing(trace, s.within, Some(Drawn(trace, m)), m + 1);
    }
  }

  /** Sorting by start number turns the completion order into parents first,
      whichever spans are still open. */
  lemma SortedSpansArePreOrder(trace: Uuid, s: Spine, parent: Option<SpanId>, n: nat)
    ensures SortBy(PostSpine(trace, s, parent, n), StartedBefore) == PreSpine(trace, s, parent, n)
  {
    SpineContents(trace, s, parent, n);
    SpineIncreasing(trace, s, parent, n);
    var pre := PreSpine(trace, s, parent, n);
    assert Sorted(pre, StartedBefore);
    assert Separates(pre, StartedBefore);
    SortByIs(PostSpine(trace, s, parent, n), pre, StartedBefore);
  }

  // ----- the forest is recoverable from the list -----

  /** Reads a forest back from records in start order: the spans at the front
      whose parent is `parent`, each followed by what it contains. */
  function ReadForest(records: seq<SpanRecord>, parent: Option<SpanId>): (r: (Forest<Report>, seq<SpanRecord>))
    ensures |r.1| <= |records|
    decreases |records|
  {
    if |records| == 0 || records[0].parent != parent then (Nil, records)
    else
      var (ch, afterChildren) := ReadForest(records[1..], Some(records[0].spanId));
      var (sib, rest) := ReadForest(afterChildren, parent);
      (Tree(records[0].report, ch, sib), rest)
  }

  /** The identifier is not among those drawn from `n` on. */
  ghost predicate DrawnBefore(trace: Uuid, parent: Option<SpanId>, n: nat) {
    forall j | j >= n :: parent != Some(Drawn(trace, j))
  }

  lemma {:induction false} ReadForestInverts(trace: Uuid, f: Forest<Call>, parent: Option<SpanId>, n: nat, tail: seq<SpanRecord>)
    requires DrawnBefore(trace, parent, n)
    requires |tail| > 0 ==> tail[0].parent != parent && DrawnBefore(trace, tail[0].parent, n)
    ensures ReadForest(PreOrder(Records(trace, f, parent, n)) + tail, parent) == (Reports(f), tail)
  {
    if f.Nil? {
      assert PreOrder(Records(trace, f, parent, n)) + tail == tail;
    } else {
      hide PreOrder, Records;
      var root, m := Drawn(trace, n), n + 1 + Size(f.children);
      var inner := PreOrder(Records(trace, f.children, Some(root), n + 1));
      var after := PreOrder(Records(trace, f.siblings, parent, m));
      if f.siblings.Tree? {
        FirstParent(trace, f.siblings, parent, m);
      } else {
        assert after == [] by { NoSpans(trace, parent, m); }
        assert after + tail == tail;
      }
      assert DrawnBefore(trace, Some(root), n + 1);
      ReadForestInverts(trace, f.children, Some(root), n + 1, after + tail);
      ReadForestInverts(trace, f.siblings, parent, m, tail);
      FirstSpan(trace, f, parent, n);
      ReadOne(SpanRecord(n, root, parent, ReportOf(f.root)), inner, after, tail);
    }
  }

  lemma NoSpans(trace: Uuid, parent: Option<SpanId>, n: nat)
    ensures PreOrder(Records(trace, Nil, parent, n)) == []
  {
  }

  lemma FirstParent(trace: Uuid, f: Forest<Call>, parent: Option<SpanId>, n: nat)
    requires f.Tree?
    ensures PreOrder(Records(trace, f, parent, n))[0].parent == parent
  {
  }

  lemma FirstSpan(trace: Uuid, f: Forest<Call>, parent: Option<SpanId>, n: nat)
    requires f.Tree?
    ensures PreOrder(Records(trace, f, parent, n))
         == [SpanRecord(n, Drawn(trace, n), parent, ReportOf(f.root))]
            + PreOrder(Records(trace, f.children, Some(Drawn(trace, n)), n + 1))
            + PreOrder(Records(trace, f.siblings, parent, n + 1 + Size(f.children)))
  {
  }

  lemma ReadOne(first: SpanRecord, inner: seq<SpanRecord>, after: seq<SpanRecord>, tail: seq<SpanRecord>)
    ensures var (ch, afterChildren) := ReadForest(inner + (after + tail), Some(first.spanId));
            var (sib, rest) := ReadForest(afterChildren, first.parent);
            ReadForest([first] + inner + after + tail, first.parent) == (Tree(first.report, ch, sib), rest)
  {
    var all := [first] + inner + after + tail;
    assert all[1..] == inner + (after + tail);
  }

  /** A finished trace with nothing left open determines its call forest. */
  lemma ForestIsRebuilt(trace: Uuid, f: Forest<Call>)
    ensures ReadForest(PreOrder(Records(trace, f, None, 0)), None) == (Reports(f), [])
  {
    ReadForestInverts(trace, f, None, 0, []);
    var all := PreOrder(Records(trace, f, None, 0));
    assert all + [] == all;
  }
}
