/**
 The timeline payload, backend/visualization/traces/timeline.py: nesting depth from
 stored parent links, which may be missing or cyclic.
 */
module Timeline {
  import opened Wrappers
  import opened Identifiers
  import opened Sequences
  import opened Tracing
  import opened Collector

  datatype SpanInput<Id> = SpanInput(spanId: Id, parent: Option<Id>, stage: Stage)

  datatype Bar<Id> = Bar(spanId: Id, stage: Stage, depth: nat)

  /** The dictionary of spans; a repeated identifier keeps its last span. */
  function ById<Id>(spans: seq<SpanInput<Id>>): map<Id, SpanInput<Id>> {
    if |spans| == 0 then map[]
    else
      var last := spans[|spans| - 1];
      ById(spans[..|spans| - 1])[last.spanId := last]
  }

  /** The spans a walk up the parent links visits, never one in `seen`. */
  function Visited<Id>(byId: map<Id, SpanInput<Id>>, parent: Option<Id>, seen: set<Id>): seq<Id>
    decreases |byId.Keys - seen|
  {
    if parent.None? || parent.value !in byId || parent.value in seen then []
    else
      assert byId.Keys - (seen + {parent.value}) == (byId.Keys - seen) - {parent.value};
      [parent.value] + Visited(byId, byId[parent.value].parent, seen + {parent.value})
  }

  function Ancestors<Id>(byId: map<Id, SpanInput<Id>>, span: SpanInput<Id>): seq<Id> {
    Visited(byId, span.parent, {span.spanId})
  }

  method DepthOf<Id(==)>(byId: map<Id, SpanInput<Id>>, span: SpanInput<Id>) returns (depth: nat)
    ensures depth == |Ancestors(byId, span)|
  {
    depth := 0;
    var seen := {span.spanId};
    var parent := span.parent;
    while parent.Some? && parent.value in byId && parent.value !in seen
      invariant depth + |Visited(byId, parent, seen)| == |Ancestors(byId, span)|
      decreases |byId.Keys - seen|
    {
      assert byId.Keys - (seen + {parent.value}) == (byId.Keys - seen) - {parent.value};
      seen := seen + {parent.value};
      depth := depth + 1;
      parent := byId[parent.value].parent;
    }
  }

  method BuildTimeline<Id(==)>(spans: seq<SpanInput<Id>>) returns (bars: seq<Bar<Id>>)
    ensures |bars| == |spans|
    ensures forall i | 0 <= i < |spans| ::
      bars[i] == Bar(spans[i].spanId, spans[i].stage, |Ancestors(ById(spans), spans[i])|)
  {
    var byId := ById(spans);
    bars := [];
    for n := 0 to |spans|
      invariant |bars| == n
      invariant forall i | 0 <= i < n ::
        bars[i] == Bar(spans[i].spanId, spans[i].stage, |Ancestors(byId, spans[i])|)
    {
      var depth := DepthOf(byId, spans[n]);
      bars := bars + [Bar(spans[n].spanId, spans[n].stage, depth)];
    }
  }

  // ----- any list of spans, however corrupt -----

  lemma {:induction false} VisitsEachOnce<Id>(byId: map<Id, SpanInput<Id>>, parent: Option<Id>, seen: set<Id>)
    ensures var v := Visited(byId, parent, seen);
            (forall x | x in v :: x in byId && x !in seen) && AllDifferent(v)
    decreases |byId.Keys - seen|
  {
    if parent.None? || parent.value !in byId || parent.value in seen {
    } else {
      assert byId.Keys - (seen + {parent.value}) == (byId.Keys - seen) - {parent.value};
      VisitsEachOnce(byId, byId[parent.value].parent, seen + {parent.value});
    }
  }

  lemma {:induction false} WalkIsBounded<Id>(byId: map<Id, SpanInput<Id>>, parent: Option<Id>, seen: set<Id>)
    ensures |Visited(byId, parent, seen)| <= |byId.Keys - seen|
    decreases |byId.Keys - seen|
  {
    if parent.None? || parent.value !in byId || parent.value in seen {
    } else {
      assert byId.Keys - (seen + {parent.value}) == (byId.Keys - seen) - {parent.value};
      WalkIsBounded(byId, byId[parent.value].parent, seen + {parent.value});
    }
  }

  /** Every bar is indented by less than the number of distinct spans. */
  lemma DepthIsBounded<Id>(spans: seq<SpanInput<Id>>, i: nat)
    requires i < |spans|
    ensures |Ancestors(ById(spans), spans[i])| < |ById(spans)|
  {
    var byId := ById(spans);
    ByIdKeys(spans);
    WalkIsBounded(byId, spans[i].parent, {spans[i].spanId});
    assert spans[i].spanId in byId.Keys;
    assert |byId.Keys - {spans[i].spanId}| == |byId.Keys| - 1;
  }

  lemma {:induction false} ByIdKeys<Id>(spans: seq<SpanInput<Id>>)
    ensures forall x :: x in ById(spans) <==> exists i | 0 <= i < |spans| :: spans[i].spanId == x
    ensures forall x | x in ById(spans) :: ById(spans)[x] in spans && ById(spans)[x].spanId == x
  {
    if |spans| > 0 {
      var front, last := spans[..|spans| - 1], spans[|spans| - 1];
      ByIdKeys(front);
      assert spans == front + [last];
      forall x
        ensures x in ById(spans) <==> exists i | 0 <= i < |spans| :: spans[i].spanId == x
      {
        if exists i | 0 <= i < |spans| :: spans[i].spanId == x {
          var i :| 0 <= i < |spans| && spans[i].spanId == x;
          if i < |front| {
            assert front[i].spanId == x;
          }
        }
        if x == last.spanId {
          assert spans[|front|].spanId == x;
        } else if x in ById(front) {
          var i :| 0 <= i < |front| && front[i].spanId == x;
          assert spans[i].spanId == x;
        }
      }
    }
  }

  /** Of spans with one identifier the last is looked up. */
  lemma {:induction false} LastSpanIsKept<Id>(spans: seq<SpanInput<Id>>, i: nat)
    requires i < |spans| && forall j | i < j < |spans| :: spans[j].spanId != spans[i].spanId
    ensures spans[i].spanId in ById(spans) && ById(spans)[spans[i].spanId] == spans[i]
  {
    var n := |spans| - 1;
    if i < n {
      LastSpanIsKept(spans[..n], i);
      assert spans[n].spanId != spans[i].spanId;
    }
  }

  lemma {:induction false} VisitedAround<Id>(byId: map<Id, SpanInput<Id>>, parent: Option<Id>, seen: set<Id>, x: Id)
    ensures x !in Visited(byId, parent, seen) ==> Visited(byId, parent, seen + {x}) == Visited(byId, parent, seen)
    ensures x in Visited(byId, parent, seen) ==> |Visited(byId, parent, seen + {x})| < |Visited(byId, parent, seen)|
    decreases |byId.Keys - seen|
  {
    if parent.None? || parent.value !in byId || parent.value in seen {
    } else if parent.value == x {
      assert Visited(byId, parent, seen)[0] == x;
    } else {
      assert byId.Keys - (seen + {parent.value}) == (byId.Keys - seen) - {parent.value};
      VisitedAround(byId, byId[parent.value].parent, seen + {parent.value}, x);
      assert seen + {parent.value} + {x} == seen + {x} + {parent.value};
    }
  }

  /** A span is one deeper than its parent exactly when it is neither its own parent
      nor another ancestor of itself. */
  lemma OneDeeperIffNoCycle<Id>(spans: seq<SpanInput<Id>>, span: SpanInput<Id>)
    requires span.parent.Some? && span.parent.value in ById(spans)
    ensures var byId := ById(spans);
            var p := span.parent.value;
            |Ancestors(byId, span)| == 1 + |Ancestors(byId, byId[p])|
            <==> span.spanId != p && span.spanId !in Ancestors(byId, byId[p])
  {
    var byId, p := ById(spans), span.parent.value;
    ByIdKeys(spans);
    if span.spanId != p {
      VisitedAround(byId, byId[p].parent, {p}, span.spanId);
      assert {span.spanId} + {p} == {p} + {span.spanId};
    }
  }

  // ----- the spans a collector hands over -----

  function InputOf(r: SpanRecord): SpanInput<SpanId> {
    SpanInput(r.spanId, r.parent, r.report.stage)
  }

  function Inputs(records: seq<SpanRecord>): (r: seq<SpanInput<SpanId>>)
    ensures |r| == |records| && forall i | 0 <= i < |r| :: r[i] == InputOf(records[i])
  {
    seq(|records|, i requires 0 <= i < |records| => InputOf(records[i]))
  }

  /** How deep each completed call lies, counted from the innermost span still open. */
  function SpineDepths(s: Spine): seq<nat> {
    match s
    case Here(done) => Depths(done, 0)
    case Inside(done, _, within) => Depths(done, 0) + SpineDepths(within)
  }

  ghost predicate DrawnFrom(trace: Uuid, ids: set<SpanId>, n: nat) {
    forall x | x in ids :: x.trace == trace && x.nth >= n
  }

  /** Walking up from `p`, having seen only spans that started at `n` or later, takes `d` steps. */
  ghost predicate SettlesAt(byId: map<SpanId, SpanInput<SpanId>>, trace: Uuid, p: Option<SpanId>, n: nat, d: nat) {
    forall seen | DrawnFrom(trace, seen, n) :: |Visited(byId, p, seen)| == d
  }

  /** The dictionary has these records, and links them as they say. */
  ghost predicate Holds(byId: map<SpanId, SpanInput<SpanId>>, records: seq<SpanRecord>) {
    forall i | 0 <= i < |records| :: records[i].spanId in byId && byId[records[i].spanId] == InputOf(records[i])
  }

  ghost predicate ShowsDepths(byId: map<SpanId, SpanInput<SpanId>>, records: seq<SpanRecord>, depths: seq<nat>) {
    |records| == |depths| && forall i | 0 <= i < |records| :: |Ancestors(byId, InputOf(records[i]))| == depths[i]
  }

  lemma ShowsDepthsConcat(byId: map<SpanId, SpanInput<SpanId>>, a: seq<SpanRecord>, b: seq<SpanRecord>, x: seq<nat>, y: seq<nat>)
    requires ShowsDepths(byId, a, x) && ShowsDepths(byId, b, y)
    ensures ShowsDepths(byId, a + b, x + y)
  {
  }

  lemma HoldsParts(byId: map<SpanId, SpanInput<SpanId>>, a: seq<SpanRecord>, b: seq<SpanRecord>)
    requires Holds(byId, a + b)
    ensures Holds(byId, a) && Holds(byId, b)
  {
    assert forall i | 0 <= i < |a| :: a[i] == (a + b)[i];
    assert forall i | 0 <= i < |b| :: b[i] == (a + b)[|a| + i];
  }

  lemma ChildSettles(byId: map<SpanId, SpanInput<SpanId>>, trace: Uuid, p: Option<SpanId>, n: nat, d: nat)
    requires SettlesAt(byId, trace, p, n, d)
    requires Drawn(trace, n) in byId && byId[Drawn(trace, n)].parent == p
    ensures SettlesAt(byId, trace, Some(Drawn(trace, n)), n + 1, d + 1)
  {
    forall seen | DrawnFrom(trace, seen, n + 1)
      ensures |Visited(byId, Some(Drawn(trace, n)), seen)| == d + 1
    {
      assert DrawnFrom(trace, seen + {Drawn(trace, n)}, n);
    }
  }

  lemma {:induction false} ForestDepths(byId: map<SpanId, SpanInput<SpanId>>, trace: Uuid, f: Forest<Call>, p: Option<SpanId>, n: nat, d: nat)
    requires SettlesAt(byId, trace, p, n, d)
    requires Holds(byId, PreOrder(Records(trace, f, p, n)))
    ensures ShowsDepths(byId, PreOrder(Records(trace, f, p, n)), Depths(f, d))
  {
    if f.Tree? {
      hide PreOrder, Records, ReportOf, Visited;
      FirstSpan(trace, f, p, n);
      var m := n + 1 + Size(f.children);
      var root := SpanRecord(n, Drawn(trace, n), p, ReportOf(f.root));
      var inner := PreOrder(Records(trace, f.children, Some(Drawn(trace, n)), n + 1));
      var after := PreOrder(Records(trace, f.siblings, p, m));
      HoldsParts(byId, [root] + inner, after);
      HoldsParts(byId, [root], inner);
      assert Holds(byId, [root]) && [root][0] == root;
      ChildSettles(byId, trace, p, n, d);
      ForestDepths(byId, trace, f.children, Some(Drawn(trace, n)), n + 1, d + 1);
      assert SettlesAt(byId, trace, p, m, d);
      ForestDepths(byId, trace, f.siblings, p, m, d);
      assert DrawnFrom(trace, {root.spanId}, n);
      assert ShowsDepths(byId, [root], [d]);
      ShowsDepthsConcat(byId, [root], inner, [d], Depths(f.children, d + 1));
      ShowsDepthsConcat(byId, [root] + inner, after, [d] + Depths(f.children, d + 1), Depths(f.siblings, d));
    } else {
      NoSpans(trace, p, n);
    }
  }

  lemma {:induction false} SpineDepthsShown(byId: map<SpanId, SpanInput<SpanId>>, trace: Uuid, s: Spine, p: Option<SpanId>, n: nat)
    requires p.Some? ==> p.value !in byId
    requires forall x | x in StackOf(trace, s, n) :: x !in byId
    requires Holds(byId, PreSpine(trace, s, p, n))
    ensures ShowsDepths(byId, PreSpine(trace, s, p, n), SpineDepths(s))
  {
    hide PreOrder, Records;
    assert SettlesAt(byId, trace, p, n, 0);
    if s.Here? {
      ForestDepths(byId, trace, s.done, p, n, 0);
    } else {
      var m := n + Size(s.done);
      var open := Some(Drawn(trace, m));
      var front, back := PreOrder(Records(trace, s.done, p, n)), PreSpine(trace, s.within, open, m + 1);
      HoldsParts(byId, front, back);
      ForestDepths(byId, trace, s.done, p, n, 0);
      assert StackOf(trace, s, n)[0] == Drawn(trace, m);
      assert forall x | x in StackOf(trace, s.within, m + 1) :: x in StackOf(trace, s, n);
      SpineDepthsShown(byId, trace, s.within, open, m + 1);
      ShowsDepthsConcat(byId, front, back, Depths(s.done, 0), SpineDepths(s.within));
    }
  }

  /** Identifiers in a record list are numbered as the records are, and no open span is recorded. */
  lemma {:induction false} SpineIds(trace: Uuid, s: Spine, p: Option<SpanId>, n: nat)
    ensures forall r | r in PreSpine(trace, s, p, n) :: r.spanId == Drawn(trace, r.sequence) && r.sequence >= n
    ensures forall x | x in StackOf(trace, s, n) :: x.trace == trace && x.nth >= n
    ensures forall r | r in PreSpine(trace, s, p, n) :: r.spanId !in StackOf(trace, s, n)
  {
    hide PreOrder, Records;
    StartOrderNumbers(trace, s.done, p, n);
    if s.Inside? {
      SpineIds(trace, s.within, Some(Drawn(trace, n + Size(s.done))), n + Size(s.done) + 1);
    }
  }

  /** Whenever the trace is finished and in whatever order its spans are stored,
      the bar of a span is indented by its nesting inside completed calls. */
  lemma TimelineShowsNesting(trace: Uuid, s: Spine, spans: seq<SpanInput<SpanId>>)
    requires multiset(spans) == multiset(Inputs(PreSpine(trace, s, None, 0)))
    ensures ShowsDepths(ById(spans), PreSpine(trace, s, None, 0), SpineDepths(s))
  {
    hide PreSpine, StackOf, SpineDepths;
    var records := PreSpine(trace, s, None, 0);
    SpineIds(trace, s, None, 0);
    SpineIncreasing(trace, s, None, 0);
    ByIdKeys(spans);
    var inputs, byId := Inputs(records), ById(spans);
    forall i | 0 <= i < |records|
      ensures records[i].spanId in byId && byId[records[i].spanId] == InputOf(records[i])
    {
      assert inputs[i] in multiset(spans);
      var x := records[i].spanId;
      assert byId[x] in multiset(inputs);
    }
    forall x | x in byId
      ensures x !in StackOf(trace, s, 0)
    {
      assert byId[x] in multiset(inputs);
    }
    SpineDepthsShown(byId, trace, s, None, 0);
  }

  // ----- depth and the stack -----

  /** How many of these spans started before the n-th. */
  function StartedEarlier(stack: seq<SpanId>, n: nat): nat {
    if |stack| == 0 then 0 else (if stack[0].nth < n then 1 else 0) + StartedEarlier(stack[1..], n)
  }

  lemma {:induction false} NoneStartedEarlier(stack: seq<SpanId>, n: nat)
    requires forall x | x in stack :: x.nth >= n
    ensures StartedEarlier(stack, n) == 0
  {
    if |stack| > 0 {
      NoneStartedEarlier(stack[1..], n);
    }
  }

  lemma {:induction false} DeeperDepths<L>(f: Forest<L>, d: nat, e: nat, i: nat)
    requires i < Size(f)
    ensures Depths(f, d + e)[i] == Depths(f, d)[i] + e
  {
    var m := 1 + Size(f.children);
    if 0 < i < m {
      DeeperDepths(f.children, d + 1, e, i - 1);
    } else if i >= m {
      DeeperDepths(f.siblings, d, e, i - m);
    }
  }

  /** A completed span's depth, plus the spans around it that are still open, is how
      high the stack was when it opened. */
  lemma {:induction false} DepthIsHeight(trace: Uuid, s: Spine, p: Option<SpanId>, n: nat, d: nat, i: nat)
    requires i < |PreSpine(trace, s, p, n)|
    ensures |SpineDepths(s)| == |PreSpine(trace, s, p, n)|
    ensures var q := PreSpine(trace, s, p, n)[i].sequence;
            && n <= q < n + s.Started()
            && SpineDepths(s)[i] + d + StartedEarlier(StackOf(trace, s, n), q) == OpenHeights(s, d)[q - n]
  {
    hide PreOrder, Records, Depths, SpineDepths, PreSpine, StackOf, OpenHeights, StartedEarlier;
    var m := n + Size(s.done);
    var records := PreOrder(Records(trace, s.done, p, n));
    StartOrderNumbers(trace, s.done, p, n);
    SpineParts(trace, s, p, n, d);
    if i < Size(s.done) {
      DeeperDepths(s.done, 0, d, i);
      StackIsLater(trace, s, n);
      NoneStartedEarlier(StackOf(trace, s, n), n + i);
      assert PreSpine(trace, s, p, n)[i] == records[i];
    } else {
      var open := Some(Drawn(trace, m));
      var j := i - Size(s.done);
      assert PreSpine(trace, s, p, n)[i] == PreSpine(trace, s.within, open, m + 1)[j];
      DepthIsHeight(trace, s.within, open, m + 1, d + 1, j);
      OneMoreStarted(Drawn(trace, m), StackOf(trace, s.within, m + 1), PreSpine(trace, s, p, n)[i].sequence);
    }
    SameLength(trace, s, p, n);
  }

  lemma OneMoreStarted(x: SpanId, stack: seq<SpanId>, n: nat)
    ensures StartedEarlier([x] + stack, n) == (if x.nth < n then 1 else 0) + StartedEarlier(stack, n)
  {
    assert ([x] + stack)[1..] == stack;
  }

  /** The four views of a spine, one level unfolded. */
  lemma SpineParts(trace: Uuid, s: Spine, p: Option<SpanId>, n: nat, d: nat)
    ensures var m := n + Size(s.done);
            var records := PreOrder(Records(trace, s.done, p, n));
            && (s.Here? ==>
                  PreSpine(trace, s, p, n) == records && StackOf(trace, s, n) == []
                  && SpineDepths(s) == Depths(s.done, 0) && OpenHeights(s, d) == Depths(s.done, d))
            && (s.Inside? ==>
                  PreSpine(trace, s, p, n) == records + PreSpine(trace, s.within, Some(Drawn(trace, m)), m + 1)
                  && StackOf(trace, s, n) == [Drawn(trace, m)] + StackOf(trace, s.within, m + 1)
                  && SpineDepths(s) == Depths(s.done, 0) + SpineDepths(s.within)
                  && OpenHeights(s, d) == Depths(s.done, d) + [d] + OpenHeights(s.within, d + 1))
  {
    hide PreOrder, Records, Depths;
  }

  lemma StackIsLater(trace: Uuid, s: Spine, n: nat)
    ensures forall x | x in StackOf(trace, s, n) :: x.nth >= n + Size(s.done)
  {
    if s.Inside? {
      SpineIds(trace, s.within, None, n + Size(s.done) + 1);
    }
  }

  lemma {:induction false} SameLength(trace: Uuid, s: Spine, p: Option<SpanId>, n: nat)
    ensures |SpineDepths(s)| == |PreSpine(trace, s, p, n)|
  {
    RecordsSize(trace, s.done, p, n);
    if s.Inside? {
      SameLength(trace, s.within, Some(Drawn(trace, n + Size(s.done))), n + Size(s.done) + 1);
    }
  }

  /** On any collector, whatever is still open and in whatever order the spans were
      stored: the bar of a completed span is indented by the height of the stack when
      it opened, less the spans around it that never closed. */
  lemma BarsShowStackHeight(c: TraceCollector, spans: seq<SpanInput<SpanId>>, i: nat)
    requires c.Valid() && i < |PreSpine(c.traceId, c.spine, None, 0)|
    requires multiset(spans) == multiset(Inputs(PreSpine(c.traceId, c.spine, None, 0)))
    ensures var record := PreSpine(c.traceId, c.spine, None, 0)[i];
            && record.sequence < |c.heights|
            && |Ancestors(ById(spans), InputOf(record))| + StartedEarlier(c.stack, record.sequence) == c.heights[record.sequence]
  {
    hide PreSpine, StackOf, SpineDepths, OpenHeights, Ancestors, ById, StartedEarlier, PostSpine;
    TimelineShowsNesting(c.traceId, c.spine, spans);
    DepthIsHeight(c.traceId, c.spine, None, 0, 0, i);
  }
}
