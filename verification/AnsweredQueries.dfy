/**
 A query from the model's reply to the evidence graph somebody looks at later: what
 `create_query` of backend/app/api/v1/routes/query.py stores with the trace, and what
 `trace_evidence_graph` of backend/app/api/v1/routes/visualizations.py can still draw
 from it, after the documents may have been ingested again.
 */
module AnsweredQueries {
  import opened Wrappers
  import opened Identifiers
  import opened Chunking
  import opened Grounding
  import opened EvaluationRuns
  import Jobs
  import JobLaws
  import E = EvidenceGraph

  // ----- answering -----

  /** What is stored: the chunks retrieved, the claims, and why it failed, if it did. */
  datatype StoredTrace = StoredTrace(retrieved: seq<Uuid>, claims: seq<Claim>, errorCode: Option<Code>)

  function RetrievedBy(attempt: Attempt): seq<Uuid> {
    if attempt.Retrieves? then attempt.ids else []
  }

  /** A failure is stored with what was retrieved until then; an answer with its claims. */
  ghost predicate Stores(attempt: Attempt, trace: StoredTrace) {
    && trace.retrieved == RetrievedBy(attempt)
    && if FailsCleanly(attempt, true) then trace.claims == [] && trace.errorCode == Some(CodeOf(attempt))
       else trace.errorCode.None? && attempt.Retrieves?
            && exists g :: Generates(trace.retrieved, attempt.reply, g) && g.answer.claims == trace.claims
  }

  /** `create_query`, up to the stored trace; an exception that is not a `DomainError`
      leaves none. */
  method AnswerQuery(attempt: Attempt) returns (r: Option<StoredTrace>)
    ensures r.None? <==> Escapes(attempt, true)
    ensures r.Some? ==> Stores(attempt, r.value) && Accepted(r.value.claims, r.value.retrieved)
  {
    hide GenerationEscapes, GenerationFails, Generates, Accepted;
    match attempt
    case RetrievalFails(failure) =>
      NothingClaimed([]);
      return if failure.DomainError? then Some(StoredTrace([], [], Some(failure.code))) else None;
    case Retrieves(ids, reply) =>
      var generated := Generate(ids, reply);
      match generated
      case Failure(failure) =>
        NothingClaimed(ids);
        return if failure.DomainError? then Some(StoredTrace(ids, [], Some(failure.code))) else None;
      case Success(g) =>
        return Some(StoredTrace(ids, g.answer.claims, None));
  }

  // ----- the response -----

  /** The citations of a claim that the response resolves. */
  function Resolved(cited: seq<Uuid>, retrieved: seq<Uuid>): seq<Uuid> {
    if |cited| == 0 then []
    else
      var n := |cited| - 1;
      Resolved(cited[..n], retrieved) + if cited[n] in retrieved then [cited[n]] else []
  }

  /** Of a citation list, what was retrieved is resolved, and nothing else; nothing is
      dropped exactly when all of it was retrieved. */
  lemma {:induction false} ResolvedAre(cited: seq<Uuid>, retrieved: seq<Uuid>)
    ensures forall id :: id in Resolved(cited, retrieved) <==> id in cited && id in retrieved
    ensures |Resolved(cited, retrieved)| <= |cited|
    ensures Resolved(cited, retrieved) == cited <==> forall id | id in cited :: id in retrieved
  {
    if |cited| > 0 {
      var n := |cited| - 1;
      ResolvedAre(cited[..n], retrieved);
      assert cited == cited[..n] + [cited[n]];
      assert cited[n] in retrieved ==> Resolved(cited, retrieved)[..|Resolved(cited, retrieved)| - 1] == Resolved(cited[..n], retrieved);
      assert cited[n] !in retrieved ==> |Resolved(cited, retrieved)| < |cited|;
    }
  }

  lemma CitesRetrieved(claims: seq<Claim>, ids: seq<Uuid>, claim: Claim)
    requires Accepted(claims, ids) && claim in claims
    ensures forall id | id in claim.evidence :: id in ids
  {
    hide IsClaim;
    var raw :| IsClaim(raw, ids, claim);
    ClaimsAreSound(raw, ids, claim);
  }

  /** The response to a query drops no citation. */
  lemma ResponseKeepsCitations(claims: seq<Claim>, ids: seq<Uuid>, claim: Claim)
    requires Accepted(claims, ids) && claim in claims
    ensures Resolved(claim.evidence, ids) == claim.evidence
  {
    hide Accepted;
    CitesRetrieved(claims, ids, claim);
    ResolvedAre(claim.evidence, ids);
  }

  // ----- what is still stored -----

  /** `chunk_id_for` as an identifier. */
  type Naming = Jobs.ChunkId -> Uuid

  /** How identifiers are written in the graph. */
  type Spelling = Uuid -> string

  ghost predicate Injective<A(!new), B>(f: A -> B) {
    forall x, y :: f(x) == f(y) ==> x == y
  }

  /** The rows by identifier, each joined with its document. */
  ghost function ById(db: Jobs.Database, name: Naming): map<Uuid, Jobs.ChunkId>
    requires Injective(name)
  {
    map key | key in db.rows && key.document in db.documents :: name(key) := key
  }

  lemma ByIdIs(db: Jobs.Database, name: Naming)
    requires Injective(name)
    ensures forall key :: name(key) in ById(db, name) <==> key in db.rows && key.document in db.documents
    ensures forall id | id in ById(db, name) :: name(ById(db, name)[id]) == id
  {
  }

  /** The chunks that can still be resolved, in the order they were retrieved. */
  function ChunkInputs(table: map<Uuid, Jobs.ChunkId>, ids: seq<Uuid>, spell: Spelling): seq<E.ChunkInput> {
    if |ids| == 0 then []
    else
      var n := |ids| - 1;
      ChunkInputs(table, ids[..n], spell)
      + if ids[n] in table then [E.ChunkInput(spell(ids[n]), spell(table[ids[n]].document))] else []
  }

  lemma {:induction false} ChunkInputsAre(table: map<Uuid, Jobs.ChunkId>, ids: seq<Uuid>, spell: Spelling, c: E.ChunkInput)
    ensures c in ChunkInputs(table, ids, spell)
       <==> exists id | id in ids :: id in table && c == E.ChunkInput(spell(id), spell(table[id].document))
  {
    if |ids| > 0 {
      var n := |ids| - 1;
      ChunkInputsAre(table, ids[..n], spell, c);
      assert ids == ids[..n] + [ids[n]];
    }
  }

  function Spelled(ids: seq<Uuid>, spell: Spelling): (r: seq<string>)
    ensures |r| == |ids| && forall i | 0 <= i < |r| :: r[i] == spell(ids[i])
  {
    seq(|ids|, i requires 0 <= i < |ids| => spell(ids[i]))
  }

  function ClaimInputs(claims: seq<Claim>, spell: Spelling): (r: seq<E.ClaimInput>)
    ensures |r| == |claims| && forall i | 0 <= i < |r| :: r[i] == E.ClaimInput(claims[i].text, Spelled(claims[i].evidence, spell))
  {
    seq(|claims|, i requires 0 <= i < |claims| => E.ClaimInput(claims[i].text, Spelled(claims[i].evidence, spell)))
  }

  function GraphOf(trace: StoredTrace, table: map<Uuid, Jobs.ChunkId>, spell: Spelling): E.Graph {
    E.EvidenceGraphOf(ChunkInputs(table, trace.retrieved, spell), ClaimInputs(trace.claims, spell))
  }

  /** `trace_evidence_graph`: chunks deleted since are skipped. */
  method DrawTrace(trace: StoredTrace, table: map<Uuid, Jobs.ChunkId>, spell: Spelling) returns (g: E.Graph)
    ensures g == GraphOf(trace, table, spell)
  {
    var chunks: seq<E.ChunkInput> := [];
    var ids := trace.retrieved;
    for n := 0 to |ids|
      invariant chunks == ChunkInputs(table, ids[..n], spell)
    {
      assert ids[..n + 1][..n] == ids[..n];
      if ids[n] in table {
        chunks := chunks + [E.ChunkInput(spell(ids[n]), spell(table[ids[n]].document))];
      }
    }
    assert ids[..|ids|] == ids;
    g := E.BuildEvidenceGraph(chunks, ClaimInputs(trace.claims, spell));
  }

  // ----- which citations are still drawn -----

  lemma KnownIff(table: map<Uuid, Jobs.ChunkId>, ids: seq<Uuid>, spell: Spelling, id: Uuid)
    requires Injective(spell)
    ensures spell(id) in E.KnownIds(ChunkInputs(table, ids, spell)) <==> id in ids && id in table
  {
    hide ChunkInputs;
    var chunks := ChunkInputs(table, ids, spell);
    if id in ids && id in table {
      var c := E.ChunkInput(spell(id), spell(table[id].document));
      ChunkInputsAre(table, ids, spell, c);
    }
    if spell(id) in E.KnownIds(chunks) {
      var c :| c in chunks && c.chunkId == spell(id);
      ChunkInputsAre(table, ids, spell, c);
    }
  }

  /** Claim `i` cites this chunk in the graph. */
  ghost predicate Drawn(g: E.Graph, spell: Spelling, i: nat, id: Uuid) {
    E.Edge(E.ChunkNode(spell(id)), E.ClaimNode(i), E.CITES) in g.edges
  }

  /** A citation that was kept is drawn if and only if its chunk is still stored. */
  lemma CitationIsDrawnIff(trace: StoredTrace, table: map<Uuid, Jobs.ChunkId>, spell: Spelling, i: nat, id: Uuid)
    requires Accepted(trace.claims, trace.retrieved) && Injective(spell)
    requires i < |trace.claims| && id in trace.claims[i].evidence
    ensures Drawn(GraphOf(trace, table, spell), spell, i, id) <==> id in table
  {
    hide ChunkInputs, ClaimInputs, Accepted, E.EvidenceGraphOf, E.KnownIds;
    var chunks, inputs := ChunkInputs(table, trace.retrieved, spell), ClaimInputs(trace.claims, spell);
    var claim := trace.claims[i];
    assert claim in trace.claims;
    CitesRetrieved(trace.claims, trace.retrieved, claim);
    KnownIff(table, trace.retrieved, spell, id);
    var j :| 0 <= j < |claim.evidence| && claim.evidence[j] == id;
    assert inputs[i].cited[j] == spell(id) && inputs[i].cited[j] in inputs[i].cited;
    E.EdgesAre(chunks, inputs, E.Edge(E.ChunkNode(spell(id)), E.ClaimNode(i), E.CITES));
  }

  /** Some claim cites a chunk that is still stored. */
  ghost predicate CitesStored(claims: seq<Claim>, table: map<Uuid, Jobs.ChunkId>) {
    exists claim, id | claim in claims && id in claim.evidence :: id in table
  }

  /** The answer hangs together with the query if and only if some claim cites a chunk
      that is still stored. */
  lemma AnswerIsGroundedIff(trace: StoredTrace, table: map<Uuid, Jobs.ChunkId>, spell: Spelling)
    requires Accepted(trace.claims, trace.retrieved) && Injective(spell)
    ensures E.Reaches(GraphOf(trace, table, spell), E.QueryNode, E.AnswerNode) <==> CitesStored(trace.claims, table)
  {
    hide ChunkInputs, ClaimInputs, Accepted, E.EvidenceGraphOf, E.KnownIds, E.Reaches;
    var chunks, inputs := ChunkInputs(table, trace.retrieved, spell), ClaimInputs(trace.claims, spell);
    var claims := trace.claims;
    E.AnswerIsReachedIffCited(chunks, inputs);
    if claim, id :| claim in claims && id in claim.evidence && id in table {
      var i :| 0 <= i < |claims| && claims[i] == claim;
      var j :| 0 <= j < |claim.evidence| && claim.evidence[j] == id;
      CitesRetrieved(claims, trace.retrieved, claim);
      KnownIff(table, trace.retrieved, spell, id);
      assert inputs[i] in inputs && inputs[i].cited[j] in inputs[i].cited;
    }
    if input, name :| input in inputs && name in input.cited && name in E.KnownIds(chunks) {
      var i :| 0 <= i < |inputs| && inputs[i] == input;
      var j :| 0 <= j < |input.cited| && input.cited[j] == name;
      var id := claims[i].evidence[j];
      KnownIff(table, trace.retrieved, spell, id);
      assert claims[i] in claims && id in claims[i].evidence;
    }
  }

  /** After any run of jobs, failures, crashes and retries, a citation of a document's
      n-th chunk is drawn if and only if the document now has more than n chunks. */
  lemma CitationSurvivesIff(events: seq<JobLaws.Event>, trace: StoredTrace, name: Naming, spell: Spelling, i: nat, key: Jobs.ChunkId)
    requires Accepted(trace.claims, trace.retrieved) && Injective(name) && Injective(spell)
    requires i < |trace.claims| && name(key) in trace.claims[i].evidence
    ensures var db := JobLaws.Run(Jobs.Database(map[], map[]), events);
            Drawn(GraphOf(trace, ById(db, name), spell), spell, i, name(key))
            <==> key.document in db.documents && key.ordinal < db.documents[key.document].chunkCount
  {
    hide GraphOf, Drawn, Accepted, ById, JobLaws.Run;
    var db := JobLaws.Run(Jobs.Database(map[], map[]), events);
    JobLaws.EveryRunCounted(events);
    ByIdIs(db, name);
    CitationIsDrawnIff(trace, ById(db, name), spell, i, name(key));
    assert key == Jobs.ChunkIdFor(key.document, key.ordinal);
  }

  /** So ingesting a document again, with fewer chunks, drops the citations of the rest. */
  lemma ReingestionDropsTheRest(
    db: Jobs.Database, c: Settings, content: Jobs.Content, trace: StoredTrace, name: Naming, spell: Spelling, i: nat, key: Jobs.ChunkId)
    requires key.document in db.documents && c.Valid() && Jobs.Parse(content).Success?
    requires Accepted(trace.claims, trace.retrieved) && Injective(name) && Injective(spell)
    requires i < |trace.claims| && name(key) in trace.claims[i].evidence
    ensures var world := Jobs.World(None, Success(content), None);
            var commits := Jobs.IngestCommits(db, key.document, c.chunkSize, c.overlap, world);
            |commits| == 3
            && (Drawn(GraphOf(trace, ById(commits[2], name), spell), spell, i, name(key))
                <==> key.ordinal < |Chunks(c, Jobs.Parse(content).value.blocks)|)
  {
    hide GraphOf, Drawn, Accepted, ById, Jobs.Parse, Chunks, Jobs.IngestCommits, Jobs.NewRows;
    var commits := Jobs.IngestCommits(db, key.document, c.chunkSize, c.overlap, Jobs.World(None, Success(content), None));
    JobLaws.IngestSucceeds(db, key.document, c, content);
    ByIdIs(commits[2], name);
    CitationIsDrawnIff(trace, ById(commits[2], name), spell, i, name(key));
    assert key in commits[2].rows <==> key in JobLaws.RowsFor(commits[2], key.document);
  }

  /** A query from end to end, whatever the model replies and whatever is stored when
      the graph is drawn: unless something other than a `DomainError` goes through, every
      citation was retrieved and is drawn if and only if it is still stored, and the
      answer is reached if and only if some such citation is. */
  method AnswerAndDraw(attempt: Attempt, table: map<Uuid, Jobs.ChunkId>, spell: Spelling) returns (r: Option<(StoredTrace, E.Graph)>)
    requires Injective(spell)
    ensures r.None? <==> Escapes(attempt, true)
    ensures r.Some? ==>
      var (trace, g) := r.value;
      && Stores(attempt, trace)
      && (forall i, id | 0 <= i < |trace.claims| && id in trace.claims[i].evidence ::
            id in trace.retrieved && (Drawn(g, spell, i, id) <==> id in table))
      && (E.Reaches(g, E.QueryNode, E.AnswerNode) <==> CitesStored(trace.claims, table))
  {
    hide Escapes, Stores, Accepted, GraphOf, Drawn, E.Reaches, CitesStored;
    var stored := AnswerQuery(attempt);
    if stored.None? {
      return None;
    }
    var trace := stored.value;
    var g := DrawTrace(trace, table, spell);
    forall i, id | 0 <= i < |trace.claims| && id in trace.claims[i].evidence
      ensures id in trace.retrieved && (Drawn(g, spell, i, id) <==> id in table)
    {
      CitesRetrieved(trace.claims, trace.retrieved, trace.claims[i]);
      CitationIsDrawnIff(trace, table, spell, i, id);
    }
    AnswerIsGroundedIff(trace, table, spell);
    return Some((trace, g));
  }
}
