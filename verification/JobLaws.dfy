/**
 Safety over every run of document jobs, with failures, crashes and retries, and
 what a successful retry arrives at.
 */
module JobLaws {
  import opened Wrappers
  import opened Identifiers
  import opened Sequences
  import opened Chunking
  import opened Jobs

  // ----- runs -----

  /** Something that happens to the database: an upload registers a document, a job
      runs until it ends or the worker dies after so many commits. */
  datatype Event =
    | Upload(id: Uuid)
    | Ingest(id: Uuid, chunkSize: int, overlap: int, world: World, commits: nat)
    | Embed(id: Uuid, setup: Option<Raised>, model: ModelId, embedder: Embedder, commits: nat)

  function NewDocument(): Document {
    Document(PENDING, 0, None, None)
  }

  function Commits(db: Database, e: Event): seq<Database> {
    match e
    case Upload(id) => if id in db.documents then [] else [WithDocument(db, id, NewDocument())]
    case Ingest(id, chunkSize, overlap, world, _) => IngestCommits(db, id, chunkSize, overlap, world)
    case Embed(id, setup, model, embedder, _) => EmbedJobCommits(db, id, setup, model, embedder)
  }

  /** What is left when the worker dies after `n` of these commits. */
  function Survives(db: Database, commits: seq<Database>, n: nat): Database {
    if n == 0 || |commits| == 0 then db
    else if n <= |commits| then commits[n - 1]
    else commits[|commits| - 1]
  }

  function Next(db: Database, e: Event): Database {
    Survives(db, Commits(db, e), if e.Upload? then 1 else e.commits)
  }

  function Run(db: Database, events: seq<Event>): Database {
    if |events| == 0 then db else Next(Run(db, events[..|events| - 1]), events[|events| - 1])
  }

  // ----- the invariant -----

  /** When the embedder answers with one vector per text, they are that model's. */
  ghost predicate Faithful(encode: Encoder, model: ModelId, embedder: Embedder) {
    forall texts: seq<string> | embedder(texts).Vectors? && |embedder(texts).vectors| == |texts| ::
      forall i | 0 <= i < |texts| :: embedder(texts).vectors[i] == encode(model, texts[i])
  }

  ghost predicate Honest(encode: Encoder, e: Event) {
    e.Embed? ==> Faithful(encode, e.model, e.embedder)
  }

  /** An embedding names its model and is that model's vector of the text. */
  ghost predicate TrueEmbedding(encode: Encoder, row: Row) {
    row.embedding.Some? ==> row.embeddingModel.Some? && row.embedding.value == encode(row.embeddingModel.value, row.text)
  }

  /** A document's rows are those of the ordinals up to its chunk count. */
  ghost predicate Counted(db: Database) {
    && (forall key | key in db.rows :: key.document in db.documents && key.ordinal < db.documents[key.document].chunkCount)
    && (forall id, o: nat | id in db.documents && o < db.documents[id].chunkCount :: ChunkIdFor(id, o) in db.rows)
  }

  ghost predicate Consistent(encode: Encoder, db: Database) {
    && Counted(db)
    && (forall key | key in db.rows :: TrueEmbedding(encode, db.rows[key]))
    && (forall id | id in db.documents && db.documents[id].status == COMPLETED :: db.documents[id].errorCode == None)
  }

  lemma DocumentChange(encode: Encoder, db: Database, id: Uuid, d: Document)
    requires Consistent(encode, db) && id in db.documents
    requires d.chunkCount == db.documents[id].chunkCount && (d.status == COMPLETED ==> d.errorCode == None)
    ensures Consistent(encode, WithDocument(db, id, d))
  {
    hide TrueEmbedding;
  }

  lemma CompletedConsistent(encode: Encoder, db: Database, id: Uuid, chunks: seq<Chunk>, pageCount: Option<nat>)
    requires Consistent(encode, db) && id in db.documents
    ensures Consistent(encode, Completed(db, id, chunks, pageCount))
  {
    hide NewRows, Counted;
    CompletedCounted(db, id, chunks, pageCount);
    var after := Completed(db, id, chunks, pageCount);
    forall key | key in after.rows
      ensures TrueEmbedding(encode, after.rows[key])
    {
      assert key in NewRows(id, chunks) || (key in db.rows && key.document != id && after.rows[key] == db.rows[key]);
    }
  }

  lemma IngestCommitsConsistent(encode: Encoder, db: Database, id: Uuid, chunkSize: int, overlap: int, world: World, i: nat)
    requires Consistent(encode, db) && i < |IngestCommits(db, id, chunkSize, overlap, world)|
    ensures Consistent(encode, IngestCommits(db, id, chunkSize, overlap, world)[i])
  {
    hide Consistent, Parse, Chunks, MakeSettings, Rechunked;
    var d := db.documents[id];
    if world.starting.Some? {
      DocumentChange(encode, db, id, d.(status := FAILED, errorCode := Some(CodeOf(world.starting.value))));
    } else {
      var parsing := WithStatus(db, id, PARSING);
      DocumentChange(encode, db, id, d.(status := PARSING));
      match FetchAndParse(world)
      case Failure(e) =>
        DocumentChange(encode, parsing, id, parsing.documents[id].(status := FAILED, errorCode := Some(CodeOf(e))));
      case Success(parsed) =>
        var chunking := WithStatus(parsing, id, CHUNKING);
        DocumentChange(encode, parsing, id, parsing.documents[id].(status := CHUNKING));
        var fault := WritingFault(chunkSize, overlap, world);
        if fault.Some? {
          DocumentChange(encode, chunking, id, chunking.documents[id].(status := FAILED, errorCode := Some(CodeOf(fault.value))));
        } else {
          CompletedConsistent(encode, chunking, id, Chunks(Settings(chunkSize, overlap), parsed.blocks), parsed.pageCount);
        }
    }
  }

  lemma AttachOne(rows: map<ChunkId, Row>, id: Uuid, model: ModelId, ordinals: seq<nat>, vectors: seq<Vector>)
    requires |ordinals| == |vectors| && |ordinals| > 0
    requires forall o | o in ordinals :: ChunkIdFor(id, o) in rows
    ensures var n := |ordinals| - 1;
            var key := ChunkIdFor(id, ordinals[n]);
            && (forall o | o in ordinals[..n] :: ChunkIdFor(id, o) in rows)
            && key in rows
            && var before := Attached(rows, id, model, ordinals[..n], vectors[..n]);
               Attached(rows, id, model, ordinals, vectors)
               == before[key := before[key].(embedding := Some(vectors[n]), embeddingModel := Some(model))]
  {
    assert ordinals[|ordinals| - 1] in ordinals;
  }

  /** What attaching vectors leaves in each row. */
  lemma {:induction false} AttachedAt(rows: map<ChunkId, Row>, id: Uuid, model: ModelId, ordinals: seq<nat>, vectors: seq<Vector>, i: nat)
    requires |ordinals| == |vectors| && i < |ordinals|
    requires forall o | o in ordinals :: ChunkIdFor(id, o) in rows
    requires AllDifferent(ordinals)
    ensures ChunkIdFor(id, ordinals[i]) in rows
    ensures Attached(rows, id, model, ordinals, vectors)[ChunkIdFor(id, ordinals[i])]
         == rows[ChunkIdFor(id, ordinals[i])].(embedding := Some(vectors[i]), embeddingModel := Some(model))
  {
    hide Attached;
    var n := |ordinals| - 1;
    var front := ordinals[..n];
    assert forall o | o in front :: o in ordinals;
    assert ordinals[i] in ordinals && ordinals[n] in ordinals;
    if i < n {
      AttachedAt(rows, id, model, front, vectors[..n], i);
    }
    AttachOne(rows, id, model, ordinals, vectors);
  }

  lemma PendingDistinct(rows: map<ChunkId, Row>, id: Uuid, model: ModelId)
    ensures var o := PendingOrdinals(rows, id, model); AllDifferent(o)
  {
  }

  /** One row after a successful embedding. */
  lemma EmbeddedRow(db: Database, id: Uuid, model: ModelId, vectors: seq<Vector>, encode: Encoder, key: ChunkId)
    requires id in db.documents && key in db.rows
    requires forall o | o in PendingOrdinals(db.rows, id, model) :: ChunkIdFor(id, o) in db.rows
    requires var ordinals := PendingOrdinals(db.rows, id, model);
             |vectors| == |ordinals| && forall i | 0 <= i < |ordinals| :: vectors[i] == encode(model, Texts(db.rows, id, ordinals)[i])
    ensures key in Embedded(db, id, model, PendingOrdinals(db.rows, id, model), vectors).rows
    ensures Embedded(db, id, model, PendingOrdinals(db.rows, id, model), vectors).rows[key]
         == if key.document == id && Pending(db.rows[key], model)
            then db.rows[key].(embedding := Some(encode(model, db.rows[key].text)), embeddingModel := Some(model))
            else db.rows[key]
  {
    hide Attached, PendingOrdinals;
    var ordinals := PendingOrdinals(db.rows, id, model);
    PendingAreRows(db.rows, id, model);
    PendingDistinct(db.rows, id, model);
    if key.document == id && key.ordinal in ordinals {
      var i :| 0 <= i < |ordinals| && ordinals[i] == key.ordinal;
      AttachedAt(db.rows, id, model, ordinals, vectors, i);
      assert key == ChunkIdFor(id, ordinals[i]);
    } else if key.document == id {
      assert key == ChunkIdFor(id, key.ordinal);
    }
  }

  lemma EmbedCommitsConsistent(encode: Encoder, db: Database, id: Uuid, model: ModelId, embedder: Embedder, i: nat)
    requires Consistent(encode, db) && Faithful(encode, model, embedder)
    requires i < |EmbedCommits(db, id, model, embedder)|
    ensures Consistent(encode, EmbedCommits(db, id, model, embedder)[i])
  {
    hide PendingOrdinals, Attached, Texts;
    var ordinals := PendingOrdinals(db.rows, id, model);
    PendingAreRows(db.rows, id, model);
    var d := db.documents[id];
    match embedder(Texts(db.rows, id, ordinals))
    case Fails(raised) =>
      DocumentChange(encode, db, id, d.(status := FAILED, errorCode := Some(raised.code)));
    case Vectors(vectors) =>
      if |vectors| != |ordinals| {
        DocumentChange(encode, db, id, d.(status := FAILED, errorCode := Some(EMBEDDING_FAILED)));
      } else {
        var after := Embedded(db, id, model, ordinals, vectors);
        forall key | key in after.rows
          ensures TrueEmbedding(encode, after.rows[key])
        {
          TextsCount(db.rows, id, ordinals);
          EmbeddedRow(db, id, model, vectors, encode, key);
        }
      }
  }

  lemma TextsCount(rows: map<ChunkId, Row>, id: Uuid, ordinals: seq<nat>)
    requires forall o | o in ordinals :: ChunkIdFor(id, o) in rows
    ensures |Texts(rows, id, ordinals)| == |ordinals|
  {
  }

  /** Every state any event commits is consistent, so whatever a crash leaves is too. */
  lemma EveryCommitConsistent(encode: Encoder, db: Database, e: Event, i: nat)
    requires Consistent(encode, db) && Honest(encode, e) && i < |Commits(db, e)|
    ensures Consistent(encode, Commits(db, e)[i])
  {
    match e
    case Upload(id) =>
      assert forall key | key in db.rows :: key.document != id;
    case Ingest(id, chunkSize, overlap, world, _) => IngestCommitsConsistent(encode, db, id, chunkSize, overlap, world, i);
    case Embed(id, setup, model, embedder, _) =>
      if setup.Some? {
        DocumentChange(encode, db, id, db.documents[id].(status := FAILED, errorCode := Some(setup.value.code)));
      } else {
        EmbedCommitsConsistent(encode, db, id, model, embedder, i);
      }
  }

  /** In every state reachable by uploads, jobs, failures, crashes and retries. */
  lemma {:induction false} EveryRunConsistent(encode: Encoder, events: seq<Event>)
    requires forall e | e in events :: Honest(encode, e)
    ensures Consistent(encode, Run(Database(map[], map[]), events))
  {
    hide Consistent, Commits, Honest;
    var empty := Database(map[], map[]);
    if |events| == 0 {
      EmptyConsistent(encode);
    } else {
      var front, last := events[..|events| - 1], events[|events| - 1];
      EveryRunConsistent(encode, front);
      var db := Run(empty, front);
      var n := if last.Upload? then 1 else last.commits;
      var commits := Commits(db, last);
      if n > 0 && |commits| > 0 {
        EveryCommitConsistent(encode, db, last, if n <= |commits| then n - 1 else |commits| - 1);
      }
    }
  }

  lemma EmptyConsistent(encode: Encoder)
    ensures Consistent(encode, Database(map[], map[]))
  {
  }

  // ----- other documents -----

  ghost predicate SameFor(a: Database, b: Database, other: Uuid) {
    && (other in a.documents <==> other in b.documents)
    && (other in a.documents ==> a.documents[other] == b.documents[other])
    && forall key: ChunkId | key.document == other ::
         (key in a.rows <==> key in b.rows) && (key in a.rows ==> a.rows[key] == b.rows[key])
  }

  /** A job on one document changes no other, whatever happens to it. */
  lemma JobsAreIsolated(db: Database, e: Event, i: nat, other: Uuid)
    requires i < |Commits(db, e)| && other != e.id
    ensures SameFor(db, Commits(db, e)[i], other)
  {
    hide Parse, Chunks, MakeSettings, NewRows, PendingOrdinals, Attached, Texts;
    match e
    case Upload(id) =>
    case Ingest(id, chunkSize, overlap, world, _) =>
      if FetchAndParse(world).Success? && MakeSettings(chunkSize, overlap).Success? {
        var chunks := Chunks(Settings(chunkSize, overlap), FetchAndParse(world).value.blocks);
        assert forall key | key in NewRows(id, chunks) :: key.document == id;
      }
    case Embed(id, setup, model, embedder, _) =>
      PendingAreRows(db.rows, id, model);
  }

  // ----- what a successful retry reaches -----

  /** The rows a document has once its chunks are embedded, from its content alone. */
  function Canonical(encode: Encoder, model: ModelId, id: Uuid, chunks: seq<Chunk>): map<ChunkId, Row> {
    map key | key in NewRows(id, chunks) ::
      RowOf(chunks[key.ordinal]).(embedding := Some(encode(model, chunks[key.ordinal].text)), embeddingModel := Some(model))
  }

  function RowsFor(db: Database, id: Uuid): map<ChunkId, Row> {
    map key | key in db.rows && key.document == id :: db.rows[key]
  }

  lemma CompletedRows(db: Database, id: Uuid, chunks: seq<Chunk>, pageCount: Option<nat>)
    requires id in db.documents
    ensures RowsFor(Completed(db, id, chunks, pageCount), id) == NewRows(id, chunks)
  {
    hide NewRows;
    var rows := RowsFor(Completed(db, id, chunks, pageCount), id);
    assert forall key | key in NewRows(id, chunks) :: key.document == id;
    assert rows.Keys == NewRows(id, chunks).Keys;
  }

  lemma IngestSucceeds(before: Database, id: Uuid, c: Settings, content: Content)
    requires id in before.documents && c.Valid() && Parse(content).Success?
    ensures var commits := IngestCommits(before, id, c.chunkSize, c.overlap, World(None, Success(content), None));
            |commits| == 3 && id in commits[2].documents
            && RowsFor(commits[2], id) == NewRows(id, Chunks(c, Parse(content).value.blocks))
            && commits[2].documents[id].status == COMPLETED && commits[2].documents[id].errorCode == None
            && commits[2].documents[id].pageCount == Parse(content).value.pageCount
            && commits[2].documents[id].chunkCount == |Chunks(c, Parse(content).value.blocks)|
  {
    hide Parse, Chunks, Rechunked, RowsFor;
    var parsed := Parse(content).value;
    CompletedRows(WithStatus(WithStatus(before, id, PARSING), id, CHUNKING), id, Chunks(c, parsed.blocks), parsed.pageCount);
  }

  /** What is stored of a chunk: its text, page and offsets under its ordinal, and no vector. */
  lemma StoredRow(before: Database, id: Uuid, c: Settings, content: Content, o: nat)
    requires id in before.documents && c.Valid() && Parse(content).Success? && o < |Chunks(c, Parse(content).value.blocks)|
    ensures var commits := IngestCommits(before, id, c.chunkSize, c.overlap, World(None, Success(content), None));
            var ch := Chunks(c, Parse(content).value.blocks)[o];
            |commits| == 3 && ChunkIdFor(id, o) in commits[2].rows
            && var row := commits[2].rows[ChunkIdFor(id, o)];
               && row.text == ch.text && row.page == ch.page && row.charStart == ch.charStart && row.charEnd == ch.charEnd
               && row.embedding == None && row.embeddingModel == None
  {
    hide Parse, Chunks, IngestCommits;
    IngestSucceeds(before, id, c, content);
    var commits := IngestCommits(before, id, c.chunkSize, c.overlap, World(None, Success(content), None));
    var key := ChunkIdFor(id, o);
    assert key in RowsFor(commits[2], id);
    assert commits[2].rows[key] == RowsFor(commits[2], id)[key];
  }

  /** Ingesting the same content with the same settings gives the same rows, whatever
      was there before: chunk identifiers keep meaning what they meant. */
  lemma ReingestionIsStable(before: Database, later: Database, id: Uuid, c: Settings, content: Content)
    requires id in before.documents && id in later.documents && c.Valid() && Parse(content).Success?
    ensures var world := World(None, Success(content), None);
            var first := IngestCommits(before, id, c.chunkSize, c.overlap, world);
            var again := IngestCommits(later, id, c.chunkSize, c.overlap, world);
            |first| == |again| == 3 && RowsFor(first[2], id) == RowsFor(again[2], id)
  {
    hide Parse, Chunks, IngestCommits, RowsFor;
    IngestSucceeds(before, id, c, content);
    IngestSucceeds(later, id, c, content);
  }

  ghost predicate Answers(embedder: Embedder) {
    forall texts: seq<string> :: embedder(texts).Vectors? && |embedder(texts).vectors| == |texts|
  }

  /** A successful embedding leaves nothing to embed. */
  lemma NothingLeftPending(encode: Encoder, db: Database, id: Uuid, model: ModelId, embedder: Embedder)
    requires id in db.documents && Faithful(encode, model, embedder) && Answers(embedder)
    ensures EmbedCommits(Survives(db, EmbedCommits(db, id, model, embedder), 1), id, model, embedder) == []
  {
    hide PendingOrdinals, Attached, Texts;
    var ordinals := PendingOrdinals(db.rows, id, model);
    PendingAreRows(db.rows, id, model);
    if |ordinals| > 0 {
      TextsCount(db.rows, id, ordinals);
      var vectors := embedder(Texts(db.rows, id, ordinals)).vectors;
      var after := Embedded(db, id, model, ordinals, vectors);
      PendingAreRows(after.rows, id, model);
      forall key | key in after.rows && key.document == id
        ensures !Pending(after.rows[key], model)
      {
        EmbeddedRow(db, id, model, vectors, encode, key);
      }
      HasMember(PendingOrdinals(after.rows, id, model));
    }
  }

  lemma HasMember<T>(xs: seq<T>)
    ensures |xs| > 0 ==> exists x :: x in xs
  {
    if |xs| > 0 {
      assert xs[0] in xs;
    }
  }

  /** New rows wait for an embedding, and embedded they are the canonical ones. */
  lemma CanonicalIs(encode: Encoder, model: ModelId, id: Uuid, chunks: seq<Chunk>)
    ensures Canonical(encode, model, id, chunks).Keys == NewRows(id, chunks).Keys
    ensures forall key | key in NewRows(id, chunks) ::
      && key.document == id && Pending(NewRows(id, chunks)[key], model)
      && Canonical(encode, model, id, chunks)[key]
         == NewRows(id, chunks)[key].(embedding := Some(encode(model, NewRows(id, chunks)[key].text)), embeddingModel := Some(model))
  {
  }

  lemma RowsForIs(db: Database, id: Uuid, rows: map<ChunkId, Row>)
    requires forall key | key in rows :: key.document == id && key in db.rows && db.rows[key] == rows[key]
    requires forall key | key in db.rows && key.document == id :: key in rows
    ensures RowsFor(db, id) == rows
  {
  }

  lemma EmbedConverges(encode: Encoder, db: Database, id: Uuid, chunks: seq<Chunk>, model: ModelId, embedder: Embedder)
    requires id in db.documents && RowsFor(db, id) == NewRows(id, chunks)
    requires Faithful(encode, model, embedder) && Answers(embedder)
    requires db.documents[id].errorCode == None
    ensures var embedded := Survives(db, EmbedCommits(db, id, model, embedder), 1);
            id in embedded.documents && RowsFor(embedded, id) == Canonical(encode, model, id, chunks)
            && embedded.documents[id] == db.documents[id]
  {
    hide PendingOrdinals, Attached, Texts, NewRows, Canonical, Pending, Faithful;
    var ordinals := PendingOrdinals(db.rows, id, model);
    PendingAreRows(db.rows, id, model);
    CanonicalIs(encode, model, id, chunks);
    assert forall key | key in NewRows(id, chunks) :: key in RowsFor(db, id) && db.rows[key] == NewRows(id, chunks)[key];
    assert forall key | key in db.rows && key.document == id :: key in RowsFor(db, id);
    forall key | key in NewRows(id, chunks)
      ensures key.ordinal in ordinals
    {
      assert key == ChunkIdFor(id, key.ordinal);
    }
    var embedded := Survives(db, EmbedCommits(db, id, model, embedder), 1);
    if |ordinals| > 0 {
      TextsCount(db.rows, id, ordinals);
      var vectors := embedder(Texts(db.rows, id, ordinals)).vectors;
      FaithfulTo(encode, model, embedder, Texts(db.rows, id, ordinals));
      forall key | key in db.rows
        ensures key in embedded.rows
        ensures key in NewRows(id, chunks) ==> embedded.rows[key] == Canonical(encode, model, id, chunks)[key]
      {
        EmbeddedRow(db, id, model, vectors, encode, key);
      }
      assert embedded.rows.Keys == db.rows.Keys;
    }
    RowsForIs(embedded, id, Canonical(encode, model, id, chunks));
  }

  lemma FaithfulTo(encode: Encoder, model: ModelId, embedder: Embedder, texts: seq<string>)
    requires Faithful(encode, model, embedder) && embedder(texts).Vectors? && |embedder(texts).vectors| == |texts|
    ensures forall i | 0 <= i < |texts| :: embedder(texts).vectors[i] == encode(model, texts[i])
  {
  }

  /** From any state whatever, one successful ingestion and one successful embedding
      of the same content leave the same rows; embedding again commits nothing. */
  lemma RetryConverges(encode: Encoder, before: Database, id: Uuid, c: Settings, content: Content, model: ModelId, embedder: Embedder)
    requires id in before.documents && c.Valid() && Parse(content).Success? && Faithful(encode, model, embedder)
    requires Answers(embedder)
    ensures var chunks := Chunks(c, Parse(content).value.blocks);
            var ingested := IngestCommits(before, id, c.chunkSize, c.overlap, World(None, Success(content), None))[2];
            var embedded := Survives(ingested, EmbedCommits(ingested, id, model, embedder), 1);
            && RowsFor(embedded, id) == Canonical(encode, model, id, chunks)
            && embedded.documents[id].status == COMPLETED && embedded.documents[id].errorCode == None
            && EmbedCommits(embedded, id, model, embedder) == []
  {
    hide Parse, Chunks, PendingOrdinals, Attached, Texts, IngestCommits, NewRows, Faithful, RowOf;
    IngestSucceeds(before, id, c, content);
    var chunks := Chunks(c, Parse(content).value.blocks);
    var ingested := IngestCommits(before, id, c.chunkSize, c.overlap, World(None, Success(content), None))[2];
    EmbedConverges(encode, ingested, id, chunks, model, embedder);
    NothingLeftPending(encode, ingested, id, model, embedder);
  }

  /** A failed ingestion never touches the rows of the last good one. */
  lemma FailedIngestionKeepsRows(db: Database, id: Uuid, chunkSize: int, overlap: int, world: World, i: nat)
    requires i < |IngestCommits(db, id, chunkSize, overlap, world)|
    ensures var after := IngestCommits(db, id, chunkSize, overlap, world)[i];
            after.rows == db.rows || (after.documents[id].status == COMPLETED && i == 2)
  {
    hide Parse, Chunks, MakeSettings, Rechunked;
  }

  /** The row has this model's vector of its text. */
  predicate UpToDate(encode: Encoder, model: ModelId, row: Row) {
    row.embedding == Some(encode(model, row.text)) && row.embeddingModel == Some(model)
  }

  /** Embedding with a model leaves every row of the document with that model's vector,
      whichever model it had before, and changes nothing else of any row; it commits
      nothing exactly when every row was up to date already. */
  lemma EmbeddingBringsUpToDate(encode: Encoder, db: Database, id: Uuid, model: ModelId, embedder: Embedder)
    requires Consistent(encode, db) && id in db.documents && Faithful(encode, model, embedder) && Answers(embedder)
    ensures var after := Survives(db, EmbedCommits(db, id, model, embedder), 1);
            && after.rows.Keys == db.rows.Keys
            && (forall key | key in db.rows && key.document == id ::
                  UpToDate(encode, model, after.rows[key])
                  && after.rows[key].(embedding := None, embeddingModel := None) == db.rows[key].(embedding := None, embeddingModel := None))
            && (forall key | key in db.rows && key.document != id :: after.rows[key] == db.rows[key])
    ensures EmbedCommits(db, id, model, embedder) == []
       <==> forall key | key in db.rows && key.document == id :: UpToDate(encode, model, db.rows[key])
  {
    hide PendingOrdinals, Attached, Texts, Counted, Faithful;
    var ordinals := PendingOrdinals(db.rows, id, model);
    PendingAreRows(db.rows, id, model);
    forall key | key in db.rows && key.document == id
      ensures key.ordinal in ordinals <==> !UpToDate(encode, model, db.rows[key])
    {
      assert key == ChunkIdFor(id, key.ordinal);
      PendingIff(encode, model, db.rows[key]);
    }
    if |ordinals| == 0 {
    } else {
      assert ordinals[0] in ordinals;
      var some := ChunkIdFor(id, ordinals[0]);
      TextsCount(db.rows, id, ordinals);
      var vectors := embedder(Texts(db.rows, id, ordinals)).vectors;
      FaithfulTo(encode, model, embedder, Texts(db.rows, id, ordinals));
      var after := Embedded(db, id, model, ordinals, vectors);
      forall key | key in db.rows
        ensures key in after.rows
        ensures after.rows[key]
             == if key.document == id && Pending(db.rows[key], model)
                then db.rows[key].(embedding := Some(encode(model, db.rows[key].text)), embeddingModel := Some(model))
                else db.rows[key]
      {
        EmbeddedRow(db, id, model, vectors, encode, key);
      }
      forall key | key in db.rows && key.document == id
        ensures UpToDate(encode, model, after.rows[key])
      {
        PendingIff(encode, model, db.rows[key]);
      }
    }
  }

  /** Of rows whose vectors are what they say, those selected are those not up to date. */
  lemma PendingIff(encode: Encoder, model: ModelId, row: Row)
    requires TrueEmbedding(encode, row)
    ensures Pending(row, model) <==> !UpToDate(encode, model, row)
  {
  }

  // ----- failed, and no reason given -----

  /** A successful embedding keeps the status, and clears the error code exactly when
      there was something to embed. */
  lemma EmbeddingClearsTheCodeOnly(db: Database, id: Uuid, model: ModelId, embedder: Embedder)
    requires id in db.documents && Answers(embedder)
    ensures var after := Survives(db, EmbedCommits(db, id, model, embedder), 1);
            && id in after.documents && after.documents[id].status == db.documents[id].status
            && (after.documents[id].errorCode == None
                <==> db.documents[id].errorCode == None || |PendingOrdinals(db.rows, id, model)| > 0)
  {
    hide PendingOrdinals, Attached, Texts;
    var ordinals := PendingOrdinals(db.rows, id, model);
    PendingAreRows(db.rows, id, model);
    TextsCount(db.rows, id, ordinals);
  }

  /** The document says it failed and does not say why. */
  predicate Unexplained(db: Database, id: Uuid) {
    id in db.documents && db.documents[id].status == FAILED && db.documents[id].errorCode == None
  }

  /** There is a pipeline, something to embed, and as many vectors for it. */
  predicate CanEmbed(db: Database, id: Uuid, setup: Option<Raised>, model: ModelId, embedder: Embedder) {
    id in db.documents && setup.None?
    && var ordinals := PendingOrdinals(db.rows, id, model);
       PendingAreRows(db.rows, id, model);
       |ordinals| > 0
       && var reply := embedder(Texts(db.rows, id, ordinals));
          reply.Vectors? && |reply.vectors| == |ordinals|
  }

  /** The job ends without a commit: no such document, nothing pending, or an exception
      that is not a `DomainError`. */
  predicate EmbedsInSilence(db: Database, id: Uuid, setup: Option<Raised>, model: ModelId, embedder: Embedder) {
    || id !in db.documents || setup == Some(OtherException)
    || (setup.None?
        && var ordinals := PendingOrdinals(db.rows, id, model);
           PendingAreRows(db.rows, id, model);
           |ordinals| == 0 || embedder(Texts(db.rows, id, ordinals)) == Fails(OtherException))
  }

  /** The event is about another document, dies before it commits, or has nothing to commit. */
  predicate LeavesAlone(db: Database, e: Event, id: Uuid) {
    e.id != id
    || match e
       case Upload(_) => id in db.documents
       case Ingest(_, _, _, _, commits) => commits == 0 || id !in db.documents
       case Embed(_, setup, model, embedder, commits) => commits == 0 || EmbedsInSilence(db, id, setup, model, embedder)
  }

  /** Exactly how a document comes to be FAILED without an error code: it was FAILED,
      for whatever reason, and an embedding of its rows succeeded. */
  lemma UnexplainedIff(db: Database, e: Event, id: Uuid)
    ensures Unexplained(Next(db, e), id)
       <==> || (LeavesAlone(db, e, id) && Unexplained(db, id))
            || (e.Embed? && e.id == id && e.commits > 0 && CanEmbed(db, id, e.setup, e.model, e.embedder)
                && db.documents[id].status == FAILED)
  {
    hide PendingOrdinals, Attached, Texts, Parse, Chunks, MakeSettings, Rechunked;
    match e
    case Upload(_) =>
    case Ingest(_, chunkSize, overlap, world, _) =>
      if e.commits > 0 && |Commits(db, e)| > 0 {
        IngestionExplains(db, e.id, chunkSize, overlap, world, LastSurviving(e.commits, |Commits(db, e)|));
        if e.id != id {
          JobsAreIsolated(db, e, LastSurviving(e.commits, |Commits(db, e)|), id);
        }
      }
    case Embed(_, setup, model, embedder, _) =>
      PendingAreRows(db.rows, e.id, model);
  }

  function LastSurviving(n: nat, size: nat): nat
    requires n > 0 && size > 0
  {
    if n <= size then n - 1 else size - 1
  }

  /** Whatever ingestion commits, a failure it leaves has its code. */
  lemma IngestionExplains(db: Database, id: Uuid, chunkSize: int, overlap: int, world: World, i: nat)
    requires i < |IngestCommits(db, id, chunkSize, overlap, world)|
    ensures !Unexplained(IngestCommits(db, id, chunkSize, overlap, world)[i], id)
  {
    hide Parse, Chunks, MakeSettings, Rechunked;
  }

  /** Embedding that fails and is then retried successfully clears the error but not
      the status: the document stays FAILED, with no error and nothing left to embed. */
  lemma RetriedEmbeddingStaysFailed(encode: Encoder, db: Database, id: Uuid, model: ModelId, code: ErrorCode, failing: Embedder, embedder: Embedder)
    requires id in db.documents && |PendingOrdinals(db.rows, id, model)| > 0
    requires forall texts: seq<string> :: failing(texts) == Fails(DomainError(code))
    requires Faithful(encode, model, embedder) && Answers(embedder)
    ensures var failed := Survives(db, EmbedCommits(db, id, model, failing), 1);
            var recovered := Survives(failed, EmbedCommits(failed, id, model, embedder), 1);
            failed.documents[id].errorCode == Some(code)
            && Unexplained(recovered, id) && EmbedCommits(recovered, id, model, embedder) == []
  {
    hide PendingOrdinals, Attached, Texts;
    PendingAreRows(db.rows, id, model);
    var failed := Survives(db, EmbedCommits(db, id, model, failing), 1);
    assert failed.rows == db.rows;
    EmbeddingClearsTheCodeOnly(failed, id, model, embedder);
    NothingLeftPending(encode, failed, id, model, embedder);
  }

  /** A failed ingestion keeps the rows of the one before; embedding those erases why
      the ingestion failed. */
  lemma EmbeddingHidesFailedIngestion(db: Database, id: Uuid, chunkSize: int, overlap: int, world: World, model: ModelId, embedder: Embedder)
    requires id in db.documents && |PendingOrdinals(db.rows, id, model)| > 0
    requires IngestTrouble(chunkSize, overlap, world).Some? && Answers(embedder)
    ensures var commits := IngestCommits(db, id, chunkSize, overlap, world);
            var failed := Survives(db, commits, |commits|);
            var embedded := Survives(failed, EmbedCommits(failed, id, model, embedder), 1);
            id in failed.documents && failed.documents[id].status == FAILED
            && failed.documents[id].errorCode == Some(CodeOf(IngestTrouble(chunkSize, overlap, world).value))
            && Unexplained(embedded, id)
  {
    hide PendingOrdinals, Attached, Texts, Parse, Chunks, MakeSettings, Rechunked;
    var commits := IngestCommits(db, id, chunkSize, overlap, world);
    var failed := Survives(db, commits, |commits|);
    assert failed.rows == db.rows;
    EmbeddingClearsTheCodeOnly(failed, id, model, embedder);
  }

  // ----- which failures are recorded -----

  /** The last commit says that the document failed, and with what code. */
  predicate Records(commits: seq<Database>, id: Uuid, code: ErrorCode) {
    |commits| > 0
    && var last := commits[|commits| - 1];
       id in last.documents && last.documents[id].status == FAILED && last.documents[id].errorCode == Some(code)
  }

  /** Whatever goes wrong with an ingestion is recorded. */
  lemma IngestionFailureIsRecorded(db: Database, id: Uuid, chunkSize: int, overlap: int, world: World)
    requires id in db.documents && IngestTrouble(chunkSize, overlap, world).Some?
    ensures var raised := IngestTrouble(chunkSize, overlap, world).value;
            Records(IngestCommits(db, id, chunkSize, overlap, world), id,
                    match raised case DomainError(code) => code case OtherException => INGESTION_FAILED)
  {
    hide Parse, Chunks, MakeSettings, Rechunked;
  }

  /** What goes wrong with an embedding is recorded if and only if it is a `DomainError`;
      otherwise nothing is. */
  lemma EmbeddingFailureIsRecordedIff(db: Database, id: Uuid, setup: Option<Raised>, model: ModelId, embedder: Embedder)
    requires EmbedResult(db, id, setup, model, embedder).Raises?
    ensures var raised := EmbedResult(db, id, setup, model, embedder).raised;
            var commits := EmbedJobCommits(db, id, setup, model, embedder);
            && (raised.DomainError? <==> exists code :: Records(commits, id, code))
            && (raised.DomainError? ==> Records(commits, id, raised.code))
            && (raised.OtherException? ==> commits == [])
  {
    hide PendingOrdinals, Attached, Texts;
    PendingAreRows(db.rows, id, model);
    var raised := EmbedResult(db, id, setup, model, embedder).raised;
    if raised.DomainError? {
      assert Records(EmbedJobCommits(db, id, setup, model, embedder), id, raised.code);
    }
  }

  // ----- embedded all at once -----

  /** The rows of a document agree on whether they have a vector, and on its model. */
  ghost predicate Uniform(db: Database) {
    forall a, b | a in db.rows && b in db.rows && a.document == b.document :: Alike(db.rows[a], db.rows[b])
  }

  predicate Alike(a: Row, b: Row) {
    (a.embedding.Some? <==> b.embedding.Some?) && a.embeddingModel == b.embeddingModel
  }

  lemma IngestKeepsUniform(db: Database, id: Uuid, chunkSize: int, overlap: int, world: World, i: nat)
    requires Uniform(db) && i < |IngestCommits(db, id, chunkSize, overlap, world)|
    ensures Uniform(IngestCommits(db, id, chunkSize, overlap, world)[i])
  {
    hide Parse, Chunks, MakeSettings, NewRows;
    var after := IngestCommits(db, id, chunkSize, overlap, world)[i];
    if after.rows != db.rows {
      var chunks := Chunks(Settings(chunkSize, overlap), FetchAndParse(world).value.blocks);
      assert after.rows == Rechunked(db.rows, id, chunks);
      assert forall key | key in NewRows(id, chunks) :: key.document == id;
    }
  }

  /** One row after vectors are attached, whatever the vectors. */
  lemma AttachedRow(rows: map<ChunkId, Row>, id: Uuid, model: ModelId, vectors: seq<Vector>, key: ChunkId)
    requires key in rows && |vectors| == |PendingOrdinals(rows, id, model)|
    requires forall o | o in PendingOrdinals(rows, id, model) :: ChunkIdFor(id, o) in rows
    ensures var after := Attached(rows, id, model, PendingOrdinals(rows, id, model), vectors)[key];
            if key.document == id && Pending(rows[key], model) then after.embedding.Some? && after.embeddingModel == Some(model)
            else after == rows[key]
  {
    hide Attached, PendingOrdinals;
    var ordinals := PendingOrdinals(rows, id, model);
    PendingAreRows(rows, id, model);
    PendingDistinct(rows, id, model);
    if key.document == id {
      assert key == ChunkIdFor(id, key.ordinal);
      if key.ordinal in ordinals {
        var i :| 0 <= i < |ordinals| && ordinals[i] == key.ordinal;
        AttachedAt(rows, id, model, ordinals, vectors, i);
      }
    }
  }

  lemma EmbedKeepsUniform(db: Database, id: Uuid, model: ModelId, embedder: Embedder, i: nat)
    requires Uniform(db) && i < |EmbedCommits(db, id, model, embedder)|
    ensures Uniform(EmbedCommits(db, id, model, embedder)[i])
  {
    hide PendingOrdinals, Attached, Texts;
    var ordinals := PendingOrdinals(db.rows, id, model);
    PendingAreRows(db.rows, id, model);
    var reply := embedder(Texts(db.rows, id, ordinals));
    if reply.Vectors? && |reply.vectors| == |ordinals| {
      var after := Attached(db.rows, id, model, ordinals, reply.vectors);
      forall a, b | a in after && b in after && a.document == b.document
        ensures Alike(after[a], after[b])
      {
        assert Alike(db.rows[a], db.rows[b]);
        AttachedRow(db.rows, id, model, reply.vectors, a);
        AttachedRow(db.rows, id, model, reply.vectors, b);
      }
    }
  }

  lemma EveryCommitUniform(db: Database, e: Event, i: nat)
    requires Uniform(db) && i < |Commits(db, e)|
    ensures Uniform(Commits(db, e)[i])
  {
    hide IngestCommits, EmbedCommits;
    match e
    case Upload(_) =>
    case Ingest(id, chunkSize, overlap, world, _) => IngestKeepsUniform(db, id, chunkSize, overlap, world, i);
    case Embed(id, setup, model, embedder, _) =>
      if setup.None? {
        EmbedKeepsUniform(db, id, model, embedder, i);
      }
  }

  lemma {:induction false} EveryRunUniform(events: seq<Event>)
    ensures Uniform(Run(Database(map[], map[]), events))
  {
    hide Uniform, Commits;
    var empty := Database(map[], map[]);
    if |events| == 0 {
      EmptyUniform();
    } else {
      var front, last := events[..|events| - 1], events[|events| - 1];
      EveryRunUniform(front);
      var db := Run(empty, front);
      var n := if last.Upload? then 1 else last.commits;
      var commits := Commits(db, last);
      if n > 0 && |commits| > 0 {
        EveryCommitUniform(db, last, LastSurviving(n, |commits|));
      }
    }
  }

  lemma EmptyUniform()
    ensures Uniform(Database(map[], map[]))
  {
  }

  /** No run leaves a document partially embedded: for any model, everything it has is
      pending or nothing is, so there is never anything to resume. */
  lemma NeverPartiallyEmbedded(events: seq<Event>, id: Uuid, model: ModelId)
    ensures var rows := Run(Database(map[], map[]), events).rows;
            || PendingOrdinals(rows, id, model) == []
            || forall o: nat | ChunkIdFor(id, o) in rows :: o in PendingOrdinals(rows, id, model)
  {
    hide PendingOrdinals, Run;
    var rows := Run(Database(map[], map[]), events).rows;
    var pending := PendingOrdinals(rows, id, model);
    EveryRunUniform(events);
    PendingAreRows(rows, id, model);
    if |pending| > 0 {
      var some := ChunkIdFor(id, pending[0]);
      assert pending[0] in pending;
      forall o: nat | ChunkIdFor(id, o) in rows
        ensures o in pending
      {
        assert Alike(rows[some], rows[ChunkIdFor(id, o)]);
      }
    }
  }

  // ----- rows and counts, whatever the embedders do -----

  /** Counting needs nothing of the vectors. */
  lemma EveryCommitCounted(db: Database, e: Event, i: nat)
    requires Counted(db) && i < |Commits(db, e)|
    ensures Counted(Commits(db, e)[i])
  {
    hide Parse, Chunks, MakeSettings, Rechunked, PendingOrdinals, Attached, Texts;
    match e
    case Upload(id) =>
      assert forall key | key in db.rows :: key.document != id;
    case Ingest(id, chunkSize, overlap, world, _) =>
      IngestKeepsCount(db, id, chunkSize, overlap, world, i);
    case Embed(id, setup, model, embedder, _) =>
      PendingAreRows(db.rows, id, model);
  }

  lemma CompletedCounted(db: Database, id: Uuid, chunks: seq<Chunk>, pageCount: Option<nat>)
    requires Counted(db) && id in db.documents
    ensures Counted(Completed(db, id, chunks, pageCount))
  {
    hide NewRows;
    var after := Completed(db, id, chunks, pageCount);
    forall key | key in after.rows
      ensures key.document in after.documents && key.ordinal < after.documents[key.document].chunkCount
    {
      assert key in NewRows(id, chunks) || (key in db.rows && key.document != id);
    }
    forall x, o: nat | x in after.documents && o < after.documents[x].chunkCount
      ensures ChunkIdFor(x, o) in after.rows
    {
      if x != id {
        assert ChunkIdFor(x, o) in db.rows;
      } else {
        assert ChunkIdFor(x, o) in NewRows(id, chunks);
      }
    }
  }

  lemma IngestKeepsCount(db: Database, id: Uuid, chunkSize: int, overlap: int, world: World, i: nat)
    requires Counted(db) && i < |IngestCommits(db, id, chunkSize, overlap, world)|
    ensures Counted(IngestCommits(db, id, chunkSize, overlap, world)[i])
  {
    hide Parse, Chunks, MakeSettings, Rechunked;
    if i == 2 && IngestTrouble(chunkSize, overlap, world).None? {
      var before := WithStatus(WithStatus(db, id, PARSING), id, CHUNKING);
      var parsed := FetchAndParse(world).value;
      CompletedCounted(before, id, Chunks(Settings(chunkSize, overlap), parsed.blocks), parsed.pageCount);
    }
  }

  lemma {:induction false} EveryRunCounted(events: seq<Event>)
    ensures Counted(Run(Database(map[], map[]), events))
  {
    hide Counted, Commits;
    var empty := Database(map[], map[]);
    if |events| == 0 {
      EmptyCounted();
    } else {
      var front, last := events[..|events| - 1], events[|events| - 1];
      EveryRunCounted(front);
      var db := Run(empty, front);
      var n := if last.Upload? then 1 else last.commits;
      var commits := Commits(db, last);
      if n > 0 && |commits| > 0 {
        EveryCommitCounted(db, last, LastSurviving(n, |commits|));
      }
    }
  }

  lemma EmptyCounted()
    ensures Counted(Database(map[], map[]))
  {
  }
}
