/**
 The document jobs, backend/app/services/ingestion_service.py and
 backend/app/services/embedding_service.py, over a database with a committed and a
 working state. A crash keeps what was committed; so what matters is every state a
 job commits, not only the last.
 */
module Jobs {
  import opened Wrappers
  import opened Identifiers
  import opened Parsing
  import opened Chunking
  import opened Sessions

  /** `chunk_id_for`: determined by document and position, and different for different ones. */
  datatype ChunkId = ChunkIdFor(document: Uuid, ordinal: nat)

  type ModelId = string
  type Vector = seq<real>
  type Encoder = (ModelId, string) -> Vector

  datatype IngestionStatus = PENDING | PARSING | CHUNKING | COMPLETED | FAILED

  datatype ErrorCode = INGESTION_FAILED | PARSING_FAILED | EMBEDDING_FAILED | OtherCode(name: string)

  datatype Document = Document(status: IngestionStatus, chunkCount: nat, pageCount: Option<nat>, errorCode: Option<ErrorCode>)

  datatype Row = Row(
    text: string, page: Option<nat>, charStart: nat, charEnd: nat,
    embedding: Option<Vector>, embeddingModel: Option<ModelId>)

  datatype Database = Database(documents: map<Uuid, Document>, rows: map<ChunkId, Row>)

  /** A `DomainError` with its code, or any other exception. */
  datatype Raised = DomainError(code: ErrorCode) | OtherException

  datatype JobResult = Finished(written: nat) | NotFound | Raises(raised: Raised)

  function WithDocument(db: Database, id: Uuid, d: Document): Database {
    db.(documents := db.documents[id := d])
  }

  function WithStatus(db: Database, id: Uuid, status: IngestionStatus): Database
    requires id in db.documents
  {
    WithDocument(db, id, db.documents[id].(status := status))
  }

  function WithFailure(db: Database, id: Uuid, code: ErrorCode): Database
    requires id in db.documents
  {
    WithDocument(db, id, db.documents[id].(status := FAILED, errorCode := Some(code)))
  }

  // ----- ingestion -----

  datatype Content = TextContent(text: string) | PdfContent(pages: seq<PageText>)

  /** What the outside does to one ingestion: the first commit may fail, fetching the
      stored file may fail, writing the chunks may fail. */
  datatype World = World(starting: Option<Raised>, fetched: Result<Content, Raised>, writing: Option<Raised>)

  datatype Parsed = Parsed(blocks: seq<Block>, pageCount: Option<nat>)

  function Parse(content: Content): Result<Parsed, Raised> {
    match content
    case TextContent(text) => Success(Parsed(BlocksOf(text, Spans(text)), None))
    case PdfContent(pages) =>
      if Unreadable in pages then Failure(DomainError(PARSING_FAILED))
      else Success(Parsed(PageBlocks(VisiblePages(pages)), Some(|pages|)))
  }

  function FetchAndParse(world: World): Result<Parsed, Raised> {
    match world.fetched
    case Failure(e) => Failure(e)
    case Success(content) => Parse(content)
  }

  function RowOf(chunk: Chunk): Row {
    Row(chunk.text, chunk.page, chunk.charStart, chunk.charEnd, None, None)
  }

  /** The rows of one document replaced by its chunks. */
  function Rechunked(rows: map<ChunkId, Row>, id: Uuid, chunks: seq<Chunk>): map<ChunkId, Row> {
    Without(rows, id) + NewRows(id, chunks)
  }

  function Without(rows: map<ChunkId, Row>, id: Uuid): map<ChunkId, Row> {
    map key | key in rows && key.document != id :: rows[key]
  }

  function NewRows(id: Uuid, chunks: seq<Chunk>): (r: map<ChunkId, Row>)
    ensures forall key :: key in r <==> key.document == id && key.ordinal < |chunks|
    ensures forall key | key in r :: r[key] == RowOf(chunks[key.ordinal])
  {
    if |chunks| == 0 then map[]
    else
      var n := |chunks| - 1;
      NewRows(id, chunks[..n])[ChunkIdFor(id, n) := RowOf(chunks[n])]
  }

  function Completed(db: Database, id: Uuid, chunks: seq<Chunk>, pageCount: Option<nat>): Database
    requires id in db.documents
  {
    Database(db.documents[id := Document(COMPLETED, |chunks|, pageCount, None)], Rechunked(db.rows, id, chunks))
  }

  function CodeOf(raised: Raised): ErrorCode {
    match raised
    case DomainError(code) => code
    case OtherException => INGESTION_FAILED
  }

  /** What stops the job while it writes its chunks: bad settings, or the world. */
  function WritingFault(chunkSize: int, overlap: int, world: World): Option<Raised> {
    if MakeSettings(chunkSize, overlap).Failure? then Some(OtherException) else world.writing
  }

  /** The first thing to go wrong, if anything does. */
  function IngestTrouble(chunkSize: int, overlap: int, world: World): Option<Raised> {
    if world.starting.Some? then world.starting
    else
      match FetchAndParse(world)
      case Failure(e) => Some(e)
      case Success(_) => WritingFault(chunkSize, overlap, world)
  }

  /** Every state `run_ingestion` commits, in order. */
  function IngestCommits(db: Database, id: Uuid, chunkSize: int, overlap: int, world: World): seq<Database> {
    if id !in db.documents then []
    else if world.starting.Some? then [WithFailure(db, id, CodeOf(world.starting.value))]
    else
      var parsing := WithStatus(db, id, PARSING);
      match FetchAndParse(world)
      case Failure(e) => [parsing, WithFailure(parsing, id, CodeOf(e))]
      case Success(parsed) =>
        var chunking := WithStatus(parsing, id, CHUNKING);
        var fault := WritingFault(chunkSize, overlap, world);
        if fault.Some? then [parsing, chunking, WithFailure(chunking, id, CodeOf(fault.value))]
        else [parsing, chunking, Completed(chunking, id, Chunks(Settings(chunkSize, overlap), parsed.blocks), parsed.pageCount)]
  }

  lemma {:induction false} OrdinalsCount(c: Settings, blocks: seq<Block>)
    requires c.Valid()
    ensures forall i | 0 <= i < |Chunks(c, blocks)| :: Chunks(c, blocks)[i].ordinal == i
  {
    hide BlockPieces;
    if |blocks| > 0 {
      OrdinalsCount(c, blocks[..|blocks| - 1]);
    }
  }

  method ParseContent(content: Content) returns (r: Result<Parsed, Raised>)
    ensures r == Parse(content)
  {
    match content
    case TextContent(text) =>
      var blocks := ParseText(text);
      r := Success(Parsed(blocks, None));
    case PdfContent(pages) =>
      var blocks := ParsePages(pages);
      r := if blocks.Failure? then Failure(DomainError(PARSING_FAILED))
           else Success(Parsed(blocks.value, Some(|pages|)));
  }

  lemma RechunkNone(rows: map<ChunkId, Row>, id: Uuid)
    ensures Rechunked(rows, id, []) == Without(rows, id)
  {
  }

  lemma RechunkOne(rows: map<ChunkId, Row>, id: Uuid, chunks: seq<Chunk>, i: nat)
    requires i < |chunks|
    ensures ChunkIdFor(id, i) !in Rechunked(rows, id, chunks[..i])
    ensures Rechunked(rows, id, chunks[..i + 1]) == Rechunked(rows, id, chunks[..i])[ChunkIdFor(id, i) := RowOf(chunks[i])]
  {
    hide RowOf, Without;
    assert chunks[..i + 1][..i] == chunks[..i];
    WithoutHasNone(rows, id);
  }

  lemma WithoutHasNone(rows: map<ChunkId, Row>, id: Uuid)
    ensures forall key | key in Without(rows, id) :: key.document != id
  {
  }

  /** Deleting a document's rows, then adding its chunks one by one; the primary key
      is never violated because the old rows are gone. */
  method ReplaceRows(rows: map<ChunkId, Row>, id: Uuid, chunks: seq<Chunk>) returns (r: map<ChunkId, Row>)
    requires forall i | 0 <= i < |chunks| :: chunks[i].ordinal == i
    ensures r == Rechunked(rows, id, chunks)
  {
    hide Rechunked, RowOf;
    r := Without(rows, id);
    RechunkNone(rows, id);
    for i := 0 to |chunks|
      invariant r == Rechunked(rows, id, chunks[..i])
    {
      var key := ChunkIdFor(id, chunks[i].ordinal);
      RechunkOne(rows, id, chunks, i);
      assert key !in r;
      r := r[key := RowOf(chunks[i])];
    }
    assert chunks[..|chunks|] == chunks;
  }

  /** The body of the `try` in `run_ingestion`. */
  method IngestSteps(s: Session<Database>, id: Uuid, chunkSize: int, overlap: int, world: World) returns (raised: Option<Raised>)
    requires s.working == s.committed && id in s.working.documents
    modifies s
    ensures raised == IngestTrouble(chunkSize, overlap, world)
    ensures raised.None? ==> s.working == s.committed
    ensures id in s.committed.documents
    ensures var all := IngestCommits(old(s.committed), id, chunkSize, overlap, world);
            if raised.None? then s.history == old(s.history) + all && s.committed == all[|all| - 1]
            else s.history + [WithFailure(s.committed, id, CodeOf(raised.value))] == old(s.history) + all
  {
    hide Parse, Chunks, Rechunked, MakeSettings;
    if world.starting.Some? {
      return world.starting;
    }
    s.working := WithStatus(s.working, id, PARSING);
    s.Commit();
    if world.fetched.Failure? {
      return Some(world.fetched.error);
    }
    var parsed := ParseContent(world.fetched.value);
    if parsed.Failure? {
      return Some(parsed.error);
    }
    s.working := WithStatus(s.working, id, CHUNKING);
    s.Commit();
    var settings := MakeSettings(chunkSize, overlap);
    if settings.Failure? {
      return Some(OtherException);
    }
    var chunks := ChunkBlocks(settings.value, parsed.value.blocks);
    OrdinalsCount(settings.value, parsed.value.blocks);
    var rows := ReplaceRows(s.working.rows, id, chunks);
    s.working := Database(
      s.working.documents[id := Document(COMPLETED, |chunks|, parsed.value.pageCount, None)], rows);
    if world.writing.Some? {
      return world.writing;
    }
    s.Commit();
    return None;
  }

  /** Rolling back and recording the failure, as both jobs do. */
  method RecordFailure(s: Session<Database>, id: Uuid, code: ErrorCode)
    requires id in s.committed.documents
    modifies s
    ensures s.working == s.committed == WithFailure(old(s.committed), id, code)
    ensures s.history == old(s.history) + [s.committed]
  {
    s.Rollback();
    s.working := WithFailure(s.working, id, code);
    s.Commit();
  }

  /** `run_ingestion`: failures are recorded after a rollback, and only unexpected ones raised. */
  method RunIngestion(s: Session<Database>, id: Uuid, chunkSize: int, overlap: int, world: World) returns (r: JobResult)
    requires s.working == s.committed
    modifies s
    ensures s.working == s.committed
    ensures s.history == old(s.history) + IngestCommits(old(s.committed), id, chunkSize, overlap, world)
    ensures s.committed == if id in old(s.committed).documents then s.history[|s.history| - 1] else old(s.committed)
    ensures r == if id !in old(s.committed).documents then NotFound
                 else if IngestTrouble(chunkSize, overlap, world) == Some(OtherException) then Raises(OtherException)
                 else Finished(0)
  {
    if id !in s.working.documents {
      return NotFound;
    }
    var raised := IngestSteps(s, id, chunkSize, overlap, world);
    if raised.Some? {
      RecordFailure(s, id, CodeOf(raised.value));
      if raised.value.OtherException? {
        return Raises(OtherException);
      }
    }
    return Finished(0);
  }

  // ----- embedding -----

  datatype Reply = Vectors(vectors: seq<Vector>) | Fails(raised: Raised)

  type Embedder = seq<string> -> Reply

  /** No vector, or one from a different model. Comparing with a null model is not
      true in SQL, so a vector without a model is not selected. */
  predicate Pending(row: Row, model: ModelId) {
    row.embedding.None? || (row.embeddingModel.Some? && row.embeddingModel.value != model)
  }

  function Ascending(s: set<nat>): (r: seq<nat>)
    ensures forall x :: x in r <==> x in s
    ensures forall i, j | 0 <= i < j < |r| :: r[i] < r[j]
    decreases |s|
  {
    if s == {} then []
    else
      var m := Largest(s);
      assert |s - {m}| < |s|;
      Ascending(s - {m}) + [m]
  }

  function Largest(s: set<nat>): (m: nat)
    requires s != {}
    ensures m in s && AtMost(s, m)
  {
    LargestExists(s);
    var m :| m in s && AtMost(s, m);
    m
  }

  predicate AtMost(s: set<nat>, m: nat) {
    forall x | x in s :: x <= m
  }

  lemma {:induction false} LargestExists(s: set<nat>)
    requires s != {}
    ensures exists m :: m in s && AtMost(s, m)
    decreases |s|
  {
    var y :| y in s;
    if s == {y} {
      assert AtMost(s, y);
    } else {
      var rest := s - {y};
      assert |rest| < |s| && rest != {};
      LargestExists(rest);
      var m :| m in rest && AtMost(rest, m);
      assert AtMost(s, if m < y then y else m) by {
        assert forall x | x in s :: x == y || x in rest;
      }
    }
  }

  /** `_pending_chunks`: the ordinals to embed, in order. */
  function PendingOrdinals(rows: map<ChunkId, Row>, id: Uuid, model: ModelId): seq<nat> {
    Ascending(set key | key in rows && key.document == id && Pending(rows[key], model) :: key.ordinal)
  }

  function Texts(rows: map<ChunkId, Row>, id: Uuid, ordinals: seq<nat>): seq<string>
    requires forall o | o in ordinals :: ChunkIdFor(id, o) in rows
  {
    seq(|ordinals|, i requires 0 <= i < |ordinals| => assert ordinals[i] in ordinals; rows[ChunkIdFor(id, ordinals[i])].text)
  }

  lemma PendingAreRows(rows: map<ChunkId, Row>, id: Uuid, model: ModelId)
    ensures forall o | o in PendingOrdinals(rows, id, model) ::
      ChunkIdFor(id, o) in rows && Pending(rows[ChunkIdFor(id, o)], model)
    ensures forall o | ChunkIdFor(id, o) in rows && Pending(rows[ChunkIdFor(id, o)], model) ::
      o in PendingOrdinals(rows, id, model)
    ensures forall o: nat ::
      o in PendingOrdinals(rows, id, model)
      <==> ChunkIdFor(id, o) in rows
           && var row := rows[ChunkIdFor(id, o)]; row.embedding == None || (row.embeddingModel.Some? && row.embeddingModel != Some(model))
  {
    hide Ascending;
    var s := set key | key in rows && key.document == id && Pending(rows[key], model) :: key.ordinal;
    forall o: nat
      ensures o in s <==> ChunkIdFor(id, o) in rows && Pending(rows[ChunkIdFor(id, o)], model)
    {
      if o in s {
        var key :| key in rows && key.document == id && Pending(rows[key], model) && key.ordinal == o;
        assert key == ChunkIdFor(id, o);
      }
    }
  }

  /** The rows once the chosen chunks carry these vectors. */
  function Attached(rows: map<ChunkId, Row>, id: Uuid, model: ModelId, ordinals: seq<nat>, vectors: seq<Vector>): (r: map<ChunkId, Row>)
    requires |ordinals| == |vectors|
    requires forall o | o in ordinals :: ChunkIdFor(id, o) in rows
    ensures r.Keys == rows.Keys
    ensures forall key | key in rows && (key.document != id || key.ordinal !in ordinals) :: r[key] == rows[key]
  {
    if |ordinals| == 0 then rows
    else
      var n := |ordinals| - 1;
      assert forall o | o in ordinals[..n] :: o in ordinals;
      assert ordinals[n] in ordinals;
      var before := Attached(rows, id, model, ordinals[..n], vectors[..n]);
      var key := ChunkIdFor(id, ordinals[n]);
      before[key := before[key].(embedding := Some(vectors[n]), embeddingModel := Some(model))]
  }

  function Embedded(db: Database, id: Uuid, model: ModelId, ordinals: seq<nat>, vectors: seq<Vector>): Database
    requires id in db.documents && |ordinals| == |vectors|
    requires forall o | o in ordinals :: ChunkIdFor(id, o) in db.rows
  {
    Database(db.documents[id := db.documents[id].(errorCode := None)], Attached(db.rows, id, model, ordinals, vectors))
  }

  /** What `embed_document` commits once it has a pipeline. */
  function EmbedCommits(db: Database, id: Uuid, model: ModelId, embedder: Embedder): seq<Database> {
    if id !in db.documents then []
    else
      var ordinals := PendingOrdinals(db.rows, id, model);
      PendingAreRows(db.rows, id, model);
      if |ordinals| == 0 then []
      else
        match embedder(Texts(db.rows, id, ordinals))
        case Fails(DomainError(code)) => [WithFailure(db, id, code)]
        case Fails(OtherException) => []
        case Vectors(vectors) =>
          if |vectors| != |ordinals| then [WithFailure(db, id, EMBEDDING_FAILED)]
          else [Embedded(db, id, model, ordinals, vectors)]
  }

  /** Every state `embed_document` commits; `setup` is what building the pipeline
      raised, before anything was selected. */
  function EmbedJobCommits(db: Database, id: Uuid, setup: Option<Raised>, model: ModelId, embedder: Embedder): seq<Database> {
    if id !in db.documents || setup == Some(OtherException) then []
    else if setup.Some? then [WithFailure(db, id, setup.value.code)]
    else EmbedCommits(db, id, model, embedder)
  }

  /** What `embed_document` returns or raises: how many it wrote, or what went wrong. */
  function EmbedResult(db: Database, id: Uuid, setup: Option<Raised>, model: ModelId, embedder: Embedder): JobResult {
    if id !in db.documents then NotFound
    else if setup.Some? then Raises(setup.value)
    else
      var ordinals := PendingOrdinals(db.rows, id, model);
      PendingAreRows(db.rows, id, model);
      if |ordinals| == 0 then Finished(0)
      else
        match embedder(Texts(db.rows, id, ordinals))
        case Fails(raised) => Raises(raised)
        case Vectors(vectors) =>
          if |vectors| != |ordinals| then Raises(DomainError(EMBEDDING_FAILED)) else Finished(|ordinals|)
  }

  method AttachVectors(rows: map<ChunkId, Row>, id: Uuid, model: ModelId, ordinals: seq<nat>, vectors: seq<Vector>)
    returns (r: map<ChunkId, Row>)
    requires |ordinals| == |vectors|
    requires forall o | o in ordinals :: ChunkIdFor(id, o) in rows
    ensures r == Attached(rows, id, model, ordinals, vectors)
  {
    r := rows;
    for i := 0 to |ordinals|
      invariant forall o | o in ordinals[..i] :: ChunkIdFor(id, o) in rows
      invariant r == Attached(rows, id, model, ordinals[..i], vectors[..i])
    {
      assert ordinals[..i + 1][..i] == ordinals[..i] && vectors[..i + 1][..i] == vectors[..i];
      assert ordinals[i] in ordinals;
      var key := ChunkIdFor(id, ordinals[i]);
      r := r[key := r[key].(embedding := Some(vectors[i]), embeddingModel := Some(model))];
    }
    assert ordinals[..|ordinals|] == ordinals && vectors[..|ordinals|] == vectors;
  }

  /** `embed_document`. A `DomainError` is recorded and raised again; any other
      exception leaves nothing behind. */
  method EmbedDocument(s: Session<Database>, id: Uuid, setup: Option<Raised>, model: ModelId, embedder: Embedder) returns (r: JobResult)
    requires s.working == s.committed
    modifies s
    ensures s.working == s.committed
    ensures s.history == old(s.history) + EmbedJobCommits(old(s.committed), id, setup, model, embedder)
    ensures s.committed == if s.history == old(s.history) then old(s.committed) else s.history[|s.history| - 1]
    ensures r == EmbedResult(old(s.committed), id, setup, model, embedder)
  {
    hide PendingOrdinals, Attached, Texts;
    if id !in s.working.documents {
      return NotFound;
    }
    if setup.Some? {
      if setup.value.DomainError? {
        RecordFailure(s, id, setup.value.code);
      }
      return Raises(setup.value);
    }
    var ordinals := PendingOrdinals(s.working.rows, id, model);
    PendingAreRows(s.working.rows, id, model);
    if |ordinals| == 0 {
      return Finished(0);
    }
    var reply := embedder(Texts(s.working.rows, id, ordinals));
    if reply.Fails? && reply.raised.OtherException? {
      return Raises(OtherException);
    }
    if reply.Fails? || |reply.vectors| != |ordinals| {
      var code := if reply.Fails? then reply.raised.code else EMBEDDING_FAILED;
      RecordFailure(s, id, code);
      return Raises(DomainError(code));
    }
    var rows := AttachVectors(s.working.rows, id, model, ordinals, reply.vectors);
    s.working := Database(s.working.documents[id := s.working.documents[id].(errorCode := None)], rows);
    s.Commit();
    return Finished(|ordinals|);
  }
}
