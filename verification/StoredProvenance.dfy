/**
 The two halves of the pipeline joined: in every database a run of jobs can leave
 behind, every stored chunk still is the slice of its document that it names.
 */
module StoredProvenance {
  import opened Identifiers
  import opened Text
  import opened Parsing
  import opened Chunking
  import opened Provenance
  import opened Jobs
  import opened JobLaws

  /** What object storage holds for each document; uploads never overwrite it. */
  type Storage = Uuid -> Content

  ghost predicate SliceOf(row: Row, source: string) {
    row.charStart < row.charEnd <= |source| && source[row.charStart..row.charEnd] == row.text
  }

  ghost predicate Quotes(row: Row, content: Content) {
    match content
    case TextContent(text) => SliceOf(row, text)
    case PdfContent(pages) => forall sep | IsSpace(sep) :: SliceOf(row, Joined(VisiblePages(pages), sep))
  }

  ghost predicate Grounded(storage: Storage, db: Database) {
    forall key | key in db.rows :: Quotes(db.rows[key], storage(key.document))
  }

  /** An ingestion that fetches a document's file fetches what was stored. */
  ghost predicate FetchesStored(storage: Storage, e: Event) {
    e.Ingest? && e.world.fetched.Success? ==> e.world.fetched.value == storage(e.id)
  }

  lemma ChunkIsSlice(chunks: seq<Chunk>, source: string, limit: int, o: nat)
    requires Provenant(chunks, source, |source|, limit) && o < |chunks|
    ensures SliceOf(RowOf(chunks[o]), source)
  {
    assert ChunkCites(chunks[o], source, limit);
  }

  /** Every chunk of a parsed file quotes it. */
  lemma ChunksQuote(c: Settings, content: Content, o: nat)
    requires c.Valid() && Parse(content).Success? && o < |Chunks(c, Parse(content).value.blocks)|
    ensures Quotes(RowOf(Chunks(c, Parse(content).value.blocks)[o]), content)
  {
    hide Provenant, Chunks, IsSpace, SliceOf, Locates, RowOf;
    match content
    case TextContent(text) =>
      TextChunksProvenant(c, text);
      ChunkIsSlice(Chunks(c, BlocksOf(text, Spans(text))), text, c.chunkSize, o);
    case PdfContent(pages) =>
      var visible := VisiblePages(pages);
      VisiblePagesAreVisible(pages);
      forall sep | IsSpace(sep)
        ensures SliceOf(RowOf(Chunks(c, PageBlocks(visible))[o]), Joined(visible, sep))
      {
        PageChunksProvenant(c, visible, sep);
        ChunkIsSlice(Chunks(c, PageBlocks(visible)), Joined(visible, sep), c.chunkSize, o);
      }
  }

  lemma PageChunksProvenant(c: Settings, pages: seq<VisiblePage>, sep: char)
    requires c.Valid() && AllVisible(pages) && IsSpace(sep)
    ensures var source := Joined(pages, sep); Provenant(Chunks(c, PageBlocks(pages)), source, |source|, c.chunkSize)
  {
    hide Provenant, LocatesUpTo, Chunks, IsSpace;
    PageBlocksLocate(pages, sep);
    ChunksProvenant(c, PageBlocks(pages), Joined(pages, sep), |Joined(pages, sep)|);
  }

  lemma IngestGrounded(storage: Storage, db: Database, id: Uuid, chunkSize: int, overlap: int, world: World, i: nat)
    requires Grounded(storage, db) && i < |IngestCommits(db, id, chunkSize, overlap, world)|
    requires world.fetched.Success? ==> world.fetched.value == storage(id)
    ensures Grounded(storage, IngestCommits(db, id, chunkSize, overlap, world)[i])
  {
    hide Quotes, Parse, Chunks, NewRows, RowOf, MakeSettings;
    var after := IngestCommits(db, id, chunkSize, overlap, world)[i];
    if after.rows != db.rows {
      var c := Settings(chunkSize, overlap);
      var chunks := Chunks(c, Parse(storage(id)).value.blocks);
      assert after.rows == Rechunked(db.rows, id, chunks);
      forall key | key in after.rows
        ensures Quotes(after.rows[key], storage(key.document))
      {
        if key in NewRows(id, chunks) {
          ChunksQuote(c, storage(id), key.ordinal);
        }
      }
    }
  }

  lemma EmbedGrounded(storage: Storage, db: Database, id: Uuid, model: ModelId, embedder: Embedder, i: nat)
    requires Grounded(storage, db) && i < |EmbedCommits(db, id, model, embedder)|
    ensures Grounded(storage, EmbedCommits(db, id, model, embedder)[i])
  {
    hide PendingOrdinals, Attached, Texts, Quotes;
    var ordinals := PendingOrdinals(db.rows, id, model);
    PendingAreRows(db.rows, id, model);
    var reply := embedder(Texts(db.rows, id, ordinals));
    if reply.Vectors? && |reply.vectors| == |ordinals| {
      var after := Attached(db.rows, id, model, ordinals, reply.vectors);
      forall key | key in after
        ensures Quotes(after[key], storage(key.document))
      {
        AttachedKeepsText(db.rows, id, model, ordinals, reply.vectors, key);
        QuotesByText(db.rows[key], after[key], storage(key.document));
      }
    }
  }

  lemma {:induction false} AttachedKeepsText(rows: map<ChunkId, Row>, id: Uuid, model: ModelId, ordinals: seq<nat>, vectors: seq<Vector>, key: ChunkId)
    requires |ordinals| == |vectors| && key in rows
    requires forall o | o in ordinals :: ChunkIdFor(id, o) in rows
    ensures var after := Attached(rows, id, model, ordinals, vectors);
            key in after && after[key].text == rows[key].text
            && after[key].charStart == rows[key].charStart && after[key].charEnd == rows[key].charEnd
  {
    if |ordinals| > 0 {
      var n := |ordinals| - 1;
      assert forall o | o in ordinals[..n] :: o in ordinals;
      AttachedKeepsText(rows, id, model, ordinals[..n], vectors[..n], key);
    }
  }

  lemma QuotesByText(a: Row, b: Row, content: Content)
    requires Quotes(a, content) && a.text == b.text && a.charStart == b.charStart && a.charEnd == b.charEnd
    ensures Quotes(b, content)
  {
  }

  /** Citations resolve in every state reachable by uploads, jobs, failures, crashes
      and retries, whatever chunk settings each job ran with. */
  lemma {:induction false} EveryRunGrounded(storage: Storage, events: seq<Event>)
    requires forall e | e in events :: FetchesStored(storage, e)
    ensures Grounded(storage, Run(Database(map[], map[]), events))
  {
    hide Grounded, IngestCommits, EmbedCommits;
    if |events| == 0 {
      NothingStored(storage);
    } else {
      var front, last := events[..|events| - 1], events[|events| - 1];
      EveryRunGrounded(storage, front);
      var db := Run(Database(map[], map[]), front);
      var n := if last.Upload? then 1 else last.commits;
      var commits := Commits(db, last);
      assert last in events;
      if n > 0 && |commits| > 0 {
        var i := if n <= |commits| then n - 1 else |commits| - 1;
        match last
        case Upload(id) => SameRowsGrounded(storage, db, commits[i]);
        case Ingest(id, chunkSize, overlap, world, _) => IngestGrounded(storage, db, id, chunkSize, overlap, world, i);
        case Embed(id, setup, model, embedder, _) =>
          if setup.Some? {
            SameRowsGrounded(storage, db, commits[i]);
          } else {
            EmbedGrounded(storage, db, id, model, embedder, i);
          }
      }
    }
  }

  lemma NothingStored(storage: Storage)
    ensures Grounded(storage, Database(map[], map[]))
  {
  }

  lemma SameRowsGrounded(storage: Storage, a: Database, b: Database)
    requires Grounded(storage, a) && a.rows == b.rows
    ensures Grounded(storage, b)
  {
  }
}
