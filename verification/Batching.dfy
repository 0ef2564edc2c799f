/**
 From a provider's responses to the vectors a job attaches:
 `BatchedEmbeddingPipeline.embed_texts`, backend/core/embeddings/pipeline.py, over
 `MistralEmbeddingModel.embed`, backend/models/providers/mistral.py.
 */
module Batching {
  import opened Wrappers
  import opened Identifiers
  import opened Sorting
  import opened Jobs
  import opened JobLaws

  /** What `int` makes of an entry's index: a number, one of the errors the adapter
      catches (a missing index too), or, for an infinite number, one it does not. */
  datatype RawIndex = Index(i: int) | NotANumber | Infinite

  /** What `float` makes of an entry's embedding: likewise, a number too large overflows. */
  datatype RawVector = Floats(vector: Vector) | NotFloats | TooLarge

  /** One entry of a response. */
  datatype Item = Item(index: RawIndex, embedding: RawVector)

  datatype Response = Items(items: seq<Item>) | TransportError(raised: Raised)

  /** The provider: how it answers a list of inputs, and what it accepts. */
  datatype Provider = Provider(respond: seq<string> -> Response, dimensions: nat, maxBatch: nat)

  const CONTEXT_EXCEEDED := OtherCode("MODEL_CONTEXT_EXCEEDED")

  predicate IndexNoLater(a: Item, b: Item) {
    (if a.index.Index? then a.index.i else 0) <= (if b.index.Index? then b.index.i else 0)
  }

  predicate Numbered(item: Item) {
    item.index.Index?
  }

  /** Computing the sort keys, in the order of the response; the first failure is raised. */
  function ReadIndices(items: seq<Item>): (r: Option<Raised>)
    ensures r.None? <==> forall item | item in items :: Numbered(item)
  {
    if |items| == 0 then None
    else if Numbered(items[0]) then ReadIndices(items[1..])
    else Some(if items[0].index == Infinite then OtherException else DomainError(EMBEDDING_FAILED))
  }

  /** Reading the embeddings, in the order of the indices. */
  function ReadVectors(items: seq<Item>): (r: Result<seq<Vector>, Raised>)
    ensures r.Success? <==> forall item | item in items :: item.embedding.Floats?
    ensures r.Success? ==> |r.value| == |items| && forall i | 0 <= i < |items| :: items[i].embedding == Floats(r.value[i])
  {
    if |items| == 0 then Success([])
    else
      match items[0].embedding
      case NotFloats => Failure(DomainError(EMBEDDING_FAILED))
      case TooLarge => Failure(OtherException)
      case Floats(v) =>
        match ReadVectors(items[1..])
        case Failure(e) => Failure(e)
        case Success(rest) => Success([v] + rest)
  }

  /** `_parse_embeddings`: order by index, then check how many and how wide. */
  function ParseEmbeddings(items: seq<Item>, expected: nat, dimensions: nat): Result<seq<Vector>, Raised> {
    match ReadIndices(items)
    case Some(e) => Failure(e)
    case None =>
      match ReadVectors(SortBy(items, IndexNoLater))
      case Failure(e) => Failure(e)
      case Success(vectors) =>
        if |vectors| != expected || exists v | v in vectors :: |v| != dimensions then Failure(DomainError(EMBEDDING_FAILED))
        else Success(vectors)
  }

  /** `MistralEmbeddingModel.embed`. */
  function EmbedBatch(p: Provider, texts: seq<string>): Result<seq<Vector>, Raised> {
    if |texts| == 0 then Success([])
    else if |texts| > p.maxBatch then Failure(DomainError(CONTEXT_EXCEEDED))
    else
      match p.respond(texts)
      case TransportError(raised) => Failure(raised)
      case Items(items) => ParseEmbeddings(items, |texts|, p.dimensions)
  }

  /** The texts cut into batches of at most `size`. */
  function Batches(texts: seq<string>, size: nat): seq<seq<string>>
    requires size > 0
    decreases |texts|
  {
    if |texts| == 0 then []
    else if |texts| <= size then [texts]
    else [texts[..size]] + Batches(texts[size..], size)
  }

  function EmbedBatches(p: Provider, batches: seq<seq<string>>): Result<seq<Vector>, Raised> {
    if |batches| == 0 then Success([])
    else
      match EmbedBatches(p, batches[..|batches| - 1])
      case Failure(e) => Failure(e)
      case Success(before) =>
        match EmbedBatch(p, batches[|batches| - 1])
        case Failure(e) => Failure(e)
        case Success(vectors) => Success(before + vectors)
  }

  /** The constructor: it refuses a size that is not positive, and never exceeds what
      the provider accepts, whatever is configured. */
  function MakePipeline(p: Provider, batchSize: int): (size: Result<nat, string>)
    ensures size.Success? <==> batchSize > 0
    ensures size.Success? ==> size.value <= batchSize && size.value <= p.maxBatch
    ensures size.Success? ==> size.value == batchSize || size.value == p.maxBatch
  {
    if batchSize <= 0 then Failure("batch_size must be positive")
    else Success(if batchSize < p.maxBatch then batchSize else p.maxBatch)
  }

  lemma {:induction false} BatchesFrom(texts: seq<string>, size: nat, start: nat)
    requires size > 0 && start < |texts|
    ensures Batches(texts[start..], size)
         == [texts[start..if start + size < |texts| then start + size else |texts|]]
            + if start + size < |texts| then Batches(texts[start + size..], size) else []
  {
    var rest := texts[start..];
    if start + size < |texts| {
      assert rest[..size] == texts[start..start + size] && rest[size..] == texts[start + size..];
    } else {
      assert rest == texts[start..|texts|];
      assert [rest] + [] == [rest];
    }
  }

  /** `embed_texts`. */
  method EmbedTexts(p: Provider, size: nat, texts: seq<string>) returns (r: Result<seq<Vector>, Raised>)
    requires size > 0
    ensures r == EmbedBatches(p, Batches(texts, size))
  {
    hide EmbedBatch, Batches;
    var vectors: seq<Vector> := [];
    var start := 0;
    ghost var done: seq<seq<string>> := [];
    ghost var all := Batches(texts, size);
    assert texts[0..] == texts;
    NoBatches(size);
    while start < |texts|
      invariant 0 <= start
      invariant if start < |texts| then all == done + Batches(texts[start..], size) else all == done
      invariant EmbedBatches(p, done) == Success(vectors)
    {
      var batch := texts[start..if start + size < |texts| then start + size else |texts|];
      var answer := EmbedBatch(p, batch);
      BatchesFrom(texts, size, start);
      ghost var rest := if start + size < |texts| then Batches(texts[start + size..], size) else [];
      assert done + ([batch] + rest) == (done + [batch]) + rest;
      assert (done + [batch])[..|done|] == done;
      if answer.Failure? {
        FailureStays(p, done + [batch], rest, answer.error);
        return answer;
      }
      vectors := vectors + answer.value;
      done := done + [batch];
      start := start + size;
    }
    return Success(vectors);
  }

  lemma NoBatches(size: nat)
    requires size > 0
    ensures Batches([], size) == []
  {
  }

  lemma {:induction false} FailureStays(p: Provider, before: seq<seq<string>>, after: seq<seq<string>>, e: Raised)
    requires EmbedBatches(p, before) == Failure(e)
    ensures EmbedBatches(p, before + after) == Failure(e)
  {
    if |after| == 0 {
      assert before + after == before;
    } else {
      assert (before + after)[..|before + after| - 1] == before + after[..|after| - 1];
      FailureStays(p, before, after[..|after| - 1], e);
    }
  }

  // ----- alignment -----

  /** The response carries every index of the batch once, in whatever order. */
  ghost predicate CarriesEach(items: seq<Item>, wanted: seq<Vector>) {
    multiset(items) == multiset(Indexed(wanted))
  }

  function Indexed(vectors: seq<Vector>): (r: seq<Item>)
    ensures |r| == |vectors| && forall i | 0 <= i < |r| :: r[i] == Item(Index(i), Floats(vectors[i]))
  {
    seq(|vectors|, i requires 0 <= i < |vectors| => Item(Index(i), Floats(vectors[i])))
  }

  /** Sorting by index puts each vector back at its input's place. */
  lemma RealignsByIndex(items: seq<Item>, wanted: seq<Vector>, dimensions: nat)
    requires CarriesEach(items, wanted) && forall v | v in wanted :: |v| == dimensions
    ensures ParseEmbeddings(items, |wanted|, dimensions) == Success(wanted)
  {
    hide SortBy, ReadIndices, ReadVectors;
    var indexed := Indexed(wanted);
    assert forall item :: item in items <==> item in multiset(items);
    assert forall item | item in multiset(indexed) :: item in indexed;
    SortByIs(items, indexed, IndexNoLater);
    assert ReadVectors(indexed).value == wanted;
  }

  /** Some entry answers the input at `i`. */
  ghost predicate HasIndex(items: seq<Item>, i: int) {
    exists item | item in items :: item.index == Index(i)
  }

  /** Entry by entry, the vector returned at `i` is the one sent for input `i`. */
  ghost predicate Aligned(sorted: seq<Item>) {
    forall i | 0 <= i < |sorted| :: sorted[i].index == Index(i)
  }

  /** As many entries as inputs, one for each input, leave no room for any other. */
  lemma {:induction false} OneEach(sorted: seq<Item>)
    requires (forall item | item in sorted :: Numbered(item)) && Sorted(sorted, IndexNoLater)
    requires forall i | 0 <= i < |sorted| :: HasIndex(sorted, i)
    ensures Aligned(sorted)
  {
    if |sorted| > 0 {
      var n := |sorted| - 1;
      var front := sorted[..n];
      assert HasIndex(sorted, n);
      assert Numbered(sorted[n]);
      assert sorted[n].index.i >= n;
      forall i | 0 <= i < n
        ensures HasIndex(front, i)
      {
        assert HasIndex(sorted, i);
        var item :| item in sorted && item.index == Index(i);
        var j :| 0 <= j < |sorted| && sorted[j] == item;
        assert front[j] == item;
      }
      OneEach(front);
      var item :| item in sorted && item.index == Index(n);
      var j :| 0 <= j < |sorted| && sorted[j] == item;
      assert j < n ==> front[j] == item;
    }
  }

  /** An accepted response is aligned if and only if every input has an entry; the
      checks on count and width cannot tell. */
  lemma AlignedIffEachIndexOnce(items: seq<Item>, expected: nat, dimensions: nat)
    requires ParseEmbeddings(items, expected, dimensions).Success?
    ensures Aligned(SortBy(items, IndexNoLater)) <==> forall i | 0 <= i < expected :: HasIndex(items, i)
  {
    hide SortBy, ReadIndices, ReadVectors;
    var sorted := SortBy(items, IndexNoLater);
    SortByContents(items, IndexNoLater);
    SortBySorted(items, IndexNoLater);
    assert forall item :: item in items <==> item in multiset(items);
    assert forall item :: item in sorted <==> item in multiset(sorted);
    assert |sorted| == expected;
    if forall i | 0 <= i < expected :: HasIndex(items, i) {
      forall i | 0 <= i < expected
        ensures HasIndex(sorted, i)
      {
        assert HasIndex(items, i);
      }
      OneEach(sorted);
    }
    if Aligned(sorted) {
      forall i | 0 <= i < expected
        ensures HasIndex(items, i)
      {
        assert sorted[i] in sorted;
      }
    }
  }

  /** Two answers for the same input pass every check. */
  lemma RepeatedIndexIsAccepted(v: Vector, w: Vector)
    requires |v| == |w|
    ensures ParseEmbeddings([Item(Index(1), Floats(v)), Item(Index(1), Floats(w))], 2, |v|) == Success([v, w])
  {
    hide SortBy, ReadVectors;
    var items := [Item(Index(1), Floats(v)), Item(Index(1), Floats(w))];
    SortPair(items[0], items[1]);
    assert ReadVectors(items).value == [v, w];
  }

  /** The response makes the adapter raise what it does not catch: an infinite index
      before any that is no number, or with sound indices a number too large in the
      first embedding that cannot be read. */
  ghost predicate Overflows(items: seq<Item>) {
    if forall item | item in items :: Numbered(item) then FirstUnreadableIsTooLarge(SortBy(items, IndexNoLater))
    else exists i | 0 <= i < |items| :: items[i].index == Infinite && forall j | 0 <= j < i :: Numbered(items[j])
  }

  ghost predicate FirstUnreadableIsTooLarge(items: seq<Item>) {
    exists i | 0 <= i < |items| :: items[i].embedding == TooLarge && forall j | 0 <= j < i :: items[j].embedding.Floats?
  }

  lemma {:induction false} ReadIndicesEscapesIff(items: seq<Item>)
    ensures ReadIndices(items) == Some(OtherException)
       <==> exists i | 0 <= i < |items| :: items[i].index == Infinite && forall j | 0 <= j < i :: Numbered(items[j])
  {
    if |items| > 0 && Numbered(items[0]) {
      var rest := items[1..];
      ReadIndicesEscapesIff(rest);
      if i :| 0 <= i < |rest| && rest[i].index == Infinite && forall j | 0 <= j < i :: Numbered(rest[j]) {
        assert items[i + 1].index == Infinite && forall j | 0 <= j < i + 1 :: j == 0 || items[j] == rest[j - 1];
      }
      if i :| 0 <= i < |items| && items[i].index == Infinite && forall j | 0 <= j < i :: Numbered(items[j]) {
        assert rest[i - 1].index == Infinite && forall j | 0 <= j < i - 1 :: rest[j] == items[j + 1];
      }
    }
  }

  lemma {:induction false} ReadVectorsEscapesIff(items: seq<Item>)
    ensures ReadVectors(items) == Failure(OtherException) <==> FirstUnreadableIsTooLarge(items)
  {
    if |items| > 0 && items[0].embedding.Floats? {
      var rest := items[1..];
      ReadVectorsEscapesIff(rest);
      if i :| 0 <= i < |rest| && rest[i].embedding == TooLarge && forall j | 0 <= j < i :: rest[j].embedding.Floats? {
        assert items[i + 1].embedding == TooLarge && forall j | 0 <= j < i + 1 :: j == 0 || items[j] == rest[j - 1];
      }
      if i :| 0 <= i < |items| && items[i].embedding == TooLarge && forall j | 0 <= j < i :: items[j].embedding.Floats? {
        assert rest[i - 1].embedding == TooLarge && forall j | 0 <= j < i - 1 :: rest[j] == items[j + 1];
      }
    }
  }

  /** What the adapter raises is a `DomainError` unless the response overflows. */
  lemma ResponseEscapesIff(items: seq<Item>, expected: nat, dimensions: nat)
    ensures ParseEmbeddings(items, expected, dimensions) == Failure(OtherException) <==> Overflows(items)
  {
    hide SortBy, ReadIndices, ReadVectors, FirstUnreadableIsTooLarge;
    ReadIndicesEscapesIff(items);
    ReadVectorsEscapesIff(SortBy(items, IndexNoLater));
  }

  /** A response is accepted if and only if it has as many entries as there were inputs,
      each with a number for its index and an embedding of the provider's dimension;
      what comes out of it has that dimension too, and any other refusal than an
      overflow is the same `DomainError`. */
  lemma AcceptedIff(items: seq<Item>, expected: nat, dimensions: nat)
    ensures ParseEmbeddings(items, expected, dimensions).Success?
       <==> |items| == expected
            && forall item | item in items :: item.index.Index? && item.embedding.Floats? && |item.embedding.vector| == dimensions
    ensures ParseEmbeddings(items, expected, dimensions).Success? ==>
      var vectors := ParseEmbeddings(items, expected, dimensions).value;
      && |vectors| == expected && (forall v | v in vectors :: |v| == dimensions)
      && forall v | v in vectors :: exists item | item in items :: item.embedding == Floats(v)
    ensures ParseEmbeddings(items, expected, dimensions).Failure? && !Overflows(items) ==>
      ParseEmbeddings(items, expected, dimensions) == Failure(DomainError(EMBEDDING_FAILED))
  {
    hide SortBy, Overflows;
    ResponseEscapesIff(items, expected, dimensions);
    CaughtIsEmbeddingFailed(items, expected, dimensions);
    var sorted := SortBy(items, IndexNoLater);
    SortByContents(items, IndexNoLater);
    assert forall item :: item in items <==> item in multiset(items);
    assert forall item :: item in sorted <==> item in multiset(sorted);
    assert |multiset(items)| == |multiset(sorted)|;
    AcceptedVectors(sorted, dimensions);
  }

  lemma AcceptedVectors(sorted: seq<Item>, dimensions: nat)
    ensures ReadVectors(sorted).Success? ==>
      var vectors := ReadVectors(sorted).value;
      && ((forall v | v in vectors :: |v| == dimensions) <==> forall item | item in sorted :: |item.embedding.vector| == dimensions)
      && forall v | v in vectors :: exists item | item in sorted :: item.embedding == Floats(v)
  {
    hide ReadVectors;
    if ReadVectors(sorted).Success? {
      var vectors := ReadVectors(sorted).value;
      forall v | v in vectors
        ensures exists item | item in sorted :: item.embedding == Floats(v)
      {
        var i :| 0 <= i < |vectors| && vectors[i] == v;
        assert sorted[i] in sorted;
      }
      forall item | item in sorted
        ensures item.embedding.Floats? && item.embedding.vector in vectors
      {
        var i :| 0 <= i < |sorted| && sorted[i] == item;
        assert vectors[i] in vectors;
      }
    }
  }

  lemma CaughtIsEmbeddingFailed(items: seq<Item>, expected: nat, dimensions: nat)
    ensures ParseEmbeddings(items, expected, dimensions).Failure? ==>
      ParseEmbeddings(items, expected, dimensions).error in {OtherException, DomainError(EMBEDDING_FAILED)}
  {
    hide SortBy;
    CaughtIndex(items);
    CaughtVector(SortBy(items, IndexNoLater));
  }

  lemma {:induction false} CaughtIndex(items: seq<Item>)
    ensures ReadIndices(items).Some? ==> ReadIndices(items).value in {OtherException, DomainError(EMBEDDING_FAILED)}
  {
    if |items| > 0 && Numbered(items[0]) {
      CaughtIndex(items[1..]);
    }
  }

  lemma {:induction false} CaughtVector(items: seq<Item>)
    ensures ReadVectors(items).Failure? ==> ReadVectors(items).error in {OtherException, DomainError(EMBEDDING_FAILED)}
  {
    if |items| > 0 && items[0].embedding.Floats? {
      CaughtVector(items[1..]);
    }
  }

  /** One call: nothing is sent for no text, too many texts are refused unsent, and
      vectors that come back are as many as the texts and as wide as the provider says. */
  lemma OneCall(p: Provider, texts: seq<string>)
    ensures |texts| == 0 ==> EmbedBatch(p, texts) == Success([])
    ensures |texts| > 0 && |texts| > p.maxBatch ==> EmbedBatch(p, texts) == Failure(DomainError(OtherCode("MODEL_CONTEXT_EXCEEDED")))
    ensures 0 < |texts| <= p.maxBatch && p.respond(texts).TransportError? ==> EmbedBatch(p, texts) == Failure(p.respond(texts).raised)
    ensures EmbedBatch(p, texts).Success? ==>
      |EmbedBatch(p, texts).value| == |texts| && forall v | v in EmbedBatch(p, texts).value :: |v| == p.dimensions
  {
    hide ParseEmbeddings;
    if 0 < |texts| <= p.maxBatch && p.respond(texts).Items? {
      AcceptedIff(p.respond(texts).items, |texts|, p.dimensions);
    }
  }

  /** However the texts are cut and whatever the provider answers, what is returned is
      one vector for each text, every one of the provider's dimension. */
  lemma OneVectorEach(p: Provider, size: nat, texts: seq<string>)
    requires size > 0
    ensures var r := EmbedBatches(p, Batches(texts, size));
            r.Success? ==> |r.value| == |texts| && forall v | v in r.value :: |v| == p.dimensions
  {
    CutTexts(texts, size);
    VectorsOfBatches(p, Batches(texts, size));
  }

  function TextCount(batches: seq<seq<string>>): nat {
    if |batches| == 0 then 0 else TextCount(batches[..|batches| - 1]) + |batches[|batches| - 1]|
  }

  lemma {:induction false} TextCountFrom(first: seq<string>, rest: seq<seq<string>>)
    ensures TextCount([first] + rest) == |first| + TextCount(rest)
  {
    if |rest| == 0 {
      assert [first] + rest == [first] && [first][..0] == [];
    } else {
      var n := |rest| - 1;
      TextCountFrom(first, rest[..n]);
      assert ([first] + rest)[..|rest|] == [first] + rest[..n];
    }
  }

  lemma {:induction false} CutTexts(texts: seq<string>, size: nat)
    requires size > 0
    ensures TextCount(Batches(texts, size)) == |texts|
    decreases |texts|
  {
    if |texts| > size {
      CutTexts(texts[size..], size);
      TextCountFrom(texts[..size], Batches(texts[size..], size));
    } else if |texts| > 0 {
      assert [texts][..0] == [];
    }
  }

  lemma {:induction false} VectorsOfBatches(p: Provider, batches: seq<seq<string>>)
    ensures var r := EmbedBatches(p, batches);
            r.Success? ==> |r.value| == TextCount(batches) && forall v | v in r.value :: |v| == p.dimensions
  {
    hide EmbedBatch;
    if |batches| > 0 {
      VectorsOfBatches(p, batches[..|batches| - 1]);
      OneCall(p, batches[|batches| - 1]);
    }
  }

  lemma FirstBatchFails(p: Provider, size: nat, texts: seq<string>, e: Raised)
    requires size > 0 && |texts| > 0
    requires EmbedBatch(p, if |texts| <= size then texts else texts[..size]) == Failure(e)
    ensures EmbedBatches(p, Batches(texts, size)) == Failure(e)
  {
    hide EmbedBatch;
    var first := if |texts| <= size then texts else texts[..size];
    assert EmbedBatches(p, [first]) == Failure(e) by {
      assert [first][..0] == [] && EmbedBatches(p, []) == Success([]);
    }
    if |texts| > size {
      FailureStays(p, [first], Batches(texts[size..], size), e);
    }
  }

  /** So a response can end an embedding job without a trace: whatever is pending, an
      overflowing response is raised and nothing is committed. */
  lemma OverflowIsNotRecorded(db: Database, id: Uuid, p: Provider, size: nat, model: ModelId)
    requires id in db.documents && 0 < size <= p.maxBatch && |PendingOrdinals(db.rows, id, model)| > 0
    requires forall batch: seq<string> | |batch| > 0 :: p.respond(batch).Items? && Overflows(p.respond(batch).items)
    ensures EmbedResult(db, id, None, model, PipelineEmbedder(p, size)) == Raises(OtherException)
    ensures EmbedJobCommits(db, id, None, model, PipelineEmbedder(p, size)) == []
  {
    hide PendingOrdinals, Overflows, ParseEmbeddings, Batches, EmbedBatches;
    var ordinals := PendingOrdinals(db.rows, id, model);
    PendingAreRows(db.rows, id, model);
    TextsCount(db.rows, id, ordinals);
    var texts := Texts(db.rows, id, ordinals);
    var first := if |texts| <= size then texts else texts[..size];
    ResponseEscapesIff(p.respond(first).items, |first|, p.dimensions);
    FirstBatchFails(p, size, texts, OtherException);
  }

  lemma SortPair(a: Item, b: Item)
    requires IndexNoLater(a, b)
    ensures SortBy([a, b], IndexNoLater) == [a, b]
  {
    assert [a, b][1..] == [b] && [b][1..] == [];
    assert SortBy<Item>([], IndexNoLater) == [];
    assert SortBy([b], IndexNoLater) == [b];
  }

  /** The provider answers every batch it accepts with that model's vectors. */
  ghost predicate Answering(p: Provider, encode: Encoder, model: ModelId) {
    forall batch: seq<string> | 0 < |batch| <= p.maxBatch ::
      p.respond(batch).Items? && CarriesEach(p.respond(batch).items, Encoded(encode, model, batch))
  }

  function Encoded(encode: Encoder, model: ModelId, texts: seq<string>): (r: seq<Vector>)
    ensures |r| == |texts| && forall i | 0 <= i < |r| :: r[i] == encode(model, texts[i])
  {
    seq(|texts|, i requires 0 <= i < |texts| => encode(model, texts[i]))
  }

  ghost predicate Wide(encode: Encoder, model: ModelId, dimensions: nat) {
    forall text: string :: |encode(model, text)| == dimensions
  }

  /** Cut into batches, answered out of order and put together again, every text has
      its own vector, for any number of texts; the provider's limit is never exceeded. */
  lemma {:induction false} EachTextGetsItsVector(p: Provider, size: nat, encode: Encoder, model: ModelId, texts: seq<string>)
    requires 0 < size <= p.maxBatch && Answering(p, encode, model) && Wide(encode, model, p.dimensions)
    ensures forall batch | batch in Batches(texts, size) :: 0 < |batch| <= size
    ensures EmbedBatches(p, Batches(texts, size)) == Success(Encoded(encode, model, texts))
    decreases |texts|
  {
    hide EmbedBatch, Answering, Wide;
    if |texts| == 0 {
    } else if |texts| <= size {
      OneBatch(p, encode, model, texts);
      SingleBatch(p, texts, Encoded(encode, model, texts));
    } else {
      var first, rest := texts[..size], texts[size..];
      EachTextGetsItsVector(p, size, encode, model, rest);
      OneBatch(p, encode, model, first);
      FirstBatch(p, first, Batches(rest, size), Encoded(encode, model, first), Encoded(encode, model, rest));
      assert Encoded(encode, model, first) + Encoded(encode, model, rest) == Encoded(encode, model, texts);
    }
  }

  lemma OneBatch(p: Provider, encode: Encoder, model: ModelId, batch: seq<string>)
    requires 0 < |batch| <= p.maxBatch && Answering(p, encode, model) && Wide(encode, model, p.dimensions)
    ensures EmbedBatch(p, batch) == Success(Encoded(encode, model, batch))
  {
    hide ParseEmbeddings, CarriesEach;
    RealignsByIndex(p.respond(batch).items, Encoded(encode, model, batch), p.dimensions);
  }

  lemma SingleBatch(p: Provider, batch: seq<string>, v: seq<Vector>)
    requires EmbedBatch(p, batch) == Success(v)
    ensures EmbedBatches(p, [batch]) == Success(v)
  {
    hide EmbedBatch;
    assert [batch][..0] == [] && [] + v == v;
    assert EmbedBatches(p, []) == Success([]);
  }

  lemma {:induction false} FirstBatch(p: Provider, first: seq<string>, rest: seq<seq<string>>, v: seq<Vector>, w: seq<Vector>)
    requires EmbedBatch(p, first) == Success(v) && EmbedBatches(p, rest) == Success(w)
    ensures EmbedBatches(p, [first] + rest) == Success(v + w)
  {
    hide EmbedBatch;
    if |rest| == 0 {
      SingleBatch(p, first, v);
      assert [first] + rest == [first] && v + w == v;
    } else {
      var n := |rest| - 1;
      var before := EmbedBatches(p, rest[..n]).value;
      FirstBatch(p, first, rest[..n], v, before);
      assert ([first] + rest)[..|rest|] == [first] + rest[..n];
      assert v + (before + EmbedBatch(p, rest[n]).value) == v + before + EmbedBatch(p, rest[n]).value;
    }
  }

  /** What the embedding job sees of the pipeline. */
  function PipelineEmbedder(p: Provider, size: nat): Embedder
    requires size > 0
  {
    texts =>
      match EmbedBatches(p, Batches(texts, size))
      case Failure(raised) => Fails(raised)
      case Success(vectors) => Vectors(vectors)
  }

  /** Such a provider makes the job's premises true. */
  lemma PipelineIsFaithful(p: Provider, batchSize: int, encode: Encoder, model: ModelId)
    requires batchSize > 0 && p.maxBatch > 0 && Answering(p, encode, model) && Wide(encode, model, p.dimensions)
    ensures var embedder := PipelineEmbedder(p, MakePipeline(p, batchSize).value);
            Faithful(encode, model, embedder) && Answers(embedder)
  {
    hide EmbedBatches, Batches, Answering, Wide;
    var size := MakePipeline(p, batchSize).value;
    forall texts: seq<string>
      ensures PipelineEmbedder(p, size)(texts) == Vectors(Encoded(encode, model, texts))
    {
      EachTextGetsItsVector(p, size, encode, model, texts);
    }
  }
}
