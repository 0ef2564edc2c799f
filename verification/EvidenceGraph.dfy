/**
 The evidence graph, backend/visualization/evidence_graph/builder.py: query to
 documents to chunks to claims to answer.
 */
module EvidenceGraph {
  import opened Wrappers
  import opened Sequences

  /** Node identifiers before they are written out as text; see `Render`. */
  datatype NodeId =
    | QueryNode
    | DocumentNode(document: string)
    | ChunkNode(chunk: string)
    | ClaimNode(index: nat)
    | AnswerNode

  datatype NodeType = QUERY | DOCUMENT | CHUNK | CLAIM | ANSWER

  datatype EdgeKind = RETRIEVED | CONTAINS | CITES | SUPPORTS

  /** A node; chunks say whether they are cited, claims whether they cite. */
  datatype Node = Node(id: NodeId, kind: NodeType, cited: Option<bool>, supported: Option<bool>)

  datatype Edge = Edge(source: NodeId, target: NodeId, kind: EdgeKind)

  datatype Graph = Graph(nodes: seq<Node>, edges: seq<Edge>)

  datatype ChunkInput = ChunkInput(chunkId: string, documentId: string)

  datatype ClaimInput = ClaimInput(text: string, cited: seq<string>)

  // ----- what is built -----

  /** Documents in the order their first chunk appears. */
  function DocumentIds(chunks: seq<ChunkInput>): seq<string> {
    if |chunks| == 0 then []
    else
      var before, d := DocumentIds(chunks[..|chunks| - 1]), chunks[|chunks| - 1].documentId;
      if d in before then before else before + [d]
  }

  function CitedIds(claims: seq<ClaimInput>): set<string> {
    set claim, id | claim in claims && id in claim.cited :: id
  }

  function KnownIds(chunks: seq<ChunkInput>): set<string> {
    set chunk | chunk in chunks :: chunk.chunkId
  }

  function DocumentNodes(ids: seq<string>): seq<Node> {
    if |ids| == 0 then [] else DocumentNodes(ids[..|ids| - 1]) + [Node(DocumentNode(ids[|ids| - 1]), DOCUMENT, None, None)]
  }

  function DocumentEdges(ids: seq<string>): seq<Edge> {
    if |ids| == 0 then [] else DocumentEdges(ids[..|ids| - 1]) + [Edge(QueryNode, DocumentNode(ids[|ids| - 1]), RETRIEVED)]
  }

  function ChunkNodes(chunks: seq<ChunkInput>, cited: set<string>): seq<Node> {
    if |chunks| == 0 then []
    else
      var last := chunks[|chunks| - 1];
      ChunkNodes(chunks[..|chunks| - 1], cited) + [Node(ChunkNode(last.chunkId), CHUNK, Some(last.chunkId in cited), None)]
  }

  function ChunkEdges(chunks: seq<ChunkInput>): seq<Edge> {
    if |chunks| == 0 then []
    else
      var last := chunks[|chunks| - 1];
      ChunkEdges(chunks[..|chunks| - 1]) + [Edge(DocumentNode(last.documentId), ChunkNode(last.chunkId), CONTAINS)]
  }

  function ClaimNodes(claims: seq<ClaimInput>): seq<Node> {
    if |claims| == 0 then []
    else
      var n := |claims| - 1;
      ClaimNodes(claims[..n]) + [Node(ClaimNode(n), CLAIM, None, Some(|claims[n].cited| > 0))]
  }

  /** One edge per citation of a known chunk. */
  function CiteEdges(cited: seq<string>, known: set<string>, index: nat): seq<Edge> {
    if |cited| == 0 then []
    else
      CiteEdges(cited[..|cited| - 1], known, index)
      + if cited[|cited| - 1] in known then [Edge(ChunkNode(cited[|cited| - 1]), ClaimNode(index), CITES)] else []
  }

  function ClaimEdges(claims: seq<ClaimInput>, known: set<string>): seq<Edge> {
    if |claims| == 0 then []
    else
      var n := |claims| - 1;
      ClaimEdges(claims[..n], known) + [Edge(ClaimNode(n), AnswerNode, SUPPORTS)] + CiteEdges(claims[n].cited, known, n)
  }

  function EvidenceGraphOf(chunks: seq<ChunkInput>, claims: seq<ClaimInput>): Graph {
    var documents := DocumentIds(chunks);
    Graph(
      [Node(QueryNode, QUERY, None, None)] + DocumentNodes(documents) + ChunkNodes(chunks, CitedIds(claims))
      + [Node(AnswerNode, ANSWER, None, None)] + ClaimNodes(claims),
      DocumentEdges(documents) + ChunkEdges(chunks) + ClaimEdges(claims, KnownIds(chunks)))
  }

  method CollectDocuments(chunks: seq<ChunkInput>) returns (documents: seq<string>)
    ensures documents == DocumentIds(chunks)
  {
    documents := [];
    for n := 0 to |chunks|
      invariant documents == DocumentIds(chunks[..n])
    {
      assert chunks[..n + 1][..n] == chunks[..n];
      if chunks[n].documentId !in documents {
        documents := documents + [chunks[n].documentId];
      }
    }
    assert chunks[..|chunks|] == chunks;
  }

  /** `build_evidence_graph`, appending to the two lists part by part. */
  method BuildEvidenceGraph(chunks: seq<ChunkInput>, claims: seq<ClaimInput>) returns (g: Graph)
    ensures g == EvidenceGraphOf(chunks, claims)
  {
    hide DocumentIds, DocumentNodes, DocumentEdges, ChunkNodes, ChunkEdges, ClaimNodes, ClaimEdges;
    var nodes, edges := [Node(QueryNode, QUERY, None, None)], [];
    var documents := CollectDocuments(chunks);
    nodes, edges := AppendDocuments(nodes, edges, documents);
    nodes, edges := AppendChunks(nodes, edges, chunks, CitedIds(claims));
    nodes := nodes + [Node(AnswerNode, ANSWER, None, None)];
    nodes, edges := AppendClaims(nodes, edges, claims, KnownIds(chunks));
    assert [] + DocumentEdges(documents) == DocumentEdges(documents);
    g := Graph(nodes, edges);
  }

  method AppendDocuments(nodes: seq<Node>, edges: seq<Edge>, documents: seq<string>) returns (nodes': seq<Node>, edges': seq<Edge>)
    ensures nodes' == nodes + DocumentNodes(documents) && edges' == edges + DocumentEdges(documents)
  {
    nodes', edges' := nodes, edges;
    for n := 0 to |documents|
      invariant nodes' == nodes + DocumentNodes(documents[..n])
      invariant edges' == edges + DocumentEdges(documents[..n])
    {
      assert documents[..n + 1][..n] == documents[..n];
      nodes' := nodes' + [Node(DocumentNode(documents[n]), DOCUMENT, None, None)];
      edges' := edges' + [Edge(QueryNode, DocumentNode(documents[n]), RETRIEVED)];
    }
    assert documents[..|documents|] == documents;
  }

  method AppendChunks(nodes: seq<Node>, edges: seq<Edge>, chunks: seq<ChunkInput>, cited: set<string>)
    returns (nodes': seq<Node>, edges': seq<Edge>)
    ensures nodes' == nodes + ChunkNodes(chunks, cited) && edges' == edges + ChunkEdges(chunks)
  {
    nodes', edges' := nodes, edges;
    for n := 0 to |chunks|
      invariant nodes' == nodes + ChunkNodes(chunks[..n], cited)
      invariant edges' == edges + ChunkEdges(chunks[..n])
    {
      assert chunks[..n + 1][..n] == chunks[..n];
      nodes' := nodes' + [Node(ChunkNode(chunks[n].chunkId), CHUNK, Some(chunks[n].chunkId in cited), None)];
      edges' := edges' + [Edge(DocumentNode(chunks[n].documentId), ChunkNode(chunks[n].chunkId), CONTAINS)];
    }
    assert chunks[..|chunks|] == chunks;
  }

  method AppendClaims(nodes: seq<Node>, edges: seq<Edge>, claims: seq<ClaimInput>, known: set<string>)
    returns (nodes': seq<Node>, edges': seq<Edge>)
    ensures nodes' == nodes + ClaimNodes(claims) && edges' == edges + ClaimEdges(claims, known)
  {
    nodes', edges' := nodes, edges;
    for n := 0 to |claims|
      invariant nodes' == nodes + ClaimNodes(claims[..n])
      invariant edges' == edges + ClaimEdges(claims[..n], known)
    {
      assert claims[..n + 1][..n] == claims[..n];
      nodes' := nodes' + [Node(ClaimNode(n), CLAIM, None, Some(|claims[n].cited| > 0))];
      edges' := edges' + [Edge(ClaimNode(n), AnswerNode, SUPPORTS)];
      var more := CiteLoop(claims[n].cited, known, n);
      edges' := edges' + more;
    }
    assert claims[..|claims|] == claims;
  }

  method CiteLoop(cited: seq<string>, known: set<string>, index: nat) returns (edges: seq<Edge>)
    ensures edges == CiteEdges(cited, known, index)
  {
    edges := [];
    for n := 0 to |cited|
      invariant edges == CiteEdges(cited[..n], known, index)
    {
      assert cited[..n + 1][..n] == cited[..n];
      if cited[n] in known {
        edges := edges + [Edge(ChunkNode(cited[n]), ClaimNode(index), CITES)];
      }
    }
    assert cited[..|cited|] == cited;
  }

  // ----- which nodes and edges there are -----

  ghost predicate HasNode(chunks: seq<ChunkInput>, claims: seq<ClaimInput>, n: Node) {
    match n.id
    case QueryNode => n == Node(QueryNode, QUERY, None, None)
    case DocumentNode(d) => n == Node(DocumentNode(d), DOCUMENT, None, None) && exists c | c in chunks :: c.documentId == d
    case ChunkNode(id) => n == Node(ChunkNode(id), CHUNK, Some(id in CitedIds(claims)), None) && id in KnownIds(chunks)
    case ClaimNode(i) => i < |claims| && n == Node(ClaimNode(i), CLAIM, None, Some(|claims[i].cited| > 0))
    case AnswerNode => n == Node(AnswerNode, ANSWER, None, None)
  }

  ghost predicate HasEdge(chunks: seq<ChunkInput>, claims: seq<ClaimInput>, e: Edge) {
    match e.kind
    case RETRIEVED => e.source == QueryNode && e.target.DocumentNode? && exists c | c in chunks :: c.documentId == e.target.document
    case CONTAINS => e.source.DocumentNode? && e.target.ChunkNode? && ChunkInput(e.target.chunk, e.source.document) in chunks
    case CITES =>
      e.source.ChunkNode? && e.target.ClaimNode? && e.target.index < |claims|
      && e.source.chunk in claims[e.target.index].cited && e.source.chunk in KnownIds(chunks)
    case SUPPORTS => e.source.ClaimNode? && e.source.index < |claims| && e.target == AnswerNode
  }

  lemma {:induction false} DocumentIdsAre(chunks: seq<ChunkInput>)
    ensures forall d :: d in DocumentIds(chunks) <==> exists c | c in chunks :: c.documentId == d
    ensures AllDifferent(DocumentIds(chunks))
  {
    if |chunks| > 0 {
      var front, last := chunks[..|chunks| - 1], chunks[|chunks| - 1];
      assert chunks == front + [last];
      assert last in chunks;
      DocumentIdsAre(front);
    }
  }

  lemma {:induction false} DocumentPartsAre(ids: seq<string>)
    ensures forall n :: n in DocumentNodes(ids) <==> n.id.DocumentNode? && n.id.document in ids && n == Node(n.id, DOCUMENT, None, None)
    ensures forall e :: e in DocumentEdges(ids) <==>
      e.kind == RETRIEVED && e.source == QueryNode && e.target.DocumentNode? && e.target.document in ids
  {
    if |ids| > 0 {
      DocumentPartsAre(ids[..|ids| - 1]);
      assert ids == ids[..|ids| - 1] + [ids[|ids| - 1]];
    }
  }

  lemma {:induction false} ChunkNodesAre(chunks: seq<ChunkInput>, cited: set<string>, n: Node)
    ensures n in ChunkNodes(chunks, cited) <==>
      n.id.ChunkNode? && n.id.chunk in KnownIds(chunks) && n == Node(n.id, CHUNK, Some(n.id.chunk in cited), None)
  {
    if |chunks| > 0 {
      var front, last := chunks[..|chunks| - 1], chunks[|chunks| - 1];
      ChunkNodesAre(front, cited, n);
      assert chunks == front + [last];
      assert KnownIds(chunks) == KnownIds(front) + {last.chunkId};
    }
  }

  lemma {:induction false} ChunkEdgesAre(chunks: seq<ChunkInput>, e: Edge)
    ensures e in ChunkEdges(chunks) <==>
      e.kind == CONTAINS && e.source.DocumentNode? && e.target.ChunkNode? && ChunkInput(e.target.chunk, e.source.document) in chunks
  {
    if |chunks| > 0 {
      var front, last := chunks[..|chunks| - 1], chunks[|chunks| - 1];
      ChunkEdgesAre(front, e);
      assert chunks == front + [last];
    }
  }

  lemma {:induction false} ClaimNodesAre(claims: seq<ClaimInput>, n: Node)
    ensures |ClaimNodes(claims)| == |claims|
    ensures n in ClaimNodes(claims) <==>
      n.id.ClaimNode? && n.id.index < |claims| && n == Node(n.id, CLAIM, None, Some(|claims[n.id.index].cited| > 0))
  {
    if |claims| > 0 {
      ClaimNodesAre(claims[..|claims| - 1], n);
    }
  }

  lemma {:induction false} CiteEdgesAre(cited: seq<string>, known: set<string>, index: nat, e: Edge)
    ensures e in CiteEdges(cited, known, index) <==>
      e.kind == CITES && e.source.ChunkNode? && e.target == ClaimNode(index) && e.source.chunk in cited && e.source.chunk in known
  {
    if |cited| > 0 {
      CiteEdgesAre(cited[..|cited| - 1], known, index, e);
      assert cited == cited[..|cited| - 1] + [cited[|cited| - 1]];
    }
  }

  lemma {:induction false} ClaimEdgesAre(claims: seq<ClaimInput>, known: set<string>, e: Edge)
    ensures e in ClaimEdges(claims, known) <==>
      (e.kind == SUPPORTS && e.source.ClaimNode? && e.source.index < |claims| && e.target == AnswerNode)
      || (e.kind == CITES && e.source.ChunkNode? && e.target.ClaimNode? && e.target.index < |claims|
          && e.source.chunk in claims[e.target.index].cited && e.source.chunk in known)
  {
    if |claims| > 0 {
      var n := |claims| - 1;
      ClaimEdgesAre(claims[..n], known, e);
      CiteEdgesAre(claims[n].cited, known, n, e);
    }
  }

  lemma NodesAre(chunks: seq<ChunkInput>, claims: seq<ClaimInput>, n: Node)
    ensures n in EvidenceGraphOf(chunks, claims).nodes <==> HasNode(chunks, claims, n)
  {
    hide DocumentIds, DocumentNodes, ChunkNodes, ClaimNodes, CitedIds, KnownIds;
    DocumentIdsAre(chunks);
    DocumentPartsAre(DocumentIds(chunks));
    ChunkNodesAre(chunks, CitedIds(claims), n);
    ClaimNodesAre(claims, n);
  }

  lemma EdgesAre(chunks: seq<ChunkInput>, claims: seq<ClaimInput>, e: Edge)
    ensures e in EvidenceGraphOf(chunks, claims).edges <==> HasEdge(chunks, claims, e)
  {
    hide DocumentIds, DocumentEdges, ChunkEdges, ClaimEdges, KnownIds;
    DocumentIdsAre(chunks);
    DocumentPartsAre(DocumentIds(chunks));
    ChunkEdgesAre(chunks, e);
    ClaimEdgesAre(claims, KnownIds(chunks), e);
  }

  // ----- shape -----

  function Layer(id: NodeId): nat {
    match id
    case QueryNode => 0
    case DocumentNode(_) => 1
    case ChunkNode(_) => 2
    case ClaimNode(_) => 3
    case AnswerNode => 4
  }

  ghost predicate IsNode(g: Graph, id: NodeId) {
    exists n | n in g.nodes :: n.id == id
  }

  /** Every edge joins two nodes of the graph and goes one layer down. */
  lemma EdgesAreWellPlaced(chunks: seq<ChunkInput>, claims: seq<ClaimInput>, e: Edge)
    requires e in EvidenceGraphOf(chunks, claims).edges
    ensures var g := EvidenceGraphOf(chunks, claims); IsNode(g, e.source) && IsNode(g, e.target)
    ensures Layer(e.target) == Layer(e.source) + 1
  {
    hide EvidenceGraphOf;
    EdgesAre(chunks, claims, e);
    NodeExists(chunks, claims, e.source);
    NodeExists(chunks, claims, e.target);
    if e.kind == CONTAINS {
      assert ChunkInput(e.target.chunk, e.source.document).chunkId in KnownIds(chunks);
    }
  }

  /** The node with an identifier, if there is one. */
  function NodeOf(claims: seq<ClaimInput>, id: NodeId): Node {
    match id
    case QueryNode => Node(id, QUERY, None, None)
    case DocumentNode(_) => Node(id, DOCUMENT, None, None)
    case ChunkNode(chunk) => Node(id, CHUNK, Some(chunk in CitedIds(claims)), None)
    case ClaimNode(i) => Node(id, CLAIM, None, Some(i < |claims| && |claims[i].cited| > 0))
    case AnswerNode => Node(id, ANSWER, None, None)
  }

  lemma NodeExists(chunks: seq<ChunkInput>, claims: seq<ClaimInput>, id: NodeId)
    ensures IsNode(EvidenceGraphOf(chunks, claims), id) <==> HasNode(chunks, claims, NodeOf(claims, id))
  {
    hide EvidenceGraphOf, CitedIds, KnownIds;
    NodesAre(chunks, claims, NodeOf(claims, id));
    if n :| n in EvidenceGraphOf(chunks, claims).nodes && n.id == id {
      NodesAre(chunks, claims, n);
    }
  }

  /** A walk along edges. */
  ghost predicate Path(g: Graph, from: NodeId, steps: seq<Edge>, to: NodeId)
    decreases |steps|
  {
    if |steps| == 0 then from == to
    else steps[0] in g.edges && steps[0].source == from && Path(g, steps[0].target, steps[1..], to)
  }

  ghost predicate Reaches(g: Graph, from: NodeId, to: NodeId) {
    exists steps :: Path(g, from, steps, to)
  }

  /** Every walk goes one layer down with each step, so none comes back. */
  lemma {:induction false} WalksGoDown(chunks: seq<ChunkInput>, claims: seq<ClaimInput>, from: NodeId, steps: seq<Edge>, to: NodeId)
    requires Path(EvidenceGraphOf(chunks, claims), from, steps, to)
    ensures Layer(to) == Layer(from) + |steps|
    ensures from == to <==> steps == []
    decreases |steps|
  {
    hide EvidenceGraphOf;
    if |steps| > 0 {
      EdgesAreWellPlaced(chunks, claims, steps[0]);
      WalksGoDown(chunks, claims, steps[0].target, steps[1..], to);
    }
  }

  lemma OneStep(g: Graph, e: Edge, to: NodeId)
    requires e in g.edges && Reaches(g, e.target, to)
    ensures Reaches(g, e.source, to)
  {
    var steps :| Path(g, e.target, steps, to);
    assert ([e] + steps)[1..] == steps;
    assert Path(g, e.source, [e] + steps, to);
  }

  lemma ReachesSelf(g: Graph, id: NodeId)
    ensures Reaches(g, id, id)
  {
    assert Path(g, id, [], id);
  }

  /** The query reaches whatever a retrieved chunk reaches. */
  lemma QueryReachesThroughChunk(chunks: seq<ChunkInput>, claims: seq<ClaimInput>, chunk: ChunkInput, to: NodeId)
    requires chunk in chunks && Reaches(EvidenceGraphOf(chunks, claims), ChunkNode(chunk.chunkId), to)
    ensures Reaches(EvidenceGraphOf(chunks, claims), QueryNode, to)
  {
    hide EvidenceGraphOf;
    var contains := Edge(DocumentNode(chunk.documentId), ChunkNode(chunk.chunkId), CONTAINS);
    var retrieved := Edge(QueryNode, DocumentNode(chunk.documentId), RETRIEVED);
    assert chunk == ChunkInput(chunk.chunkId, chunk.documentId);
    EdgesAre(chunks, claims, contains);
    EdgesAre(chunks, claims, retrieved);
    OneStep(EvidenceGraphOf(chunks, claims), contains, to);
    OneStep(EvidenceGraphOf(chunks, claims), retrieved, to);
  }

  /** Every retrieved chunk hangs off the query. */
  lemma EveryChunkIsReached(chunks: seq<ChunkInput>, claims: seq<ClaimInput>, chunk: ChunkInput)
    requires chunk in chunks
    ensures Reaches(EvidenceGraphOf(chunks, claims), QueryNode, ChunkNode(chunk.chunkId))
  {
    hide EvidenceGraphOf;
    ReachesSelf(EvidenceGraphOf(chunks, claims), ChunkNode(chunk.chunkId));
    QueryReachesThroughChunk(chunks, claims, chunk, ChunkNode(chunk.chunkId));
  }

  ghost predicate SomeCitation(chunks: seq<ChunkInput>, claims: seq<ClaimInput>) {
    exists claim, id :: claim in claims && id in claim.cited && id in KnownIds(chunks)
  }

  /** A walk from above the claims to the answer passes a citation. */
  lemma {:induction false} PathHasCitation(chunks: seq<ChunkInput>, claims: seq<ClaimInput>, from: NodeId, steps: seq<Edge>)
    requires Path(EvidenceGraphOf(chunks, claims), from, steps, AnswerNode) && Layer(from) <= 2
    ensures SomeCitation(chunks, claims)
    decreases |steps|
  {
    hide EvidenceGraphOf, KnownIds;
    var e := steps[0];
    EdgesAre(chunks, claims, e);
    EdgesAreWellPlaced(chunks, claims, e);
    if e.kind == CITES {
      assert claims[e.target.index] in claims;
    } else {
      PathHasCitation(chunks, claims, e.target, steps[1..]);
    }
  }

  /** The answer is reached from the query exactly when some claim cites a retrieved chunk. */
  lemma AnswerIsReachedIffCited(chunks: seq<ChunkInput>, claims: seq<ClaimInput>)
    ensures Reaches(EvidenceGraphOf(chunks, claims), QueryNode, AnswerNode) <==> SomeCitation(chunks, claims)
  {
    hide EvidenceGraphOf;
    var g := EvidenceGraphOf(chunks, claims);
    if steps :| Path(g, QueryNode, steps, AnswerNode) {
      PathHasCitation(chunks, claims, QueryNode, steps);
    }
    if claim, id :| claim in claims && id in claim.cited && id in KnownIds(chunks) {
      var i :| 0 <= i < |claims| && claims[i] == claim;
      var chunk :| chunk in chunks && chunk.chunkId == id;
      var supports, cites := Edge(ClaimNode(i), AnswerNode, SUPPORTS), Edge(ChunkNode(id), ClaimNode(i), CITES);
      EdgesAre(chunks, claims, supports);
      EdgesAre(chunks, claims, cites);
      ReachesSelf(g, AnswerNode);
      OneStep(g, supports, AnswerNode);
      OneStep(g, cites, AnswerNode);
      QueryReachesThroughChunk(chunks, claims, chunk, AnswerNode);
    }
  }

  /** A chunk is marked cited exactly when a CITES edge leaves it. */
  lemma CitedIffEdge(chunks: seq<ChunkInput>, claims: seq<ClaimInput>, n: Node)
    requires n in EvidenceGraphOf(chunks, claims).nodes && n.kind == CHUNK
    ensures n.cited == Some(exists e | e in EvidenceGraphOf(chunks, claims).edges :: e.kind == CITES && e.source == n.id)
  {
    hide EvidenceGraphOf;
    NodesAre(chunks, claims, n);
    if n.id.chunk in CitedIds(claims) {
      var claim :| claim in claims && n.id.chunk in claim.cited;
      var i :| 0 <= i < |claims| && claims[i] == claim;
      EdgesAre(chunks, claims, Edge(n.id, ClaimNode(i), CITES));
    }
    if e :| e in EvidenceGraphOf(chunks, claims).edges && e.kind == CITES && e.source == n.id {
      EdgesAre(chunks, claims, e);
      assert claims[e.target.index] in claims;
    }
  }

  // ----- identifiers -----

  lemma {:induction false} DocumentNodeAt(ids: seq<string>, i: nat)
    requires i < |ids|
    ensures |DocumentNodes(ids)| == |ids| && DocumentNodes(ids)[i].id == DocumentNode(ids[i])
  {
    var n := |ids| - 1;
    if i < n {
      DocumentNodeAt(ids[..n], i);
    } else if n > 0 {
      DocumentNodeAt(ids[..n], 0);
    }
  }

  lemma {:induction false} ChunkNodeAt(chunks: seq<ChunkInput>, cited: set<string>, i: nat)
    requires i < |chunks|
    ensures |ChunkNodes(chunks, cited)| == |chunks| && ChunkNodes(chunks, cited)[i].id == ChunkNode(chunks[i].chunkId)
  {
    var n := |chunks| - 1;
    if i < n {
      ChunkNodeAt(chunks[..n], cited, i);
    } else if n > 0 {
      ChunkNodeAt(chunks[..n], cited, 0);
    }
  }

  lemma {:induction false} ClaimNodeAt(claims: seq<ClaimInput>, i: nat)
    requires i < |claims|
    ensures |ClaimNodes(claims)| == |claims| && ClaimNodes(claims)[i].id == ClaimNode(i)
  {
    var n := |claims| - 1;
    if i < n {
      ClaimNodeAt(claims[..n], i);
    } else if n > 0 {
      ClaimNodeAt(claims[..n], 0);
    }
  }

  function NodeIds(nodes: seq<Node>): (r: seq<NodeId>)
    ensures |r| == |nodes| && forall i | 0 <= i < |r| :: r[i] == nodes[i].id
  {
    seq(|nodes|, i requires 0 <= i < |nodes| => nodes[i].id)
  }

  function ChunkIds(chunks: seq<ChunkInput>): (r: seq<string>)
    ensures |r| == |chunks| && forall i | 0 <= i < |r| :: r[i] == chunks[i].chunkId
  {
    seq(|chunks|, i requires 0 <= i < |chunks| => chunks[i].chunkId)
  }

  /** Each part of the node list is of one type. */
  lemma PartsAt(chunks: seq<ChunkInput>, claims: seq<ClaimInput>)
    ensures var d := DocumentIds(chunks);
            && |DocumentNodes(d)| == |d| && (forall i | 0 <= i < |d| :: DocumentNodes(d)[i].id == DocumentNode(d[i]))
    ensures var c := ChunkNodes(chunks, CitedIds(claims));
            && |c| == |chunks| && (forall i | 0 <= i < |chunks| :: c[i].id == ChunkNode(chunks[i].chunkId))
    ensures |ClaimNodes(claims)| == |claims| && (forall i | 0 <= i < |claims| :: ClaimNodes(claims)[i].id == ClaimNode(i))
  {
    var d := DocumentIds(chunks);
    forall i | 0 <= i < |d| {
      DocumentNodeAt(d, i);
    }
    forall i | 0 <= i < |chunks| {
      ChunkNodeAt(chunks, CitedIds(claims), i);
    }
    forall i | 0 <= i < |claims| {
      ClaimNodeAt(claims, i);
    }
  }

  lemma DifferentConcat<T>(a: seq<T>, b: seq<T>)
    requires forall x | x in a :: x !in b
    ensures AllDifferent(a + b) <==> AllDifferent(a) && AllDifferent(b)
  {
    var c := a + b;
    assert forall i | 0 <= i < |a| :: c[i] == a[i] && a[i] in a;
    assert forall i | 0 <= i < |b| :: c[|a| + i] == b[i] && b[i] in b;
    if AllDifferent(c) {
      forall i, j | 0 <= i < j < |b|
        ensures b[i] != b[j]
      {
        assert c[|a| + i] != c[|a| + j];
      }
    }
  }

  lemma NodeIdsConcat(a: seq<Node>, b: seq<Node>)
    ensures NodeIds(a + b) == NodeIds(a) + NodeIds(b)
  {
  }

  ghost predicate OnLayer(ids: seq<NodeId>, low: nat, high: nat) {
    forall x | x in ids :: low <= Layer(x) <= high
  }

  lemma LayersApart(a: seq<NodeId>, b: seq<NodeId>, low: nat, mid: nat, high: nat)
    requires low <= mid < high && OnLayer(a, low, mid) && OnLayer(b, mid + 1, high)
    ensures AllDifferent(a + b) <==> AllDifferent(a) && AllDifferent(b)
    ensures OnLayer(a + b, low, high)
  {
    DifferentConcat(a, b);
    assert forall x | x in a + b :: x in a || x in b;
  }

  /** Node identifiers are unique exactly when the retrieved chunk identifiers are. */
  lemma NodeIdsUniqueIff(chunks: seq<ChunkInput>, claims: seq<ClaimInput>)
    ensures AllDifferent(NodeIds(EvidenceGraphOf(chunks, claims).nodes)) <==> AllDifferent(ChunkIds(chunks))
  {
    hide DocumentIds, DocumentNodes, ChunkNodes, ClaimNodes, DocumentEdges, ChunkEdges, ClaimEdges, AllDifferent;
    PartsAt(chunks, claims);
    DocumentIdsAre(chunks);
    var q, d := [Node(QueryNode, QUERY, None, None)], DocumentNodes(DocumentIds(chunks));
    var c := ChunkNodes(chunks, CitedIds(claims));
    var a, l := [Node(AnswerNode, ANSWER, None, None)], ClaimNodes(claims);
    NodeIdsConcat(q, d);
    NodeIdsConcat(q + d, c);
    NodeIdsConcat(q + d + c, a);
    NodeIdsConcat(q + d + c + a, l);
    LayersApart(NodeIds(q), NodeIds(d), 0, 0, 1);
    LayersApart(NodeIds(q) + NodeIds(d), NodeIds(c), 0, 1, 2);
    PartsAreDifferent(chunks, claims);
    var front := NodeIds(q) + NodeIds(d) + NodeIds(c);
    LayersApart(front, NodeIds(a), 0, 2, 4);
    DifferentConcat(front + NodeIds(a), NodeIds(l));
  }

  lemma PartsAreDifferent(chunks: seq<ChunkInput>, claims: seq<ClaimInput>)
    ensures AllDifferent([QueryNode]) && AllDifferent([AnswerNode])
    ensures NodeIds([Node(QueryNode, QUERY, None, None)]) == [QueryNode] && NodeIds([Node(AnswerNode, ANSWER, None, None)]) == [AnswerNode]
    ensures AllDifferent(NodeIds(DocumentNodes(DocumentIds(chunks))))
    ensures AllDifferent(NodeIds(ChunkNodes(chunks, CitedIds(claims)))) <==> AllDifferent(ChunkIds(chunks))
    ensures AllDifferent(NodeIds(ClaimNodes(claims)))
  {
    hide DocumentIds, DocumentNodes, ChunkNodes, ClaimNodes;
    PartsAt(chunks, claims);
    DocumentIdsAre(chunks);
    var c := NodeIds(ChunkNodes(chunks, CitedIds(claims)));
    assert forall i | 0 <= i < |chunks| :: c[i] == ChunkNode(ChunkIds(chunks)[i]);
  }

  function Digit(n: nat): char
    requires n < 10
  {
    '0' + n as char
  }

  function Decimal(n: nat): string {
    if n < 10 then [Digit(n)] else Decimal(n / 10) + [Digit(n % 10)]
  }

  /** What a row of digits says, base ten. */
  function Reading(s: string): int {
    if |s| == 0 then 0 else Reading(s[..|s| - 1]) * 10 + (s[|s| - 1] as int - '0' as int)
  }

  /** A number is written without a leading zero and reads back as itself. */
  lemma {:induction false} DecimalReads(n: nat)
    ensures Reading(Decimal(n)) == n
    ensures |Decimal(n)| > 0 && (Decimal(n)[0] == '0' ==> n == 0)
  {
    if n >= 10 {
      var front := Decimal(n / 10);
      DecimalReads(n / 10);
      assert Decimal(n)[..|front|] == front;
    } else {
      assert [Digit(n)][..0] == [];
    }
  }

  /** A node identifier as the payload spells it. */
  function Render(id: NodeId): string {
    match id
    case QueryNode => "query"
    case DocumentNode(document) => "document:" + document
    case ChunkNode(chunk) => "chunk:" + chunk
    case ClaimNode(index) => "claim:" + Decimal(index)
    case AnswerNode => "answer"
  }

  /** Spelling identifiers out confuses no two of them, whatever the chunk and
      document identifiers contain. */
  lemma RenderInjective(a: NodeId, b: NodeId)
    requires Render(a) == Render(b)
    ensures a == b
  {
    assert Render(a)[0] == Render(b)[0] && Render(a)[1] == Render(b)[1];
    match a
    case DocumentNode(document) => assert Render(a)[9..] == document && Render(b)[9..] == b.document;
    case ChunkNode(chunk) => assert Render(a)[6..] == chunk && Render(b)[6..] == b.chunk;
    case ClaimNode(index) =>
      assert Render(a)[6..] == Decimal(index) && Render(b)[6..] == Decimal(b.index);
      DecimalReads(index);
      DecimalReads(b.index);
    case _ =>
  }

  // ----- the summary -----

  datatype Summary = Summary(nodeCounts: map<NodeType, nat>, edgeCount: nat, uncitedChunks: nat, unsupportedClaims: nat)

  function CountKind(nodes: seq<Node>, kind: NodeType): nat {
    if |nodes| == 0 then 0
    else CountKind(nodes[..|nodes| - 1], kind) + if nodes[|nodes| - 1].kind == kind then 1 else 0
  }

  predicate Unused(n: Node) {
    n.kind == CHUNK && n.cited != Some(true)
  }

  predicate Unsupported(n: Node) {
    n.kind == CLAIM && n.supported != Some(true)
  }

  function CountWhere(nodes: seq<Node>, p: Node -> bool): nat {
    if |nodes| == 0 then 0
    else CountWhere(nodes[..|nodes| - 1], p) + if p(nodes[|nodes| - 1]) then 1 else 0
  }

  /** `graph_summary`. */
  method Summarise(g: Graph) returns (s: Summary)
    ensures forall kind :: kind in s.nodeCounts <==> CountKind(g.nodes, kind) > 0
    ensures forall kind | kind in s.nodeCounts :: s.nodeCounts[kind] == CountKind(g.nodes, kind)
    ensures s.edgeCount == |g.edges|
    ensures s.uncitedChunks == CountWhere(g.nodes, Unused) && s.unsupportedClaims == CountWhere(g.nodes, Unsupported)
  {
    var counts: map<NodeType, nat> := map[];
    var unused, unsupported := 0, 0;
    for n := 0 to |g.nodes|
      invariant forall kind :: kind in counts <==> CountKind(g.nodes[..n], kind) > 0
      invariant forall kind | kind in counts :: counts[kind] == CountKind(g.nodes[..n], kind)
      invariant unused == CountWhere(g.nodes[..n], Unused) && unsupported == CountWhere(g.nodes[..n], Unsupported)
    {
      assert g.nodes[..n + 1][..n] == g.nodes[..n];
      var node := g.nodes[n];
      counts := counts[node.kind := (if node.kind in counts then counts[node.kind] else 0) + 1];
      unused := unused + if Unused(node) then 1 else 0;
      unsupported := unsupported + if Unsupported(node) then 1 else 0;
    }
    assert g.nodes[..|g.nodes|] == g.nodes;
    s := Summary(counts, |g.edges|, unused, unsupported);
  }

  lemma {:induction false} CountWhereConcat(a: seq<Node>, b: seq<Node>, p: Node -> bool)
    ensures CountWhere(a + b, p) == CountWhere(a, p) + CountWhere(b, p)
  {
    if |b| == 0 {
      assert a + b == a;
    } else {
      assert (a + b)[..|a + b| - 1] == a + b[..|b| - 1];
      CountWhereConcat(a, b[..|b| - 1], p);
    }
  }

  lemma {:induction false} NoneCounted(nodes: seq<Node>, p: Node -> bool)
    requires forall n | n in nodes :: !p(n)
    ensures CountWhere(nodes, p) == 0
  {
    if |nodes| > 0 {
      NoneCounted(nodes[..|nodes| - 1], p);
    }
  }

  function UncitedChunks(chunks: seq<ChunkInput>, cited: set<string>): nat {
    if |chunks| == 0 then 0
    else UncitedChunks(chunks[..|chunks| - 1], cited) + if chunks[|chunks| - 1].chunkId in cited then 0 else 1
  }

  function ClaimsWithoutCitations(claims: seq<ClaimInput>): nat {
    if |claims| == 0 then 0
    else ClaimsWithoutCitations(claims[..|claims| - 1]) + if |claims[|claims| - 1].cited| == 0 then 1 else 0
  }

  lemma {:induction false} ChunkPart(chunks: seq<ChunkInput>, cited: set<string>)
    ensures CountWhere(ChunkNodes(chunks, cited), Unused) == UncitedChunks(chunks, cited)
    ensures CountWhere(ChunkNodes(chunks, cited), Unsupported) == 0
  {
    if |chunks| > 0 {
      ChunkPart(chunks[..|chunks| - 1], cited);
    }
  }

  lemma {:induction false} ClaimPart(claims: seq<ClaimInput>)
    ensures CountWhere(ClaimNodes(claims), Unsupported) == ClaimsWithoutCitations(claims)
    ensures CountWhere(ClaimNodes(claims), Unused) == 0
  {
    if |claims| > 0 {
      ClaimPart(claims[..|claims| - 1]);
    }
  }

  /** The summary of a built graph counts what it says it counts: retrieved chunks no
      claim cites, and claims that cite nothing. */
  lemma SummaryCounts(chunks: seq<ChunkInput>, claims: seq<ClaimInput>)
    ensures CountWhere(EvidenceGraphOf(chunks, claims).nodes, Unused) == UncitedChunks(chunks, CitedIds(claims))
    ensures CountWhere(EvidenceGraphOf(chunks, claims).nodes, Unsupported) == ClaimsWithoutCitations(claims)
  {
    hide DocumentIds, DocumentNodes, ChunkNodes, ClaimNodes, CountWhere, CitedIds;
    var d := DocumentNodes(DocumentIds(chunks));
    var c, l := ChunkNodes(chunks, CitedIds(claims)), ClaimNodes(claims);
    var q, a := [Node(QueryNode, QUERY, None, None)], [Node(AnswerNode, ANSWER, None, None)];
    DocumentPartsAre(DocumentIds(chunks));
    ChunkPart(chunks, CitedIds(claims));
    ClaimPart(claims);
    forall p | p == Unused || p == Unsupported
      ensures CountWhere(q + d + c + a + l, p) == CountWhere(c, p) + CountWhere(l, p)
    {
      NoneCounted(q, p);
      NoneCounted(d, p);
      NoneCounted(a, p);
      CountWhereConcat(q, d, p);
      CountWhereConcat(q + d, c, p);
      CountWhereConcat(q + d + c, a, p);
      CountWhereConcat(q + d + c + a, l, p);
    }
  }
}
