/**
  The in-memory provenance graph: a set of vertices, a set of edges, a free-form
  `details` string and the query string the graph answers (read by the cache).
  Edges may reference vertices that are not in the same graph.
*/
module Graphs {
  import opened Wrappers
  import opened Entities

  datatype Graph = Graph(vertices: set<Vertex>, edges: set<Edge>, details: string, queryString: string)

  /** Thrown by putVertex before inserting anything: the vertex has no "type" annotation. */
  datatype GraphError = MissingTypeAnnotation

  /** What putVertex leaves behind: the new graph, the Java return value, and whether
      the network trigger for a boundary vertex fired. */
  datatype VertexInsertion = VertexInsertion(graph: Graph, added: bool, networkTriggered: bool)

  /** What putEdge leaves behind: the new graph and the Java return value. */
  datatype EdgeInsertion = EdgeInsertion(graph: Graph, added: bool)

  /** Same vertex and edge sets, whatever the details and query strings. */
  predicate SameElements(a: Graph, b: Graph) {
    a.vertices == b.vertices && a.edges == b.edges
  }

  predicate SubgraphOf(a: Graph, b: Graph) {
    a.vertices <= b.vertices && a.edges <= b.edges
  }

  function ElementCount(g: Graph): nat {
    |g.vertices| + |g.edges|
  }

  /** The constructor: no vertices, no edges, empty details. */
  function NewGraph(): (g: Graph)
    ensures g.vertices == {} && g.edges == {}
    ensures g.details == "" && g.queryString == ""
    ensures ElementCount(g) == 0
  {
    Graph({}, {}, "", "")
  }

  /** putVertex: reads the "type" annotation (a missing one is a null dereference),
      fires the network trigger for boundary vertices, then adds the vertex. */
  function PutVertex(g: Graph, v: Vertex): (r: Result<VertexInsertion, GraphError>)
    ensures r.Failure? <==> !HasType(v)
    ensures r.Success? ==> (r.value.added <==> v !in g.vertices)
    ensures r.Success? ==> (r.value.networkTriggered <==> IsNetworkVertex(v))
    ensures r.Success? ==> v in r.value.graph.vertices
    ensures r.Success? ==> forall u :: u in r.value.graph.vertices <==> u == v || u in g.vertices
    ensures r.Success? ==> r.value.graph.edges == g.edges
    ensures r.Success? ==> r.value.graph.details == g.details && r.value.graph.queryString == g.queryString
  {
    match GetAnnotation(v, TypeKey)
    case None => Failure(MissingTypeAnnotation)
    case Some(t) =>
      var triggered := EqualsIgnoreCase(t, NetworkType);
      Success(VertexInsertion(g.(vertices := g.vertices + {v}), v !in g.vertices, triggered))
  }

  /** putEdge: adds the edge; its endpoints need not be in the graph. */
  function PutEdge(g: Graph, e: Edge): (r: EdgeInsertion)
    ensures r.added <==> e !in g.edges
    ensures forall x :: x in r.graph.edges <==> x == e || x in g.edges
    ensures r.graph.vertices == g.vertices
    ensures r.graph.details == g.details && r.graph.queryString == g.queryString
  {
    EdgeInsertion(g.(edges := g.edges + {e}), e !in g.edges)
  }

  /** The static intersection: a fresh graph holding the elements common to both operands. */
  function Intersection(g1: Graph, g2: Graph): (r: Graph)
    ensures forall v :: v in r.vertices <==> v in g1.vertices && v in g2.vertices
    ensures forall e :: e in r.edges <==> e in g1.edges && e in g2.edges
    ensures r.details == "" && r.queryString == ""
  {
    Graph(g1.vertices * g2.vertices, g1.edges * g2.edges, "", "")
  }

  /** The static union: a fresh graph holding the elements of either operand. */
  function Union(g1: Graph, g2: Graph): (r: Graph)
    ensures forall v :: v in r.vertices <==> v in g1.vertices || v in g2.vertices
    ensures forall e :: e in r.edges <==> e in g1.edges || e in g2.edges
    ensures r.details == "" && r.queryString == ""
  {
    Graph(g1.vertices + g2.vertices, g1.edges + g2.edges, "", "")
  }

  /** Removal of every vertex and edge of `h` from `g`, keeping g's strings. */
  function Difference(g: Graph, h: Graph): (r: Graph)
    ensures forall v :: v in r.vertices <==> v in g.vertices && v !in h.vertices
    ensures forall e :: e in r.edges <==> e in g.edges && e !in h.edges
    ensures r.details == g.details && r.queryString == g.queryString
  {
    g.(vertices := g.vertices - h.vertices, edges := g.edges - h.edges)
  }

  // ---------------------------------------------------------------- insertion laws

  /** Inserting a vertex that is already present returns false and changes nothing;
      so a second identical putVertex is a no-op. */
  lemma PutVertexIdempotent(g: Graph, v: Vertex)
    requires HasType(v)
    ensures PutVertex(g, v).Success?
    ensures var g1 := PutVertex(g, v).value.graph;
      PutVertex(g1, v).Success? && !PutVertex(g1, v).value.added && PutVertex(g1, v).value.graph == g1
    ensures v in g.vertices ==> PutVertex(g, v).value.graph == g
  {
  }

  /** The vertex count grows by one exactly when putVertex reports a new vertex. */
  lemma PutVertexCount(g: Graph, v: Vertex)
    requires HasType(v)
    ensures var r := PutVertex(g, v).value;
      |r.graph.vertices| == if r.added then |g.vertices| + 1 else |g.vertices|
  {
    var r := PutVertex(g, v).value;
    if r.added {
      assert r.graph.vertices == g.vertices + {v};
    } else {
      assert r.graph.vertices == g.vertices;
    }
  }

  /** Whenever putVertex returns, a boundary vertex has fired the trigger and has been inserted. */
  lemma NetworkVertexStillInserted(g: Graph, v: Vertex)
    requires IsNetworkVertex(v)
    ensures PutVertex(g, v).Success?
    ensures PutVertex(g, v).value.networkTriggered
    ensures v in PutVertex(g, v).value.graph.vertices
  {
  }

  lemma PutEdgeIdempotent(g: Graph, e: Edge)
    ensures var g1 := PutEdge(g, e).graph;
      !PutEdge(g1, e).added && PutEdge(g1, e).graph == g1
    ensures |PutEdge(g, e).graph.edges| == if PutEdge(g, e).added then |g.edges| + 1 else |g.edges|
  {
    var r := PutEdge(g, e);
    if r.added {
      assert r.graph.edges == g.edges + {e};
    } else {
      assert r.graph.edges == g.edges;
    }
  }

  // ---------------------------------------------------------------- set algebra laws

  lemma UnionCommutative(a: Graph, b: Graph)
    ensures Union(a, b) == Union(b, a)
  {
  }

  lemma IntersectionCommutative(a: Graph, b: Graph)
    ensures Intersection(a, b) == Intersection(b, a)
  {
  }

  lemma UnionAssociative(a: Graph, b: Graph, c: Graph)
    ensures Union(Union(a, b), c) == Union(a, Union(b, c))
  {
  }

  lemma IntersectionAssociative(a: Graph, b: Graph, c: Graph)
    ensures Intersection(Intersection(a, b), c) == Intersection(a, Intersection(b, c))
  {
  }

  /** Union absorbs intersection. The result is a fresh graph, so only the
      element sets agree with `a`: its details and query string are empty. */
  lemma UnionAbsorbsIntersection(a: Graph, b: Graph)
    ensures SameElements(Union(a, Intersection(a, b)), a)
    ensures Union(a, Intersection(a, b)) == a <==> a.details == "" && a.queryString == ""
  {
  }

  lemma IntersectionAbsorbsUnion(a: Graph, b: Graph)
    ensures SameElements(Intersection(a, Union(a, b)), a)
  {
  }

  /** The intersection is the greatest common subgraph of its operands. */
  lemma IntersectionIsGreatestLowerBound(a: Graph, b: Graph, h: Graph)
    ensures SubgraphOf(Intersection(a, b), a) && SubgraphOf(Intersection(a, b), b)
    ensures SubgraphOf(h, a) && SubgraphOf(h, b) <==> SubgraphOf(h, Intersection(a, b))
  {
  }

  /** The union is the least common supergraph of its operands. */
  lemma UnionIsLeastUpperBound(a: Graph, b: Graph, h: Graph)
    ensures SubgraphOf(a, Union(a, b)) && SubgraphOf(b, Union(a, b))
    ensures SubgraphOf(a, h) && SubgraphOf(b, h) <==> SubgraphOf(Union(a, b), h)
  {
  }

  /** The new graph is the unit of union and the zero of intersection. */
  lemma NewGraphIsUnitAndZero(a: Graph)
    ensures SameElements(Union(a, NewGraph()), a)
    ensures Intersection(a, NewGraph()) == NewGraph()
  {
  }

  /** Removing `h` leaves nothing of `h`, and what was removed is exactly the common part. */
  lemma DifferenceSplitsGraph(g: Graph, h: Graph)
    ensures SameElements(Intersection(Difference(g, h), h), NewGraph())
    ensures SameElements(Union(Difference(g, h), Intersection(g, h)), g)
    ensures ElementCount(Difference(g, h)) <= ElementCount(g)
  {
  }
}
