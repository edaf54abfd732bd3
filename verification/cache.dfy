/**
  The query-result cache: a set of cached result graphs, each answering the query
  in its query string, and a main graph accumulating vertices and edges. Each
  mutating operation is a function from the old cache state to the new one.
  The single process-wide instance lives in a `Registry`, the static field.
*/
module QueryCache {
  import opened Wrappers
  import opened Entities
  import opened Graphs

  datatype Cache = Cache(cachedGraphs: set<Graph>, mainGraph: Graph)

  /** The static `cacheInstance` field: absent until the first getInstance. */
  datatype Registry = Registry(instance: Option<Cache>)

  /** A static lookup made before any instance exists reads a null graph set. */
  datatype CacheError = CacheNotInitialised

  /** One item handed to the cache by a reporter. */
  datatype Item = VertexItem(vertex: Vertex) | EdgeItem(edge: Edge)

  /** What addVertex leaves behind: the new cache and whether putVertex fired the
      network trigger on the way. */
  datatype CacheInsertion = CacheInsertion(cache: Cache, networkTriggered: bool)

  /** What a run of addVertex/addEdge calls leaves behind: the final cache and the
      vertices for which the network trigger fired, in call order. */
  datatype Feed = Feed(cache: Cache, triggered: seq<Vertex>)

  /** The private constructor: nothing cached, an empty main graph. */
  function NewCache(): (c: Cache)
    ensures c.cachedGraphs == {}
    ensures Size(c) == 0
    ensures c.mainGraph.details == ""
  {
    Cache({}, NewGraph())
  }

  /** getInstance: creates the instance on the first call and returns it on every call. */
  function GetInstance(reg: Registry): (r: (Registry, Cache))
    ensures r.0.instance == Some(r.1)
    ensures reg.instance.Some? ==> r.0 == reg && r.1 == reg.instance.value
    ensures reg.instance.None? ==> r.1.cachedGraphs == {} && Size(r.1) == 0
    ensures reg.instance.None? ==> r.1 == NewCache()
  {
    match reg.instance
    case Some(c) => (reg, c)
    case None => var c := NewCache(); (Registry(Some(c)), c)
  }

  /** Later calls return the same instance and leave the registry alone. */
  lemma GetInstanceStable(reg: Registry)
    ensures var (reg1, c1) := GetInstance(reg);
      GetInstance(reg1) == (reg1, c1)
  {
  }

  /** A cached graph answering `query` exists. */
  predicate HasResponse(c: Cache, query: string) {
    exists g :: g in c.cachedGraphs && g.queryString == query
  }

  /** `order` lists every cached graph exactly once: the HashSet's iteration order. */
  ghost predicate Enumerates(order: seq<Graph>, s: set<Graph>) {
    && (forall g :: g in order <==> g in s)
    && (forall i, j :: 0 <= i < j < |order| ==> order[i] != order[j])
  }

  /** The first graph in `order` whose query string is `query`. */
  function FirstMatch(order: seq<Graph>, query: string): (r: Option<Graph>)
    ensures r.Some? ==> r.value in order && r.value.queryString == query
    ensures r.None? <==> forall g :: g in order ==> g.queryString != query
  {
    if |order| == 0 then None
    else if order[0].queryString == query then Some(order[0])
    else FirstMatch(order[1..], query)
  }

  /** Position i holds the first graph in `order` answering `query`. */
  ghost predicate FirstAt(order: seq<Graph>, query: string, i: int) {
    && 0 <= i < |order|
    && order[i].queryString == query
    && forall j :: 0 <= j < i ==> order[j].queryString != query
  }

  /** The scan's answer is the first answering graph of the iteration order. */
  lemma {:induction false} FirstMatchIsFirst(order: seq<Graph>, query: string)
    ensures FirstMatch(order, query).Some? ==>
      exists i :: FirstAt(order, query, i) && order[i] == FirstMatch(order, query).value
    decreases |order|
  {
    if |order| > 0 {
      if order[0].queryString == query {
        assert FirstAt(order, query, 0);
      } else {
        var tail := order[1..];
        FirstMatchIsFirst(tail, query);
        if FirstMatch(order, query).Some? {
          var k :| FirstAt(tail, query, k) && tail[k] == FirstMatch(tail, query).value;
          assert forall j :: 0 < j <= k ==> order[j] == tail[j - 1];
          assert FirstAt(order, query, k + 1);
        }
      }
    }
  }

  /** findValidResponse: a linear scan of the cached graphs in iteration order.
      The query time is not consulted; before getInstance the static set is null. */
  method FindValidResponse(reg: Registry, order: seq<Graph>, query: string, queryTime: string)
    returns (r: Result<Option<Graph>, CacheError>)
    requires reg.instance.Some? ==> Enumerates(order, reg.instance.value.cachedGraphs)
    ensures r.Failure? <==> reg.instance.None?
    ensures r.Success? ==> r.value == FirstMatch(order, query)
    ensures r.Success? && r.value.Some? ==>
      r.value.value in reg.instance.value.cachedGraphs && r.value.value.queryString == query
    ensures r.Success? ==> (r.value.None? <==> !HasResponse(reg.instance.value, query))
  {
    if reg.instance.None? {
      return Failure(CacheNotInitialised);
    }
    var i := 0;
    while i < |order|
      invariant 0 <= i <= |order|
      invariant FirstMatch(order[i..], query) == FirstMatch(order, query)
    {
      if order[i].queryString == query {
        return Success(Some(order[i]));
      }
      assert order[i..][1..] == order[i + 1..];
      i := i + 1;
    }
    return Success(None);
  }

  /** addGraph: caches a result graph. */
  function AddGraph(c: Cache, g: Graph): (r: Cache)
    ensures g in r.cachedGraphs
    ensures forall h :: h in r.cachedGraphs <==> h == g || h in c.cachedGraphs
    ensures r.mainGraph == c.mainGraph
  {
    c.(cachedGraphs := c.cachedGraphs + {g})
  }

  /** removeGraph: drops a cached graph and removes its elements from the main graph. */
  function RemoveGraph(c: Cache, g: Graph): (r: Cache)
    ensures g !in r.cachedGraphs
    ensures forall h :: h in r.cachedGraphs <==> h != g && h in c.cachedGraphs
    ensures SameElements(r.mainGraph, Difference(c.mainGraph, g))
    ensures SubgraphOf(r.mainGraph, c.mainGraph)
    ensures r.mainGraph.details == c.mainGraph.details && r.mainGraph.queryString == c.mainGraph.queryString
  {
    Cache(c.cachedGraphs - {g}, Difference(c.mainGraph, g))
  }

  /** addVertex: putVertex on the main graph, whose failure propagates. The network
      trigger fires for every Network vertex, also one that is already present. */
  function AddVertex(c: Cache, v: Vertex): (r: Result<CacheInsertion, GraphError>)
    ensures r.Failure? <==> !HasType(v)
    ensures r.Success? ==> (r.value.networkTriggered <==> IsNetworkVertex(v))
    ensures r.Success? ==> v in r.value.cache.mainGraph.vertices
    ensures r.Success? ==> r.value.cache.mainGraph.vertices == c.mainGraph.vertices + {v}
    ensures r.Success? ==> r.value.cache.mainGraph.edges == c.mainGraph.edges
    ensures r.Success? ==> VertexCount(c) <= VertexCount(r.value.cache) <= VertexCount(c) + 1
    ensures r.Success? ==> EdgeCount(r.value.cache) == EdgeCount(c)
    ensures r.Success? && v in c.mainGraph.vertices ==> r.value.cache == c
    ensures r.Success? ==> r.value.cache.cachedGraphs == c.cachedGraphs
    ensures r.Success? ==> r.value.cache.mainGraph.details == c.mainGraph.details
    ensures r.Success? ==> r.value.cache.mainGraph.queryString == c.mainGraph.queryString
  {
    var ins :- PutVertex(c.mainGraph, v);
    PutVertexCount(c.mainGraph, v);
    Success(CacheInsertion(c.(mainGraph := ins.graph), ins.networkTriggered))
  }

  /** addEdge: putEdge on the main graph. */
  function AddEdge(c: Cache, e: Edge): (r: Cache)
    ensures e in r.mainGraph.edges
    ensures r.mainGraph.edges == c.mainGraph.edges + {e}
    ensures r.mainGraph.vertices == c.mainGraph.vertices
    ensures EdgeCount(c) <= EdgeCount(r) <= EdgeCount(c) + 1
    ensures VertexCount(r) == VertexCount(c)
    ensures e in c.mainGraph.edges ==> r == c
    ensures r.cachedGraphs == c.cachedGraphs
    ensures r.mainGraph.details == c.mainGraph.details && r.mainGraph.queryString == c.mainGraph.queryString
  {
    PutEdgeIdempotent(c.mainGraph, e);
    c.(mainGraph := PutEdge(c.mainGraph, e).graph)
  }

  /** getVertexCount: the number of vertices in the main graph. */
  function VertexCount(c: Cache): (n: nat)
    ensures n == 0 <==> c.mainGraph.vertices == {}
  {
    |c.mainGraph.vertices|
  }

  /** getEdgeCount: the number of edges in the main graph. */
  function EdgeCount(c: Cache): (n: nat)
    ensures n == 0 <==> c.mainGraph.edges == {}
  {
    |c.mainGraph.edges|
  }

  /** getSize: vertices plus edges of the main graph. */
  function Size(c: Cache): (n: nat)
    ensures n == 0 <==> c.mainGraph.vertices == {} && c.mainGraph.edges == {}
    ensures n == ElementCount(c.mainGraph)
  {
    VertexCount(c) + EdgeCount(c)
  }

  /** isVertexPresent: an unimplemented stub that always answers no. */
  function IsVertexPresent(vertexHash: string): (r: bool)
    ensures !r
  {
    false
  }

  /** isEdgePresent: an unimplemented stub that always answers no. */
  function IsEdgePresent(edgeHash: string): (r: bool)
    ensures !r
  {
    false
  }

  /** addItem(AbstractVertex): an empty static method. */
  function AddItemVertex(reg: Registry, v: Vertex): (r: Registry)
    ensures r == reg
  {
    reg
  }

  /** addItem(AbstractEdge): an empty static method. */
  function AddItemEdge(reg: Registry, e: Edge): (r: Registry)
    ensures r == reg
  {
    reg
  }

  // ---------------------------------------------------------------- lookup after mutation

  /** After addGraph(g), a lookup of g's query string finds a response. */
  lemma AddGraphThenFound(c: Cache, g: Graph, order: seq<Graph>)
    requires Enumerates(order, AddGraph(c, g).cachedGraphs)
    ensures HasResponse(AddGraph(c, g), g.queryString)
    ensures FirstMatch(order, g.queryString).Some?
  {
  }

  /** After removeGraph(g), no lookup returns g, and every other cached graph remains. */
  lemma RemoveGraphThenNotFound(c: Cache, g: Graph, order: seq<Graph>, query: string)
    requires Enumerates(order, RemoveGraph(c, g).cachedGraphs)
    ensures FirstMatch(order, query) != Some(g)
    ensures forall h :: h in c.cachedGraphs && h != g ==> h in RemoveGraph(c, g).cachedGraphs
  {
  }

  /** Lookup answers a query exactly when some cached graph carries it. */
  lemma LookupCompleteness(c: Cache, order: seq<Graph>, query: string)
    requires Enumerates(order, c.cachedGraphs)
    ensures FirstMatch(order, query).Some? <==> HasResponse(c, query)
  {
  }

  // ---------------------------------------------------------------- accumulation

  /** A reporter handing the cache a stream of items: addVertex/addEdge in order,
      stopping at the first vertex whose putVertex throws. On failure only the
      error is kept: the elements added before the bad vertex, which Java leaves
      in the main graph, are not part of the result. */
  function AddItems(c: Cache, items: seq<Item>): Result<Feed, GraphError>
    decreases |items|
  {
    if |items| == 0 then Success(Feed(c, []))
    else
      match items[0]
      case VertexItem(v) =>
        var ins :- AddVertex(c, v);
        var rest :- AddItems(ins.cache, items[1..]);
        Success(Feed(rest.cache, (if ins.networkTriggered then [v] else []) + rest.triggered))
      case EdgeItem(e) =>
        AddItems(AddEdge(c, e), items[1..])
  }

  /** The Network vertices among the items, in order: where the trigger must fire. */
  function NetworkItems(items: seq<Item>): seq<Vertex>
    decreases |items|
  {
    if |items| == 0 then []
    else
      (if items[0].VertexItem? && IsNetworkVertex(items[0].vertex) then [items[0].vertex] else [])
      + NetworkItems(items[1..])
  }

  function ItemVertices(items: seq<Item>): set<Vertex> {
    set i | 0 <= i < |items| && items[i].VertexItem? :: items[i].vertex
  }

  function ItemEdges(items: seq<Item>): set<Edge> {
    set i | 0 <= i < |items| && items[i].EdgeItem? :: items[i].edge
  }

  /** Every vertex item carries a "type" annotation. */
  predicate AllTyped(items: seq<Item>) {
    forall i :: 0 <= i < |items| && items[i].VertexItem? ==> HasType(items[i].vertex)
  }

  lemma TailFacts(items: seq<Item>)
    requires |items| > 0
    ensures AllTyped(items) <==> (items[0].VertexItem? ==> HasType(items[0].vertex)) && AllTyped(items[1..])
    ensures ItemVertices(items) == (if items[0].VertexItem? then {items[0].vertex} else {}) + ItemVertices(items[1..])
    ensures ItemEdges(items) == (if items[0].EdgeItem? then {items[0].edge} else {}) + ItemEdges(items[1..])
  {
  }

  /** Feeding items fails exactly when some vertex item lacks a type. */
  lemma {:induction false} AddItemsFailsOnUntyped(c: Cache, items: seq<Item>)
    ensures AddItems(c, items).Failure? <==> !AllTyped(items)
    decreases |items|
  {
    if |items| > 0 {
      TailFacts(items);
      match items[0]
      case VertexItem(v) =>
        if HasType(v) {
          AddItemsFailsOnUntyped(AddVertex(c, v).value.cache, items[1..]);
        }
      case EdgeItem(e) =>
        AddItemsFailsOnUntyped(AddEdge(c, e), items[1..]);
    }
  }

  /** A successful feed adds exactly the fed elements to the main graph and leaves
      the cached graphs alone. */
  lemma {:induction false} AddItemsAccumulates(c: Cache, items: seq<Item>)
    requires AddItems(c, items).Success?
    ensures AddItems(c, items).value.cache.mainGraph.vertices == c.mainGraph.vertices + ItemVertices(items)
    ensures AddItems(c, items).value.cache.mainGraph.edges == c.mainGraph.edges + ItemEdges(items)
    ensures AddItems(c, items).value.cache.cachedGraphs == c.cachedGraphs
    decreases |items|
  {
    if |items| > 0 {
      TailFacts(items);
      match items[0]
      case VertexItem(v) =>
        var next := AddVertex(c, v).value.cache;
        assert AddItems(next, items[1..]).Success?;
        assert AddItems(c, items).value.cache == AddItems(next, items[1..]).value.cache;
        AddItemsAccumulates(next, items[1..]);
      case EdgeItem(e) =>
        var next := AddEdge(c, e);
        assert AddItems(c, items) == AddItems(next, items[1..]);
        AddItemsAccumulates(next, items[1..]);
    }
  }

  /** Each fed item grows getSize by at most one and never shrinks it. */
  lemma {:induction false} AddItemsSizeBound(c: Cache, items: seq<Item>)
    requires AddItems(c, items).Success?
    ensures Size(c) <= Size(AddItems(c, items).value.cache) <= Size(c) + |items|
    decreases |items|
  {
    if |items| > 0 {
      match items[0]
      case VertexItem(v) =>
        AddItemsSizeBound(AddVertex(c, v).value.cache, items[1..]);
      case EdgeItem(e) =>
        AddItemsSizeBound(AddEdge(c, e), items[1..]);
    }
  }

  /** A successful run fires the network trigger exactly for its Network vertices, in order. */
  lemma {:induction false} AddItemsTriggers(c: Cache, items: seq<Item>)
    requires AddItems(c, items).Success?
    ensures AddItems(c, items).value.triggered == NetworkItems(items)
    decreases |items|
  {
    if |items| > 0 {
      match items[0]
      case VertexItem(v) =>
        AddItemsTriggers(AddVertex(c, v).value.cache, items[1..]);
      case EdgeItem(e) =>
        AddItemsTriggers(AddEdge(c, e), items[1..]);
    }
  }

  /** Re-adding elements that are all present leaves the cache unchanged, yet the
      network trigger still fires for every Network vertex among them. */
  lemma {:induction false} ReAddingPresentIsNoOp(c: Cache, items: seq<Item>)
    requires forall i :: 0 <= i < |items| && items[i].VertexItem? ==>
      HasType(items[i].vertex) && items[i].vertex in c.mainGraph.vertices
    requires forall i :: 0 <= i < |items| && items[i].EdgeItem? ==> items[i].edge in c.mainGraph.edges
    ensures AddItems(c, items) == Success(Feed(c, NetworkItems(items)))
    decreases |items|
  {
    if |items| > 0 {
      var rest := items[1..];
      assert forall i :: 0 <= i < |rest| ==> rest[i] == items[i + 1];
      ReAddingPresentIsNoOp(c, rest);
      match items[0]
      case VertexItem(v) =>
        var ins := AddVertex(c, v).value;
        assert ins.cache == c;
        assert AddItems(c, items)
          == Success(Feed(c, (if ins.networkTriggered then [v] else []) + NetworkItems(rest)));
      case EdgeItem(e) =>
        assert AddEdge(c, e) == c;
        assert NetworkItems(items) == NetworkItems(rest);
        assert AddItems(c, items) == AddItems(c, rest);
    }
  }
}
