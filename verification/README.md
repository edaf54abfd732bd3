# SPADE provenance graph and query cache, in Dafny

This project models two pieces of SPADE (Support for Provenance Auditing in
Distributed Environments). The first is the in-memory provenance `Graph`. It is
a set of vertices and a set of edges with idempotent insertion, and it has
static `intersection` and `union` operations. The second is the `Cache` that sits
over it. The cache holds a set of result graphs, each carrying the query string
it answers, searched by a linear scan. It also holds a main graph into which
reporters feed vertices and edges.

Modules, leaf first:

- `Wrappers` (`wrappers.dfy`): `Option` stands for a Java reference that may be
  null. `Result` stands for an operation that may throw.
- `Entities` (`entities.dfy`): vertices are annotation maps. An edge is its two
  endpoint vertices plus its annotations. Both are compared by value. This file
  also holds `String.equalsIgnoreCase` and the "Network" boundary classification.
- `Graphs` (`graph.dfy`): the `Graph` value and its constructor. It also holds
  `putVertex`, `putEdge`, `intersection`, `union`, the set difference used by
  the cache's removal, and the algebraic laws.
- `QueryCache` (`cache.dfy`): the cache state and the static instance field. It
  holds every cache operation, plus lemmas that relate lookups to
  `addGraph`/`removeGraph` and relate counts to `addVertex`/`addEdge`.

Modelling choices:

- Java mutates objects in place. Here each mutator is a function from the old
  value to the new one. The getters `vertexSet()`, `edgeSet()` and `getCache()`
  are the datatype fields `vertices`, `edges` and `mainGraph`. Because graphs are
  values, `intersection` and `union` leave their operands unchanged by
  construction. Their results are fresh graphs whose `details` (and query
  string) are empty.
- `putVertex` reads the `"type"` annotation before it inserts anything. For a
  vertex without that annotation the Java code dereferences null. The model
  returns `Failure(MissingTypeAnnotation)` and changes nothing. Otherwise the
  result reports the Java return value (`added`). It also reports whether the
  network trigger fired (`networkTriggered`), which is exactly when the type
  equals "Network" ignoring case.
- `Cache.java` calls `Graph.getQueryString()`, which belongs to a version of
  `Graph` that is not part of this model. The query string is therefore an
  opaque field of the graph value, empty in a new graph.
- `Cache.java` also calls `Graph.remove(graph)`, which is not part of this
  model either. The cache's `removeGraph` models it as set difference on
  vertices and on edges (`Graphs.Difference`).
- The cache's static fields are the `Registry`. Before the first `getInstance`
  the graph set is null, so a static `findValidResponse` made then throws. The
  model returns `Failure(CacheNotInitialised)` in that case.
- `findValidResponse` iterates a `HashSet`. Its iteration order is a parameter
  `order` that lists each cached graph exactly once. The method returns the
  first graph in that order whose query string equals the request. The
  `queryTime` argument is ignored, because the code leaves the time-to-live
  check as a TODO comment.

## Model

| member | source | states |
|---|---|---|
| Entities.GetAnnotation | trunk/SPADE/src/spade/core/Graph.java:49 | the lookup is null exactly when the key is absent, and otherwise yields the stored value |
| Entities.EqualsIgnoreCase | trunk/SPADE/src/spade/core/Graph.java:49 | String.equalsIgnoreCase: true only for strings of equal length, true for identical strings, and symmetric in its two arguments |
| Entities.IsNetworkVertex | trunk/SPADE/src/spade/core/Graph.java:49 | a vertex is a boundary vertex iff it has a "type" annotation that folds letter by letter to "network" |
| Entities.NetworkTypeIgnoresCase | trunk/SPADE/src/spade/core/Graph.java:49 | a type equals "Network" under Java's equalsIgnoreCase iff every character lower-cases to the matching letter of "network", so the KELVIN SIGN counts as 'k' |
| Entities.NetworkExamples | trunk/SPADE/src/spade/core/Graph.java:49-51 | "Network", "NETWORK", "network" and a Kelvin-sign spelling are boundary types; "Process", "Networks" and a vertex with no "type" key are not |
| Graphs.NewGraph | trunk/SPADE/src/spade/core/Graph.java:40-44 | a new graph has no vertices, no edges, empty details and zero elements |
| Graphs.PutVertex | trunk/SPADE/src/spade/core/Graph.java:46-53 | fails iff the vertex has no "type"; otherwise returns true iff the vertex was new, fires the network trigger iff the type is "Network" ignoring case, and leaves vertices = old ∪ {v} with edges and strings unchanged |
| Graphs.PutEdge | trunk/SPADE/src/spade/core/Graph.java:55-58 | returns true iff the edge was new; edges = old ∪ {e}; vertices and strings unchanged |
| Graphs.Intersection | trunk/SPADE/src/spade/core/Graph.java:86-100 | an element is in the result iff it is in both operands; the result is a fresh graph with empty details |
| Graphs.Union | trunk/SPADE/src/spade/core/Graph.java:105-119 | an element is in the result iff it is in either operand; the result is a fresh graph with empty details |
| Graphs.Difference | src/spade/core/Cache.java:57 | the main-graph removal keeps exactly the elements of g that are not in the removed graph, and keeps g's strings |
| Graphs.PutVertexIdempotent | trunk/SPADE/src/spade/core/Graph.java:46-53 | a second identical putVertex returns false and changes nothing; so does inserting a vertex already present |
| Graphs.PutVertexCount | trunk/SPADE/src/spade/core/Graph.java:52 | the vertex count grows by one exactly when putVertex returns true, and otherwise stays the same |
| Graphs.NetworkVertexStillInserted | trunk/SPADE/src/spade/core/Graph.java:49-52 | whenever putVertex returns, a boundary vertex has fired the trigger and has been inserted |
| Graphs.PutEdgeIdempotent | trunk/SPADE/src/spade/core/Graph.java:55-58 | a second identical putEdge returns false and changes nothing; the edge count grows by one exactly when putEdge returns true |
| Graphs.UnionCommutative | trunk/SPADE/src/spade/core/Graph.java:105-119 | union(a, b) == union(b, a) |
| Graphs.IntersectionCommutative | trunk/SPADE/src/spade/core/Graph.java:86-100 | intersection(a, b) == intersection(b, a) |
| Graphs.UnionAssociative | trunk/SPADE/src/spade/core/Graph.java:105-119 | union is associative |
| Graphs.IntersectionAssociative | trunk/SPADE/src/spade/core/Graph.java:86-100 | intersection is associative |
| Graphs.UnionAbsorbsIntersection | trunk/SPADE/src/spade/core/Graph.java:86-119 | union(a, intersection(a, b)) has exactly a's elements; it equals a as a value iff a's details and query string are empty |
| Graphs.IntersectionAbsorbsUnion | trunk/SPADE/src/spade/core/Graph.java:86-119 | intersection(a, union(a, b)) has exactly a's elements |
| Graphs.IntersectionIsGreatestLowerBound | trunk/SPADE/src/spade/core/Graph.java:86-100 | the intersection is a subgraph of each operand, and any common subgraph of both is a subgraph of it |
| Graphs.UnionIsLeastUpperBound | trunk/SPADE/src/spade/core/Graph.java:105-119 | each operand is a subgraph of the union, and any common supergraph of both contains the union |
| Graphs.NewGraphIsUnitAndZero | trunk/SPADE/src/spade/core/Graph.java:86-119 | a new graph is the unit of union (on elements) and the zero of intersection |
| Graphs.DifferenceSplitsGraph | src/spade/core/Cache.java:57 | after removal nothing of the removed graph remains; the survivors and the common part together give back g; the element count never grows |
| QueryCache.NewCache | src/spade/core/Cache.java:48-52 | a new cache has no cached graphs and an empty main graph, so getSize() == 0 |
| QueryCache.GetInstance | src/spade/core/Cache.java:39-46 | the registry afterwards holds the returned instance; an existing instance is returned as is, otherwise the instance is the one the private constructor builds: no cached graphs and an empty main graph |
| QueryCache.GetInstanceStable | src/spade/core/Cache.java:39-46 | a later getInstance returns the same instance and leaves the registry unchanged |
| QueryCache.FirstMatch | src/spade/core/Cache.java:64-71 | the scan returns a graph from the iteration whose query string equals the request, and returns null iff no graph in the iteration has it |
| QueryCache.FirstMatchIsFirst | src/spade/core/Cache.java:64-71 | a graph the scan returns sits at a position where it answers the query and no earlier graph in the iteration does |
| QueryCache.FindValidResponse | src/spade/core/Cache.java:60-72 | fails iff no instance exists yet; otherwise returns the first match in iteration order, which is a cached graph with the requested query string, or null iff no cached graph has it; the query time plays no part |
| QueryCache.AddGraph | src/spade/core/Cache.java:74-77 | the cached set becomes old ∪ {g}; the main graph is unchanged |
| QueryCache.RemoveGraph | src/spade/core/Cache.java:54-58 | g leaves the cached set and every other cached graph stays; the main graph loses g's elements, gains none, and keeps its details and query string |
| QueryCache.AddVertex | src/spade/core/Cache.java:79-82 | fails iff the vertex has no "type"; otherwise reports that the network trigger fired iff the vertex is a Network vertex (also when it is already present), the main graph's vertices become old ∪ {v} while its edges, details and query string stay the same, so the vertex count grows by at most one; the cached set is unchanged, and re-adding a present vertex leaves the cache state unchanged |
| QueryCache.AddEdge | src/spade/core/Cache.java:84-87 | the main graph's edges become old ∪ {e} while its vertices, details and query string stay the same, so the edge count grows by at most one; the cached set is unchanged, and re-adding a present edge changes nothing |
| QueryCache.VertexCount | src/spade/core/Cache.java:94-97 | zero exactly when the main graph has no vertices |
| QueryCache.EdgeCount | src/spade/core/Cache.java:99-102 | zero exactly when the main graph has no edges |
| QueryCache.Size | src/spade/core/Cache.java:104-107 | getSize() counts the main graph's vertices plus edges, and is zero exactly when the main graph is empty |
| QueryCache.IsVertexPresent | src/spade/core/Cache.java:109-112 | the stub always answers false |
| QueryCache.IsEdgePresent | src/spade/core/Cache.java:114-117 | the stub always answers false |
| QueryCache.AddItemEdge | src/spade/core/Cache.java:119-121 | addItem(edge) leaves the cache state unchanged |
| QueryCache.AddItemVertex | src/spade/core/Cache.java:123-125 | addItem(vertex) leaves the cache state unchanged |
| QueryCache.AddGraphThenFound | src/spade/core/Cache.java:60-77 | after addGraph(g), a lookup of g's query string returns non-null in every iteration order |
| QueryCache.RemoveGraphThenNotFound | src/spade/core/Cache.java:54-72 | after removeGraph(g), no lookup returns g, and the other cached graphs are untouched |
| QueryCache.LookupCompleteness | src/spade/core/Cache.java:64-71 | for any iteration order, the scan finds a graph iff some cached graph carries the query string |
| QueryCache.AddItemsFailsOnUntyped | src/spade/core/Cache.java:79-87 | a sequence of addVertex/addEdge calls throws iff one of its vertices lacks a "type" annotation (the partial main graph Java keeps on the throw is not returned) |
| QueryCache.AddItemsAccumulates | src/spade/core/Cache.java:79-87 | a successful sequence of addVertex/addEdge calls leaves the main graph holding the old elements plus exactly the fed ones, and leaves the cached graphs alone |
| QueryCache.AddItemsSizeBound | src/spade/core/Cache.java:79-107 | over a sequence of n addVertex/addEdge calls, getSize() never shrinks and grows by at most n |
| QueryCache.AddItemsTriggers | src/spade/core/Cache.java:79-82 | a successful sequence of addVertex/addEdge calls fires the network trigger exactly for its Network vertices, in call order |
| QueryCache.ReAddingPresentIsNoOp | src/spade/core/Cache.java:79-87 | re-adding typed vertices and edges that are all present leaves the cache unchanged, while the trigger still fires for every Network vertex among them |

## Left out

- The network trigger's socket code is not modelled. It opens a socket to a fixed host, sends a placeholder query and discards both the reply and every exception. It blocks until the peer closes the connection, with no read timeout, and never closes its socket; the model assumes it returns. The model keeps only the boolean saying that the trigger fired, and for the cache a log of the vertices it fired for.
- `export` is not modelled. It formats text for a `PrintStream`, and its edge loop advances the vertex iterator.
- `exportDOT` is not modelled. It delegates to a Graphviz storage class that is not part of this model.
- `Graph.getQueryString` and `Graph.remove` are not part of this model. The query string is an opaque graph field, and removal is set difference.
- Graphs.NewGraph: states that a new graph's query string is empty. This is an assumption, because the constructor that sets it is not part of this model.
- QueryCache.AddGraph: cached graphs are compared by value. Java's `HashSet<Graph>` compares the `Graph` class in Graph.java by object identity, so two equal-content results are one element here but two there.
- QueryCache.Size: counts are unbounded naturals. Java's `int` sizes and their sum would wrap above 2^31 - 1 elements, and that is not modelled.
- Entities.EqualsIgnoreCase: the case mapping covers ASCII letters and the KELVIN SIGN only. That is exact for comparisons against "Network", but not for arbitrary strings.
- Shared references are not modelled. `addGraph` stores the caller's mutable graph, `findValidResponse` returns that same object, and `getCache()` returns the live main graph. In Java, a later `putVertex` on any of them changes what the cache holds. Here graphs are values, so no later call can reach back into the cache.
- Null references are not modelled. `HashSet` accepts `null`, so `addGraph(null)` makes every later `findValidResponse` that reaches it throw. `putEdge(null)` returns true and stores `null`. In the model every graph, vertex and edge is a real value.
- The cache has no expiry, eviction or invalidation, and neither does the model. A TODO comment at Cache.java:62-63 mentions a TTL check.
- `Serializable`, the aliasing of the static fields by the private constructor, and concurrent access are not modelled. They are Java runtime concerns.
- `AbstractVertex` and `AbstractEdge` are not part of this model. A vertex is its annotation map and an edge is its endpoints plus annotations, both compared by value.
- The interactive query client and the typed-value holder of the query language are not modelled. They are console I/O, socket I/O, threads and a two-field record.
