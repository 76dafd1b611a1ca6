/** The declaration graph: which header each ordering hint names, and in which order the
    hints of a header are followed. */
module DependencyGraph {
  import opened Wrappers
  import opened Sorting
  import opened Bytes

  datatype HeaderKind = TopLevel | StartFunction

  datatype Header = Header(path: Path, sourceFile: Path, hints: seq<Path>, kind: HeaderKind)

  /** What the sort reads from outside: the string table, the portable spelling of a path, and
      the names each source-backed package exports. */
  datatype Symbols = Symbols(
    resolve: nat -> Text,
    portable: Path -> Text,
    packageExports: map<Text, set<nat>>)

  datatype Graph = Graph(
    headersByPath: map<Path, Header>,
    sourceOrder: map<Path, nat>,
    orderedPaths: seq<Path>)

  datatype EdgeKind = GraphHeader | PackageExport | SameFileHint | Missing

  datatype Edge = Edge(requested: Path, resolved: Option<Path>, sourceOrder: Option<nat>, kind: EdgeKind)

  datatype ResolvedPath = ResolvedHeader(path: Path) | ResolvedExport(path: Path)

  const USIZE_MAX: nat := TWO_TO_64 - 1

  function PathOf(header: Header): Path {
    header.path
  }

  // ---------------------------------------------------------------- construction

  /** The graph of the headers read so far. A repeated path keeps its last header. */
  function GraphOf(headers: seq<Header>): (g: Graph)
    ensures g.orderedPaths == Map(PathOf, headers)
    ensures g.headersByPath.Keys == g.sourceOrder.Keys == set p | p in g.orderedPaths
    ensures forall p :: p in g.headersByPath ==> g.headersByPath[p] in headers && g.headersByPath[p].path == p
  {
    if headers == [] then Graph(map[], map[], [])
    else
      var last := |headers| - 1;
      assert headers == headers[..last] + [headers[last]];
      WithHeader(GraphOf(headers[..last]), headers[last])
  }

  function WithHeader(g: Graph, header: Header): Graph {
    Graph(
      g.headersByPath[header.path := header],
      g.sourceOrder[header.path := |g.orderedPaths|],
      g.orderedPaths + [header.path])
  }

  method FromHeaders(headers: seq<Header>) returns (g: Graph)
    ensures g == GraphOf(headers)
  {
    g := Graph(map[], map[], []);
    for i := 0 to |headers|
      invariant g == GraphOf(headers[..i])
    {
      assert headers[..i + 1][..i] == headers[..i];
      g := WithHeader(g, headers[i]);
    }
    assert headers[..|headers|] == headers;
  }

  predicate DistinctPaths(headers: seq<Header>) {
    forall i, j :: 0 <= i < j < |headers| ==> headers[i].path != headers[j].path
  }

  /** With distinct paths every header is found, at its own position. */
  lemma {:induction false} DistinctGraph(headers: seq<Header>)
    requires DistinctPaths(headers)
    ensures forall i :: 0 <= i < |headers| ==>
        && headers[i].path in GraphOf(headers).headersByPath
        && GraphOf(headers).headersByPath[headers[i].path] == headers[i]
        && GraphOf(headers).sourceOrder[headers[i].path] == i
  {
    if headers != [] {
      DistinctGraph(headers[..|headers| - 1]);
    }
  }

  // ---------------------------------------------------------------- resolution

  predicate IsPackageExport(symbols: Symbols, path: Path) {
    && path != []
    && var package := symbols.resolve(path[0]);
    && package in symbols.packageExports
    && path[|path| - 1] in symbols.packageExports[package]
  }

  function ResolveRequestedPath(g: Graph, symbols: Symbols, requested: Path): Option<ResolvedPath> {
    if requested in g.headersByPath then Some(ResolvedHeader(requested))
    else if IsPackageExport(symbols, requested) then Some(ResolvedExport(requested))
    else None
  }

  function SourceOrderOf(g: Graph, symbols: Symbols, requested: Path): Option<nat> {
    match ResolveRequestedPath(g, symbols, requested)
    case Some(ResolvedHeader(path)) =>
      if path in g.sourceOrder then Some(g.sourceOrder[path]) else None
    case _ => None
  }

  /** The hint names a child of the header's own file. */
  predicate IsSameFileHint(path: Path, sourceFile: Path) {
    path != [] && path[..|path| - 1] == sourceFile
  }

  function ResolveEdge(g: Graph, symbols: Symbols, header: Header, hint: Path): Edge {
    var order := SourceOrderOf(g, symbols, hint);
    match ResolveRequestedPath(g, symbols, hint)
    case Some(ResolvedHeader(path)) => Edge(hint, Some(path), order, GraphHeader)
    case Some(ResolvedExport(path)) => Edge(hint, Some(path), order, PackageExport)
    case None =>
      if IsSameFileHint(hint, header.sourceFile) then Edge(hint, None, order, SameFileHint)
      else Edge(hint, None, order, Missing)
  }

  /** The four-way classification of a hint, from the header paths alone. */
  function Classify(paths: set<Path>, symbols: Symbols, sourceFile: Path, hint: Path): EdgeKind {
    if hint in paths then GraphHeader
    else if IsPackageExport(symbols, hint) then PackageExport
    else if IsSameFileHint(hint, sourceFile) then SameFileHint
    else Missing
  }

  lemma EdgeIsClassified(g: Graph, symbols: Symbols, header: Header, hint: Path)
    ensures var e := ResolveEdge(g, symbols, header, hint);
      && e.requested == hint
      && e.kind == Classify(g.headersByPath.Keys, symbols, header.sourceFile, hint)
      && (e.kind.GraphHeader? ==> e.resolved == Some(hint) && hint in g.headersByPath)
      && (e.kind.PackageExport? ==> e.resolved == Some(hint) && hint !in g.headersByPath)
  {
  }

  // ---------------------------------------------------------------- edge order

  function EdgeOrder(e: Edge): nat {
    match e.sourceOrder
    case Some(order) => order
    case None => USIZE_MAX
  }

  /** Source order first, unresolved edges last, ties by portable spelling. */
  predicate EdgeLeq(symbols: Symbols, a: Edge, b: Edge) {
    if EdgeOrder(a) == EdgeOrder(b)
    then BytesLeq(symbols.portable(a.requested), symbols.portable(b.requested))
    else EdgeOrder(a) < EdgeOrder(b)
  }

  function SortedEdges(g: Graph, symbols: Symbols, header: Header): (edges: seq<Edge>)
    ensures |edges| == |header.hints|
  {
    SortBy((a, b) => EdgeLeq(symbols, a, b), Map(hint => ResolveEdge(g, symbols, header, hint), header.hints))
  }

  /** The sorted edges are the resolved hints, each as often as it is hinted. */
  lemma SortedEdgesFromHints(g: Graph, symbols: Symbols, header: Header)
    ensures forall e :: e in SortedEdges(g, symbols, header) ==>
        exists k :: 0 <= k < |header.hints| && e == ResolveEdge(g, symbols, header, header.hints[k])
    ensures forall k :: 0 <= k < |header.hints| ==>
        ResolveEdge(g, symbols, header, header.hints[k]) in SortedEdges(g, symbols, header)
  {
    var edges := Map(hint => ResolveEdge(g, symbols, header, hint), header.hints);
    var sorted := SortedEdges(g, symbols, header);
    forall e | e in sorted
      ensures exists k :: 0 <= k < |header.hints| && e == ResolveEdge(g, symbols, header, header.hints[k])
    {
      assert e in multiset(sorted);
      assert e in multiset(edges);
      var k :| 0 <= k < |edges| && edges[k] == e;
    }
    forall k | 0 <= k < |header.hints|
      ensures ResolveEdge(g, symbols, header, header.hints[k]) in sorted
    {
      assert edges[k] in multiset(edges);
      assert edges[k] in multiset(sorted);
    }
  }

  /** Distinct paths are spelled differently. */
  ghost predicate InjectiveSpelling(symbols: Symbols) {
    forall p, q :: symbols.portable(p) == symbols.portable(q) ==> p == q
  }

  lemma EdgeLeqFacts(symbols: Symbols, a: Edge, b: Edge, c: Edge)
    ensures EdgeLeq(symbols, a, b) || EdgeLeq(symbols, b, a)
    ensures EdgeLeq(symbols, a, b) && EdgeLeq(symbols, b, c) ==> EdgeLeq(symbols, a, c)
    ensures EdgeLeq(symbols, a, b) && EdgeLeq(symbols, b, a) ==>
        symbols.portable(a.requested) == symbols.portable(b.requested)
  {
    BytesLinear();
    var x, y, z := symbols.portable(a.requested), symbols.portable(b.requested), symbols.portable(c.requested);
    assert BytesLeq(x, y) || BytesLeq(y, x);
    assert BytesLeq(x, y) && BytesLeq(y, z) ==> BytesLeq(x, z);
    assert BytesLeq(x, y) && BytesLeq(y, x) ==> x == y;
  }

  lemma EdgeLeqPreorder(symbols: Symbols)
    ensures TotalPreorder((a, b) => EdgeLeq(symbols, a, b))
  {
    forall a, b, c
      ensures EdgeLeq(symbols, a, b) || EdgeLeq(symbols, b, a)
      ensures EdgeLeq(symbols, a, b) && EdgeLeq(symbols, b, c) ==> EdgeLeq(symbols, a, c)
    {
      EdgeLeqFacts(symbols, a, b, c);
    }
  }

  /** The order in which hints are written does not reach the sorted edges. */
  lemma HintOrderIrrelevant(g: Graph, symbols: Symbols, h1: Header, h2: Header)
    requires InjectiveSpelling(symbols)
    requires h1.sourceFile == h2.sourceFile && multiset(h1.hints) == multiset(h2.hints)
    ensures SortedEdges(g, symbols, h1) == SortedEdges(g, symbols, h2)
  {
    var leq := (a, b) => EdgeLeq(symbols, a, b);
    var edge1 := hint => ResolveEdge(g, symbols, h1, hint);
    var edge2 := hint => ResolveEdge(g, symbols, h2, hint);
    var edges := Map(edge1, h1.hints);
    assert Map(edge2, h2.hints) == Map(edge1, h2.hints);
    SameImagesOfSame(edge1, h1.hints, h2.hints);
    EdgeLeqPreorder(symbols);
    forall x, y | x in edges && y in edges && leq(x, y) && leq(y, x)
      ensures x == y
    {
      EdgeLeqFacts(symbols, x, y, y);
    }
    SortWithoutTies(leq, edges, Map(edge2, h2.hints));
  }
}
