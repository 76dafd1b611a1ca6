/** The module dependency sort: the tracker and the recursive visits in the source's own form,
    and what the sort as a whole promises. */
module ModuleDependencies {
  import opened Wrappers
  import opened Sorting
  import opened Bytes
  import opened DependencyGraph
  import Order = DependencyOrder

  type State = Order.State
  type Table = Order.Table
  type VisitOutcome = Order.VisitOutcome
  type Diagnostic = Order.Diagnostic

  datatype SortedHeaders = SortedHeaders(
    headers: seq<Header>,
    headerCount: nat,
    edgeCount: nat,
    visitCount: nat)

  // ---------------------------------------------------------------- specification

  function TableOf(g: Graph, symbols: Symbols): Table {
    Order.Table(map p | p in g.headersByPath :: SortedEdges(g, symbols, g.headersByPath[p]), symbols)
  }

  function OfKind(kind: HeaderKind, headers: seq<Header>): (r: seq<Header>)
  {
    if headers == [] then []
    else
      var last := headers[|headers| - 1];
      OfKind(kind, headers[..|headers| - 1]) + if last.kind == kind then [last] else []
  }

  function HintCount(headers: seq<Header>): nat {
    if headers == [] then 0
    else HintCount(headers[..|headers| - 1]) + |headers[|headers| - 1].hints|
  }

  function HeadersAt(g: Graph, paths: seq<Path>): (r: seq<Header>)
    requires forall p :: p in paths ==> p in g.headersByPath
  {
    seq(|paths|, i requires 0 <= i < |paths| => g.headersByPath[paths[i]])
  }

  /** Every header is stored under its own path. */
  predicate KeyedByPath(g: Graph) {
    forall p :: p in g.headersByPath ==> g.headersByPath[p].path == p
  }

  /** The traversal of all roots of a header list. */
  function Traverse(headers: seq<Header>, symbols: Symbols): (seq<Diagnostic>, State) {
    var g := GraphOf(OfKind(TopLevel, headers));
    Order.VisitRoots(TableOf(g, symbols), g.orderedPaths, Order.INITIAL)
  }

  /** What the sort returns. */
  function Resolved(headers: seq<Header>, symbols: Symbols): Result<SortedHeaders, seq<Diagnostic>> {
    var tops := OfKind(TopLevel, headers);
    var (diagnostics, last) := Traverse(headers, symbols);
    if diagnostics != [] then Failure(diagnostics)
    else
      TraversalKeeps(headers, symbols);
      Success(SortedHeaders(
        HeadersAt(GraphOf(tops), last.sorted) + OfKind(StartFunction, headers),
        |tops|, HintCount(tops), last.visitCount))
  }

  lemma TableIsWellResolved(g: Graph, symbols: Symbols)
    ensures Order.WellResolved(TableOf(g, symbols))
  {
    hide SortedEdges, ResolveEdge;
    var t := TableOf(g, symbols);
    forall p, e | p in t.edges && e in t.edges[p]
      ensures e.kind.GraphHeader? ==> e.resolved.Some? && e.resolved.value in t.edges
      ensures e.kind.PackageExport? ==> e.resolved.Some? && e.resolved.value !in t.edges
    {
      var header := g.headersByPath[p];
      SortedEdgesFromHints(g, symbols, header);
      var k :| 0 <= k < |header.hints| && e == ResolveEdge(g, symbols, header, header.hints[k]);
      EdgeIsClassified(g, symbols, header, header.hints[k]);
    }
  }

  lemma RootsKeep(g: Graph, symbols: Symbols)
    requires forall p :: p in g.orderedPaths <==> p in g.headersByPath
    ensures var t := TableOf(g, symbols);
      var (diagnostics, last) := Order.VisitRoots(t, g.orderedPaths, Order.INITIAL);
      && Order.Inv(t, last)
      && (forall d :: d in diagnostics ==> Order.Justified(t, d))
      && (diagnostics == [] ==> Order.Elements(last.sorted) == g.headersByPath.Keys)
      && (forall p :: p in last.sorted ==> p in g.headersByPath)
  {
    hide SortedEdges, Order.Justified, Order.SettledBy, Order.IsChain;
    var t := TableOf(g, symbols);
    TableIsWellResolved(g, symbols);
    Order.VisitRootsKeep(t, g.orderedPaths, Order.INITIAL);
    var (diagnostics, last) := Order.VisitRoots(t, g.orderedPaths, Order.INITIAL);
    assert forall p :: p in last.sorted ==> p in Order.Elements(last.sorted);
    if diagnostics == [] {
      assert g.headersByPath.Keys <= last.visited;
    }
  }

  lemma TraversalKeeps(headers: seq<Header>, symbols: Symbols)
    ensures var g := GraphOf(OfKind(TopLevel, headers));
      var t := TableOf(g, symbols);
      var (diagnostics, last) := Traverse(headers, symbols);
      && Order.Inv(t, last)
      && (forall d :: d in diagnostics ==> Order.Justified(t, d))
      && (diagnostics == [] ==> Order.Elements(last.sorted) == g.headersByPath.Keys)
      && (forall p :: p in last.sorted ==> p in g.headersByPath)
  {
    hide TableOf, Order.Inv, Order.Justified, OfKind;
    var g := GraphOf(OfKind(TopLevel, headers));
    assert forall p :: p in g.orderedPaths <==> p in g.headersByPath.Keys;
    RootsKeep(g, symbols);
  }

  // ---------------------------------------------------------------- the tracker

  class DependencyTracker {
    var tempMark: set<Path>
    var visited: set<Path>
    var stack: seq<Path>
    var visitCount: nat

    /** The traversal state this tracker and a list of sorted headers stand for. */
    ghost function View(sorted: seq<Header>): State
      reads this
    {
      Order.State(tempMark, visited, stack, visitCount, Map(PathOf, sorted))
    }

    constructor ()
      ensures View([]) == Order.INITIAL
    {
      tempMark, visited, stack, visitCount := {}, {}, [], 0;
    }

    method Enter(path: Path)
      modifies this
      ensures forall sorted :: View(sorted) == Order.Enter(old(View(sorted)), path)
    {
      tempMark := tempMark + {path};
      stack := stack + [path];
    }

    method IsInCurrentStack(path: Path) returns (r: bool)
      ensures r <==> path in tempMark
    {
      r := path in tempMark;
    }

    method Abandon(path: Path)
      modifies this
      ensures forall sorted :: View(sorted) == Order.Abandon(old(View(sorted)), path)
    {
      tempMark := tempMark - {path};
      if stack != [] && stack[|stack| - 1] == path {
        stack := stack[..|stack| - 1];
      } else {
        stack := Order.RemoveAll(stack, path);
      }
    }

    method Finish(path: Path)
      modifies this
      ensures forall sorted :: View(sorted) == Order.Finish(old(View(sorted)), path)
    {
      Abandon(path);
      visited := visited + {path};
    }
  }

  /** The sorted headers are the ones the graph stores. */
  predicate FromGraph(g: Graph, sorted: seq<Header>) {
    forall h :: h in sorted ==> h.path in g.headersByPath && g.headersByPath[h.path] == h
  }

  lemma StoredHeaders(g: Graph, sorted: seq<Header>)
    requires FromGraph(g, sorted)
    ensures forall p :: p in Map(PathOf, sorted) ==> p in g.headersByPath
    ensures HeadersAt(g, Map(PathOf, sorted)) == sorted
  {
  }

  lemma PathsOfAppend(sorted: seq<Header>, header: Header)
    ensures Map(PathOf, sorted + [header]) == Map(PathOf, sorted) + [header.path]
  {
  }

  lemma StoredAppend(g: Graph, sorted: seq<Header>, path: Path)
    requires FromGraph(g, sorted) && KeyedByPath(g) && path in g.headersByPath
    ensures FromGraph(g, sorted + [g.headersByPath[path]])
  {
  }

  method VisitNode(
    path: Path, g: Graph, symbols: Symbols, tracker: DependencyTracker, sorted: seq<Header>)
    returns (r: VisitOutcome, sortedOut: seq<Header>)
    requires KeyedByPath(g) && FromGraph(g, sorted)
    modifies tracker
    ensures (r, tracker.View(sortedOut)) == Order.VisitNode(TableOf(g, symbols), path, old(tracker.View(sorted)))
    ensures FromGraph(g, sortedOut)
    decreases Order.Unmarked(TableOf(g, symbols), tracker.View(sorted)), 0, 0
  {
    hide IsPackageExport, SortedEdges, Map, FromGraph, Order.VisitEdges;
    ghost var t := TableOf(g, symbols);
    ghost var start := tracker.View(sorted);
    sortedOut := sorted;
    tracker.visitCount := tracker.visitCount + 1;

    match ResolveRequestedPath(g, symbols, path) {
      case None =>
        return Fail(Order.MissingTarget(path)), sorted;
      case Some(ResolvedExport(export_)) =>
        tracker.visited := tracker.visited + {export_};
        return Pass, sorted;
      case Some(ResolvedHeader(resolved)) =>
        var onStack := tracker.IsInCurrentStack(resolved);
        if onStack {
          return Fail(Order.Circular(resolved)), sorted;
        }
        if resolved !in tracker.visited {
          // A resolved header is always stored: this lookup cannot miss.
          var header := g.headersByPath[resolved];
          tracker.Enter(resolved);
          ghost var entered := tracker.View(sorted);
          assert entered == Order.Entered(start, path);
          Order.EnteredShrinks(t, path, start);

          r, sortedOut := VisitSortedEdges(SortedEdges(g, symbols, header), g, symbols, tracker, sorted);
          if r.Fail? {
            tracker.Abandon(resolved);
            return r, sortedOut;
          }
          PathsOfAppend(sortedOut, header);
          StoredAppend(g, sortedOut, resolved);
          sortedOut := sortedOut + [header];
          tracker.Finish(resolved);
        }
        return Pass, sortedOut;
    }
  }

  /** The loop over the edges of one header, up to the first that fails. */
  method VisitSortedEdges(
    edges: seq<Edge>, g: Graph, symbols: Symbols, tracker: DependencyTracker, sorted: seq<Header>)
    returns (r: VisitOutcome, sortedOut: seq<Header>)
    requires KeyedByPath(g) && FromGraph(g, sorted)
    modifies tracker
    ensures (r, tracker.View(sortedOut)) == Order.VisitEdges(TableOf(g, symbols), edges, old(tracker.View(sorted)))
    ensures FromGraph(g, sortedOut)
    decreases Order.Unmarked(TableOf(g, symbols), tracker.View(sorted)), 2, 0
  {
    hide IsPackageExport, SortedEdges, Map, FromGraph, TableOf;
    ghost var t := TableOf(g, symbols);
    ghost var start := tracker.View(sorted);
    sortedOut := sorted;
    for i := 0 to |edges|
      invariant FromGraph(g, sortedOut)
      invariant tracker.View(sortedOut).tempMark == start.tempMark
      invariant Order.VisitEdges(t, edges, start) == Order.VisitEdges(t, edges[i..], tracker.View(sortedOut))
    {
      assert edges[i..][1..] == edges[i + 1..];
      r, sortedOut := VisitDependencyEdge(edges[i], g, symbols, tracker, sortedOut);
      if r.Fail? {
        return r, sortedOut;
      }
    }
    return Pass, sortedOut;
  }

  method VisitDependencyEdge(
    edge: Edge, g: Graph, symbols: Symbols, tracker: DependencyTracker, sorted: seq<Header>)
    returns (r: VisitOutcome, sortedOut: seq<Header>)
    requires KeyedByPath(g) && FromGraph(g, sorted)
    modifies tracker
    ensures (r, tracker.View(sortedOut)) == Order.VisitEdge(TableOf(g, symbols), edge, old(tracker.View(sorted)))
    ensures FromGraph(g, sortedOut)
    decreases Order.Unmarked(TableOf(g, symbols), tracker.View(sorted)), 1, 0
  {
    sortedOut := sorted;
    match edge.kind {
      case GraphHeader =>
        if edge.resolved.None? {
          return Fail(Order.UnresolvedGraphEdge), sorted;
        }
        r, sortedOut := VisitNode(edge.resolved.value, g, symbols, tracker, sorted);
      case PackageExport =>
        if edge.resolved.Some? {
          tracker.visited := tracker.visited + {edge.resolved.value};
        }
        r := Pass;
      case SameFileHint =>
        r := Pass;
      case Missing =>
        r := Fail(Order.MissingTarget(edge.requested));
    }
  }

  /** Split off the start headers and count the hints of the others. */
  method PartitionHeaders(headers: seq<Header>)
    returns (tops: seq<Header>, starts: seq<Header>, edgeCount: nat)
    ensures tops == OfKind(TopLevel, headers) && starts == OfKind(StartFunction, headers)
    ensures edgeCount == HintCount(tops)
  {
    tops, starts, edgeCount := [], [], 0;
    for i := 0 to |headers|
      invariant starts == OfKind(StartFunction, headers[..i]) && tops == OfKind(TopLevel, headers[..i])
      invariant edgeCount == HintCount(tops)
    {
      assert headers[..i + 1][..i] == headers[..i];
      if headers[i].kind.StartFunction? {
        assert OfKind(TopLevel, headers[..i + 1]) == tops + [];
        starts := starts + [headers[i]];
      } else {
        assert OfKind(StartFunction, headers[..i + 1]) == starts + [];
        assert (tops + [headers[i]])[..|tops|] == tops;
        tops := tops + [headers[i]];
        edgeCount := edgeCount + |headers[i].hints|;
      }
    }
    assert headers[..|headers|] == headers;
  }

  /** Visit every root that no earlier root reached, collecting the diagnostics. */
  method VisitRoots(g: Graph, symbols: Symbols)
    returns (diagnostics: seq<Diagnostic>, sorted: seq<Header>, visitCount: nat)
    requires KeyedByPath(g)
    ensures var (found, last) := Order.VisitRoots(TableOf(g, symbols), g.orderedPaths, Order.INITIAL);
      diagnostics == found && Map(PathOf, sorted) == last.sorted && visitCount == last.visitCount
    ensures FromGraph(g, sorted)
  {
    hide TableOf;
    ghost var t := TableOf(g, symbols);
    var tracker := new DependencyTracker();
    sorted, diagnostics := [], [];
    var roots := g.orderedPaths;
    assert Map(PathOf, sorted) == [] && roots[0..] == roots;
    for i := 0 to |roots|
      invariant FromGraph(g, sorted)
      invariant Order.VisitRoots(t, roots, Order.INITIAL).0
             == diagnostics + Order.VisitRoots(t, roots[i..], tracker.View(sorted)).0
      invariant Order.VisitRoots(t, roots, Order.INITIAL).1
             == Order.VisitRoots(t, roots[i..], tracker.View(sorted)).1
    {
      assert roots[i..][1..] == roots[i + 1..];
      if roots[i] !in tracker.visited {
        var outcome;
        outcome, sorted := VisitNode(roots[i], g, symbols, tracker, sorted);
        if outcome.Fail? {
          diagnostics := diagnostics + [outcome.error];
        }
      }
    }
    assert roots[|roots|..] == [];
    visitCount := tracker.visitCount;
  }

  /** `resolve_module_dependencies`: partition, build the graph, visit every root, append the
      start headers. */
  method ResolveModuleDependencies(headers: seq<Header>, symbols: Symbols)
    returns (r: Result<SortedHeaders, seq<Diagnostic>>)
    ensures r == Resolved(headers, symbols)
  {
    hide TableOf, HintCount, OfKind, GraphOf, Map, HeadersAt, Order.Inv, Order.Justified, Order.VisitRoots;
    var tops, starts, edgeCount := PartitionHeaders(headers);
    var g := FromHeaders(tops);
    var diagnostics, sorted, visitCount := VisitRoots(g, symbols);
    if diagnostics != [] {
      return Failure(diagnostics);
    }
    TraversalKeeps(headers, symbols);
    StoredHeaders(g, sorted);
    return Success(SortedHeaders(sorted + starts, |tops|, edgeCount, visitCount));
  }
}
