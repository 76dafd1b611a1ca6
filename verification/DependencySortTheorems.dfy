/** What the dependency sort promises, stated on headers and hints. */
module DependencySortTheorems {
  import opened Wrappers
  import opened Sorting
  import opened Bytes
  import opened DependencyGraph
  import opened ModuleDependencies
  import Order = DependencyOrder

  function TopHeaders(headers: seq<Header>): seq<Header> {
    OfKind(TopLevel, headers)
  }

  function HeaderGraph(headers: seq<Header>): Graph {
    GraphOf(TopHeaders(headers))
  }

  function KindOfHint(g: Graph, symbols: Symbols, path: Path, hint: Path): EdgeKind
    requires path in g.headersByPath
  {
    Classify(g.headersByPath.Keys, symbols, g.headersByPath[path].sourceFile, hint)
  }

  /** A header asks for something that is neither a header, a package export nor a child of its
      own file. */
  predicate MissingHint(g: Graph, symbols: Symbols, path: Path, hint: Path) {
    path in g.headersByPath && hint in g.headersByPath[path].hints && KindOfHint(g, symbols, path, hint).Missing?
  }

  /** `from` hints at the header `to`. */
  predicate HintsAt(g: Graph, from: Path, to: Path) {
    from in g.headersByPath && to in g.headersByPath && to in g.headersByPath[from].hints
  }

  /** Headers that hint at one another in a ring. */
  ghost predicate HintCycle(g: Graph, cycle: seq<Path>) {
    && cycle != []
    && (forall i :: 0 <= i < |cycle| - 1 ==> HintsAt(g, cycle[i], cycle[i + 1]))
    && HintsAt(g, cycle[|cycle| - 1], cycle[0])
  }

  // ---------------------------------------------------------------- edges and hints

  /** Every sorted edge of a header is one of its classified hints, and the other way round. */
  lemma EdgesAreHints(g: Graph, symbols: Symbols, path: Path)
    requires path in g.headersByPath
    ensures forall e :: e in TableOf(g, symbols).edges[path] ==>
        && e.requested in g.headersByPath[path].hints
        && e.kind == KindOfHint(g, symbols, path, e.requested)
        && (e.kind.GraphHeader? ==> e.resolved == Some(e.requested))
    ensures forall hint :: hint in g.headersByPath[path].hints ==>
        ResolveEdge(g, symbols, g.headersByPath[path], hint) in TableOf(g, symbols).edges[path]
  {
    hide SortedEdges, ResolveEdge, Classify;
    var header := g.headersByPath[path];
    SortedEdgesFromHints(g, symbols, header);
    forall e | e in TableOf(g, symbols).edges[path]
      ensures e.requested in header.hints && e.kind == KindOfHint(g, symbols, path, e.requested)
      ensures e.kind.GraphHeader? ==> e.resolved == Some(e.requested)
    {
      var k :| 0 <= k < |header.hints| && e == ResolveEdge(g, symbols, header, header.hints[k]);
      EdgeIsClassified(g, symbols, header, header.hints[k]);
    }
  }

  lemma MissingIffHint(g: Graph, symbols: Symbols, path: Path, hint: Path)
    ensures Order.IsMissing(TableOf(g, symbols), path, hint) <==> MissingHint(g, symbols, path, hint)
  {
    hide SortedEdges, ResolveEdge, Classify;
    if path in g.headersByPath {
      EdgesAreHints(g, symbols, path);
      EdgeIsClassified(g, symbols, g.headersByPath[path], hint);
    }
  }

  lemma DependsIffHint(g: Graph, symbols: Symbols, from: Path, to: Path)
    ensures Order.DependsOn(TableOf(g, symbols), from, to) <==> HintsAt(g, from, to)
  {
    hide SortedEdges, ResolveEdge;
    if from in g.headersByPath {
      EdgesAreHints(g, symbols, from);
      EdgeIsClassified(g, symbols, g.headersByPath[from], to);
    }
  }

  lemma CycleIffHints(g: Graph, symbols: Symbols, cycle: seq<Path>)
    ensures Order.IsCycle(TableOf(g, symbols), cycle) <==> HintCycle(g, cycle)
  {
    hide TableOf, Order.DependsOn, HintsAt;
    if cycle != [] {
      DependsIffHint(g, symbols, cycle[|cycle| - 1], cycle[0]);
      forall i | 0 <= i < |cycle| - 1
        ensures Order.DependsOn(TableOf(g, symbols), cycle[i], cycle[i + 1]) <==> HintsAt(g, cycle[i], cycle[i + 1])
      {
        DependsIffHint(g, symbols, cycle[i], cycle[i + 1]);
      }
    }
  }

  // ---------------------------------------------------------------- soundness

  /** The header's hints are all accounted for by the paths before it. */
  ghost predicate HintsSettled(g: Graph, symbols: Symbols, path: Path, earlier: seq<Path>) {
    && path in g.headersByPath
    && forall hint :: hint in g.headersByPath[path].hints ==>
        && !KindOfHint(g, symbols, path, hint).Missing?
        && (KindOfHint(g, symbols, path, hint).GraphHeader? ==> hint in earlier)
  }

  lemma SettledIffHints(g: Graph, symbols: Symbols, path: Path, earlier: seq<Path>)
    ensures Order.SettledBy(TableOf(g, symbols), path, earlier) <==> HintsSettled(g, symbols, path, earlier)
  {
    hide SortedEdges, ResolveEdge, Classify;
    if path in g.headersByPath {
      EdgesAreHints(g, symbols, path);
      forall hint | hint in g.headersByPath[path].hints
        ensures var e := ResolveEdge(g, symbols, g.headersByPath[path], hint);
          && e.requested == hint && e.kind == KindOfHint(g, symbols, path, hint)
          && e in TableOf(g, symbols).edges[path]
          && (e.kind.GraphHeader? ==> e.resolved == Some(hint))
      {
        EdgeIsClassified(g, symbols, g.headersByPath[path], hint);
      }
    }
  }

  /** A successful sort lists every header path once, each after everything it depends on, and
      then the start headers in source order. A path given twice stands for its last header. */
  lemma SortIsTopological(headers: seq<Header>, symbols: Symbols) returns (order: seq<Path>)
    requires Resolved(headers, symbols).Success?
    ensures var g := HeaderGraph(headers);
      && NoRepeats(order)
      && Order.Elements(order) == g.headersByPath.Keys
      && (forall i :: 0 <= i < |order| ==> HintsSettled(g, symbols, order[i], order[..i]))
      && (forall p :: p in order ==> p in g.headersByPath)
      && Resolved(headers, symbols).value.headers == HeadersAt(g, order) + OfKind(StartFunction, headers)
  {
    hide TableOf, OfKind, GraphOf, HintsSettled, Order.SettledBy, Order.Justified, Order.VisitRoots, HeadersAt;
    TraversalKeeps(headers, symbols);
    order := Traverse(headers, symbols).1.sorted;
    var g := HeaderGraph(headers);
    forall i | 0 <= i < |order|
      ensures HintsSettled(g, symbols, order[i], order[..i])
    {
      SettledIffHints(g, symbols, order[i], order[..i]);
    }
  }

  lemma PathsAreKeys(tops: seq<Header>)
    ensures Order.Elements(Map(PathOf, tops)) == GraphOf(tops).headersByPath.Keys
  {
    assert GraphOf(tops).headersByPath.Keys == set p | p in Map(PathOf, tops);
  }

  /** With distinct paths the sorted headers are a permutation of the headers given. */
  lemma SortIsPermutation(headers: seq<Header>, symbols: Symbols)
    requires DistinctPaths(TopHeaders(headers)) && Resolved(headers, symbols).Success?
    ensures multiset(Resolved(headers, symbols).value.headers)
         == multiset(TopHeaders(headers)) + multiset(OfKind(StartFunction, headers))
  {
    hide TableOf, OfKind, HintsSettled, Traverse;
    var order := SortIsTopological(headers, symbols);
    var tops, g := TopHeaders(headers), HeaderGraph(headers);
    var sorted := HeadersAt(g, order);
    DistinctGraph(tops);
    forall h
      ensures h in sorted <==> h in tops
    {
      if h in tops {
        assert h.path in Order.Elements(order);
        var i :| 0 <= i < |order| && order[i] == h.path;
        assert sorted[i] == h;
      }
    }
    forall i, j | 0 <= i < j < |sorted|
      ensures sorted[i] != sorted[j]
    {
      assert sorted[i].path == order[i] && sorted[j].path == order[j];
    }
    SameDistinctElements(sorted, tops);
  }

  // ---------------------------------------------------------------- completeness

  /** Each diagnostic names a missing hint or a path on a ring of hints. */
  lemma DiagnosticsAreJustified(headers: seq<Header>, symbols: Symbols, d: Diagnostic)
    requires Resolved(headers, symbols).Failure? && d in Resolved(headers, symbols).error
    ensures var g := HeaderGraph(headers);
      match d
      case MissingTarget(hint) => exists p :: MissingHint(g, symbols, p, hint)
      case Circular(path) => exists cycle :: HintCycle(g, cycle) && path in cycle
      case UnresolvedGraphEdge => false
  {
    hide TableOf, OfKind, GraphOf, HintCycle, MissingHint, Order.IsMissing, Order.IsCycle, Order.VisitRoots;
    TraversalKeeps(headers, symbols);
    var g := HeaderGraph(headers);
    assert Order.Justified(TableOf(g, symbols), d);
    match d {
      case MissingTarget(hint) =>
        var p :| Order.IsMissing(TableOf(g, symbols), p, hint);
        MissingIffHint(g, symbols, p, hint);
      case Circular(path) =>
        var cycle :| Order.IsCycle(TableOf(g, symbols), cycle) && path in cycle;
        CycleIffHints(g, symbols, cycle);
      case UnresolvedGraphEdge =>
    }
  }

  /** The sort fails exactly when a hint is missing or the hints form a ring. */
  lemma FailsExactly(headers: seq<Header>, symbols: Symbols)
    ensures var g := HeaderGraph(headers);
      Resolved(headers, symbols).Failure? <==>
        || (exists path, hint :: MissingHint(g, symbols, path, hint))
        || (exists cycle :: HintCycle(g, cycle))
  {
    hide TableOf, OfKind, GraphOf, HintCycle, Traverse;
    var g := HeaderGraph(headers);
    if Resolved(headers, symbols).Failure? {
      DiagnosticsAreJustified(headers, symbols, Resolved(headers, symbols).error[0]);
    } else {
      var order := SortIsTopological(headers, symbols);
      forall path, hint
        ensures !MissingHint(g, symbols, path, hint)
      {
        if path in g.headersByPath {
          assert path in Order.Elements(order);
          var i :| 0 <= i < |order| && order[i] == path;
          assert HintsSettled(g, symbols, order[i], order[..i]);
        }
      }
      forall cycle
        ensures !HintCycle(g, cycle)
      {
        NoCycleWhenSettled(g, symbols, order, cycle);
      }
    }
  }

  lemma NoCycleWhenSettled(g: Graph, symbols: Symbols, order: seq<Path>, cycle: seq<Path>)
    requires NoRepeats(order) && Order.Elements(order) == g.headersByPath.Keys
    requires forall i :: 0 <= i < |order| ==> HintsSettled(g, symbols, order[i], order[..i])
    ensures !HintCycle(g, cycle)
  {
    hide SortedEdges, HintsSettled, HintCycle, Order.SettledBy, Order.IsCycle;
    forall i | 0 <= i < |order|
      ensures Order.SettledBy(TableOf(g, symbols), order[i], order[..i])
    {
      SettledIffHints(g, symbols, order[i], order[..i]);
    }
    TableIsWellResolved(g, symbols);
    Order.SettledHasNoCycle(TableOf(g, symbols), order, cycle);
    CycleIffHints(g, symbols, cycle);
  }

  // ---------------------------------------------------------------- visit bound

  lemma {:induction false} HintCountSplit(headers: seq<Header>, k: nat)
    requires k < |headers|
    ensures HintCount(headers) == HintCount(Without(headers, k)) + |headers[k].hints|
  {
    var last := |headers| - 1;
    if k < last {
      HintCountSplit(headers[..last], k);
      assert Without(headers, k)[..last - 1] == Without(headers[..last], k);
    } else {
      assert Without(headers, k) == headers[..last];
    }
  }

  /** Fewer headers hold fewer hints. */
  lemma {:induction false} HintCountMonotone(a: seq<Header>, b: seq<Header>)
    requires multiset(a) <= multiset(b)
    ensures HintCount(a) <= HintCount(b)
  {
    if a != [] {
      var last := |a| - 1;
      assert a[last] in multiset(a);
      assert a[last] in multiset(b);
      var k :| 0 <= k < |b| && b[k] == a[last];
      WithoutOne(a, last);
      WithoutOne(b, k);
      assert Without(a, last) == a[..last];
      HintCountSplit(b, k);
      HintCountMonotone(a[..last], Without(b, k));
    }
  }

  lemma {:induction false} EdgeCountIsHintCount(g: Graph, symbols: Symbols, paths: seq<Path>)
    requires forall p :: p in paths ==> p in g.headersByPath
    ensures Order.EdgeCount(TableOf(g, symbols), paths) == HintCount(HeadersAt(g, paths))
  {
    hide TableOf;
    if paths != [] {
      var last := |paths| - 1;
      EdgeCountIsHintCount(g, symbols, paths[..last]);
      assert HeadersAt(g, paths)[..last] == HeadersAt(g, paths[..last]);
      EdgesOfPath(g, symbols, paths[last]);
    }
  }

  lemma EdgesOfPath(g: Graph, symbols: Symbols, path: Path)
    requires path in g.headersByPath
    ensures path in TableOf(g, symbols).edges
    ensures |TableOf(g, symbols).edges[path]| == |g.headersByPath[path].hints|
  {
  }

  /** A successful sort makes at most one visit per header and one per hint. */
  lemma VisitsAreBounded(headers: seq<Header>, symbols: Symbols)
    requires Resolved(headers, symbols).Success?
    ensures var sorted := Resolved(headers, symbols).value;
      sorted.visitCount <= sorted.headerCount + sorted.edgeCount
  {
    hide TableOf, OfKind, Order.Justified, Order.Inv, Order.SettledBy;
    var tops, g := TopHeaders(headers), HeaderGraph(headers);
    var t := TableOf(g, symbols);
    var order := Traverse(headers, symbols).1.sorted;
    Order.VisitRootsCost(t, g.orderedPaths, Order.INITIAL);
    StoredDistinct(headers, symbols);
    EdgeCountIsHintCount(g, symbols, order);
    HintCountMonotone(HeadersAt(g, order), tops);
  }

  lemma StoredDistinct(headers: seq<Header>, symbols: Symbols)
    ensures var order, g := Traverse(headers, symbols).1.sorted, HeaderGraph(headers);
      && (forall p :: p in order ==> p in g.headersByPath)
      && multiset(HeadersAt(g, order)) <= multiset(TopHeaders(headers))
  {
    hide TableOf, OfKind, Order.Justified, Order.SettledBy, Order.VisitRoots;
    TraversalKeeps(headers, symbols);
    var order, g := Traverse(headers, symbols).1.sorted, HeaderGraph(headers);
    var sorted := HeadersAt(g, order);
    forall i, j | 0 <= i < j < |sorted|
      ensures sorted[i] != sorted[j]
    {
      assert sorted[i].path == order[i] && sorted[j].path == order[j];
    }
    DistinctSubset(sorted, TopHeaders(headers));
  }

  // ---------------------------------------------------------------- determinism

  /** The two lists differ only in the order in which each header writes its hints. */
  ghost predicate SameUpToHintOrder(a: seq<Header>, b: seq<Header>) {
    && |a| == |b|
    && forall i :: 0 <= i < |a| ==>
        && a[i].path == b[i].path
        && a[i].sourceFile == b[i].sourceFile
        && a[i].kind == b[i].kind
        && multiset(a[i].hints) == multiset(b[i].hints)
  }

  lemma {:induction false} SameKinds(kind: HeaderKind, a: seq<Header>, b: seq<Header>)
    requires SameUpToHintOrder(a, b)
    ensures SameUpToHintOrder(OfKind(kind, a), OfKind(kind, b))
  {
    if a != [] {
      var last := |a| - 1;
      SameKinds(kind, a[..last], b[..last]);
    }
  }

  lemma {:induction false} SameGraphs(a: seq<Header>, b: seq<Header>)
    requires SameUpToHintOrder(a, b)
    ensures var g, h := GraphOf(a), GraphOf(b);
      && g.orderedPaths == h.orderedPaths && g.sourceOrder == h.sourceOrder
      && g.headersByPath.Keys == h.headersByPath.Keys
      && forall p :: p in g.headersByPath ==>
          && g.headersByPath[p].sourceFile == h.headersByPath[p].sourceFile
          && multiset(g.headersByPath[p].hints) == multiset(h.headersByPath[p].hints)
  {
    if a != [] {
      SameGraphs(a[..|a| - 1], b[..|a| - 1]);
    }
  }

  lemma SameResolution(g: Graph, h: Graph, symbols: Symbols, header: Header)
    requires g.sourceOrder == h.sourceOrder && g.headersByPath.Keys == h.headersByPath.Keys
    ensures SortedEdges(g, symbols, header) == SortedEdges(h, symbols, header)
  {
    forall hint
      ensures ResolveEdge(g, symbols, header, hint) == ResolveEdge(h, symbols, header, hint)
    {
      assert hint in g.headersByPath <==> hint in h.headersByPath.Keys;
    }
    assert Map(hint => ResolveEdge(g, symbols, header, hint), header.hints)
        == Map(hint => ResolveEdge(h, symbols, header, hint), header.hints);
  }

  lemma SameTables(g: Graph, h: Graph, symbols: Symbols)
    requires InjectiveSpelling(symbols)
    requires g.sourceOrder == h.sourceOrder && g.headersByPath.Keys == h.headersByPath.Keys
    requires forall p :: p in g.headersByPath ==>
        && g.headersByPath[p].sourceFile == h.headersByPath[p].sourceFile
        && multiset(g.headersByPath[p].hints) == multiset(h.headersByPath[p].hints)
    ensures TableOf(g, symbols) == TableOf(h, symbols)
  {
    hide SortedEdges, InjectiveSpelling;
    var s, t := TableOf(g, symbols), TableOf(h, symbols);
    forall p | p in g.headersByPath
      ensures s.edges[p] == t.edges[p]
    {
      HintOrderIrrelevant(g, symbols, g.headersByPath[p], h.headersByPath[p]);
      SameResolution(g, h, symbols, h.headersByPath[p]);
    }
    assert s.edges.Keys == t.edges.Keys;
    assert s.edges == t.edges;
  }

  /** The order in which hints are written never reaches the result: the same diagnostics in
      the same order, or the same header order after the same number of visits. */
  lemma HintOrderNeverMatters(a: seq<Header>, b: seq<Header>, symbols: Symbols)
    requires SameUpToHintOrder(a, b) && InjectiveSpelling(symbols)
    ensures match (Resolved(a, symbols), Resolved(b, symbols))
      case (Failure(d), Failure(e)) => d == e
      case (Success(s), Success(t)) =>
        && Map(PathOf, s.headers) == Map(PathOf, t.headers)
        && s.visitCount == t.visitCount
      case _ => false
  {
    hide TableOf, OfKind, GraphOf, InjectiveSpelling, HintCount, Order.VisitRoots;
    SameKinds(TopLevel, a, b);
    SameKinds(StartFunction, a, b);
    SameGraphs(TopHeaders(a), TopHeaders(b));
    SameTables(HeaderGraph(a), HeaderGraph(b), symbols);
    assert Traverse(a, symbols) == Traverse(b, symbols);
    if Resolved(a, symbols).Success? {
      SortedPaths(a, symbols);
      SortedPaths(b, symbols);
    }
  }

  lemma SortedPaths(headers: seq<Header>, symbols: Symbols)
    requires Resolved(headers, symbols).Success?
    ensures Map(PathOf, Resolved(headers, symbols).value.headers)
         == Traverse(headers, symbols).1.sorted + Map(PathOf, OfKind(StartFunction, headers))
  {
    hide OfKind, TableOf, Order.VisitRoots, Order.Inv, Order.Justified;
    TraversalKeeps(headers, symbols);
    var g, order := HeaderGraph(headers), Traverse(headers, symbols).1.sorted;
    PathsOfStored(g, order);
  }

  lemma PathsOfStored(g: Graph, order: seq<Path>)
    requires KeyedByPath(g) && forall p :: p in order ==> p in g.headersByPath
    ensures Map(PathOf, HeadersAt(g, order)) == order
    ensures NoRepeats(order) ==> DistinctPaths(HeadersAt(g, order))
  {
    forall i | 0 <= i < |order|
      ensures HeadersAt(g, order)[i].path == order[i]
    {
    }
  }

  lemma StoredInOrder(tops: seq<Header>)
    requires DistinctPaths(tops)
    ensures forall p :: p in Map(PathOf, tops) ==> p in GraphOf(tops).headersByPath
    ensures HeadersAt(GraphOf(tops), Map(PathOf, tops)) == tops
    ensures NoRepeats(Map(PathOf, tops))
  {
    DistinctGraph(tops);
    forall i | 0 <= i < |tops|
      ensures Map(PathOf, tops)[i] in GraphOf(tops).headersByPath
      ensures GraphOf(tops).headersByPath[Map(PathOf, tops)[i]] == tops[i]
    {
    }
  }

  // ---------------------------------------------------------------- fixed point

  /** Headers already listed after everything they depend on come back unchanged. */
  lemma OrderedInputStays(headers: seq<Header>, symbols: Symbols)
    requires DistinctPaths(TopHeaders(headers))
    requires var g, paths := HeaderGraph(headers), Map(PathOf, TopHeaders(headers));
      forall i :: 0 <= i < |paths| ==> HintsSettled(g, symbols, paths[i], paths[..i])
    ensures Resolved(headers, symbols).Success?
    ensures Resolved(headers, symbols).value.headers == TopHeaders(headers) + OfKind(StartFunction, headers)
  {
    hide TableOf, OfKind, HintsSettled, HintCount, GraphOf, HeadersAt, Map;
    hide Order.VisitRoots, Order.Inv, Order.Justified, Order.SettledBy;
    var tops, g := TopHeaders(headers), HeaderGraph(headers);
    var t := TableOf(g, symbols);
    var paths := Map(PathOf, tops);
    StoredInOrder(tops);
    forall i | 0 <= i < |paths|
      ensures Order.SettledBy(t, paths[i], paths[..i])
    {
      SettledIffHints(g, symbols, paths[i], paths[..i]);
    }
    TableIsWellResolved(g, symbols);
    InitialInv(t);
    assert paths[0..] == paths;
    Order.OrderedRootsStay(t, paths, 0, Order.INITIAL);
    TraversalKeeps(headers, symbols);
  }

  lemma InitialInv(t: Table)
    ensures Order.Inv(t, Order.INITIAL)
  {
  }

  lemma {:induction false} OfKindAppend(kind: HeaderKind, a: seq<Header>, b: seq<Header>)
    ensures OfKind(kind, a + b) == OfKind(kind, a) + OfKind(kind, b)
  {
    if b == [] {
      assert a + b == a;
    } else {
      var last := |b| - 1;
      assert (a + b)[..|a| + last] == a + b[..last];
      OfKindAppend(kind, a, b[..last]);
    }
  }

  lemma {:induction false} OfKindOnly(kind: HeaderKind, headers: seq<Header>)
    requires forall h :: h in headers ==> h.kind == kind
    ensures OfKind(kind, headers) == headers
    ensures forall other :: other != kind ==> OfKind(other, headers) == []
  {
    if headers != [] {
      OfKindOnly(kind, headers[..|headers| - 1]);
    }
  }

  lemma {:induction false} OfKindMembers(kind: HeaderKind, headers: seq<Header>)
    ensures forall h :: h in OfKind(kind, headers) ==> h in headers && h.kind == kind
  {
    if headers != [] {
      OfKindMembers(kind, headers[..|headers| - 1]);
    }
  }

  /** Sorting twice is sorting once. */
  lemma SortIsIdempotent(headers: seq<Header>, symbols: Symbols)
    requires DistinctPaths(TopHeaders(headers)) && Resolved(headers, symbols).Success?
    ensures var once := Resolved(headers, symbols).value.headers;
      Resolved(once, symbols).Success? && Resolved(once, symbols).value.headers == once
  {
    hide TableOf, OfKind, GraphOf, HintsSettled, Traverse, Resolved;
    var order := SortIsTopological(headers, symbols);
    var g := HeaderGraph(headers);
    var sorted, starts := HeadersAt(g, order), OfKind(StartFunction, headers);
    var once := sorted + starts;
    SplitSorted(headers, order);
    SortedGraph(headers, order);
    var h := HeaderGraph(once);
    forall i | 0 <= i < |order|
      ensures HintsSettled(h, symbols, order[i], order[..i])
    {
      SameSettled(g, h, symbols, order[i], order[..i]);
    }
    OrderedInputStays(once, symbols);
  }

  lemma SplitSorted(headers: seq<Header>, order: seq<Path>)
    requires forall p :: p in order ==> p in HeaderGraph(headers).headersByPath
    ensures var sorted, starts := HeadersAt(HeaderGraph(headers), order), OfKind(StartFunction, headers);
      OfKind(TopLevel, sorted + starts) == sorted && OfKind(StartFunction, sorted + starts) == starts
  {
    var g := HeaderGraph(headers);
    var sorted, starts := HeadersAt(g, order), OfKind(StartFunction, headers);
    OfKindMembers(TopLevel, headers);
    OfKindMembers(StartFunction, headers);
    OfKindOnly(TopLevel, sorted);
    OfKindOnly(StartFunction, starts);
    OfKindAppend(TopLevel, sorted, starts);
    OfKindAppend(StartFunction, sorted, starts);
  }

  /** The graph of the sorted headers stores what the first graph stored. */
  lemma SortedGraph(headers: seq<Header>, order: seq<Path>)
    requires NoRepeats(order) && Order.Elements(order) == HeaderGraph(headers).headersByPath.Keys
    requires forall p :: p in order ==> p in HeaderGraph(headers).headersByPath
    ensures var g := HeaderGraph(headers);
      var sorted := HeadersAt(g, order);
      && DistinctPaths(sorted)
      && Map(PathOf, sorted) == order
      && GraphOf(sorted).headersByPath == g.headersByPath
  {
    hide OfKind, GraphOf, Map, NoRepeats, DistinctPaths, HeadersAt, Order.Elements;
    SortedGraphOf(HeaderGraph(headers), order);
  }

  lemma SortedGraphOf(g: Graph, order: seq<Path>)
    requires KeyedByPath(g) && NoRepeats(order) && Order.Elements(order) == g.headersByPath.Keys
    requires forall p :: p in order ==> p in g.headersByPath
    ensures var sorted := HeadersAt(g, order);
      && DistinctPaths(sorted)
      && Map(PathOf, sorted) == order
      && GraphOf(sorted).headersByPath == g.headersByPath
  {
    hide GraphOf, Map, NoRepeats, DistinctPaths, HeadersAt, Order.Elements;
    var sorted := HeadersAt(g, order);
    PathsOfStored(g, order);
    PathsAreKeys(sorted);
    forall p | p in g.headersByPath
      ensures p in GraphOf(sorted).headersByPath && GraphOf(sorted).headersByPath[p] == g.headersByPath[p]
    {
      assert p in Order.Elements(order);
      StoredAgain(g, order, p);
    }
    assert GraphOf(sorted).headersByPath.Keys == g.headersByPath.Keys;
  }

  lemma StoredAgain(g: Graph, order: seq<Path>, p: Path)
    requires p in Order.Elements(order) && forall q :: q in order ==> q in g.headersByPath
    requires DistinctPaths(HeadersAt(g, order)) && KeyedByPath(g)
    ensures p in GraphOf(HeadersAt(g, order)).headersByPath
    ensures GraphOf(HeadersAt(g, order)).headersByPath[p] == g.headersByPath[p]
  {
    hide GraphOf, DistinctPaths;
    var i :| 0 <= i < |order| && order[i] == p;
    DistinctGraph(HeadersAt(g, order));
    assert HeadersAt(g, order)[i] == g.headersByPath[p];
  }

  lemma SameSettled(g: Graph, h: Graph, symbols: Symbols, path: Path, earlier: seq<Path>)
    requires g.headersByPath == h.headersByPath && HintsSettled(g, symbols, path, earlier)
    ensures HintsSettled(h, symbols, path, earlier)
  {
  }
}
