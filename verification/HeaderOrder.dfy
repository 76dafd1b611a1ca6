/** The outcome of the dependency sort from the headers and their hints alone: in which order a
    successful sort lists them, and which headers a failed one reports. */
module HeaderOrder {
  import opened Sorting
  import opened Bytes
  import opened DependencyGraph
  import opened ModuleDependencies
  import opened DependencySortTheorems
  import Order = DependencyOrder
  import Reach = DependencyReach
  import Precedence = DependencyPrecedence
  import Visits = DependencyVisits

  // ---------------------------------------------------------------- following hints

  ghost predicate HintPath(g: Graph, chain: seq<Path>, a: Path, b: Path) {
    && chain != [] && chain[0] == a && chain[|chain| - 1] == b
    && forall i :: 0 <= i < |chain| - 1 ==> HintsAt(g, chain[i], chain[i + 1])
  }

  /** `b` is `a` or found from it by following hints at headers. */
  ghost predicate HintsReach(g: Graph, a: Path, b: Path) {
    exists chain :: HintPath(g, chain, a, b)
  }

  lemma PathIffHints(g: Graph, symbols: Symbols, chain: seq<Path>, a: Path, b: Path)
    ensures Reach.Leads(TableOf(g, symbols), chain, a, b) <==> HintPath(g, chain, a, b)
  {
    hide TableOf, Order.DependsOn, HintsAt;
    forall i | 0 <= i < |chain| - 1
      ensures Order.DependsOn(TableOf(g, symbols), chain[i], chain[i + 1]) <==> HintsAt(g, chain[i], chain[i + 1])
    {
      DependsIffHint(g, symbols, chain[i], chain[i + 1]);
    }
  }

  lemma ReachIffHints(g: Graph, symbols: Symbols, a: Path, b: Path)
    ensures Reach.Reaches(TableOf(g, symbols), a, b) <==> HintsReach(g, a, b)
  {
    hide TableOf, Reach.Leads, HintPath;
    if Reach.Reaches(TableOf(g, symbols), a, b) {
      var chain :| Reach.Leads(TableOf(g, symbols), chain, a, b);
      PathIffHints(g, symbols, chain, a, b);
    }
    if HintsReach(g, a, b) {
      var chain :| HintPath(g, chain, a, b);
      PathIffHints(g, symbols, chain, a, b);
    }
  }

  // ---------------------------------------------------------------- which headers are reported

  /** A missing hint is no header's path, no exported name of a package, and no child of the file
      of the header that gives it. */
  lemma MissingExactly(g: Graph, symbols: Symbols, path: Path, hint: Path)
    ensures MissingHint(g, symbols, path, hint) <==>
      && path in g.headersByPath && hint in g.headersByPath[path].hints
      && hint !in g.headersByPath
      && !(hint != [] && symbols.resolve(hint[0]) in symbols.packageExports
           && hint[|hint| - 1] in symbols.packageExports[symbols.resolve(hint[0])])
      && !(hint != [] && hint[..|hint| - 1] == g.headersByPath[path].sourceFile)
  {
  }

  /** A header with a missing hint, or one on a ring of hints. */
  ghost predicate Faulty(g: Graph, symbols: Symbols, b: Path) {
    || (exists hint :: MissingHint(g, symbols, b, hint))
    || (exists cycle :: HintCycle(g, cycle) && b in cycle)
  }

  /** Following hints from this header leads to a faulty one. */
  ghost predicate LeadsAstray(g: Graph, symbols: Symbols, a: Path) {
    exists b :: HintsReach(g, a, b) && Faulty(g, symbols, b)
  }

  /** The diagnostic names a missing hint, or a header on a ring, that this header leads to. */
  ghost predicate Reports(g: Graph, symbols: Symbols, a: Path, d: Diagnostic) {
    match d
    case MissingTarget(hint) => exists b :: HintsReach(g, a, b) && MissingHint(g, symbols, b, hint)
    case Circular(path) => HintsReach(g, a, path) && exists cycle :: HintCycle(g, cycle) && path in cycle
    case UnresolvedGraphEdge => false
  }

  lemma StuckIffFaulty(g: Graph, symbols: Symbols, b: Path)
    ensures Reach.Stuck(TableOf(g, symbols), b) <==> Faulty(g, symbols, b)
  {
    hide TableOf, Order.IsMissing, MissingHint, Order.IsCycle, HintCycle;
    forall hint
      ensures Order.IsMissing(TableOf(g, symbols), b, hint) <==> MissingHint(g, symbols, b, hint)
    {
      MissingIffHint(g, symbols, b, hint);
    }
    forall cycle
      ensures Order.IsCycle(TableOf(g, symbols), cycle) <==> HintCycle(g, cycle)
    {
      CycleIffHints(g, symbols, cycle);
    }
  }

  lemma BlockedIffAstray(g: Graph, symbols: Symbols, a: Path)
    ensures Reach.Blocked(TableOf(g, symbols), a) <==> LeadsAstray(g, symbols, a)
  {
    hide TableOf, Reach.Reaches, HintsReach, Reach.Stuck, Faulty;
    forall b
      ensures Reach.Reaches(TableOf(g, symbols), a, b) <==> HintsReach(g, a, b)
      ensures Reach.Stuck(TableOf(g, symbols), b) <==> Faulty(g, symbols, b)
    {
      ReachIffHints(g, symbols, a, b);
      StuckIffFaulty(g, symbols, b);
    }
  }

  lemma ExplainedIsReported(g: Graph, symbols: Symbols, a: Path, d: Diagnostic)
    requires Reach.Explains(TableOf(g, symbols), a, d)
    ensures Reports(g, symbols, a, d)
  {
    hide TableOf, Reach.Reaches, HintsReach, Order.IsMissing, MissingHint, Order.IsCycle, HintCycle;
    match d {
      case MissingTarget(hint) =>
        var b :| Reach.Reaches(TableOf(g, symbols), a, b) && Order.IsMissing(TableOf(g, symbols), b, hint);
        ReachIffHints(g, symbols, a, b);
        MissingIffHint(g, symbols, b, hint);
      case Circular(path) =>
        ReachIffHints(g, symbols, a, path);
        var cycle :| Order.IsCycle(TableOf(g, symbols), cycle) && path in cycle;
        CycleIffHints(g, symbols, cycle);
      case UnresolvedGraphEdge =>
    }
  }

  /** The diagnostics a sort returns; none when it succeeds. */
  function Diagnostics(headers: seq<Header>, symbols: Symbols): seq<Diagnostic> {
    match Resolved(headers, symbols)
    case Success(_) => []
    case Failure(diagnostics) => diagnostics
  }

  /** The places of the headers that lead astray, each with a diagnostic about it. */
  ghost predicate AstrayPlaces(
    g: Graph, symbols: Symbols, paths: seq<Path>, at: seq<nat>, diagnostics: seq<Diagnostic>)
  {
    && Increasing(at) && |at| == |diagnostics|
    && (forall i :: i in at <==> 0 <= i < |paths| && LeadsAstray(g, symbols, paths[i]))
    && (forall k :: 0 <= k < |at| ==> at[k] < |paths| && Reports(g, symbols, paths[at[k]], diagnostics[k]))
  }

  lemma BlockedAreAstray(g: Graph, symbols: Symbols, paths: seq<Path>, at: seq<nat>, diagnostics: seq<Diagnostic>)
    requires Reach.BlockedPlaces(TableOf(g, symbols), paths, 0, at, diagnostics)
    ensures AstrayPlaces(g, symbols, paths, at, diagnostics)
  {
    hide TableOf, LeadsAstray, Reports, Reach.Blocked, Reach.Explains;
    forall i | 0 <= i < |paths|
      ensures Reach.Blocked(TableOf(g, symbols), paths[i]) <==> LeadsAstray(g, symbols, paths[i])
    {
      BlockedIffAstray(g, symbols, paths[i]);
    }
    forall k | 0 <= k < |at|
      ensures Reports(g, symbols, paths[at[k]], diagnostics[k])
    {
      ExplainedIsReported(g, symbols, paths[at[k]], diagnostics[k]);
    }
  }

  /** A failed sort reports the headers that lead astray, each once and in source order, and no
      others: as many diagnostics as such headers, and each is about its header. */
  lemma DiagnosticsFollowHeaders(headers: seq<Header>, symbols: Symbols) returns (at: seq<nat>)
    ensures AstrayPlaces(
        HeaderGraph(headers), symbols, Map(PathOf, TopHeaders(headers)), at, Diagnostics(headers, symbols))
  {
    hide TableOf, GraphOf, OfKind, Order.Inv, Order.VisitRoots, Order.WellResolved, HeadersAt;
    hide AstrayPlaces, Reach.BlockedPlaces;
    var g := HeaderGraph(headers);
    var t := TableOf(g, symbols);
    TableIsWellResolved(g, symbols);
    KeysOfTable(g, symbols);
    StartsEmpty(t);
    assert forall p :: p in g.orderedPaths ==> p in g.headersByPath.Keys;
    at := Reach.DiagnosticPerRoot(t, g.orderedPaths, 0, Order.INITIAL);
    assert g.orderedPaths[0..] == g.orderedPaths;
    BlockedAreAstray(g, symbols, g.orderedPaths, at, Diagnostics(headers, symbols));
  }

  lemma KeysOfTable(g: Graph, symbols: Symbols)
    ensures TableOf(g, symbols).edges.Keys == g.headersByPath.Keys
  {
  }

  lemma StartsEmpty(t: Table)
    ensures Order.Inv(t, Order.INITIAL) && Order.INITIAL.stack == []
  {
  }

  // ---------------------------------------------------------------- in which order headers are listed

  /** `q` is given before `p`. */
  predicate Earlier(tops: seq<Header>, q: Path, p: Path) {
    exists i, j :: 0 <= i < j < |tops| && tops[i].path == q && tops[j].path == p
  }

  ghost predicate ReachesEither(g: Graph, p: Path, x: Path, y: Path) {
    HintsReach(g, p, x) || HintsReach(g, p, y)
  }

  /** Of the headers this one hints at, the one given first from which either is reached. */
  ghost predicate FirstHint(tops: seq<Header>, g: Graph, from: Path, p: Path, x: Path, y: Path) {
    && HintsAt(g, from, p) && ReachesEither(g, p, x, y)
    && forall q :: HintsAt(g, from, q) && Earlier(tops, q, p) ==> !ReachesEither(g, q, x, y)
  }

  ghost predicate NoneBefore(tops: seq<Header>, g: Graph, i: int, x: Path, y: Path) {
    forall j :: 0 <= j < i <= |tops| ==> !ReachesEither(g, tops[j].path, x, y)
  }

  /** Of all headers, the one given first from which either is reached. */
  ghost predicate FirstHeader(tops: seq<Header>, g: Graph, p: Path, x: Path, y: Path) {
    && ReachesEither(g, p, x, y)
    && exists i :: 0 <= i < |tops| && tops[i].path == p && NoneBefore(tops, g, i, x, y)
  }

  /** A header other than the two that reaches both, and its first hint towards either. */
  ghost predicate SharedHint(tops: seq<Header>, g: Graph, from: Path, p: Path, x: Path, y: Path) {
    && from != x && from != y && HintsReach(g, from, x) && HintsReach(g, from, y)
    && FirstHint(tops, g, from, p, x, y)
  }

  /** From the first header that reaches either, by the first hint towards either at every step
      through headers that reach both, down to one that reaches `y` and not `x`. */
  ghost predicate WayToOne(tops: seq<Header>, g: Graph, way: seq<Path>, x: Path, y: Path) {
    && way != [] && FirstHeader(tops, g, way[0], x, y)
    && HintsReach(g, way[|way| - 1], y) && !HintsReach(g, way[|way| - 1], x)
    && forall k :: 0 <= k < |way| - 1 ==> SharedHint(tops, g, way[k], way[k + 1], x, y)
  }

  lemma EdgesAscend(g: Graph, symbols: Symbols, header: Header, i: nat, j: nat)
    requires i < j < |SortedEdges(g, symbols, header)|
    ensures EdgeOrder(SortedEdges(g, symbols, header)[i]) <= EdgeOrder(SortedEdges(g, symbols, header)[j])
  {
    var leq := (a, b) => EdgeLeq(symbols, a, b);
    EdgeLeqPreorder(symbols);
    SortBySorts(leq, Map(hint => ResolveEdge(g, symbols, header, hint), header.hints));
    assert leq(SortedEdges(g, symbols, header)[i], SortedEdges(g, symbols, header)[j]);
  }

  lemma TargetOrder(g: Graph, symbols: Symbols, header: Header, i: nat, p: Path)
    requires Precedence.TargetAt(SortedEdges(g, symbols, header), i, p)
    requires p in g.sourceOrder
    ensures EdgeOrder(SortedEdges(g, symbols, header)[i]) == g.sourceOrder[p]
  {
    SortedEdgesFromHints(g, symbols, header);
    var e := SortedEdges(g, symbols, header)[i];
    assert e in SortedEdges(g, symbols, header);
    var k :| 0 <= k < |header.hints| && e == ResolveEdge(g, symbols, header, header.hints[k]);
    EdgeIsClassified(g, symbols, header, header.hints[k]);
  }

  lemma EarlierIsSmaller(tops: seq<Header>, q: Path, p: Path)
    requires DistinctPaths(tops) && Earlier(tops, q, p)
    ensures q in GraphOf(tops).sourceOrder && p in GraphOf(tops).sourceOrder
    ensures GraphOf(tops).sourceOrder[q] < GraphOf(tops).sourceOrder[p]
  {
    hide GraphOf;
    DistinctGraph(tops);
  }

  lemma MeetsIffHints(g: Graph, symbols: Symbols, p: Path, x: Path, y: Path)
    ensures Precedence.Meets(TableOf(g, symbols), p, x, y) <==> ReachesEither(g, p, x, y)
  {
    hide TableOf, Reach.Reaches, HintsReach;
    ReachIffHints(g, symbols, p, x);
    ReachIffHints(g, symbols, p, y);
  }

  lemma TargetOfHint(g: Graph, symbols: Symbols, from: Path, q: Path) returns (j: nat)
    requires HintsAt(g, from, q)
    ensures Precedence.TargetAt(TableOf(g, symbols).edges[from], j, q)
  {
    hide TableOf;
    DependsIffHint(g, symbols, from, q);
    j := Precedence.EdgeTo(TableOf(g, symbols), from, q);
  }

  lemma FirstEdgeIsFirstHint(tops: seq<Header>, symbols: Symbols, from: Path, p: Path, x: Path, y: Path)
    requires DistinctPaths(tops) && from in GraphOf(tops).headersByPath
    requires var t := TableOf(GraphOf(tops), symbols); Precedence.FirstEdge(t, t.edges[from], p, x, y)
    ensures FirstHint(tops, GraphOf(tops), from, p, x, y)
  {
    hide GraphOf, Earlier, Precedence.Meets, ReachesEither, SortedEdges, EdgeOrder, DistinctPaths;
    var g := GraphOf(tops);
    var t, edges := TableOf(g, symbols), TableOf(g, symbols).edges[from];
    var i :| Precedence.TargetAt(edges, i, p)
      && forall j, q :: j < i && Precedence.TargetAt(edges, j, q) ==> !Precedence.Meets(t, q, x, y);
    assert Order.DependsOn(t, from, p);
    DependsIffHint(g, symbols, from, p);
    MeetsIffHints(g, symbols, p, x, y);
    forall q | HintsAt(g, from, q) && Earlier(tops, q, p)
      ensures !ReachesEither(g, q, x, y)
    {
      var j := TargetOfHint(g, symbols, from, q);
      EarlierIsSmaller(tops, q, p);
      TargetOrder(g, symbols, g.headersByPath[from], i, p);
      TargetOrder(g, symbols, g.headersByPath[from], j, q);
      if i < j {
        EdgesAscend(g, symbols, g.headersByPath[from], i, j);
      }
      MeetsIffHints(g, symbols, q, x, y);
    }
  }

  lemma {:induction false} SomeFirstEdge(t: Table, edges: seq<Edge>, i: nat, p: Path, x: Path, y: Path)
    returns (q: Path)
    requires Precedence.TargetAt(edges, i, p) && Precedence.Meets(t, p, x, y)
    ensures Precedence.FirstEdge(t, edges, q, x, y)
  {
    hide Precedence.Meets, Precedence.FirstEdge;
    var e := edges[0];
    if e.kind.GraphHeader? && e.resolved.Some? && Precedence.Meets(t, e.resolved.value, x, y) {
      q := e.resolved.value;
      Precedence.HeadIsFirst(t, edges, q, x, y);
    } else {
      assert i > 0;
      assert Precedence.TargetAt(edges[1..], i - 1, p);
      q := SomeFirstEdge(t, edges[1..], i - 1, p, x, y);
      Precedence.FirstBehind(t, edges, q, x, y);
    }
  }

  lemma FirstHintIsFirstEdge(tops: seq<Header>, symbols: Symbols, from: Path, p: Path, x: Path, y: Path)
    requires DistinctPaths(tops) && FirstHint(tops, GraphOf(tops), from, p, x, y)
    ensures from in GraphOf(tops).headersByPath
    ensures var t := TableOf(GraphOf(tops), symbols); Precedence.FirstEdge(t, t.edges[from], p, x, y)
  {
    hide GraphOf, Earlier, Precedence.Meets, Precedence.FirstEdge, Precedence.TargetAt, ReachesEither, SortedEdges;
    hide DistinctPaths;
    var g := GraphOf(tops);
    var t := TableOf(g, symbols);
    var j := TargetOfHint(g, symbols, from, p);
    MeetsIffHints(g, symbols, p, x, y);
    var q := SomeFirstEdge(t, t.edges[from], j, p, x, y);
    FirstEdgeIsFirstHint(tops, symbols, from, q, x, y);
    OneIsEarlier(tops, p, q);
  }

  lemma OneIsEarlier(tops: seq<Header>, p: Path, q: Path)
    requires p in GraphOf(tops).headersByPath && q in GraphOf(tops).headersByPath
    ensures p == q || Earlier(tops, p, q) || Earlier(tops, q, p)
  {
    hide GraphOf;
    var i :| 0 <= i < |tops| && Map(PathOf, tops)[i] == p;
    var j :| 0 <= j < |tops| && Map(PathOf, tops)[j] == q;
    assert tops[i].path == p && tops[j].path == q;
  }

  lemma FirstRootIffHeader(tops: seq<Header>, symbols: Symbols, p: Path, x: Path, y: Path)
    ensures Precedence.FirstRoot(TableOf(GraphOf(tops), symbols), Map(PathOf, tops), p, x, y)
       <==> FirstHeader(tops, GraphOf(tops), p, x, y)
  {
    hide GraphOf, TableOf, Precedence.Meets, ReachesEither;
    MeetsIffHints(GraphOf(tops), symbols, p, x, y);
    forall i | 0 <= i < |tops|
      ensures Precedence.Meets(TableOf(GraphOf(tops), symbols), Map(PathOf, tops)[i], x, y)
         <==> ReachesEither(GraphOf(tops), tops[i].path, x, y)
    {
      MeetsIffHints(GraphOf(tops), symbols, tops[i].path, x, y);
    }
    if FirstHeader(tops, GraphOf(tops), p, x, y) {
      var i :| 0 <= i < |tops| && tops[i].path == p
        && NoneBefore(tops, GraphOf(tops), i, x, y);
      assert Map(PathOf, tops)[i] == p;
    }
  }

  lemma StepIffHint(tops: seq<Header>, symbols: Symbols, from: Path, p: Path, x: Path, y: Path)
    requires DistinctPaths(tops)
    ensures Precedence.Shared(TableOf(GraphOf(tops), symbols), from, p, x, y)
       <==> SharedHint(tops, GraphOf(tops), from, p, x, y)
  {
    hide GraphOf, Precedence.FirstEdge, FirstHint, Reach.Reaches, HintsReach, SortedEdges;
    ReachIffHints(GraphOf(tops), symbols, from, x);
    ReachIffHints(GraphOf(tops), symbols, from, y);
    var t := TableOf(GraphOf(tops), symbols);
    if from in t.edges && Precedence.FirstEdge(t, t.edges[from], p, x, y) {
      FirstEdgeIsFirstHint(tops, symbols, from, p, x, y);
    }
    if FirstHint(tops, GraphOf(tops), from, p, x, y) {
      FirstHintIsFirstEdge(tops, symbols, from, p, x, y);
    }
  }

  lemma WayIffParts(tops: seq<Header>, symbols: Symbols, way: seq<Path>, x: Path, y: Path)
    requires DistinctPaths(tops) && way != []
    ensures var t := TableOf(GraphOf(tops), symbols);
      Precedence.PartsAt(t, way, x, y) && Precedence.FirstRoot(t, Map(PathOf, tops), way[0], x, y) <==>
        WayToOne(tops, GraphOf(tops), way, x, y)
  {
    hide GraphOf, TableOf, Precedence.FirstRoot, Precedence.Shared, SharedHint, FirstHeader;
    hide Reach.Reaches, HintsReach, DistinctPaths, Map;
    var g := GraphOf(tops);
    FirstRootIffHeader(tops, symbols, way[0], x, y);
    ReachIffHints(g, symbols, way[|way| - 1], x);
    ReachIffHints(g, symbols, way[|way| - 1], y);
    forall k | 0 <= k < |way| - 1
      ensures Precedence.Shared(TableOf(g, symbols), way[k], way[k + 1], x, y)
         <==> SharedHint(tops, g, way[k], way[k + 1], x, y)
    {
      StepIffHint(tops, symbols, way[k], way[k + 1], x, y);
    }
  }

  lemma PartsIffWay(tops: seq<Header>, symbols: Symbols, x: Path, y: Path)
    requires DistinctPaths(tops)
    ensures Precedence.Parts(TableOf(GraphOf(tops), symbols), Map(PathOf, tops), x, y)
       <==> exists way :: way != [] && WayToOne(tops, GraphOf(tops), way, x, y)
  {
    hide GraphOf, TableOf, Precedence.PartsAt, Precedence.FirstRoot, WayToOne, DistinctPaths, Map;
    var t := TableOf(GraphOf(tops), symbols);
    if Precedence.Parts(t, Map(PathOf, tops), x, y) {
      var way :| way != [] && Precedence.PartsAt(t, way, x, y)
        && Precedence.FirstRoot(t, Map(PathOf, tops), way[0], x, y);
      WayIffParts(tops, symbols, way, x, y);
    }
    if way :| way != [] && WayToOne(tops, GraphOf(tops), way, x, y) {
      WayIffParts(tops, symbols, way, x, y);
    }
  }

  lemma PlacesInOrder(order: seq<Path>, a: nat, b: nat)
    requires NoRepeats(order) && a < |order| && b < |order| && a != b
    ensures Precedence.ListedFirst(order, order[a], order[b]) <==> a < b
  {
    if a < b {
      assert order[b] !in order[..a];
    } else {
      Precedence.InTake(order, a);
    }
  }

  /** The order of a successful sort, exactly. Of two headers the one listed first is the one the
      other leads to by hints or, when neither leads to the other, the one that the way from the
      first header reaching either turns to, taking hints in source order. */
  lemma ListedFirstExactly(headers: seq<Header>, symbols: Symbols, a: nat, b: nat)
    requires DistinctPaths(TopHeaders(headers)) && Resolved(headers, symbols).Success?
    requires a < |TopHeaders(headers)| && b < |TopHeaders(headers)| && a != b
    ensures |Resolved(headers, symbols).value.headers| >= |TopHeaders(headers)|
    ensures var tops, g := TopHeaders(headers), HeaderGraph(headers);
      var x, y := Resolved(headers, symbols).value.headers[b].path, Resolved(headers, symbols).value.headers[a].path;
      a < b <==> HintsReach(g, x, y) || exists way :: way != [] && WayToOne(tops, g, way, x, y)
  {
    hide TableOf, GraphOf, OfKind, Order.VisitRoots, Order.WellResolved, Order.SettledBy, Order.IsChain;
    hide HintsReach, WayToOne, Reach.Reaches, Precedence.Parts, DistinctPaths, Precedence.ListedFirst;
    var tops, g := TopHeaders(headers), HeaderGraph(headers);
    var t, order := TableOf(g, symbols), Traverse(headers, symbols).1.sorted;
    TraversalKeeps(headers, symbols);
    AllListed(headers, symbols);
    var x, y := order[b], order[a];
    assert Resolved(headers, symbols).value.headers == HeadersAt(g, order) + OfKind(StartFunction, headers);
    TableIsWellResolved(g, symbols);
    KeysOfTable(g, symbols);
    assert forall p :: p in g.orderedPaths <==> p in g.headersByPath.Keys;
    Precedence.ListedFirstExactly(t, g.orderedPaths, x, y);
    ReachIffHints(g, symbols, x, y);
    PartsIffWay(tops, symbols, x, y);
    PlacesInOrder(order, a, b);
  }

  lemma AllListed(headers: seq<Header>, symbols: Symbols)
    requires DistinctPaths(TopHeaders(headers)) && Resolved(headers, symbols).Success?
    ensures |Traverse(headers, symbols).1.sorted| == |TopHeaders(headers)|
  {
    hide TableOf, OfKind, DistinctPaths, Traverse, GraphOf;
    SortIsPermutation(headers, symbols);
    var starts := OfKind(StartFunction, headers);
    assert |multiset(Resolved(headers, symbols).value.headers)| == |multiset(TopHeaders(headers))| + |multiset(starts)|;
  }

  // ---------------------------------------------------------------- counts

  /** The headers of one kind, all of them and in their order. */
  lemma {:induction false} KindInOrder(kind: HeaderKind, headers: seq<Header>) returns (at: seq<nat>)
    ensures Increasing(at) && |at| == |OfKind(kind, headers)|
    ensures forall i :: i in at ==> i < |headers| && headers[i].kind == kind
    ensures forall i :: 0 <= i < |headers| && headers[i].kind == kind ==> i in at
    ensures forall k :: 0 <= k < |at| ==> at[k] < |headers| && OfKind(kind, headers)[k] == headers[at[k]]
  {
    if headers == [] {
      at := [];
    } else {
      var last := |headers| - 1;
      at := KindInOrder(kind, headers[..last]);
      if headers[last].kind == kind {
        at := at + [last];
      }
    }
  }

  /** No header given before this one leads to it. */
  ghost predicate ReachedEarlier(g: Graph, tops: seq<Header>, k: nat)
    requires k < |tops|
  {
    exists j :: 0 <= j < k && HintsReach(g, tops[j].path, tops[k].path)
  }

  /** The headers from the `k`th on that no earlier one leads to. */
  ghost function Starts(g: Graph, tops: seq<Header>, k: nat): nat
    requires k <= |tops|
    decreases |tops| - k
  {
    if k == |tops| then 0 else (if ReachedEarlier(g, tops, k) then 0 else 1) + Starts(g, tops, k + 1)
  }

  function NamesHeader(g: Graph): Path -> nat {
    hint => if hint in g.headersByPath then 1 else 0
  }

  /** How many hints of a header name a header. */
  function HeaderHints(g: Graph): Header -> nat {
    (h: Header) => Total(NamesHeader(g), h.hints)
  }

  lemma EdgesOfHeader(g: Graph, symbols: Symbols, header: Header)
    ensures Total(Visits.IsGraphEdge, SortedEdges(g, symbols, header)) == HeaderHints(g)(header)
  {
    hide Total;
    var resolve := (hint: Path) => ResolveEdge(g, symbols, header, hint);
    var edges := Map(resolve, header.hints);
    assert multiset(SortedEdges(g, symbols, header)) == multiset(edges);
    SameTotals(Visits.IsGraphEdge, SortedEdges(g, symbols, header), edges);
    TotalOfMap(resolve, Visits.IsGraphEdge, NamesHeader(g), header.hints);
  }

  lemma StartsAreHeads(tops: seq<Header>, symbols: Symbols, k: nat)
    requires k <= |tops|
    ensures Visits.Heads(TableOf(GraphOf(tops), symbols), Map(PathOf, tops), k) == Starts(GraphOf(tops), tops, k)
    decreases |tops| - k
  {
    hide GraphOf, TableOf, Reach.Reaches, HintsReach;
    if k < |tops| {
      forall j | 0 <= j < k
        ensures Reach.Reaches(TableOf(GraphOf(tops), symbols), Map(PathOf, tops)[j], Map(PathOf, tops)[k])
           <==> HintsReach(GraphOf(tops), tops[j].path, tops[k].path)
      {
        ReachIffHints(GraphOf(tops), symbols, tops[j].path, tops[k].path);
      }
      StartsAreHeads(tops, symbols, k + 1);
    }
  }

  /** A successful sort visits once every header that no earlier one leads to, and once more for
      every hint that names a header; it also says how many headers and hints there were. */
  lemma CountsExactly(headers: seq<Header>, symbols: Symbols)
    requires DistinctPaths(TopHeaders(headers)) && Resolved(headers, symbols).Success?
    ensures var tops, g, sorted := TopHeaders(headers), HeaderGraph(headers), Resolved(headers, symbols).value;
      && sorted.headerCount == |tops|
      && sorted.edgeCount == Total((h: Header) => |h.hints|, tops)
      && sorted.visitCount == Starts(g, tops, 0) + Total(HeaderHints(g), tops)
  {
    hide GraphOf, TableOf, OfKind, Order.VisitRoots, Order.Inv, Order.WellResolved, DistinctPaths, HeadersAt, Starts;
    hide Visits.Covered, Visits.Heads, HeaderHints, HintCount;
    var tops, g := TopHeaders(headers), HeaderGraph(headers);
    var t := TableOf(g, symbols);
    TableIsWellResolved(g, symbols);
    KeysOfTable(g, symbols);
    Visits.NothingCovered(t, g.orderedPaths);
    assert g.orderedPaths[0..] == g.orderedPaths;
    assert forall p :: p in g.orderedPaths ==> p in g.headersByPath.Keys;
    Visits.RootsVisit(t, g.orderedPaths, 0, Order.INITIAL);
    StartsAreHeads(tops, symbols, 0);
    VisitedHints(headers, symbols);
    HintsAreTotal(tops);
  }

  lemma {:induction false} HintsAreTotal(tops: seq<Header>)
    ensures HintCount(tops) == Total((h: Header) => |h.hints|, tops)
  {
    if tops != [] {
      var last := |tops| - 1;
      HintsAreTotal(tops[..last]);
      assert tops == tops[..last] + [tops[last]];
      TotalOfBoth((h: Header) => |h.hints|, tops[..last], [tops[last]]);
    }
  }

  lemma VisitedHints(headers: seq<Header>, symbols: Symbols)
    requires DistinctPaths(TopHeaders(headers)) && Resolved(headers, symbols).Success?
    ensures var g := HeaderGraph(headers);
      Total(Visits.EdgesOf(TableOf(g, symbols)), Traverse(headers, symbols).1.sorted)
      == Total(HeaderHints(g), TopHeaders(headers))
  {
    hide GraphOf, OfKind, Order.VisitRoots, Order.Inv, DistinctPaths, SortedEdges, Total, Traverse, HeaderHints;
    var tops, g := TopHeaders(headers), HeaderGraph(headers);
    var t, order := TableOf(g, symbols), Traverse(headers, symbols).1.sorted;
    TraversalKeeps(headers, symbols);
    var sorted := HeadersAt(g, order);
    forall p | p in order
      ensures Visits.EdgesOf(t)(p) == HeaderHints(g)(g.headersByPath[p])
    {
      EdgesOfHeader(g, symbols, g.headersByPath[p]);
    }
    var stored := (p: Path) => if p in g.headersByPath then g.headersByPath[p] else Header([], [], [], TopLevel);
    assert Map(stored, order) == sorted;
    TotalOfMap(stored, HeaderHints(g), Visits.EdgesOf(t), order);
    SortIsPermutation(headers, symbols);
    TopsOnly(sorted, tops, OfKind(StartFunction, headers), Resolved(headers, symbols).value.headers);
    SameTotals(HeaderHints(g), sorted, tops);
  }

  lemma TopsOnly(sorted: seq<Header>, tops: seq<Header>, starts: seq<Header>, all: seq<Header>)
    requires all == sorted + starts && multiset(all) == multiset(tops) + multiset(starts)
    ensures multiset(sorted) == multiset(tops)
  {
    assert multiset(sorted) == multiset(all) - multiset(starts);
  }
}
