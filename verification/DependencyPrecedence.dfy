/** Which of two headers a successful traversal lists first, decided by reachability and the order
    of roots and edges. */
module DependencyPrecedence {
  import opened Wrappers
  import opened Bytes
  import opened DependencyGraph
  import opened DependencyOrder
  import opened DependencyReach

  /** `y` is listed, and `x` not before it. */
  predicate ListedFirst(order: seq<Path>, y: Path, x: Path) {
    exists i :: 0 <= i < |order| && order[i] == y && x !in order[..i]
  }

  ghost predicate Meets(t: Table, p: Path, x: Path, y: Path) {
    Reaches(t, p, x) || Reaches(t, p, y)
  }

  predicate TargetAt(edges: seq<Edge>, i: int, p: Path) {
    0 <= i < |edges| && edges[i].kind.GraphHeader? && edges[i].resolved == Some(p)
  }

  /** The first edge target from which either header is reached. */
  ghost predicate FirstEdge(t: Table, edges: seq<Edge>, p: Path, x: Path, y: Path) {
    && Meets(t, p, x, y)
    && exists i :: TargetAt(edges, i, p) && forall j, q :: j < i && TargetAt(edges, j, q) ==> !Meets(t, q, x, y)
  }

  ghost predicate FirstRoot(t: Table, roots: seq<Path>, p: Path, x: Path, y: Path) {
    && Meets(t, p, x, y)
    && exists i :: 0 <= i < |roots| && roots[i] == p && forall j :: 0 <= j < i ==> !Meets(t, roots[j], x, y)
  }

  /** A header other than the two from which both are reached, and its first edge towards either. */
  ghost predicate Shared(t: Table, p: Path, next: Path, x: Path, y: Path) {
    && p in t.edges && p != x && p != y && Reaches(t, p, x) && Reaches(t, p, y)
    && FirstEdge(t, t.edges[p], next, x, y)
  }

  /** The way down from a header to the place where the two part: at every step the first edge
      towards either, up to a header that reaches `y` and not `x`. */
  ghost predicate PartsAt(t: Table, way: seq<Path>, x: Path, y: Path) {
    && way != []
    && Reaches(t, way[|way| - 1], y) && !Reaches(t, way[|way| - 1], x)
    && forall k :: 0 <= k < |way| - 1 ==> Shared(t, way[k], way[k + 1], x, y)
  }

  lemma FirstInPrefix(order: seq<Path>, longer: seq<Path>, y: Path, x: Path)
    requires order <= longer && ListedFirst(longer, y, x) && (x in order || y in order)
    ensures ListedFirst(order, y, x)
  {
    var i :| 0 <= i < |longer| && longer[i] == y && x !in longer[..i];
    if i < |order| {
      assert order[..i] == longer[..i];
    } else {
      assert forall k :: 0 <= k < |order| ==> order[k] == longer[..i][k];
      var k :| 0 <= k < |order| && order[k] == y;
      assert x !in order[..k];
    }
  }

  /** What a dependency of the other cannot do: be listed after it. */
  lemma ReachedIsFirst(t: Table, s: State, x: Path, y: Path)
    requires Inv(t, s) && x in s.sorted && Reaches(t, x, y)
    ensures ListedFirst(s.sorted, y, x)
  {
    hide Reaches, SettledBy, IsChain;
    var i :| 0 <= i < |s.sorted| && s.sorted[i] == x;
    var j := FinishedReach(t, s, x, y, i);
    assert x !in s.sorted[..j];
  }

  lemma NotBothFirst(order: seq<Path>, x: Path, y: Path)
    requires x != y && ListedFirst(order, y, x)
    ensures !ListedFirst(order, x, y)
  {
    var i :| 0 <= i < |order| && order[i] == y && x !in order[..i];
    InTake(order, i);
    forall k | 0 <= k < |order| && order[k] == x
      ensures y in order[..k]
    {
      assert i < k;
      assert order[..k][i] == y;
    }
  }

  lemma InTake(order: seq<Path>, i: nat)
    requires i <= |order|
    ensures forall m :: 0 <= m < i ==> order[m] in order[..i]
  {
    assert forall m :: 0 <= m < i ==> order[..i][m] == order[m];
  }

  lemma OneIsFirst(order: seq<Path>, x: Path, y: Path)
    requires x in order && y in order
    ensures ListedFirst(order, y, x) || ListedFirst(order, x, y)
  {
    var i :| 0 <= i < |order| && order[i] == y;
    if x in order[..i] {
      var k := FirstIndex(order, x);
      var j := FirstIndex(order, y);
      if k <= j {
        assert y !in order[..k];
      } else {
        assert x !in order[..j];
      }
    }
  }

  lemma {:induction false} FirstIndex(order: seq<Path>, x: Path) returns (k: nat)
    requires x in order
    ensures k < |order| && order[k] == x && x !in order[..k]
  {
    var i :| 0 <= i < |order| && order[i] == x;
    if x in order[..i] {
      k := FirstIndex(order[..i], x);
      assert order[..i][..k] == order[..k];
    } else {
      k := i;
    }
  }

  // ---------------------------------------------------------------- the traversal decides

  /** Neither header is finished yet. */
  predicate Open(t: Table, s: State, x: Path, y: Path) {
    x in t.edges && y in t.edges && x !in s.visited && y !in s.visited
  }

  lemma OpenIsUnlisted(t: Table, s: State, x: Path, y: Path)
    requires Inv(t, s) && x in t.edges && y in t.edges
    ensures Open(t, s, x, y) <==> x !in s.sorted && y !in s.sorted
  {
    assert x in Elements(s.sorted) <==> x in s.sorted;
    assert y in Elements(s.sorted) <==> y in s.sorted;
  }

  /** A visit from which neither is reached leaves both open. */
  lemma StaysOpen(t: Table, path: Path, s: State, x: Path, y: Path)
    requires Inv(t, s) && Inv(t, VisitNode(t, path, s).1)
    requires Open(t, s, x, y) && !Meets(t, path, x, y)
    ensures Open(t, VisitNode(t, path, s).1, x, y)
  {
    hide Inv, Reaches, VisitNode, Open;
    var next := VisitNode(t, path, s).1;
    assert x in t.edges && y in t.edges by {
      OpenInTable(t, s, x, y);
    }
    OpenIsUnlisted(t, s, x, y);
    OpenIsUnlisted(t, next, x, y);
    if x in next.sorted {
      VisitNodeAdds(t, path, s, x);
    }
    if y in next.sorted {
      VisitNodeAdds(t, path, s, y);
    }
  }

  lemma OpenInTable(t: Table, s: State, x: Path, y: Path)
    requires Open(t, s, x, y)
    ensures x in t.edges && y in t.edges
  {
  }

  /** A successful visit that meets the two lists one of them. */
  lemma MeetingLists(t: Table, path: Path, s: State, x: Path, y: Path)
    requires WellResolved(t) && Inv(t, s) && Follows(t, s, path) && path in t.edges && Meets(t, path, x, y)
    requires VisitNode(t, path, s).0.Pass?
    ensures var after := VisitNode(t, path, s).1; Inv(t, after) && (x in after.sorted || y in after.sorted)
  {
    hide Reaches, SettledBy, VisitNode, IsChain;
    VisitNodeKeeps(t, path, s);
    var after := VisitNode(t, path, s).1;
    assert path in Elements(after.sorted);
    if Reaches(t, path, x) {
      AllFinished(t, after, path, x);
    } else {
      AllFinished(t, after, path, y);
    }
  }

  lemma {:induction false} NodeDecides(t: Table, path: Path, s: State, x: Path, y: Path) returns (way: seq<Path>)
    requires WellResolved(t) && Inv(t, s) && Follows(t, s, path) && path in t.edges
    requires Open(t, s, x, y) && Meets(t, path, x, y) && !Reaches(t, x, y)
    requires VisitNode(t, path, s).0.Pass? && ListedFirst(VisitNode(t, path, s).1.sorted, y, x)
    ensures PartsAt(t, way, x, y) && way != [] && way[0] == path
    decreases Unmarked(t, s), 0, 0
  {
    hide Inv, Reaches, WellResolved, FirstEdge, Open, Meets, ListedFirst, VisitNode, VisitEdges, Follows;
    MeetingLists(t, path, s, x, y);
    OpenInTable(t, s, x, y);
    OpenIsUnlisted(t, s, x, y);
    var after := VisitNode(t, path, s).1;
    ListedIsReached(t, path, s, x, y);
    if !Reaches(t, path, x) {
      way := [path];
    } else {
      NeitherItself(t, path, after, x, y);
      NotYetVisited(t, path, s, x, y);
      NodeThenEdges(t, path, s);
      var entered := Entered(s, path);
      OpenIsUnlisted(t, entered, x, y);
      FirstBelow(VisitEdges(t, t.edges[path], entered).1.sorted, path, y, x);
      var step := FirstStep(t, path, x);
      var i := EdgeTo(t, path, step);
      MeetsOne(t, step, x, y);
      var rest := EdgesDecide(t, path, t.edges[path], entered, x, y, i, step);
      way := [path] + rest;
      assert forall k :: 0 < k < |way| ==> way[k] == rest[k - 1];
    }
  }

  lemma ListedIsReached(t: Table, path: Path, s: State, x: Path, y: Path)
    requires y !in s.sorted && ListedFirst(VisitNode(t, path, s).1.sorted, y, x)
    ensures Reaches(t, path, y)
  {
    hide Reaches, VisitNode;
    VisitNodeAdds(t, path, s, y);
  }

  lemma NodeThenEdges(t: Table, path: Path, s: State)
    requires Inv(t, s) && Follows(t, s, path) && path in t.edges && path !in s.visited
    requires VisitNode(t, path, s).0.Pass?
    ensures Inv(t, Entered(s, path)) && Unmarked(t, Entered(s, path)) < Unmarked(t, s)
    ensures Entered(s, path).stack == s.stack + [path] && Entered(s, path).sorted == s.sorted
    ensures VisitEdges(t, t.edges[path], Entered(s, path)).0.Pass?
    ensures VisitNode(t, path, s).1.sorted == VisitEdges(t, t.edges[path], Entered(s, path)).1.sorted + [path]
  {
    hide Inv, Follows, VisitEdges;
    EnterKeeps(t, path, s);
  }

  lemma MeetsOne(t: Table, p: Path, x: Path, y: Path)
    requires Reaches(t, p, x) || Reaches(t, p, y)
    ensures Meets(t, p, x, y)
  {
  }

  lemma EdgeTo(t: Table, path: Path, step: Path) returns (i: nat)
    requires DependsOn(t, path, step)
    ensures TargetAt(t.edges[path], i, step)
  {
    var e :| e in t.edges[path] && e.kind.GraphHeader? && e.resolved == Some(step);
    i :| 0 <= i < |t.edges[path]| && t.edges[path][i] == e;
  }

  lemma FirstBelow(order: seq<Path>, path: Path, y: Path, x: Path)
    requires ListedFirst(order + [path], y, x) && path != y
    ensures ListedFirst(order, y, x)
  {
    var i :| 0 <= i < |order + [path]| && (order + [path])[i] == y && x !in (order + [path])[..i];
    assert (order + [path])[..i] == order[..i];
  }

  lemma NeitherItself(t: Table, path: Path, after: State, x: Path, y: Path)
    requires Inv(t, after) && ListedFirst(after.sorted, y, x)
    requires !Reaches(t, x, y) && Reaches(t, path, x) && Reaches(t, path, y)
    ensures path != x && path != y
  {
    hide Inv, Reaches;
    ReachesItself(t, x);
    if path == y {
      ReachedIsFirst(t, after, y, x);
      NotBothFirst(after.sorted, x, y);
    }
  }

  lemma NotYetVisited(t: Table, path: Path, s: State, x: Path, y: Path)
    requires Inv(t, s) && Open(t, s, x, y) && path in t.edges && Reaches(t, path, x)
    ensures path !in s.visited
  {
    hide Reaches, SettledBy, IsChain;
    if path in s.visited {
      assert path in Elements(s.sorted);
      AllFinished(t, s, path, x);
      OpenIsUnlisted(t, s, x, y);
    }
  }

  lemma {:induction false} EdgesDecide(
    t: Table, path: Path, edges: seq<Edge>, s: State, x: Path, y: Path, i: nat, step: Path)
    returns (way: seq<Path>)
    requires WellResolved(t) && Inv(t, s)
    requires path in t.edges && s.stack != [] && s.stack[|s.stack| - 1] == path
    requires forall e :: e in edges ==> e in t.edges[path]
    requires Open(t, s, x, y) && !Reaches(t, x, y)
    requires TargetAt(edges, i, step) && Meets(t, step, x, y)
    requires VisitEdges(t, edges, s).0.Pass? && ListedFirst(VisitEdges(t, edges, s).1.sorted, y, x)
    ensures PartsAt(t, way, x, y) && way != [] && FirstEdge(t, edges, way[0], x, y)
    decreases Unmarked(t, s), 2, |edges|
  {
    hide Inv, Reaches, Meets, VisitNode, Open, ListedFirst, PartsAt, FirstEdge;
    var e := edges[0];
    assert e in t.edges[path];
    var next := VisitEdge(t, e, s).1;
    if e.kind.GraphHeader? && Meets(t, e.resolved.value, x, y) {
      var q := e.resolved.value;
      assert DependsOn(t, path, q);
      MeetingLists(t, q, s, x, y);
      FirstInPrefix(next.sorted, VisitEdges(t, edges, s).1.sorted, y, x);
      way := NodeDecides(t, q, s, x, y);
      HeadIsFirst(t, edges, q, x, y);
    } else {
      EdgeLeavesOpen(t, path, e, s, x, y);
      assert i > 0;
      assert TargetAt(edges[1..], i - 1, step);
      way := EdgesDecide(t, path, edges[1..], next, x, y, i - 1, step);
      FirstBehind(t, edges, way[0], x, y);
    }
  }

  lemma EdgeLeavesOpen(t: Table, path: Path, e: Edge, s: State, x: Path, y: Path)
    requires WellResolved(t) && Inv(t, s) && Open(t, s, x, y)
    requires path in t.edges && s.stack != [] && s.stack[|s.stack| - 1] == path && e in t.edges[path]
    requires VisitEdge(t, e, s).0.Pass?
    requires e.kind.GraphHeader? ==> !Meets(t, e.resolved.value, x, y)
    ensures Inv(t, VisitEdge(t, e, s).1) && Open(t, VisitEdge(t, e, s).1, x, y)
  {
    hide Inv, Meets, VisitNode;
    if e.kind.GraphHeader? {
      assert DependsOn(t, path, e.resolved.value);
      VisitNodeKeeps(t, e.resolved.value, s);
      StaysOpen(t, e.resolved.value, s, x, y);
    } else if e.kind.PackageExport? {
      ExportMarkKeeps(t, e.resolved.value, s);
    }
  }

  lemma HeadIsFirst(t: Table, edges: seq<Edge>, q: Path, x: Path, y: Path)
    requires TargetAt(edges, 0, q) && Meets(t, q, x, y)
    ensures FirstEdge(t, edges, q, x, y)
  {
    hide Meets;
    assert forall j, r :: TargetAt(edges, j, r) ==> j >= 0;
  }

  lemma FirstBehind(t: Table, edges: seq<Edge>, p: Path, x: Path, y: Path)
    requires edges != [] && FirstEdge(t, edges[1..], p, x, y)
    requires edges[0].kind.GraphHeader? && edges[0].resolved.Some? ==> !Meets(t, edges[0].resolved.value, x, y)
    ensures FirstEdge(t, edges, p, x, y)
  {
    hide Meets;
    var i :| TargetAt(edges[1..], i, p)
      && forall j, q :: j < i && TargetAt(edges[1..], j, q) ==> !Meets(t, q, x, y);
    assert TargetAt(edges, i + 1, p);
    forall j, q | j < i + 1 && TargetAt(edges, j, q)
      ensures !Meets(t, q, x, y)
    {
      if j > 0 {
        assert TargetAt(edges[1..], j - 1, q);
      }
    }
  }

  lemma {:induction false} RootsDecide(t: Table, roots: seq<Path>, s: State, x: Path, y: Path, i: nat)
    returns (way: seq<Path>)
    requires WellResolved(t) && Inv(t, s) && s.stack == []
    requires forall p :: p in roots ==> p in t.edges
    requires Open(t, s, x, y) && !Reaches(t, x, y) && i < |roots| && Meets(t, roots[i], x, y)
    requires VisitRoots(t, roots, s).0 == [] && ListedFirst(VisitRoots(t, roots, s).1.sorted, y, x)
    ensures PartsAt(t, way, x, y) && way != [] && FirstRoot(t, roots, way[0], x, y)
  {
    hide Inv, Reaches, WellResolved, Meets, VisitNode, Open, ListedFirst, PartsAt;
    var root := roots[0];
    if Meets(t, root, x, y) {
      assert root !in s.visited by {
        UnmetVisited(t, root, s, x, y);
      }
      MeetingLists(t, root, s, x, y);
      var next := VisitNode(t, root, s).1;
      RootsGrow(t, roots[1..], next);
      FirstInPrefix(next.sorted, VisitRoots(t, roots, s).1.sorted, y, x);
      way := NodeDecides(t, root, s, x, y);
    } else {
      var next := s;
      if root !in s.visited {
        next := VisitNode(t, root, s).1;
        VisitNodeKeeps(t, root, s);
        StaysOpen(t, root, s, x, y);
      }
      way := RootsDecide(t, roots[1..], next, x, y, i - 1);
      var k :| 0 <= k < |roots[1..]| && roots[1..][k] == way[0]
        && forall j :: 0 <= j < k ==> !Meets(t, roots[1..][j], x, y);
      assert roots[k + 1] == way[0];
      assert forall j :: 0 < j < k + 1 ==> roots[j] == roots[1..][j - 1];
    }
  }

  lemma UnmetVisited(t: Table, root: Path, s: State, x: Path, y: Path)
    requires Inv(t, s) && Open(t, s, x, y) && root in t.edges && Meets(t, root, x, y)
    ensures root !in s.visited
  {
    hide Reaches, Inv;
    if Reaches(t, root, x) {
      NotYetVisited(t, root, s, x, y);
    } else {
      NotYetVisited(t, root, s, y, x);
    }
  }

  lemma {:induction false} RootsGrow(t: Table, roots: seq<Path>, s: State)
    ensures s.sorted <= VisitRoots(t, roots, s).1.sorted
  {
    hide VisitNode;
    if roots != [] {
      RootsGrow(t, roots[1..], if roots[0] in s.visited then s else VisitNode(t, roots[0], s).1);
    }
  }

  // ---------------------------------------------------------------- and the decision is the only one

  lemma FirstEdgeUnique(t: Table, edges: seq<Edge>, p: Path, q: Path, x: Path, y: Path)
    requires FirstEdge(t, edges, p, x, y) && FirstEdge(t, edges, q, y, x)
    ensures p == q
  {
    hide Reaches;
    var i :| TargetAt(edges, i, p) && forall j, r :: j < i && TargetAt(edges, j, r) ==> !Meets(t, r, x, y);
    var k :| TargetAt(edges, k, q) && forall j, r :: j < k && TargetAt(edges, j, r) ==> !Meets(t, r, y, x);
  }

  lemma FirstRootUnique(t: Table, roots: seq<Path>, p: Path, q: Path, x: Path, y: Path)
    requires FirstRoot(t, roots, p, x, y) && FirstRoot(t, roots, q, y, x)
    ensures p == q
  {
    hide Reaches;
    var i :| 0 <= i < |roots| && roots[i] == p && forall j :: 0 <= j < i ==> !Meets(t, roots[j], x, y);
    var k :| 0 <= k < |roots| && roots[k] == q && forall j :: 0 <= j < k ==> !Meets(t, roots[j], y, x);
  }

  lemma {:induction false} WaysAgree(t: Table, way: seq<Path>, other: seq<Path>, x: Path, y: Path, k: nat)
    requires PartsAt(t, way, x, y) && PartsAt(t, other, y, x) && way[0] == other[0]
    requires k < |way| && k < |other|
    ensures way[k] == other[k]
  {
    hide Reaches, FirstEdge;
    if k > 0 {
      WaysAgree(t, way, other, x, y, k - 1);
      assert Shared(t, way[k - 1], way[k - 1 + 1], x, y) && Shared(t, other[k - 1], other[k - 1 + 1], y, x);
      FirstEdgeUnique(t, t.edges[way[k - 1]], way[k], other[k], x, y);
    }
  }

  lemma OnTheWay(t: Table, way: seq<Path>, x: Path, y: Path, k: nat)
    requires PartsAt(t, way, x, y) && k < |way|
    ensures Reaches(t, way[k], y) && (Reaches(t, way[k], x) <==> k < |way| - 1)
  {
    hide Reaches, FirstEdge;
    assert k < |way| - 1 ==> Shared(t, way[k], way[k + 1], x, y);
  }

  /** No way leads to both answers. */
  lemma OneAnswer(t: Table, way: seq<Path>, other: seq<Path>, x: Path, y: Path)
    requires PartsAt(t, way, x, y) && other != [] && way[0] == other[0]
    ensures !PartsAt(t, other, y, x)
  {
    hide Reaches, Shared;
    if PartsAt(t, other, y, x) {
      var k := if |way| <= |other| then |way| - 1 else |other| - 1;
      WaysAgree(t, way, other, x, y, k);
      OnTheWay(t, way, x, y, k);
      OnTheWay(t, other, y, x, k);
    }
  }

  /** The two part on the way down from the first root that reaches either. */
  ghost predicate Parts(t: Table, roots: seq<Path>, x: Path, y: Path) {
    exists way :: way != [] && PartsAt(t, way, x, y) && FirstRoot(t, roots, way[0], x, y)
  }

  lemma PartsOneWay(t: Table, roots: seq<Path>, x: Path, y: Path)
    requires Parts(t, roots, x, y)
    ensures !Parts(t, roots, y, x) && !Reaches(t, y, x)
  {
    hide Reaches, FirstRoot, FirstEdge;
    var way :| way != [] && PartsAt(t, way, x, y) && FirstRoot(t, roots, way[0], x, y);
    if Reaches(t, y, x) {
      ReachesTransitive(t, way[|way| - 1], y, x);
    }
    forall other
      ensures !(other != [] && PartsAt(t, other, y, x) && FirstRoot(t, roots, other[0], y, x))
    {
      if other != [] && PartsAt(t, other, y, x) && FirstRoot(t, roots, other[0], y, x) {
        FirstRootUnique(t, roots, way[0], other[0], x, y);
        OneAnswer(t, way, other, x, y);
      }
    }
  }

  lemma ListedFirstParts(t: Table, roots: seq<Path>, x: Path, y: Path)
    requires WellResolved(t) && (forall p :: p in roots <==> p in t.edges) && x in t.edges && y in t.edges
    requires VisitRoots(t, roots, INITIAL).0 == [] && ListedFirst(VisitRoots(t, roots, INITIAL).1.sorted, y, x)
    ensures Reaches(t, x, y) || Parts(t, roots, x, y)
  {
    hide Reaches, WellResolved, Meets, VisitNode, ListedFirst, PartsAt, FirstRoot;
    if !Reaches(t, x, y) {
      var i :| 0 <= i < |roots| && roots[i] == x;
      ReachesItself(t, x);
      MeetsOne(t, x, x, y);
      var way := RootsDecide(t, roots, INITIAL, x, y, i);
    }
  }

  /** Of two headers the one listed first is the one the other reaches or, when neither reaches
      the other, the one the first common way down turns to. */
  lemma ListedFirstExactly(t: Table, roots: seq<Path>, x: Path, y: Path)
    requires WellResolved(t) && (forall p :: p in roots <==> p in t.edges) && x in t.edges && y in t.edges && x != y
    requires VisitRoots(t, roots, INITIAL).0 == []
    ensures ListedFirst(VisitRoots(t, roots, INITIAL).1.sorted, y, x) <==> Reaches(t, x, y) || Parts(t, roots, x, y)
  {
    hide Reaches, WellResolved, VisitNode, ListedFirst, Parts, SettledBy, IsChain;
    var last := VisitRoots(t, roots, INITIAL).1;
    VisitRootsKeep(t, roots, INITIAL);
    assert x in Elements(last.sorted) && y in Elements(last.sorted);
    if ListedFirst(last.sorted, y, x) {
      ListedFirstParts(t, roots, x, y);
    } else {
      OneIsFirst(last.sorted, x, y);
      ListedFirstParts(t, roots, y, x);
      if Reaches(t, x, y) {
        ReachedIsFirst(t, last, x, y);
      } else if Parts(t, roots, x, y) {
        PartsOneWay(t, roots, x, y);
      }
    }
  }
}
