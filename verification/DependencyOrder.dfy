/** The depth-first traversal as a function of its state, and what every visit keeps.

    A traversal runs over a `Table`: the sorted edges of each header path, and the symbols that
    tell which other paths are package exports. `VisitNode`, `VisitEdges` and `VisitRoots` return the outcome
    together with the new state; a failed visit returns its diagnostic and the state it
    leaves behind, from which the next root goes on. */
module DependencyOrder {
  import opened Wrappers
  import opened Sorting
  import opened Bytes
  import opened DependencyGraph

  datatype Table = Table(edges: map<Path, seq<Edge>>, symbols: Symbols)

  datatype Diagnostic =
    | MissingTarget(path: Path)
    | Circular(path: Path)
    | UnresolvedGraphEdge

  datatype State = State(
    tempMark: set<Path>,
    visited: set<Path>,
    stack: seq<Path>,
    visitCount: nat,
    sorted: seq<Path>)

  const INITIAL: State := State({}, {}, [], 0, [])

  type VisitOutcome = Outcome<Diagnostic>

  // ---------------------------------------------------------------- the tracker operations

  function Enter(s: State, path: Path): State {
    s.(tempMark := s.tempMark + {path}, stack := s.stack + [path])
  }

  function RemoveAll(stack: seq<Path>, path: Path): (r: seq<Path>)
    ensures path !in r
    ensures path !in stack ==> r == stack
  {
    if stack == [] then []
    else if stack[0] == path then RemoveAll(stack[1..], path)
    else [stack[0]] + RemoveAll(stack[1..], path)
  }

  function Abandon(s: State, path: Path): State {
    var stack :=
      if s.stack != [] && s.stack[|s.stack| - 1] == path then s.stack[..|s.stack| - 1]
      else RemoveAll(s.stack, path);
    s.(tempMark := s.tempMark - {path}, stack := stack)
  }

  function Finish(s: State, path: Path): State {
    var left := Abandon(s, path);
    left.(visited := left.visited + {path})
  }

  // ---------------------------------------------------------------- the traversal

  /** The outcome leaves the marks and the stack as they were and only adds to the rest. */
  predicate Restores(before: State, after: State) {
    && after.tempMark == before.tempMark
    && after.stack == before.stack
    && before.visited <= after.visited
    && before.sorted <= after.sorted
    && before.visitCount <= after.visitCount
  }

  function Unmarked(t: Table, s: State): nat {
    |t.edges.Keys - s.tempMark|
  }

  function VisitNode(t: Table, path: Path, s: State): (result: (VisitOutcome, State))
    ensures Restores(s, result.1)
    decreases Unmarked(t, s), 0, 0
  {
    var counted := s.(visitCount := s.visitCount + 1);
    if path !in t.edges then
      if IsPackageExport(t.symbols, path) then (Pass, counted.(visited := counted.visited + {path}))
      else (Fail(MissingTarget(path)), counted)
    else if path in s.tempMark then (Fail(Circular(path)), counted)
    else if path in s.visited then (Pass, counted)
    else
      assert t.edges.Keys - Enter(counted, path).tempMark < t.edges.Keys - s.tempMark;
      SmallerSet(t.edges.Keys - Enter(counted, path).tempMark, t.edges.Keys - s.tempMark);
      var (outcome, below) := VisitEdges(t, t.edges[path], Enter(counted, path));
      match outcome
      case Pass => (Pass, Finish(below.(sorted := below.sorted + [path]), path))
      case Fail(d) => (Fail(d), Abandon(below, path))
  }

  function VisitEdge(t: Table, edge: Edge, s: State): (result: (VisitOutcome, State))
    ensures Restores(s, result.1)
    decreases Unmarked(t, s), 1, 0
  {
    match edge.kind
    case GraphHeader =>
      if edge.resolved.Some? then VisitNode(t, edge.resolved.value, s) else (Fail(UnresolvedGraphEdge), s)
    case PackageExport =>
      if edge.resolved.Some? then (Pass, s.(visited := s.visited + {edge.resolved.value})) else (Pass, s)
    case SameFileHint => (Pass, s)
    case Missing => (Fail(MissingTarget(edge.requested)), s)
  }

  function VisitEdges(t: Table, edges: seq<Edge>, s: State): (result: (VisitOutcome, State))
    ensures Restores(s, result.1)
    decreases Unmarked(t, s), 2, |edges|
  {
    if edges == [] then (Pass, s)
    else
      var (outcome, next) := VisitEdge(t, edges[0], s);
      if outcome.Fail? then (outcome, next) else VisitEdges(t, edges[1..], next)
  }

  /** Every root in order; a failed root adds its diagnostic and the next one is tried. */
  function VisitRoots(t: Table, roots: seq<Path>, s: State): (result: (seq<Diagnostic>, State)) {
    if roots == [] then ([], s)
    else if roots[0] in s.visited then VisitRoots(t, roots[1..], s)
    else
      var (outcome, next) := VisitNode(t, roots[0], s);
      var (diagnostics, last) := VisitRoots(t, roots[1..], next);
      (if outcome.Fail? then [outcome.error] + diagnostics else diagnostics, last)
  }

  lemma SmallerSet<T>(a: set<T>, b: set<T>)
    requires a < b
    ensures |a| < |b|
  {
    assert b == a + (b - a);
    assert b - a != {};
  }

  // ---------------------------------------------------------------- edges, paths and cycles

  /** Edges as the graph resolves them: a graph edge names a header, nothing else does. */
  predicate WellResolved(t: Table) {
    forall p, e :: p in t.edges && e in t.edges[p] ==>
      && (e.kind.GraphHeader? ==> e.resolved.Some? && e.resolved.value in t.edges)
      && (e.kind.PackageExport? ==> e.resolved.Some? && e.resolved.value !in t.edges)
  }

  predicate DependsOn(t: Table, from: Path, to: Path) {
    && from in t.edges
    && exists e :: e in t.edges[from] && e.kind.GraphHeader? && e.resolved == Some(to)
  }

  predicate IsChain(t: Table, chain: seq<Path>) {
    forall i :: 0 <= i < |chain| - 1 ==> DependsOn(t, chain[i], chain[i + 1])
  }

  /** A closed walk along graph edges. */
  predicate IsCycle(t: Table, cycle: seq<Path>) {
    && cycle != []
    && IsChain(t, cycle)
    && DependsOn(t, cycle[|cycle| - 1], cycle[0])
  }

  predicate IsMissing(t: Table, path: Path, requested: Path) {
    && path in t.edges
    && exists e :: e in t.edges[path] && e.kind.Missing? && e.requested == requested
  }

  /** What a diagnostic claims is so: the target is missing, or the path lies on a cycle. */
  ghost predicate Justified(t: Table, d: Diagnostic) {
    match d
    case MissingTarget(requested) => exists p :: IsMissing(t, p, requested)
    case Circular(path) => exists cycle :: IsCycle(t, cycle) && path in cycle
    case UnresolvedGraphEdge => false
  }

  // ---------------------------------------------------------------- the invariant

  function Elements(paths: seq<Path>): set<Path> {
    set p | p in paths
  }

  /** The edges of a finished path: none is missing, and each header they name came before. */
  predicate SettledBy(t: Table, path: Path, earlier: seq<Path>) {
    && path in t.edges
    && forall e :: e in t.edges[path] ==>
        !e.kind.Missing? && (e.kind.GraphHeader? ==> e.resolved.Some? && e.resolved.value in earlier)
  }

  /** Marks are the stack, the stack is a dependency chain, and the sorted paths are exactly
      the finished headers, each after everything it depends on. */
  ghost predicate Inv(t: Table, s: State) {
    && s.tempMark == Elements(s.stack)
    && s.tempMark <= t.edges.Keys
    && s.tempMark !! s.visited
    && IsChain(t, s.stack)
    && NoRepeats(s.sorted)
    && Elements(s.sorted) == s.visited * t.edges.Keys
    && forall i :: 0 <= i < |s.sorted| ==> SettledBy(t, s.sorted[i], s.sorted[..i])
  }

  /** The next node is what the top of the stack depends on. */
  ghost predicate Follows(t: Table, s: State, path: Path) {
    s.stack != [] ==> DependsOn(t, s.stack[|s.stack| - 1], path)
  }

  lemma StackHasCycle(t: Table, s: State, path: Path)
    requires Inv(t, s) && Follows(t, s, path) && path in s.tempMark
    ensures Justified(t, Circular(path))
  {
    var k :| 0 <= k < |s.stack| && s.stack[k] == path;
    var cycle := s.stack[k..];
    assert cycle[|cycle| - 1] == s.stack[|s.stack| - 1];
    forall i | 0 <= i < |cycle| - 1
      ensures DependsOn(t, cycle[i], cycle[i + 1])
    {
      assert DependsOn(t, s.stack[k + i], s.stack[k + i + 1]);
    }
    assert IsCycle(t, cycle);
  }

  /** The state in which the edges of a fresh node are followed. */
  function Entered(s: State, path: Path): State {
    Enter(s.(visitCount := s.visitCount + 1), path)
  }

  lemma EnteredShrinks(t: Table, path: Path, s: State)
    requires path in t.edges && path !in s.tempMark
    ensures Unmarked(t, Entered(s, path)) < Unmarked(t, s)
  {
    assert t.edges.Keys - Entered(s, path).tempMark < t.edges.Keys - s.tempMark;
    SmallerSet(t.edges.Keys - Entered(s, path).tempMark, t.edges.Keys - s.tempMark);
  }

  lemma EnterKeeps(t: Table, path: Path, s: State)
    requires Inv(t, s) && Follows(t, s, path)
    requires path in t.edges && path !in s.tempMark && path !in s.visited
    ensures Inv(t, Entered(s, path)) && Unmarked(t, Entered(s, path)) < Unmarked(t, s)
  {
    var entered := Entered(s, path);
    assert entered.tempMark == Elements(entered.stack);
    EnteredShrinks(t, path, s);
    forall i | 0 <= i < |entered.stack| - 1
      ensures DependsOn(t, entered.stack[i], entered.stack[i + 1])
    {
      if i + 1 < |s.stack| {
        assert DependsOn(t, s.stack[i], s.stack[i + 1]);
      }
    }
  }

  lemma AbandonKeeps(t: Table, path: Path, s: State, below: State)
    requires Inv(t, s) && Inv(t, below) && path !in s.tempMark
    requires below.tempMark == s.tempMark + {path} && below.stack == s.stack + [path]
    ensures Inv(t, Abandon(below, path))
  {
    assert below.stack[..|below.stack| - 1] == s.stack;
    assert Abandon(below, path) == below.(tempMark := s.tempMark, stack := s.stack);
  }

  lemma CountKeeps(t: Table, s: State)
    requires Inv(t, s)
    ensures Inv(t, s.(visitCount := s.visitCount + 1))
  {
  }

  /** Visiting a node keeps the invariant, justifies a failure and finishes the node. */
  lemma {:induction false} VisitNodeKeeps(t: Table, path: Path, s: State)
    requires WellResolved(t) && Inv(t, s) && Follows(t, s, path) && path in t.edges
    ensures var (outcome, after) := VisitNode(t, path, s);
      && Inv(t, after)
      && (outcome.Fail? ==> Justified(t, outcome.error))
      && (outcome.Pass? ==> path in after.visited)
    decreases Unmarked(t, s), 0, 0
  {
    hide Inv, Justified, WellResolved;
    CountKeeps(t, s);
    if path in s.tempMark {
      StackHasCycle(t, s, path);
    } else if path !in s.visited {
      EnterKeeps(t, path, s);
      VisitEdgesKeep(t, path, t.edges[path], Entered(s, path));
      var (outcome, below) := VisitEdges(t, t.edges[path], Entered(s, path));
      if outcome.Pass? {
        FinishKeeps(t, path, s, below);
      } else {
        AbandonKeeps(t, path, s, below);
      }
    }
  }

  /** None of the edges is missing and every header they name is finished. */
  predicate AllReached(edges: seq<Edge>, s: State) {
    forall e :: e in edges ==>
      !e.kind.Missing? && (e.kind.GraphHeader? ==> e.resolved.Some? && e.resolved.value in s.visited)
  }

  lemma FinishKeeps(t: Table, path: Path, s: State, below: State)
    requires WellResolved(t) && Inv(t, s) && Inv(t, below)
    requires path in t.edges && path !in s.tempMark
    requires below.tempMark == s.tempMark + {path} && below.stack == s.stack + [path]
    requires AllReached(t.edges[path], below)
    ensures Inv(t, Finish(below.(sorted := below.sorted + [path]), path))
  {
    var after := Finish(below.(sorted := below.sorted + [path]), path);
    assert below.stack[..|below.stack| - 1] == s.stack;
    assert after.tempMark == s.tempMark && after.stack == s.stack;
    assert path in below.tempMark;
    assert path !in Elements(below.sorted);
    assert Elements(after.sorted) == Elements(below.sorted) + {path};
    forall e | e in t.edges[path] && e.kind.GraphHeader?
      ensures e.resolved.value in below.sorted
    {
      assert e.resolved.value in Elements(below.sorted);
    }
    forall i | 0 <= i < |after.sorted|
      ensures SettledBy(t, after.sorted[i], after.sorted[..i])
    {
      if i < |below.sorted| {
        assert after.sorted[..i] == below.sorted[..i];
      } else {
        assert after.sorted[..i] == below.sorted;
      }
    }
  }

  lemma ExportMarkKeeps(t: Table, export_: Path, s: State)
    requires Inv(t, s) && export_ !in t.edges
    ensures Inv(t, s.(visited := s.visited + {export_}))
  {
    assert (s.visited + {export_}) * t.edges.Keys == s.visited * t.edges.Keys;
  }

  /** Following edges of the node on top of the stack settles every one of them. */
  lemma {:induction false} VisitEdgesKeep(t: Table, path: Path, edges: seq<Edge>, s: State)
    requires WellResolved(t) && Inv(t, s)
    requires path in t.edges && s.stack != [] && s.stack[|s.stack| - 1] == path
    requires forall e :: e in edges ==> e in t.edges[path]
    ensures var (outcome, after) := VisitEdges(t, edges, s);
      && Inv(t, after)
      && (outcome.Fail? ==> Justified(t, outcome.error))
      && (outcome.Pass? ==> AllReached(edges, after))
    decreases Unmarked(t, s), 2, |edges|
  {
    hide Inv;
    if edges != [] {
      var e := edges[0];
      var (outcome, next) := VisitEdge(t, e, s);
      match e.kind {
        case GraphHeader =>
          assert DependsOn(t, path, e.resolved.value);
          VisitNodeKeeps(t, e.resolved.value, s);
        case PackageExport =>
          ExportMarkKeeps(t, e.resolved.value, s);
        case SameFileHint =>
        case Missing =>
          assert IsMissing(t, path, e.requested);
      }
      if outcome.Pass? {
        VisitEdgesKeep(t, path, edges[1..], next);
      }
    }
  }

  lemma {:induction false} VisitRootsKeep(t: Table, roots: seq<Path>, s: State)
    requires WellResolved(t) && Inv(t, s) && s.stack == []
    requires forall p :: p in roots ==> p in t.edges
    ensures var (diagnostics, last) := VisitRoots(t, roots, s);
      && Inv(t, last) && last.stack == []
      && s.visited <= last.visited
      && (forall d :: d in diagnostics ==> Justified(t, d))
      && (diagnostics == [] ==> forall p :: p in roots ==> p in last.visited)
  {
    if roots != [] {
      if roots[0] in s.visited {
        VisitRootsKeep(t, roots[1..], s);
      } else {
        VisitNodeKeeps(t, roots[0], s);
        VisitRootsKeep(t, roots[1..], VisitNode(t, roots[0], s).1);
      }
    }
  }

  // ---------------------------------------------------------------- no failure means no cause

  predicate Acyclic(t: Table, order: seq<Path>) {
    forall i :: 0 <= i < |order| ==> SettledBy(t, order[i], order[..i])
  }

  /** Along a chain inside a settled order, positions only go down. */
  lemma {:induction false} ChainDescends(t: Table, order: seq<Path>, chain: seq<Path>, i: nat) returns (j: nat)
    requires Acyclic(t, order) && NoRepeats(order)
    requires chain != [] && IsChain(t, chain)
    requires i < |order| && order[i] == chain[0]
    ensures j <= i && order[j] == chain[|chain| - 1]
    decreases |chain|
  {
    if |chain| == 1 {
      j := i;
    } else {
      assert DependsOn(t, chain[0], chain[1]);
      var next :| 0 <= next < i && order[..i][next] == chain[1];
      forall k | 0 <= k < |chain| - 2
        ensures DependsOn(t, chain[1..][k], chain[1..][k + 1])
      {
        assert DependsOn(t, chain[k + 1], chain[k + 2]);
      }
      j := ChainDescends(t, order, chain[1..], next);
    }
  }

  /** A settled order of all headers leaves no room for a cycle. */
  lemma SettledHasNoCycle(t: Table, order: seq<Path>, cycle: seq<Path>)
    requires WellResolved(t) && Acyclic(t, order) && NoRepeats(order)
    requires Elements(order) == t.edges.Keys
    ensures !IsCycle(t, cycle)
  {
    if IsCycle(t, cycle) {
      var last := cycle[|cycle| - 1];
      assert cycle[0] in t.edges by {
        assert DependsOn(t, last, cycle[0]);
      }
      assert cycle[0] in Elements(order);
      var i :| 0 <= i < |order| && order[i] == cycle[0];
      var _ := ChainDescends(t, order, cycle, i);
    }
  }

  // ---------------------------------------------------------------- how many visits

  /** The number of edges of the given paths together. */
  function EdgeCount(t: Table, paths: seq<Path>): nat {
    if paths == [] then 0
    else
      var last := paths[|paths| - 1];
      EdgeCount(t, paths[..|paths| - 1]) + if last in t.edges then |t.edges[last]| else 0
  }

  /** A successful visit costs one call and one per edge of what it finishes. */
  lemma {:induction false} VisitNodeCost(t: Table, path: Path, s: State)
    requires VisitNode(t, path, s).0.Pass?
    ensures var after := VisitNode(t, path, s).1;
      after.visitCount + EdgeCount(t, s.sorted) <= s.visitCount + 1 + EdgeCount(t, after.sorted)
    decreases Unmarked(t, s), 0, 0
  {
    if path in t.edges && path !in s.visited {
      EnteredShrinks(t, path, s);
      VisitEdgesCost(t, t.edges[path], Entered(s, path));
      var below := VisitEdges(t, t.edges[path], Entered(s, path)).1;
      assert (below.sorted + [path])[..|below.sorted|] == below.sorted;
    }
  }

  lemma {:induction false} VisitEdgesCost(t: Table, edges: seq<Edge>, s: State)
    requires VisitEdges(t, edges, s).0.Pass?
    ensures var after := VisitEdges(t, edges, s).1;
      after.visitCount + EdgeCount(t, s.sorted) <= s.visitCount + |edges| + EdgeCount(t, after.sorted)
    decreases Unmarked(t, s), 2, |edges|
  {
    if edges != [] {
      if edges[0].kind.GraphHeader? && edges[0].resolved.Some? {
        VisitNodeCost(t, edges[0].resolved.value, s);
      }
      VisitEdgesCost(t, edges[1..], VisitEdge(t, edges[0], s).1);
    }
  }

  lemma {:induction false} VisitRootsCost(t: Table, roots: seq<Path>, s: State)
    requires VisitRoots(t, roots, s).0 == []
    ensures var last := VisitRoots(t, roots, s).1;
      last.visitCount + EdgeCount(t, s.sorted) <= s.visitCount + |roots| + EdgeCount(t, last.sorted)
  {
    if roots != [] {
      if roots[0] in s.visited {
        VisitRootsCost(t, roots[1..], s);
      } else {
        VisitNodeCost(t, roots[0], s);
        VisitRootsCost(t, roots[1..], VisitNode(t, roots[0], s).1);
      }
    }
  }

  // ---------------------------------------------------------------- already ordered input

  /** Edges into finished headers change nothing but the visit count and the export marks. */
  lemma {:induction false} SettledEdgesPass(t: Table, path: Path, edges: seq<Edge>, s: State)
    requires WellResolved(t) && path in t.edges && forall e :: e in edges ==> e in t.edges[path]
    requires s.tempMark !! s.visited
    requires AllReached(edges, s)
    requires s.tempMark <= t.edges.Keys
    ensures var (outcome, after) := VisitEdges(t, edges, s);
      && outcome.Pass?
      && after.sorted == s.sorted
      && after.visited * t.edges.Keys == s.visited * t.edges.Keys
      && after.tempMark !! after.visited
    decreases |edges|
  {
    if edges != [] {
      var e := edges[0];
      assert e in t.edges[path];
      if e.kind.GraphHeader? {
        assert VisitNode(t, e.resolved.value, s) == (Pass, s.(visitCount := s.visitCount + 1));
      }
      SettledEdgesPass(t, path, edges[1..], VisitEdge(t, e, s).1);
    }
  }

  lemma OrderedRootStays(t: Table, done: seq<Path>, p: Path, s: State)
    requires WellResolved(t) && Inv(t, s) && s.stack == [] && s.sorted == done
    requires p !in done && SettledBy(t, p, done)
    ensures p !in s.visited
    ensures var (outcome, next) := VisitNode(t, p, s);
      outcome.Pass? && next.sorted == done + [p] && Inv(t, next) && next.stack == []
  {
    assert p !in Elements(done);
    forall e | e in t.edges[p] && e.kind.GraphHeader?
      ensures e.resolved.value in s.visited
    {
      assert e.resolved.value in Elements(done);
    }
    SettledEdgesPass(t, p, t.edges[p], Entered(s, p));
    VisitNodeKeeps(t, p, s);
  }

  /** Roots listed after everything they depend on are finished in the order given. */
  lemma {:induction false} OrderedRootsStay(t: Table, roots: seq<Path>, k: nat, s: State)
    requires WellResolved(t) && Inv(t, s) && s.stack == []
    requires k <= |roots| && s.sorted == roots[..k]
    requires NoRepeats(roots) && forall i :: 0 <= i < |roots| ==> SettledBy(t, roots[i], roots[..i])
    ensures VisitRoots(t, roots[k..], s).0 == []
    ensures VisitRoots(t, roots[k..], s).1.sorted == roots
    decreases |roots| - k
  {
    hide Inv, SettledBy, WellResolved, VisitNode;
    if k < |roots| {
      assert roots[k..][1..] == roots[k + 1..];
      assert roots[..k] + [roots[k]] == roots[..k + 1];
      OrderedRootStays(t, roots[..k], roots[k], s);
      OrderedRootsStay(t, roots, k + 1, VisitNode(t, roots[k], s).1);
    }
  }
}
