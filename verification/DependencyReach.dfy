/** What the traversal leaves out and in which order it lists the rest, in terms of reachability
    alone. */
module DependencyReach {
  import opened Wrappers
  import opened Sorting
  import opened Bytes
  import opened DependencyGraph
  import opened DependencyOrder

  // ---------------------------------------------------------------- reachability

  predicate Leads(t: Table, chain: seq<Path>, a: Path, b: Path) {
    chain != [] && IsChain(t, chain) && chain[0] == a && chain[|chain| - 1] == b
  }

  /** `b` is `a` or found from it along graph edges. */
  ghost predicate Reaches(t: Table, a: Path, b: Path) {
    exists chain :: Leads(t, chain, a, b)
  }

  lemma ReachesItself(t: Table, a: Path)
    ensures Reaches(t, a, a)
  {
    assert Leads(t, [a], a, a);
  }

  lemma ReachesThrough(t: Table, a: Path, b: Path, c: Path)
    requires DependsOn(t, a, b) && Reaches(t, b, c)
    ensures Reaches(t, a, c)
  {
    hide DependsOn;
    var chain :| Leads(t, chain, b, c);
    var longer := [a] + chain;
    forall i | 0 <= i < |longer| - 1
      ensures DependsOn(t, longer[i], longer[i + 1])
    {
      if i > 0 {
        assert DependsOn(t, chain[i - 1], chain[i]);
      }
    }
    assert Leads(t, longer, a, c);
  }

  lemma FirstStep(t: Table, a: Path, c: Path) returns (b: Path)
    requires Reaches(t, a, c) && a != c
    ensures DependsOn(t, a, b) && Reaches(t, b, c)
  {
    hide DependsOn;
    var chain :| Leads(t, chain, a, c);
    b := chain[1];
    assert DependsOn(t, chain[0], chain[1]);
    forall i | 0 <= i < |chain| - 2
      ensures DependsOn(t, chain[1..][i], chain[1..][i + 1])
    {
      assert DependsOn(t, chain[i + 1], chain[i + 2]);
    }
    assert Leads(t, chain[1..], b, c);
  }

  lemma {:induction false} ReachesAlong(t: Table, chain: seq<Path>, a: Path, b: Path, c: Path)
    requires Leads(t, chain, a, b) && Reaches(t, b, c)
    ensures Reaches(t, a, c)
    decreases |chain|
  {
    hide DependsOn;
    if |chain| > 1 {
      assert DependsOn(t, chain[0], chain[1]);
      forall i | 0 <= i < |chain| - 2
        ensures DependsOn(t, chain[1..][i], chain[1..][i + 1])
      {
        assert DependsOn(t, chain[i + 1], chain[i + 2]);
      }
      ReachesAlong(t, chain[1..], chain[1], b, c);
      ReachesThrough(t, a, chain[1], c);
    }
  }

  lemma ReachesTransitive(t: Table, a: Path, b: Path, c: Path)
    requires Reaches(t, a, b) && Reaches(t, b, c)
    ensures Reaches(t, a, c)
  {
    var chain :| Leads(t, chain, a, b);
    ReachesAlong(t, chain, a, b, c);
  }

  /** What a finished header reaches is finished no later. */
  lemma FinishedReach(t: Table, s: State, a: Path, b: Path, i: nat) returns (j: nat)
    requires Inv(t, s) && i < |s.sorted| && s.sorted[i] == a && Reaches(t, a, b)
    ensures j <= i && s.sorted[j] == b
  {
    hide SettledBy;
    var chain :| Leads(t, chain, a, b);
    j := ChainDescends(t, s.sorted, chain, i);
  }

  lemma AllFinished(t: Table, s: State, a: Path, b: Path)
    requires Inv(t, s) && a in s.sorted && Reaches(t, a, b)
    ensures b in s.sorted
  {
    hide Inv, Reaches;
    var i :| 0 <= i < |s.sorted| && s.sorted[i] == a;
    var j := FinishedReach(t, s, a, b, i);
  }

  // ---------------------------------------------------------------- what a visit adds

  /** A visit finishes only what its node reaches, however it ends. */
  lemma {:induction false} VisitNodeAdds(t: Table, path: Path, s: State, p: Path)
    requires p !in s.sorted && p in VisitNode(t, path, s).1.sorted
    ensures Reaches(t, path, p)
    decreases Unmarked(t, s), 0, 0
  {
    hide Reaches;
    EnteredShrinks(t, path, s);
    var below := VisitEdges(t, t.edges[path], Entered(s, path)).1;
    if p in below.sorted {
      VisitEdgesAdd(t, path, t.edges[path], Entered(s, path), p);
    } else {
      ReachesItself(t, path);
    }
  }

  lemma {:induction false} VisitEdgesAdd(t: Table, path: Path, edges: seq<Edge>, s: State, p: Path)
    requires path in t.edges && forall e :: e in edges ==> e in t.edges[path]
    requires p !in s.sorted && p in VisitEdges(t, edges, s).1.sorted
    ensures Reaches(t, path, p)
    decreases Unmarked(t, s), 2, |edges|
  {
    hide Reaches, VisitNode;
    var next := VisitEdge(t, edges[0], s).1;
    if p in next.sorted {
      assert edges[0] in t.edges[path];
      VisitNodeAdds(t, edges[0].resolved.value, s, p);
      ReachesThrough(t, path, edges[0].resolved.value, p);
    } else {
      VisitEdgesAdd(t, path, edges[1..], next, p);
    }
  }

  // ---------------------------------------------------------------- blocked headers

  /** From here the edges lead to a header that asks for something missing or lies on a ring. */
  ghost predicate Blocked(t: Table, a: Path) {
    exists b :: Reaches(t, a, b) && Stuck(t, b)
  }

  ghost predicate Stuck(t: Table, b: Path) {
    (exists requested :: IsMissing(t, b, requested)) || (exists cycle :: IsCycle(t, cycle) && b in cycle)
  }

  /** The diagnostic names something missing, or a header on a ring, that this header reaches. */
  ghost predicate Explains(t: Table, a: Path, d: Diagnostic) {
    match d
    case MissingTarget(requested) => exists b :: Reaches(t, a, b) && IsMissing(t, b, requested)
    case Circular(path) => Reaches(t, a, path) && exists cycle :: IsCycle(t, cycle) && path in cycle
    case UnresolvedGraphEdge => false
  }

  lemma ExplainedIsBlocked(t: Table, a: Path, d: Diagnostic)
    requires Explains(t, a, d)
    ensures Blocked(t, a)
  {
    hide Reaches, IsMissing, IsCycle;
    match d {
      case MissingTarget(requested) =>
        var b :| Reaches(t, a, b) && IsMissing(t, b, requested);
        assert Stuck(t, b);
      case Circular(path) =>
        assert Stuck(t, path);
      case UnresolvedGraphEdge =>
    }
  }

  lemma ExplainsThrough(t: Table, a: Path, b: Path, d: Diagnostic)
    requires DependsOn(t, a, b) && Explains(t, b, d)
    ensures Explains(t, a, d)
  {
    hide Reaches, IsMissing, IsCycle, DependsOn;
    match d {
      case MissingTarget(requested) =>
        var c :| Reaches(t, b, c) && IsMissing(t, c, requested);
        ReachesThrough(t, a, b, c);
      case Circular(path) =>
        ReachesThrough(t, a, b, path);
      case UnresolvedGraphEdge =>
    }
  }

  /** A failed visit explains why its node is blocked. */
  lemma {:induction false} FailureExplains(t: Table, path: Path, s: State)
    requires WellResolved(t) && Inv(t, s) && Follows(t, s, path) && path in t.edges
    requires VisitNode(t, path, s).0.Fail?
    ensures Explains(t, path, VisitNode(t, path, s).0.error)
    decreases Unmarked(t, s), 0, 0
  {
    hide Inv, WellResolved, IsCycle, Reaches;
    if path in s.tempMark {
      StackHasCycle(t, s, path);
      ReachesItself(t, path);
    } else {
      EnterKeeps(t, path, s);
      EdgeFailureExplains(t, path, t.edges[path], Entered(s, path));
    }
  }

  lemma {:induction false} EdgeFailureExplains(t: Table, path: Path, edges: seq<Edge>, s: State)
    requires WellResolved(t) && Inv(t, s)
    requires path in t.edges && s.stack != [] && s.stack[|s.stack| - 1] == path
    requires forall e :: e in edges ==> e in t.edges[path]
    requires VisitEdges(t, edges, s).0.Fail?
    ensures Explains(t, path, VisitEdges(t, edges, s).0.error)
    decreases Unmarked(t, s), 2, |edges|
  {
    hide Inv, IsCycle, Reaches, VisitNode;
    var e := edges[0];
    assert e in t.edges[path];
    var (outcome, next) := VisitEdge(t, e, s);
    VisitEdgesKeep(t, path, [e], s);
    match e.kind {
      case GraphHeader =>
        assert DependsOn(t, path, e.resolved.value);
        if outcome.Fail? {
          FailureExplains(t, e.resolved.value, s);
          ExplainsThrough(t, path, e.resolved.value, outcome.error);
        }
      case Missing =>
        assert IsMissing(t, path, e.requested);
        ReachesItself(t, path);
      case PackageExport =>
      case SameFileHint =>
    }
    if outcome.Pass? {
      assert VisitEdges(t, [e], s) == VisitEdges(t, [], next) == (Pass, next);
      EdgeFailureExplains(t, path, edges[1..], next);
    }
  }

  /** A finished header is not blocked. */
  lemma FinishedIsClear(t: Table, s: State, a: Path)
    requires Inv(t, s) && a in s.sorted
    ensures !Blocked(t, a)
  {
    hide Reaches, IsCycle;
    forall b | Reaches(t, a, b)
      ensures !Stuck(t, b)
    {
      AllFinished(t, s, a, b);
      var i :| 0 <= i < |s.sorted| && s.sorted[i] == b;
      assert SettledBy(t, s.sorted[i], s.sorted[..i]);
      forall cycle
        ensures !(IsCycle(t, cycle) && b in cycle)
      {
        if b in cycle {
          FinishedOffCycle(t, s, cycle, b, i);
        }
      }
    }
  }

  lemma WithinChain(t: Table, chain: seq<Path>, i: nat, j: nat)
    requires IsChain(t, chain) && i <= j < |chain|
    ensures Reaches(t, chain[i], chain[j])
  {
    hide DependsOn;
    var part := chain[i..j + 1];
    forall m | 0 <= m < |part| - 1
      ensures DependsOn(t, part[m], part[m + 1])
    {
      assert DependsOn(t, chain[i + m], chain[i + m + 1]);
    }
    assert Leads(t, part, chain[i], chain[j]);
  }

  /** On a ring every header depends on one that reaches it. */
  lemma RoundTheRing(t: Table, cycle: seq<Path>, b: Path) returns (next: Path)
    requires IsCycle(t, cycle) && b in cycle
    ensures DependsOn(t, b, next) && Reaches(t, next, b)
  {
    hide DependsOn, Reaches;
    var k :| 0 <= k < |cycle| && cycle[k] == b;
    WithinChain(t, cycle, 0, k);
    if k == |cycle| - 1 {
      next := cycle[0];
    } else {
      next := cycle[k + 1];
      assert DependsOn(t, cycle[k], cycle[k + 1]);
      WithinChain(t, cycle, k + 1, |cycle| - 1);
      ReachesThrough(t, cycle[|cycle| - 1], cycle[0], b);
      ReachesTransitive(t, next, cycle[|cycle| - 1], b);
    }
  }

  lemma FinishedOffCycle(t: Table, s: State, cycle: seq<Path>, b: Path, i: nat)
    requires Inv(t, s) && b in cycle && i < |s.sorted| && s.sorted[i] == b
    ensures !IsCycle(t, cycle)
  {
    hide Reaches, IsCycle, IsChain;
    if IsCycle(t, cycle) {
      var next := RoundTheRing(t, cycle, b);
      assert SettledBy(t, s.sorted[i], s.sorted[..i]);
      var m :| 0 <= m < i && s.sorted[..i][m] == next;
      var _ := FinishedReach(t, s, next, b, m);
    }
  }

  // ---------------------------------------------------------------- one diagnostic per blocked root

  /** The places of the blocked roots from the `k`th on, each with its own diagnostic. */
  ghost predicate BlockedPlaces(t: Table, roots: seq<Path>, k: nat, at: seq<nat>, diagnostics: seq<Diagnostic>) {
    && Increasing(at) && |at| == |diagnostics|
    && (forall i :: i in at <==> k <= i < |roots| && Blocked(t, roots[i]))
    && (forall m :: 0 <= m < |at| ==> at[m] < |roots| && Explains(t, roots[at[m]], diagnostics[m]))
  }

  /** Every root that is blocked, and no other, stays unfinished and gets its own diagnostic. */
  lemma {:induction false} DiagnosticPerRoot(t: Table, roots: seq<Path>, k: nat, s: State) returns (at: seq<nat>)
    requires WellResolved(t) && Inv(t, s) && s.stack == [] && k <= |roots|
    requires forall p :: p in roots ==> p in t.edges
    ensures BlockedPlaces(t, roots, k, at, VisitRoots(t, roots[k..], s).0)
    decreases |roots| - k
  {
    hide Blocked, Explains, WellResolved, VisitNode, Inv;
    if k == |roots| {
      at := [];
    } else {
      var root := roots[k];
      assert roots[k..][0] == root && roots[k..][1..] == roots[k + 1..];
      RootIsFinished(t, root, s);
      if root in s.visited {
        at := DiagnosticPerRoot(t, roots, k + 1, s);
      } else {
        var (outcome, next) := VisitNode(t, root, s);
        at := DiagnosticPerRoot(t, roots, k + 1, next);
        if outcome.Fail? {
          at := [k] + at;
        }
      }
    }
  }

  lemma RootIsFinished(t: Table, root: Path, s: State)
    requires WellResolved(t) && Inv(t, s) && s.stack == [] && root in t.edges
    ensures root in s.visited ==> !Blocked(t, root)
    ensures root !in s.visited ==>
      var (outcome, next) := VisitNode(t, root, s);
      && Inv(t, next) && next.stack == []
      && (outcome.Pass? <==> !Blocked(t, root))
      && (outcome.Fail? ==> Explains(t, root, outcome.error))
  {
    hide Blocked, Explains, WellResolved, VisitNode, SettledBy, IsChain;
    if root in s.visited {
      assert root in Elements(s.sorted);
      FinishedIsClear(t, s, root);
    } else {
      VisitNodeKeeps(t, root, s);
      var (outcome, next) := VisitNode(t, root, s);
      if outcome.Fail? {
        FailureExplains(t, root, s);
        ExplainedIsBlocked(t, root, outcome.error);
      } else {
        assert root in Elements(next.sorted);
        FinishedIsClear(t, next, root);
      }
    }
  }
}
