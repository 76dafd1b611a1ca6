/** How many visits a successful sort makes, exactly. */
module DependencyVisits {
  import opened Wrappers
  import opened Sorting
  import opened Bytes
  import opened DependencyGraph
  import opened DependencyOrder
  import opened DependencyReach

  function IsGraphEdge(e: Edge): nat {
    if e.kind.GraphHeader? then 1 else 0
  }

  function EdgesOf(t: Table): Path -> nat {
    p => if p in t.edges then Total(IsGraphEdge, t.edges[p]) else 0
  }

  /** A successful visit counts one for its node and one for each graph edge of what it finishes. */
  lemma {:induction false} NodeVisits(t: Table, path: Path, s: State)
    requires VisitNode(t, path, s).0.Pass?
    ensures var after := VisitNode(t, path, s).1;
      after.visitCount + Total(EdgesOf(t), s.sorted) == s.visitCount + 1 + Total(EdgesOf(t), after.sorted)
    decreases Unmarked(t, s), 0, 0
  {
    if path in t.edges && path !in s.visited {
      EnteredShrinks(t, path, s);
      EdgesVisit(t, t.edges[path], Entered(s, path));
      var below := VisitEdges(t, t.edges[path], Entered(s, path)).1;
      TotalOfBoth(EdgesOf(t), below.sorted, [path]);
      assert Total(EdgesOf(t), [path]) == EdgesOf(t)(path);
    }
  }

  lemma {:induction false} EdgesVisit(t: Table, edges: seq<Edge>, s: State)
    requires VisitEdges(t, edges, s).0.Pass?
    ensures var after := VisitEdges(t, edges, s).1;
      after.visitCount + Total(EdgesOf(t), s.sorted)
      == s.visitCount + Total(IsGraphEdge, edges) + Total(EdgesOf(t), after.sorted)
    decreases Unmarked(t, s), 2, |edges|
  {
    hide VisitNode;
    if edges != [] {
      if edges[0].kind.GraphHeader? {
        NodeVisits(t, edges[0].resolved.value, s);
      }
      EdgesVisit(t, edges[1..], VisitEdge(t, edges[0], s).1);
    }
  }

  ghost predicate ReachedBefore(t: Table, roots: seq<Path>, k: nat, p: Path)
    requires k <= |roots|
  {
    exists j :: 0 <= j < k && Reaches(t, roots[j], p)
  }

  /** How many roots from the `k`th on no earlier root reaches. */
  ghost function Heads(t: Table, roots: seq<Path>, k: nat): nat
    requires k <= |roots|
    decreases |roots| - k
  {
    if k == |roots| then 0
    else (if ReachedBefore(t, roots, k, roots[k]) then 0 else 1) + Heads(t, roots, k + 1)
  }

  /** The finished headers are those some earlier root reaches. */
  ghost predicate Covered(t: Table, roots: seq<Path>, k: nat, s: State)
    requires k <= |roots|
  {
    forall p :: p in s.sorted <==> p in t.edges && ReachedBefore(t, roots, k, p)
  }

  lemma NextCovered(t: Table, roots: seq<Path>, k: nat, s: State, next: State)
    requires k < |roots| && Covered(t, roots, k, s)
    requires forall p :: p in next.sorted <==> p in s.sorted || (p in t.edges && Reaches(t, roots[k], p))
    ensures Covered(t, roots, k + 1, next)
  {
    hide Reaches;
    forall p
      ensures ReachedBefore(t, roots, k + 1, p) <==> ReachedBefore(t, roots, k, p) || Reaches(t, roots[k], p)
    {
    }
  }

  lemma VisitedRootAdds(t: Table, root: Path, s: State, p: Path)
    requires WellResolved(t) && Inv(t, s) && s.stack == [] && root in t.edges && root !in s.visited
    requires VisitNode(t, root, s).0.Pass?
    ensures Inv(t, VisitNode(t, root, s).1) && VisitNode(t, root, s).1.stack == []
    ensures p in VisitNode(t, root, s).1.sorted <==> p in s.sorted || (p in t.edges && Reaches(t, root, p))
  {
    hide Reaches, VisitNode, IsChain, SettledBy;
    VisitNodeKeeps(t, root, s);
    var next := VisitNode(t, root, s).1;
    assert forall q :: q in next.sorted <==> q in Elements(next.sorted);
    if p in next.sorted && p !in s.sorted {
      VisitNodeAdds(t, root, s, p);
    }
    if Reaches(t, root, p) {
      AllFinished(t, next, root, p);
    }
  }

  /** A root is visited already exactly when an earlier one reaches it. */
  lemma VisitedIfReached(t: Table, roots: seq<Path>, k: nat, s: State, p: Path)
    requires Inv(t, s) && k < |roots| && Covered(t, roots, k, s) && p in t.edges
    ensures p in s.visited <==> ReachedBefore(t, roots, k, p)
  {
    hide ReachedBefore, IsChain, SettledBy;
    assert p in Elements(s.sorted) <==> p in s.sorted;
  }

  lemma {:induction false} RootsVisit(t: Table, roots: seq<Path>, k: nat, s: State)
    requires WellResolved(t) && Inv(t, s) && s.stack == [] && k <= |roots| && Covered(t, roots, k, s)
    requires forall p :: p in roots ==> p in t.edges
    requires VisitRoots(t, roots[k..], s).0 == []
    ensures var last := VisitRoots(t, roots[k..], s).1;
      last.visitCount + Total(EdgesOf(t), s.sorted)
      == s.visitCount + Heads(t, roots, k) + Total(EdgesOf(t), last.sorted)
    decreases |roots| - k
  {
    hide Inv, WellResolved, VisitNode, Reaches, Covered, ReachedBefore, EdgesOf;
    if k < |roots| {
      var root := roots[k];
      assert roots[k..][0] == root && roots[k..][1..] == roots[k + 1..];
      VisitedIfReached(t, roots, k, s, root);
      if root in s.visited {
        StillCovered(t, roots, k, s);
        RootsVisit(t, roots, k + 1, s);
      } else {
        var next := VisitNode(t, root, s).1;
        NodeVisits(t, root, s);
        forall p
          ensures Inv(t, next) && next.stack == []
          ensures p in next.sorted <==> p in s.sorted || (p in t.edges && Reaches(t, root, p))
        {
          VisitedRootAdds(t, root, s, p);
        }
        VisitedRootAdds(t, root, s, root);
        NextCovered(t, roots, k, s, next);
        RootsVisit(t, roots, k + 1, next);
      }
    }
  }

  lemma StillCovered(t: Table, roots: seq<Path>, k: nat, s: State)
    requires k < |roots| && Covered(t, roots, k, s) && Inv(t, s) && roots[k] in s.visited && roots[k] in t.edges
    ensures Covered(t, roots, k + 1, s)
  {
    hide Reaches, IsChain, SettledBy, ReachedBefore;
    assert roots[k] in Elements(s.sorted);
    forall p | p in t.edges && Reaches(t, roots[k], p)
      ensures p in s.sorted
    {
      AllFinished(t, s, roots[k], p);
    }
    SortedInTable(t, s);
    NextCovered(t, roots, k, s, s);
  }

  lemma SortedInTable(t: Table, s: State)
    requires Inv(t, s)
    ensures forall p :: p in s.sorted ==> p in t.edges
  {
    hide SettledBy, IsChain;
    forall p | p in s.sorted
      ensures p in t.edges
    {
      assert p in Elements(s.sorted);
    }
  }

  lemma NothingCovered(t: Table, roots: seq<Path>)
    ensures Covered(t, roots, 0, INITIAL) && Inv(t, INITIAL)
  {
  }
}
