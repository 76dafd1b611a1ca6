/** The group statistics of benchmark cases. */
module BenchGroups {
  import opened Wrappers
  import opened Sorting
  import opened TextLines
  import opened BenchRecords

  /** A group while its cases are collected. */
  datatype Builder = Builder(name: string, means: seq<Float>)

  function FindGroup(groups: seq<Builder>, name: string): (r: Option<nat>)
    ensures r.Some? ==> r.value < |groups| && groups[r.value].name == name
    ensures r.None? ==> forall i :: 0 <= i < |groups| ==> groups[i].name != name
  {
    if groups == [] then None
    else if groups[0].name == name then Some(0)
    else
      match FindGroup(groups[1..], name)
      case Some(i) =>
        assert groups[1..][i] == groups[i + 1];
        Some(i + 1)
      case None =>
        assert forall i :: 0 < i < |groups| ==> groups[i] == groups[1..][i - 1];
        None
  }

  function Collected(groups: seq<Builder>, c: Case): seq<Builder> {
    match FindGroup(groups, c.groupName)
    case Some(i) => groups[i := Builder(c.groupName, groups[i].means + [c.meanMs])]
    case None => groups + [Builder(c.groupName, [c.meanMs])]
  }

  function CollectedAll(cases: seq<Case>): seq<Builder> {
    if cases == [] then [] else Collected(CollectedAll(cases[..|cases| - 1]), cases[|cases| - 1])
  }

  function Rank(name: string): nat {
    if name == "core" then 0
    else if name == "docs" then 1
    else if name == "stress" then 2
    else if name == "module" then 3
    else if name == "borrow" then 4
    else 5
  }

  /** `group_sort_key`: the known groups first, in their own order. */
  predicate GroupLeq(a: Group, b: Group) {
    Rank(a.name) < Rank(b.name) || (Rank(a.name) == Rank(b.name) && TextLeq(a.name, b.name))
  }

  function Finished(ft: FloatText, groups: seq<Builder>): (r: seq<Group>)
    ensures |r| == |groups|
    ensures forall i :: 0 <= i < |r| ==> r[i] == Group(groups[i].name, |groups[i].means|, ft.mean(groups[i].means))
  {
    seq(|groups|, i requires 0 <= i < |groups| => Group(groups[i].name, |groups[i].means|, ft.mean(groups[i].means)))
  }

  function GroupStats(ft: FloatText, cases: seq<Case>): seq<Group> {
    SortBy(GroupLeq, Finished(ft, CollectedAll(cases)))
  }

  /** `calculate_group_stats`. */
  method CalculateGroupStats(ft: FloatText, cases: seq<Case>) returns (stats: seq<Group>)
    ensures stats == GroupStats(ft, cases)
  {
    hide FindGroup;
    var groups: seq<Builder> := [];
    for i := 0 to |cases|
      invariant groups == CollectedAll(cases[..i])
    {
      assert cases[..i + 1][..i] == cases[..i];
      var found := FindGroup(groups, cases[i].groupName);
      if found.Some? {
        var group := groups[found.value];
        groups := groups[found.value := group.(means := group.means + [cases[i].meanMs])];
      } else {
        groups := groups + [Builder(cases[i].groupName, [cases[i].meanMs])];
      }
    }
    assert cases[..|cases|] == cases;
    stats := SortBy(GroupLeq, Finished(ft, groups));
  }

  // ---------------------------------------------------------------- what a group holds

  /** The means of the cases of one group, in order. */
  function MeansOf(cases: seq<Case>, name: string): seq<Float> {
    if cases == [] then []
    else
      var before, last := MeansOf(cases[..|cases| - 1], name), cases[|cases| - 1];
      if last.groupName == name then before + [last.meanMs] else before
  }

  predicate NamesApart(groups: seq<Builder>) {
    forall i, j :: 0 <= i < j < |groups| ==> groups[i].name != groups[j].name
  }

  /** The means collected so far under a name. */
  function MeansIn(groups: seq<Builder>, name: string): seq<Float> {
    match FindGroup(groups, name)
    case Some(i) => groups[i].means
    case None => []
  }

  lemma CollectedOne(groups: seq<Builder>, c: Case, group: Builder)
    requires NamesApart(groups)
    ensures NamesApart(Collected(groups, c))
    ensures group in Collected(groups, c) <==>
        if group.name == c.groupName then group.means == MeansIn(groups, c.groupName) + [c.meanMs]
        else group in groups
  {
    hide FindGroup;
    var now := Collected(groups, c);
    match FindGroup(groups, c.groupName) {
      case Some(i) =>
        assert now[i] in now;
        forall j | 0 <= j < |groups| && j != i
          ensures now[j] == groups[j] && now[j].name != c.groupName
        {
          assert groups[i].name != groups[j].name;
        }
        if group in groups && group.name != c.groupName {
          var j :| 0 <= j < |groups| && groups[j] == group;
          assert now[j] == group;
        }
        if group in now {
          var j :| 0 <= j < |now| && now[j] == group;
          assert j != i ==> groups[j] == group;
        }
      case None =>
        assert MeansIn(groups, c.groupName) + [c.meanMs] == [c.meanMs];
        assert now[|groups|] in now;
    }
    assert group == Builder(group.name, group.means);
  }

  /** Collecting keeps one group for each name, with the means of its cases in order. */
  lemma {:induction false} CollectedExactly(cases: seq<Case>, group: Builder)
    ensures NamesApart(CollectedAll(cases))
    ensures group in CollectedAll(cases) <==> group.means != [] && group.means == MeansOf(cases, group.name)
  {
    hide FindGroup, Collected;
    if cases != [] {
      var before, last := cases[..|cases| - 1], cases[|cases| - 1];
      var groups := CollectedAll(before);
      CollectedExactly(before, group);
      CollectedOne(groups, last, group);
      match FindGroup(groups, last.groupName) {
        case Some(i) => CollectedExactly(before, groups[i]);
        case None => CollectedExactly(before, Builder(last.groupName, MeansOf(before, last.groupName)));
      }
    }
  }

  /** The statistics hold exactly one group for each group name among the cases, with the number
      and the mean of its cases. */
  lemma GroupStatsExactly(ft: FloatText, cases: seq<Case>, g: Group)
    ensures g in GroupStats(ft, cases) <==>
        var means := MeansOf(cases, g.name);
        means != [] && g.caseCount == |means| && g.averageMs == ft.mean(means)
  {
    hide CollectedAll, SortBy, MeansOf;
    var groups := CollectedAll(cases);
    var finished := Finished(ft, groups);
    assert multiset(SortBy(GroupLeq, finished)) == multiset(finished);
    assert g in GroupStats(ft, cases) <==> g in multiset(finished);
    if g in finished {
      var i :| 0 <= i < |finished| && finished[i] == g;
      CollectedExactly(cases, groups[i]);
    }
    var group := Builder(g.name, MeansOf(cases, g.name));
    CollectedExactly(cases, group);
    if group in groups {
      var i :| 0 <= i < |groups| && groups[i] == group;
      assert finished[i] == Group(g.name, |group.means|, ft.mean(group.means));
    }
  }

  lemma GroupsLinear()
    ensures TotalPreorder(GroupLeq)
  {
    TextLinear();
  }

  /** They are in the order of the known groups, then by name, and no name occurs twice. */
  lemma GroupStatsSorted(ft: FloatText, cases: seq<Case>)
    ensures Sorted(GroupLeq, GroupStats(ft, cases))
    ensures NoRepeats(Map((g: Group) => g.name, GroupStats(ft, cases)))
  {
    hide CollectedAll, GroupLeq;
    GroupsLinear();
    var groups := CollectedAll(cases);
    var finished := Finished(ft, groups);
    SortBySorts(GroupLeq, finished);
    CollectedExactly(cases, Builder("", []));
    var name := (g: Group) => g.name;
    assert NoRepeats(Map(name, finished)) by {
      forall i, j | 0 <= i < j < |finished|
        ensures Map(name, finished)[i] != Map(name, finished)[j]
      {
        assert groups[i].name != groups[j].name;
      }
    }
    SameImagesOfSame(name, finished, GroupStats(ft, cases));
    RepeatsByCount(Map(name, finished));
    RepeatsByCount(Map(name, GroupStats(ft, cases)));
    forall x | x in Map(name, GroupStats(ft, cases))
      ensures x in Map(name, finished)
    {
      assert x in multiset(Map(name, finished));
    }
  }

  const KNOWN_GROUPS: seq<string> := ["core", "docs", "stress", "module", "borrow"]

  /** Both known, and `a` the earlier; or only `a` known; or neither, and `a` first by its text. */
  ghost predicate ShownBefore(a: string, b: string) {
    || (exists m, n :: 0 <= m < n < |KNOWN_GROUPS| && a == KNOWN_GROUPS[m] && b == KNOWN_GROUPS[n])
    || (a in KNOWN_GROUPS && b !in KNOWN_GROUPS)
    || (a !in KNOWN_GROUPS && b !in KNOWN_GROUPS && TextBefore(a, b))
  }

  lemma RankIsPlace(name: string)
    ensures Rank(name) <= 5
    ensures Rank(name) < 5 ==> name == KNOWN_GROUPS[Rank(name)]
    ensures Rank(name) == 5 <==> name !in KNOWN_GROUPS
  {
    assert KNOWN_GROUPS[0] == "core" && KNOWN_GROUPS[1] == "docs" && KNOWN_GROUPS[2] == "stress";
    assert KNOWN_GROUPS[3] == "module" && KNOWN_GROUPS[4] == "borrow";
  }

  /** The statistics show the known groups in their order and then the others by name. */
  lemma GroupsShownInOrder(ft: FloatText, cases: seq<Case>, i: nat, j: nat)
    requires i < j < |GroupStats(ft, cases)|
    ensures ShownBefore(GroupStats(ft, cases)[i].name, GroupStats(ft, cases)[j].name)
  {
    hide GroupStats, Rank;
    var stats := GroupStats(ft, cases);
    GroupStatsSorted(ft, cases);
    var a, b := stats[i].name, stats[j].name;
    assert GroupLeq(stats[i], stats[j]);
    assert a != b by {
      var names := Map((g: Group) => g.name, stats);
      assert names[i] == a && names[j] == b;
    }
    RankIsPlace(a);
    RankIsPlace(b);
    if Rank(a) == 5 && Rank(b) == 5 {
      LeqIsBefore(a, b);
    } else if Rank(b) < 5 {
      assert a == KNOWN_GROUPS[Rank(a)] && b == KNOWN_GROUPS[Rank(b)];
    }
  }
}
