/** The output root as a tree of directories and files. */
module OutputTree {
  import opened BuildManifest

  /** Paths are relative to the root, which is the empty path. */
  datatype Tree = Tree(files: map<RelativePath, string>, dirs: set<RelativePath>)

  function Parent(p: RelativePath): RelativePath
    requires p != []
  {
    p[..|p| - 1]
  }

  /** The root is a directory, every entry has its parent, and nothing is both file and directory. */
  predicate WellFormed(tree: Tree) {
    && [] in tree.dirs
    && (forall p :: p in tree.files ==> p != [] && Parent(p) in tree.dirs && p !in tree.dirs)
    && (forall d :: d in tree.dirs && d != [] ==> Parent(d) in tree.dirs)
  }

  // ---------------------------------------------------------------- writing

  /** `create_dir_all`: the missing directories from the top down, and whether all are there now.
      It stops at the first one that is refused or has a file in its place; those above stay. */
  function DirsCreated(tree: Tree, dir: RelativePath, uncreatable: set<RelativePath>): (r: (Tree, bool))
    ensures r.0.files == tree.files && tree.dirs <= r.0.dirs
  {
    if dir == [] || dir in tree.dirs then (tree, true)
    else
      var (above, ok) := DirsCreated(tree, Parent(dir), uncreatable);
      if !ok || dir in uncreatable || dir in tree.files then (above, false)
      else (above.(dirs := above.dirs + {dir}), true)
  }

  lemma {:induction false} DirsCreatedWellFormed(tree: Tree, dir: RelativePath, uncreatable: set<RelativePath>)
    requires WellFormed(tree)
    ensures WellFormed(DirsCreated(tree, dir, uncreatable).0)
    ensures DirsCreated(tree, dir, uncreatable).1 ==> dir in DirsCreated(tree, dir, uncreatable).0.dirs
  {
    if dir != [] && dir !in tree.dirs {
      DirsCreatedWellFormed(tree, Parent(dir), uncreatable);
    }
  }

  /** The directories from the root down to this one. */
  function Above(dir: RelativePath): (r: set<RelativePath>)
    ensures dir in r
  {
    if dir == [] then {[]} else Above(Parent(dir)) + {dir}
  }

  lemma {:induction false} AbovePrefixes(dir: RelativePath, d: RelativePath)
    ensures d in Above(dir) <==> d <= dir
  {
    if dir != [] {
      AbovePrefixes(Parent(dir), d);
      assert d <= dir && |d| == |dir| ==> d == dir;
      assert d <= Parent(dir) ==> d == dir[..|d|];
    }
  }

  lemma {:induction false} DirsAbove(tree: Tree, dir: RelativePath)
    requires WellFormed(tree) && dir in tree.dirs
    ensures Above(dir) <= tree.dirs
  {
    if dir != [] {
      DirsAbove(tree, Parent(dir));
    }
  }

  /** Creating a directory succeeds exactly when nothing is in the way: no missing directory
      down to it is refused or has a file in its place. Then those and no others are new. */
  lemma {:induction false} DirsCreatedExactly(tree: Tree, dir: RelativePath, uncreatable: set<RelativePath>)
    requires WellFormed(tree)
    ensures DirsCreated(tree, dir, uncreatable).1 <==>
        forall d :: d in Above(dir) && d !in tree.dirs ==> d !in uncreatable && d !in tree.files
    ensures DirsCreated(tree, dir, uncreatable).1 ==>
        DirsCreated(tree, dir, uncreatable).0.dirs == tree.dirs + Above(dir)
  {
    if dir in tree.dirs {
      DirsAbove(tree, dir);
    } else {
      DirsCreatedExactly(tree, Parent(dir), uncreatable);
    }
  }

  // ---------------------------------------------------------------- removing directories

  predicate IsEmptyDir(tree: Tree, dir: RelativePath) {
    && dir in tree.dirs
    && (forall f :: f in tree.files ==> f == [] || Parent(f) != dir)
    && (forall d :: d in tree.dirs ==> d == [] || Parent(d) != dir)
  }

  /** Removes a directory and then its parents while each is empty, but never the root.
      Directories in `stuck` refuse to go. */
  function EmptyDirsRemoved(tree: Tree, dir: RelativePath, stuck: set<RelativePath>): (r: Tree)
    ensures r.files == tree.files && r.dirs <= tree.dirs
    decreases |dir|
  {
    if dir == [] || dir in stuck || !IsEmptyDir(tree, dir) then tree
    else EmptyDirsRemoved(tree.(dirs := tree.dirs - {dir}), Parent(dir), stuck)
  }

  lemma {:induction false} DirRemovalKeepsShape(tree: Tree, dir: RelativePath, stuck: set<RelativePath>)
    requires WellFormed(tree)
    ensures
      var after := EmptyDirsRemoved(tree, dir, stuck);
      WellFormed(after) && after.files == tree.files && after.dirs <= tree.dirs
    decreases |dir|
  {
    if dir != [] && dir !in stuck && IsEmptyDir(tree, dir) {
      DirRemovalKeepsShape(tree.(dirs := tree.dirs - {dir}), Parent(dir), stuck);
    }
  }

  lemma {:induction false} NothingBelowEmpty(tree: Tree, dir: RelativePath, p: RelativePath)
    requires WellFormed(tree) && IsEmptyDir(tree, dir)
    requires p in tree.files || p in tree.dirs
    ensures p != dir ==> !(dir <= p)
    decreases |p|
  {
    if p != [] && p != dir && dir <= p {
      if Parent(p) != dir {
        assert dir <= Parent(p);
        NothingBelowEmpty(tree, dir, Parent(p));
      }
    }
  }

  /** A directory that goes lies strictly below the root, on the way to the start, and holds
      no file. */
  lemma {:induction false} OnlyEmptyDirsGo(
    tree: Tree, dir: RelativePath, stuck: set<RelativePath>, d: RelativePath, f: RelativePath)
    requires WellFormed(tree) && d in tree.dirs && d !in EmptyDirsRemoved(tree, dir, stuck).dirs
    ensures d != [] && d <= dir && (f in tree.files ==> !(d <= f))
    decreases |dir|
  {
    if d == dir {
      if f in tree.files {
        NothingBelowEmpty(tree, dir, f);
      }
    } else {
      OnlyEmptyDirsGo(tree.(dirs := tree.dirs - {dir}), Parent(dir), stuck, d, f);
      assert dir[..|d|] == Parent(dir)[..|d|];
    }
  }

  /** Nothing keeps this directory once everything below it on the way has gone: it is a directory
      that goes when asked, holds no file, and no directory but the next on the way to `dir`. */
  predicate Clears(tree: Tree, e: RelativePath, dir: RelativePath, stuck: set<RelativePath>) {
    && e in tree.dirs && e !in stuck
    && (forall f :: f in tree.files && f != [] ==> Parent(f) != e)
    && (forall c :: c in tree.dirs && c != [] && Parent(c) == e ==> c <= dir)
  }

  predicate Between(d: RelativePath, e: RelativePath, dir: RelativePath) {
    d <= e && e <= dir
  }

  /** Nothing keeps any directory from this one down to the start. */
  ghost predicate AllClear(tree: Tree, d: RelativePath, dir: RelativePath, stuck: set<RelativePath>) {
    forall e :: Between(d, e, dir) ==> Clears(tree, e, dir, stuck)
  }

  lemma EmptyIsThere(tree: Tree, dir: RelativePath)
    requires IsEmptyDir(tree, dir)
    ensures dir in tree.dirs
  {
  }

  lemma DirectoryGone(tree: Tree, dir: RelativePath)
    requires WellFormed(tree) && dir != [] && IsEmptyDir(tree, dir)
    ensures WellFormed(tree.(dirs := tree.dirs - {dir}))
  {
  }

  lemma AtOrAbove(c: RelativePath, dir: RelativePath)
    requires dir != []
    ensures c <= dir <==> c == dir || c <= Parent(dir)
  {
  }

  lemma StartStays(tree: Tree, dir: RelativePath, stuck: set<RelativePath>, d: RelativePath)
    requires WellFormed(tree) && dir != [] && (dir in stuck || !IsEmptyDir(tree, dir)) && d <= dir
    ensures !AllClear(tree, d, dir, stuck)
  {
    assert Between(d, dir, dir);
    assert Clears(tree, dir, dir, stuck) ==> IsEmptyDir(tree, dir);
  }

  /** From the start one step up. */
  lemma StepClears(tree: Tree, d: RelativePath, dir: RelativePath, stuck: set<RelativePath>)
    requires WellFormed(tree) && dir != [] && dir !in stuck && IsEmptyDir(tree, dir) && d <= dir
    ensures AllClear(tree, d, dir, stuck)
       <==> d == dir || AllClear(tree.(dirs := tree.dirs - {dir}), d, Parent(dir), stuck)
  {
    hide WellFormed;
    var next := tree.(dirs := tree.dirs - {dir});
    assert Clears(tree, dir, dir, stuck);
    forall e | Between(d, e, dir)
      ensures Clears(tree, e, dir, stuck) <==> e == dir || Clears(next, e, Parent(dir), stuck)
      ensures e == dir || Between(d, e, Parent(dir))
    {
      AtOrAbove(e, dir);
      if e != dir {
        ClearsAbove(tree, dir, e, stuck);
      }
    }
    forall e | Between(d, e, Parent(dir))
      ensures Between(d, e, dir) && e != dir
    {
      AtOrAbove(e, dir);
    }
  }

  lemma ClearsAbove(tree: Tree, dir: RelativePath, e: RelativePath, stuck: set<RelativePath>)
    requires dir != [] && e <= Parent(dir)
    ensures Clears(tree, e, dir, stuck) <==> Clears(tree.(dirs := tree.dirs - {dir}), e, Parent(dir), stuck)
  {
    forall c | c in tree.dirs
      ensures c <= dir <==> c == dir || c <= Parent(dir)
    {
      AtOrAbove(c, dir);
    }
    AtOrAbove(e, dir);
  }

  /** The directories that go, exactly: all from the start up to, and not past, the first that
      something keeps. */
  lemma {:induction false} DirsRemovedExactly(
    tree: Tree, dir: RelativePath, stuck: set<RelativePath>, d: RelativePath)
    requires WellFormed(tree)
    ensures d in tree.dirs && d !in EmptyDirsRemoved(tree, dir, stuck).dirs <==>
        d != [] && d <= dir && AllClear(tree, d, dir, stuck)
    decreases |dir|
  {
    hide WellFormed, IsEmptyDir, Clears, AllClear;
    if dir != [] {
      if dir in stuck || !IsEmptyDir(tree, dir) {
        if d <= dir {
          StartStays(tree, dir, stuck, d);
        }
      } else {
        DirectoryGone(tree, dir);
        DirsRemovedExactly(tree.(dirs := tree.dirs - {dir}), Parent(dir), stuck, d);
        AtOrAbove(d, dir);
        if d <= dir {
          StepClears(tree, d, dir, stuck);
        }
        EmptyIsThere(tree, dir);
      }
    }
  }

  /** Removing one stale file and then the directories it leaves empty. */
  function FileRemoved(tree: Tree, p: RelativePath, stuck: set<RelativePath>): Tree
    requires p != []
  {
    EmptyDirsRemoved(tree.(files := tree.files - {p}), Parent(p), stuck)
  }

  lemma FileRemovedWellFormed(tree: Tree, p: RelativePath, stuck: set<RelativePath>)
    requires WellFormed(tree) && p != []
    ensures WellFormed(FileRemoved(tree, p, stuck)) && FileRemoved(tree, p, stuck).files == tree.files - {p}
  {
    DirRemovalKeepsShape(tree.(files := tree.files - {p}), Parent(p), stuck);
  }
}
