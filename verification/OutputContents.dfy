/** What the files hold after a build, on the outputs alone: which output's text is at a path, and
    what is left when the build stops early. */
module OutputContents {
  import opened BuildManifest
  import opened OutputTree
  import opened OutputCleanup
  import opened OutputHistory

  /** Output `i` is a file at this path. */
  predicate FileAt(outputs: seq<OutputFile>, p: RelativePath, i: int) {
    && 0 <= i < |outputs|
    && outputs[i].path == p
    && (outputs[i].kind.Js? || outputs[i].kind.HtmlText? || outputs[i].kind.Wasm? || outputs[i].kind.Bytes?)
  }

  predicate LastFileAt(outputs: seq<OutputFile>, p: RelativePath, i: int) {
    FileAt(outputs, p, i) && forall k :: i < k < |outputs| ==> !FileAt(outputs, p, k)
  }

  /** The path holds the text of the last of these outputs that is a file there, and what it held
      before when none is. */
  ghost predicate HoldsLast(before: Tree, after: Tree, outputs: seq<OutputFile>, p: RelativePath) {
    && (forall i :: LastFileAt(outputs, p, i) ==> p in after.files && after.files[p] == outputs[i].kind.text)
    && ((forall i :: !FileAt(outputs, p, i)) ==> Same(before, after, p))
  }

  predicate Same(before: Tree, after: Tree, p: RelativePath) {
    (p in after.files <==> p in before.files) && (p in before.files ==> after.files[p] == before.files[p])
  }

  /** The path holds the output's text if it is a file there, and what it held before if not. */
  predicate Wrote(before: Tree, after: Tree, output: OutputFile, p: RelativePath) {
    && (FileAt([output], p, 0) ==> p in after.files && after.files[p] == output.kind.text)
    && (!FileAt([output], p, 0) ==> Same(before, after, p))
  }

  lemma OutputText(tree: Tree, output: OutputFile, mode: WriteMode, faults: Faults, p: RelativePath)
    requires WellFormed(tree) && output.path != [] && !output.kind.NotBuilt?
    ensures var (after, ok) := OutputWritten(tree, output, mode, faults);
      WellFormed(after) && if ok then Wrote(tree, after, output, p) else after.files == tree.files
  {
    hide DirsCreated, FileWritten, WellFormed;
    if output.kind.Directory? {
      DirsCreatedWellFormed(tree, output.path, faults.uncreatable);
    } else {
      FileWrittenOnly(tree, output.path, output.kind.text, mode, faults, p);
    }
  }

  /** One output before others. */
  lemma HoldsBehind(
    before: Tree, written: Tree, after: Tree, output: OutputFile, others: seq<OutputFile>, p: RelativePath)
    requires HoldsLast(written, after, others, p) && Wrote(before, written, output, p)
    ensures HoldsLast(before, after, [output] + others, p)
  {
    var outputs := [output] + others;
    assert forall i :: FileAt(others, p, i) <==> i >= 0 && FileAt(outputs, p, i + 1);
    assert FileAt(outputs, p, 0) <==> FileAt([output], p, 0);
    forall i | LastFileAt(outputs, p, i)
      ensures p in after.files && after.files[p] == outputs[i].kind.text
    {
      if i > 0 {
        assert LastFileAt(others, p, i - 1);
      }
    }
  }

  /** A component that is no plain name. */
  predicate NoName(component: string) {
    component == [] || component == "." || component == ".." || '/' in component
  }

  /** Something stands in the way of an output: its path is empty or has a component that is no plain
      name, a directory it needs is refused or is a file, or the file itself is refused or is a
      directory. */
  ghost predicate Obstructed(tree: Tree, output: OutputFile, faults: Faults) {
    || output.path == []
    || (exists i :: 0 <= i < |output.path| && NoName(output.path[i]))
    || (exists d :: d <= output.path && d in faults.uncreatable)
    || (exists d :: d <= output.path && d in tree.files && (d != output.path || output.kind.Directory?))
    || (FileAt([output], output.path, 0) && (output.path in tree.dirs || output.path in faults.unwritable))
  }

  lemma RefusedOutput(tree: Tree, output: OutputFile, mode: WriteMode, faults: Faults)
    requires WellFormed(tree) && output.path != [] && !output.kind.NotBuilt?
    requires !OutputWritten(tree, output, mode, faults).1
    ensures Obstructed(OutputWritten(tree, output, mode, faults).0, output, faults)
  {
    hide SafePath, DirsCreated;
    var dir := if output.kind.Directory? then output.path else Parent(output.path);
    var ready := DirsCreated(tree, dir, faults.uncreatable).0;
    DirsCreatedExactly(tree, dir, faults.uncreatable);
    if !DirsCreated(tree, dir, faults.uncreatable).1 {
      var d :| d in Above(dir) && d !in tree.dirs && (d in faults.uncreatable || d in tree.files);
      AbovePrefixes(dir, d);
      assert d <= output.path by {
        assert d == dir[..|d|] == output.path[..|d|];
      }
    }
  }

  /** An emission handles the outputs in order up to the first that is obstructed, and then the
      files hold what the handled ones say. */
  lemma {:induction false} EmittedHolds(
    tree: Tree, tracked: seq<RelativePath>, outputs: seq<OutputFile>, project: Project, faults: Faults)
    returns (n: nat)
    requires WellFormed(tree)
    ensures n <= |outputs| && WellFormed(Emitted(tree, tracked, outputs, project, faults).tree)
    ensures Emitted(tree, tracked, outputs, project, faults).ok <==> n == |outputs|
    ensures n < |outputs| ==>
        && !outputs[n].kind.NotBuilt?
        && Obstructed(Emitted(tree, tracked, outputs, project, faults).tree, outputs[n], faults)
    ensures forall p :: HoldsLast(tree, Emitted(tree, tracked, outputs, project, faults).tree, outputs[..n], p)
    decreases |outputs|
  {
    hide WellFormed, OutputWritten, SafePath, Tracked, HoldsLast, Wrote, Obstructed;
    var after := Emitted(tree, tracked, outputs, project, faults).tree;
    n := 0;
    if outputs != [] {
      var output, others := outputs[0], outputs[1..];
      if output.kind.NotBuilt? {
        var m := EmittedHolds(tree, tracked, others, project, faults);
        n := m + 1;
        NotBuiltWritesNothing(tree, output);
        AllHoldBehind(tree, tree, after, output, others[..m]);
        assert outputs[..n] == [output] + others[..m];
      } else if SafePath(output.path) {
        SafeIsNotEmpty(output.path);
        var (written, ok) := OutputWritten(tree, output, project.mode, faults);
        forall p | ok
          ensures Wrote(tree, written, output, p)
        {
          OutputText(tree, output, project.mode, faults, p);
        }
        assert WellFormed(written) && (!ok ==> written.files == tree.files) by {
          OutputText(tree, output, project.mode, faults, []);
        }
        if ok {
          var m := EmittedHolds(written, Tracked(tracked, project.policy, output), others, project, faults);
          n := m + 1;
          AllHoldBehind(tree, written, after, output, others[..m]);
          assert outputs[..n] == [output] + others[..m];
        } else {
          RefusedOutput(tree, output, project.mode, faults);
        }
      } else {
        UnsafeIsObstructed(tree, output, faults);
      }
    }
    if n == 0 {
      NothingHandled(tree, after);
    }
  }

  lemma NotBuiltWritesNothing(tree: Tree, output: OutputFile)
    requires output.kind.NotBuilt?
    ensures forall p :: Wrote(tree, tree, output, p)
  {
  }

  lemma UnsafeIsObstructed(tree: Tree, output: OutputFile, faults: Faults)
    ensures !SafePath(output.path) ==> Obstructed(tree, output, faults)
  {
  }

  lemma NothingHandled(before: Tree, after: Tree)
    requires after.files == before.files
    ensures forall p :: HoldsLast(before, after, [], p)
  {
  }

  /** `HoldsBehind` for every path. */
  lemma AllHoldBehind(before: Tree, written: Tree, after: Tree, output: OutputFile, others: seq<OutputFile>)
    requires forall p :: HoldsLast(written, after, others, p)
    requires forall p :: Wrote(before, written, output, p)
    ensures forall p :: HoldsLast(before, after, [output] + others, p)
  {
    hide HoldsLast, Wrote;
    forall p
      ensures HoldsLast(before, after, [output] + others, p)
    {
      HoldsBehind(before, written, after, output, others, p);
    }
  }

  // ---------------------------------------------------------------- directories

  predicate DirectoryAt(outputs: seq<OutputFile>, d: RelativePath) {
    exists i :: 0 <= i < |outputs| && outputs[i].path == d && outputs[i].kind.Directory?
  }

  lemma OutputDirectory(tree: Tree, output: OutputFile, mode: WriteMode, faults: Faults, d: RelativePath)
    requires WellFormed(tree) && output.path != [] && !output.kind.NotBuilt?
    ensures var (after, ok) := OutputWritten(tree, output, mode, faults);
      && (d in tree.dirs ==> d in after.dirs)
      && (ok && output.kind.Directory? ==> output.path in after.dirs)
  {
    hide DirsCreated;
    if output.kind.Directory? {
      DirsCreatedWellFormed(tree, output.path, faults.uncreatable);
    }
  }

  lemma {:induction false} EmittedDirectories(
    tree: Tree, tracked: seq<RelativePath>, outputs: seq<OutputFile>, project: Project, faults: Faults,
    d: RelativePath)
    requires WellFormed(tree)
    ensures var after := Emitted(tree, tracked, outputs, project, faults);
      && (d in tree.dirs ==> d in after.tree.dirs)
      && (after.ok && DirectoryAt(outputs, d) ==> d in after.tree.dirs)
    decreases |outputs|
  {
    hide WellFormed, OutputWritten, SafePath, Tracked, Wrote;
    if outputs != [] {
      var output, others := outputs[0], outputs[1..];
      assert forall i :: 0 <= i < |others| ==> others[i] == outputs[i + 1];
      assert DirectoryAt(outputs, d) <==> DirectoryAt(others, d) || (output.path == d && output.kind.Directory?);
      if output.kind.NotBuilt? {
        EmittedDirectories(tree, tracked, others, project, faults, d);
      } else if SafePath(output.path) {
        SafeIsNotEmpty(output.path);
        OutputText(tree, output, project.mode, faults, d);
        OutputDirectory(tree, output, project.mode, faults, d);
        var written := OutputWritten(tree, output, project.mode, faults).0;
        EmittedDirectories(written, Tracked(tracked, project.policy, output), others, project, faults, d);
      }
    }
  }

  /** The directory is one a removed file was in. */
  ghost predicate AboveRemoved(removed: seq<RelativePath>, d: RelativePath) {
    exists f :: f in removed && d < f
  }

  lemma {:induction false} RemovedStay(
    tree: Tree, removed: seq<RelativePath>, current: seq<RelativePath>, previous: seq<RelativePath>, faults: Faults)
    ensures removed <= StaleRemoved(tree, removed, current, previous, faults).removed
    decreases |previous|
  {
    hide EmptyDirsRemoved, SafePath;
    if previous != [] {
      if IsRemovable(tree, previous[0], current, faults) {
        SafeIsNotEmpty(previous[0]);
        var after := FileRemoved(tree, previous[0], faults.stuckDirs);
        RemovedStay(after, removed + [previous[0]], current, previous[1..], faults);
      } else {
        RemovedStay(tree, removed, current, previous[1..], faults);
      }
    }
  }

  lemma LostAbove(tree: Tree, f: RelativePath, stuck: set<RelativePath>, d: RelativePath)
    requires WellFormed(tree) && f != [] && d in tree.dirs && d !in FileRemoved(tree, f, stuck).dirs
    ensures d < f
  {
    OnlyEmptyDirsGo(tree.(files := tree.files - {f}), Parent(f), stuck, d, []);
    assert d == Parent(f)[..|d|] == f[..|d|];
  }

  lemma {:induction false} RemovalDirectories(
    tree: Tree, removed: seq<RelativePath>, current: seq<RelativePath>, previous: seq<RelativePath>,
    faults: Faults, d: RelativePath)
    requires WellFormed(tree) && d in tree.dirs
    ensures var after := StaleRemoved(tree, removed, current, previous, faults);
      d in after.tree.dirs || AboveRemoved(after.removed, d)
    decreases |previous|
  {
    hide EmptyDirsRemoved, WellFormed, SafePath;
    if previous != [] {
      if IsRemovable(tree, previous[0], current, faults) {
        var f := previous[0];
        SafeIsNotEmpty(f);
        FileRemovedWellFormed(tree, f, faults.stuckDirs);
        var after := FileRemoved(tree, f, faults.stuckDirs);
        if d in after.dirs {
          RemovalDirectories(after, removed + [f], current, previous[1..], faults, d);
        } else {
          LostAbove(tree, f, faults.stuckDirs, d);
          RemovedStay(after, removed + [f], current, previous[1..], faults);
          var all := StaleRemoved(tree, removed, current, previous, faults).removed;
          assert removed + [f] <= all && (removed + [f])[|removed|] == f;
          assert all[|removed|] == f && f in all;
        }
      } else {
        RemovalDirectories(tree, removed, current, previous[1..], faults, d);
      }
    }
  }

  // ---------------------------------------------------------------- a build

  lemma HoldsAfterRemoval(before: Tree, emitted: Tree, after: Tree, outputs: seq<OutputFile>, p: RelativePath)
    requires HoldsLast(before, emitted, outputs, p) && Same(emitted, after, p)
    ensures HoldsLast(before, after, outputs, p)
  {
  }

  /** A build handles its outputs in order, all of them if it succeeds. Every file it does not
      remove holds the text of the last handled output at its path, and every other file what
      it held before; only the manifest is written besides. Directories asked for are there
      unless a removed file was in them. */
  lemma BuildHolds(tree: Tree, project: Project, faults: Faults) returns (n: nat)
    requires WellFormed(tree)
    ensures n <= |project.outputs| && (Built(tree, project, faults).ok ==> n == |project.outputs|)
    ensures forall p :: p !in Built(tree, project, faults).removed && (p != MANIFEST_PATH || !project.cleanup) ==>
        HoldsLast(tree, Built(tree, project, faults).tree, project.outputs[..n], p)
    ensures forall d :: Built(tree, project, faults).ok && DirectoryAt(project.outputs, d) ==>
        d in Built(tree, project, faults).tree.dirs || AboveRemoved(Built(tree, project, faults).removed, d)
  {
    hide WellFormed, Emitted, Cleaned, FileWritten, Loaded, Written, HoldsLast, DirectoryAt, Same, AboveRemoved;
    var result := Built(tree, project, faults);
    if faults.rootRefused {
      n := 0;
      NothingHandled(tree, tree);
      assert project.outputs[..n] == [];
    } else {
      n := EmittedHolds(tree, [], project.outputs, project, faults);
      var emission := Emitted(tree, [], project.outputs, project, faults);
      forall d | emission.ok && DirectoryAt(project.outputs, d)
        ensures d in emission.tree.dirs
      {
        EmittedDirectories(tree, [], project.outputs, project, faults, d);
      }
      if emission.ok && project.cleanup {
        forall p | p !in result.removed && p != MANIFEST_PATH
          ensures HoldsLast(tree, result.tree, project.outputs[..n], p)
        {
          FinalizedHolds(emission.tree, Loaded(ManifestOf(tree), project.policy), emission.tracked, project, faults, p);
          HoldsAfterRemoval(tree, emission.tree, result.tree, project.outputs[..n], p);
        }
        forall d | DirectoryAt(project.outputs, d)
          ensures d in result.tree.dirs || AboveRemoved(result.removed, d)
        {
          FinalizedHolds(emission.tree, Loaded(ManifestOf(tree), project.policy), emission.tracked, project, faults, d);
        }
      }
    }
  }

  lemma FinalizedHolds(
    tree: Tree, load: LoadResult, tracked: seq<RelativePath>, project: Project, faults: Faults, p: RelativePath)
    requires WellFormed(tree)
    ensures var result := Finalized(tree, load, tracked, project, faults);
      && (p !in result.removed && p != MANIFEST_PATH ==> Same(tree, result.tree, p))
      && (p in tree.dirs ==> p in result.tree.dirs || AboveRemoved(result.removed, p))
  {
    hide WellFormed, StaleRemoved, FileWritten, Written, IsRemovable, AboveRemoved;
    var cleaned := Cleaned(tree, load, tracked, faults);
    if load.ValidV2? {
      StaleRemovedExactly(tree, [], tracked, load.paths, faults, p);
      if p in tree.dirs {
        RemovalDirectories(tree, [], tracked, load.paths, faults, p);
      }
    }
    FileWrittenOnly(cleaned.tree, MANIFEST_PATH, Written(tracked, project.policy), project.mode, faults, p);
    FileWrittenKeepsDirectory(cleaned.tree, MANIFEST_PATH, Written(tracked, project.policy), project, faults, p);
  }

  lemma FileWrittenKeepsDirectory(
    tree: Tree, p: RelativePath, text: string, project: Project, faults: Faults, d: RelativePath)
    requires p != []
    ensures d in tree.dirs ==> d in FileWritten(tree, p, text, project.mode, faults).0.dirs
  {
  }
}
