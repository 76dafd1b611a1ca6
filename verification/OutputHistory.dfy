/** What cleanup does over whole histories of builds: which files it may remove. */
module OutputHistory {
  import opened Wrappers
  import opened Sorting
  import opened TextLines
  import opened BuildManifest
  import opened ManifestRoundTrip
  import opened OutputTree
  import opened OutputCleanup

  // ---------------------------------------------------------------- extensions

  lemma {:induction false} DottedHasExtension(stem: string, e: string)
    requires stem != [] && '.' !in e
    ensures Extension(stem + ['.'] + e) == Some(e)
  {
    var name := stem + ['.'] + e;
    if e != [] {
      var f := e[..|e| - 1];
      assert name[..|name| - 1] == stem + ['.'] + f;
      assert f + [e[|e| - 1]] == e;
      DottedHasExtension(stem, f);
    }
  }

  /** The name ends in a dot and this text, which holds no dot; the dot does not start the name. */
  predicate EndsDotted(name: string, e: string) {
    '.' !in e && |e| + 1 < |name| && name[..|name| - 1 - |e|] + ['.'] + e == name
  }

  lemma EndsAfterDot(name: string, e: string)
    requires EndsDotted(name, e)
    ensures Extension(name) == Some(e)
  {
    DottedHasExtension(name[..|name| - 1 - |e|], e);
  }

  lemma {:induction false} ExtensionNeedsDot(name: string)
    requires Extension(name).Some?
    ensures EndsDotted(name, Extension(name).value)
  {
    if name[|name| - 1] != '.' {
      var before := name[..|name| - 1];
      ExtensionNeedsDot(before);
      assert name == before + [name[|name| - 1]];
    }
  }

  /** `Path::extension` is exactly what follows the last dot, which must not start the name. */
  lemma ExtensionAfterLastDot(name: string, e: string)
    ensures Extension(name) == Some(e) <==> EndsDotted(name, e)
  {
    hide Extension, EndsDotted;
    if Extension(name) == Some(e) {
      ExtensionNeedsDot(name);
    } else if EndsDotted(name, e) {
      EndsAfterDot(name, e);
    }
  }

  // ---------------------------------------------------------------- one stale removal

  /** A file goes exactly when the previous manifest lists it, this build does not track it,
      and the file system lets it go; directories only go when empty. */
  lemma {:induction false} StaleRemovedExactly(
    tree: Tree, removed: seq<RelativePath>, current: seq<RelativePath>, previous: seq<RelativePath>,
    faults: Faults, p: RelativePath)
    requires WellFormed(tree)
    ensures
      var after := StaleRemoved(tree, removed, current, previous, faults);
      var goes := p in previous && IsRemovable(tree, p, current, faults);
      && WellFormed(after.tree) && after.tree.dirs <= tree.dirs
      && (p in after.removed <==> p in removed || goes)
      && (p in after.tree.files <==> p in tree.files && !goes)
      && (p in after.tree.files ==> after.tree.files[p] == tree.files[p])
    decreases |previous|
  {
    hide EmptyDirsRemoved, WellFormed, SafePath;
    if previous != [] {
      assert previous == [previous[0]] + previous[1..];
      if IsRemovable(tree, previous[0], current, faults) {
        SafeIsNotEmpty(previous[0]);
        FileRemovedWellFormed(tree, previous[0], faults.stuckDirs);
        DirsShrink(tree, previous[0], faults);
        var after := FileRemoved(tree, previous[0], faults.stuckDirs);
        StaleRemovedExactly(after, removed + [previous[0]], current, previous[1..], faults, p);
      } else {
        StaleRemovedExactly(tree, removed, current, previous[1..], faults, p);
      }
    }
  }

  lemma DirsShrink(tree: Tree, p: RelativePath, faults: Faults)
    requires WellFormed(tree) && p != []
    ensures FileRemoved(tree, p, faults.stuckDirs).dirs <= tree.dirs
  {
    DirRemovalKeepsShape(tree.(files := tree.files - {p}), Parent(p), faults.stuckDirs);
  }

  // ---------------------------------------------------------------- one emission

  predicate IsFile(kind: FileKind) {
    !kind.NotBuilt? && !kind.Directory?
  }

  /** No output is a file at the manifest's own path. */
  predicate FitOutputs(outputs: seq<OutputFile>) {
    forall i :: 0 <= i < |outputs| ==> FitOutput(outputs[i])
  }

  predicate FitOutput(output: OutputFile) {
    IsFile(output.kind) ==> output.path != MANIFEST_PATH
  }

  predicate IsFileOutput(outputs: seq<OutputFile>, p: RelativePath) {
    exists i :: 0 <= i < |outputs| && outputs[i].path == p && IsFile(outputs[i].kind)
  }

  /** Some output is tracked at this path. */
  predicate IsTrackedOutput(outputs: seq<OutputFile>, policy: CleanupPolicy, p: RelativePath) {
    exists i :: 0 <= i < |outputs| && outputs[i].path == p && IsTracked(policy, outputs[i])
  }

  ghost predicate GoodTracked(tracked: seq<RelativePath>) {
    AllSafe(tracked) && NoRepeats(tracked) && MANIFEST_PATH !in tracked
  }

  /** Files stay files, and only this output can be new or changed. */
  ghost predicate WroteOnly(before: Tree, after: Tree, output: OutputFile) {
    && WellFormed(after)
    && (forall p :: p in before.files ==> p in after.files)
    && (forall p :: p in after.files && !(output.path == p && IsFile(output.kind)) ==>
        p in before.files && after.files[p] == before.files[p])
  }

  lemma OutputWrittenOnly(tree: Tree, output: OutputFile, mode: WriteMode, faults: Faults)
    requires WellFormed(tree) && output.path != [] && !output.kind.NotBuilt?
    ensures WroteOnly(tree, OutputWritten(tree, output, mode, faults).0, output)
    ensures OutputWritten(tree, output, mode, faults).1 && IsFile(output.kind) ==>
        output.path in OutputWritten(tree, output, mode, faults).0.files
  {
    hide DirsCreated;
    if output.kind.Directory? {
      DirsCreatedWellFormed(tree, output.path, faults.uncreatable);
    } else {
      DirsCreatedWellFormed(tree, Parent(output.path), faults.uncreatable);
    }
  }

  lemma TrackedOnly(tracked: seq<RelativePath>, policy: CleanupPolicy, output: OutputFile, t: RelativePath)
    ensures t in Tracked(tracked, policy, output) <==> t in tracked || (t == output.path && IsTracked(policy, output))
  {
  }

  lemma TrackedStaysGood(tracked: seq<RelativePath>, policy: CleanupPolicy, output: OutputFile)
    requires GoodTracked(tracked) && SafePath(output.path) && FitOutput(output)
    ensures GoodTracked(Tracked(tracked, policy, output))
  {
    hide SafePath, Manages;
    var now := Tracked(tracked, policy, output);
    if now != tracked {
      forall i, j | 0 <= i < j < |now|
        ensures now[i] != now[j]
      {
        if j == |tracked| {
          assert now[i] in tracked;
        }
      }
    }
  }

  /** An emission keeps every file and writes only file outputs. */
  lemma {:induction false} EmittedKeeps(
    tree: Tree, tracked: seq<RelativePath>, outputs: seq<OutputFile>, project: Project, faults: Faults,
    p: RelativePath)
    requires WellFormed(tree)
    ensures
      var after := Emitted(tree, tracked, outputs, project, faults);
      && WellFormed(after.tree)
      && (p in tree.files ==> p in after.tree.files)
      && (p in after.tree.files && !IsFileOutput(outputs, p) ==>
          p in tree.files && after.tree.files[p] == tree.files[p])
      && (after.ok && IsFileOutput(outputs, p) ==> SafePath(p) && p in after.tree.files)
    decreases |outputs|
  {
    hide WellFormed, OutputWritten, SafePath, Tracked, IsFile;
    if outputs != [] {
      var output, others := outputs[0], outputs[1..];
      assert outputs == [output] + others;
      assert forall i :: 0 <= i < |others| ==> others[i] == outputs[i + 1];
      assert IsFileOutput(outputs, p) <==> IsFileOutput(others, p) || (output.path == p && IsFile(output.kind));
      if output.kind.NotBuilt? {
        NotBuiltIsNoFile(output);
        EmittedKeeps(tree, tracked, others, project, faults, p);
      } else if SafePath(output.path) {
        SafeIsNotEmpty(output.path);
        OutputWrittenOnly(tree, output, project.mode, faults);
        var (written, ok) := OutputWritten(tree, output, project.mode, faults);
        if ok {
          EmittedKeeps(written, Tracked(tracked, project.policy, output), others, project, faults, p);
        }
      }
    }
  }

  lemma NotBuiltIsNoFile(output: OutputFile)
    ensures output.kind.NotBuilt? ==> !IsFile(output.kind)
  {
  }

  /** What an emission tracks is a duplicate-free list of safe paths. */
  lemma {:induction false} EmittedTracksGood(
    tree: Tree, tracked: seq<RelativePath>, outputs: seq<OutputFile>, project: Project, faults: Faults)
    requires GoodTracked(tracked) && FitOutputs(outputs)
    ensures GoodTracked(Emitted(tree, tracked, outputs, project, faults).tracked)
    decreases |outputs|
  {
    hide GoodTracked, OutputWritten, SafePath, FitOutput, Tracked;
    if outputs != [] {
      var output, others := outputs[0], outputs[1..];
      assert forall i :: 0 <= i < |others| ==> others[i] == outputs[i + 1];
      if output.kind.NotBuilt? {
        EmittedTracksGood(tree, tracked, others, project, faults);
      } else if SafePath(output.path) {
        SafeIsNotEmpty(output.path);
        TrackedStaysGood(tracked, project.policy, output);
        var (written, ok) := OutputWritten(tree, output, project.mode, faults);
        EmittedTracksGood(written, Tracked(tracked, project.policy, output), others, project, faults);
      }
    }
  }

  /** A complete emission tracks exactly the outputs the policy tracks. */
  lemma {:induction false} EmittedTracksExactly(
    tree: Tree, tracked: seq<RelativePath>, outputs: seq<OutputFile>, project: Project, faults: Faults,
    p: RelativePath)
    requires Emitted(tree, tracked, outputs, project, faults).ok
    ensures p in Emitted(tree, tracked, outputs, project, faults).tracked
       <==> p in tracked || IsTrackedOutput(outputs, project.policy, p)
    decreases |outputs|
  {
    hide IsTracked, OutputWritten, SafePath, Tracked;
    if outputs != [] {
      var output, others := outputs[0], outputs[1..];
      assert outputs == [output] + others;
      assert IsTrackedOutput(outputs, project.policy, p)
        <==> IsTrackedOutput(others, project.policy, p) || (output.path == p && IsTracked(project.policy, output));
      TrackedOnly(tracked, project.policy, output, p);
      if output.kind.NotBuilt? {
        NotBuiltIsUntracked(output, project.policy);
        EmittedTracksExactly(tree, tracked, others, project, faults, p);
      } else {
        SafeIsNotEmpty(output.path);
        var (written, ok) := OutputWritten(tree, output, project.mode, faults);
        EmittedTracksExactly(written, Tracked(tracked, project.policy, output), others, project, faults, p);
      }
    }
  }

  lemma NotBuiltIsUntracked(output: OutputFile, policy: CleanupPolicy)
    ensures output.kind.NotBuilt? ==> !IsTracked(policy, output)
    ensures IsTracked(policy, output) ==> IsFile(output.kind)
  {
  }

  lemma TrackedIsFileOutput(outputs: seq<OutputFile>, policy: CleanupPolicy, p: RelativePath)
    ensures IsTrackedOutput(outputs, policy, p) ==> IsFileOutput(outputs, p)
  {
    hide Manages;
  }

  // ---------------------------------------------------------------- histories

  datatype Event =
    | Build(project: Project, faults: Faults)
    | UserWrites(path: RelativePath, text: string)
    | UserRemoves(path: RelativePath)

  /** The tree, every path any build tracked, and what the manifest on disk was written from. */
  datatype History = History(
    tree: Tree, everTracked: set<RelativePath>, last: Option<(seq<RelativePath>, CleanupPolicy)>)

  const NO_FAULTS := Faults(false, {}, {}, {}, {})

  /** A root no build has written to yet. */
  function Fresh(tree: Tree): History {
    History(tree, {}, None)
  }

  function Step(h: History, event: Event): History {
    match event
    case Build(project, faults) =>
      var result := Built(h.tree, project, faults);
      History(
        result.tree,
        h.everTracked + (set p | p in result.tracked),
        if result.ok && project.cleanup then Some((result.tracked, project.policy))
        else if MANIFEST_PATH in result.tree.files then h.last
        else None)
    case UserWrites(path, text) =>
      if path == [] then h else h.(tree := FileWritten(h.tree, path, text, AlwaysWrite, NO_FAULTS).0)
    case UserRemoves(path) =>
      h.(tree := h.tree.(files := h.tree.files - {path}), last := if path == MANIFEST_PATH then None else h.last)
  }

  function Run(h: History, events: seq<Event>): History
    decreases |events|
  {
    if events == [] then h else Step(Run(h, events[..|events| - 1]), events[|events| - 1])
  }

  /** Builds have normalized policies, as the constructors make them, and write no output at the
      manifest's path; users do not write there either. */
  predicate FitEvent(event: Event) {
    match event
    case Build(project, _) => PolicyNormalized(project.policy) && FitOutputs(project.outputs)
    case UserWrites(path, _) => path != MANIFEST_PATH
    case UserRemoves(_) => true
  }

  predicate FitEvents(events: seq<Event>) {
    forall i :: 0 <= i < |events| ==> FitEvent(events[i])
  }

  /** The manifest on disk is the one the last complete build wrote. */
  ghost predicate Inv(h: History) {
    && WellFormed(h.tree) && MANIFEST_PATH !in h.everTracked
    && (h.last.None? ==> MANIFEST_PATH !in h.tree.files)
    && (h.last.Some? ==>
        && MANIFEST_PATH in h.tree.files
        && h.tree.files[MANIFEST_PATH] == Written(h.last.value.0, h.last.value.1)
        && GoodTracked(h.last.value.0) && PolicyNormalized(h.last.value.1)
        && (forall p :: p in h.last.value.0 ==> p in h.everTracked))
  }

  /** What a build may remove: the paths listed by a manifest its policy takes for its own. */
  function Candidates(h: History, policy: CleanupPolicy): seq<RelativePath> {
    if h.last.Some? && IsReadBy(h.last.value.1, policy) then Listed(h.last.value.0, h.last.value.1) else []
  }

  /** With plain extensions and one-line names these are the tracked paths of the same policy. */
  lemma PlainCandidates(h: History, policy: CleanupPolicy, p: RelativePath)
    requires Inv(h) && h.last.Some? && AllPlain(h.last.value.1.extensions) && AllLineSafe(h.last.value.0)
    ensures p in Candidates(h, policy) <==>
        p in h.last.value.0 && h.last.value.1 == policy && policy.extensions != []
  {
    hide TrackedPaths, SafePath, LineSafe, WellFormed, Written, ReadExtensions, ExtensionPaths, Normalized, Plain;
    var (tracked, written) := h.last.value;
    TrackedExactly(tracked);
    if written.extensions != [] {
      PlainReadsItself(written);
    } else {
      EmptyReadsNothing(written);
    }
  }

  lemma EmptyReadsNothing(policy: CleanupPolicy)
    requires policy.extensions == []
    ensures ReadExtensions(policy) == None && ExtensionPaths(policy) == []
  {
    hide TrimmedLines;
    NothingListed();
  }

  /** The manifest loads exactly under the policies that take it for their own. */
  lemma LoadedInHistory(h: History, policy: CleanupPolicy)
    requires Inv(h)
    ensures
      var load := Loaded(ManifestOf(h.tree), policy);
      && (load.ValidV2? <==> h.last.Some? && IsReadBy(h.last.value.1, policy))
      && (load.ValidV2? ==> load.paths == Candidates(h, policy))
  {
    hide Written, ReadExtensions, Listed, Normalized, SafePath, WellFormed;
    if h.last.Some? {
      ReadBack(h.last.value.0, h.last.value.1, policy);
    }
  }

  lemma CleanedExactly(
    h: History, policy: CleanupPolicy, tree: Tree, current: seq<RelativePath>, faults: Faults, p: RelativePath)
    requires Inv(h) && WellFormed(tree)
    ensures
      var after := Cleaned(tree, Loaded(ManifestOf(h.tree), policy), current, faults);
      var goes := p in Candidates(h, policy) && IsRemovable(tree, p, current, faults);
      && WellFormed(after.tree)
      && (p in after.removed <==> goes)
      && (p in after.tree.files <==> p in tree.files && !goes)
      && (p in after.tree.files ==> after.tree.files[p] == tree.files[p])
  {
    hide Loaded, WellFormed, IsRemovable, Written, Listed, IsReadBy;
    LoadedInHistory(h, policy);
    StaleRemovedExactly(tree, [], current, Candidates(h, policy), faults, p);
  }

  lemma FileWrittenOnly(tree: Tree, p: RelativePath, text: string, mode: WriteMode, faults: Faults, q: RelativePath)
    requires WellFormed(tree) && p != []
    ensures
      var (after, ok) := FileWritten(tree, p, text, mode, faults);
      && WellFormed(after)
      && (q != p ==> (q in after.files <==> q in tree.files) && (q in tree.files ==> after.files[q] == tree.files[q]))
      && (ok ==> p in after.files && after.files[p] == text)
      && (!ok ==> after.files == tree.files)
  {
    hide DirsCreated;
    DirsCreatedWellFormed(tree, Parent(p), faults.uncreatable);
  }

  /** A build cleans up when its root was accepted, all outputs were written, and it has an
      entry directory. */
  predicate CleansUp(tree: Tree, project: Project, faults: Faults) {
    !faults.rootRefused && project.cleanup && Emitted(tree, [], project.outputs, project, faults).ok
  }

  /** The files a build removes: those on disk or written by it that a manifest its policy takes
      for its own lists, unless it tracks them or they refuse to go. */
  lemma RemovedExactly(h: History, project: Project, faults: Faults, p: RelativePath)
    requires Inv(h)
    ensures
      p in Built(h.tree, project, faults).removed <==>
        && CleansUp(h.tree, project, faults)
        && p in Candidates(h, project.policy)
        && (p in h.tree.files || IsFileOutput(project.outputs, p))
        && !IsTrackedOutput(project.outputs, project.policy, p) && p !in faults.unremovable
  {
    hide WellFormed, Emitted, Cleaned, FileWritten, Loaded, Written, Listed, IsReadBy, PolicyNormalized, Candidates;
    hide IsRemovable, IsFileOutput, IsTrackedOutput, GoodTracked, SafePath;
    var emission := Emitted(h.tree, [], project.outputs, project, faults);
    if CleansUp(h.tree, project, faults) {
      EmittedKeeps(h.tree, [], project.outputs, project, faults, p);
      EmittedTracksExactly(h.tree, [], project.outputs, project, faults, p);
      CleanedExactly(h, project.policy, emission.tree, emission.tracked, faults, p);
      RemovableIsStale(emission.tree, p, emission.tracked, faults);
      CandidatesAreSafe(h, project.policy, p);
    }
  }

  lemma ListedAreSafe(paths: seq<RelativePath>, policy: CleanupPolicy, p: RelativePath)
    requires p in Listed(paths, policy)
    ensures SafePath(p)
  {
    hide ParsedPath, LinesOfAll, SortBy, SafePath, TrimmedLines;
    var lines := if p in TrackedPaths(paths) then LinesOfAll(SortBy(TextLeq, Map(Render, paths)))
                 else ExtensionLines(policy)[1..];
    var i :| 0 <= i < |lines| && ParsedPath(lines[i]) == Some(p);
    ParsedPathIsSafe(lines[i]);
  }

  lemma CandidatesAreSafe(h: History, policy: CleanupPolicy, p: RelativePath)
    ensures p in Candidates(h, policy) ==> SafePath(p)
  {
    hide SafePath, ParsedPath;
    if p in Candidates(h, policy) {
      ListedAreSafe(h.last.value.0, h.last.value.1, p);
    }
  }

  /** One build of a history, file by file: what it leaves and what it tracks. */
  lemma BuildExactly(h: History, project: Project, faults: Faults, p: RelativePath)
    requires Inv(h) && FitEvent(Build(project, faults))
    ensures
      var result := Built(h.tree, project, faults);
      && WellFormed(result.tree) && GoodTracked(result.tracked)
      && (p in result.removed && p != MANIFEST_PATH ==> p !in result.tree.files)
      && (p in result.tree.files && p != MANIFEST_PATH && !IsFileOutput(project.outputs, p) ==>
          p in h.tree.files && result.tree.files[p] == h.tree.files[p])
      && (p in h.tree.files && p !in result.removed ==> p in result.tree.files)
      && (result.ok ==> (p in result.tracked <==> IsTrackedOutput(project.outputs, project.policy, p)))
      && (result.ok && p in result.tracked ==> p in result.tree.files)
  {
    hide WellFormed, Emitted, Cleaned, FileWritten, Loaded, Written, Listed, IsReadBy, PolicyNormalized, FitOutputs;
    hide IsRemovable, IsFileOutput, IsTrackedOutput, GoodTracked, SafePath;
    NothingIsGood();
    EmittedTracksGood(h.tree, [], project.outputs, project, faults);
    EmittedKeeps(h.tree, [], project.outputs, project, faults, p);
    TrackedIsFileOutput(project.outputs, project.policy, p);
    var emission := Emitted(h.tree, [], project.outputs, project, faults);
    if !faults.rootRefused && emission.ok {
      EmittedTracksExactly(h.tree, [], project.outputs, project, faults, p);
      if project.cleanup {
        var load := Loaded(ManifestOf(h.tree), project.policy);
        CleanedExactly(h, project.policy, emission.tree, emission.tracked, faults, p);
        var cleaned := Cleaned(emission.tree, load, emission.tracked, faults);
        RemovableIsStale(emission.tree, p, emission.tracked, faults);
        FileWrittenOnly(
          cleaned.tree, MANIFEST_PATH, Written(emission.tracked, project.policy), project.mode, faults, p);
      }
    }
  }

  lemma NothingIsGood()
    ensures GoodTracked([])
  {
  }

  lemma RemovableIsStale(tree: Tree, p: RelativePath, current: seq<RelativePath>, faults: Faults)
    ensures IsRemovable(tree, p, current, faults) <==>
        p !in current && SafePath(p) && p in tree.files && p !in faults.unremovable
  {
  }

  // ---------------------------------------------------------------- the invariant of all histories

  lemma BuildKeepsInv(h: History, project: Project, faults: Faults)
    requires Inv(h) && FitEvent(Build(project, faults))
    ensures Inv(Step(h, Build(project, faults)))
  {
    hide WellFormed, Emitted, Cleaned, FileWritten, Loaded, Written, Listed, IsReadBy, PolicyNormalized;
    hide FitOutputs, IsRemovable;
    hide GoodTracked, IsFileOutput, IsTrackedOutput, SafePath;
    BuildExactly(h, project, faults, MANIFEST_PATH);
    GoodIsNotManifest(Built(h.tree, project, faults).tracked);
    EmittedKeeps(h.tree, [], project.outputs, project, faults, MANIFEST_PATH);
    NoManifestOutput(project);
    var emission := Emitted(h.tree, [], project.outputs, project, faults);
    if !faults.rootRefused && emission.ok && project.cleanup {
      CleanedExactly(h, project.policy, emission.tree, emission.tracked, faults, MANIFEST_PATH);
      var cleaned := Cleaned(emission.tree, Loaded(ManifestOf(h.tree), project.policy), emission.tracked, faults);
      FileWrittenOnly(
        cleaned.tree, MANIFEST_PATH, Written(emission.tracked, project.policy), project.mode, faults, MANIFEST_PATH);
    }
  }

  lemma GoodIsNotManifest(tracked: seq<RelativePath>)
    ensures GoodTracked(tracked) ==> MANIFEST_PATH !in tracked
  {
  }

  lemma NoManifestOutput(project: Project)
    requires FitOutputs(project.outputs)
    ensures !IsFileOutput(project.outputs, MANIFEST_PATH)
  {
    forall i | 0 <= i < |project.outputs|
      ensures FitOutput(project.outputs[i])
    {
    }
  }

  lemma UserKeepsInv(h: History, event: Event)
    requires Inv(h) && FitEvent(event) && !event.Build?
    ensures Inv(Step(h, event))
  {
    hide GoodTracked, FileWritten, Written;
    if event.UserWrites? && event.path != [] {
      FileWrittenOnly(h.tree, event.path, event.text, AlwaysWrite, NO_FAULTS, MANIFEST_PATH);
    }
  }

  lemma {:induction false} RunKeepsInv(h: History, events: seq<Event>)
    requires Inv(h) && FitEvents(events)
    ensures Inv(Run(h, events))
    decreases |events|
  {
    hide Inv, FitEvent, Step;
    if events != [] {
      var before, last := events[..|events| - 1], events[|events| - 1];
      RunKeepsInv(h, before);
      assert FitEvent(last);
      if last.Build? {
        BuildKeepsInv(Run(h, before), last.project, last.faults);
      } else {
        UserKeepsInv(Run(h, before), last);
      }
    }
  }

  // ---------------------------------------------------------------- safety over all histories

  /** The result of the build at one point of a history. */
  function BuildAt(tree: Tree, events: seq<Event>, j: nat): BuildResult
    requires j < |events| && events[j].Build?
  {
    Built(Run(Fresh(tree), events[..j]).tree, events[j].project, events[j].faults)
  }

  /** A build that wrote its manifest. */
  predicate IsComplete(tree: Tree, events: seq<Event>, j: int) {
    0 <= j < |events| && events[j].Build? && events[j].project.cleanup && BuildAt(tree, events, j).ok
  }

  /** The last complete build of a history. */
  predicate IsLatest(tree: Tree, events: seq<Event>, j: int) {
    IsComplete(tree, events, j) && forall k :: j < k < |events| ==> !IsComplete(tree, events, k)
  }

  lemma FreshInv(tree: Tree)
    requires WellFormed(tree) && MANIFEST_PATH !in tree.files
    ensures Inv(Fresh(tree))
  {
  }

  lemma SameBuild(tree: Tree, events: seq<Event>, k: int)
    requires 0 <= k < |events| - 1
    ensures IsComplete(tree, events, k) <==> IsComplete(tree, events[..|events| - 1], k)
    ensures IsComplete(tree, events, k) ==> BuildAt(tree, events, k) == BuildAt(tree, events[..|events| - 1], k)
  {
    hide Built, Run;
    assert events[..k] == events[..|events| - 1][..k];
  }

  /** What a history remembers was tracked by its latest complete build. */
  lemma {:induction false} LastIsLatest(tree: Tree, events: seq<Event>) returns (j: nat)
    requires Run(Fresh(tree), events).last.Some?
    ensures IsLatest(tree, events, j)
    ensures Run(Fresh(tree), events).last == Some((BuildAt(tree, events, j).tracked, events[j].project.policy))
    decreases |events|
  {
    hide Built;
    var before, n := events[..|events| - 1], |events| - 1;
    if IsComplete(tree, events, n) {
      assert events[n].Build?;
      j := n;
    } else {
      j := LastIsLatest(tree, before);
      forall k | 0 <= k < n
        ensures IsComplete(tree, events, k) <==> IsComplete(tree, before, k)
      {
        SameBuild(tree, events, k);
      }
      SameBuild(tree, events, j);
    }
  }

  /** A file strictly below another file's path cannot exist. */
  lemma {:induction false} NothingBelowFile(tree: Tree, p: RelativePath, f: RelativePath)
    requires WellFormed(tree) && f in tree.files && (p in tree.files || p in tree.dirs)
    ensures !(f < p)
    decreases |p|
  {
    if f < p {
      if Parent(p) != f {
        assert f < Parent(p);
      }
      NothingBelowFile(tree, Parent(p), f);
    }
  }

  /** The manifest lists a path that was not tracked, and that can exist beside the manifest. */
  ghost predicate ListsForeign(tracked: seq<RelativePath>, policy: CleanupPolicy) {
    exists r :: r in Listed(tracked, policy) && r !in tracked && !(MANIFEST_PATH < r)
  }

  lemma PlainListsOwn(tracked: seq<RelativePath>, policy: CleanupPolicy)
    requires AllSafe(tracked) && NoRepeats(tracked) && AllLineSafe(tracked)
    requires PolicyNormalized(policy) && AllPlain(policy.extensions)
    ensures !ListsForeign(tracked, policy)
  {
    hide TrackedPaths, SafePath, LineSafe, ReadExtensions, ExtensionPaths, Normalized, Plain;
    TrackedExactly(tracked);
    if policy.extensions != [] {
      PlainReadsItself(policy);
    } else {
      EmptyReadsNothing(policy);
    }
  }

  /** A tracked path that is on disk, some line of whose text reads as this file. */
  ghost predicate NamedByTracked(result: BuildResult, p: RelativePath) {
    exists q :: q in result.tracked && ReadsAs(q, p) && q in result.tree.files
  }

  /** The files a build removes, at every point of every history of a fresh root: this build's
      policy takes the manifest of the latest complete build for its own, and there the file is
      named by a tracked path that was on disk, or by a later line of the extension list. This
      build does not track the file. */
  lemma DeletionsAreNamed(tree: Tree, events: seq<Event>, project: Project, faults: Faults, p: RelativePath)
    returns (j: nat)
    requires WellFormed(tree) && MANIFEST_PATH !in tree.files && FitEvents(events)
    requires p in Built(Run(Fresh(tree), events).tree, project, faults).removed
    ensures IsLatest(tree, events, j) && IsReadBy(events[j].project.policy, project.policy)
    ensures p in Listed(BuildAt(tree, events, j).tracked, events[j].project.policy) && !(MANIFEST_PATH < p)
    ensures NamedByTracked(BuildAt(tree, events, j), p) || p in ExtensionPaths(events[j].project.policy)
    ensures !IsTrackedOutput(project.outputs, project.policy, p)
  {
    hide FitEvent, Built, Run, TrackedPaths, WellFormed, GoodTracked, IsTrackedOutput, ReadsAs, Written;
    hide IsFileOutput, SafePath, CleansUp, IsReadBy, ExtensionPaths;
    FreshInv(tree);
    RunKeepsInv(Fresh(tree), events);
    var now := Run(Fresh(tree), events);
    RemovedExactly(now, project, faults, p);
    j := LastIsLatest(tree, events);
    var tracked := BuildAt(tree, events, j).tracked;
    if p in TrackedPaths(tracked) {
      TrackedPathsExactly(tracked, p);
      var i :| 0 <= i < |tracked| && ReadsAs(tracked[i], p);
      CompleteOnDisk(tree, events, j, tracked[i]);
    }
    RemovedBesideManifest(now, project, faults, p);
  }

  lemma CompleteOnDisk(tree: Tree, events: seq<Event>, j: nat, q: RelativePath)
    requires WellFormed(tree) && MANIFEST_PATH !in tree.files && FitEvents(events)
    requires IsComplete(tree, events, j) && q in BuildAt(tree, events, j).tracked
    ensures q in BuildAt(tree, events, j).tree.files
  {
    hide FitEvent, Built, Run, WellFormed, GoodTracked, IsTrackedOutput, IsFileOutput, SafePath, CleansUp, Candidates;
    FreshInv(tree);
    RunKeepsInv(Fresh(tree), events[..j]);
    assert FitEvent(events[j]);
    BuildExactly(Run(Fresh(tree), events[..j]), events[j].project, events[j].faults, q);
  }

  lemma RemovedBesideManifest(h: History, project: Project, faults: Faults, p: RelativePath)
    requires Inv(h) && p in Built(h.tree, project, faults).removed
    ensures !(MANIFEST_PATH < p)
  {
    hide WellFormed, Emitted, Cleaned, FileWritten, Loaded, Written, Listed, IsReadBy, PolicyNormalized;
    hide FitOutputs, IsRemovable;
    hide GoodTracked;
    var emission := Emitted(h.tree, [], project.outputs, project, faults);
    EmittedKeeps(h.tree, [], project.outputs, project, faults, MANIFEST_PATH);
    CleanedExactly(h, project.policy, emission.tree, emission.tracked, faults, p);
    RemovableIsStale(emission.tree, p, emission.tracked, faults);
    NothingBelowFile(emission.tree, p, MANIFEST_PATH);
  }

  /** So when the manifests of complete builds list nothing foreign, every deleted file was
      tracked and on disk after the latest complete build, whose manifest this policy reads. */
  lemma DeletionsAreOwn(tree: Tree, events: seq<Event>, project: Project, faults: Faults, p: RelativePath)
    returns (j: nat)
    requires WellFormed(tree) && MANIFEST_PATH !in tree.files && FitEvents(events)
    requires forall k :: IsComplete(tree, events, k) ==>
        !ListsForeign(BuildAt(tree, events, k).tracked, events[k].project.policy)
    requires p in Built(Run(Fresh(tree), events).tree, project, faults).removed
    ensures IsLatest(tree, events, j) && IsReadBy(events[j].project.policy, project.policy)
    ensures p in BuildAt(tree, events, j).tracked && p in BuildAt(tree, events, j).tree.files
    ensures !IsTrackedOutput(project.outputs, project.policy, p)
  {
    hide FitEvent, Built, Run, Listed, WellFormed, GoodTracked, IsTrackedOutput, NamedByTracked, IsReadBy;
    hide ExtensionPaths;
    j := DeletionsAreNamed(tree, events, project, faults, p);
    assert !ListsForeign(BuildAt(tree, events, j).tracked, events[j].project.policy);
    CompleteOnDisk(tree, events, j, p);
  }

  /** Everything else a build leaves as it was. */
  lemma OtherFilesStay(h: History, project: Project, faults: Faults, p: RelativePath)
    requires Inv(h) && FitEvent(Build(project, faults))
    requires !IsFileOutput(project.outputs, p) && p != MANIFEST_PATH && p !in Candidates(h, project.policy)
    ensures
      var after := Built(h.tree, project, faults).tree;
      (p in after.files <==> p in h.tree.files) && (p in after.files ==> after.files[p] == h.tree.files[p])
  {
    hide FitEvent, Built, Listed, IsReadBy, WellFormed, GoodTracked, PolicyNormalized, IsFileOutput, Written;
    hide Candidates, CleansUp;
    BuildExactly(h, project, faults, p);
    RemovedExactly(h, project, faults, p);
  }

  /** Limited safe mode removes nothing; nor does a failed build, one without cleanup, or one
      whose policy does not take the manifest it finds for its own. */
  lemma NothingRemoved(h: History, project: Project, faults: Faults)
    requires Inv(h)
    requires
      || Loaded(ManifestOf(h.tree), project.policy).LimitedSafeMode?
      || !CleansUp(h.tree, project, faults)
      || h.last.None? || !IsReadBy(h.last.value.1, project.policy)
    ensures Built(h.tree, project, faults).removed == []
  {
    hide Emitted, Loaded, Listed, IsReadBy, Written, WellFormed, GoodTracked, FileWritten;
    LoadedInHistory(h, project.policy);
  }
}
