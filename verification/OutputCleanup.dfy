/** Writing the outputs of a build and cleaning up after earlier ones. */
module OutputCleanup {
  import opened Wrappers
  import opened TextLines
  import opened BuildManifest
  import opened OutputTree

  const MANIFEST_PATH: RelativePath := [".beanstalk_manifest"]

  // ---------------------------------------------------------------- one build

  datatype FileKind =
    | NotBuilt
    | Directory
    | Js(text: string)
    | HtmlText(text: string)
    | Wasm(text: string)
    | Bytes(text: string)

  datatype OutputFile = OutputFile(path: RelativePath, kind: FileKind)

  datatype WriteMode = AlwaysWrite | SkipUnchanged

  /** What a build is asked to write. Cleanup runs only for a project with an entry directory. */
  datatype Project = Project(outputs: seq<OutputFile>, policy: CleanupPolicy, cleanup: bool, mode: WriteMode)

  /** What the file system refuses during one build. */
  datatype Faults = Faults(
    rootRefused: bool,
    uncreatable: set<RelativePath>,
    unwritable: set<RelativePath>,
    unremovable: set<RelativePath>,
    stuckDirs: set<RelativePath>)

  /** The tree after a build, whether it reported success, and the stale files it removed. */
  datatype BuildResult = BuildResult(tree: Tree, ok: bool, tracked: seq<RelativePath>, removed: seq<RelativePath>)

  // ---------------------------------------------------------------- emission

  /** `Path::extension`: after the last dot, unless that dot starts the name. */
  function Extension(name: string): Option<string> {
    if |name| <= 1 then None
    else if name[|name| - 1] == '.' then Some([])
    else
      match Extension(name[..|name| - 1])
      case Some(e) => Some(e + [name[|name| - 1]])
      case None => None
  }

  predicate Manages(policy: CleanupPolicy, p: RelativePath) {
    p != [] && Extension(p[|p| - 1]).Some? && ['.'] + AsciiLower(Extension(p[|p| - 1]).value) in policy.extensions
  }

  predicate IsTracked(policy: CleanupPolicy, output: OutputFile) {
    !output.kind.NotBuilt? && !output.kind.Directory? && (Manages(policy, output.path) || output.kind.Bytes?)
  }

  /** Writes one file after creating its directory. Directories made stay when a later step fails. */
  function FileWritten(tree: Tree, p: RelativePath, text: string, mode: WriteMode, faults: Faults): (Tree, bool)
    requires p != []
  {
    var (ready, made) := DirsCreated(tree, Parent(p), faults.uncreatable);
    if !made then (ready, false)
    else if mode == SkipUnchanged && p in ready.files && ready.files[p] == text then (ready, true)
    else if p in ready.dirs || p in faults.unwritable then (ready, false)
    else (ready.(files := ready.files[p := text]), true)
  }

  function OutputWritten(tree: Tree, output: OutputFile, mode: WriteMode, faults: Faults): (Tree, bool)
    requires output.path != [] && !output.kind.NotBuilt?
  {
    if output.kind.Directory? then DirsCreated(tree, output.path, faults.uncreatable)
    else FileWritten(tree, output.path, output.kind.text, mode, faults)
  }

  function Tracked(tracked: seq<RelativePath>, policy: CleanupPolicy, output: OutputFile): seq<RelativePath> {
    if IsTracked(policy, output) && output.path !in tracked then tracked + [output.path] else tracked
  }

  datatype Emission = Emission(tree: Tree, ok: bool, tracked: seq<RelativePath>)

  /** Outputs in order; the first failure ends the build. */
  function Emitted(tree: Tree, tracked: seq<RelativePath>, outputs: seq<OutputFile>, project: Project, faults: Faults)
    : Emission
    decreases |outputs|
  {
    if outputs == [] then Emission(tree, true, tracked)
    else if outputs[0].kind.NotBuilt? then Emitted(tree, tracked, outputs[1..], project, faults)
    else if !SafePath(outputs[0].path) then Emission(tree, false, tracked)
    else
      var now := Tracked(tracked, project.policy, outputs[0]);
      var (written, ok) := OutputWritten(tree, outputs[0], project.mode, faults);
      if !ok then Emission(written, false, now)
      else Emitted(written, now, outputs[1..], project, faults)
  }

  // ---------------------------------------------------------------- stale removal

  datatype Removal = Removal(tree: Tree, removed: seq<RelativePath>)

  /** A path of the previous manifest is stale when this build does not track it. */
  predicate IsRemovable(tree: Tree, p: RelativePath, current: seq<RelativePath>, faults: Faults) {
    p !in current && SafePath(p) && p in tree.files && p !in faults.unremovable
  }

  function StaleRemoved(
    tree: Tree, removed: seq<RelativePath>, current: seq<RelativePath>, previous: seq<RelativePath>, faults: Faults)
    : Removal
    decreases |previous|
  {
    if previous == [] then Removal(tree, removed)
    else if IsRemovable(tree, previous[0], current, faults) then
      var after := FileRemoved(tree, previous[0], faults.stuckDirs);
      StaleRemoved(after, removed + [previous[0]], current, previous[1..], faults)
    else StaleRemoved(tree, removed, current, previous[1..], faults)
  }

  function ManifestOf(tree: Tree): ManifestFile {
    if MANIFEST_PATH in tree.files then Content(tree.files[MANIFEST_PATH])
    else if MANIFEST_PATH in tree.dirs then Unreadable
    else NotFound
  }

  /** Removal of stale files, as the manifest read before the build allows. */
  function Cleaned(tree: Tree, load: LoadResult, current: seq<RelativePath>, faults: Faults): Removal {
    match load
    case ValidV2(paths, _) => StaleRemoved(tree, [], current, paths, faults)
    case LimitedSafeMode(_) => Removal(tree, [])
  }

  function ManifestWritten(tree: Tree, tracked: seq<RelativePath>, project: Project, faults: Faults): (Tree, bool) {
    FileWritten(tree, MANIFEST_PATH, Written(tracked, project.policy), project.mode, faults)
  }

  function Finalized(tree: Tree, load: LoadResult, tracked: seq<RelativePath>, project: Project, faults: Faults)
    : BuildResult
  {
    var cleaned := Cleaned(tree, load, tracked, faults);
    var (final, ok) := ManifestWritten(cleaned.tree, tracked, project, faults);
    BuildResult(final, ok, tracked, cleaned.removed)
  }

  function Built(tree: Tree, project: Project, faults: Faults): BuildResult {
    if faults.rootRefused then BuildResult(tree, false, [], [])
    else
      var emission := Emitted(tree, [], project.outputs, project, faults);
      if !emission.ok || !project.cleanup then BuildResult(emission.tree, emission.ok, emission.tracked, [])
      else Finalized(emission.tree, Loaded(ManifestOf(tree), project.policy), emission.tracked, project, faults)
  }

  // ---------------------------------------------------------------- the build system

  /** The output root on disk. */
  class OutputRoot {
    var tree: Tree

    constructor (tree: Tree)
      ensures this.tree == tree
    {
      this.tree := tree;
    }

    method CreateDirAll(dir: RelativePath, faults: Faults) returns (ok: bool)
      modifies this
      ensures (tree, ok) == DirsCreated(old(tree), dir, faults.uncreatable)
    {
      var (created, made) := DirsCreated(tree, dir, faults.uncreatable);
      tree, ok := created, made;
    }

    method WriteOutput(p: RelativePath, text: string, mode: WriteMode, faults: Faults) returns (ok: bool)
      requires p != []
      modifies this
      ensures (tree, ok) == FileWritten(old(tree), p, text, mode, faults)
    {
      ok := CreateDirAll(Parent(p), faults);
      if !ok {
        return;
      }
      if mode == SkipUnchanged && p in tree.files && tree.files[p] == text {
        return true;
      }
      if p in tree.dirs || p in faults.unwritable {
        return false;
      }
      tree := tree.(files := tree.files[p := text]);
      return true;
    }

    method EmitProjectOutputFiles(project: Project, faults: Faults) returns (ok: bool, tracked: seq<RelativePath>)
      modifies this
      ensures Emission(tree, ok, tracked) == Emitted(old(tree), [], project.outputs, project, faults)
    {
      hide FileWritten, DirsCreated, SafePath, IsTracked;
      tracked := [];
      var outputs := project.outputs;
      assert outputs[0..] == outputs;
      for i := 0 to |outputs|
        invariant Emitted(old(tree), [], outputs, project, faults)
               == Emitted(tree, tracked, outputs[i..], project, faults)
      {
        assert outputs[i..][0] == outputs[i] && outputs[i..][1..] == outputs[i + 1..];
        var output := outputs[i];
        if output.kind.NotBuilt? {
          continue;
        }
        if !SafePath(output.path) {
          return false, tracked;
        }
        assert output.path != [] by {
          SafeIsNotEmpty(output.path);
        }
        tracked := Tracked(tracked, project.policy, output);
        var written;
        if output.kind.Directory? {
          written := CreateDirAll(output.path, faults);
        } else {
          written := WriteOutput(output.path, output.kind.text, project.mode, faults);
        }
        if !written {
          return false, tracked;
        }
      }
      return true, tracked;
    }

    /** Walks up from the directory of a removed file, removing directories while they are empty. */
    method RemoveEmptyParentDirs(removedFile: RelativePath, faults: Faults)
      requires removedFile != []
      modifies this
      ensures tree == EmptyDirsRemoved(old(tree), Parent(removedFile), faults.stuckDirs)
    {
      var current := Parent(removedFile);
      while current != []
        invariant EmptyDirsRemoved(old(tree), Parent(removedFile), faults.stuckDirs)
               == EmptyDirsRemoved(tree, current, faults.stuckDirs)
        decreases |current|
      {
        if current in faults.stuckDirs || !IsEmptyDir(tree, current) {
          break;
        }
        tree := tree.(dirs := tree.dirs - {current});
        current := Parent(current);
      }
    }

    method RemoveManifestTrackedStaleArtifacts(
      current: seq<RelativePath>, previous: seq<RelativePath>, faults: Faults)
      returns (removed: seq<RelativePath>)
      modifies this
      ensures Removal(tree, removed) == StaleRemoved(old(tree), [], current, previous, faults)
    {
      hide EmptyDirsRemoved;
      removed := [];
      assert previous[0..] == previous;
      for i := 0 to |previous|
        invariant StaleRemoved(old(tree), [], current, previous, faults)
               == StaleRemoved(tree, removed, current, previous[i..], faults)
      {
        assert previous[i..][0] == previous[i] && previous[i..][1..] == previous[i + 1..];
        var stale := previous[i];
        if stale in current {
          continue;
        }
        if !SafePath(stale) {
          continue;
        }
        if stale in tree.files {
          if stale in faults.unremovable {
            continue;
          }
          tree := tree.(files := tree.files - {stale});
          RemoveEmptyParentDirs(stale, faults);
          removed := removed + [stale];
        }
      }
    }

    /** `finalize_output_cleanup` of a project with cleanup. */
    method FinalizeOutputCleanup(load: LoadResult, tracked: seq<RelativePath>, project: Project, faults: Faults)
      returns (ok: bool, removed: seq<RelativePath>)
      modifies this
      ensures BuildResult(tree, ok, tracked, removed) == Finalized(old(tree), load, tracked, project, faults)
    {
      hide StaleRemoved, FileWritten, Written;
      removed := [];
      if load.ValidV2? {
        removed := RemoveManifestTrackedStaleArtifacts(tracked, load.paths, faults);
      }
      ok := WriteOutput(MANIFEST_PATH, Written(tracked, project.policy), project.mode, faults);
    }

    /** `write_project_outputs_inner`. */
    method WriteProjectOutputs(project: Project, faults: Faults)
      returns (ok: bool, tracked: seq<RelativePath>, removed: seq<RelativePath>)
      modifies this
      ensures BuildResult(tree, ok, tracked, removed) == Built(old(tree), project, faults)
    {
      hide Emitted, Finalized, Loaded;
      tracked, removed := [], [];
      if faults.rootRefused {
        return false, tracked, removed;
      }
      var load := Loaded(ManifestOf(tree), project.policy);
      ok, tracked := EmitProjectOutputFiles(project, faults);
      if !ok || !project.cleanup {
        return ok, tracked, removed;
      }
      ok, removed := FinalizeOutputCleanup(load, tracked, project, faults);
    }
  }

  lemma SafeIsNotEmpty(p: RelativePath)
    requires SafePath(p)
    ensures p != []
  {
  }
}
