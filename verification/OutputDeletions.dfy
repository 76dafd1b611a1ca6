/** Exactly what a build deletes: its own stale files, its own fresh ones, and foreign files. */
module OutputDeletions {
  import opened Wrappers
  import opened Sorting
  import opened TextLines
  import opened BuildManifest
  import opened ManifestRoundTrip
  import opened OutputTree
  import opened OutputCleanup
  import opened OutputHistory

  // ---------------------------------------------------------------- exactness of clean builds

  /** A complete build under the policy of the last one, with nothing refusing to be removed,
      plain extensions, and one-line names before: of the paths tracked then and now, exactly those tracked now
      are on disk. */
  lemma CurrentSetOnDisk(h: History, project: Project, faults: Faults, p: RelativePath)
    requires Inv(h) && FitEvent(Build(project, faults))
    requires h.last.Some? && h.last.value.1 == project.policy
    requires project.policy.extensions != [] && AllPlain(project.policy.extensions) && AllLineSafe(h.last.value.0)
    requires Built(h.tree, project, faults).ok && project.cleanup && faults.unremovable == {}
    requires p in h.last.value.0 || p in Built(h.tree, project, faults).tracked
    ensures p in Built(h.tree, project, faults).tree.files <==> p in Built(h.tree, project, faults).tracked
  {
    hide WellFormed, Emitted, Finalized, Loaded, Written, Listed, PolicyNormalized, FitOutputs, Candidates, Plain;
    hide IsFileOutput, IsTrackedOutput, LineSafe, SafePath;
    BuildExactly(h, project, faults, p);
    RemovedExactly(h, project, faults, p);
    PlainCandidates(h, project.policy, p);
    if p in h.last.value.0 {
      var i :| 0 <= i < |h.last.value.0| && h.last.value.0[i] == p;
      assert SafePath(p);
    }
    TrackedIsFileOutput(project.outputs, project.policy, p);
    if p !in h.tree.files && IsFileOutput(project.outputs, p) {
      EmittedKeeps(h.tree, [], project.outputs, project, faults, p);
    }
  }

  /** Every file output is one the policy tracks, under a name that is one trimmed line. */
  predicate AllTracked(project: Project) {
    forall i :: 0 <= i < |project.outputs| && IsFile(project.outputs[i].kind) ==>
      IsTracked(project.policy, project.outputs[i]) && LineSafe(project.outputs[i].path)
  }

  /** Of all paths ever tracked, exactly those of the last complete build are on disk. */
  ghost predicate OnDiskExactly(h: History) {
    && h.last.Some? && AllLineSafe(h.last.value.0)
    && forall p :: p in h.everTracked ==> (p in h.tree.files <==> p in h.last.value.0)
  }

  lemma TrackedIfFileOutput(project: Project, p: RelativePath)
    requires AllTracked(project)
    ensures IsFileOutput(project.outputs, p) <==> IsTrackedOutput(project.outputs, project.policy, p)
    ensures IsFileOutput(project.outputs, p) ==> LineSafe(p)
  {
    hide IsTracked, LineSafe;
    TrackedIsFileOutput(project.outputs, project.policy, p);
    if IsFileOutput(project.outputs, p) {
      var i :| 0 <= i < |project.outputs| && project.outputs[i].path == p && IsFile(project.outputs[i].kind);
      assert IsTracked(project.policy, project.outputs[i]);
    }
  }

  lemma TracksOneLines(h: History, project: Project, faults: Faults)
    requires Inv(h) && FitEvent(Build(project, faults)) && AllTracked(project)
    requires Built(h.tree, project, faults).ok
    ensures AllLineSafe(Built(h.tree, project, faults).tracked)
  {
    hide Built, FitEvent, AllTracked, WellFormed, GoodTracked, CleansUp, Candidates, IsFileOutput, IsTrackedOutput;
    hide LineSafe, SafePath;
    var tracked := Built(h.tree, project, faults).tracked;
    forall i | 0 <= i < |tracked|
      ensures LineSafe(tracked[i])
    {
      BuildExactly(h, project, faults, tracked[i]);
      TrackedIfFileOutput(project, tracked[i]);
    }
  }

  /** A build that went through without refusals, cleaning up under this policy, which manages
      some extension and only plain ones. */
  predicate CleanBuild(h: History, event: Event, policy: CleanupPolicy) {
    && event.Build? && FitEvent(event)
    && event.project.policy == policy && policy.extensions != [] && AllPlain(policy.extensions)
    && event.project.cleanup && AllTracked(event.project)
    && Built(h.tree, event.project, event.faults).ok && event.faults.unremovable == {}
  }

  /** Once the tracked files on disk are exactly the current set, clean builds keep it so:
      they never leave a stale file and never lose a current one. */
  lemma CleanBuildKeepsExact(h: History, event: Event, policy: CleanupPolicy)
    requires Inv(h) && OnDiskExactly(h) && h.last.value.1 == policy && CleanBuild(h, event, policy)
    ensures OnDiskExactly(Step(h, event)) && Step(h, event).last.value.1 == policy
  {
    hide WellFormed, Built, FitEvent, IsTracked, Inv, IsFileOutput, IsTrackedOutput, LineSafe, SafePath, Candidates;
    hide CleansUp, AllTracked;
    var result := Built(h.tree, event.project, event.faults);
    TracksOneLines(h, event.project, event.faults);
    forall p | p in Step(h, event).everTracked
      ensures p in result.tree.files <==> p in result.tracked
    {
      BuildExactly(h, event.project, event.faults, p);
      RemovedExactly(h, event.project, event.faults, p);
      if p in h.last.value.0 || p in result.tracked {
        CurrentSetOnDisk(h, event.project, event.faults, p);
      } else {
        TrackedIfFileOutput(event.project, p);
        assert p in h.everTracked && p !in h.tree.files;
        NeverTheManifest(h);
      }
    }
  }

  lemma NeverTheManifest(h: History)
    requires Inv(h)
    ensures MANIFEST_PATH !in h.everTracked
  {
  }

  lemma FirstCleanBuild(h: History, event: Event, policy: CleanupPolicy)
    requires Inv(h) && h.everTracked == {} && CleanBuild(h, event, policy)
    ensures OnDiskExactly(Step(h, event)) && Step(h, event).last.value.1 == policy
  {
    hide WellFormed, Built, FitEvent, IsTracked, Inv, IsFileOutput, IsTrackedOutput, LineSafe, SafePath, Candidates;
    hide CleansUp, AllTracked;
    var result := Built(h.tree, event.project, event.faults);
    TracksOneLines(h, event.project, event.faults);
    forall p | p in Step(h, event).everTracked
      ensures p in result.tree.files
    {
      BuildExactly(h, event.project, event.faults, p);
    }
  }

  /** After any number of clean builds in a fresh root, the tracked files on disk are exactly
      those of the latest build. */
  lemma {:induction false} CleanBuildsStayExact(tree: Tree, events: seq<Event>, policy: CleanupPolicy)
    requires WellFormed(tree) && MANIFEST_PATH !in tree.files && events != []
    requires forall i :: 0 <= i < |events| ==> CleanBuild(Run(Fresh(tree), events[..i]), events[i], policy)
    ensures FitEvents(events) && OnDiskExactly(Run(Fresh(tree), events))
    ensures Run(Fresh(tree), events).last.value.1 == policy
    decreases |events|
  {
    hide Built, FitEvent, IsTracked, Inv, Step, OnDiskExactly, AllTracked, WellFormed;
    var h := Fresh(tree);
    FreshInv(tree);
    var before, last := events[..|events| - 1], events[|events| - 1];
    forall i | 0 <= i < |events|
      ensures FitEvent(events[i])
    {
      assert CleanBuild(Run(h, events[..i]), events[i], policy);
    }
    assert CleanBuild(Run(h, before), last, policy);
    if before == [] {
      FirstCleanBuild(h, last, policy);
    } else {
      forall i | 0 <= i < |before|
        ensures CleanBuild(Run(h, before[..i]), before[i], policy)
      {
        assert before[..i] == events[..i];
      }
      CleanBuildsStayExact(tree, before, policy);
      RunKeepsInv(h, before);
      CleanBuildKeepsExact(Run(h, before), last, policy);
    }
  }

  // ---------------------------------------------------------------- a build's own output

  /** A build that wrote all its outputs removes one of them again if and only if the manifest
      it found is one its policy takes for its own and lists that path, none of its outputs is
      tracked there, and nothing holds the file. */
  lemma OwnOutputRemovedExactly(h: History, project: Project, faults: Faults, p: RelativePath)
    requires Inv(h) && IsFileOutput(project.outputs, p) && CleansUp(h.tree, project, faults)
    ensures
      p in Built(h.tree, project, faults).removed <==>
        && p in Candidates(h, project.policy)
        && !(exists i :: 0 <= i < |project.outputs| && project.outputs[i].path == p
                         && IsTracked(project.policy, project.outputs[i]))
        && p !in faults.unremovable
  {
    hide WellFormed, Emitted, Finalized, Listed, IsReadBy, FitOutputs, IsFileOutput, SafePath, GoodTracked;
    hide Candidates, IsTracked;
    RemovedExactly(h, project, faults, p);
  }

  const PAGES := CleanupPolicy(Generic, [".html"])

  lemma PagesAreNormalized()
    ensures Normalized(".html") && Plain(".html")
  {
    hide Trim, Trimmed, AsciiLower;
    PagesAreTrimmed();
    LowerStays(".html");
  }

  lemma PagesAreTrimmed()
    ensures Trim(".html") == ".html"
  {
    hide TrimStart, TrimEnd;
    assert Trimmed(".html");
  }

  lemma LowerStays(s: string)
    requires forall c :: c in s ==> !('A' <= c <= 'Z')
    ensures AsciiLower(s) == s
  {
    forall i | 0 <= i < |s|
      ensures AsciiLowerChar(s[i]) == s[i]
    {
      assert s[i] in s;
    }
  }

  function Builds(policy: CleanupPolicy, outputs: seq<OutputFile>): Project {
    Project(outputs, policy, true, AlwaysWrite)
  }

  /** A build of at most one file directly in the root, when nothing is in the way. */
  lemma SmallBuild(tree: Tree, policy: CleanupPolicy, outputs: seq<OutputFile>)
    requires WellFormed(tree) && MANIFEST_PATH !in tree.dirs && |outputs| <= 1
    requires outputs != [] ==>
        && |outputs[0].path| == 1 && SafeComponent(outputs[0].path[0]) && IsFile(outputs[0].kind)
        && outputs[0].path !in tree.dirs
    ensures
      var project := Builds(policy, outputs);
      var result := Built(tree, project, NO_FAULTS);
      && CleansUp(tree, project, NO_FAULTS) && result.ok && result.tree.dirs <= tree.dirs
      && result.tracked == if outputs != [] && IsTracked(policy, outputs[0]) then [outputs[0].path] else []
  {
    hide IsTracked, WellFormed, Loaded, Written, StaleRemoved;
    var project := Builds(policy, outputs);
    var written, tracked := tree, [];
    if outputs != [] {
      var output := outputs[0];
      assert outputs[1..] == [] && SafePath(output.path) && Parent(output.path) == [];
      written := tree.(files := tree.files[output.path := output.kind.text]);
      assert OutputWritten(tree, output, AlwaysWrite, NO_FAULTS) == (written, true);
      tracked := Tracked([], policy, output);
      assert Emitted(written, tracked, [], project, NO_FAULTS) == Emission(written, true, tracked);
      OutputWrittenOnly(tree, output, AlwaysWrite, NO_FAULTS);
    }
    assert Emitted(tree, [], outputs, project, NO_FAULTS) == Emission(written, true, tracked);
    assert Parent(MANIFEST_PATH) == [];
    var load := Loaded(ManifestOf(tree), policy);
    if load.ValidV2? {
      StaleRemovedExactly(written, [], tracked, load.paths, NO_FAULTS, MANIFEST_PATH);
    }
  }

  const EMPTY_ROOT := Tree(map[], {[]})

  lemma EmptyRootIsWellFormed()
    ensures WellFormed(EMPTY_ROOT)
  {
  }

  lemma InvIsWellFormed(h: History)
    ensures Inv(h) ==> WellFormed(h.tree)
  {
  }

  /** The history of a fresh root with one such build. */
  lemma AfterSmallBuild(policy: CleanupPolicy, outputs: seq<OutputFile>)
    requires PolicyNormalized(policy) && |outputs| <= 1
    requires outputs != [] ==>
        && |outputs[0].path| == 1 && SafeComponent(outputs[0].path[0]) && IsFile(outputs[0].kind)
        && outputs[0].path != MANIFEST_PATH
    ensures
      var events := [Build(Builds(policy, outputs), NO_FAULTS)];
      var now := Run(Fresh(EMPTY_ROOT), events);
      var tracked := if outputs != [] && IsTracked(policy, outputs[0]) then [outputs[0].path] else [];
      && FitEvents(events) && Inv(now) && WellFormed(now.tree) && now.tree.dirs <= {[]}
      && now.last == Some((tracked, policy)) && now.everTracked == (set p | p in tracked)
  {
    hide IsTracked, WellFormed, Built, Inv, PolicyNormalized;
    var h, event := Fresh(EMPTY_ROOT), Build(Builds(policy, outputs), NO_FAULTS);
    var events := [event];
    EmptyRootIsWellFormed();
    FreshInv(EMPTY_ROOT);
    SmallBuild(EMPTY_ROOT, policy, outputs);
    assert events[..0] == [] && Run(h, events) == Step(h, event);
    RunKeepsInv(h, events);
    InvIsWellFormed(Run(h, events));
  }

  /** The history goes on with a file of the user's own, and then a build without outputs. */
  lemma AfterUserFile(policy: CleanupPolicy, outputs: seq<OutputFile>, mine: string, next: CleanupPolicy)
    requires PolicyNormalized(policy) && |outputs| <= 1 && [mine] != MANIFEST_PATH
    requires outputs != [] ==>
        && |outputs[0].path| == 1 && SafeComponent(outputs[0].path[0]) && IsFile(outputs[0].kind)
        && outputs[0].path != MANIFEST_PATH && outputs[0].path != [mine]
    requires
      var tracked := if outputs != [] && IsTracked(policy, outputs[0]) then [outputs[0].path] else [];
      IsReadBy(policy, next) && [mine] in Listed(tracked, policy)
    ensures
      var events := [Build(Builds(policy, outputs), NO_FAULTS), UserWrites([mine], "mine")];
      var now := Run(Fresh(EMPTY_ROOT), events);
      && FitEvents(events) && [mine] in now.tree.files && [mine] !in now.everTracked
      && [mine] in Built(now.tree, Builds(next, []), NO_FAULTS).removed
  {
    hide WellFormed, Built, Inv, IsTracked, Listed, IsReadBy, PolicyNormalized, CleansUp, IsTrackedOutput;
    var built := [Build(Builds(policy, outputs), NO_FAULTS)];
    var events := built + [UserWrites([mine], "mine")];
    assert events[..1] == built;
    AfterSmallBuild(policy, outputs);
    var before, now := Run(Fresh(EMPTY_ROOT), built), Run(Fresh(EMPTY_ROOT), events);
    assert Parent([mine]) == [];
    assert now.tree == before.tree.(files := before.tree.files[[mine] := "mine"]);
    assert FitEvents(events);
    EmptyRootIsWellFormed();
    FreshInv(EMPTY_ROOT);
    RunKeepsInv(Fresh(EMPTY_ROOT), events);
    var empty := Builds(next, []);
    EmptyBuildCleansUp(now.tree, empty, [mine]);
    RemovedExactly(now, empty, NO_FAULTS, [mine]);
  }

  /** It does happen: bytes are always tracked and a script under this policy is not, so a
      build that replaces the one by the other at one path deletes the script it wrote. */
  lemma OwnOutputRemoved()
    ensures
      var bytes, script := OutputFile(["x.txt"], Bytes("old")), OutputFile(["x.txt"], Js("new"));
      var now := Run(Fresh(EMPTY_ROOT), [Build(Builds(PAGES, [bytes]), NO_FAULTS)]);
      var result := Built(now.tree, Builds(PAGES, [script]), NO_FAULTS);
      result.ok && ["x.txt"] in result.removed && ["x.txt"] !in result.tree.files
  {
    hide WellFormed, Built, Inv, Manages, Candidates, Emitted, Normalized, Plain, CleansUp;
    var bytes, script := OutputFile(["x.txt"], Bytes("old")), OutputFile(["x.txt"], Js("new"));
    var now := Run(Fresh(EMPTY_ROOT), [Build(Builds(PAGES, [bytes]), NO_FAULTS)]);
    assert SafeComponent("x.txt");
    PagesAreNormalized();
    AfterSmallBuild(PAGES, [bytes]);
    TextIsNotManaged();
    var project := Builds(PAGES, [script]);
    SmallBuild(now.tree, PAGES, [script]);
    assert IsFileOutput(project.outputs, ["x.txt"]) by {
      assert project.outputs[0].path == ["x.txt"];
    }
    PlainCandidates(now, PAGES, ["x.txt"]);
    OwnOutputRemovedExactly(now, project, NO_FAULTS, ["x.txt"]);
    BuildExactly(now, project, NO_FAULTS, ["x.txt"]);
  }

  lemma TextIsNotManaged()
    ensures !Manages(PAGES, ["x.txt"])
  {
    assert "x.txt" == "x" + ['.'] + "txt";
    DottedHasExtension("x", "txt");
    LowerStays("txt");
  }

  // ---------------------------------------------------------------- foreign files

  /** At any point of a history, some next build under a policy deletes a file that is on disk if
      and only if this policy takes the manifest for its own, and a line of a tracked path or a
      later line of the extension list reads as that file. */
  lemma DeletableExactly(h: History, policy: CleanupPolicy, p: RelativePath)
    requires Inv(h) && p in h.tree.files
    ensures (exists project, faults :: Deletes(h.tree, project, faults, policy, p))
       <==> && h.last.Some? && IsReadBy(h.last.value.1, policy)
            && (p in ExtensionPaths(h.last.value.1)
                || exists i :: 0 <= i < |h.last.value.0| && ReadsAs(h.last.value.0[i], p))
  {
    hide Built, TrackedPaths, WellFormed, GoodTracked, ReadsAs, Written, IsFileOutput, SafePath, CleansUp;
    hide IsTrackedOutput, IsReadBy, ExtensionPaths;
    if h.last.Some? {
      TrackedPathsExactly(h.last.value.0, p);
    }
    if project, faults :| Deletes(h.tree, project, faults, policy, p) {
      RemovedExactly(h, project, faults, p);
    }
    if p in Candidates(h, policy) {
      var empty := Builds(policy, []);
      EmptyBuildCleansUp(h.tree, empty, p);
      RemovedExactly(h, empty, NO_FAULTS, p);
      assert Deletes(h.tree, empty, NO_FAULTS, policy, p);
    }
  }

  predicate Deletes(tree: Tree, project: Project, faults: Faults, policy: CleanupPolicy, p: RelativePath) {
    project.policy == policy && p in tree.files && p in Built(tree, project, faults).removed
  }

  lemma EmptyBuildCleansUp(tree: Tree, project: Project, p: RelativePath)
    requires project.outputs == [] && project.cleanup
    ensures CleansUp(tree, project, NO_FAULTS) && !IsTrackedOutput(project.outputs, project.policy, p)
  {
  }

  /** A tree with the manifest of these paths under one policy, and a build under another policy
      that deletes another file from it. */
  ghost predicate DeletesForeign(
    tracked: seq<RelativePath>, written: CleanupPolicy, active: CleanupPolicy, tree: Tree, project: Project,
    faults: Faults, p: RelativePath)
  {
    && WellFormed(tree) && MANIFEST_PATH in tree.files && tree.files[MANIFEST_PATH] == Written(tracked, written)
    && p !in tracked && Deletes(tree, project, faults, active, p)
  }

  /** A build under a policy that finds the manifest of some paths, written under any policy, can
      delete a file outside them if and only if the build's policy takes that manifest for its
      own and it lists a path that is not one of them and that can be a file beside it. */
  lemma ForeignDeletedExactly(tracked: seq<RelativePath>, written: CleanupPolicy, active: CleanupPolicy)
    requires GoodTracked(tracked) && PolicyNormalized(written)
    ensures (exists tree, project, faults, p :: DeletesForeign(tracked, written, active, tree, project, faults, p))
       <==> IsReadBy(written, active) && ListsForeign(tracked, written)
  {
    hide Built, Listed, IsReadBy, WellFormed, GoodTracked, PolicyNormalized, Written, IsFileOutput, CleansUp;
    hide IsTrackedOutput;
    if tree, project, faults, p :| DeletesForeign(tracked, written, active, tree, project, faults, p) {
      var h := FoundIn(tree, tracked, written);
      FoundKeepsInv(tree, tracked, written);
      RemovedExactly(h, project, faults, p);
      RemovedBesideManifest(h, project, faults, p);
    }
    if IsReadBy(written, active) && ListsForeign(tracked, written) {
      var r :| r in Listed(tracked, written) && r !in tracked && !(MANIFEST_PATH < r);
      ListedAreSafe(tracked, written, r);
      SafeIsNotEmpty(r);
      var tree := Beside(r, Written(tracked, written));
      var h := FoundIn(tree, tracked, written);
      BesideIsWellFormed(r, Written(tracked, written));
      FoundKeepsInv(tree, tracked, written);
      var empty := Builds(active, []);
      EmptyBuildCleansUp(tree, empty, r);
      RemovedExactly(h, empty, NO_FAULTS, r);
      assert DeletesForeign(tracked, written, active, tree, empty, NO_FAULTS, r);
    }
  }

  function FoundIn(tree: Tree, tracked: seq<RelativePath>, policy: CleanupPolicy): History {
    History(tree, (set p | p in tracked), Some((tracked, policy)))
  }

  lemma FoundKeepsInv(tree: Tree, tracked: seq<RelativePath>, policy: CleanupPolicy)
    requires WellFormed(tree) && MANIFEST_PATH in tree.files && tree.files[MANIFEST_PATH] == Written(tracked, policy)
    requires GoodTracked(tracked) && PolicyNormalized(policy)
    ensures Inv(FoundIn(tree, tracked, policy))
  {
  }

  /** A root with a manifest and one more file. */
  function Beside(p: RelativePath, manifest: string): Tree
    requires p != []
  {
    Tree(map[p := [], MANIFEST_PATH := manifest], Above(Parent(p)))
  }

  lemma BesideIsWellFormed(p: RelativePath, manifest: string)
    requires p != [] && !(MANIFEST_PATH < p)
    ensures WellFormed(Beside(p, manifest))
  {
    var dirs := Above(Parent(p));
    AbovePrefixes(Parent(p), []);
    AbovePrefixes(Parent(p), p);
    AbovePrefixes(Parent(p), MANIFEST_PATH);
    assert Parent(MANIFEST_PATH) == [];
    forall d | d in dirs && d != []
      ensures Parent(d) in dirs
    {
      AbovePrefixes(Parent(p), d);
      AbovePrefixes(Parent(p), Parent(d));
    }
  }

  /** A name with a line feed reads as the name after it. */
  lemma SplitNameReadsAs(a: string, b: string)
    requires OneLine(b) && SafeComponent(b)
    ensures ReadsAs([a + ['\n'] + b], [b])
  {
    hide ParsedPath, TrimmedLines, OneLine;
    TrimmedLinesAppend(a, b);
    OneLineStays(b);
    PathReadsBack([b]);
    assert Render([b]) == b && Render([a + ['\n'] + b]) == a + ['\n'] + b;
    var lines := TrimmedLines(a) + TrimmedLines(b);
    assert lines[|lines| - 1] == b;
  }

  /** It does happen: a build writes a page whose name holds a line feed, the user writes a file of
      their own, and the next build deletes it. */
  lemma ForeignFileDeleted()
    ensures
      var page := OutputFile(["a\nb.html"], HtmlText("page"));
      var events := [Build(Builds(PAGES, [page]), NO_FAULTS), UserWrites(["b.html"], "mine")];
      var now := Run(Fresh(EMPTY_ROOT), events);
      && FitEvents(events) && ["b.html"] in now.tree.files && ["b.html"] !in now.everTracked
      && ["b.html"] in Built(now.tree, Builds(PAGES, []), NO_FAULTS).removed
  {
    hide Built, Run, FitEvents, IsTracked, Normalized, Plain, ReadsAs, TrackedPaths, ReadExtensions, ExtensionPaths;
    var page := OutputFile(["a\nb.html"], HtmlText("page"));
    assert "a\nb.html" == "a" + ['\n'] + "b.html";
    assert SafeComponent("a\nb.html");
    SplitNameIsManaged();
    PagesAreNormalized();
    PlainReadsItself(PAGES);
    SplitNameReadsAs("a", "b.html");
    var tracked := [page.path];
    assert ReadsAs(tracked[0], ["b.html"]);
    TrackedPathsExactly(tracked, ["b.html"]);
    assert Listed(tracked, PAGES) == TrackedPaths(tracked);
    AfterUserFile(PAGES, [page], "b.html", PAGES);
  }

  lemma SplitNameIsManaged()
    ensures IsTracked(PAGES, OutputFile(["a\nb.html"], HtmlText("page")))
  {
    hide AsciiLower, Extension;
    assert "a\nb.html" == "a\nb" + ['.'] + "html" && ['.'] + "html" == ".html";
    DottedHasExtension("a\nb", "html");
    LowerStays("html");
  }

  /** Only builds may write the manifest: someone else's can list any file, and the next build
      deletes it. */
  lemma ForgedManifestDeletes(tree: Tree, policy: CleanupPolicy, p: RelativePath)
    requires WellFormed(tree) && MANIFEST_PATH in tree.files && tree.files[MANIFEST_PATH] == Written([p], policy)
    requires PolicyNormalized(policy) && policy.extensions != [] && AllPlain(policy.extensions)
    requires SafePath(p) && LineSafe(p) && p != MANIFEST_PATH && p in tree.files
    ensures Deletes(tree, Builds(policy, []), NO_FAULTS, policy, p)
  {
    hide Built, Listed, IsReadBy, WellFormed, PolicyNormalized, Written, IsFileOutput, CleansUp, IsTrackedOutput;
    hide SafePath, LineSafe, Plain;
    var h := FoundIn(tree, [p], policy);
    FoundKeepsInv(tree, [p], policy);
    PlainCandidates(h, policy, p);
    var empty := Builds(policy, []);
    EmptyBuildCleansUp(tree, empty, p);
    RemovedExactly(h, empty, NO_FAULTS, p);
  }

  // ---------------------------------------------------------------- extensions that are not plain

  const LINE_FEED_INSIDE := CleanupPolicy(Generic, [".a\nb"])
  const ONE_EXTENSION := CleanupPolicy(Generic, [".a"])
  const COMMA_INSIDE := CleanupPolicy(Generic, [".a,.b"])
  const TWO_EXTENSIONS := CleanupPolicy(Generic, [".a", ".b"])
  const COMMA_AT_END := CleanupPolicy(Generic, [".,"])

  lemma TextIsNormalized(s: string)
    requires s != [] && s[0] == '.' && Trimmed(s) && forall c :: c in s ==> !('A' <= c <= 'Z')
    ensures Normalized(s)
  {
    hide TrimStart, TrimEnd, AsciiLower, Trimmed;
    LowerStays(s);
  }

  lemma AllNormalized()
    ensures PolicyNormalized(LINE_FEED_INSIDE) && PolicyNormalized(ONE_EXTENSION) && PolicyNormalized(COMMA_INSIDE)
    ensures PolicyNormalized(TWO_EXTENSIONS) && PolicyNormalized(COMMA_AT_END)
  {
    hide Normalized;
    TextIsNormalized(".a\nb");
    TextIsNormalized(".a");
    TextIsNormalized(".b");
    TextIsNormalized(".a,.b");
    TextIsNormalized(".,");
  }

  lemma ShortPathReadsBack()
    ensures ParsedPaths(["b"]) == [["b"]]
  {
    hide ParsedPath;
    assert SafeComponent("b") && Render(["b"]) == "b";
    PathReadsBack(["b"]);
    assert ["b"][..0] == [] && ParsedPaths([]) == [];
  }

  /** A line feed splits the list: its first line is read as another policy's extensions, its
      second as a path. */
  lemma LineFeedReads()
    ensures IsReadBy(LINE_FEED_INSIDE, ONE_EXTENSION) && ExtensionPaths(LINE_FEED_INSIDE) == [["b"]]
  {
    hide TrimmedLines, ParsedExtensions, ParsedPaths, OneLine, Normalized;
    ShortLines();
    assert ".a\nb" == ".a" + ['\n'] + "b";
    TrimmedLinesAppend(".a", "b");
    OneLineStays(".a");
    OneLineStays("b");
    assert [".a"] + ["b"] == [".a", "b"] && [".a", "b"][1..] == ["b"];
    ShortPathReadsBack();
    AllNormalized();
    ExtensionsReadBack([".a"]);
  }

  lemma ShortLines()
    ensures OneLine(".a") && OneLine("b")
  {
  }

  /** So a build that tracked nothing makes a build under another policy delete the user's file. */
  lemma LineFeedDeletesForeign()
    ensures
      var events := [Build(Builds(LINE_FEED_INSIDE, []), NO_FAULTS), UserWrites(["b"], "mine")];
      var now := Run(Fresh(EMPTY_ROOT), events);
      && FitEvents(events) && ["b"] in now.tree.files && ["b"] !in now.everTracked
      && ["b"] in Built(now.tree, Builds(ONE_EXTENSION, []), NO_FAULTS).removed
  {
    hide Built, Run, FitEvents, PolicyNormalized, IsReadBy, ExtensionPaths, TrackedPaths;
    AllNormalized();
    LineFeedReads();
    AfterUserFile(LINE_FEED_INSIDE, [], "b", ONE_EXTENSION);
  }

  /** Two policies whose lists are the same text write the same manifests. */
  lemma SameListSameManifest(paths: seq<RelativePath>, one: CleanupPolicy, two: CleanupPolicy)
    requires one.builder == two.builder && Join(one.extensions, ',') == Join(two.extensions, ',')
    ensures Written(paths, one) == Written(paths, two) && ReadExtensions(one) == ReadExtensions(two)
    ensures ExtensionPaths(one) == ExtensionPaths(two)
  {
    hide Join, SortBy, Render, TrimmedLines, ParsedExtensions, ParsedPaths;
  }

  /** With a comma inside, a build under a changed policy deletes what the first one tracked. */
  lemma CommaDeletesUnderOther()
    ensures
      var first := Builds(COMMA_INSIDE, [OutputFile(["x"], Bytes("old"))]);
      var now := Run(Fresh(EMPTY_ROOT), [Build(first, NO_FAULTS)]);
      ["x"] in Built(now.tree, Builds(TWO_EXTENSIONS, []), NO_FAULTS).removed
  {
    hide Built, WellFormed, Inv, PolicyNormalized, TrackedPaths, Written, ReadExtensions, ExtensionPaths, CleansUp;
    hide IsTrackedOutput, Manages, ReadsAs;
    var first := Builds(COMMA_INSIDE, [OutputFile(["x"], Bytes("old"))]);
    var now := Run(Fresh(EMPTY_ROOT), [Build(first, NO_FAULTS)]);
    AllNormalized();
    AfterSmallBuild(COMMA_INSIDE, first.outputs);
    assert Join([".a,.b"], ',') == Join([".a", ".b"], ',');
    SameListSameManifest([], COMMA_INSIDE, TWO_EXTENSIONS);
    PlainReadsItself(TWO_EXTENSIONS);
    var empty := Builds(TWO_EXTENSIONS, []);
    EmptyBuildCleansUp(now.tree, empty, ["x"]);
    ShortNameReadsAs();
    TrackedPathsExactly([["x"]], ["x"]);
    BuiltFileThere(first);
    RemovedExactly(now, empty, NO_FAULTS, ["x"]);
  }

  lemma ShortNameReadsAs()
    ensures ReadsAs(["x"], ["x"])
  {
    hide TrimmedLines, ParsedPath;
    assert OneLine("x") && SafeComponent("x") && Render(["x"]) == "x";
    OneLineStays("x");
    PathReadsBack(["x"]);
  }

  lemma BuiltFileThere(project: Project)
    requires project == Builds(COMMA_INSIDE, [OutputFile(["x"], Bytes("old"))])
    ensures ["x"] in Run(Fresh(EMPTY_ROOT), [Build(project, NO_FAULTS)]).tree.files
  {
    hide Built, WellFormed, Inv, PolicyNormalized, Candidates, IsTrackedOutput, Manages, CleansUp;
    var h, events := Fresh(EMPTY_ROOT), [Build(project, NO_FAULTS)];
    assert events[..0] == [] && Run(h, events) == Step(h, events[0]);
    EmptyRootIsWellFormed();
    FreshInv(EMPTY_ROOT);
    AllNormalized();
    SmallBuild(EMPTY_ROOT, COMMA_INSIDE, project.outputs);
    BuildExactly(h, project, NO_FAULTS, ["x"]);
  }

  /** But not every comma: a part may be blank, and then no policy reads the manifest. */
  lemma CommaReadByNone(active: CleanupPolicy)
    ensures PolicyNormalized(COMMA_AT_END) && !IsReadBy(COMMA_AT_END, active)
  {
    hide TrimmedLines, Normalized, NormalizeExtension, TrimStart, TrimEnd;
    AllNormalized();
    assert OneLine(".,");
    OneLineStays(".,");
    assert ".," == "." + [','] + "";
    SplitAppend(".", ',', "");
    assert Split("", ',') == [""] && Trim("") == [];
    var parts := Split(".,", ',');
    assert parts[|parts| - 1] == "";
    assert ExtensionsOfParts(parts).None?;
  }
}
