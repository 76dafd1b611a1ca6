/** Reading a written manifest. */
module ManifestRoundTrip {
  import opened Wrappers
  import opened Sorting
  import opened TextLines
  import opened BuildManifest

  /** An extension that neither ends its field nor its line. */
  predicate Plain(extension: string) {
    ',' !in extension && '\n' !in extension
  }

  predicate AllPlain(extensions: seq<string>) {
    forall i :: 0 <= i < |extensions| ==> Plain(extensions[i])
  }

  /** A path whose text is one trimmed line. */
  predicate LineSafe(p: RelativePath) {
    OneLine(Render(p))
  }

  predicate AllSafe(paths: seq<RelativePath>) {
    forall i :: 0 <= i < |paths| ==> SafePath(paths[i])
  }

  predicate AllLineSafe(paths: seq<RelativePath>) {
    forall i :: 0 <= i < |paths| ==> LineSafe(paths[i])
  }

  // ---------------------------------------------------------------- extensions

  lemma {:induction false} TrimKeepsStart(s: string)
    requires s != [] && !IsWhitespace(s[0])
    ensures TrimEnd(s) != [] && TrimEnd(s)[0] == s[0] && Trim(s) == TrimEnd(s)
  {
    if |s| > 1 && IsWhitespace(s[|s| - 1]) {
      TrimKeepsStart(s[..|s| - 1]);
    }
  }

  lemma NormalizedIsTrimmed(extension: string)
    requires Normalized(extension)
    ensures Trimmed(extension) && extension != [] && extension[0] == '.' && Trim(extension) == extension
  {
    TrimKeepsStart(extension);
  }

  lemma {:induction false} NormalizedPartsStay(extensions: seq<string>)
    requires Ascending(extensions) && forall i :: 0 <= i < |extensions| ==> Normalized(extensions[i])
    ensures ExtensionsOfParts(extensions) == Some(extensions)
  {
    hide Normalized, Trim, Trimmed, NormalizeExtension;
    if extensions != [] {
      var before, last := extensions[..|extensions| - 1], extensions[|extensions| - 1];
      NormalizedPartsStay(before);
      NormalizedIsTrimmed(last);
      NormalizedIs(last);
      assert before + [last] == extensions;
      InsertedLast(last, before);
    }
  }

  lemma NormalizedIs(extension: string)
    requires Normalized(extension)
    ensures NormalizeExtension(extension) == extension
  {
  }

  lemma JoinEnds(parts: seq<string>, separator: char)
    requires parts != [] && parts[0] != [] && parts[|parts| - 1] != []
    ensures Join(parts, separator) != [] && Join(parts, separator)[0] == parts[0][0]
    ensures Last(Join(parts, separator)) == Last(parts[|parts| - 1])
    decreases |parts|
  {
    if |parts| > 1 {
      var before, last := parts[..|parts| - 1], parts[|parts| - 1];
      assert parts == before + [last];
      JoinAppend(before, [last], separator);
      assert Join(parts, separator) == Join(before, separator) + [separator] + last;
      JoinStarts(before, separator);
    }
  }

  lemma {:induction false} JoinStarts(parts: seq<string>, separator: char)
    requires parts != [] && parts[0] != []
    ensures Join(parts, separator) != [] && Join(parts, separator)[0] == parts[0][0]
  {
  }

  function Last(s: string): char
    requires s != []
  {
    s[|s| - 1]
  }

  lemma {:induction false} JoinWithout(parts: seq<string>, separator: char, c: char)
    requires c != separator && forall i :: 0 <= i < |parts| ==> c !in parts[i]
    ensures c !in Join(parts, separator)
  {
    if |parts| > 1 {
      JoinWithout(parts[1..], separator, c);
    }
  }

  lemma OneLinePrefixed(prefix: string, s: string)
    requires prefix != [] && !IsWhitespace(prefix[0]) && s != [] && !IsWhitespace(Last(s))
    requires '\n' !in prefix && '\n' !in s
    ensures OneLine(prefix + s)
  {
  }

  lemma NoWhitespaceEnds(extension: string)
    requires Normalized(extension)
    ensures extension != [] && !IsWhitespace(extension[0]) && !IsWhitespace(Last(extension))
  {
    NormalizedIsTrimmed(extension);
  }

  /** A plain, non-empty extension set survives the comma-separated list. */
  lemma ExtensionsReadBack(extensions: Extensions)
    requires extensions != [] && AllPlain(extensions)
    requires forall i :: 0 <= i < |extensions| ==> Normalized(extensions[i])
    ensures ParsedExtensions(Join(extensions, ',')) == Some(extensions)
  {
    hide Normalized, Trim, NormalizeExtension, ExtensionsOfParts, Split, Join, Ascending, IsWhitespace;
    NoWhitespaceEnds(extensions[0]);
    NoWhitespaceEnds(extensions[|extensions| - 1]);
    JoinEnds(extensions, ',');
    TrimKeepsStart(Join(extensions, ','));
    NothingSplits(extensions, ',');
    SplitJoin(extensions, ',');
    NormalizedPartsStay(extensions);
  }

  lemma NothingSplits(extensions: seq<string>, separator: char)
    requires AllPlain(extensions) && (separator == ',' || separator == '\n')
    ensures forall i :: 0 <= i < |extensions| ==> separator !in extensions[i]
  {
    forall i | 0 <= i < |extensions|
      ensures separator !in extensions[i]
    {
      assert Plain(extensions[i]);
    }
  }

  lemma ExtensionLine(prefix: string, extensions: Extensions)
    requires extensions != [] && AllPlain(extensions)
    requires forall i :: 0 <= i < |extensions| ==> Normalized(extensions[i])
    requires OneLine(prefix + ['x'])
    ensures OneLine(prefix + Join(extensions, ','))
  {
    hide Normalized, Join, Ascending, IsWhitespace;
    NoWhitespaceEnds(extensions[0]);
    NoWhitespaceEnds(extensions[|extensions| - 1]);
    JoinEnds(extensions, ',');
    NothingSplits(extensions, '\n');
    JoinWithout(extensions, ',', '\n');
    if prefix == [] {
      assert prefix + Join(extensions, ',') == Join(extensions, ',');
    } else {
      assert (prefix + ['x'])[0] == prefix[0];
      assert forall c :: c in prefix ==> c in prefix + ['x'];
      OneLinePrefixed(prefix, Join(extensions, ','));
    }
  }

  /** Parsed extensions hold no comma, and no line feed when the line held none. */
  lemma {:induction false} ParsedPartsArePlain(parts: seq<string>)
    requires forall i :: 0 <= i < |parts| ==> Plain(parts[i])
    ensures ExtensionsOfParts(parts).Some? ==> forall e :: e in ExtensionsOfParts(parts).value ==> Plain(e)
  {
    hide Plain;
    if parts != [] {
      ParsedPartsArePlain(parts[..|parts| - 1]);
      NormalizeKeepsPlain(parts[|parts| - 1]);
    }
  }

  lemma NormalizeKeepsPlain(part: string)
    requires Plain(part)
    ensures Plain(NormalizeExtension(Trim(part)))
  {
    var trimmed := Trim(Trim(part));
    assert Plain(trimmed);
    var dotted := if trimmed != [] && trimmed[0] == '.' then trimmed else ['.'] + trimmed;
    assert Plain(dotted);
  }

  lemma ParsedExtensionsArePlain(raw: string)
    requires '\n' !in raw
    ensures ParsedExtensions(raw).Some? ==> AllPlain(ParsedExtensions(raw).value)
  {
    hide Split, ExtensionsOfParts, Trim, Trimmed;
    if Trim(raw) != [] {
      SplitCharacters(raw, ',', '\n');
      ParsedPartsArePlain(Split(raw, ','));
    }
  }

  // ---------------------------------------------------------------- the lines read back

  lemma BuilderReadsBack(builder: Builder)
    ensures FromManifestName(ManifestName(builder)) == Some(builder)
  {
    assert Trimmed(ManifestName(builder));
  }

  lemma HeadersAreLines(builder: Builder)
    ensures OneLine(HEADER_V2) && OneLine(BUILDER_PREFIX + ManifestName(builder))
    ensures OneLine(EXTENSIONS_PREFIX + ['x'])
  {
    OneLinePrefixed(EXTENSIONS_PREFIX, ['x']);
    assert Last(ManifestName(builder)) == 'c' || Last(ManifestName(builder)) == 'l';
    OneLinePrefixed(BUILDER_PREFIX, ManifestName(builder));
  }

  lemma LinesAfterHeaders(first: string, second: string, third: string, others: seq<string>)
    requires OneLine(first) && OneLine(second)
    ensures LinesOfAll([first, second, third] + others)
         == [first, second] + (TrimmedLines(third) + LinesOfAll(others))
  {
    hide TrimmedLines, OneLine;
    OneLineStays(first);
    OneLineStays(second);
    var lines := [first, second, third] + others;
    assert lines[1..] == [second, third] + others;
    assert lines[1..][1..] == [third] + others;
    assert ([third] + others)[1..] == others;
    assert LinesOfAll(lines) == [first] + LinesOfAll(lines[1..]);
    assert LinesOfAll(lines[1..]) == [second] + LinesOfAll([third] + others);
  }

  /** The lines of a written manifest: the version, the builder, the lines of the extension
      list, and the lines of the sorted paths. */
  lemma WrittenLines(paths: seq<RelativePath>, policy: CleanupPolicy)
    ensures TrimmedLines(Written(paths, policy)) ==
        [HEADER_V2, BUILDER_PREFIX + ManifestName(policy.builder)]
        + (TrimmedLines(EXTENSIONS_PREFIX + Join(policy.extensions, ','))
           + LinesOfAll(SortBy(TextLeq, Map(Render, paths))))
  {
    hide TrimmedLines, SortBy, Map, Render, Join, OneLine, LinesOfAll, ManifestName;
    LinesOfJoin(ManifestLines(paths, policy));
    HeadersAreLines(policy.builder);
    LinesAfterHeaders(
      HEADER_V2, BUILDER_PREFIX + ManifestName(policy.builder), EXTENSIONS_PREFIX + Join(policy.extensions, ','),
      SortBy(TextLeq, Map(Render, paths)));
  }

  lemma PrefixStripped(prefix: string, s: string)
    ensures StripPrefix(prefix + s, prefix) == Some(s)
  {
  }

  // ---------------------------------------------------------------- paths read back

  lemma {:induction false} NamesStay(p: RelativePath)
    requires forall i :: 0 <= i < |p| ==> SafeComponent(p[i])
    ensures Names(p) == p && ".." !in p
  {
    if p != [] {
      assert SafeComponent(p[0]);
      forall i | 0 <= i < |p[1..]|
        ensures SafeComponent(p[1..][i])
      {
        assert p[1..][i] == p[i + 1];
      }
      NamesStay(p[1..]);
    }
  }

  /** The text of a safe path names that path. */
  lemma PathReadsBack(p: RelativePath)
    requires SafePath(p)
    ensures ParsedPath(Render(p)) == Some(p)
  {
    hide Join;
    assert SafeComponent(p[0]);
    SplitJoin(p, '/');
    NamesStay(p);
    JoinStarts(p, '/');
    assert Render(p)[0] in p[0];
  }

  /** What the reader returns is always safe, whatever the manifest says. */
  lemma ParsedPathIsSafe(line: string)
    requires ParsedPath(line).Some?
    ensures SafePath(ParsedPath(line).value)
  {
    var names := ParsedPath(line).value;
    forall i | 0 <= i < |names|
      ensures SafeComponent(names[i])
    {
      assert names[i] in Split(line, '/') && names[i] in names;
    }
  }

  predicate RenderedLeq(p: RelativePath, q: RelativePath) {
    TextLeq(Render(p), Render(q))
  }

  /** The paths in the order of the manifest. */
  function SortedPaths(paths: seq<RelativePath>): seq<RelativePath> {
    SortBy(RenderedLeq, paths)
  }

  lemma RenderedCons(p: RelativePath, paths: seq<RelativePath>)
    ensures Map(Render, [p] + paths) == [Render(p)] + Map(Render, paths)
    ensures Map(Render, []) == []
  {
    hide Render;
    var left, right := Map(Render, [p] + paths), [Render(p)] + Map(Render, paths);
    forall i | 0 <= i < |left|
      ensures left[i] == right[i]
    {
      assert left[i] == Render(([p] + paths)[i]);
    }
    assert left == right;
  }

  lemma {:induction false} InsertRendered(p: RelativePath, paths: seq<RelativePath>)
    ensures Insert(TextLeq, Render(p), Map(Render, paths)) == Map(Render, Insert(RenderedLeq, p, paths))
  {
    hide Render, TextLeq, Map;
    if paths == [] {
      RenderedCons(p, []);
    } else {
      RenderedCons(paths[0], paths[1..]);
      assert [paths[0]] + paths[1..] == paths;
      InsertRendered(p, paths[1..]);
      RenderedCons(p, paths);
      RenderedCons(paths[0], Insert(RenderedLeq, p, paths[1..]));
      assert Map(Render, paths)[1..] == Map(Render, paths[1..]);
    }
  }

  lemma {:induction false} SortRendered(paths: seq<RelativePath>)
    ensures SortBy(TextLeq, Map(Render, paths)) == Map(Render, SortedPaths(paths))
  {
    hide Insert, TextLeq, Render;
    if paths != [] {
      assert Map(Render, paths)[1..] == Map(Render, paths[1..]);
      SortRendered(paths[1..]);
      InsertRendered(paths[0], SortedPaths(paths[1..]));
    }
  }

  lemma {:induction false} PathsReadBack(paths: seq<RelativePath>)
    requires AllSafe(paths)
    ensures ParsedPaths(Map(Render, paths)) == paths
  {
    hide ParsedPath, Render;
    if paths != [] {
      var before, last := paths[..|paths| - 1], paths[|paths| - 1];
      assert Map(Render, paths)[..|paths| - 1] == Map(Render, before);
      PathsReadBack(before);
      PathReadsBack(last);
    }
  }

  lemma SortedKeeps(paths: seq<RelativePath>)
    ensures AllSafe(paths) ==> AllSafe(SortedPaths(paths))
    ensures AllLineSafe(paths) ==> AllLineSafe(SortedPaths(paths))
  {
    hide SafePath, LineSafe;
    var sorted := SortedPaths(paths);
    forall i | 0 <= i < |sorted|
      ensures sorted[i] in paths
    {
      assert sorted[i] in multiset(sorted);
    }
  }

  /** Safe one-line paths are read back exactly, in sorted order. */
  lemma LineSafePathsReadBack(paths: seq<RelativePath>)
    requires AllSafe(paths) && AllLineSafe(paths)
    ensures ParsedPaths(LinesOfAll(SortBy(TextLeq, Map(Render, paths)))) == SortedPaths(paths)
  {
    hide SortBy, SafePath, Render, ParsedPaths, LinesOfAll, OneLine;
    SortedKeeps(paths);
    SortRendered(paths);
    OneLinesStay(Map(Render, SortedPaths(paths)));
    PathsReadBack(SortedPaths(paths));
  }

  /** The text depends on the set of paths only, not on the order they are listed in. */
  lemma WrittenInAnyOrder(paths: seq<RelativePath>, shuffled: seq<RelativePath>, policy: CleanupPolicy)
    requires multiset(paths) == multiset(shuffled)
    ensures Written(paths, policy) == Written(shuffled, policy)
  {
    TextLinear();
    SameImagesOfSame(Render, paths, shuffled);
    SortIsCanonical(TextLeq, Map(Render, paths), Map(Render, shuffled));
  }

  // ---------------------------------------------------------------- when a manifest is valid

  /** The header of an empty extension list without its trailing space. */
  const BARE_HEADER := "# managed_extensions:"

  lemma BareHeaderIsInvalid(lines: seq<string>, builder: Builder, active: CleanupPolicy)
    requires |lines| >= 2 && lines[0] == BUILDER_PREFIX + ManifestName(builder) && lines[1] == BARE_HEADER
    ensures LoadedV2(lines, active) == LimitedSafeMode(InvalidMetadata)
  {
    hide FromManifestName, ManifestName, ParsedExtensions, ParsedPaths;
    BuilderReadsBack(builder);
    PrefixStripped(BUILDER_PREFIX, ManifestName(builder));
    assert |BARE_HEADER| < |EXTENSIONS_PREFIX|;
  }

  /** That header loses its trailing space, so its prefix no longer matches: such a manifest
      never loads. */
  lemma EmptyExtensionsNeverLoad(paths: seq<RelativePath>, written: CleanupPolicy, active: CleanupPolicy)
    requires written.extensions == []
    ensures Loaded(Content(Written(paths, written)), active) == LimitedSafeMode(InvalidMetadata)
  {
    hide SortBy, Map, Render, Written, LinesOfAll, TrimmedLines, LoadedV2, Loaded, ManifestName;
    WrittenLines(paths, written);
    EmptyExtensionLine();
    var pathLines := LinesOfAll(SortBy(TextLeq, Map(Render, paths)));
    LoadedAfterHeaders(Written(paths, written), written.builder, [BARE_HEADER], pathLines, active);
    BareHeaderIsInvalid(
      [BUILDER_PREFIX + ManifestName(written.builder)] + [BARE_HEADER] + pathLines, written.builder, active);
  }

  lemma EmptyExtensionLine()
    ensures TrimmedLines(EXTENSIONS_PREFIX + Join([], ',')) == [BARE_HEADER]
  {
    var line := EXTENSIONS_PREFIX + Join([], ',');
    assert line == BARE_HEADER + [' '];
    assert Trimmed(BARE_HEADER);
    TrimLastSpace(BARE_HEADER);
    LinesOfOnePart(line);
  }

  lemma TrimLastSpace(s: string)
    requires s != [] && Trimmed(s)
    ensures Trim(s + [' ']) == s
  {
    hide TrimStart;
    var t := s + [' '];
    TrimKeepsStart(t);
    assert t[..|t| - 1] == s && IsWhitespace(t[|t| - 1]);
    assert TrimEnd(t) == TrimEnd(s) == s;
  }

  lemma LoadedAfterVersion(text: string, active: CleanupPolicy)
    requires TrimmedLines(text) != [] && TrimmedLines(text)[0] == HEADER_V2
    ensures Loaded(Content(text), active) == LoadedV2(TrimmedLines(text)[1..], active)
  {
    hide TrimmedLines, LoadedV2, AllOneLines;
    assert HEADER_V2[0] == '#';
  }

  lemma DropFirst<T>(first: T, second: T, third: seq<T>, fourth: seq<T>)
    ensures ([first, second] + (third + fourth))[0] == first
    ensures ([first, second] + (third + fourth))[1..] == [second] + third + fourth
  {
  }

  /** What is loaded once the version and builder lines have been read. */
  lemma LoadedAfterHeaders(
    text: string, builder: Builder, extensionLines: seq<string>, pathLines: seq<string>, active: CleanupPolicy)
    requires extensionLines != []
    requires TrimmedLines(text) == [HEADER_V2, BUILDER_PREFIX + ManifestName(builder)] + (extensionLines + pathLines)
    ensures Loaded(Content(text), active) ==
        LoadedV2([BUILDER_PREFIX + ManifestName(builder)] + extensionLines + pathLines, active)
  {
    hide TrimmedLines, LoadedV2, ManifestName, AllOneLines;
    DropFirst(HEADER_V2, BUILDER_PREFIX + ManifestName(builder), extensionLines, pathLines);
    LoadedAfterVersion(text, active);
  }

  // ---------------------------------------------------------------- reading under any policy

  /** The paths a reader finds in the path lines of a manifest. */
  function TrackedPaths(paths: seq<RelativePath>): seq<RelativePath> {
    ParsedPaths(LinesOfAll(SortBy(TextLeq, Map(Render, paths))))
  }

  /** The extension list as a reader sees it: usually one line. */
  function ExtensionLines(policy: CleanupPolicy): seq<string> {
    TrimmedLines(Join(policy.extensions, ','))
  }

  /** The extensions a reader finds in a manifest of this policy: those of the first line. */
  function ReadExtensions(policy: CleanupPolicy): Option<Extensions> {
    var lines := ExtensionLines(policy);
    if lines == [] then None else ParsedExtensions(lines[0])
  }

  /** The other lines of the list are taken for paths. */
  function ExtensionPaths(policy: CleanupPolicy): seq<RelativePath> {
    var lines := ExtensionLines(policy);
    if lines == [] then [] else ParsedPaths(lines[1..])
  }

  /** The paths a reader finds in a manifest. */
  function Listed(paths: seq<RelativePath>, policy: CleanupPolicy): seq<RelativePath> {
    ExtensionPaths(policy) + TrackedPaths(paths)
  }

  /** The second policy takes manifests of the first for its own. */
  predicate IsReadBy(written: CleanupPolicy, active: CleanupPolicy) {
    written.builder == active.builder && ReadExtensions(written) == Some(active.extensions)
  }

  lemma {:induction false} SplitPrefixed(prefix: string, s: string, separator: char)
    requires separator !in prefix
    ensures Split(prefix + s, separator) == [prefix + Split(s, separator)[0]] + Split(s, separator)[1..]
  {
    if prefix == [] {
      assert prefix + s == s && prefix + Split(s, separator)[0] == Split(s, separator)[0];
    } else {
      assert (prefix + s)[0] == prefix[0] && (prefix + s)[1..] == prefix[1..] + s;
      SplitPrefixed(prefix[1..], s, separator);
      var first := Split(s, separator)[0];
      assert [prefix[0]] + (prefix[1..] + first) == prefix + first;
      assert Split(prefix[1..] + s, separator)[1..] == Split(s, separator)[1..];
    }
  }

  lemma {:induction false} TrimEndPrefixed(prefix: string, s: string)
    requires TrimEnd(s) != []
    ensures TrimEnd(prefix + s) == prefix + TrimEnd(s)
  {
    if s != [] && IsWhitespace(s[|s| - 1]) {
      assert (prefix + s)[..|prefix + s| - 1] == prefix + s[..|s| - 1];
      TrimEndPrefixed(prefix, s[..|s| - 1]);
    }
  }

  lemma {:induction false} SplitStarts(s: string, separator: char)
    requires s != [] && s[0] != separator
    ensures Split(s, separator)[0] != [] && Split(s, separator)[0][0] == s[0]
  {
  }

  lemma TrimPrefixed(prefix: string, s: string)
    requires prefix != [] && !IsWhitespace(prefix[0]) && s != [] && !IsWhitespace(s[0])
    ensures Trim(s) != [] && Trim(prefix + s) == prefix + Trim(s)
  {
    hide TrimStart, TrimEnd, Trim, IsWhitespace;
    TrimKeepsStart(s);
    assert (prefix + s)[0] == prefix[0];
    TrimKeepsStart(prefix + s);
    TrimEndPrefixed(prefix, s);
  }

  lemma PartsOfMore(first: string, others: seq<string>)
    requires '\n' !in first && forall i :: 0 <= i < |others| ==> '\n' !in others[i]
    requires Trim(first) != []
    ensures TrimmedParts([first] + others) == [Trim(first)] + TrimmedParts(others)
  {
    hide Trim;
    assert ([first] + others)[1..] == others;
  }

  /** A prefix without line feeds becomes part of the first line and leaves the others. */
  lemma LinesPrefixed(prefix: string, s: string)
    requires prefix != [] && !IsWhitespace(prefix[0]) && '\n' !in prefix
    requires s != [] && !IsWhitespace(s[0])
    ensures TrimmedLines(s) != []
    ensures TrimmedLines(prefix + s) == [prefix + TrimmedLines(s)[0]] + TrimmedLines(s)[1..]
  {
    hide Trim, Split, IsWhitespace, TrimmedParts;
    var parts := Split(s, '\n');
    LineFeedIsWhitespace();
    SplitPrefixed(prefix, s, '\n');
    SplitStarts(s, '\n');
    TrimPrefixed(prefix, parts[0]);
    PartsOfMore(parts[0], parts[1..]);
    PartsOfMore(prefix + parts[0], parts[1..]);
    assert parts == [parts[0]] + parts[1..];
  }

  lemma LineFeedIsWhitespace()
    ensures IsWhitespace('\n')
  {
  }

  /** What is loaded behind the version and builder lines, when the list line holds its prefix. */
  lemma LoadedAfterList(
    first: string, pathLines: seq<string>, builder: Builder, active: CleanupPolicy)
    ensures LoadedV2([BUILDER_PREFIX + ManifestName(builder)] + [EXTENSIONS_PREFIX + first] + pathLines, active) ==
        match ParsedExtensions(first)
        case None => LimitedSafeMode(InvalidMetadata)
        case Some(extensions) =>
          if builder != active.builder then LimitedSafeMode(BuilderMismatch(builder, active.builder))
          else if extensions != active.extensions then
            LimitedSafeMode(ExtensionsMismatch(extensions, active.extensions))
          else ValidV2(ParsedPaths(pathLines), active.builder)
  {
    hide FromManifestName, ManifestName, ParsedExtensions, ParsedPaths;
    BuilderReadsBack(builder);
    PrefixStripped(BUILDER_PREFIX, ManifestName(builder));
    PrefixStripped(EXTENSIONS_PREFIX, first);
    var lines := [BUILDER_PREFIX + ManifestName(builder)] + [EXTENSIONS_PREFIX + first] + pathLines;
    assert lines[2..] == pathLines;
  }

  lemma {:induction false} ParsedPathsOfBoth(a: seq<string>, b: seq<string>)
    ensures ParsedPaths(a + b) == ParsedPaths(a) + ParsedPaths(b)
    decreases |b|
  {
    hide ParsedPath;
    if b == [] {
      assert a + b == a;
    } else {
      assert (a + b)[..|a + b| - 1] == a + b[..|b| - 1];
      ParsedPathsOfBoth(a, b[..|b| - 1]);
    }
  }

  /** Reading any policy's manifest under any policy: the extensions of the list's first line
      must parse; then the builder is compared, then the extensions; when both agree, the other
      lines of the list and the path lines are read as paths. */
  lemma ReadBack(paths: seq<RelativePath>, written: CleanupPolicy, active: CleanupPolicy)
    requires PolicyNormalized(written)
    ensures Loaded(Content(Written(paths, written)), active) ==
        match ReadExtensions(written)
        case None => LimitedSafeMode(InvalidMetadata)
        case Some(extensions) =>
          if written.builder != active.builder then LimitedSafeMode(BuilderMismatch(written.builder, active.builder))
          else if extensions != active.extensions then
            LimitedSafeMode(ExtensionsMismatch(extensions, active.extensions))
          else ValidV2(Listed(paths, written), active.builder)
  {
    hide TrimmedLines, SortBy, Map, Render, Join, ParsedPaths, ParsedExtensions, LinesOfAll, Normalized, LoadedV2;
    hide Written, Loaded, ManifestName, IsWhitespace;
    if written.extensions == [] {
      NothingListed();
      EmptyExtensionsNeverLoad(paths, written, active);
    } else {
      var csv, lines := Join(written.extensions, ','), ExtensionLines(written);
      var pathLines := LinesOfAll(SortBy(TextLeq, Map(Render, paths)));
      NoWhitespaceEnds(written.extensions[0]);
      JoinStarts(written.extensions, ',');
      PrefixIsPlain();
      LinesPrefixed(EXTENSIONS_PREFIX, csv);
      WrittenLines(paths, written);
      var list := [EXTENSIONS_PREFIX + lines[0]] + lines[1..];
      LoadedAfterHeaders(Written(paths, written), written.builder, list, pathLines, active);
      var builderLine := BUILDER_PREFIX + ManifestName(written.builder);
      assert [builderLine] + list + pathLines
          == [builderLine] + [EXTENSIONS_PREFIX + lines[0]] + (lines[1..] + pathLines);
      LoadedAfterList(lines[0], lines[1..] + pathLines, written.builder, active);
      ParsedPathsOfBoth(lines[1..], pathLines);
    }
  }

  lemma NothingListed()
    ensures TrimmedLines(Join([], ',')) == []
  {
    LinesOfOnePart([]);
    assert Trim([]) == [];
  }

  lemma PrefixIsPlain()
    ensures !IsWhitespace(EXTENSIONS_PREFIX[0]) && '\n' !in EXTENSIONS_PREFIX
  {
  }

  /** A policy that manages plain extensions is read by itself alone, with its path lines only. */
  lemma PlainReadsItself(policy: CleanupPolicy)
    requires PolicyNormalized(policy) && policy.extensions != [] && AllPlain(policy.extensions)
    ensures ReadExtensions(policy) == Some(policy.extensions) && ExtensionPaths(policy) == []
    ensures forall paths :: Listed(paths, policy) == TrackedPaths(paths)
  {
    hide TrimmedLines, Join, ParsedExtensions, Normalized, OneLine, TrackedPaths;
    PrefixIsOneLine();
    ExtensionLine([], policy.extensions);
    assert [] + Join(policy.extensions, ',') == Join(policy.extensions, ',');
    OneLineStays(Join(policy.extensions, ','));
    ExtensionsReadBack(policy.extensions);
  }

  lemma PrefixIsOneLine()
    ensures OneLine([] + ['x'])
  {
    assert [] + ['x'] == ['x'];
  }

  lemma ReadExtensionsArePlain(policy: CleanupPolicy)
    ensures ReadExtensions(policy).Some? ==> AllPlain(ReadExtensions(policy).value)
  {
    hide ParsedExtensions, TrimmedLines;
    var lines := ExtensionLines(policy);
    if lines != [] {
      assert OneLine(lines[0]);
      ParsedExtensionsArePlain(lines[0]);
    }
  }

  /** A policy reads its own manifests if and only if it manages some extension and all its
      extensions are plain. */
  lemma ReadsItselfExactly(policy: CleanupPolicy)
    requires PolicyNormalized(policy)
    ensures IsReadBy(policy, policy) <==> policy.extensions != [] && AllPlain(policy.extensions)
  {
    hide TrimmedLines, Join, ParsedExtensions, Normalized, Plain;
    if policy.extensions == [] {
      NothingListed();
    } else if AllPlain(policy.extensions) {
      PlainReadsItself(policy);
    } else {
      ReadExtensionsArePlain(policy);
    }
  }

  /** The round trip: a manifest read under the policy it was written with lists the same paths. */
  lemma RoundTrip(paths: seq<RelativePath>, policy: CleanupPolicy)
    requires PolicyNormalized(policy) && policy.extensions != [] && AllPlain(policy.extensions)
    requires AllSafe(paths) && AllLineSafe(paths)
    ensures Loaded(Content(Written(paths, policy)), policy) == ValidV2(SortedPaths(paths), policy.builder)
  {
    hide Loaded, SortedPaths, Written, Normalized, Plain, SafePath, LineSafe, ParsedPaths, LinesOfAll, SortBy;
    hide ReadExtensions, ExtensionPaths;
    PlainReadsItself(policy);
    ReadBack(paths, policy, policy);
    LineSafePathsReadBack(paths);
  }

  /** A policy can read its own manifests exactly when it manages some extension and all its
      extensions are plain. */
  lemma OwnManifestIsValidExactly(paths: seq<RelativePath>, policy: CleanupPolicy)
    requires PolicyNormalized(policy)
    ensures Loaded(Content(Written(paths, policy)), policy).ValidV2?
       <==> policy.extensions != [] && AllPlain(policy.extensions)
  {
    hide Loaded, Written, Normalized, Plain, ReadExtensions, Listed;
    ReadBack(paths, policy, policy);
    ReadsItselfExactly(policy);
  }

  // ---------------------------------------------------------------- when paths are tracked

  function TextLength(s: string): nat {
    |s|
  }

  function PathLength(p: RelativePath): nat {
    |Render(p)|
  }

  lemma {:induction false} NamesAreShorter(segments: seq<string>)
    ensures |Join(Names(segments), '/')| <= |Join(segments, '/')|
  {
    if segments != [] {
      NamesAreShorter(segments[1..]);
      var names := Names(segments[1..]);
      if segments[0] != [] && segments[0] != "." {
        assert ([segments[0]] + names)[1..] == names;
      }
    }
  }

  lemma ParsedPathIsShorter(line: string)
    requires ParsedPath(line).Some?
    ensures PathLength(ParsedPath(line).value) <= |line|
  {
    NamesAreShorter(Split(line, '/'));
    JoinSplit(line, '/');
  }

  lemma {:induction false} ParsedPathsAreShorter(lines: seq<string>)
    ensures Total(PathLength, ParsedPaths(lines)) <= Total(TextLength, lines)
  {
    hide ParsedPath, PathLength;
    if lines != [] {
      var before, last := lines[..|lines| - 1], lines[|lines| - 1];
      ParsedPathsAreShorter(before);
      assert lines == before + [last];
      TotalOfBoth(TextLength, before, [last]);
      if ParsedPath(last).Some? {
        ParsedPathIsShorter(last);
        TotalOfBoth(PathLength, ParsedPaths(before), [ParsedPath(last).value]);
      }
    }
  }

  /** Text without line feeds is at most one line, and shorter unless it was trimmed. */
  lemma LinesOfOne(s: string)
    requires '\n' !in s
    ensures Total(TextLength, TrimmedLines(s)) <= |s|
    ensures s != [] && !Trimmed(s) ==> Total(TextLength, TrimmedLines(s)) < |s|
  {
    hide Trim, Trimmed;
    LinesOfOnePart(s);
    assert [Trim(s)][1..] == [];
  }

  predicate NoLineFeeds(texts: seq<string>) {
    forall i :: 0 <= i < |texts| ==> '\n' !in texts[i]
  }

  lemma {:induction false} LinesAreShorter(texts: seq<string>)
    requires NoLineFeeds(texts) && forall i :: 0 <= i < |texts| ==> texts[i] != []
    ensures Total(TextLength, LinesOfAll(texts)) <= Total(TextLength, texts)
    ensures !AllOneLines(texts) ==> Total(TextLength, LinesOfAll(texts)) < Total(TextLength, texts)
  {
    hide TrimmedLines, Trimmed;
    if texts != [] {
      LinesOfOne(texts[0]);
      LinesAreShorter(texts[1..]);
      TotalOfBoth(TextLength, TrimmedLines(texts[0]), LinesOfAll(texts[1..]));
    }
  }

  /** Some line of the first path's text reads as the second path. */
  ghost predicate ReadsAs(p: RelativePath, q: RelativePath) {
    exists line :: line in TrimmedLines(Render(p)) && ParsedPath(line) == Some(q)
  }

  lemma {:induction false} ParsedFromLine(lines: seq<string>, line: string, q: RelativePath)
    requires line in lines && ParsedPath(line) == Some(q)
    ensures q in ParsedPaths(lines)
  {
    hide ParsedPath;
    var before, last := lines[..|lines| - 1], lines[|lines| - 1];
    assert lines == before + [last];
    if line in before {
      ParsedFromLine(before, line, q);
    }
  }

  lemma {:induction false} LineOfAll(texts: seq<string>, line: string)
    ensures line in LinesOfAll(texts) <==> exists i :: 0 <= i < |texts| && line in TrimmedLines(texts[i])
  {
    hide TrimmedLines;
    if texts != [] {
      var others := texts[1..];
      LineOfAll(others, line);
      assert forall i :: 0 <= i < |others| ==> others[i] == texts[i + 1];
      if i :| 0 <= i < |texts| && line in TrimmedLines(texts[i]) {
        assert i > 0 ==> others[i - 1] == texts[i];
      }
    }
  }

  /** A reader finds exactly the paths that some line of some written path reads as. */
  lemma TrackedPathsExactly(paths: seq<RelativePath>, q: RelativePath)
    ensures q in TrackedPaths(paths) <==> exists i :: 0 <= i < |paths| && ReadsAs(paths[i], q)
  {
    hide ParsedPaths, ParsedPath, LinesOfAll, SortBy, Render, TrimmedLines;
    var texts := SortBy(TextLeq, Map(Render, paths));
    assert multiset(texts) == multiset(Map(Render, paths));
    if q in TrackedPaths(paths) {
      var k :| 0 <= k < |LinesOfAll(texts)| && ParsedPath(LinesOfAll(texts)[k]) == Some(q);
      var line := LinesOfAll(texts)[k];
      LineOfAll(texts, line);
      var j :| 0 <= j < |texts| && line in TrimmedLines(texts[j]);
      assert texts[j] in multiset(Map(Render, paths));
      var i :| 0 <= i < |paths| && Map(Render, paths)[i] == texts[j];
      assert ReadsAs(paths[i], q);
    }
    if i :| 0 <= i < |paths| && ReadsAs(paths[i], q) {
      var line :| line in TrimmedLines(Render(paths[i])) && ParsedPath(line) == Some(q);
      assert Map(Render, paths)[i] in multiset(texts);
      var j :| 0 <= j < |texts| && texts[j] == Render(paths[i]);
      LineOfAll(texts, line);
      ParsedFromLine(LinesOfAll(texts), line, q);
    }
  }

  lemma TrackedHasNoLineFeed(lines: seq<string>, p: RelativePath)
    requires AllOneLines(lines) && p in ParsedPaths(lines)
    ensures '\n' !in Render(p)
  {
    hide ParsedPaths;
    var i :| 0 <= i < |lines| && ParsedPath(lines[i]) == Some(p);
    assert OneLine(lines[i]);
    SplitCharacters(lines[i], '/', '\n');
    forall k | 0 <= k < |p|
      ensures '\n' !in p[k]
    {
      assert p[k] in Split(lines[i], '/');
    }
    JoinWithout(p, '/', '\n');
  }

  lemma OneLineIfTracked(paths: seq<RelativePath>)
    requires AllSafe(paths) && NoRepeats(paths)
    requires forall p :: p in paths ==> p in TrackedPaths(paths)
    ensures AllLineSafe(paths)
  {
    hide ParsedPaths, LinesOfAll, SortBy, Total, SafePath, OneLine, Render;
    var texts := SortBy(TextLeq, Map(Render, paths));
    var tracked := TrackedPaths(paths);
    assert multiset(texts) == multiset(Map(Render, paths));
    TextsAreRendered(paths, texts);
    LinesAreShorter(texts);
    ParsedPathsAreShorter(LinesOfAll(texts));
    MoreTotals(TextLength, texts, Map(Render, paths));
    RenderedTotals(paths);
    DistinctSubset(paths, tracked);
    MoreTotals(PathLength, paths, tracked);
    assert AllOneLines(texts);
    forall i | 0 <= i < |paths|
      ensures LineSafe(paths[i])
    {
      assert Map(Render, paths)[i] in multiset(texts);
      var j :| 0 <= j < |texts| && texts[j] == Map(Render, paths)[i];
    }
  }

  lemma TextsAreRendered(paths: seq<RelativePath>, texts: seq<string>)
    requires AllSafe(paths) && multiset(texts) == multiset(Map(Render, paths))
    requires texts == SortBy(TextLeq, Map(Render, paths))
    requires forall p :: p in paths ==> p in TrackedPaths(paths)
    ensures NoLineFeeds(texts) && forall i :: 0 <= i < |texts| ==> texts[i] != []
  {
    hide ParsedPaths, LinesOfAll, SortBy, Render, SafePath;
    forall i | 0 <= i < |texts|
      ensures '\n' !in texts[i] && texts[i] != []
    {
      assert texts[i] in multiset(Map(Render, paths));
      var j :| 0 <= j < |paths| && Map(Render, paths)[j] == texts[i];
      assert paths[j] in TrackedPaths(paths) && TrackedPaths(paths) == ParsedPaths(LinesOfAll(texts));
      TrackedHasNoLineFeed(LinesOfAll(texts), paths[j]);
      RenderedIsNotEmpty(paths[j]);
    }
  }

  lemma RenderedIsNotEmpty(p: RelativePath)
    requires SafePath(p)
    ensures Render(p) != []
  {
    assert SafeComponent(p[0]);
    JoinStarts(p, '/');
  }

  lemma {:induction false} RenderedTotals(paths: seq<RelativePath>)
    ensures Total(TextLength, Map(Render, paths)) == Total(PathLength, paths)
  {
    hide Render;
    if paths != [] {
      RenderedTotals(paths[1..]);
      assert Map(Render, paths)[1..] == Map(Render, paths[1..]);
    }
  }

  /** The manifest tracks exactly the emitted paths if and only if each of them is one trimmed
      line of text. */
  lemma TrackedExactly(paths: seq<RelativePath>)
    requires AllSafe(paths) && NoRepeats(paths)
    ensures (forall p :: p in TrackedPaths(paths) <==> p in paths) <==> AllLineSafe(paths)
  {
    hide SafePath, LineSafe, ParsedPaths, LinesOfAll;
    if AllLineSafe(paths) {
      LineSafePathsReadBack(paths);
      var sorted := SortedPaths(paths);
      assert TrackedPaths(paths) == sorted;
      forall p
        ensures p in sorted <==> p in paths
      {
        assert p in multiset(sorted) <==> p in multiset(paths);
      }
    } else if forall p :: p in TrackedPaths(paths) <==> p in paths {
      OneLineIfTracked(paths);
    }
  }
}
