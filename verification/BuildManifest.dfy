/** The build manifest: its writer, its reader, and when the one undoes the other. */
module BuildManifest {
  import opened Wrappers
  import opened Sorting
  import opened TextLines

  // ---------------------------------------------------------------- policies

  datatype Builder = Generic | Html

  /** A set of extensions, kept as a `BTreeSet` keeps it: strictly ascending. */
  type Extensions = s: seq<string> | Ascending(s)

  predicate Ascending(s: seq<string>) {
    forall i, j :: 0 <= i < j < |s| ==> TextLeq(s[i], s[j]) && s[i] != s[j]
  }

  datatype CleanupPolicy = CleanupPolicy(builder: Builder, extensions: Extensions)

  function ManifestName(builder: Builder): string {
    match builder
    case Generic => "generic"
    case Html => "html"
  }

  function FromManifestName(raw: string): Option<Builder> {
    var name := Trim(raw);
    if name == "generic" then Some(Generic)
    else if name == "html" then Some(Html)
    else None
  }

  /** Leading dot added, ASCII letters lowered. */
  function NormalizeExtension(raw: string): (r: string)
    ensures r != [] && r[0] == '.'
  {
    var trimmed := Trim(raw);
    AsciiLower(if trimmed != [] && trimmed[0] == '.' then trimmed else ['.'] + trimmed)
  }

  predicate Normalized(extension: string) {
    NormalizeExtension(extension) == extension
  }

  /** Policies are built from normalized extensions. */
  predicate PolicyNormalized(policy: CleanupPolicy) {
    forall i :: 0 <= i < |policy.extensions| ==> Normalized(policy.extensions[i])
  }

  // ---------------------------------------------------------------- extension sets

  function Inserted(x: string, s: seq<string>): (r: seq<string>)
    ensures forall y :: y in r <==> y == x || y in s
  {
    if s == [] then [x]
    else if s[0] == x then s
    else if TextLeq(x, s[0]) then [x] + s
    else [s[0]] + Inserted(x, s[1..])
  }

  lemma {:induction false} InsertedAscends(x: string, s: seq<string>)
    requires Ascending(s)
    ensures Ascending(Inserted(x, s))
  {
    hide TextLeq;
    TextLinear();
    if s != [] && s[0] != x {
      if TextLeq(x, s[0]) {
        forall j | 0 <= j < |s|
          ensures TextLeq(x, s[j]) && x != s[j]
        {
          if j > 0 {
            assert TextLeq(s[0], s[j]) && s[0] != s[j];
          }
        }
      } else {
        var others := Inserted(x, s[1..]);
        InsertedAscends(x, s[1..]);
        forall j | 0 <= j < |others|
          ensures TextLeq(s[0], others[j]) && s[0] != others[j]
        {
          assert others[j] in others;
        }
      }
    }
  }

  lemma {:induction false} InsertedLast(x: string, s: seq<string>)
    requires Ascending(s + [x])
    ensures Inserted(x, s) == s + [x]
  {
    hide TextLeq;
    TextLinear();
    if s != [] {
      var more := s + [x];
      assert more[0] == s[0] && more[|s|] == x;
      assert TextLeq(more[0], more[|s|]) && more[0] != more[|s|];
      assert more[1..] == s[1..] + [x];
      InsertedLast(x, s[1..]);
    }
  }

  /** The set of normalized parts; none when a part is blank. */
  function ExtensionsOfParts(parts: seq<string>): Option<seq<string>> {
    if parts == [] then Some([])
    else
      var last := parts[|parts| - 1];
      match ExtensionsOfParts(parts[..|parts| - 1])
      case None => None
      case Some(before) => if Trim(last) == [] then None else Some(Inserted(NormalizeExtension(Trim(last)), before))
  }

  lemma {:induction false} ExtensionsAscend(parts: seq<string>)
    ensures ExtensionsOfParts(parts).Some? ==> Ascending(ExtensionsOfParts(parts).value)
  {
    if parts != [] {
      var before := parts[..|parts| - 1];
      ExtensionsAscend(before);
      if ExtensionsOfParts(before).Some? {
        InsertedAscends(NormalizeExtension(Trim(parts[|parts| - 1])), ExtensionsOfParts(before).value);
      }
    }
  }

  function ParsedExtensions(raw: string): Option<Extensions> {
    if Trim(raw) == [] then Some([])
    else
      var parts := Split(raw, ',');
      ExtensionsAscend(parts);
      ExtensionsOfParts(parts)
  }

  /** The loop of `parse_manifest_managed_extensions`. */
  method ParseManagedExtensions(raw: string) returns (r: Option<Extensions>)
    ensures r == ParsedExtensions(raw)
  {
    hide Trim, Trimmed, NormalizeExtension, Inserted;
    if Trim(raw) == [] {
      return Some([]);
    }
    var extensions: seq<string> := [];
    var parts := Split(raw, ',');
    for i := 0 to |parts|
      invariant ExtensionsOfParts(parts[..i]) == Some(extensions)
    {
      assert parts[..i + 1][..i] == parts[..i];
      var trimmed := Trim(parts[i]);
      if trimmed == [] {
        BlankPart(parts, i);
        return None;
      }
      extensions := Inserted(NormalizeExtension(trimmed), extensions);
    }
    assert parts[..|parts|] == parts;
    ExtensionsAscend(parts);
    return Some(extensions);
  }

  lemma {:induction false} BlankPart(parts: seq<string>, i: nat)
    requires i < |parts| && Trim(parts[i]) == []
    ensures ExtensionsOfParts(parts).None?
    decreases |parts|
  {
    if i < |parts| - 1 {
      BlankPart(parts[..|parts| - 1], i);
    }
  }

  // ---------------------------------------------------------------- paths

  /** A relative output path by its components. */
  type RelativePath = seq<string>

  predicate SafeComponent(c: string) {
    c != [] && c != "." && c != ".." && '/' !in c
  }

  /** Non-empty, relative, and only normal components. */
  predicate SafePath(p: RelativePath) {
    p != [] && forall i :: 0 <= i < |p| ==> SafeComponent(p[i])
  }

  function Render(p: RelativePath): string {
    Join(p, '/')
  }

  /** Empty and `.` components inside a path do not count. */
  function Names(segments: seq<string>): (r: seq<string>)
    ensures forall i :: 0 <= i < |r| ==> r[i] != [] && r[i] != "." && r[i] in segments
  {
    if segments == [] then []
    else if segments[0] == [] || segments[0] == "." then Names(segments[1..])
    else [segments[0]] + Names(segments[1..])
  }

  /** The path a manifest line names, if it is safe. */
  function ParsedPath(line: string): (r: Option<RelativePath>) {
    if line == [] || line[0] == '/' then None
    else
      var segments := Split(line, '/');
      var names := Names(segments);
      if segments[0] == "." || ".." in names || names == [] then None else Some(names)
  }

  function ParsedPaths(lines: seq<string>): (r: seq<RelativePath>)
    ensures forall p :: p in r ==> exists i :: 0 <= i < |lines| && ParsedPath(lines[i]) == Some(p)
  {
    if lines == [] then []
    else
      var before := ParsedPaths(lines[..|lines| - 1]);
      match ParsedPath(lines[|lines| - 1])
      case Some(p) => before + [p]
      case None => before
  }

  /** The loop of `parse_manifest_paths`. */
  method ParseManifestPaths(lines: seq<string>) returns (paths: seq<RelativePath>)
    ensures paths == ParsedPaths(lines)
  {
    paths := [];
    for i := 0 to |lines|
      invariant paths == ParsedPaths(lines[..i])
    {
      assert lines[..i + 1][..i] == lines[..i];
      var path := ParsedPath(lines[i]);
      if path.Some? {
        paths := paths + [path.value];
      }
    }
    assert lines[..|lines|] == lines;
  }

  // ---------------------------------------------------------------- the manifest text

  const HEADER_V2 := "# beanstalk-manifest v2"
  const HEADER_PREFIX := "# beanstalk-manifest "
  const BUILDER_PREFIX := "# builder: "
  const EXTENSIONS_PREFIX := "# managed_extensions: "

  function ManifestLines(paths: seq<RelativePath>, policy: CleanupPolicy): seq<string> {
    [HEADER_V2, BUILDER_PREFIX + ManifestName(policy.builder), EXTENSIONS_PREFIX + Join(policy.extensions, ',')]
    + SortBy(TextLeq, Map(Render, paths))
  }

  /** What `write_build_manifest` writes for a set of paths, listed in any order. */
  function Written(paths: seq<RelativePath>, policy: CleanupPolicy): string {
    Join(ManifestLines(paths, policy), '\n')
  }

  datatype ManifestFile = NotFound | Unreadable | Content(text: string)

  datatype SafeModeReason =
    | Missing
    | UnreadableManifest
    | UnsupportedVersion
    | InvalidMetadata
    | BuilderMismatch(manifest: Builder, active: Builder)
    | ExtensionsMismatch(manifestExtensions: Extensions, activeExtensions: Extensions)

  datatype LoadResult =
    | ValidV2(paths: seq<RelativePath>, builder: Builder)
    | LimitedSafeMode(reason: SafeModeReason)

  /** The lines after the version header. */
  function LoadedV2(lines: seq<string>, active: CleanupPolicy): LoadResult {
    if |lines| < 1 || StripPrefix(lines[0], BUILDER_PREFIX).None? then LimitedSafeMode(InvalidMetadata)
    else
      var builder := FromManifestName(StripPrefix(lines[0], BUILDER_PREFIX).value);
      if builder.None? then LimitedSafeMode(InvalidMetadata)
      else if |lines| < 2 || StripPrefix(lines[1], EXTENSIONS_PREFIX).None? then LimitedSafeMode(InvalidMetadata)
      else
        var extensions := ParsedExtensions(StripPrefix(lines[1], EXTENSIONS_PREFIX).value);
        if extensions.None? then LimitedSafeMode(InvalidMetadata)
        else if builder.value != active.builder then LimitedSafeMode(BuilderMismatch(builder.value, active.builder))
        else if extensions.value != active.extensions then
          LimitedSafeMode(ExtensionsMismatch(extensions.value, active.extensions))
        else ValidV2(ParsedPaths(lines[2..]), builder.value)
  }

  function Loaded(file: ManifestFile, active: CleanupPolicy): LoadResult {
    match file
    case NotFound => LimitedSafeMode(Missing)
    case Unreadable => LimitedSafeMode(UnreadableManifest)
    case Content(text) =>
      var lines := TrimmedLines(text);
      if lines == [] then LimitedSafeMode(InvalidMetadata)
      else if lines[0][0] != '#' then LimitedSafeMode(UnsupportedVersion)
      else if lines[0] != HEADER_V2 then
        LimitedSafeMode(if HEADER_PREFIX <= lines[0] then UnsupportedVersion else InvalidMetadata)
      else LoadedV2(lines[1..], active)
  }
}
