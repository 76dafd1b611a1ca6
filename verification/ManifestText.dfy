/** The characters of a manifest, and which outputs it lists. */
module ManifestText {
  import opened Wrappers
  import opened Sorting
  import opened TextLines
  import opened BuildManifest
  import opened OutputCleanup
  import opened OutputHistory

  function HeadText(builder: Builder): string {
    "# beanstalk-manifest v2\n"
    + (match builder case Generic => "# builder: generic\n" case Html => "# builder: html\n")
    + "# managed_extensions: "
  }

  /** Every path on a line of its own. */
  function PathLines(paths: seq<RelativePath>): string {
    if paths == [] then [] else "\n" + Join(paths[0], '/') + PathLines(paths[1..])
  }

  lemma {:induction false} JoinedPaths(first: string, paths: seq<RelativePath>)
    ensures Join([first] + Map(Render, paths), '\n') == first + PathLines(paths)
    decreases |paths|
  {
    var parts := [first] + Map(Render, paths);
    if paths != [] {
      JoinedPaths(Render(paths[0]), paths[1..]);
      assert parts[1..] == [Render(paths[0])] + Map(Render, paths[1..]);
    }
  }

  lemma HeadersJoined(a: string, b: string, c: string, paths: seq<RelativePath>)
    ensures Join([a, b, c] + Map(Render, paths), '\n') == a + "\n" + b + "\n" + (c + PathLines(paths))
  {
    hide PathLines;
    var rest := [c] + Map(Render, paths);
    JoinedPaths(c, paths);
    assert ([a, b] + rest)[1..] == [b] + rest && ([b] + rest)[1..] == rest;
    assert [a, b, c] + Map(Render, paths) == [a, b] + rest;
  }

  /** A manifest is the header, the builder, the extensions between commas, and the tracked paths
      one to a line, in ascending order. */
  lemma ManifestIsText(paths: seq<RelativePath>, policy: CleanupPolicy) returns (order: seq<RelativePath>)
    ensures multiset(order) == multiset(paths)
    ensures forall i, j :: 0 <= i < j < |order| ==>
        Join(order[i], '/') == Join(order[j], '/') || TextBefore(Join(order[i], '/'), Join(order[j], '/'))
    ensures Written(paths, policy) == HeadText(policy.builder) + Join(policy.extensions, ',') + PathLines(order)
  {
    hide SortBy, PathLines, TextLeq;
    var lines := SortBy(TextLeq, Map(Render, paths));
    order := RearrangedImages(Render, paths, lines);
    assert lines == Map(Render, order);
    TextLinear();
    SortBySorts(TextLeq, Map(Render, paths));
    forall i, j | 0 <= i < j < |order|
      ensures Join(order[i], '/') == Join(order[j], '/') || TextBefore(Join(order[i], '/'), Join(order[j], '/'))
    {
      assert TextLeq(lines[i], lines[j]) && lines[i] == Render(order[i]) && lines[j] == Render(order[j]);
      if lines[i] != lines[j] {
        LeqIsBefore(lines[i], lines[j]);
      }
    }
    var extensions := Join(policy.extensions, ',');
    HeadersJoined(
      HEADER_V2, BUILDER_PREFIX + ManifestName(policy.builder), EXTENSIONS_PREFIX + extensions, order);
    HeadIsHeaders(policy.builder, extensions, PathLines(order));
  }

  lemma HeadIsHeaders(builder: Builder, extensions: string, lines: string)
    ensures HEADER_V2 + "\n" + (BUILDER_PREFIX + ManifestName(builder)) + "\n"
          + (EXTENSIONS_PREFIX + extensions + lines)
         == HeadText(builder) + extensions + lines
  {
    var second := BUILDER_PREFIX + ManifestName(builder);
    FirstLine();
    SecondLine(builder);
    Regrouped(HEADER_V2, second, EXTENSIONS_PREFIX, extensions, lines);
  }

  lemma Regrouped(a: string, b: string, c: string, d: string, e: string)
    ensures a + "\n" + b + "\n" + (c + d + e) == ((a + "\n") + (b + "\n") + c) + d + e
  {
  }

  lemma FirstLine()
    ensures HEADER_V2 + "\n" == "# beanstalk-manifest v2\n"
  {
  }

  lemma SecondLine(builder: Builder)
    ensures BUILDER_PREFIX + ManifestName(builder) + "\n"
         == match builder case Generic => "# builder: generic\n" case Html => "# builder: html\n"
  {
  }

  /** An output is tracked when it is raw bytes, or a file whose name ends in a dot and an extension
      the policy manages. */
  lemma TrackedByName(policy: CleanupPolicy, output: OutputFile)
    requires output.path != []
    ensures IsTracked(policy, output) <==>
      || output.kind.Bytes?
      || ((output.kind.Js? || output.kind.HtmlText? || output.kind.Wasm?) &&
          exists e :: EndsDotted(output.path[|output.path| - 1], e) && ['.'] + AsciiLower(e) in policy.extensions)
  {
    hide Extension, EndsDotted, AsciiLower;
    var name := output.path[|output.path| - 1];
    if Extension(name).Some? {
      ExtensionAfterLastDot(name, Extension(name).value);
    }
    if e :| EndsDotted(name, e) && ['.'] + AsciiLower(e) in policy.extensions {
      ExtensionAfterLastDot(name, e);
    }
  }
}
