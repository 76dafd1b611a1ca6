/** The local benchmark history: one line of JSON per run. */
module BenchHistory {
  import opened Wrappers
  import opened Sorting
  import opened TextLines
  import opened JsonText
  import opened JsonArrays
  import opened JsonTokens
  import opened JsonObjects
  import opened JsonFields
  import opened BenchRecords
  import opened BenchGroups

  // ---------------------------------------------------------------- writing

  function Number(n: nat): seq<Token> {
    BareValue(Printed(n))
  }

  function FloatToken(ft: FloatText, x: Float): seq<Token> {
    BareValue(ft.print_(x))
  }

  function OptionalText(s: Option<string>): seq<Token> {
    match s
    case Some(text) => TextValue(text)
    case None => BareValue("null")
  }

  function OptionalNumber(n: Option<nat>): seq<Token> {
    match n
    case Some(value) => Number(value)
    case None => BareValue("null")
  }

  function MetricFields(ft: FloatText, m: Metric): seq<Field> {
    [Field("name", TextValue(m.name)), Field("value", FloatToken(ft, m.value))]
  }

  function GroupFields(ft: FloatText, g: Group): seq<Field> {
    [Field("name", TextValue(g.name)), Field("case_count", Number(g.caseCount)),
     Field("average_ms", FloatToken(ft, g.averageMs))]
  }

  function CaseFields(ft: FloatText, c: Case): seq<Field> {
    [Field("name", TextValue(c.name)), Field("group_name", TextValue(c.groupName)),
     Field("command", TextValue(c.command)),
     Field("args", ArrayValue(Strings(c.args))), Field("mean_ms", FloatToken(ft, c.meanMs)),
     Field("median_ms", FloatToken(ft, c.medianMs)), Field("stddev_ms", FloatToken(ft, c.stddevMs)),
     Field("stage_timings", ArrayValue(Objects(MetricInners(ft, c.stageTimings)))),
     Field("counters", ArrayValue(Objects(MetricInners(ft, c.counters))))]
  }

  function RunFields(ft: FloatText, r: Run): seq<Field> {
    [Field("format_version", Number(r.formatVersion)), Field("timestamp", TextValue(r.timestamp)),
     Field("month_key", TextValue(r.monthKey)), Field("commit", OptionalText(r.commit)),
     Field("system_uuid", TextValue(r.systemUuid)), Field("public_system_id", TextValue(r.publicSystemId)),
     Field("display_name", TextValue(r.displayName)), Field("warmup_runs", Number(r.warmupRuns)),
     Field("measured_iterations", Number(r.measuredIterations)), Field("suite_kind", TextValue(r.suiteKind)),
     Field("primary_metric_name", TextValue(r.primaryMetricName)),
     Field("suite_average_ms", FloatToken(ft, r.suiteAverageMs)),
     Field("suite_case_spread_ms", FloatToken(ft, r.suiteCaseSpreadMs)),
     Field("thread_count", OptionalNumber(r.threadCount)),
     Field("groups", ArrayValue(Objects(GroupInners(ft, r.groups)))),
     Field("cases", ArrayValue(Objects(CaseInners(ft, r.cases))))]
  }

  function MetricInners(ft: FloatText, metrics: seq<Metric>): (r: seq<seq<Token>>)
    ensures |r| == |metrics| && forall i :: 0 <= i < |r| ==> r[i] == FieldsInner(MetricFields(ft, metrics[i]))
  {
    seq(|metrics|, i requires 0 <= i < |metrics| => FieldsInner(MetricFields(ft, metrics[i])))
  }

  function GroupInners(ft: FloatText, groups: seq<Group>): (r: seq<seq<Token>>)
    ensures |r| == |groups| && forall i :: 0 <= i < |r| ==> r[i] == FieldsInner(GroupFields(ft, groups[i]))
  {
    seq(|groups|, i requires 0 <= i < |groups| => FieldsInner(GroupFields(ft, groups[i])))
  }

  function CaseInners(ft: FloatText, cases: seq<Case>): (r: seq<seq<Token>>)
    ensures |r| == |cases| && forall i :: 0 <= i < |r| ==> r[i] == FieldsInner(CaseFields(ft, cases[i]))
  {
    seq(|cases|, i requires 0 <= i < |cases| => FieldsInner(CaseFields(ft, cases[i])))
  }

  /** `format_record_as_jsonl`: the fields of a run joined by commas, in braces. */
  function FormatRun(ft: FloatText, r: Run): string {
    FieldsText(RunFields(ft, r))
  }

  /** That text, as the parts of a run joined by commas. */
  lemma FormatIsJoined(ft: FloatText, r: Run)
    ensures FormatRun(ft, r) == ['{'] + Join(Map(Render, Map(FieldTokens, RunFields(ft, r))), ',') + ['}']
  {
    hide RunFields, Render, FieldTokens;
    RenderObject(FieldsInner(RunFields(ft, r)));
    RenderListed(Map(FieldTokens, RunFields(ft, r)));
  }

  // ---------------------------------------------------------------- reading

  function FloatField(ft: FloatText, line: string, field: string, default: Float): Float {
    match RawField(line, field)
    case Some(text) => (match ft.parse(text) case Some(x) => x case None => default)
    case None => default
  }

  function UsizeOr(line: string, field: string, default: nat): nat {
    match UsizeField(line, field)
    case Some(n) => n
    case None => default
  }

  function TextOr(line: string, field: string, default: string): Result<string, ReadError> {
    var text :- StringField(line, field);
    Success(if text.Some? then text.value else default)
  }

  function RequiredText(line: string, field: string): Result<string, ReadError> {
    var text :- StringField(line, field);
    match text
    case Some(s) => Success(s)
    case None => Failure(MissingField(field))
  }

  function ReadMetric(ft: FloatText, obj: string): Result<Metric, ReadError> {
    var name :- RequiredText(obj, "name");
    Success(Metric(name, FloatField(ft, obj, "value", ZERO)))
  }

  function ReadMetrics(ft: FloatText, objs: seq<string>): Result<seq<Metric>, ReadError> {
    if objs == [] then Success([])
    else
      var first :- ReadMetric(ft, objs[0]);
      var others :- ReadMetrics(ft, objs[1..]);
      Success([first] + others)
  }

  /** A missing metric array reads as an empty one. */
  function MetricArray(ft: FloatText, obj: string, field: string): Result<seq<Metric>, ReadError> {
    match After(obj, KeyText(field))
    case None => Success([])
    case Some(found) =>
      var objs :- ObjectItems(found, field);
      ReadMetrics(ft, objs)
  }

  function ReadGroup(ft: FloatText, obj: string): Result<Group, ReadError> {
    var name :- RequiredText(obj, "name");
    Success(Group(name, UsizeOr(obj, "case_count", 0), FloatField(ft, obj, "average_ms", ZERO)))
  }

  function ReadGroups(ft: FloatText, objs: seq<string>): Result<seq<Group>, ReadError> {
    if objs == [] then Success([])
    else
      var first :- ReadGroup(ft, objs[0]);
      var others :- ReadGroups(ft, objs[1..]);
      Success([first] + others)
  }

  predicate Contains(text: string, part: string) {
    After(text, part).Some?
  }

  function Words(words: seq<string>): string {
    if words == [] then [] else [' '] + words[0] + Words(words[1..])
  }

  /** `infer_legacy_group_name`, for cases written before groups were. */
  function LegacyGroupName(name: string, command: string, args: seq<string>): string {
    var text := name + [' '] + command + Words(args);
    if Contains(text, "speed-test.bst") then "core"
    else if "docs" in args then "docs"
    else if Contains(text, "template-stress") || Contains(text, "type-stress") || Contains(text, "fold-stress")
            || Contains(text, "pattern-stress") || Contains(text, "collection-stress") then "stress"
    else if Contains(text, "module-graph") then "module"
    else if Contains(text, "borrow-stress") then "borrow"
    else "ungrouped"
  }

  function ReadCase(ft: FloatText, obj: string): Result<Case, ReadError> {
    var name :- RequiredText(obj, "name");
    var command :- RequiredText(obj, "command");
    var mean := FloatField(ft, obj, "mean_ms", ZERO);
    var median := FloatField(ft, obj, "median_ms", mean);
    var stddev := FloatField(ft, obj, "stddev_ms", ZERO);
    var args :- StringArray(obj, "args");
    var groupName :- TextOr(obj, "group_name", LegacyGroupName(name, command, args));
    var stageTimings :- MetricArray(ft, obj, "stage_timings");
    var counters :- MetricArray(ft, obj, "counters");
    Success(Case(name, groupName, command, args, mean, median, stddev, stageTimings, counters))
  }

  function ReadCases(ft: FloatText, objs: seq<string>): Result<seq<Case>, ReadError> {
    if objs == [] then Success([])
    else
      var first :- ReadCase(ft, objs[0]);
      var others :- ReadCases(ft, objs[1..]);
      Success([first] + others)
  }

  /** The objects of an array the line must have. */
  function RequiredObjects(line: string, field: string): Result<seq<string>, ReadError> {
    match After(line, KeyText(field))
    case None => Failure(MissingField(field))
    case Some(found) => ObjectItems(found, field)
  }

  function DefaultMetricName(suiteKind: string): string {
    if suiteKind == "frontend_phases" then "frontend_total_ms" else "wall_time_ms"
  }

  /** `parse_grouped_record`. */
  function ReadGroupedRun(ft: FloatText, line: string): Result<Run, ReadError> {
    var timestamp :- RequiredText(line, "timestamp");
    var monthKey :- RequiredText(line, "month_key");
    var systemUuid :- RequiredText(line, "system_uuid");
    var publicSystemId :- RequiredText(line, "public_system_id");
    var displayName :- RequiredText(line, "display_name");
    var commit :- StringField(line, "commit");
    var caseObjects :- RequiredObjects(line, "cases");
    var cases :- ReadCases(ft, caseObjects);
    var groupObjects :- RequiredObjects(line, "groups");
    var groups :- ReadGroups(ft, groupObjects);
    var suiteKind :- TextOr(line, "suite_kind", "end_to_end_cli");
    var primaryMetricName :- TextOr(line, "primary_metric_name", DefaultMetricName(suiteKind));
    var version := U32Field(line, "format_version");
    Success(Run(
      if version.Some? then version.value else 2,
      timestamp, monthKey, commit, systemUuid, publicSystemId, displayName,
      UsizeOr(line, "warmup_runs", 1), UsizeOr(line, "measured_iterations", 10),
      suiteKind, primaryMetricName,
      FloatField(ft, line, "suite_average_ms", ZERO), FloatField(ft, line, "suite_case_spread_ms", ZERO),
      U32Field(line, "thread_count"), groups, cases))
  }

  /** `parse_v1_record`: the groups are computed from the cases. */
  function ReadFirstVersion(ft: FloatText, line: string): Result<Run, ReadError> {
    var timestamp :- RequiredText(line, "timestamp");
    var monthKey :- RequiredText(line, "month_key");
    var systemUuid :- RequiredText(line, "system_uuid");
    var publicSystemId :- RequiredText(line, "public_system_id");
    var displayName :- RequiredText(line, "display_name");
    var commit :- StringField(line, "commit");
    var caseObjects :- RequiredObjects(line, "cases");
    var cases :- ReadCases(ft, caseObjects);
    Success(Run(
      1, timestamp, monthKey, commit, systemUuid, publicSystemId, displayName,
      UsizeOr(line, "warmup_runs", 1), UsizeOr(line, "measured_iterations", 10), "end_to_end_cli", "wall_time_ms",
      FloatField(ft, line, "suite_mean_ms", ZERO), FloatField(ft, line, "suite_stddev_ms", ZERO),
      None, GroupStats(ft, cases), cases))
  }

  /** `parse_jsonl_line`. */
  function ReadRun(ft: FloatText, line: string): Result<Run, ReadError> {
    match U32Field(line, "format_version")
    case None => Failure(MissingField("format_version"))
    case Some(version) =>
      if version == 1 then ReadFirstVersion(ft, line)
      else if 2 <= version <= 5 then ReadGroupedRun(ft, line)
      else Failure(UnsupportedVersion)
  }

  /** The run on one line of the file, unless the line is skipped. None when the source panics. */
  function RunOfLine(ft: FloatText, line: string): Option<seq<Run>> {
    match U32Field(line, "format_version")
    case None => Some([])
    case Some(version) =>
      if version > FORMAT_VERSION then Some([])
      else
        match ReadRun(ft, line)
        case Success(run) => Some([run])
        case Failure(CutCharacter) => None
        case Failure(_) => Some([])
  }

  function RunsOfLines(ft: FloatText, lines: seq<string>): Option<seq<Run>> {
    if lines == [] then Some([])
    else Joined(RunsOfLines(ft, lines[..|lines| - 1]), RunOfLine(ft, lines[|lines| - 1]))
  }

  function Joined(before: Option<seq<Run>>, more: Option<seq<Run>>): Option<seq<Run>> {
    if before.Some? && more.Some? then Some(before.value + more.value) else None
  }

  lemma NoRuns(ft: FloatText, lines: seq<string>)
    ensures RunsOfLines(ft, lines[..0]) == Some([])
  {
  }

  lemma OneMoreLine(ft: FloatText, lines: seq<string>, i: nat)
    requires i < |lines|
    ensures RunsOfLines(ft, lines[..i + 1]) == Joined(RunsOfLines(ft, lines[..i]), RunOfLine(ft, lines[i]))
  {
    hide RunOfLine;
    assert lines[..i + 1][..i] == lines[..i];
  }

  /** After a line at which the source panics nothing is returned. */
  lemma {:induction false} NothingAfterPanic(ft: FloatText, lines: seq<string>, i: nat)
    requires i <= |lines| && RunsOfLines(ft, lines[..i]) == None
    ensures RunsOfLines(ft, lines) == None
    decreases |lines| - i
  {
    hide RunsOfLines, RunOfLine;
    if i == |lines| {
      assert lines[..i] == lines;
    } else {
      OneMoreLine(ft, lines, i);
      NothingAfterPanic(ft, lines, i + 1);
    }
  }

  /** `read_local_runs` on the contents of the file; none when the source panics. */
  method ReadLocalRuns(ft: FloatText, contents: string) returns (r: Option<seq<Run>>)
    ensures r == RunsOfLines(ft, TrimmedLines(contents))
  {
    hide U32Field, ReadRun, RunsOfLines, TrimmedLines, AllOneLines;
    var runs: seq<Run> := [];
    var lines := TrimmedLines(contents);
    NoRuns(ft, lines);
    for i := 0 to |lines|
      invariant RunsOfLines(ft, lines[..i]) == Some(runs)
    {
      OneMoreLine(ft, lines, i);
      assert runs + [] == runs;
      var version := U32Field(lines[i], "format_version");
      if version.None? {
        continue;
      }
      if version.value > FORMAT_VERSION {
        continue;
      }
      var record := ReadRun(ft, lines[i]);
      if record.Success? {
        runs := runs + [record.value];
      } else if record.error.CutCharacter? {
        NothingAfterPanic(ft, lines, i + 1);
        return None;
      }
    }
    assert lines[..|lines|] == lines;
    return Some(runs);
  }
}
