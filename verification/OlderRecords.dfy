/** Reading older records of the history. The first version is no longer written: it has no groups
    and no suite kind, and cases without a group, a median or metrics. */
module OlderRecords {
  import opened Wrappers
  import opened Sorting
  import opened JsonText
  import opened JsonArrays
  import opened JsonTokens
  import opened JsonObjects
  import opened JsonFields
  import opened BenchRecords
  import opened BenchGroups
  import opened BenchHistory
  import opened BenchRoundTrip

  datatype OldCase = OldCase(name: string, command: string, args: seq<string>, meanMs: Float, stddevMs: Float)

  datatype OldRun = OldRun(
    timestamp: string, monthKey: string, commit: Option<string>, systemUuid: string, publicSystemId: string,
    displayName: string, warmupRuns: nat, measuredIterations: nat, suiteMeanMs: Float, suiteStddevMs: Float,
    cases: seq<OldCase>)

  function OldCaseFields(ft: FloatText, c: OldCase): seq<Field> {
    [Field("name", TextValue(c.name)), Field("command", TextValue(c.command)),
     Field("args", ArrayValue(Strings(c.args))), Field("mean_ms", FloatToken(ft, c.meanMs)),
     Field("stddev_ms", FloatToken(ft, c.stddevMs))]
  }

  function OldInners(ft: FloatText, cases: seq<OldCase>): (r: seq<seq<Token>>)
    ensures |r| == |cases| && forall i :: 0 <= i < |r| ==> r[i] == FieldsInner(OldCaseFields(ft, cases[i]))
  {
    seq(|cases|, i requires 0 <= i < |cases| => FieldsInner(OldCaseFields(ft, cases[i])))
  }

  function OldRunFields(ft: FloatText, r: OldRun): (fields: seq<Field>)
    ensures |fields| == 12
  {
    [Field("format_version", Number(1)), Field("timestamp", TextValue(r.timestamp)),
     Field("month_key", TextValue(r.monthKey)), Field("commit", OptionalText(r.commit)),
     Field("system_uuid", TextValue(r.systemUuid)), Field("public_system_id", TextValue(r.publicSystemId)),
     Field("display_name", TextValue(r.displayName)), Field("warmup_runs", Number(r.warmupRuns)),
     Field("measured_iterations", Number(r.measuredIterations)),
     Field("suite_mean_ms", FloatToken(ft, r.suiteMeanMs)), Field("suite_stddev_ms", FloatToken(ft, r.suiteStddevMs)),
     Field("cases", ArrayValue(Objects(OldInners(ft, r.cases))))]
  }

  predicate OldCaseFits(ft: FloatText, c: OldCase) {
    PrintsBack(ft, c.meanMs) && PrintsBack(ft, c.stddevMs)
  }

  predicate OldRunFits(ft: FloatText, r: OldRun) {
    && FitsUsize(r.warmupRuns) && FitsUsize(r.measuredIterations)
    && PrintsBack(ft, r.suiteMeanMs) && PrintsBack(ft, r.suiteStddevMs)
    && forall i :: 0 <= i < |r.cases| ==> OldCaseFits(ft, r.cases[i])
  }

  // ---------------------------------------------------------------- the group of an old case

  predicate OccursAt(text: string, part: string, i: nat) {
    i + |part| <= |text| && text[i..i + |part|] == part
  }

  ghost predicate Occurs(text: string, part: string) {
    exists i: nat :: OccursAt(text, part, i)
  }

  lemma {:induction false} ContainsExactly(text: string, part: string)
    ensures Contains(text, part) <==> Occurs(text, part)
  {
    if part <= text {
      assert OccursAt(text, part, 0);
    } else if text != [] {
      ContainsExactly(text[1..], part);
      if i: nat :| OccursAt(text, part, i) {
        assert i > 0;
        assert OccursAt(text[1..], part, i - 1);
      }
      if i: nat :| OccursAt(text[1..], part, i) {
        assert text[i + 1..i + 1 + |part|] == text[1..][i..i + |part|];
        assert OccursAt(text, part, i + 1);
      }
    }
  }

  const STRESS_NAMES: seq<string> :=
    ["template-stress", "type-stress", "fold-stress", "pattern-stress", "collection-stress"]

  /** The group is told from the name, the command and the arguments, in that order of signs. */
  lemma LegacyGroupExactly(name: string, command: string, args: seq<string>)
    ensures
      var text, group := name + " " + command + Words(args), LegacyGroupName(name, command, args);
      var core, docs := Occurs(text, "speed-test.bst"), "docs" in args;
      var stress := exists k :: 0 <= k < |STRESS_NAMES| && Occurs(text, STRESS_NAMES[k]);
      var module_, borrow := Occurs(text, "module-graph"), Occurs(text, "borrow-stress");
      && (core ==> group == "core")
      && (!core && docs ==> group == "docs")
      && (!core && !docs && stress ==> group == "stress")
      && (!core && !docs && !stress && module_ ==> group == "module")
      && (!core && !docs && !stress && !module_ && borrow ==> group == "borrow")
      && (!core && !docs && !stress && !module_ && !borrow ==> group == "ungrouped")
  {
    hide Contains, Occurs, Words;
    var text := name + " " + command + Words(args);
    ContainsExactly(text, "speed-test.bst");
    forall k | 0 <= k < |STRESS_NAMES|
      ensures Contains(text, STRESS_NAMES[k]) <==> Occurs(text, STRESS_NAMES[k])
    {
      ContainsExactly(text, STRESS_NAMES[k]);
    }
    assert Occurs(text, STRESS_NAMES[0]) || Occurs(text, STRESS_NAMES[1]) || Occurs(text, STRESS_NAMES[2])
      || Occurs(text, STRESS_NAMES[3]) || Occurs(text, STRESS_NAMES[4])
      <==> exists k :: 0 <= k < |STRESS_NAMES| && Occurs(text, STRESS_NAMES[k]);
    ContainsExactly(text, "module-graph");
    ContainsExactly(text, "borrow-stress");
  }

  // ---------------------------------------------------------------- fields that are not there

  lemma NothingFound(field: string)
    ensures After([], KeyText(field)) == None
  {
  }

  /** The search for a name that no field has finds nothing. */
  lemma NoSuchField(fields: seq<Field>, name: string)
    requires FieldsOk(fields) && FieldName(name)
    requires forall j :: 0 <= j < |fields| ==> fields[j].name != name && Key(name) !in fields[j].value
    ensures After(FieldsText(fields), KeyText(name)) == None
  {
    hide FieldsOk, WellFormed, Balanced, KeyText, After, Render, FieldName;
    var whole := Object(FieldsInner(fields));
    ObjectOk(fields);
    KeysOfObject(fields, name);
    ClosedWellFormed(whole);
    TokensSkipped(whole, [], name);
    NothingFound(name);
    assert Render(whole) + [] == FieldsText(fields);
  }

  /** Well-formed before a comma is well-formed. */
  lemma {:induction false} ClosedWellFormed(tokens: seq<Token>)
    requires WellFormed(tokens + [Mark(',')]) && tokens != [] && tokens[|tokens| - 1].Mark?
    ensures WellFormed(tokens)
  {
    hide TokenOk;
    var more := tokens + [Mark(',')];
    assert more[0] == tokens[0] && more[1..] == tokens[1..] + [Mark(',')];
    if |tokens| > 1 {
      ClosedWellFormed(tokens[1..]);
    }
  }

  // ---------------------------------------------------------------- cases

  /** The case an old record stands for: its median is its mean, its group is told from its name. */
  function OldCaseAsRead(c: OldCase): Case {
    var name, command, args := FieldText(c.name), FieldText(c.command), Map(ItemText, c.args);
    Case(name, LegacyGroupName(name, command, args), command, args, c.meanMs, c.meanMs, c.stddevMs, [], [])
  }

  const OLD_CASE_NAMES: seq<string> := ["name", "command", "args", "mean_ms", "stddev_ms"]

  const NEW_CASE_NAMES: seq<string> := ["group_name", "median_ms", "stage_timings", "counters"]

  lemma OldCaseName(i: nat)
    requires i < 5
    ensures FieldName(OLD_CASE_NAMES[i])
  {
    hide FieldName;
    WordIsName(OLD_CASE_NAMES[i]);
  }

  lemma NewCaseName(i: nat)
    requires i < 4
    ensures FieldName(NEW_CASE_NAMES[i])
  {
    hide FieldName;
    WordIsName(NEW_CASE_NAMES[i]);
  }

  lemma OldCaseFieldsOk(ft: FloatText, c: OldCase)
    requires OldCaseFits(ft, c)
    ensures FieldsOk(OldCaseFields(ft, c))
  {
    hide WellFormed, Balanced, FieldName, PlainText, ArrayValue, Strings;
    forall i | 0 <= i < 5
      ensures FieldName(OLD_CASE_NAMES[i]) && OldCaseFields(ft, c)[i].name == OLD_CASE_NAMES[i]
    {
      OldCaseName(i);
    }
    TextOk(c.name);
    TextOk(c.command);
    StringsOk(c.args);
    ArrayIsNotEmpty(Strings(c.args));
    BareOk(ft.print_(c.meanMs));
    BareOk(ft.print_(c.stddevMs));
  }

  lemma OldCaseKeys(ft: FloatText, c: OldCase, j: nat, name: string)
    requires j < 5
    ensures Key(name) !in OldCaseFields(ft, c)[j].value
  {
    hide ArrayValue, Strings;
    if j == 2 {
      KeysOfStrings(c.args, name);
    }
  }

  lemma OldCaseFirst(ft: FloatText, c: OldCase, i: nat)
    requires i < 5
    ensures FirstOfName(OldCaseFields(ft, c), i)
  {
    hide ArrayValue, Strings, TextValue, FloatToken;
    var fields := OldCaseFields(ft, c);
    assert TagsApart(fields);
    forall j | 0 <= j < i
      ensures fields[j].name != fields[i].name && Key(fields[i].name) !in fields[j].value
    {
      assert Tag(fields[j].name) != Tag(fields[i].name);
      OldCaseKeys(ft, c, j, fields[i].name);
    }
  }

  lemma OldCaseLacks(ft: FloatText, c: OldCase, i: nat)
    requires OldCaseFits(ft, c) && i < 4
    ensures After(FieldsText(OldCaseFields(ft, c)), KeyText(NEW_CASE_NAMES[i])) == None
  {
    hide FieldName, FieldsOk, FieldsText, After, KeyText, ArrayValue, Strings, TextValue, FloatToken;
    var fields := OldCaseFields(ft, c);
    OldCaseFieldsOk(ft, c);
    NewCaseName(i);
    forall j | 0 <= j < |fields|
      ensures fields[j].name != NEW_CASE_NAMES[i] && Key(NEW_CASE_NAMES[i]) !in fields[j].value
    {
      assert Tag(fields[j].name) != Tag(NEW_CASE_NAMES[i]);
      OldCaseKeys(ft, c, j, NEW_CASE_NAMES[i]);
    }
    NoSuchField(fields, NEW_CASE_NAMES[i]);
  }

  lemma OldCaseReads(ft: FloatText, c: OldCase)
    requires OldCaseFits(ft, c)
    ensures ReadCase(ft, FieldsText(OldCaseFields(ft, c))) == Success(OldCaseAsRead(c))
  {
    hide FieldsText, FieldsOk, FirstOfName, StringField, FloatField, StringArray, MetricArray, LegacyGroupName, After;
    hide KeyText, FieldText, ItemText, Map, ArrayValue, Strings;
    var fields := OldCaseFields(ft, c);
    OldCaseFieldsOk(ft, c);
    forall i | 0 <= i < 5
      ensures FirstOfName(fields, i)
    {
      OldCaseFirst(ft, c, i);
    }
    ReadText(fields, 0, c.name);
    ReadText(fields, 1, c.command);
    ReadStrings(fields, 2, c.args);
    ReadFloat(ft, fields, 3, c.meanMs, ZERO);
    ReadFloat(ft, fields, 4, c.stddevMs, ZERO);
    OldCaseLacks(ft, c, 0);
    OldCaseLacks(ft, c, 1);
    OldCaseLacks(ft, c, 2);
    OldCaseLacks(ft, c, 3);
    DefaultsTaken(ft, FieldsText(fields), c);
  }

  /** What the reader takes for the four fields an old case lacks. */
  lemma DefaultsTaken(ft: FloatText, obj: string, c: OldCase)
    requires forall i :: 0 <= i < 4 ==> After(obj, KeyText(NEW_CASE_NAMES[i])) == None
    ensures StringField(obj, "group_name") == Success(None)
    ensures FloatField(ft, obj, "median_ms", c.meanMs) == c.meanMs
    ensures MetricArray(ft, obj, "stage_timings") == Success([]) && MetricArray(ft, obj, "counters") == Success([])
  {
    hide After, KeyText;
    assert NEW_CASE_NAMES[0] == "group_name" && NEW_CASE_NAMES[1] == "median_ms";
    assert NEW_CASE_NAMES[2] == "stage_timings" && NEW_CASE_NAMES[3] == "counters";
  }

  lemma OldInnersOk(ft: FloatText, cases: seq<OldCase>)
    requires forall i :: 0 <= i < |cases| ==> OldCaseFits(ft, cases[i])
    ensures
      var inners := OldInners(ft, cases);
      && (forall i :: 0 <= i < |inners| ==> TokensOk(inners[i]) && Balanced(inners[i]))
      && (forall i :: 0 <= i < |inners| ==>
          WellFormed(Objects(inners)[i] + [Mark(',')]) && Balanced(Objects(inners)[i]))
  {
    hide WellFormed, Balanced, OldCaseFits, TokensOk, FieldsInner, Object, OldCaseFields;
    forall i | 0 <= i < |cases|
      ensures TokensOk(OldInners(ft, cases)[i]) && Balanced(OldInners(ft, cases)[i])
      ensures WellFormed(Objects(OldInners(ft, cases))[i] + [Mark(',')])
      ensures Balanced(Objects(OldInners(ft, cases))[i])
    {
      OldCaseFieldsOk(ft, cases[i]);
      FieldsObjectOk(OldCaseFields(ft, cases[i]));
      ObjectOk(OldCaseFields(ft, cases[i]));
    }
  }

  lemma {:induction false} OldCasesRead(ft: FloatText, cases: seq<OldCase>)
    requires forall i :: 0 <= i < |cases| ==> OldCaseFits(ft, cases[i])
    ensures ReadCases(ft, Map(Render, Objects(OldInners(ft, cases)))) == Success(Map(OldCaseAsRead, cases))
  {
    hide OldCaseFits, ReadCase, Render, Object, FieldsInner, OldCaseFields, OldCaseAsRead;
    var texts := Map(Render, Objects(OldInners(ft, cases)));
    if cases != [] {
      OldCasesRead(ft, cases[1..]);
      OldCaseReads(ft, cases[0]);
      assert texts[0] == FieldsText(OldCaseFields(ft, cases[0]));
      assert texts[1..] == Map(Render, Objects(OldInners(ft, cases[1..])));
      assert [OldCaseAsRead(cases[0])] + Map(OldCaseAsRead, cases[1..]) == Map(OldCaseAsRead, cases);
    }
  }

  // ---------------------------------------------------------------- runs

  const OLD_RUN_NAMES: seq<string> :=
    ["format_version", "timestamp", "month_key", "commit", "system_uuid", "public_system_id", "display_name",
     "warmup_runs", "measured_iterations", "suite_mean_ms", "suite_stddev_ms", "cases"]

  lemma OldRunName(i: nat)
    requires i < 12
    ensures FieldName(OLD_RUN_NAMES[i])
  {
    hide FieldName;
    WordIsName(OLD_RUN_NAMES[i]);
  }

  lemma OldCommitOk(commit: Option<string>)
    ensures WellFormed(OptionalText(commit) + [Mark(',')]) && Balanced(OptionalText(commit))
    ensures |OptionalText(commit)| == 1 && !OptionalText(commit)[0].Key?
  {
    hide WellFormed, Balanced, PlainText, ParseUsize;
    NullIsPlain();
    BareOk("null");
    if commit.Some? {
      TextOk(commit.value);
    }
  }

  lemma OldRunFieldsOk(ft: FloatText, r: OldRun)
    requires OldRunFits(ft, r)
    ensures FieldsOk(OldRunFields(ft, r))
  {
    hide WellFormed, Balanced, FieldName, PlainText, OldCaseFits, ArrayValue, Printed, OptionalText, Objects, OldInners;
    forall i | 0 <= i < 12
      ensures FieldName(OLD_RUN_NAMES[i]) && OldRunFields(ft, r)[i].name == OLD_RUN_NAMES[i]
    {
      OldRunName(i);
    }
    NumberOk(1);
    TextOk(r.timestamp);
    TextOk(r.monthKey);
    OldCommitOk(r.commit);
    TextOk(r.systemUuid);
    TextOk(r.publicSystemId);
    TextOk(r.displayName);
    NumberOk(r.warmupRuns);
    NumberOk(r.measuredIterations);
    BareOk(ft.print_(r.suiteMeanMs));
    BareOk(ft.print_(r.suiteStddevMs));
    OldCasesOk(ft, r.cases);
  }

  lemma OldCasesOk(ft: FloatText, cases: seq<OldCase>)
    requires forall i :: 0 <= i < |cases| ==> OldCaseFits(ft, cases[i])
    ensures
      var value := ArrayValue(Objects(OldInners(ft, cases)));
      value != [] && WellFormed(value + [Mark(',')]) && Balanced(value)
  {
    hide WellFormed, Balanced, OldCaseFits, ArrayValue;
    OldInnersOk(ft, cases);
    ArrayOk(Objects(OldInners(ft, cases)));
    ArrayIsNotEmpty(Objects(OldInners(ft, cases)));
  }

  lemma OldRunTags(ft: FloatText, r: OldRun)
    ensures TagsApart(OldRunFields(ft, r))
  {
    hide TextValue, FloatToken, ArrayValue, Objects, Number, OptionalText;
  }

  lemma OldRunKeys(ft: FloatText, r: OldRun, j: nat, name: string)
    requires j < 11
    ensures Key(name) !in OldRunFields(ft, r)[j].value
  {
    hide ArrayValue, Printed, Objects, OldInners, OptionalText;
    OldCommitOk(r.commit);
    var value := OldRunFields(ft, r)[j].value;
    assert |value| == 1 && !value[0].Key?;
  }

  lemma OldRunFirst(ft: FloatText, r: OldRun, i: nat)
    requires i < 12
    ensures FirstOfName(OldRunFields(ft, r), i)
  {
    hide OldRunFields;
    OldRunTags(ft, r);
    var fields := OldRunFields(ft, r);
    forall j | 0 <= j < i
      ensures fields[j].name != fields[i].name && Key(fields[i].name) !in fields[j].value
    {
      assert Tag(fields[j].name) != Tag(fields[i].name);
      OldRunKeys(ft, r, j, fields[i].name);
    }
  }

  lemma OldScalarsRead(ft: FloatText, r: OldRun)
    requires OldRunFits(ft, r)
    ensures
      var line := FieldsText(OldRunFields(ft, r));
      && U32Field(line, "format_version") == Some(1)
      && StringField(line, "timestamp") == Success(Some(FieldText(r.timestamp)))
      && StringField(line, "month_key") == Success(Some(FieldText(r.monthKey)))
      && StringField(line, "commit") == Success(OptionalAsRead(r.commit))
      && StringField(line, "system_uuid") == Success(Some(FieldText(r.systemUuid)))
      && StringField(line, "public_system_id") == Success(Some(FieldText(r.publicSystemId)))
      && StringField(line, "display_name") == Success(Some(FieldText(r.displayName)))
      && UsizeField(line, "warmup_runs") == Some(r.warmupRuns)
      && UsizeField(line, "measured_iterations") == Some(r.measuredIterations)
      && FloatField(ft, line, "suite_mean_ms", ZERO) == r.suiteMeanMs
      && FloatField(ft, line, "suite_stddev_ms", ZERO) == r.suiteStddevMs
  {
    hide FieldsText, FieldsOk, FirstOfName, StringField, FloatField, UsizeField, OldCaseFits, PrintsBack, Printed;
    hide ArrayValue, Objects, OldInners, FieldText, PlainText, ParseUsize;
    var fields := OldRunFields(ft, r);
    OldRunFieldsOk(ft, r);
    forall i | 0 <= i < 12
      ensures FirstOfName(fields, i)
    {
      OldRunFirst(ft, r, i);
    }
    ReadNumber(fields, 0, 1);
    ReadText(fields, 1, r.timestamp);
    ReadText(fields, 2, r.monthKey);
    if r.commit.Some? {
      ReadText(fields, 3, r.commit.value);
    } else {
      NullIsPlain();
      ReadBare(fields, 3, "null");
    }
    ReadText(fields, 4, r.systemUuid);
    ReadText(fields, 5, r.publicSystemId);
    ReadText(fields, 6, r.displayName);
    ReadNumber(fields, 7, r.warmupRuns);
    ReadNumber(fields, 8, r.measuredIterations);
    ReadFloat(ft, fields, 9, r.suiteMeanMs, ZERO);
    ReadFloat(ft, fields, 10, r.suiteStddevMs, ZERO);
  }

  lemma OldCaseObjects(ft: FloatText, r: OldRun)
    requires OldRunFits(ft, r)
    ensures RequiredObjects(FieldsText(OldRunFields(ft, r)), "cases")
         == Success(Map(Render, Objects(OldInners(ft, r.cases))))
  {
    hide FieldsText, FieldsOk, FirstOfName, RequiredObjects, OldCaseFits, PrintsBack, ArrayValue, Objects, OldInners;
    hide OptionalText, TokensOk, Balanced, WellFormed, Printed;
    OldRunFieldsOk(ft, r);
    OldRunFirst(ft, r, 11);
    OldInnersOk(ft, r.cases);
    ReadObjectArray(OldRunFields(ft, r), 11, OldInners(ft, r.cases));
  }

  /** A record of the first version reads as a run of the command-line suite with its own mean and
      deviation, its cases with their groups told from their names, and the statistics of those
      groups. */
  lemma FirstVersionReads(ft: FloatText, r: OldRun)
    requires OldRunFits(ft, r)
    ensures
      var cases := Map(OldCaseAsRead, r.cases);
      ReadRun(ft, FieldsText(OldRunFields(ft, r))) == Success(Run(
        1, FieldText(r.timestamp), FieldText(r.monthKey), OptionalAsRead(r.commit), FieldText(r.systemUuid),
        FieldText(r.publicSystemId), FieldText(r.displayName), r.warmupRuns, r.measuredIterations,
        "end_to_end_cli", "wall_time_ms", r.suiteMeanMs, r.suiteStddevMs, None, GroupStats(ft, cases), cases))
  {
    hide FieldsText, StringField, FloatField, UsizeField, U32Field, RequiredObjects, ReadCases, GroupStats;
    hide OldCaseFits, PrintsBack, Map, Objects, OldInners, FieldText, OldRunFields;
    OldScalarsRead(ft, r);
    OldCaseObjects(ft, r);
    OldCasesRead(ft, r.cases);
  }

  // ---------------------------------------------------------------- later records with fields missing

  lemma Missing(ft: FloatText, line: string, field: string, n: nat, x: Float, text: string)
    requires After(line, KeyText(field)) == None
    ensures UsizeOr(line, field, n) == n && FloatField(ft, line, field, x) == x && U32Field(line, field) == None
    ensures TextOr(line, field, text) == Success(text) && StringField(line, field) == Success(None)
    ensures RequiredText(line, field).Failure? && RequiredObjects(line, field).Failure?
  {
    hide After, KeyText;
  }

  /** Where each field of a grouped run comes from. */
  lemma GroupedSources(ft: FloatText, line: string, run: Run)
    requires ReadGroupedRun(ft, line) == Success(run)
    ensures run.warmupRuns == UsizeOr(line, "warmup_runs", 1)
    ensures run.measuredIterations == UsizeOr(line, "measured_iterations", 10)
    ensures TextOr(line, "suite_kind", "end_to_end_cli") == Success(run.suiteKind)
    ensures TextOr(line, "primary_metric_name", DefaultMetricName(run.suiteKind)) == Success(run.primaryMetricName)
    ensures run.suiteAverageMs == FloatField(ft, line, "suite_average_ms", ZERO)
    ensures run.suiteCaseSpreadMs == FloatField(ft, line, "suite_case_spread_ms", ZERO)
    ensures run.threadCount == U32Field(line, "thread_count") && StringField(line, "commit") == Success(run.commit)
    ensures RequiredText(line, "timestamp").Success? && RequiredObjects(line, "cases").Success?
  {
    hide UsizeOr, TextOr, FloatField, U32Field, StringField, RequiredText, RequiredObjects, ReadCases, ReadGroups;
    hide DefaultMetricName;
  }

  /** What a grouped record without some of the later fields is read with. */
  lemma GroupedDefaults(ft: FloatText, line: string, run: Run, field: string)
    requires ReadGroupedRun(ft, line) == Success(run) && After(line, KeyText(field)) == None
    ensures field != "timestamp" && field != "cases"
    ensures field == "warmup_runs" ==> run.warmupRuns == 1
    ensures field == "measured_iterations" ==> run.measuredIterations == 10
    ensures field == "suite_kind" ==> run.suiteKind == "end_to_end_cli"
    ensures field == "primary_metric_name" ==>
        run.primaryMetricName == if run.suiteKind == "frontend_phases" then "frontend_total_ms" else "wall_time_ms"
    ensures field == "suite_average_ms" ==> run.suiteAverageMs == 0
    ensures field == "suite_case_spread_ms" ==> run.suiteCaseSpreadMs == 0
    ensures field == "thread_count" ==> run.threadCount == None
    ensures field == "commit" ==> run.commit == None
  {
    hide After, KeyText, UsizeOr, TextOr, FloatField, U32Field, StringField, RequiredText, RequiredObjects;
    hide ReadGroupedRun;
    GroupedSources(ft, line, run);
    var text := if field == "suite_kind" then "end_to_end_cli" else DefaultMetricName(run.suiteKind);
    Missing(ft, line, field, if field == "warmup_runs" then 1 else 10, ZERO, text);
  }
}
