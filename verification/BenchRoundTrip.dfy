/** Reading back what the benchmark history wrote. */
module BenchRoundTrip {
  import opened Wrappers
  import opened Sorting
  import opened TextLines
  import opened Decimals
  import opened JsonText
  import opened JsonArrays
  import opened JsonTokens
  import opened JsonObjects
  import opened JsonFields
  import opened BenchRecords
  import opened BenchHistory

  // ---------------------------------------------------------------- runs that fit

  /** The float prints as plain text that parses back to it. */
  predicate PrintsBack(ft: FloatText, x: Float) {
    PlainText(ft.print_(x)) && ft.parse(ft.print_(x)) == Some(x)
  }

  predicate MetricFits(ft: FloatText, m: Metric) {
    PrintsBack(ft, m.value)
  }

  predicate FitsUsize(n: nat) {
    n < 0x1_0000_0000_0000_0000
  }

  predicate GroupFits(ft: FloatText, g: Group) {
    FitsUsize(g.caseCount) && PrintsBack(ft, g.averageMs)
  }

  predicate CaseFits(ft: FloatText, c: Case) {
    && PrintsBack(ft, c.meanMs) && PrintsBack(ft, c.medianMs) && PrintsBack(ft, c.stddevMs)
    && (forall i :: 0 <= i < |c.stageTimings| ==> MetricFits(ft, c.stageTimings[i]))
    && (forall i :: 0 <= i < |c.counters| ==> MetricFits(ft, c.counters[i]))
  }

  /** A run of a grouped format with in-range numbers and printable floats, and any texts. */
  predicate RunFits(ft: FloatText, r: Run) {
    && 2 <= r.formatVersion <= FORMAT_VERSION
    && FitsUsize(r.warmupRuns) && FitsUsize(r.measuredIterations)
    && PrintsBack(ft, r.suiteAverageMs) && PrintsBack(ft, r.suiteCaseSpreadMs)
    && (r.threadCount.Some? ==> r.threadCount.value < 0x1_0000_0000)
    && (forall i :: 0 <= i < |r.groups| ==> GroupFits(ft, r.groups[i]))
    && (forall i :: 0 <= i < |r.cases| ==> CaseFits(ft, r.cases[i]))
  }

  // ---------------------------------------------------------------- runs as they read back

  function MetricAsRead(m: Metric): Metric {
    m.(name := FieldText(m.name))
  }

  function GroupAsRead(g: Group): Group {
    g.(name := FieldText(g.name))
  }

  /** Its arguments keep their `\u` escapes undecoded; every other text reads as a string field. */
  function CaseAsRead(c: Case): Case {
    c.(name := FieldText(c.name), groupName := FieldText(c.groupName), command := FieldText(c.command),
       args := Map(ItemText, c.args), stageTimings := Map(MetricAsRead, c.stageTimings),
       counters := Map(MetricAsRead, c.counters))
  }

  function OptionalAsRead(s: Option<string>): Option<string> {
    match s
    case Some(text) => Some(FieldText(text))
    case None => None
  }

  function RunAsRead(r: Run): Run {
    r.(timestamp := FieldText(r.timestamp), monthKey := FieldText(r.monthKey), commit := OptionalAsRead(r.commit),
       systemUuid := FieldText(r.systemUuid), publicSystemId := FieldText(r.publicSystemId),
       displayName := FieldText(r.displayName), suiteKind := FieldText(r.suiteKind),
       primaryMetricName := FieldText(r.primaryMetricName), groups := Map(GroupAsRead, r.groups),
       cases := Map(CaseAsRead, r.cases))
  }

  // ---------------------------------------------------------------- numbers

  lemma PrintedIsPlain(n: nat)
    ensures PlainText(Printed(n))
  {
    DigitsAreDigits(n, Width(n));
  }

  lemma NullIsPlain()
    ensures PlainText("null") && ParseUsize("null") == None
  {
    assert "null"[..3] == "nul" && "nul"[..2] == "nu" && "nu"[..1] == "n" && "n"[..0] == [];
    assert ParseDigits("n") == None;
    assert ParseDigits("nu") == None;
    assert ParseDigits("nul") == None;
  }

  lemma NumberOk(n: nat)
    ensures WellFormed(Number(n) + [Mark(',')]) && Balanced(Number(n))
  {
    hide WellFormed, Balanced, Printed, PlainText;
    PrintedIsPlain(n);
    BareOk(Printed(n));
  }

  lemma ReadNumber(fields: seq<Field>, i: nat, n: nat)
    requires FieldsOk(fields) && i < |fields| && FirstOfName(fields, i)
    requires fields[i].value == Number(n) && FitsUsize(n)
    ensures UsizeField(FieldsText(fields), fields[i].name) == Some(n)
  {
    hide RawField, FieldsText, FieldsOk, FirstOfName, Printed, PlainText;
    PrintedIsPlain(n);
    ReadBare(fields, i, Printed(n));
    PrintedReadsBack(n);
  }

  lemma ReadFloat(ft: FloatText, fields: seq<Field>, i: nat, x: Float, default: Float)
    requires FieldsOk(fields) && i < |fields| && FirstOfName(fields, i)
    requires fields[i].value == FloatToken(ft, x) && PrintsBack(ft, x)
    ensures FloatField(ft, FieldsText(fields), fields[i].name, default) == x
  {
    hide RawField, FieldsText, FieldsOk, FirstOfName, PlainText;
    ReadBare(fields, i, ft.print_(x));
  }

  // ---------------------------------------------------------------- metrics

  /** Lower-case letters and underscores. */
  predicate IsWord(s: string) {
    s != [] && forall i :: 0 <= i < |s| ==> 'a' <= s[i] <= 'z' || s[i] == '_'
  }

  lemma WordIsName(s: string)
    requires IsWord(s)
    ensures FieldName(s)
  {
    forall i | 0 <= i < |s|
      ensures PlainChar(s[i])
    {
      assert 'a' <= s[i] <= 'z' || s[i] == '_';
    }
  }

  lemma MetricNames()
    ensures FieldName("name") && FieldName("value") && "name" != "value"
  {
    hide FieldName;
    WordIsName("name");
    WordIsName("value");
    assert |"name"| != |"value"|;
  }

  lemma MetricFieldsOk(ft: FloatText, m: Metric)
    requires MetricFits(ft, m)
    ensures FieldsOk(MetricFields(ft, m)) && FirstOfName(MetricFields(ft, m), 0) && FirstOfName(MetricFields(ft, m), 1)
  {
    hide WellFormed, Balanced, FieldName, PlainText;
    MetricNames();
    TextOk(m.name);
    BareOk(ft.print_(m.value));
  }

  lemma MetricReads(ft: FloatText, m: Metric)
    requires MetricFits(ft, m)
    ensures ReadMetric(ft, FieldsText(MetricFields(ft, m))) == Success(MetricAsRead(m))
  {
    hide FieldsText, FieldsOk, FirstOfName, StringField, FloatField, FieldText;
    var fields := MetricFields(ft, m);
    MetricFieldsOk(ft, m);
    ReadText(fields, 0, m.name);
    ReadFloat(ft, fields, 1, m.value, ZERO);
  }

  lemma MetricInnersOk(ft: FloatText, metrics: seq<Metric>)
    requires forall i :: 0 <= i < |metrics| ==> MetricFits(ft, metrics[i])
    ensures
      var inners := MetricInners(ft, metrics);
      && (forall i :: 0 <= i < |inners| ==> TokensOk(inners[i]) && Balanced(inners[i]))
      && (forall i :: 0 <= i < |inners| ==>
          WellFormed(Objects(inners)[i] + [Mark(',')]) && Balanced(Objects(inners)[i]))
  {
    hide WellFormed, Balanced, MetricFits, TokensOk, FieldsInner, Object;
    forall i | 0 <= i < |metrics|
      ensures TokensOk(MetricInners(ft, metrics)[i]) && Balanced(MetricInners(ft, metrics)[i])
      ensures WellFormed(Objects(MetricInners(ft, metrics))[i] + [Mark(',')])
      ensures Balanced(Objects(MetricInners(ft, metrics))[i])
    {
      MetricFieldsOk(ft, metrics[i]);
      FieldsObjectOk(MetricFields(ft, metrics[i]));
      ObjectOk(MetricFields(ft, metrics[i]));
    }
  }

  lemma {:induction false} MetricsRead(ft: FloatText, metrics: seq<Metric>)
    requires forall i :: 0 <= i < |metrics| ==> MetricFits(ft, metrics[i])
    ensures ReadMetrics(ft, Map(Render, Objects(MetricInners(ft, metrics)))) == Success(Map(MetricAsRead, metrics))
  {
    hide MetricFits, ReadMetric, Render, Object, FieldsInner, MetricAsRead;
    var texts := Map(Render, Objects(MetricInners(ft, metrics)));
    if metrics != [] {
      MetricsRead(ft, metrics[1..]);
      MetricReads(ft, metrics[0]);
      assert texts[0] == FieldsText(MetricFields(ft, metrics[0]));
      assert texts[1..] == Map(Render, Objects(MetricInners(ft, metrics[1..])));
      assert [MetricAsRead(metrics[0])] + Map(MetricAsRead, metrics[1..]) == Map(MetricAsRead, metrics);
    }
  }

  lemma ReadMetricArray(ft: FloatText, fields: seq<Field>, i: nat, metrics: seq<Metric>)
    requires FieldsOk(fields) && i < |fields| && FirstOfName(fields, i)
    requires fields[i].value == ArrayValue(Objects(MetricInners(ft, metrics)))
    requires forall j :: 0 <= j < |metrics| ==> MetricFits(ft, metrics[j])
    ensures MetricArray(ft, FieldsText(fields), fields[i].name) == Success(Map(MetricAsRead, metrics))
  {
    hide FieldsText, FieldsOk, FirstOfName, MetricFits, After, KeyText, ObjectItems, ReadMetrics, TokensOk, Balanced;
    hide MetricAsRead;
    MetricInnersOk(ft, metrics);
    var found := ReadObjects(fields, i, MetricInners(ft, metrics));
    MetricsRead(ft, metrics);
  }

  lemma MetricArrayKeys(ft: FloatText, metrics: seq<Metric>, name: string)
    requires name != "name" && name != "value"
    ensures Key(name) !in ArrayValue(Objects(MetricInners(ft, metrics)))
  {
    hide ArrayValue, Object, FieldsInner;
    var inners := MetricInners(ft, metrics);
    forall i | 0 <= i < |inners|
      ensures Key(name) !in Objects(inners)[i]
    {
      KeysOfObject(MetricFields(ft, metrics[i]), name);
    }
    KeysOfListed(Objects(inners), name);
  }

  // ---------------------------------------------------------------- groups

  lemma GroupNames()
    ensures FieldName("name") && FieldName("case_count") && FieldName("average_ms")
    ensures "name" != "case_count" && "name" != "average_ms" && "case_count" != "average_ms"
  {
    hide FieldName;
    WordIsName("name");
    WordIsName("case_count");
    WordIsName("average_ms");
    assert "case_count"[0] != "average_ms"[0];
    assert |"name"| != |"case_count"| && |"name"| != |"average_ms"|;
  }

  lemma GroupFieldsOk(ft: FloatText, g: Group)
    requires GroupFits(ft, g)
    ensures FieldsOk(GroupFields(ft, g))
    ensures forall i :: 0 <= i < 3 ==> FirstOfName(GroupFields(ft, g), i)
  {
    hide WellFormed, Balanced, FieldName, PlainText, Printed;
    GroupNames();
    TextOk(g.name);
    NumberOk(g.caseCount);
    BareOk(ft.print_(g.averageMs));
  }

  lemma GroupReads(ft: FloatText, g: Group)
    requires GroupFits(ft, g)
    ensures ReadGroup(ft, FieldsText(GroupFields(ft, g))) == Success(GroupAsRead(g))
  {
    hide FieldsText, FieldsOk, FirstOfName, StringField, FloatField, UsizeField, FieldText;
    var fields := GroupFields(ft, g);
    GroupFieldsOk(ft, g);
    ReadText(fields, 0, g.name);
    ReadNumber(fields, 1, g.caseCount);
    ReadFloat(ft, fields, 2, g.averageMs, ZERO);
  }

  lemma GroupInnersOk(ft: FloatText, groups: seq<Group>)
    requires forall i :: 0 <= i < |groups| ==> GroupFits(ft, groups[i])
    ensures
      var inners := GroupInners(ft, groups);
      && (forall i :: 0 <= i < |inners| ==> TokensOk(inners[i]) && Balanced(inners[i]))
      && (forall i :: 0 <= i < |inners| ==>
          WellFormed(Objects(inners)[i] + [Mark(',')]) && Balanced(Objects(inners)[i]))
  {
    hide WellFormed, Balanced, GroupFits, TokensOk, FieldsInner, Object;
    forall i | 0 <= i < |groups|
      ensures TokensOk(GroupInners(ft, groups)[i]) && Balanced(GroupInners(ft, groups)[i])
      ensures WellFormed(Objects(GroupInners(ft, groups))[i] + [Mark(',')])
      ensures Balanced(Objects(GroupInners(ft, groups))[i])
    {
      GroupFieldsOk(ft, groups[i]);
      FieldsObjectOk(GroupFields(ft, groups[i]));
      ObjectOk(GroupFields(ft, groups[i]));
    }
  }

  lemma {:induction false} GroupsRead(ft: FloatText, groups: seq<Group>)
    requires forall i :: 0 <= i < |groups| ==> GroupFits(ft, groups[i])
    ensures ReadGroups(ft, Map(Render, Objects(GroupInners(ft, groups)))) == Success(Map(GroupAsRead, groups))
  {
    hide GroupFits, ReadGroup, Render, Object, FieldsInner, GroupAsRead;
    var texts := Map(Render, Objects(GroupInners(ft, groups)));
    if groups != [] {
      GroupsRead(ft, groups[1..]);
      GroupReads(ft, groups[0]);
      assert texts[0] == FieldsText(GroupFields(ft, groups[0]));
      assert texts[1..] == Map(Render, Objects(GroupInners(ft, groups[1..])));
      assert [GroupAsRead(groups[0])] + Map(GroupAsRead, groups[1..]) == Map(GroupAsRead, groups);
    }
  }

  lemma GroupArrayKeys(ft: FloatText, groups: seq<Group>, name: string)
    requires name != "name" && name != "case_count" && name != "average_ms"
    ensures Key(name) !in ArrayValue(Objects(GroupInners(ft, groups)))
  {
    hide ArrayValue, Object, FieldsInner;
    var inners := GroupInners(ft, groups);
    forall i | 0 <= i < |inners|
      ensures Key(name) !in Objects(inners)[i]
    {
      KeysOfObject(GroupFields(ft, groups[i]), name);
    }
    KeysOfListed(Objects(inners), name);
  }

  // ---------------------------------------------------------------- cases

  /** Names told apart by length and first character. */
  function Tag(s: string): int
    requires s != []
  {
    1000 * |s| + s[0] as int
  }

  predicate TagsApart(fields: seq<Field>) {
    && (forall i :: 0 <= i < |fields| ==> fields[i].name != [])
    && (forall i, j :: 0 <= i < j < |fields| ==> Tag(fields[i].name) != Tag(fields[j].name))
  }

  lemma CaseNames(ft: FloatText, c: Case)
    ensures TagsApart(CaseFields(ft, c))
    ensures forall i :: 0 <= i < 9 ==> FieldName(CaseFields(ft, c)[i].name)
  {
    hide TextValue, FloatToken, ArrayValue, Strings, Objects, MetricInners;
    var fields := CaseFields(ft, c);
    forall i | 0 <= i < 9
      ensures FieldName(fields[i].name)
    {
      CaseName(i);
    }
  }

  const CASE_NAMES: seq<string> :=
    ["name", "group_name", "command", "args", "mean_ms", "median_ms", "stddev_ms", "stage_timings", "counters"]

  lemma CaseName(i: nat)
    requires i < 9
    ensures FieldName(CASE_NAMES[i])
  {
    hide FieldName;
    WordIsName(CASE_NAMES[i]);
  }

  lemma CaseFieldsOk(ft: FloatText, c: Case)
    requires CaseFits(ft, c)
    ensures FieldsOk(CaseFields(ft, c))
  {
    hide WellFormed, Balanced, FieldName, PlainText, MetricFits, ArrayValue;
    CaseNames(ft, c);
    TextOk(c.name);
    TextOk(c.groupName);
    TextOk(c.command);
    StringsOk(c.args);
    BareOk(ft.print_(c.meanMs));
    BareOk(ft.print_(c.medianMs));
    BareOk(ft.print_(c.stddevMs));
    MetricInnersOk(ft, c.stageTimings);
    ArrayOk(Objects(MetricInners(ft, c.stageTimings)));
    MetricInnersOk(ft, c.counters);
    ArrayOk(Objects(MetricInners(ft, c.counters)));
    ArrayIsNotEmpty(Strings(c.args));
    ArrayIsNotEmpty(Objects(MetricInners(ft, c.stageTimings)));
    ArrayIsNotEmpty(Objects(MetricInners(ft, c.counters)));
  }

  lemma ArrayIsNotEmpty(parts: seq<seq<Token>>)
    ensures ArrayValue(parts) != []
  {
  }

  /** Of the case's fields only the metric arrays hold keys, and those are the metrics' own. */
  lemma CaseFirstOfName(ft: FloatText, c: Case, i: nat)
    requires i < 9
    ensures FirstOfName(CaseFields(ft, c), i)
  {
    hide ArrayValue, Strings, Objects, MetricInners, FieldName;
    CaseNames(ft, c);
    var fields := CaseFields(ft, c);
    forall j | 0 <= j < i
      ensures fields[j].name != fields[i].name && Key(fields[i].name) !in fields[j].value
    {
      assert Tag(fields[j].name) != Tag(fields[i].name);
      if j == 3 {
        KeysOfStrings(c.args, fields[i].name);
      } else if j == 7 {
        assert |fields[i].name| == 8;
        MetricArrayKeys(ft, c.stageTimings, fields[i].name);
      }
    }
  }

  lemma CaseReads(ft: FloatText, c: Case)
    requires CaseFits(ft, c)
    ensures ReadCase(ft, FieldsText(CaseFields(ft, c))) == Success(CaseAsRead(c))
  {
    hide FieldsText, FieldsOk, FirstOfName, StringField, FloatField, StringArray, MetricArray, LegacyGroupName;
    hide MetricFits, Map, ArrayValue, Strings, Objects, MetricInners, FieldText, ItemText, MetricAsRead;
    var fields := CaseFields(ft, c);
    CaseFieldsOk(ft, c);
    forall i | 0 <= i < 9
      ensures FirstOfName(fields, i)
    {
      CaseFirstOfName(ft, c, i);
    }
    ReadText(fields, 0, c.name);
    ReadText(fields, 1, c.groupName);
    ReadText(fields, 2, c.command);
    ReadStrings(fields, 3, c.args);
    ReadFloat(ft, fields, 4, c.meanMs, ZERO);
    ReadFloat(ft, fields, 5, c.medianMs, c.meanMs);
    ReadFloat(ft, fields, 6, c.stddevMs, ZERO);
    ReadMetricArray(ft, fields, 7, c.stageTimings);
    ReadMetricArray(ft, fields, 8, c.counters);
  }

  lemma CaseInnersOk(ft: FloatText, cases: seq<Case>)
    requires forall i :: 0 <= i < |cases| ==> CaseFits(ft, cases[i])
    ensures
      var inners := CaseInners(ft, cases);
      && (forall i :: 0 <= i < |inners| ==> TokensOk(inners[i]) && Balanced(inners[i]))
      && (forall i :: 0 <= i < |inners| ==>
          WellFormed(Objects(inners)[i] + [Mark(',')]) && Balanced(Objects(inners)[i]))
  {
    hide WellFormed, Balanced, CaseFits, TokensOk, FieldsInner, Object, CaseFields;
    forall i | 0 <= i < |cases|
      ensures TokensOk(CaseInners(ft, cases)[i]) && Balanced(CaseInners(ft, cases)[i])
      ensures WellFormed(Objects(CaseInners(ft, cases))[i] + [Mark(',')])
      ensures Balanced(Objects(CaseInners(ft, cases))[i])
    {
      CaseFieldsOk(ft, cases[i]);
      FieldsObjectOk(CaseFields(ft, cases[i]));
      ObjectOk(CaseFields(ft, cases[i]));
    }
  }

  lemma {:induction false} CasesRead(ft: FloatText, cases: seq<Case>)
    requires forall i :: 0 <= i < |cases| ==> CaseFits(ft, cases[i])
    ensures ReadCases(ft, Map(Render, Objects(CaseInners(ft, cases)))) == Success(Map(CaseAsRead, cases))
  {
    hide CaseFits, ReadCase, Render, Object, FieldsInner, CaseFields, CaseAsRead;
    var texts := Map(Render, Objects(CaseInners(ft, cases)));
    if cases != [] {
      CasesRead(ft, cases[1..]);
      CaseReads(ft, cases[0]);
      assert texts[0] == FieldsText(CaseFields(ft, cases[0]));
      assert texts[1..] == Map(Render, Objects(CaseInners(ft, cases[1..])));
      assert [CaseAsRead(cases[0])] + Map(CaseAsRead, cases[1..]) == Map(CaseAsRead, cases);
    }
  }

  // ---------------------------------------------------------------- runs

  const RUN_NAMES: seq<string> :=
    ["format_version", "timestamp", "month_key", "commit", "system_uuid", "public_system_id", "display_name",
     "warmup_runs", "measured_iterations", "suite_kind", "primary_metric_name", "suite_average_ms",
     "suite_case_spread_ms", "thread_count", "groups", "cases"]

  lemma RunName(i: nat)
    requires i < 16
    ensures FieldName(RUN_NAMES[i])
  {
    hide FieldName;
    WordIsName(RUN_NAMES[i]);
  }

  lemma RunNames(ft: FloatText, r: Run)
    ensures forall i :: 0 <= i < 16 ==> FieldName(RunFields(ft, r)[i].name)
  {
    hide TextValue, FloatToken, ArrayValue, Objects, Number, OptionalText, OptionalNumber, FieldName;
    var fields := RunFields(ft, r);
    forall i | 0 <= i < 16
      ensures FieldName(fields[i].name)
    {
      RunName(i);
      assert fields[i].name == RUN_NAMES[i];
    }
  }

  lemma RunTags(ft: FloatText, r: Run)
    ensures TagsApart(RunFields(ft, r))
  {
    hide TextValue, FloatToken, ArrayValue, Objects, Number, OptionalText, OptionalNumber;
  }

  lemma OptionalsOk(r: Run)
    ensures WellFormed(OptionalText(r.commit) + [Mark(',')]) && Balanced(OptionalText(r.commit))
    ensures WellFormed(OptionalNumber(r.threadCount) + [Mark(',')]) && Balanced(OptionalNumber(r.threadCount))
    ensures OptionalText(r.commit) != [] && OptionalNumber(r.threadCount) != []
  {
    hide WellFormed, Balanced, PlainText, Printed, ParseUsize;
    NullIsPlain();
    BareOk("null");
    if r.commit.Some? {
      TextOk(r.commit.value);
    }
    if r.threadCount.Some? {
      NumberOk(r.threadCount.value);
    }
  }

  lemma RunFieldsOk(ft: FloatText, r: Run)
    requires RunFits(ft, r)
    ensures FieldsOk(RunFields(ft, r))
  {
    hide WellFormed, Balanced, FieldName, PlainText, GroupFits, CaseFits, ArrayValue, Printed, OptionalText;
    hide OptionalNumber;
    hide Objects, GroupInners, CaseInners, TagsApart;
    RunNames(ft, r);
    NumberOk(r.formatVersion);
    TextOk(r.timestamp);
    TextOk(r.monthKey);
    OptionalsOk(r);
    TextOk(r.systemUuid);
    TextOk(r.publicSystemId);
    TextOk(r.displayName);
    NumberOk(r.warmupRuns);
    NumberOk(r.measuredIterations);
    TextOk(r.suiteKind);
    TextOk(r.primaryMetricName);
    BareOk(ft.print_(r.suiteAverageMs));
    BareOk(ft.print_(r.suiteCaseSpreadMs));
    GroupsOk(ft, r.groups);
    CasesOk(ft, r.cases);
  }

  lemma GroupsOk(ft: FloatText, groups: seq<Group>)
    requires forall i :: 0 <= i < |groups| ==> GroupFits(ft, groups[i])
    ensures
      var value := ArrayValue(Objects(GroupInners(ft, groups)));
      value != [] && WellFormed(value + [Mark(',')]) && Balanced(value)
  {
    hide WellFormed, Balanced, GroupFits, ArrayValue;
    GroupInnersOk(ft, groups);
    ArrayOk(Objects(GroupInners(ft, groups)));
    ArrayIsNotEmpty(Objects(GroupInners(ft, groups)));
  }

  lemma CasesOk(ft: FloatText, cases: seq<Case>)
    requires forall i :: 0 <= i < |cases| ==> CaseFits(ft, cases[i])
    ensures
      var value := ArrayValue(Objects(CaseInners(ft, cases)));
      value != [] && WellFormed(value + [Mark(',')]) && Balanced(value)
  {
    hide WellFormed, Balanced, CaseFits, ArrayValue;
    CaseInnersOk(ft, cases);
    ArrayOk(Objects(CaseInners(ft, cases)));
    ArrayIsNotEmpty(Objects(CaseInners(ft, cases)));
  }

  lemma CasesIsNoGroupKey()
    ensures "cases" != "name" && "cases" != "case_count" && "cases" != "average_ms"
  {
    assert |"cases"| == 5;
  }

  lemma NoKeysBeforeGroups(ft: FloatText, r: Run, j: nat, name: string)
    requires j < 14
    ensures Key(name) !in RunFields(ft, r)[j].value
  {
    hide ArrayValue, Printed;
    var value := RunFields(ft, r)[j].value;
    assert |value| == 1 && !value[0].Key?;
  }

  lemma RunFirstOfName(ft: FloatText, r: Run, i: nat)
    requires i < 16
    ensures FirstOfName(RunFields(ft, r), i)
  {
    hide ArrayValue, Objects, GroupInners, CaseInners, FieldName, Printed;
    RunTags(ft, r);
    var fields := RunFields(ft, r);
    forall j | 0 <= j < i
      ensures fields[j].name != fields[i].name && Key(fields[i].name) !in fields[j].value
    {
      assert Tag(fields[j].name) != Tag(fields[i].name);
      if j == 14 {
        CasesIsNoGroupKey();
        GroupArrayKeys(ft, r.groups, "cases");
      } else {
        NoKeysBeforeGroups(ft, r, j, fields[i].name);
      }
    }
  }

  lemma ReadObjectArray(fields: seq<Field>, i: nat, inners: seq<seq<Token>>)
    requires FieldsOk(fields) && i < |fields| && FirstOfName(fields, i)
    requires fields[i].value == ArrayValue(Objects(inners))
    requires forall j :: 0 <= j < |inners| ==> TokensOk(inners[j]) && Balanced(inners[j])
    ensures RequiredObjects(FieldsText(fields), fields[i].name) == Success(Map(Render, Objects(inners)))
  {
    hide FieldsText, FieldsOk, FirstOfName, After, KeyText, ObjectItems, TokensOk, Balanced;
    var found := ReadObjects(fields, i, inners);
  }

  lemma ReadOptionals(fields: seq<Field>, r: Run)
    requires FieldsOk(fields) && |fields| == 16 && FirstOfName(fields, 3) && FirstOfName(fields, 13)
    requires fields[3].value == OptionalText(r.commit) && fields[13].value == OptionalNumber(r.threadCount)
    requires r.threadCount.Some? ==> r.threadCount.value < 0x1_0000_0000
    ensures StringField(FieldsText(fields), fields[3].name) == Success(OptionalAsRead(r.commit))
    ensures U32Field(FieldsText(fields), fields[13].name) == r.threadCount
  {
    hide FieldsText, FieldsOk, FirstOfName, StringField, RawField, PlainText, ParseUsize, Printed;
    NullIsPlain();
    if r.commit.Some? {
      ReadText(fields, 3, r.commit.value);
    } else {
      ReadBare(fields, 3, "null");
    }
    if r.threadCount.Some? {
      ReadNumber(fields, 13, r.threadCount.value);
    } else {
      ReadBare(fields, 13, "null");
    }
  }

  lemma ScalarsRead(ft: FloatText, r: Run)
    requires RunFits(ft, r)
    ensures
      var line := FormatRun(ft, r);
      && U32Field(line, "format_version") == Some(r.formatVersion)
      && StringField(line, "timestamp") == Success(Some(FieldText(r.timestamp)))
      && StringField(line, "month_key") == Success(Some(FieldText(r.monthKey)))
      && StringField(line, "system_uuid") == Success(Some(FieldText(r.systemUuid)))
      && StringField(line, "public_system_id") == Success(Some(FieldText(r.publicSystemId)))
      && StringField(line, "display_name") == Success(Some(FieldText(r.displayName)))
      && UsizeField(line, "warmup_runs") == Some(r.warmupRuns)
      && UsizeField(line, "measured_iterations") == Some(r.measuredIterations)
      && StringField(line, "suite_kind") == Success(Some(FieldText(r.suiteKind)))
      && StringField(line, "primary_metric_name") == Success(Some(FieldText(r.primaryMetricName)))
      && FloatField(ft, line, "suite_average_ms", ZERO) == r.suiteAverageMs
      && FloatField(ft, line, "suite_case_spread_ms", ZERO) == r.suiteCaseSpreadMs
  {
    hide FieldsText, FieldsOk, FirstOfName, StringField, FloatField, UsizeField, GroupFits, CaseFits, PrintsBack;
    hide ArrayValue, Objects, GroupInners, CaseInners, OptionalText, OptionalNumber, FieldText;
    var fields := RunFields(ft, r);
    RunFieldsOk(ft, r);
    forall i | 0 <= i < 16
      ensures FirstOfName(fields, i)
    {
      RunFirstOfName(ft, r, i);
    }
    ReadNumber(fields, 0, r.formatVersion);
    ReadText(fields, 1, r.timestamp);
    ReadText(fields, 2, r.monthKey);
    ReadText(fields, 4, r.systemUuid);
    ReadText(fields, 5, r.publicSystemId);
    ReadText(fields, 6, r.displayName);
    ReadNumber(fields, 7, r.warmupRuns);
    ReadNumber(fields, 8, r.measuredIterations);
    ReadText(fields, 9, r.suiteKind);
    ReadText(fields, 10, r.primaryMetricName);
    ReadFloat(ft, fields, 11, r.suiteAverageMs, ZERO);
    ReadFloat(ft, fields, 12, r.suiteCaseSpreadMs, ZERO);
  }

  lemma OthersRead(ft: FloatText, r: Run)
    requires RunFits(ft, r)
    ensures
      var line := FormatRun(ft, r);
      && StringField(line, "commit") == Success(OptionalAsRead(r.commit))
      && U32Field(line, "thread_count") == r.threadCount
      && RequiredObjects(line, "groups") == Success(Map(Render, Objects(GroupInners(ft, r.groups))))
      && RequiredObjects(line, "cases") == Success(Map(Render, Objects(CaseInners(ft, r.cases))))
  {
    hide FieldsText, FieldsOk, FirstOfName, StringField, U32Field, RequiredObjects, GroupFits, CaseFits;
    hide PrintsBack, ArrayValue, Objects, GroupInners, CaseInners, OptionalText, OptionalNumber, TokensOk;
    hide Balanced, WellFormed;
    var fields := RunFields(ft, r);
    RunFieldsOk(ft, r);
    RunFirstOfName(ft, r, 3);
    RunFirstOfName(ft, r, 13);
    RunFirstOfName(ft, r, 14);
    RunFirstOfName(ft, r, 15);
    ReadOptionals(fields, r);
    GroupInnersOk(ft, r.groups);
    ReadObjectArray(fields, 14, GroupInners(ft, r.groups));
    CaseInnersOk(ft, r.cases);
    ReadObjectArray(fields, 15, CaseInners(ft, r.cases));
  }

  lemma RunReads(ft: FloatText, r: Run)
    requires RunFits(ft, r)
    ensures ReadRun(ft, FormatRun(ft, r)) == Success(RunAsRead(r))
    ensures U32Field(FormatRun(ft, r), "format_version") == Some(r.formatVersion)
  {
    hide FormatRun, StringField, FloatField, UsizeField, U32Field, RequiredObjects, ReadCases, ReadGroups;
    hide GroupFits, CaseFits, PrintsBack, Map, Objects, GroupInners, CaseInners, FieldText;
    ScalarsRead(ft, r);
    OthersRead(ft, r);
    GroupsRead(ft, r.groups);
    CasesRead(ft, r.cases);
  }

  // ---------------------------------------------------------------- exactness

  /** Texts in fields are ASCII or control characters; arguments are ASCII without the control
      characters that need a `\u` escape. */
  predicate RunSafe(r: Run) {
    && FieldSafe(r.timestamp) && FieldSafe(r.monthKey) && (r.commit.Some? ==> FieldSafe(r.commit.value))
    && FieldSafe(r.systemUuid) && FieldSafe(r.publicSystemId) && FieldSafe(r.displayName)
    && FieldSafe(r.suiteKind) && FieldSafe(r.primaryMetricName)
    && (forall i :: 0 <= i < |r.groups| ==> FieldSafe(r.groups[i].name))
    && (forall i :: 0 <= i < |r.cases| ==> CaseSafe(r.cases[i]))
  }

  predicate CaseSafe(c: Case) {
    && FieldSafe(c.name) && FieldSafe(c.groupName) && FieldSafe(c.command)
    && (forall i :: 0 <= i < |c.args| ==> ItemSafe(c.args[i]))
    && MetricsSafe(c.stageTimings) && MetricsSafe(c.counters)
  }

  predicate MetricsSafe(metrics: seq<Metric>) {
    forall i :: 0 <= i < |metrics| ==> FieldSafe(metrics[i].name)
  }

  lemma MapKeepsExactly<T>(f: T -> T, s: seq<T>)
    ensures Map(f, s) == s <==> forall i :: 0 <= i < |s| ==> f(s[i]) == s[i]
  {
    if forall i :: 0 <= i < |s| ==> f(s[i]) == s[i] {
      assert Map(f, s) == s;
    }
    if Map(f, s) == s {
      forall i | 0 <= i < |s|
        ensures f(s[i]) == s[i]
      {
        assert Map(f, s)[i] == f(s[i]);
      }
    }
  }

  lemma MetricsKeptExactly(metrics: seq<Metric>)
    ensures Map(MetricAsRead, metrics) == metrics <==> MetricsSafe(metrics)
  {
    hide FieldText, FieldSafe, Map;
    MapKeepsExactly(MetricAsRead, metrics);
    forall i | 0 <= i < |metrics|
      ensures MetricAsRead(metrics[i]) == metrics[i] <==> FieldSafe(metrics[i].name)
    {
      FieldTextExactly(metrics[i].name);
    }
  }

  lemma CaseKeptExactly(c: Case)
    ensures CaseAsRead(c) == c <==> CaseSafe(c)
  {
    hide FieldText, FieldSafe, ItemText, ItemSafe, Map, MetricsSafe;
    FieldTextExactly(c.name);
    FieldTextExactly(c.groupName);
    FieldTextExactly(c.command);
    MapKeepsExactly(ItemText, c.args);
    forall i | 0 <= i < |c.args|
      ensures ItemText(c.args[i]) == c.args[i] <==> ItemSafe(c.args[i])
    {
      ItemTextExactly(c.args[i]);
    }
    MetricsKeptExactly(c.stageTimings);
    MetricsKeptExactly(c.counters);
  }

  lemma GroupsKeptExactly(groups: seq<Group>)
    ensures Map(GroupAsRead, groups) == groups <==> forall i :: 0 <= i < |groups| ==> FieldSafe(groups[i].name)
  {
    hide FieldText, FieldSafe, Map;
    MapKeepsExactly(GroupAsRead, groups);
    forall i | 0 <= i < |groups|
      ensures GroupAsRead(groups[i]) == groups[i] <==> FieldSafe(groups[i].name)
    {
      FieldTextExactly(groups[i].name);
    }
  }

  lemma CasesKeptExactly(cases: seq<Case>)
    ensures Map(CaseAsRead, cases) == cases <==> forall i :: 0 <= i < |cases| ==> CaseSafe(cases[i])
  {
    hide CaseAsRead, CaseSafe, Map;
    MapKeepsExactly(CaseAsRead, cases);
    forall i | 0 <= i < |cases|
      ensures CaseAsRead(cases[i]) == cases[i] <==> CaseSafe(cases[i])
    {
      CaseKeptExactly(cases[i]);
    }
  }

  lemma RunKeptExactly(r: Run)
    ensures RunAsRead(r) == r <==> RunSafe(r)
  {
    hide FieldText, FieldSafe, CaseSafe, CaseAsRead, GroupAsRead, Map;
    FieldTextExactly(r.timestamp);
    FieldTextExactly(r.monthKey);
    if r.commit.Some? {
      FieldTextExactly(r.commit.value);
    }
    FieldTextExactly(r.systemUuid);
    FieldTextExactly(r.publicSystemId);
    FieldTextExactly(r.displayName);
    FieldTextExactly(r.suiteKind);
    FieldTextExactly(r.primaryMetricName);
    GroupsKeptExactly(r.groups);
    CasesKeptExactly(r.cases);
  }

  /** A run reads back as it was if and only if its texts are safe. */
  lemma RunReadsBackExactly(ft: FloatText, r: Run)
    requires RunFits(ft, r)
    ensures ReadRun(ft, FormatRun(ft, r)) == Success(r) <==> RunSafe(r)
  {
    hide FormatRun, ReadRun, RunFits, RunAsRead, RunSafe;
    RunReads(ft, r);
    RunKeptExactly(r);
  }

  /** A run with one case that has one argument. */
  function OneArgument(timestamp: string, arg: string): Run {
    Run(FORMAT_VERSION, timestamp, "", None, "", "", "", 1, 10, "", "", ZERO, ZERO, None, [],
        [Case("", "", "", [arg], ZERO, ZERO, ZERO, [], [])])
  }

  lemma EmptyKept()
    ensures FieldText([]) == [] && ItemText([]) == []
  {
  }

  lemma OneArgumentAsRead(timestamp: string, arg: string)
    ensures RunAsRead(OneArgument(timestamp, arg)) == OneArgument(FieldText(timestamp), ItemText(arg))
  {
    hide FieldText, ItemText;
    var r := OneArgument(timestamp, arg);
    EmptyKept();
    assert Map(ItemText, [arg]) == [ItemText(arg)];
    assert Map(CaseAsRead, r.cases) == [CaseAsRead(r.cases[0])];
    assert Map(MetricAsRead, []) == [] && Map(GroupAsRead, []) == [];
  }

  lemma OneArgumentReads(ft: FloatText, timestamp: string, arg: string)
    requires PrintsBack(ft, ZERO)
    ensures ReadRun(ft, FormatRun(ft, OneArgument(timestamp, arg)))
         == Success(OneArgument(FieldText(timestamp), ItemText(arg)))
  {
    hide FormatRun, ReadRun, Printed, PrintsBack, RunAsRead, FieldText, ItemText;
    RunReads(ft, OneArgument(timestamp, arg));
    OneArgumentAsRead(timestamp, arg);
  }

  /** It does happen: a bell in an argument reads back as the text of its escape, and an accented
      letter in a field as its two bytes. */
  lemma BellAndAccentChange(ft: FloatText)
    requires PrintsBack(ft, ZERO)
    ensures ReadRun(ft, FormatRun(ft, OneArgument("", [7 as char]))) == Success(OneArgument("", "u0007"))
    ensures ReadRun(ft, FormatRun(ft, OneArgument([0xE9 as char], "")))
         == Success(OneArgument([0xC3 as char, 0xA9 as char], ""))
  {
    hide FormatRun, ReadRun, PrintsBack;
    var bell, accent: string := [7 as char], [0xE9 as char];
    OneArgumentReads(ft, "", bell);
    OneArgumentReads(ft, accent, "");
    assert bell[1..] == [] && accent[1..] == [];
    EmptyKept();
    assert Hex4(7) == "0007" && ['u'] + "0007" == "u0007";
    assert ItemText(bell) == ItemChar(bell[0]) + [] == "u0007";
    assert FieldText(accent) == FieldChar(accent[0]) + [] == [0xC3 as char, 0xA9 as char];
  }

  // ---------------------------------------------------------------- the file

  /** `append_local_run`: one more line. */
  function Appended(ft: FloatText, contents: string, r: Run): string {
    contents + FormatRun(ft, r) + ['\n']
  }

  function AppendedAll(ft: FloatText, contents: string, runs: seq<Run>): string
    decreases |runs|
  {
    if runs == [] then contents else Appended(ft, AppendedAll(ft, contents, runs[..|runs| - 1]), runs[|runs| - 1])
  }

  /** Empty, or every line ended. */
  predicate LinesEnded(contents: string) {
    contents == [] || contents[|contents| - 1] == '\n'
  }

  lemma {:induction false} NoLineFeedInEscape(s: string)
    ensures '\n' !in Escape(s)
  {
    if s != [] {
      NoLineFeedInEscape(s[1..]);
      NoLineFeedInChar(s[0]);
    }
  }

  lemma NoLineFeedInChar(c: char)
    ensures '\n' !in EscapeChar(c)
  {
  }

  lemma NoLineFeedInToken(token: Token)
    requires TokenOk(token)
    ensures '\n' !in Text(token)
  {
    match token {
      case Quoted(s) => NoLineFeedInEscape(s);
      case Key(name) => PlainHasNoLineFeed(name);
      case Bare(text) => PlainHasNoLineFeed(text);
      case Mark(_) =>
    }
  }

  lemma PlainHasNoLineFeed(s: string)
    requires PlainText(s)
    ensures '\n' !in s
  {
    assert !PlainChar('\n');
  }

  lemma {:induction false} NoLineFeedInTokens(tokens: seq<Token>)
    requires TokensOk(tokens)
    ensures '\n' !in Render(tokens)
  {
    hide TokenOk, Text;
    if tokens != [] {
      NoLineFeedInToken(tokens[0]);
      assert forall i :: 0 <= i < |tokens[1..]| ==> tokens[1..][i] == tokens[i + 1];
      NoLineFeedInTokens(tokens[1..]);
    }
  }

  /** A written run is one line that trimming leaves alone. */
  lemma FormatIsOneLine(ft: FloatText, r: Run)
    requires RunFits(ft, r)
    ensures OneLine(FormatRun(ft, r))
  {
    hide RunFits, RunFields, TokensOk, Balanced, FieldsInner, FieldsOk;
    RunFieldsOk(ft, r);
    var inner := FieldsInner(RunFields(ft, r));
    FieldsObjectOk(RunFields(ft, r));
    NoLineFeedInTokens(inner);
    RenderObject(inner);
    assert FormatRun(ft, r) == ['{'] + Render(inner) + ['}'];
  }

  lemma NoLinesInNothing()
    ensures TrimmedLines([]) == []
  {
    LinesOfOnePart([]);
    assert Trim([]) == [];
  }

  /** Appending a run adds its line and leaves the others. */
  lemma AppendedLines(ft: FloatText, contents: string, r: Run)
    requires RunFits(ft, r) && LinesEnded(contents)
    ensures TrimmedLines(Appended(ft, contents, r)) == TrimmedLines(contents) + [FormatRun(ft, r)]
  {
    hide RunFits, FormatRun, TrimmedLines, OneLine;
    var line := FormatRun(ft, r);
    FormatIsOneLine(ft, r);
    OneLineStays(line);
    NoLinesInNothing();
    TrimmedLinesAppend(line, []);
    assert line + ['\n'] + [] == line + ['\n'];
    if contents == [] {
      assert Appended(ft, contents, r) == line + ['\n'];
    } else {
      var ended := contents[..|contents| - 1];
      assert contents == ended + ['\n'] && ended + ['\n'] + [] == contents;
      TrimmedLinesAppend(ended, []);
      TrimmedLinesAppend(ended, line + ['\n']);
      assert Appended(ft, contents, r) == ended + ['\n'] + (line + ['\n']);
    }
  }

  /** Whatever the file held, appending runs that fit makes the reader return those runs as they
      read back, in order, after the ones it returned before; unless it panicked before. */
  lemma {:induction false} HistoryReads(ft: FloatText, contents: string, runs: seq<Run>)
    requires LinesEnded(contents) && forall i :: 0 <= i < |runs| ==> RunFits(ft, runs[i])
    ensures LinesEnded(AppendedAll(ft, contents, runs))
    ensures RunsOfLines(ft, TrimmedLines(AppendedAll(ft, contents, runs)))
         == Joined(RunsOfLines(ft, TrimmedLines(contents)), Some(Map(RunAsRead, runs)))
    decreases |runs|
  {
    hide RunFits, RunAsRead, FormatRun, TrimmedLines, RunsOfLines, RunOfLine, Appended, AllOneLines;
    var earlier := RunsOfLines(ft, TrimmedLines(contents));
    if runs == [] {
      assert Map(RunAsRead, runs) == [];
      assert earlier.Some? ==> earlier.value + [] == earlier.value;
    } else {
      var before, last := runs[..|runs| - 1], runs[|runs| - 1];
      HistoryReads(ft, contents, before);
      var soFar := AppendedAll(ft, contents, before);
      AppendedLines(ft, soFar, last);
      AppendedEnds(ft, soFar, last);
      LineAdded(ft, TrimmedLines(soFar), FormatRun(ft, last));
      LineReads(ft, last);
      assert Map(RunAsRead, runs) == Map(RunAsRead, before) + [RunAsRead(last)];
      assert earlier.Some? ==>
        earlier.value + Map(RunAsRead, before) + [RunAsRead(last)] == earlier.value + Map(RunAsRead, runs);
    }
  }

  /** Runs with safe texts come back as they were. */
  lemma HistoryReadsBack(ft: FloatText, contents: string, runs: seq<Run>)
    requires LinesEnded(contents)
    requires forall i :: 0 <= i < |runs| ==> RunFits(ft, runs[i]) && RunSafe(runs[i])
    ensures RunsOfLines(ft, TrimmedLines(AppendedAll(ft, contents, runs)))
         == Joined(RunsOfLines(ft, TrimmedLines(contents)), Some(runs))
  {
    hide RunFits, RunSafe, RunAsRead, TrimmedLines, RunsOfLines, AppendedAll;
    HistoryReads(ft, contents, runs);
    forall i | 0 <= i < |runs|
      ensures RunAsRead(runs[i]) == runs[i]
    {
      RunKeptExactly(runs[i]);
    }
    assert Map(RunAsRead, runs) == runs;
  }

  lemma AppendedEnds(ft: FloatText, contents: string, r: Run)
    ensures LinesEnded(Appended(ft, contents, r))
  {
    hide FormatRun;
  }

  lemma LineAdded(ft: FloatText, lines: seq<string>, line: string)
    ensures RunsOfLines(ft, lines + [line]) == Joined(RunsOfLines(ft, lines), RunOfLine(ft, line))
  {
    hide RunOfLine;
    assert (lines + [line])[..|lines|] == lines;
  }

  lemma LineReads(ft: FloatText, r: Run)
    requires RunFits(ft, r)
    ensures RunOfLine(ft, FormatRun(ft, r)) == Some([RunAsRead(r)])
  {
    hide GroupFits, CaseFits, PrintsBack, RunAsRead, FormatRun, ReadRun, U32Field;
    RunReads(ft, r);
  }
}
