/** The characters of a history line, from the values of a run alone. */
module BenchLine {
  import opened Wrappers
  import opened Sorting
  import opened TextLines
  import opened JsonText
  import opened JsonTokens
  import opened JsonObjects
  import opened JsonFields
  import opened BenchRecords
  import opened BenchHistory

  // ---------------------------------------------------------------- the text of each value

  function Braces(parts: seq<string>): string {
    "{" + Join(parts, ',') + "}"
  }

  function Brackets(parts: seq<string>): string {
    "[" + Join(parts, ',') + "]"
  }

  function Named(name: string, value: string): string {
    "\"" + name + "\":" + value
  }

  function InQuotes(text: string): string {
    "\"" + Escape(text) + "\""
  }

  function MetricText(ft: FloatText, m: Metric): string {
    Braces([Named("name", InQuotes(m.name)), Named("value", ft.print_(m.value))])
  }

  function GroupText(ft: FloatText, g: Group): string {
    Braces([Named("name", InQuotes(g.name)), Named("case_count", Printed(g.caseCount)),
            Named("average_ms", ft.print_(g.averageMs))])
  }

  function CaseText(ft: FloatText, c: Case): string {
    Braces([Named("name", InQuotes(c.name)), Named("group_name", InQuotes(c.groupName)),
            Named("command", InQuotes(c.command)), Named("args", Brackets(Map(InQuotes, c.args))),
            Named("mean_ms", ft.print_(c.meanMs)), Named("median_ms", ft.print_(c.medianMs)),
            Named("stddev_ms", ft.print_(c.stddevMs)),
            Named("stage_timings", Brackets(Map(m => MetricText(ft, m), c.stageTimings))),
            Named("counters", Brackets(Map(m => MetricText(ft, m), c.counters)))])
  }

  function LineText(ft: FloatText, r: Run): string {
    Braces([Named("format_version", Printed(r.formatVersion)), Named("timestamp", InQuotes(r.timestamp)),
            Named("month_key", InQuotes(r.monthKey)),
            Named("commit", match r.commit case Some(text) => InQuotes(text) case None => "null"),
            Named("system_uuid", InQuotes(r.systemUuid)), Named("public_system_id", InQuotes(r.publicSystemId)),
            Named("display_name", InQuotes(r.displayName)), Named("warmup_runs", Printed(r.warmupRuns)),
            Named("measured_iterations", Printed(r.measuredIterations)), Named("suite_kind", InQuotes(r.suiteKind)),
            Named("primary_metric_name", InQuotes(r.primaryMetricName)),
            Named("suite_average_ms", ft.print_(r.suiteAverageMs)),
            Named("suite_case_spread_ms", ft.print_(r.suiteCaseSpreadMs)),
            Named("thread_count", match r.threadCount case Some(n) => Printed(n) case None => "null"),
            Named("groups", Brackets(Map(g => GroupText(ft, g), r.groups))),
            Named("cases", Brackets(Map(c => CaseText(ft, c), r.cases)))])
  }

  // ---------------------------------------------------------------- what the writer renders

  function FieldString(f: Field): string {
    Named(f.name, Render(f.value))
  }

  lemma FieldIsNamed(f: Field)
    ensures Render(FieldTokens(f)) == FieldString(f)
  {
    RenderBoth([Key(f.name)], f.value);
    RenderOne(Key(f.name));
  }

  lemma FieldsAreBraces(fields: seq<Field>)
    ensures FieldsText(fields) == Braces(Map(FieldString, fields))
  {
    hide Render, FieldTokens, FieldString;
    RenderObject(FieldsInner(fields));
    RenderListed(Map(FieldTokens, fields));
    forall i | 0 <= i < |fields|
      ensures Render(FieldTokens(fields[i])) == FieldString(fields[i])
    {
      FieldIsNamed(fields[i]);
    }
    assert Map(Render, Map(FieldTokens, fields)) == Map(FieldString, fields);
  }

  lemma TextIsQuoted(s: string)
    ensures Render(TextValue(s)) == InQuotes(s)
  {
    RenderOne(Quoted(s));
  }

  lemma BareIsText(text: string)
    ensures Render(BareValue(text)) == text
  {
    RenderOne(Bare(text));
  }

  lemma ArrayIsBrackets(parts: seq<seq<Token>>)
    ensures Render(ArrayValue(parts)) == Brackets(Map(Render, parts))
  {
    hide Listed;
    RenderArray(parts, []);
    RenderListed(parts);
    assert Render(ArrayValue(parts)) + [] == Render(ArrayValue(parts));
  }

  lemma StringsAreQuoted(strings: seq<string>)
    ensures Render(ArrayValue(Strings(strings))) == Brackets(Map(InQuotes, strings))
  {
    hide Render, ArrayValue, Brackets;
    ArrayIsBrackets(Strings(strings));
    forall i | 0 <= i < |strings|
      ensures Render(Strings(strings)[i]) == InQuotes(strings[i])
    {
      TextIsQuoted(strings[i]);
    }
    assert Map(Render, Strings(strings)) == Map(InQuotes, strings);
  }

  lemma MetricIsText(ft: FloatText, m: Metric)
    ensures FieldsText(MetricFields(ft, m)) == MetricText(ft, m)
  {
    hide Render, Named, InQuotes, Braces, FieldsText;
    var fields := MetricFields(ft, m);
    FieldsAreBraces(fields);
    TextIsQuoted(m.name);
    BareIsText(ft.print_(m.value));
    assert Map(FieldString, fields) == [Named("name", InQuotes(m.name)), Named("value", ft.print_(m.value))];
  }

  lemma MetricsAreText(ft: FloatText, metrics: seq<Metric>)
    ensures Render(ArrayValue(Objects(MetricInners(ft, metrics))))
         == Brackets(Map(m => MetricText(ft, m), metrics))
  {
    hide Render, ArrayValue, Brackets, Object, FieldsInner, MetricText;
    ArrayIsBrackets(Objects(MetricInners(ft, metrics)));
    forall i | 0 <= i < |metrics|
      ensures Render(Objects(MetricInners(ft, metrics))[i]) == MetricText(ft, metrics[i])
    {
      MetricIsText(ft, metrics[i]);
    }
    assert Map(Render, Objects(MetricInners(ft, metrics))) == Map(m => MetricText(ft, m), metrics);
  }

  lemma GroupIsText(ft: FloatText, g: Group)
    ensures FieldsText(GroupFields(ft, g)) == GroupText(ft, g)
  {
    hide Render, Named, InQuotes, Braces, FieldsText, Printed;
    var fields := GroupFields(ft, g);
    FieldsAreBraces(fields);
    TextIsQuoted(g.name);
    BareIsText(Printed(g.caseCount));
    BareIsText(ft.print_(g.averageMs));
    assert Map(FieldString, fields)
        == [Named("name", InQuotes(g.name)), Named("case_count", Printed(g.caseCount)),
            Named("average_ms", ft.print_(g.averageMs))];
  }

  lemma GroupsAreText(ft: FloatText, groups: seq<Group>)
    ensures Render(ArrayValue(Objects(GroupInners(ft, groups)))) == Brackets(Map(g => GroupText(ft, g), groups))
  {
    hide Render, ArrayValue, Brackets, Object, FieldsInner, GroupText;
    ArrayIsBrackets(Objects(GroupInners(ft, groups)));
    forall i | 0 <= i < |groups|
      ensures Render(Objects(GroupInners(ft, groups))[i]) == GroupText(ft, groups[i])
    {
      GroupIsText(ft, groups[i]);
    }
    assert Map(Render, Objects(GroupInners(ft, groups))) == Map(g => GroupText(ft, g), groups);
  }

  lemma CaseIsText(ft: FloatText, c: Case)
    ensures FieldsText(CaseFields(ft, c)) == CaseText(ft, c)
  {
    hide Render, Named, InQuotes, Braces, Brackets, FieldsText, ArrayValue, Objects, Strings, MetricInners, MetricText;
    var fields := CaseFields(ft, c);
    FieldsAreBraces(fields);
    TextIsQuoted(c.name);
    TextIsQuoted(c.groupName);
    TextIsQuoted(c.command);
    StringsAreQuoted(c.args);
    BareIsText(ft.print_(c.meanMs));
    BareIsText(ft.print_(c.medianMs));
    BareIsText(ft.print_(c.stddevMs));
    MetricsAreText(ft, c.stageTimings);
    MetricsAreText(ft, c.counters);
    assert Map(FieldString, fields)
        == [Named("name", InQuotes(c.name)), Named("group_name", InQuotes(c.groupName)),
            Named("command", InQuotes(c.command)), Named("args", Brackets(Map(InQuotes, c.args))),
            Named("mean_ms", ft.print_(c.meanMs)), Named("median_ms", ft.print_(c.medianMs)),
            Named("stddev_ms", ft.print_(c.stddevMs)),
            Named("stage_timings", Brackets(Map(m => MetricText(ft, m), c.stageTimings))),
            Named("counters", Brackets(Map(m => MetricText(ft, m), c.counters)))];
  }

  lemma CasesAreText(ft: FloatText, cases: seq<Case>)
    ensures Render(ArrayValue(Objects(CaseInners(ft, cases)))) == Brackets(Map(c => CaseText(ft, c), cases))
  {
    hide Render, ArrayValue, Brackets, Object, FieldsInner, CaseText;
    ArrayIsBrackets(Objects(CaseInners(ft, cases)));
    forall i | 0 <= i < |cases|
      ensures Render(Objects(CaseInners(ft, cases))[i]) == CaseText(ft, cases[i])
    {
      CaseIsText(ft, cases[i]);
    }
    assert Map(Render, Objects(CaseInners(ft, cases))) == Map(c => CaseText(ft, c), cases);
  }

  lemma OptionalsAreText(r: Run)
    ensures Render(OptionalText(r.commit)) == match r.commit case Some(text) => InQuotes(text) case None => "null"
    ensures Render(OptionalNumber(r.threadCount))
         == match r.threadCount case Some(n) => Printed(n) case None => "null"
  {
    hide Render, InQuotes, Printed;
    BareIsText("null");
    if r.commit.Some? {
      TextIsQuoted(r.commit.value);
    }
    if r.threadCount.Some? {
      BareIsText(Printed(r.threadCount.value));
    }
  }

  /** A history line, character by character. */
  lemma FormatIsLine(ft: FloatText, r: Run)
    ensures FormatRun(ft, r) == LineText(ft, r)
  {
    hide Render, Named, InQuotes, Braces, Brackets, FieldsText, ArrayValue, Objects, GroupInners, CaseInners;
    hide GroupText, CaseText, Printed, OptionalText, OptionalNumber;
    var fields := RunFields(ft, r);
    FieldsAreBraces(fields);
    BareIsText(Printed(r.formatVersion));
    TextIsQuoted(r.timestamp);
    TextIsQuoted(r.monthKey);
    OptionalsAreText(r);
    TextIsQuoted(r.systemUuid);
    TextIsQuoted(r.publicSystemId);
    TextIsQuoted(r.displayName);
    BareIsText(Printed(r.warmupRuns));
    BareIsText(Printed(r.measuredIterations));
    TextIsQuoted(r.suiteKind);
    TextIsQuoted(r.primaryMetricName);
    BareIsText(ft.print_(r.suiteAverageMs));
    BareIsText(ft.print_(r.suiteCaseSpreadMs));
    GroupsAreText(ft, r.groups);
    CasesAreText(ft, r.cases);
    assert FormatRun(ft, r) == LineText(ft, r) by {
      SixteenParts(fields);
    }
  }

  lemma SixteenParts(fields: seq<Field>)
    requires |fields| == 16
    ensures Map(FieldString, fields)
         == [FieldString(fields[0]), FieldString(fields[1]), FieldString(fields[2]), FieldString(fields[3]),
             FieldString(fields[4]), FieldString(fields[5]), FieldString(fields[6]), FieldString(fields[7]),
             FieldString(fields[8]), FieldString(fields[9]), FieldString(fields[10]), FieldString(fields[11]),
             FieldString(fields[12]), FieldString(fields[13]), FieldString(fields[14]), FieldString(fields[15])]
  {
    hide FieldString;
  }

  /** How each character is written. */
  lemma EscapesExactly(c: char)
    ensures EscapeChar('"') == "\\\"" && EscapeChar('\\') == "\\\\"
    ensures EscapeChar('\n') == "\\n" && EscapeChar('\r') == "\\r" && EscapeChar('\t') == "\\t"
    ensures EscapeChar(0x1F as char) == "\\u001f" && EscapeChar(0x7F as char) == "\\u007f"
    ensures EscapeChar(0x9F as char) == "\\u009f"
    ensures c != '"' && c != '\\' && (0x20 <= c as int < 0x7F || c as int >= 0xA0) ==> EscapeChar(c) == [c]
  {
    assert Hex4(0x1F) == "001f" && Hex4(0x7F) == "007f" && Hex4(0x9F) == "009f";
  }
}
