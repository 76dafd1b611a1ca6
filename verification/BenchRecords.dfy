/** The records of the local benchmark history. */
module BenchRecords {
  import opened Wrappers
  import opened Bytes

  /** The bits of an `f64`. */
  type Float = u64

  const ZERO: Float := 0

  /** How the standard library prints and parses floats, and what it takes their mean to be. */
  datatype FloatText = FloatText(
    print_: Float -> string, parse: string -> Option<Float>, mean: seq<Float> -> Float)

  const FORMAT_VERSION := 5

  datatype Metric = Metric(name: string, value: Float)

  datatype Group = Group(name: string, caseCount: nat, averageMs: Float)

  datatype Case = Case(
    name: string, groupName: string, command: string, args: seq<string>,
    meanMs: Float, medianMs: Float, stddevMs: Float, stageTimings: seq<Metric>, counters: seq<Metric>)

  datatype Run = Run(
    formatVersion: nat, timestamp: string, monthKey: string, commit: Option<string>, systemUuid: string,
    publicSystemId: string, displayName: string, warmupRuns: nat, measuredIterations: nat, suiteKind: string,
    primaryMetricName: string, suiteAverageMs: Float, suiteCaseSpreadMs: Float, threadCount: Option<nat>,
    groups: seq<Group>, cases: seq<Case>)
}
