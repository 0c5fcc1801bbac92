/**
 * ping_stats_old.py: `conduct_ping_test`, which strips each output line and appends
 * the latency of every line holding "time=" and a number; `analyze_ping_results`;
 * and the gates of the script's main block.
 */
module PingStatsOld {
  import opened Extract
  import opened Samples
  import opened Stats
  import opened Probe

  /** Counts below this are refused before any ping is sent. */
  const MinCount: int := 10

  /** How `conduct_ping_test` ends: its list, `sys.exit(1)` for a missing ping, or an uncaught `ValueError`. */
  datatype TestOutcome = Latencies(samples: seq<real>) | PingMissing | ValueError(token: string)

  /** The result of `conduct_ping_test` once the probe has produced `out`. */
  function TestResult(out: ProbeOutput): (r: TestOutcome)
    ensures out.NotFound? <==> r == PingMissing
    ensures out.Output? ==> (r.ValueError? <==> HasMalformed(ClassifyAll(out.lines, ClassifyStripped)))
    ensures out.Output? && r.Latencies? ==> r.samples == Values(ClassifyAll(out.lines, ClassifyStripped))
  {
    match out
    case NotFound => PingMissing
    case Output(lines) =>
      GatherCompletes(ClassifyAll(lines, ClassifyStripped));
      match Gather(ClassifyAll(lines, ClassifyStripped))
      case Gathered(s) => Latencies(s)
      case Raised(t) => ValueError(t)
  }

  /**
   * `conduct_ping_test(target, count)`: launches the ping command through `probe`
   * and folds over its output lines.
   */
  method ConductPingTest(target: string, count: int, probe: seq<string> -> ProbeOutput) returns (r: TestOutcome)
    ensures r == TestResult(probe(PingCommand(target, count)))
  {
    var pingCommand := PingCommand(target, count);
    var process := probe(pingCommand);
    if process.NotFound? {
      return PingMissing;
    }
    var lines := process.lines;
    ghost var rs := ClassifyAll(lines, ClassifyStripped);
    var latencies: seq<real> := [];
    var i := 0;
    while i < |lines|
      invariant 0 <= i <= |lines|
      invariant Gather(rs[..i]) == Gathered(latencies)
    {
      var line := Strip(lines[i]);
      if Contains(line, Marker) {
        var match_ := Search(line);
        if match_.Some? {
          var value := Decimal.ParseFloat(match_.value);
          if value.None? {
            GatherStep(rs, i, latencies);
            GatherRaisedPersists(rs, i + 1);
            return ValueError(match_.value);
          }
          assert rs[i] == Sample(value.value);
          GatherStep(rs, i, latencies);
          latencies := latencies + [value.value];
        } else {
          assert rs[i] == NoSample;
          GatherStep(rs, i, latencies);
        }
      } else {
        assert rs[i] == NoSample;
        GatherStep(rs, i, latencies);
      }
      i := i + 1;
    }
    assert rs[..|lines|] == rs;
    r := Latencies(latencies);
  }

  /** The eight keys of the dictionary `analyze_ping_results` returns. */
  const StatKeys: set<string> := {"min", "max", "avg", "std", "p50", "p90", "p95", "p99"}

  /**
   * `analyze_ping_results`: the empty dictionary for no latencies, otherwise the
   * eight statistics: `min` and `max` taken from the samples and bounding them, the
   * exact mean, and numpy's deviation and percentiles.
   */
  function AnalyzePingResults(latencies: seq<real>, np: Numpy): (stats: map<string, real>)
    ensures latencies == [] <==> stats == map[]
    ensures latencies != [] ==> stats.Keys == StatKeys
    ensures latencies != [] ==>
      stats["min"] in latencies && stats["max"] in latencies
      && (forall i :: 0 <= i < |latencies| ==> stats["min"] <= latencies[i] <= stats["max"])
      && stats["min"] <= stats["avg"] <= stats["max"]
    ensures latencies != [] ==>
      stats["avg"] == Mean(latencies) && stats["std"] == np.std(latencies)
      && stats["p50"] == np.percentile(latencies, 50) && stats["p90"] == np.percentile(latencies, 90)
      && stats["p95"] == np.percentile(latencies, 95) && stats["p99"] == np.percentile(latencies, 99)
  {
    if latencies == [] then map[]
    else
      MeanBetweenMinMax(latencies);
      map[
        "min" := Min(latencies),
        "max" := Max(latencies),
        "avg" := Mean(latencies),
        "std" := np.std(latencies),
        "p50" := np.percentile(latencies, 50),
        "p90" := np.percentile(latencies, 90),
        "p95" := np.percentile(latencies, 95),
        "p99" := np.percentile(latencies, 99)
      ]
  }

  /** How a run of the script ends. */
  datatype RunOutcome =
    | CountTooLow
    | PingNotFound
    | Crashed(token: string)
    | NoData
    | Reported(stats: map<string, real>)

  /** The script's exit status: 0 after a report, 1 on every other path. */
  function ExitStatus(o: RunOutcome): (code: int)
    ensures code == 0 <==> o.Reported?
    ensures code != 0 ==> code == 1
  {
    if o.Reported? then 0 else 1
  }

  /**
   * The main block: refuse a count below 10 before pinging, run the test, refuse
   * an empty result before analysing, then report.
   */
  method RunScript(target: string, count: int, probe: seq<string> -> ProbeOutput, np: Numpy)
    returns (o: RunOutcome)
    ensures count < MinCount <==> o == CountTooLow
    ensures count >= MinCount ==>
      match TestResult(probe(PingCommand(target, count)))
      case PingMissing => o == PingNotFound
      case ValueError(t) => o == Crashed(t)
      case Latencies(s) => o == if s == [] then NoData else Reported(AnalyzePingResults(s, np))
    ensures o.Reported? ==> o.stats.Keys == StatKeys
  {
    if count < MinCount {
      return CountTooLow;
    }
    var pingResults := ConductPingTest(target, count, probe);
    match pingResults
    case PingMissing =>
      o := PingNotFound;
    case ValueError(t) =>
      o := Crashed(t);
    case Latencies(s) =>
      if s == [] {
        o := NoData;
      } else {
        o := Reported(AnalyzePingResults(s, np));
      }
  }

  /** A collected sample is never negative, and no more are collected than lines read. */
  lemma TestResultBounds(lines: seq<string>)
    ensures TestResult(Output(lines)).Latencies? ==>
      |TestResult(Output(lines)).samples| <= |lines|
      && forall x :: x in TestResult(Output(lines)).samples ==> x >= 0.0
  {
    var rs := ClassifyAll(lines, ClassifyStripped);
    GatherCompletes(rs);
    ValuesLength(rs);
    ValuesFromLines(rs);
    forall x | Sample(x) in rs ensures x >= 0.0 {
      var i :| 0 <= i < |rs| && rs[i] == Sample(x);
      StrippedAgreesWithRaw(lines[i]);
    }
  }

  /** The list is empty exactly when no line yielded a latency (and none raised). */
  lemma TestResultEmpty(lines: seq<string>)
    ensures TestResult(Output(lines)) == Latencies([]) <==>
      forall i :: 0 <= i < |lines| ==> ClassifyStripped(lines[i]).NoSample?
  {
    var rs := ClassifyAll(lines, ClassifyStripped);
    GatherCompletes(rs);
    ValuesEmpty(rs);
  }

  /** A malformed token ends the test with the first such token instead of skipping its line. */
  lemma TestResultRaises(lines: seq<string>)
    ensures TestResult(Output(lines)).ValueError? <==>
      exists i :: 0 <= i < |lines| && ClassifyStripped(lines[i]).Malformed?
    ensures TestResult(Output(lines)).ValueError? ==>
      exists i :: 0 <= i < |lines| && ClassifyStripped(lines[i]) == Malformed(TestResult(Output(lines)).token)
        && forall j :: 0 <= j < i ==> !ClassifyStripped(lines[j]).Malformed?
  {
    GatherRaisesFirst(ClassifyAll(lines, ClassifyStripped));
  }
}
