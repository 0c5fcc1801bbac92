/**
 * system/ping_stats.py: `run_stability_test`, which searches every raw output line,
 * turns any exception into exit status 1, refuses an empty list, and reports the
 * statistics with the sigma coverages; and the count gate of the main block.
 */
module PingStats {
  import opened Extract
  import opened Samples
  import opened Stats
  import opened Probe

  /** Counts below this are refused before `run_stability_test` is called. */
  const MinCount: int := 10

  /** The figures the report prints, plus the 1-sigma coverage it computes but does not print. */
  datatype StabilityReport = StabilityReport(
    minMs: real, maxMs: real, avgMs: real, stdDev: real,
    p50: real, p90: real, p95: real, p99: real,
    within1: real, within2: real, within3: real,
    low2: real, high2: real, low3: real, high3: real)

  /** How a run of the script ends. */
  datatype StabilityOutcome =
    | CountTooLow
    | PingNotFound
    | ErrorOccurred(token: string)
    | NoPings
    | Reported(report: StabilityReport)

  /** The script's exit status: 0 after a report, 1 on every other path. */
  function ExitStatus(o: StabilityOutcome): (code: int)
    ensures code == 0 <==> o.Reported?
    ensures code != 0 ==> code == 1
  {
    if o.Reported? then 0 else 1
  }

  /**
   * The statistics of a non-empty list: bounds from the samples, the exact mean,
   * numpy's deviation and percentiles, the three coverages against the unclamped
   * intervals and the printed 2- and 3-sigma ranges with their lower ends clamped at 0.
   */
  function StabilityStats(xs: seq<real>, np: Numpy): (r: StabilityReport)
    requires |xs| > 0
    ensures r.minMs in xs && r.maxMs in xs
    ensures forall i :: 0 <= i < |xs| ==> r.minMs <= xs[i] <= r.maxMs
    ensures r.avgMs == Mean(xs) && r.stdDev == np.std(xs)
    ensures r.minMs <= r.avgMs <= r.maxMs
    ensures r.p50 == np.percentile(xs, 50) && r.p90 == np.percentile(xs, 90)
    ensures r.p95 == np.percentile(xs, 95) && r.p99 == np.percentile(xs, 99)
    ensures r.within1 == Coverage(xs, r.avgMs, r.stdDev, 1)
    ensures r.within2 == Coverage(xs, r.avgMs, r.stdDev, 2)
    ensures r.within3 == Coverage(xs, r.avgMs, r.stdDev, 3)
    ensures 0.0 <= r.within1 <= 100.0 && 0.0 <= r.within2 <= 100.0 && 0.0 <= r.within3 <= 100.0
    ensures r.stdDev >= 0.0 ==> r.within1 <= r.within2 <= r.within3
    ensures r.low2 == DisplayLow(r.avgMs, r.stdDev, 2) && r.high2 == SigmaHigh(r.avgMs, r.stdDev, 2)
    ensures r.low3 == DisplayLow(r.avgMs, r.stdDev, 3) && r.high3 == SigmaHigh(r.avgMs, r.stdDev, 3)
    ensures r.low2 >= 0.0 && r.low3 >= 0.0
  {
    var minVal, maxVal, avgVal, stdDev := Min(xs), Max(xs), Mean(xs), np.std(xs);
    MeanBetweenMinMax(xs);
    SigmaCoveragesOrdered(xs, avgVal, stdDev);
    StabilityReport(
      minVal, maxVal, avgVal, stdDev,
      np.percentile(xs, 50), np.percentile(xs, 90), np.percentile(xs, 95), np.percentile(xs, 99),
      Coverage(xs, avgVal, stdDev, 1), Coverage(xs, avgVal, stdDev, 2), Coverage(xs, avgVal, stdDev, 3),
      DisplayLow(avgVal, stdDev, 2), SigmaHigh(avgVal, stdDev, 2),
      DisplayLow(avgVal, stdDev, 3), SigmaHigh(avgVal, stdDev, 3))
  }

  /** The outcome of `run_stability_test` once the probe has produced `out`. */
  function StabilityResult(out: ProbeOutput, np: Numpy): (o: StabilityOutcome)
    ensures out.NotFound? <==> o == PingNotFound
    ensures o != CountTooLow
    ensures out.Output? ==> (o.ErrorOccurred? <==> HasMalformed(ClassifyAll(out.lines, Classify)))
    ensures out.Output? ==> (o == NoPings <==>
      !HasMalformed(ClassifyAll(out.lines, Classify))
      && Values(ClassifyAll(out.lines, Classify)) == [])
    ensures o.Reported? ==> out.Output? && o.report == StabilityStats(Values(ClassifyAll(out.lines, Classify)), np)
  {
    match out
    case NotFound => PingNotFound
    case Output(lines) =>
      GatherCompletes(ClassifyAll(lines, Classify));
      match Gather(ClassifyAll(lines, Classify))
      case Raised(t) => ErrorOccurred(t)
      case Gathered(s) => if s == [] then NoPings else Reported(StabilityStats(s, np))
  }

  /**
   * `run_stability_test(target, count)`: launches ping through `probe`, searches
   * each raw line in arrival order, and ends with exit status 1 on a missing ping,
   * on a token `float()` rejects, or on an empty list.
   */
  method RunStabilityTest(target: string, count: int, probe: seq<string> -> ProbeOutput, np: Numpy)
    returns (o: StabilityOutcome)
    ensures o == StabilityResult(probe(PingCommand(target, count)), np)
    ensures o != CountTooLow
  {
    var pingCommand := PingCommand(target, count);
    var process := probe(pingCommand);
    if process.NotFound? {
      return PingNotFound;
    }
    var lines := process.lines;
    ghost var rs := ClassifyAll(lines, Classify);
    var latencies: seq<real> := [];
    var i := 0;
    while i < |lines|
      invariant 0 <= i <= |lines|
      invariant Gather(rs[..i]) == Gathered(latencies)
    {
      GatherStep(rs, i, latencies);
      var match_ := Search(lines[i]);
      if match_.Some? {
        var latency := Decimal.ParseFloat(match_.value);
        if latency.None? {
          GatherRaisedPersists(rs, i + 1);
          return ErrorOccurred(match_.value);
        }
        latencies := latencies + [latency.value];
      }
      i := i + 1;
    }
    assert rs[..|lines|] == rs;
    if latencies == [] {
      return NoPings;
    }
    o := Reported(StabilityStats(latencies, np));
  }

  /** The main block: a count below 10 ends the run before any ping is sent. */
  method RunScript(target: string, count: int, probe: seq<string> -> ProbeOutput, np: Numpy)
    returns (o: StabilityOutcome)
    ensures count < MinCount <==> o == CountTooLow
    ensures count >= MinCount ==> o == StabilityResult(probe(PingCommand(target, count)), np)
  {
    if count < MinCount {
      return CountTooLow;
    }
    o := RunStabilityTest(target, count, probe, np);
  }

  /**
   * The run reports exactly when ping was found, no token was malformed and at
   * least one line yielded a latency; every report covers at most one sample per line.
   */
  lemma StabilityResultReports(lines: seq<string>, np: Numpy)
    ensures StabilityResult(Output(lines), np).Reported? <==>
      (forall i :: 0 <= i < |lines| ==> !Classify(lines[i]).Malformed?)
      && (exists i :: 0 <= i < |lines| && Classify(lines[i]).Sample?)
    ensures StabilityResult(Output(lines), np) == NoPings <==>
      forall i :: 0 <= i < |lines| ==> Classify(lines[i]).NoSample?
  {
    var rs := ClassifyAll(lines, Classify);
    GatherCompletes(rs);
    ValuesEmpty(rs);
    if !HasMalformed(rs) {
      assert forall i :: 0 <= i < |lines| ==> rs[i] == Classify(lines[i]);
    }
  }

  /**
   * Both scripts collect the same latencies from the same output: stripping a line
   * and testing it for "time=" first never changes what it contributes.
   */
  lemma SameSamplesAsOldScript(lines: seq<string>)
    ensures Gather(ClassifyAll(lines, Classify)) == Gather(ClassifyAll(lines, ClassifyStripped))
  {
    forall i | 0 <= i < |lines| ensures Classify(lines[i]) == ClassifyStripped(lines[i]) {
      StrippedAgreesWithRaw(lines[i]);
    }
    assert ClassifyAll(lines, Classify) == ClassifyAll(lines, ClassifyStripped);
  }
}
