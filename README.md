# Ping latency collection and statistics, modelled in Dafny

This project models the latency-collection path of the two ping scripts of the
repository: `ping_stats_old.py` and `system/ping_stats.py`. Each script runs
`ping -c <count> <target>` and reads its merged output line by line. It pulls the
round-trip time out of every line matching `time=([\d.]+)` and converts it with
`float()`. It refuses runs that are too short or that collected nothing, then reports
minimum, maximum, mean, standard deviation, percentiles and, in the newer script, the
share of samples within one, two and three standard deviations of the mean.

Modules, leaf first:

- `Options` (`option.dfy`): the `Option` datatype.
- `Decimal` (`decimal.dfy`): digit strings, Python's `str(int)`, and `float()` on a
  token of ASCII digits and dots. A token is valid iff it has a digit and at most one
  dot; its value is exact (`real`).
- `Extract` (`extract.dfy`): Python's `str.strip()` and `in`, and the regex search as
  a leftmost match followed by a maximal run of digits and dots. It classifies one
  line as no sample, a sample, or a malformed token. It proves that the old script's
  strip-then-guard handling classifies every line exactly as the new script's search
  of the raw line does.
- `Samples` (`samples.dfy`): the append loop as a fold over per-line results. The fold
  stops at the first malformed token, because `float()` raises there. Lemmas give
  order, at most one sample per line, emptiness, and which token raises.
- `Stats` (`stats.dfy`): min, max, exact mean, the closed-interval sigma coverage and
  the clamped display bound. numpy's `std` and `percentile` are supplied by the caller
  as functions (`Numpy`).
- `Probe` (`probe.dfy`): the argument vector `["ping", "-c", str(count), target]` and
  the probe's output. The probe's output is either `FileNotFoundError` or a finite
  sequence of lines.
- `PingStatsOld` (`ping_stats_old.dfy`) and `PingStats` (`ping_stats.dfy`): one
  module per script. Each has its collection loop as a method proved against the
  fold, its analysis, and its main-block gates. The subprocess is a parameter
  `probe: seq<string> -> ProbeOutput`. It is applied to the command the script
  builds, so the argument vector is part of each contract.

Three behaviours of the scripts that the model keeps as written:

- `float()` raises `ValueError` on a captured token with no digit or with two dots
  (`"."`, `"1.2.3"`), so such a line is not skipped. In `ping_stats_old.py` nothing
  catches the exception, and the script dies with exit status 1. In
  `system/ping_stats.py` the generic handler catches it and exits with status 1.
  The model returns the `ValueError` / `ErrorOccurred` outcomes.
- Both scripts call `process.wait()` and ignore its value, so the model keeps no
  exit status of the probe.
- `system/ping_stats.py` computes the 1-sigma coverage but prints only the 2- and
  3-sigma lines. The model keeps all three, as computed.

## Model

| member | source | states |
|---|---|---|
| `Probe.PingCommand` | ping_stats_old.py:25 | The command is the four-element vector `ping`, `-c`, the count, target. The count element reads back as `count` with no leading zero. The target is passed unchanged as one element. system/ping_stats.py:19 builds the same vector. |
| `Decimal.NatToString` | system/ping_stats.py:19 | `str(count)` is a non-empty string of ASCII digits. |
| `Decimal.NatToStringRoundTrip` | system/ping_stats.py:19 | `str(n)` reads back as `n` and has no leading zero unless `n` is 0. |
| `Decimal.ParseFloat` | ping_stats_old.py:40 | `float()` on a captured token succeeds iff the token has at least one digit and at most one dot. A value it returns is never negative. |
| `Decimal.ParseFloatInteger` | system/ping_stats.py:38 | A dot-free token reads as the value of its digits. |
| `Decimal.ParseFloatFraction` | system/ping_stats.py:38 | A token `a.b` reads as `a + b / 10^len(b)`. This covers `"1."` and `".5"`. |
| `Decimal.FloatTrailingDot` | ping_stats_old.py:40 | `float("1.") = 1`: a token with no fraction digits is accepted. |
| `Decimal.FloatLeadingDot` | ping_stats_old.py:40 | `float(".5") = 0.5`: a token with no integer digits is accepted. |
| `Decimal.FloatReplyTime` | ping_stats_old.py:40 | `float("8.43") = 8.43`. |
| `Decimal.FloatRejects` | ping_stats_old.py:40 | `float(".")` and `float("1.2.3")` raise. |
| `Extract.Contains` | ping_stats_old.py:36 | `pat in s` holds iff `pat` occurs at some index of `s`. |
| `Extract.Strip` | ping_stats_old.py:35 | `strip()` is the slice between the first and last non-space characters. Everything it drops is whitespace, and the result neither starts nor ends with whitespace. |
| `Extract.FirstMatch` | ping_stats_old.py:38 | The regex finds the leftmost index where `time=` is followed by a digit or a dot. No earlier index matches. |
| `Extract.RunEnd` | ping_stats_old.py:38 | The greedy `[\d.]+` run ends at the first character that is not a digit or dot, or at the end of the line. |
| `Extract.Search` | system/ping_stats.py:35 | `re.search` fails iff no index matches. A captured group is non-empty and made of digits and dots. |
| `Extract.SearchLeftmostMaximal` | ping_stats_old.py:38 | The captured group is exactly the maximal digit/dot run after the leftmost matching `time=`. |
| `Extract.Classify` | system/ping_stats.py:35-38 | A raw line yields nothing iff the regex does not match. It yields a sample iff `float()` accepts the captured group, and the sample is `float()` of that group, never negative. It yields a failure iff the regex matches and `float()` rejects the group, and the failure carries that group. |
| `Extract.ClassifyStripped` | ping_stats_old.py:35-40 | The old script's handling of a line: it yields nothing when the stripped line lacks `time=`, and otherwise nothing iff the search of the stripped line fails. A sample is `float()` of the group captured in the stripped line. A failure carries that group, which `float()` rejects. |
| `Extract.ClassifyStrip` | ping_stats_old.py:35 | Stripping a line never changes what it yields. |
| `Extract.StrippedAgreesWithRaw` | ping_stats_old.py:34-40 | The old script's strip, `"time=" in line` guard and search yield the same result for every line as the new script's search of the raw line. |
| `Extract.NoMarkerNoSample` | ping_stats_old.py:36 | A line without the substring `time=` yields neither a sample nor an error. |
| `Extract.ReplyLineExample` | system/ping_stats.py:35-38 | The line tail `time=8.43 ms` yields the sample 8.43. |
| `Extract.SearchAfterPrefix` | system/ping_stats.py:35 | When no match starts before the end of a prefix, `re.search` on the whole line captures the same group as on the rest of the line. |
| `Extract.ReplyFieldsSkipped` | system/ping_stats.py:34-35 | The `64 bytes from …: icmp_seq=1 ttl=118 ` part of a reply line holds no match, so `re.search` on the line captures what it captures on the `time=` tail. |
| `Extract.FullReplyLineExample` | system/ping_stats.py:34-38 | The whole reply line `64 bytes from 142.250.183.36: icmp_seq=1 ttl=118 time=8.43 ms` yields the sample 8.43. The search passes `icmp_seq=` and `ttl=`. |
| `Extract.MalformedTokenExample` | ping_stats_old.py:38-40 | `time=1.2.3 ms` captures `1.2.3`, which `float()` rejects. |
| `Extract.NonNumericExample` | system/ping_stats.py:35 | `time=abc ms` is not a match. |
| `Samples.GatherCompletes` | ping_stats_old.py:34-40 | The loop reaches the end iff no line holds a malformed token. The list is then the lines' samples in arrival order. |
| `Samples.GatherRaisesFirst` | system/ping_stats.py:35-50 | A raising loop reports the token of the first malformed line. No earlier line is malformed. |
| `Samples.GatherRaisedPersists` | ping_stats_old.py:40 | Once `float()` has raised, later lines change nothing. |
| `Samples.ValuesAppend` | system/ping_stats.py:29-39 | The samples of two consecutive stretches of output are the first stretch's samples followed by the second's, so arrival order is kept. |
| `Samples.ValuesLength` | ping_stats_old.py:34-40 | There are at most as many samples as lines. |
| `Samples.ValuesEmpty` | ping_stats_old.py:19-20 | The list is empty iff no line yields a sample. |
| `Samples.ValuesFromLines` | ping_stats_old.py:40 | Every sample in the list is the value of some line. |
| `Samples.ClassifyAll` | system/ping_stats.py:29 | One result per output line, in line order. |
| `PingStatsOld.ConductPingTest` | ping_stats_old.py:10-55 | The loop's result is the fold of the stripped-line results over the output of the command built from `target` and `count`. The result is `PingMissing` when ping cannot be launched. |
| `PingStatsOld.TestResult` | ping_stats_old.py:28-55 | `conduct_ping_test` once the probe has answered: `FileNotFoundError` iff the probe could not launch ping. On output, it raises `ValueError` iff some stripped line holds a malformed token. A returned list is the lines' samples in order. |
| `PingStatsOld.TestResultBounds` | ping_stats_old.py:34-40 | The collected list has at most one sample per line, and no sample is negative. |
| `PingStatsOld.TestResultEmpty` | ping_stats_old.py:19-20 | The returned list is empty iff no line yielded a latency. |
| `PingStatsOld.TestResultRaises` | ping_stats_old.py:40-52 | The test ends in `ValueError` iff some line holds a malformed token, and it reports the first such token. |
| `PingStatsOld.AnalyzePingResults` | ping_stats_old.py:58-86 | The result is `{}` iff there are no latencies. Otherwise it has exactly the keys min, max, avg, std, p50, p90, p95, p99. `min` and `max` are samples that bound every sample, and `min <= avg <= max`. `avg` is the exact mean, `std` is `np.std` of the samples, and `p50`, `p90`, `p95` and `p99` are `np.percentile` of the samples at 50, 90, 95 and 99. |
| `PingStatsOld.ExitStatus` | ping_stats_old.py:152-162 | The exit status is 0 iff a report is produced, and 1 on every other path. A failure while plotting after the report is not modelled (see "Left out"). |
| `PingStatsOld.RunScript` | ping_stats_old.py:152-165 | A count below 10 is refused iff it is below 10, whatever the probe would print. An empty result is refused before analysis. A malformed token crashes the run. A report always has the eight keys. |
| `Stats.Min` | ping_stats_old.py:76 | `np.min` is a sample no larger than any sample. |
| `Stats.Max` | ping_stats_old.py:77 | `np.max` is a sample no smaller than any sample. |
| `Stats.Mean` | ping_stats_old.py:78 | `np.mean` is exact: `n` copies of the mean add up to the sum of the samples. system/ping_stats.py:63 computes the same mean. |
| `Stats.SumBounds` | ping_stats_old.py:78 | If every sample lies in `[lo, hi]`, the sum lies in `[n*lo, n*hi]`. |
| `Stats.MeanBetween` | ping_stats_old.py:78 | If every sample lies in `[lo, hi]`, so does the mean. |
| `Stats.MeanBetweenMinMax` | system/ping_stats.py:61-63 | `min <= mean <= max`. |
| `Stats.CountWithin` | system/ping_stats.py:86 | The number of samples in the closed interval is at most `n`. |
| `Stats.CountWithinAll` | system/ping_stats.py:86 | The count equals `n` iff every sample lies in the interval. |
| `Stats.CountWithinWider` | system/ping_stats.py:86-88 | A wider interval counts at least as many samples. |
| `Stats.CountWithinClamped` | system/ping_stats.py:90 | For non-negative samples, raising a negative lower bound to 0 does not change the count. |
| `Stats.Coverage` | system/ping_stats.py:86-88 | `within_k_sigma` is the count in `[avg-k*std, avg+k*std]` divided by `n`, times 100. It lies in `[0, 100]`. |
| `Stats.CoverageFull` | system/ping_stats.py:86-88 | Coverage is 100 iff every sample lies in the closed k-sigma interval. |
| `Stats.CoverageNests` | system/ping_stats.py:86-88 | For `std >= 0` and `j <= k`, the j-sigma coverage is at most the k-sigma coverage. |
| `Stats.SigmaCoveragesOrdered` | system/ping_stats.py:86-88 | For `std >= 0`, `within_1 <= within_2 <= within_3`. |
| `Stats.DisplayLow` | system/ping_stats.py:90 | The printed lower bound is `max(0, avg-k*std)`: it is 0 when `avg-k*std` is negative and `avg-k*std` otherwise, so it is never negative and never below the unclamped bound. |
| `Stats.ClampKeepsCoverage` | system/ping_stats.py:86-93 | Latencies are never negative, so counting against the clamped bound would give the same coverage. The clamp only affects display. |
| `Stats.ConstantSamples` | system/ping_stats.py:61-88 | For n copies of one latency v: min, max and mean are v, and with deviation 0 every coverage is 100. |
| `PingStats.StabilityStats` | system/ping_stats.py:58-93 | The report's min and max are samples bounding all samples. Its avg is the exact mean, between them. Its stddev and percentiles are numpy's values for the samples. Each `within_k` is the k-sigma coverage of the unclamped interval and lies in [0,100]. The coverages are ordered when `std >= 0`. The printed ranges run from `max(0, avg-k*std)` to `avg+k*std`. |
| `PingStats.StabilityResult` | system/ping_stats.py:22-93 | `run_stability_test` once the probe has answered: ping missing iff the probe could not launch it. On output, it ends in an error iff some line holds a malformed token, and with "no pings" iff no line is malformed and none yields a sample. A report is the statistics of the lines' samples. It is never a count refusal. |
| `PingStats.RunStabilityTest` | system/ping_stats.py:9-96 | The loop's outcome is the fold of the raw-line results over the output of the command built from `target` and `count`. A missing ping, a malformed token or zero samples give an error outcome before any statistic. Otherwise the run reports. The outcome is never a count refusal. |
| `PingStats.RunScript` | system/ping_stats.py:111-115 | A count below 10 is refused iff it is below 10, before `run_stability_test` runs. Otherwise the outcome is that of the test. |
| `PingStats.ExitStatus` | system/ping_stats.py:45-54 | The exit status is 0 iff a report is produced, and 1 for a missing ping, any exception, or no samples. |
| `PingStats.StabilityResultReports` | system/ping_stats.py:45-54 | The run reports iff no line is malformed and some line yields a sample. It ends with "no pings" iff no line matches. |
| `PingStats.SameSamplesAsOldScript` | system/ping_stats.py:29-39 | On the same output, the new script's raw-line loop and the old script's strip-and-guard loop collect the same samples or raise on the same token. |

## Left out

- Process I/O: `subprocess.Popen`, the live stdout stream and `process.wait()` are a function from the argument vector to a finite sequence of lines. The probe's exit status, cancellation and broken pipes are not modelled.
- Launch errors other than `FileNotFoundError` (for example `PermissionError`) are not modelled. Both scripts would also end with exit status 1 on them.
- Console output is not modelled, because it is text formatting and I/O. This covers the echoed lines, the progress dots, `print_report` and the `:.3f` formatting.
- `np.std` and `np.percentile` are functions the caller supplies (`Stats.Numpy`), because they are library calls and the deviation needs a square root. Facts about them, such as percentile monotonicity, are therefore not proved. `np.mean` is modelled exactly as the sum over the count.
- Floating point: `float()`, the mean and the coverage division are exact over `real`, so IEEE rounding is not modelled.
- `Decimal.ParseFloat`: models `float()` only on tokens of ASCII digits and dots, which are all the regex can capture. Exponents, signs, `inf`/`nan`, underscores and surrounding whitespace are not modelled.
- `Extract.Search`: `\d` is modelled as the ASCII digits only. Python's `\d` also matches other Unicode decimal digits.
- `Extract.Strip`: the whitespace set is the one `str.isspace()` accepts for ASCII, Latin-1 and the Unicode space separators. The model relies only on whitespace never being a digit, a dot or a letter of `time=`.
- `plot_graph` (matplotlib), argparse parsing and help text are not modelled, because they are rendering and command-line plumbing.
- PingStatsOld.ExitStatus: a failure in `plot_graph` after the report (for example `plt.savefig` at ping_stats_old.py:133 failing on an unwritable `--save` path) ends ping_stats_old.py with status 1; the model assumes plotting succeeds, so with `--plot`/`--save` a report maps to status 0.
- `sys.exit` is modelled as an outcome value and an `ExitStatus` function, not as an effect.
- math_expression.py and maths/math_expression.py are not part of this model. They build one sympy expression and print it, with no logic of their own.
