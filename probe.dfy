/** The ping invocation both scripts launch, and what launching it can yield. */
module Probe {
  import opened Decimal

  /**
   * What `subprocess.Popen(...)` and its merged stdout/stderr stream give: either
   * `FileNotFoundError` because there is no `ping`, or the finite sequence of
   * output lines, each with its line terminator.
   */
  datatype ProbeOutput = NotFound | Output(lines: seq<string>)

  /**
   * `["ping", "-c", str(count), target]`: an argument vector, never a shell string,
   * whose third entry reads back as the count and whose last entry is the target
   * exactly as given.
   */
  function PingCommand(target: string, count: int): (argv: seq<string>)
    ensures |argv| == 4 && argv[0] == "ping" && argv[1] == "-c" && argv[3] == target
    ensures |argv[2]| >= 1
    ensures count >= 0 ==> AllDigits(argv[2]) && DigitsValue(argv[2]) == count
    ensures count >= 0 ==> argv[2][0] != '0' || count == 0
    ensures count < 0 ==> argv[2][0] == '-'
  {
    if count >= 0 then
      NatToStringRoundTrip(count);
      ["ping", "-c", IntToString(count), target]
    else
      ["ping", "-c", IntToString(count), target]
  }
}
