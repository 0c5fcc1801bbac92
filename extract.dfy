/**
 * The latency extractor shared by both ping scripts: `re.search(r"time=([\d.]+)", line)`
 * followed by `float(match.group(1))`, and the old script's `line.strip()` and
 * `"time=" in line` guard in front of it.
 */
module Extract {
  import opened Options
  import opened Decimal

  const Marker: string := "time="

  // ---------------------------------------------------------------------------
  // Python's `pat in s` and `s.strip()`
  // ---------------------------------------------------------------------------

  predicate OccursAt(s: string, pat: string, i: int)
  {
    0 <= i && i + |pat| <= |s| && s[i..i + |pat|] == pat
  }

  /** Python's substring test `pat in s`. */
  function Contains(s: string, pat: string): (b: bool)
    ensures b <==> exists i :: OccursAt(s, pat, i)
  {
    if |s| < |pat| then
      assert forall i :: !OccursAt(s, pat, i);
      false
    else if s[..|pat|] == pat then
      assert OccursAt(s, pat, 0);
      true
    else
      var rest := Contains(s[1..], pat);
      forall i ensures OccursAt(s[1..], pat, i) <==> OccursAt(s, pat, i + 1) {
        if 0 <= i && i + |pat| <= |s| - 1 {
          assert s[1..][i..i + |pat|] == s[i + 1..i + 1 + |pat|];
        }
      }
      assert forall i :: OccursAt(s, pat, i) ==> i >= 1 && OccursAt(s[1..], pat, i - 1);
      rest
  }

  /** The characters `str.isspace()` accepts (ASCII and the Unicode space separators). */
  predicate IsSpace(c: char)
  {
    var n := c as int;
    (9 <= n <= 13) || (28 <= n <= 32) || n == 0x85 || n == 0xA0 || n == 0x1680
    || (0x2000 <= n <= 0x200A) || n == 0x2028 || n == 0x2029 || n == 0x202F
    || n == 0x205F || n == 0x3000
  }

  /** The first index at or after `i` that does not hold a space. */
  function SkipSpaces(s: string, i: nat): (a: nat)
    requires i <= |s|
    ensures i <= a <= |s|
    ensures forall k :: i <= k < a ==> IsSpace(s[k])
    ensures a == |s| || !IsSpace(s[a])
    decreases |s| - i
  {
    if i == |s| || !IsSpace(s[i]) then i else SkipSpaces(s, i + 1)
  }

  /** The end of `s[lo..j]` once its trailing spaces are dropped. */
  function TrimEnd(s: string, lo: nat, j: nat): (b: nat)
    requires lo <= j <= |s|
    ensures lo <= b <= j
    ensures forall k :: b <= k < j ==> IsSpace(s[k])
    ensures b == lo || !IsSpace(s[b - 1])
  {
    if j == lo || !IsSpace(s[j - 1]) then j else TrimEnd(s, lo, j - 1)
  }

  function StripStart(s: string): nat { SkipSpaces(s, 0) }

  function StripEnd(s: string): nat { TrimEnd(s, StripStart(s), |s|) }

  /** Python's `s.strip()`: `s` without its leading and trailing whitespace. */
  function Strip(s: string): (r: string)
    ensures r == [] || (!IsSpace(r[0]) && !IsSpace(r[|r| - 1]))
    ensures r == s[StripStart(s)..StripEnd(s)]
    ensures forall k :: 0 <= k < |s| && (k < StripStart(s) || StripEnd(s) <= k) ==> IsSpace(s[k])
  {
    s[StripStart(s)..StripEnd(s)]
  }

  // ---------------------------------------------------------------------------
  // re.search(r"time=([\d.]+)", line)
  // ---------------------------------------------------------------------------

  /** "time=" stands at `i`, spelled out character by character. */
  predicate MarkerAt(line: string, i: int)
  {
    0 <= i && i + 5 <= |line|
    && line[i] == 't' && line[i + 1] == 'i' && line[i + 2] == 'm' && line[i + 3] == 'e' && line[i + 4] == '='
  }

  lemma MarkerAtOccurs(line: string, i: int)
    ensures MarkerAt(line, i) <==> OccursAt(line, Marker, i)
  {
    if 0 <= i && i + 5 <= |line| {
      var w := line[i..i + 5];
      assert w[0] == line[i] && w[1] == line[i + 1] && w[2] == line[i + 2];
      assert w[3] == line[i + 3] && w[4] == line[i + 4];
    }
  }

  /** The pattern matches at `i`: "time=" there, then at least one digit or dot. */
  predicate MatchesAt(line: string, i: int)
  {
    MarkerAt(line, i) && i + |Marker| < |line| && IsDecimalChar(line[i + |Marker|])
  }

  /** The leftmost position at or after `from` where the pattern matches. */
  function FirstMatch(line: string, from: nat): (r: Option<nat>)
    requires from <= |line|
    ensures r.Some? ==> from <= r.value && MatchesAt(line, r.value)
    ensures forall j :: from <= j && (r.None? || j < r.value) ==> !MatchesAt(line, j)
    decreases |line| - from
  {
    if from == |line| then None
    else if MatchesAt(line, from) then Some(from)
    else FirstMatch(line, from + 1)
  }

  /** The end of the greedy `[\d.]+` run that starts at `k`. */
  function RunEnd(line: string, k: nat): (e: nat)
    requires k <= |line|
    ensures k <= e <= |line|
    ensures forall i :: k <= i < e ==> IsDecimalChar(line[i])
    ensures e == |line| || !IsDecimalChar(line[e])
    decreases |line| - k
  {
    if k == |line| || !IsDecimalChar(line[k]) then k else RunEnd(line, k + 1)
  }

  /** The captured group of the leftmost match, or None when the regex does not match. */
  function Search(line: string): (r: Option<string>)
    ensures r.None? <==> forall i :: !MatchesAt(line, i)
    ensures r.Some? ==> |r.value| >= 1 && AllDecimalChars(r.value)
  {
    match FirstMatch(line, 0)
    case None => None
    case Some(i) =>
      var e := RunEnd(line, i + |Marker|);
      Some(line[i + |Marker|..e])
  }

  /**
   * The captured token is the maximal run of digits and dots after the leftmost
   * "time=" that is followed by a digit or a dot.
   */
  lemma SearchLeftmostMaximal(line: string, i: nat)
    requires MatchesAt(line, i)
    requires forall j :: 0 <= j < i ==> !MatchesAt(line, j)
    ensures Search(line).Some?
    ensures var t := Search(line).value; var k := i + |Marker|;
      k + |t| <= |line| && line[k..k + |t|] == t && (k + |t| == |line| || !IsDecimalChar(line[k + |t|]))
  {
    var r := FirstMatch(line, 0);
    assert r == Some(i);
  }

  lemma SliceOfSlice(s: string, a: nat, b: nat, x: nat, y: nat)
    requires a <= b <= |s| && x <= y <= b - a
    ensures s[a..b][x..y] == s[a + x..a + y]
  {
    forall k | 0 <= k < y - x ensures s[a..b][x..y][k] == s[a + x..a + y][k] {
      assert s[a..b][x + k] == s[a + x + k];
    }
  }

  lemma SliceAfterPrefix(p: string, s: string, x: nat, y: nat)
    requires x <= y <= |s|
    ensures (p + s)[|p| + x..|p| + y] == s[x..y]
  {
  }

  /** Two lines whose leftmost matches are followed by the same run capture the same group. */
  lemma SearchSameRun(x: string, y: string, i: nat, j: nat)
    requires FirstMatch(x, 0) == Some(i) && FirstMatch(y, 0) == Some(j)
    requires x[i + |Marker|..RunEnd(x, i + |Marker|)] == y[j + |Marker|..RunEnd(y, j + |Marker|)]
    ensures Search(x) == Search(y)
  {
  }

  // ---------------------------------------------------------------------------
  // One line of ping output
  // ---------------------------------------------------------------------------

  /** What one output line contributes: nothing, a latency, or a token `float()` rejects. */
  datatype LineResult = NoSample | Sample(ms: real) | Malformed(token: string)

  /** The new script's handling of a raw line: search, then `float()` on the group. */
  function Classify(line: string): (r: LineResult)
    ensures r.NoSample? <==> forall i :: !MatchesAt(line, i)
    ensures r.Sample? ==> Search(line).Some? && ParseFloat(Search(line).value) == Some(r.ms)
    ensures r.Sample? ==> r.ms >= 0.0
    ensures r.Malformed? <==> Search(line).Some? && ParseFloat(Search(line).value).None?
    ensures r.Malformed? ==> Search(line) == Some(r.token) && !(HasDigit(r.token) && AtMostOneDot(r.token))
  {
    match Search(line)
    case None => NoSample
    case Some(tok) =>
      match ParseFloat(tok)
      case None => Malformed(tok)
      case Some(v) => Sample(v)
  }

  /** The old script's handling of a line: strip it, test for "time=", then search. */
  function ClassifyStripped(line: string): (r: LineResult)
    ensures !Contains(Strip(line), Marker) ==> r == NoSample
    ensures r.NoSample? <==> !Contains(Strip(line), Marker) || Search(Strip(line)).None?
    ensures r.Sample? ==> Search(Strip(line)).Some? && ParseFloat(Search(Strip(line)).value) == Some(r.ms)
    ensures r.Malformed? ==> Search(Strip(line)) == Some(r.token) && ParseFloat(r.token).None?
  {
    var s := Strip(line);
    if Contains(s, Marker) then Classify(s) else NoSample
  }

  // ---------------------------------------------------------------------------
  // Stripping never changes what a line contributes
  // ---------------------------------------------------------------------------

  predicate SpacesOutside(s: string, a: nat, b: nat)
    requires a <= b <= |s|
  {
    forall k :: 0 <= k < |s| && (k < a || b <= k) ==> IsSpace(s[k])
  }

  /** A match never touches whitespace, so the matches of a trimmed slice are those of the line. */
  lemma MatchShift(s: string, a: nat, b: nat, j: int)
    requires a <= b <= |s| && SpacesOutside(s, a, b)
    ensures MatchesAt(s, j) <==> j >= a && MatchesAt(s[a..b], j - a)
  {
    var t := s[a..b];
    if MatchesAt(s, j) {
      assert !IsSpace(s[j]) && !IsSpace(s[j + 5]);
    }
  }

  /** The matches of a line are those of its trimmed slice, shifted. */
  lemma MatchesShift(s: string, a: nat, b: nat)
    requires a <= b <= |s| && SpacesOutside(s, a, b)
    ensures forall j :: MatchesAt(s, j) <==> j >= a && MatchesAt(s[a..b], j - a)
  {
    forall j ensures MatchesAt(s, j) <==> j >= a && MatchesAt(s[a..b], j - a) {
      MatchShift(s, a, b, j);
    }
  }

  /** The conditions in the contract of `RunEnd` determine the end of the run. */
  lemma RunEndUnique(line: string, k: nat, e: nat)
    requires k <= e <= |line|
    requires forall i :: k <= i < e ==> IsDecimalChar(line[i])
    requires e == |line| || !IsDecimalChar(line[e])
    ensures RunEnd(line, k) == e
  {
  }

  /** A run of digits and dots stops at the end of the trimmed slice at the latest. */
  lemma RunEndShift(s: string, a: nat, b: nat, m: nat)
    requires a <= b <= |s| && SpacesOutside(s, a, b) && m <= b - a
    ensures RunEnd(s[a..b], m) + a == RunEnd(s, m + a)
  {
    var t := s[a..b];
    var e := RunEnd(s, m + a);
    if b < |s| {
      assert IsSpace(s[b]);
      assert !IsDecimalChar(s[b]);
    }
    assert e <= b;
    RunEndUnique(t, m, e - a);
  }

  /** A match with no match before it is the one `FirstMatch` finds. */
  lemma FirstMatchUnique(line: string, i: nat)
    requires MatchesAt(line, i)
    requires forall j :: 0 <= j < i ==> !MatchesAt(line, j)
    ensures FirstMatch(line, 0) == Some(i)
  {
  }

  /**
   * When the matches of `s` are exactly those of `s[a..b]` shifted by `a`, the
   * leftmost match of the slice is the leftmost match of `s`, shifted.
   */
  lemma FirstMatchShift(s: string, a: nat, b: nat)
    requires a <= b <= |s|
    requires forall j :: MatchesAt(s, j) <==> j >= a && MatchesAt(s[a..b], j - a)
    ensures FirstMatch(s[a..b], 0).None? ==> FirstMatch(s, 0).None?
    ensures FirstMatch(s[a..b], 0).Some? ==> FirstMatch(s, 0) == Some(FirstMatch(s[a..b], 0).value + a)
  {
    match FirstMatch(s[a..b], 0)
    case None =>
    case Some(i) =>
      FirstMatchUnique(s, i + a);
  }

  /** Every digit/dot run of the trimmed slice ends where the line's run ends. */
  lemma RunEndsShift(s: string, a: nat, b: nat)
    requires a <= b <= |s| && SpacesOutside(s, a, b)
    ensures forall m :: 0 <= m <= b - a ==> RunEnd(s[a..b], m) + a == RunEnd(s, m + a)
  {
    forall m | 0 <= m <= b - a ensures RunEnd(s[a..b], m) + a == RunEnd(s, m + a) {
      RunEndShift(s, a, b, m);
    }
  }

  /**
   * When the matches and the runs of `s[a..b]` are those of `s` shifted by `a`,
   * both capture the same group.
   */
  lemma SearchShiftedMatches(s: string, a: nat, b: nat)
    requires a <= b <= |s|
    requires forall j :: MatchesAt(s, j) <==> j >= a && MatchesAt(s[a..b], j - a)
    requires forall m :: 0 <= m <= b - a ==> RunEnd(s[a..b], m) + a == RunEnd(s, m + a)
    ensures Search(s[a..b]) == Search(s)
  {
    var t := s[a..b];
    FirstMatchShift(s, a, b);
    match FirstMatch(t, 0)
    case None =>
    case Some(i) =>
      SliceOfSlice(s, a, b, i + |Marker|, RunEnd(t, i + |Marker|));
      SearchSameRun(t, s, i, i + a);
  }

  /** The search finds the same token in the trimmed slice as in the whole line. */
  lemma SearchShift(s: string, a: nat, b: nat)
    requires a <= b <= |s| && SpacesOutside(s, a, b)
    ensures Search(s[a..b]) == Search(s)
  {
    MatchesShift(s, a, b);
    RunEndsShift(s, a, b);
    SearchShiftedMatches(s, a, b);
  }

  /** Stripping the line does not change its classification. */
  lemma ClassifyStrip(line: string)
    ensures Classify(Strip(line)) == Classify(line)
  {
    SearchShift(line, StripStart(line), StripEnd(line));
  }

  /**
   * The old script's strip-and-guard handling gives the same result as the new
   * script's search of the raw line: the guard only skips lines the regex would
   * not match anyway, and stripping never touches a match.
   */
  lemma StrippedAgreesWithRaw(line: string)
    ensures ClassifyStripped(line) == Classify(line)
  {
    var s := Strip(line);
    ClassifyStrip(line);
    forall i ensures MarkerAt(s, i) <==> OccursAt(s, Marker, i) {
      MarkerAtOccurs(s, i);
    }

  }

  /** In the old script a line without "time=" never yields a sample nor an error. */
  lemma NoMarkerNoSample(line: string)
    requires !Contains(line, Marker)
    ensures ClassifyStripped(line) == NoSample
  {
    StrippedAgreesWithRaw(line);
    forall i ensures MarkerAt(line, i) <==> OccursAt(line, Marker, i) {
      MarkerAtOccurs(line, i);
    }
  }

  /** The latency of a reply line ends at the unit suffix. */
  lemma ReplyLineExample()
    ensures Classify("time=8.43 ms\n") == Sample(8.43)
  {
    var line := "time=8.43 ms\n";
    assert MatchesAt(line, 0);
    RunEndUnique(line, 5, 9);
    assert line[5..9] == "8.43";
    FloatReplyTime();
  }

  // ---------------------------------------------------------------------------
  // Text before the leftmost match does not affect the capture
  // ---------------------------------------------------------------------------

  lemma MatchAfterPrefix(p: string, s: string, i: nat)
    ensures MatchesAt(p + s, |p| + i) <==> MatchesAt(s, i)
  {
    if i + 5 < |s| {
      assert (p + s)[|p| + i + 5] == s[i + 5];
    }
  }

  lemma RunEndAfterPrefix(p: string, s: string, m: nat)
    requires m <= |s|
    ensures RunEnd(p + s, |p| + m) == |p| + RunEnd(s, m)
  {
    var e := RunEnd(s, m);
    if e < |s| {
      assert (p + s)[|p| + e] == s[e];
    }
    RunEndUnique(p + s, |p| + m, |p| + e);
  }

  /**
   * When nothing before the end of `p` matches, searching `p + s` captures what
   * searching `s` alone captures: the leftmost match is found past `p`.
   */
  lemma SearchAfterPrefix(p: string, s: string)
    requires forall j :: 0 <= j < |p| ==> !MatchesAt(p + s, j)
    ensures Search(p + s) == Search(s)
  {
    var line := p + s;
    assert line[|p|..|line|] == s;
    forall j ensures MatchesAt(line, j) <==> j >= |p| && MatchesAt(s, j - |p|) {
      if j >= |p| {
        MatchAfterPrefix(p, s, j - |p|);
      }
    }
    forall m | 0 <= m <= |s| ensures RunEnd(s, m) + |p| == RunEnd(line, m + |p|) {
      RunEndAfterPrefix(p, s, m);
    }
    SearchShiftedMatches(line, |p|, |line|);
  }

  /**
   * "time=" starts with "ti": in `head + "i" + mid` the only 'i' follows a space,
   * so no match starts inside it, whatever follows.
   */
  lemma NoMatchBeforeSuffix(head: string, mid: string, tail: string)
    requires |head| > 0 && head[|head| - 1] == ' ' && 'i' !in head
    requires |mid| > 0 && mid[|mid| - 1] == ' ' && 'i' !in mid
    ensures forall j :: 0 <= j < |head + "i" + mid| ==> !MatchesAt(head + "i" + mid + tail, j)
  {
    var p := head + "i" + mid;
    forall j | 0 <= j < |p| ensures !MatchesAt(p + tail, j) {
      if j + 1 < |head| {
        assert (p + tail)[j + 1] == head[j + 1];
      } else if |head| < j + 1 < |p| {
        assert (p + tail)[j + 1] == mid[j - |head|];
      } else if j + 1 == |head| {
        assert (p + tail)[j] == head[|head| - 1];
      } else {
        assert (p + tail)[j] == mid[|mid| - 1];
      }
    }
  }

  /**
   * The "icmp_seq=" and "ttl=" fields of a reply line hold no match. This is one
   * example: the pieces are parameters fixed by `requires` only so that the verifier
   * does not unfold the whole literal line.
   */
  lemma ReplyFieldsSkipped(head: string, fields: string, tail: string)
    requires head == "64 bytes from 142.250.183.36: " && fields == "icmp_seq=1 ttl=118 "
    ensures Search(head + fields + tail) == Search(tail)
  {
    var mid := "cmp_seq=1 ttl=118 ";
    ReplyFieldPieces(head, fields, mid);
    NoMatchBeforeSuffix(head, mid, tail);
    SearchAfterPrefix(head + "i" + mid, tail);
    assert head + fields == head + "i" + mid;
  }

  /** The reply-line pieces meet the conditions of `NoMatchBeforeSuffix`. */
  lemma ReplyFieldPieces(head: string, fields: string, mid: string)
    requires head == "64 bytes from 142.250.183.36: " && fields == "icmp_seq=1 ttl=118 "
    requires mid == "cmp_seq=1 ttl=118 "
    ensures fields == "i" + mid
    ensures |head| > 0 && head[|head| - 1] == ' ' && 'i' !in head
    ensures |mid| > 0 && mid[|mid| - 1] == ' ' && 'i' !in mid
  {
  }

  /**
   * A whole reply line, given in three pieces: the search passes "icmp_seq=" and
   * "ttl=" and captures the latency after "time=". As above, the pieces are
   * parameters only to keep the verifier from unfolding the 61-character literal.
   */
  lemma FullReplyLineExample(head: string, fields: string, tail: string)
    requires head == "64 bytes from 142.250.183.36: " && fields == "icmp_seq=1 ttl=118 "
    requires tail == "time=8.43 ms\n"
    ensures Classify(head + fields + tail) == Sample(8.43)
  {
    ReplyFieldsSkipped(head, fields, tail);
    ReplyLineExample();
  }

  /** A token with two dots is captured whole and then rejected by `float()`. */
  lemma MalformedTokenExample()
    ensures Classify("time=1.2.3 ms") == Malformed("1.2.3")
  {
    var line := "time=1.2.3 ms";
    assert MatchesAt(line, 0);
    RunEndUnique(line, 5, 10);
    assert line[5..10] == "1.2.3";
    FloatRejects();
  }

  /** "time=" followed by letters is no match at all. */
  lemma NonNumericExample()
    ensures Classify("time=abc ms") == NoSample
  {
    NonNumericNoMatch("time=abc ms");
  }

  lemma NonNumericNoMatch(line: string)
    requires line == "time=abc ms"
    ensures forall j :: !MatchesAt(line, j)
  {
    forall j ensures !MatchesAt(line, j) {
      if 0 <= j <= 5 {
        assert line[5] == 'a';
        if j == 1 {} else if j == 2 {} else if j == 3 {} else if j == 4 {} else if j == 5 {}
      }
    }
  }
}
