/**
 * The `latencies` list both scripts build while they read ping's output: one fold
 * over the per-line results, in arrival order, that stops at the first token
 * `float()` rejects.
 */
module Samples {
  import opened Extract

  /** The list gathered so far, or the token whose `float()` raised `ValueError`. */
  datatype Gathered = Gathered(samples: seq<real>) | Raised(token: string)

  /** The state of the append loop after the given line results, taken in order. */
  function Gather(rs: seq<LineResult>): Gathered
  {
    if rs == [] then Gathered([])
    else
      match Gather(rs[..|rs| - 1])
      case Raised(t) => Raised(t)
      case Gathered(s) =>
        match rs[|rs| - 1]
        case NoSample => Gathered(s)
        case Sample(v) => Gathered(s + [v])
        case Malformed(t) => Raised(t)
  }

  /** The latencies of the lines that yield one, in line order. */
  function Values(rs: seq<LineResult>): seq<real>
  {
    if rs == [] then []
    else (if rs[0].Sample? then [rs[0].ms] else []) + Values(rs[1..])
  }

  predicate HasMalformed(rs: seq<LineResult>)
  {
    exists i :: 0 <= i < |rs| && rs[i].Malformed?
  }

  lemma {:induction false} ValuesAppend(a: seq<LineResult>, b: seq<LineResult>)
    ensures Values(a + b) == Values(a) + Values(b)
  {
    if a == [] {
      assert a + b == b;
    } else {
      var head := if a[0].Sample? then [a[0].ms] else [];
      assert (a + b)[0] == a[0];
      assert (a + b)[1..] == a[1..] + b;
      calc {
        Values(a + b);
        == head + Values(a[1..] + b);
        == { ValuesAppend(a[1..], b); }
        head + (Values(a[1..]) + Values(b));
        == (head + Values(a[1..])) + Values(b);
        == Values(a) + Values(b);
      }
    }
  }

  /** Each line contributes at most one sample, so there are no more samples than lines. */
  lemma {:induction false} ValuesLength(rs: seq<LineResult>)
    ensures |Values(rs)| <= |rs|
  {
    if rs != [] { ValuesLength(rs[1..]); }
  }

  /** The list is empty exactly when no line yields a latency. */
  lemma {:induction false} ValuesEmpty(rs: seq<LineResult>)
    ensures Values(rs) == [] <==> forall i :: 0 <= i < |rs| ==> !rs[i].Sample?
  {
    if rs != [] {
      ValuesEmpty(rs[1..]);
      assert forall i :: 1 <= i < |rs| ==> rs[i] == rs[1..][i - 1];
    }
  }

  /** Every gathered latency is the value of some line. */
  lemma {:induction false} ValuesFromLines(rs: seq<LineResult>)
    ensures forall x :: x in Values(rs) ==> Sample(x) in rs
  {
    if rs != [] {
      ValuesFromLines(rs[1..]);
      assert Values(rs) == (if rs[0].Sample? then [rs[0].ms] else []) + Values(rs[1..]);
      assert forall r :: r in rs[1..] ==> r in rs;
    }
  }

  /**
   * The loop runs to the end exactly when no line holds a malformed token, and then
   * its list holds the line latencies in arrival order.
   */
  lemma {:induction false} GatherCompletes(rs: seq<LineResult>)
    ensures Gather(rs).Gathered? <==> !HasMalformed(rs)
    ensures Gather(rs).Gathered? ==> Gather(rs).samples == Values(rs)
  {
    if rs != [] {
      var init, last := rs[..|rs| - 1], rs[|rs| - 1];
      GatherCompletes(init);
      assert rs == init + [last];
      ValuesAppend(init, [last]);
      assert Values([last]) == if last.Sample? then [last.ms] else [];
      assert HasMalformed(rs) <==> HasMalformed(init) || last.Malformed? by {
        if HasMalformed(init) {
          var i :| 0 <= i < |init| && init[i].Malformed?;
          assert rs[i] == init[i];
        }
        if HasMalformed(rs) {
          var i :| 0 <= i < |rs| && rs[i].Malformed?;
          if i < |init| { assert init[i] == rs[i]; }
        }
      }
    }
  }

  /** The loop stops at the first malformed token and reports that token. */
  lemma {:induction false} GatherRaisesFirst(rs: seq<LineResult>)
    ensures Gather(rs).Raised? ==>
      exists i :: 0 <= i < |rs| && rs[i] == Malformed(Gather(rs).token)
        && forall j :: 0 <= j < i ==> !rs[j].Malformed?
  {
    if rs != [] {
      var init, last := rs[..|rs| - 1], rs[|rs| - 1];
      GatherRaisesFirst(init);
      GatherCompletes(init);
      if Gather(init).Raised? {
        var i :| 0 <= i < |init| && init[i] == Malformed(Gather(init).token)
          && forall j :: 0 <= j < i ==> !init[j].Malformed?;
        assert rs[i] == init[i];
        assert forall j :: 0 <= j < i ==> rs[j] == init[j];
      } else if last.Malformed? {
        assert !HasMalformed(init);
        assert forall j :: 0 <= j < |init| ==> rs[j] == init[j];
      }
    }
  }

  /** The per-line results of a sequence of lines, in order. */
  function ClassifyAll(lines: seq<string>, classify: string -> LineResult): (rs: seq<LineResult>)
    ensures |rs| == |lines| && forall i :: 0 <= i < |lines| ==> rs[i] == classify(lines[i])
  {
    seq(|lines|, i requires 0 <= i < |lines| => classify(lines[i]))
  }

  /**
   * One step of the append loop over `rs`, from a run that has not raised: the
   * next result is skipped, appended, or raised.
   */
  lemma GatherStep(rs: seq<LineResult>, i: nat, s: seq<real>)
    requires i < |rs| && Gather(rs[..i]) == Gathered(s)
    ensures rs[i].NoSample? ==> Gather(rs[..i + 1]) == Gathered(s)
    ensures rs[i].Sample? ==> Gather(rs[..i + 1]) == Gathered(s + [rs[i].ms])
    ensures rs[i].Malformed? ==> Gather(rs[..i + 1]) == Raised(rs[i].token)
  {
    assert rs[..i + 1] == rs[..i] + [rs[i]];
    GatherSnoc(rs[..i], rs[i]);
  }

  /** Taking one more result is one more step of the append loop. */
  lemma GatherSnoc(rs: seq<LineResult>, r: LineResult)
    ensures Gather(rs + [r]) == match Gather(rs)
      case Raised(t) => Raised(t)
      case Gathered(s) =>
        match r
        case NoSample => Gathered(s)
        case Sample(v) => Gathered(s + [v])
        case Malformed(t) => Raised(t)
  {
    assert (rs + [r])[..|rs|] == rs;
  }

  /** Once a token has raised, later lines change nothing: the exception ends the loop. */
  lemma {:induction false} GatherRaisedPersists(rs: seq<LineResult>, k: nat)
    requires k <= |rs| && Gather(rs[..k]).Raised?
    ensures Gather(rs) == Gather(rs[..k])
    decreases |rs| - k
  {
    if k < |rs| {
      assert rs[..k + 1] == rs[..k] + [rs[k]];
      GatherSnoc(rs[..k], rs[k]);
      GatherRaisedPersists(rs, k + 1);
    } else {
      assert rs[..k] == rs;
    }
  }
}
