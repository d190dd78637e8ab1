/**
 * The pattern every core component follows: issue a list of calls one at a time and
 * stop at the first one that reports an error. A script gives the outcome of the n-th
 * call ever issued (success past its end), and Run is the trace and result of issuing a
 * plan after the calls in a log.
 */
module FailFast {
  import opened Wrappers
  import opened Errors

  /** The outcome of the n-th call: script[n], or success past the end of the script. */
  function Outcome(script: seq<Option<Error>>, n: nat): Option<Error> {
    if n < |script| then script[n] else None
  }

  /**
   * Issuing plan after the calls in log: each call is recorded, and the first one
   * answered with an error ends the run with that error.
   */
  function Run<T>(script: seq<Option<Error>>, log: seq<T>, plan: seq<T>): (r: (seq<T>, Option<Error>))
    ensures |log| <= |r.0| <= |log| + |plan| && r.0 == log + plan[..|r.0| - |log|]
    ensures forall n :: |log| <= n < |r.0| - 1 ==> Outcome(script, n).None?
    ensures r.1.None? ==> r.0 == log + plan && (|plan| > 0 ==> Outcome(script, |r.0| - 1).None?)
    ensures r.1.Some? ==> |r.0| > |log| && r.1 == Outcome(script, |r.0| - 1)
    decreases |plan|
  {
    if |plan| == 0 then (log, None)
    else if Outcome(script, |log|).Some? then (log + [plan[0]], Outcome(script, |log|))
    else
      var r := Run(script, log + [plan[0]], plan[1..]);
      assert log + [plan[0]] + plan[1..][..|r.0| - |log| - 1] == log + plan[..|r.0| - |log|];
      r
  }

  /** The first call of a plan is issued; the rest follow only if it succeeds. */
  lemma RunStep<T>(script: seq<Option<Error>>, log: seq<T>, c: T, rest: seq<T>)
    ensures Run(script, log, [c] + rest) ==
      if Outcome(script, |log|).Some? then (log + [c], Outcome(script, |log|)) else Run(script, log + [c], rest)
  {
    assert ([c] + rest)[0] == c && ([c] + rest)[1..] == rest;
  }

  /** A plan of one call: it is issued and its outcome is the result. */
  lemma RunSingle<T>(script: seq<Option<Error>>, log: seq<T>, a: T)
    ensures Run(script, log, [a]) == (log + [a], Outcome(script, |log|))
  {
    assert [a][1..] == [];
  }

  /** A plan of two calls: the second follows only if the first succeeds. */
  lemma RunPair<T>(script: seq<Option<Error>>, log: seq<T>, a: T, b: T)
    ensures Run(script, log, [a, b]) ==
      if Outcome(script, |log|).Some? then (log + [a], Outcome(script, |log|)) else Run(script, log + [a], [b])
  {
    assert [a, b][1..] == [b];
  }

  /** A plan of three calls: the rest follow only if the first succeeds. */
  lemma RunTriple<T>(script: seq<Option<Error>>, log: seq<T>, a: T, b: T, c: T)
    ensures Run(script, log, [a, b, c]) ==
      if Outcome(script, |log|).Some? then (log + [a], Outcome(script, |log|)) else Run(script, log + [a], [b, c])
  {
    assert [a, b, c][1..] == [b, c];
  }

  /** Running a + b: b runs only when a ran without an error. */
  lemma {:induction false} RunAppend<T>(script: seq<Option<Error>>, log: seq<T>, a: seq<T>, b: seq<T>)
    ensures Run(script, log, a + b) ==
      if Run(script, log, a).1.Some? then Run(script, log, a) else Run(script, Run(script, log, a).0, b)
    decreases |a|
  {
    if |a| > 0 {
      assert (a + b)[0] == a[0] && (a + b)[1..] == a[1..] + b;
      if Outcome(script, |log|).None? {
        RunAppend(script, log + [a[0]], a[1..], b);
      }
    } else {
      assert a + b == b;
    }
  }

  /** The run ends at the first call answered with an error, having issued it and everything before it. */
  lemma {:induction false} RunFirstError<T>(script: seq<Option<Error>>, log: seq<T>, plan: seq<T>, k: nat)
    requires k < |plan| && Outcome(script, |log| + k).Some?
    requires forall n :: |log| <= n < |log| + k ==> Outcome(script, n).None?
    ensures Run(script, log, plan) == (log + plan[..k + 1], Outcome(script, |log| + k))
    decreases k
  {
    if k > 0 {
      assert Outcome(script, |log|).None?;
      RunFirstError(script, log + [plan[0]], plan[1..], k - 1);
      assert log + [plan[0]] + plan[1..][..k] == log + plan[..k + 1];
    }
  }

  /** When no call of the plan is answered with an error, the whole plan is issued. */
  lemma {:induction false} RunNoError<T>(script: seq<Option<Error>>, log: seq<T>, plan: seq<T>)
    requires forall n :: |log| <= n < |log| + |plan| ==> Outcome(script, n).None?
    ensures Run(script, log, plan) == (log + plan, None)
    decreases |plan|
  {
    if |plan| > 0 {
      assert Outcome(script, |log|).None?;
      RunNoError(script, log + [plan[0]], plan[1..]);
      assert log + [plan[0]] + plan[1..] == log + plan;
    }
  }
}
