/**
 * Sequential composition of fallible steps (package flow, flow.go).
 *
 * A step (`Func[T]`) takes the shared context and returns an error or nil.
 * `Steps(ctx, steps...)` calls the steps one after another in list order with
 * the same context, stops at the first non-nil error and returns it unchanged,
 * and returns nil when every step succeeds.
 *
 * Whatever a step does besides returning its error (logging, sleeping, writing
 * through the context pointer) is modelled as a transformation of a world
 * value `W` that is threaded from one step to the next. The context is the
 * handle every step receives; the state behind it is part of the world.
 */
module Flow {

  /** Go's `error` value: `None` is nil, `Some(e)` a non-nil error e. */
  datatype Option<+T> = None | Some(value: T)

  /** `Func[T]`: a step run against the context; it returns its error and the
      world its side effects leave behind. */
  type Func<!T, !W, E> = (T, W) -> (Option<E>, W)

  /** One invocation of step number `index` with context `ctx`, started in
      world `before`, which returned `err` and left world `after`. */
  datatype Call<T, W, E> = Call(index: nat, ctx: T, before: W, err: Option<E>, after: W)

  /** What running a list of steps produces: the returned error, the final
      world and the trace of the calls that were made. */
  datatype Outcome<T, W, E> = Outcome(err: Option<E>, world: W, calls: seq<Call<T, W, E>>)

  /** The world after the calls of a trace (the initial one if there were none). */
  ghost function WorldAfter<T, W, E>(w0: W, calls: seq<Call<T, W, E>>): W
  {
    if calls == [] then w0 else calls[|calls| - 1].after
  }

  /** `calls` are invocations of steps 0, 1, 2, ... in list order, each step at
      most once, each receiving `ctx`, the first starting from `w0` and each
      later one from the world the previous one left, each recording exactly
      what the step returned. */
  ghost predicate Chained<T, W, E>(ctx: T, steps: seq<Func<T, W, E>>, w0: W, calls: seq<Call<T, W, E>>)
  {
    |calls| <= |steps| &&
    (forall i :: 0 <= i < |calls| ==>
      calls[i].index == i && calls[i].ctx == ctx &&
      steps[i](ctx, calls[i].before) == (calls[i].err, calls[i].after)) &&
    (calls != [] ==> calls[0].before == w0) &&
    (forall i :: 0 < i < |calls| ==> calls[i].before == calls[i - 1].after)
  }

  /** Declarative description of a run of `Steps`: the calls form a chain from
      step 0; every call but the last returned nil; a non-nil result is
      exactly the error of the last call made (no wrapping), and a nil result
      means every step was called and the last one returned nil too. */
  ghost predicate IsExecution<T, W, E>(ctx: T, steps: seq<Func<T, W, E>>, w0: W,
                                       calls: seq<Call<T, W, E>>, err: Option<E>, w1: W)
  {
    Chained(ctx, steps, w0, calls) &&
    (forall i :: 0 <= i < |calls| - 1 ==> calls[i].err.None?) &&
    w1 == WorldAfter(w0, calls) &&
    match err
    case None => |calls| == |steps| && (calls == [] || calls[|calls| - 1].err.None?)
    case Some(_) => calls != [] && calls[|calls| - 1].err == err
  }

  /** Reference semantics of `Steps`: run all steps but the last; if that
      failed, its outcome is the answer and the last step is never called;
      otherwise call the last step in the world the others left. */
  ghost function Run<T, W, E>(ctx: T, steps: seq<Func<T, W, E>>, w: W): Outcome<T, W, E>
    decreases |steps|
  {
    if steps == [] then Outcome(None, w, [])
    else
      var prior := Run(ctx, steps[..|steps| - 1], w);
      if prior.err.Some? then prior
      else
        var k := |steps| - 1;
        var (e, after) := steps[k](ctx, prior.world);
        Outcome(e, after, prior.calls + [Call(k, ctx, prior.world, e, after)])
  }

  /** `Steps[T]`: runs the steps consecutively, stopping at the first error. */
  method Steps<T, W, E>(ctx: T, steps: seq<Func<T, W, E>>, w: W)
    returns (err: Option<E>, w': W, ghost calls: seq<Call<T, W, E>>)
    ensures err == Run(ctx, steps, w).err && w' == Run(ctx, steps, w).world
    ensures calls == Run(ctx, steps, w).calls
    ensures IsExecution(ctx, steps, w, calls, err, w')
  {
    w', calls := w, [];
    var i := 0;
    while i < |steps|
      invariant 0 <= i <= |steps|
      invariant Run(ctx, steps[..i], w) == Outcome(None, w', calls)
    {
      var (e, after) := steps[i](ctx, w');
      assert steps[..i + 1][..i] == steps[..i];
      calls := calls + [Call(i, ctx, w', e, after)];
      w' := after;
      if e.Some? {
        RunStopsAtFailure(ctx, steps, w, i + 1);
        RunIsExecution(ctx, steps, w);
        return e, w', calls;
      }
      i := i + 1;
    }
    assert steps[..i] == steps;
    RunIsExecution(ctx, steps, w);
    return None, w', calls;
  }

  /** `Run` meets the declarative description: same context for every call,
      list order, each step at most once, first error returned unchanged. */
  lemma {:induction false} RunIsExecution<T, W, E>(ctx: T, steps: seq<Func<T, W, E>>, w: W)
    ensures var r := Run(ctx, steps, w); IsExecution(ctx, steps, w, r.calls, r.err, r.world)
    decreases |steps|
  {
    if steps != [] {
      var p := steps[..|steps| - 1];
      RunIsExecution(ctx, p, w);
      forall i | 0 <= i < |p| ensures p[i] == steps[i] {}
    }
  }

  /** A run is determined by its inputs: two traces that both meet the
      description agree on the calls, the error and the final world. */
  lemma {:induction false} ExecutionUnique<T, W, E>(ctx: T, steps: seq<Func<T, W, E>>, w0: W,
                                                    calls1: seq<Call<T, W, E>>, err1: Option<E>, w1: W,
                                                    calls2: seq<Call<T, W, E>>, err2: Option<E>, w2: W)
    requires IsExecution(ctx, steps, w0, calls1, err1, w1)
    requires IsExecution(ctx, steps, w0, calls2, err2, w2)
    ensures calls1 == calls2 && err1 == err2 && w1 == w2
  {
    var m := if |calls1| < |calls2| then |calls1| else |calls2|;
    var i := 0;
    while i < m
      invariant 0 <= i <= m
      invariant calls1[..i] == calls2[..i]
    {
      assert calls1[i].before == calls2[i].before by {
        if i > 0 {
          assert calls1[i].before == calls1[i - 1].after;
          assert calls2[i].before == calls2[i - 1].after;
        }
      }
      assert calls1[..i + 1] == calls1[..i] + [calls1[i]];
      assert calls2[..i + 1] == calls2[..i] + [calls2[i]];
      i := i + 1;
    }
    TraceLengthsAgree(ctx, steps, w0, calls1, err1, w1, calls2, err2, w2);
    assert calls1 == calls1[..m] && calls2 == calls2[..m];
  }

  /** Helper of ExecutionUnique: two runs that agree call by call have the
      same number of calls, since only the last call of a run may fail and
      only a complete run may end on a successful call. */
  lemma TraceLengthsAgree<T, W, E>(ctx: T, steps: seq<Func<T, W, E>>, w0: W,
                                   calls1: seq<Call<T, W, E>>, err1: Option<E>, w1: W,
                                   calls2: seq<Call<T, W, E>>, err2: Option<E>, w2: W)
    requires IsExecution(ctx, steps, w0, calls1, err1, w1)
    requires IsExecution(ctx, steps, w0, calls2, err2, w2)
    requires forall i :: 0 <= i < |calls1| && i < |calls2| ==> calls1[i] == calls2[i]
    ensures |calls1| == |calls2|
  {
  }

  /** Steps after a failing one are never called: once a prefix has failed,
      appending more steps changes neither the result, the world nor the trace. */
  lemma {:induction false} RunStopsAtFailure<T, W, E>(ctx: T, steps: seq<Func<T, W, E>>, w: W, k: nat)
    requires k <= |steps|
    requires Run(ctx, steps[..k], w).err.Some?
    ensures Run(ctx, steps, w) == Run(ctx, steps[..k], w)
    decreases |steps|
  {
    if k < |steps| {
      var p := steps[..|steps| - 1];
      assert p[..k] == steps[..k];
      RunStopsAtFailure(ctx, p, w, k);
    } else {
      assert steps[..k] == steps;
    }
  }

  /** If step k is the first to fail, the result is exactly its error, the
      world is the one it left, and the calls are those of steps 0..k-1
      followed by the call of step k. */
  lemma {:induction false} FirstFailureIsReturned<T, W, E>(ctx: T, steps: seq<Func<T, W, E>>, w: W, k: nat)
    requires k < |steps|
    requires Run(ctx, steps[..k], w).err.None?
    requires steps[k](ctx, Run(ctx, steps[..k], w).world).0.Some?
    ensures var prior := Run(ctx, steps[..k], w);
            var res := steps[k](ctx, prior.world);
            Run(ctx, steps, w) == Outcome(res.0, res.1, prior.calls + [Call(k, ctx, prior.world, res.0, res.1)])
  {
    assert steps[..k + 1][..k] == steps[..k];
    RunStopsAtFailure(ctx, steps, w, k + 1);
  }

  /** The result is nil exactly when every step, called in the world its
      predecessors left, returns nil. */
  lemma {:induction false} SucceedsIffEveryStepSucceeds<T, W, E>(ctx: T, steps: seq<Func<T, W, E>>, w: W)
    ensures Run(ctx, steps, w).err.None? <==>
            forall k :: 0 <= k < |steps| ==> steps[k](ctx, Run(ctx, steps[..k], w).world).0.None?
    decreases |steps|
  {
    if steps != [] {
      var n := |steps|;
      var p := steps[..n - 1];
      SucceedsIffEveryStepSucceeds(ctx, p, w);
      forall k | 0 <= k < n - 1 ensures p[k] == steps[k] && p[..k] == steps[..k] {}
    }
  }

  /** With no steps nothing is called, the world is untouched and the
      result is nil. */
  lemma EmptyStepsReturnNil<T, W, E>(ctx: T, steps: seq<Func<T, W, E>>, w0: W,
                                     calls: seq<Call<T, W, E>>, err: Option<E>, w1: W)
    requires steps == []
    requires IsExecution(ctx, steps, w0, calls, err, w1)
    ensures calls == [] && err == None && w1 == w0
  {
  }

  /** When every step returns nil in the world its predecessors left, the
      result is nil and every step was called exactly once, in list order,
      with `ctx`. */
  lemma {:induction false} AllStepsSucceed<T, W, E>(ctx: T, steps: seq<Func<T, W, E>>, w: W)
    requires forall k :: 0 <= k < |steps| ==> steps[k](ctx, Run(ctx, steps[..k], w).world).0.None?
    ensures var r := Run(ctx, steps, w);
            r.err == None && |r.calls| == |steps| &&
            forall i :: 0 <= i < |r.calls| ==> r.calls[i].index == i && r.calls[i].ctx == ctx
  {
    SucceedsIffEveryStepSucceeds(ctx, steps, w);
    RunIsExecution(ctx, steps, w);
  }

  /** Running `s1 + s2` is running `s1` and then, only if it succeeded,
      running `s2` in the world `s1` left. */
  lemma {:induction false} RunAppend<T, W, E>(ctx: T, s1: seq<Func<T, W, E>>, s2: seq<Func<T, W, E>>, w: W)
    ensures var o1 := Run(ctx, s1, w);
            o1.err.Some? ==> Run(ctx, s1 + s2, w) == o1
    ensures var o1 := Run(ctx, s1, w);
            var o2 := Run(ctx, s2, o1.world);
            var o := Run(ctx, s1 + s2, w);
            o1.err.None? ==> o.err == o2.err && o.world == o2.world && |o.calls| == |o1.calls| + |o2.calls|
    decreases |s2|
  {
    if s2 == [] {
      assert s1 + s2 == s1;
    } else {
      var s2' := s2[..|s2| - 1];
      RunAppend(ctx, s1, s2', w);
      assert (s1 + s2)[..|s1 + s2| - 1] == s1 + s2';
      assert (s1 + s2)[|s1 + s2| - 1] == s2[|s2| - 1];
    }
  }

  /** A list of steps composed into a single step. */
  ghost function Sequence<T, W, E>(steps: seq<Func<T, W, E>>): Func<T, W, E>
  {
    (c: T, w: W) => var o := Run(c, steps, w); (o.err, o.world)
  }

  /** Nesting a sequential group as one step of an outer sequence gives the
      same result and world as splicing its steps in place. */
  lemma SequenceFlattens<T, W, E>(ctx: T, s1: seq<Func<T, W, E>>, s2: seq<Func<T, W, E>>,
                                  s3: seq<Func<T, W, E>>, w: W)
    ensures var nested := Run(ctx, s1 + [Sequence(s2)] + s3, w);
            var flat := Run(ctx, s1 + s2 + s3, w);
            nested.err == flat.err && nested.world == flat.world
  {
    var o1 := Run(ctx, s1, w);
    RunAppend(ctx, s1, [Sequence(s2)], w);
    RunAppend(ctx, s1, s2, w);
    RunAppend(ctx, s1 + [Sequence(s2)], s3, w);
    RunAppend(ctx, s1 + s2, s3, w);
    assert [Sequence(s2)][..0] == [];
  }

  /** The first non-nil entry of a list of results, nil if there is none. */
  function FirstError<E>(errs: seq<Option<E>>): (r: Option<E>)
    ensures r.None? <==> forall i :: 0 <= i < |errs| ==> errs[i].None?
    ensures r.Some? ==> exists k :: 0 <= k < |errs| && errs[k] == r &&
                                    forall i :: 0 <= i < k ==> errs[i].None?
  {
    if errs == [] then None
    else if errs[0].Some? then errs[0]
    else
      var r := FirstError(errs[1..]);
      assert forall i :: 1 <= i < |errs| ==> errs[i] == errs[1..][i - 1];
      r
  }

  /** Appending one result: the first error is the earlier one if any. */
  lemma {:induction false} FirstErrorSnoc<E>(errs: seq<Option<E>>, x: Option<E>)
    ensures FirstError(errs + [x]) == if FirstError(errs).Some? then FirstError(errs) else x
  {
    if errs != [] {
      assert (errs + [x])[1..] == errs[1..] + [x];
      FirstErrorSnoc(errs[1..], x);
    }
  }

  /** For steps whose errors do not depend on the world the earlier steps
      left, the result is the first error in list order. */
  lemma {:induction false} WorldIndependentFirstError<T, W, E>(ctx: T, steps: seq<Func<T, W, E>>, w: W)
    requires forall k, v :: 0 <= k < |steps| ==> steps[k](ctx, v).0 == steps[k](ctx, w).0
    ensures Run(ctx, steps, w).err == FirstError(seq(|steps|, k requires 0 <= k < |steps| => steps[k](ctx, w).0))
    decreases |steps|
  {
    if steps != [] {
      var n := |steps|;
      var p := steps[..n - 1];
      // Bound by `:|` so that the world-independence quantifier of the
      // requires clause fires on `u`; a plain `var` binding does not match it.
      var u: W :| u == Run(ctx, p, w).world;
      assert steps[n - 1](ctx, u).0 == steps[n - 1](ctx, w).0;
      forall k, v | 0 <= k < |p| ensures p[k](ctx, v).0 == p[k](ctx, w).0 {
        assert p[k] == steps[k];
      }
      WorldIndependentFirstError(ctx, p, w);
      var errs := seq(n, k requires 0 <= k < n => steps[k](ctx, w).0);
      var errsP := seq(n - 1, k requires 0 <= k < n - 1 => p[k](ctx, w).0);
      assert errs == errsP + [steps[n - 1](ctx, w).0];
      FirstErrorSnoc(errsP, steps[n - 1](ctx, w).0);
    }
  }

  /** A step of the repository's test handler: it appends its number to a
      log (standing for its log line) and returns nil, or the error
      "some random error" when `fails` is set. */
  function LoggingStep(id: nat, fails: bool): Func<(), seq<nat>, string>
  {
    (c: (), log: seq<nat>) => (if fails then Some("some random error") else None, log + [id])
  }

  /** The sequential test cases: step1, step2, step3 all succeed and all
      three run; with step2Error in the middle the call returns its error
      and step3 never runs. */
  lemma TestScenarios()
    ensures Run((), [LoggingStep(1, false), LoggingStep(2, false), LoggingStep(3, false)], []).err == None
    ensures Run((), [LoggingStep(1, false), LoggingStep(2, false), LoggingStep(3, false)], []).world == [1, 2, 3]
    ensures Run((), [LoggingStep(1, false), LoggingStep(2, true), LoggingStep(3, false)], []).err == Some("some random error")
    ensures Run((), [LoggingStep(1, false), LoggingStep(2, true), LoggingStep(3, false)], []).world == [1, 2]
  {
    var ok := [LoggingStep(1, false), LoggingStep(2, false), LoggingStep(3, false)];
    var bad := [LoggingStep(1, false), LoggingStep(2, true), LoggingStep(3, false)];
    assert ok[..2][..1] == bad[..2][..1] == [LoggingStep(1, false)];
    assert [LoggingStep(1, false)][..0] == [];
  }
}
