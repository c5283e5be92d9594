/** Measuring around simulated calls (EthereumService.ts, `callStaticSequenceWithMeasure`): fees are
    read off as the difference of a measurement before and after each call. */
module MeasuredCalls {

  /** The state after these calls. */
  function After<S(!new), C, R>(run: (S, C) -> (S, R), start: S, calls: seq<C>): S {
    if calls == [] then start else run(After(run, start, calls[..|calls| - 1]), calls[|calls| - 1]).0
  }

  /** What the calls return, one after the other. */
  function Results<S(!new), C, R>(run: (S, C) -> (S, R), start: S, calls: seq<C>): (results: seq<R>)
    ensures |results| == |calls|
  {
    if calls == [] then []
    else
      var front, last := calls[..|calls| - 1], calls[|calls| - 1];
      Results(run, start, front) + [run(After(run, start, front), last).1]
  }

  function Interleaved<C>(measureCall: C, calls: seq<C>): (r: seq<C>)
    ensures |r| == 2 * |calls| + 1
  {
    if calls == [] then [measureCall]
    else Interleaved(measureCall, calls[..|calls| - 1]) + [calls[|calls| - 1], measureCall]
  }

  function AtEven<R>(s: seq<R>): (r: seq<R>)
    ensures |r| == (|s| + 1) / 2
  {
    seq((|s| + 1) / 2, i requires 0 <= i < (|s| + 1) / 2 => s[2 * i])
  }

  function AtOdd<R>(s: seq<R>): (r: seq<R>)
    ensures |r| == |s| / 2
  {
    seq(|s| / 2, i requires 0 <= i < |s| / 2 => s[2 * i + 1])
  }

  ghost predicate LeavesNoTrace<S(!new), C, R>(run: (S, C) -> (S, R), call: C) {
    forall s {:trigger run(s, call)} :: run(s, call).0 == s
  }

  lemma AfterTwo<S(!new), C, R>(run: (S, C) -> (S, R), start: S, calls: seq<C>, a: C, b: C)
    ensures After(run, start, calls + [a, b]) == run(run(After(run, start, calls), a).0, b).0
    ensures Results(run, start, calls + [a, b])
            == Results(run, start, calls)
               + [run(After(run, start, calls), a).1, run(run(After(run, start, calls), a).0, b).1]
  {
    var all := calls + [a, b];
    assert all[..|all| - 1] == calls + [a];
    assert (calls + [a])[..|calls|] == calls;
  }

  lemma {:induction false} MeasuringIsHarmless<S(!new), C, R>(run: (S, C) -> (S, R), start: S,
                                                                 measureCall: C, calls: seq<C>)
    requires LeavesNoTrace(run, measureCall)
    ensures After(run, start, Interleaved(measureCall, calls)) == After(run, start, calls)
    ensures var results := Results(run, start, Interleaved(measureCall, calls));
            && AtOdd(results) == Results(run, start, calls)
            && forall k :: 0 <= k <= |calls| ==>
                 AtEven(results)[k] == run(After(run, start, calls[..k]), measureCall).1
  {
    if calls == [] {
      assert Interleaved(measureCall, calls) == [measureCall];
      assert [measureCall][..0] == [];
    } else {
      var front, last := calls[..|calls| - 1], calls[|calls| - 1];
      MeasuringIsHarmless(run, start, measureCall, front);
      AfterTwo(run, start, Interleaved(measureCall, front), last, measureCall);
      var results := Results(run, start, Interleaved(measureCall, calls));
      var before := Results(run, start, Interleaved(measureCall, front));
      assert AtOdd(results) == AtOdd(before) + [results[2 * |front| + 1]];
      forall k | 0 <= k <= |calls|
        ensures AtEven(results)[k] == run(After(run, start, calls[..k]), measureCall).1
      {
        if k < |calls| {
          assert calls[..k] == front[..k];
          assert AtEven(results)[k] == AtEven(before)[k];
        } else {
          assert calls[..k] == calls;
        }
      }
    }
  }

  lemma {:induction false} ResultsAt<S(!new), C, R>(run: (S, C) -> (S, R), start: S, calls: seq<C>, i: nat)
    requires i < |calls|
    ensures Results(run, start, calls)[i] == run(After(run, start, calls[..i]), calls[i]).1
    decreases |calls|
  {
    var n := |calls| - 1;
    if i == n {
    } else {
      ResultsAt(run, start, calls[..n], i);
      assert calls[..n][..i] == calls[..i];
    }
  }

  lemma {:induction false} InterleavedAt<C>(measureCall: C, calls: seq<C>, k: nat)
    requires k <= |calls|
    ensures Interleaved(measureCall, calls)[..2 * k + 1] == Interleaved(measureCall, calls[..k])
    ensures Interleaved(measureCall, calls)[2 * k] == measureCall
    ensures k < |calls| ==> Interleaved(measureCall, calls)[2 * k + 1] == calls[k]
    decreases |calls|
  {
    if k == |calls| {
      assert calls[..k] == calls;
    } else {
      var n := |calls| - 1;
      InterleavedAt(measureCall, calls[..n], k);
      assert calls[..n][..k] == calls[..k];
    }
  }

  /** Every result is that of its call in the state the calls before it left, measurements included. */
  ghost predicate InOrder<S(!new), C, R>(run: (S, C) -> (S, R), start: S, measureCall: C, calls: seq<C>,
                                               measureResults: seq<R>, callResults: seq<R>) {
    var all := Interleaved(measureCall, calls);
    && |callResults| == |calls| && |measureResults| == |calls| + 1
    && (forall k :: 0 <= k < |calls| ==> callResults[k] == run(After(run, start, all[..2 * k + 1]), calls[k]).1)
    && (forall k :: 0 <= k <= |calls| ==> measureResults[k] == run(After(run, start, all[..2 * k]), measureCall).1)
  }

  lemma SplitInOrder<S(!new), C, R>(run: (S, C) -> (S, R), start: S, measureCall: C, calls: seq<C>)
    ensures var results := Results(run, start, Interleaved(measureCall, calls));
            InOrder(run, start, measureCall, calls, AtEven(results), AtOdd(results))
  {
    var all := Interleaved(measureCall, calls);
    forall k | 0 <= k < |calls|
      ensures AtOdd(Results(run, start, all))[k] == run(After(run, start, all[..2 * k + 1]), calls[k]).1
    {
      InterleavedAt(measureCall, calls, k);
      ResultsAt(run, start, all, 2 * k + 1);
    }
    forall k | 0 <= k <= |calls|
      ensures AtEven(Results(run, start, all))[k] == run(After(run, start, all[..2 * k]), measureCall).1
    {
      InterleavedAt(measureCall, calls, k);
      ResultsAt(run, start, all, 2 * k);
    }
  }

  /** If measuring changes nothing, as reading a balance does, each call returns what it would without
      the measurements, and those around it are of the states just before and just after it. */
  method CallStaticSequenceWithMeasure<S(!new), C, R>(run: (S, C) -> (S, R), start: S, measureCall: C,
                                                            calls: seq<C>)
    returns (measureResults: seq<R>, callResults: seq<R>)
    ensures InOrder(run, start, measureCall, calls, measureResults, callResults)
    ensures LeavesNoTrace(run, measureCall) ==>
              && callResults == Results(run, start, calls)
              && forall k :: 0 <= k <= |calls| ==>
                   measureResults[k] == run(After(run, start, calls[..k]), measureCall).1
  {
    var fullCalls := [measureCall];
    for i := 0 to |calls|
      invariant fullCalls == Interleaved(measureCall, calls[..i])
    {
      assert calls[..i + 1][..i] == calls[..i];
      fullCalls := fullCalls + [calls[i], measureCall];
    }
    assert calls[..|calls|] == calls;
    var fullResults := Results(run, start, fullCalls);
    SplitInOrder(run, start, measureCall, calls);
    if LeavesNoTrace(run, measureCall) {
      MeasuringIsHarmless(run, start, measureCall, calls);
    }
    measureResults, callResults := AtEven(fullResults), AtOdd(fullResults);
  }
}
