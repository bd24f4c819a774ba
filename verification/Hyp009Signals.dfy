/** Month-end LONG/CASH signals: a ten-level moving average over one continuous level series, and
    the later partition's loop that stitches a sealed nine-level tail to its own levels. */
module Hyp009Signals {
  import opened Common

  datatype State = LONG | CASH

  datatype Signal =
    Signal(decision: int, level: real, sma: real, state: State, priorState: Option<State>, transition: bool)

  /** The naive average of the last ten levels of a series, at position k. */
  function Sma10(series: seq<real>, k: nat): real
    requires 9 <= k < |series|
  {
    Sum(series[k - 9..k + 1]) / 10.0
  }

  /** Ten times the average is the sum of the level at k and the nine before it. */
  lemma TenLevels(series: seq<real>, k: nat)
    requires 9 <= k < |series|
    ensures 10.0 * Sma10(series, k) ==
      series[k - 9] + series[k - 8] + series[k - 7] + series[k - 6] + series[k - 5]
      + series[k - 4] + series[k - 3] + series[k - 2] + series[k - 1] + series[k]
  {
    var w := series[k - 9..k + 1];
    FrontSum(w, 9);
    FrontSum(w, 7);
    FrontSum(w, 5);
    FrontSum(w, 3);
    FrontSum(w, 1);
    assert w[..10] == w && w[..0] == [];
  }

  lemma FrontSum(xs: seq<real>, n: nat)
    requires 1 <= n < |xs|
    ensures Sum(xs[..n + 1]) == Sum(xs[..n - 1]) + xs[n - 1] + xs[n]
  {
    assert xs[..n + 1][..n] == xs[..n] && xs[..n][..n - 1] == xs[..n - 1];
  }

  /** Equality is CASH. */
  function StateAt(series: seq<real>, k: nat): State
    requires 9 <= k < |series|
  {
    if series[k] > Sma10(series, k) then LONG else CASH
  }

  /** The signal the rule prescribes at position k when the state before it was `prior`. */
  function SignalAt(series: seq<real>, dates: seq<int>, k: nat, prior: Option<State>): Signal
    requires 9 <= k < |series| && k < |dates|
  {
    var state := StateAt(series, k);
    Signal(dates[k], series[k], Sma10(series, k), state, prior, prior.Some? && state != prior.value)
  }

  /** Every signal of the series from position k on, chaining states. */
  function SignalsFrom(series: seq<real>, dates: seq<int>, k: nat, prior: Option<State>): (r: seq<Signal>)
    requires 9 <= k <= |series| == |dates|
    ensures |r| == |series| - k
    decreases |series| - k
  {
    if k == |series| then []
    else
      var s := SignalAt(series, dates, k, prior);
      [s] + SignalsFrom(series, dates, k + 1, Some(s.state))
  }

  lemma {:induction false} SignalsFromAt(series: seq<real>, dates: seq<int>, k: nat, prior: Option<State>, i: nat)
    requires 9 <= k <= |series| == |dates| && i < |series| - k
    ensures SignalsFrom(series, dates, k, prior)[i] ==
      SignalAt(series, dates, k + i, if i == 0 then prior else Some(StateAt(series, k + i - 1)))
    decreases i
  {
    if i > 0 {
      SignalsFromAt(series, dates, k + 1, Some(StateAt(series, k)), i - 1);
    }
  }

  /** Signal i of the first partition: its own date and level against the average ending there, the state
      before it if there is one, and a transition exactly on a change. */
  lemma FirstPartitionSignal(levels: seq<real>, dates: seq<int>, i: nat)
    requires |levels| == |dates| && 9 + i < |levels|
    ensures var s := SignalsFrom(levels, dates, 9, None)[i];
      var k := 9 + i;
      && s.decision == dates[k] && s.level == levels[k] && s.sma == Sma10(levels, k)
      && (s.state == LONG <==> levels[k] > Sma10(levels, k))
      && (i == 0 ==> s.priorState == None && !s.transition)
      && (i > 0 ==> s.priorState == Some(SignalsFrom(levels, dates, 9, None)[i - 1].state)
                    && (s.transition <==> s.state != s.priorState.value))
  {
    SignalsFromAt(levels, dates, 9, None, i);
    if i > 0 {
      SignalsFromAt(levels, dates, 9, None, i - 1);
      assert SignalsFrom(levels, dates, 9, None)[i - 1].state == StateAt(levels, 8 + i);
    }
  }

  // ----- The two loops of the scripts -----

  /** First-partition loop: refuses fewer than ten month-ends; windows end at the current level, and the
      first signal has no prior state, so it is never a transition. */
  method ComputeSignalStates(levels: seq<real>, dates: seq<int>) returns (signals: Option<seq<Signal>>)
    requires |levels| == |dates|
    ensures signals == if |levels| < 10 then None else Some(SignalsFrom(levels, dates, 9, None))
  {
    if |levels| < 10 {
      return None;
    }
    ghost var all := SignalsFrom(levels, dates, 9, None);
    var found: seq<Signal> := [];
    var prior: Option<State> := None;
    for i := 9 to |levels|
      invariant found == all[..i - 9]
      invariant prior == if i == 9 then None else Some(StateAt(levels, i - 1))
    {
      var total := SumLoop(levels[i - 9..i + 1]);
      var sma := total / 10.0;
      var state := if levels[i] > sma then LONG else CASH;
      SignalsFromAt(levels, dates, 9, None, i - 9);
      found := found + [Signal(dates[i], levels[i], sma, state, prior, prior.Some? && state != prior.value)];
      prior := Some(state);
    }
    assert found == all;
    return Some(found);
  }

  method SumLoop(xs: seq<real>) returns (total: real)
    ensures total == Sum(xs)
  {
    total := 0.0;
    for i := 0 to |xs|
      invariant total == Sum(xs[..i])
    {
      total := total + xs[i];
      assert xs[..i + 1][..i] == xs[..i];
    }
    assert xs[..|xs|] == xs;
  }

  /** Second-partition loop: windows of the stitched series, states chained from a frozen LONG. */
  method StitchedSignals(tail: seq<real>, levels: seq<real>, dates: seq<int>) returns (signals: seq<Signal>)
    requires |tail| == 9 && |levels| == |dates|
    ensures signals == StitchedSpec(tail, levels, dates)
  {
    var continuous := tail + levels;
    var stamps := seq(9, i => 0) + dates;
    signals := [];
    var prior := LONG;
    for i := 0 to |levels|
      invariant signals == StitchedSpec(tail, levels, dates)[..i]
      invariant prior == if i == 0 then LONG else StateAt(continuous, 9 + i - 1)
    {
      var window := continuous[i..i + 10];
      var total := SumLoop(window);
      var sma := total / 10.0;
      var level := levels[i];
      var state := if level > sma then LONG else CASH;
      SignalsFromAt(continuous, stamps, 9, Some(LONG), i);
      signals := signals + [Signal(dates[i], level, sma, state, Some(prior), state != prior)];
      prior := state;
    }
  }

  function StitchedSpec(tail: seq<real>, levels: seq<real>, dates: seq<int>): (r: seq<Signal>)
    requires |tail| == 9 && |levels| == |dates|
    ensures |r| == |levels|
  {
    SignalsFrom(tail + levels, seq(9, i => 0) + dates, 9, Some(LONG))
  }

  // ----- Stitching preserves meaning -----

  lemma WindowOfStitchedSeries(before: seq<real>, levels: seq<real>, i: nat)
    requires 9 <= |before| && i < |levels|
    ensures Sma10(before[|before| - 9..] + levels, 9 + i) == Sma10(before + levels, |before| + i)
    ensures StateAt(before[|before| - 9..] + levels, 9 + i) == StateAt(before + levels, |before| + i)
  {
    var k := |before| + i;
    assert (before[|before| - 9..] + levels)[i..i + 10] == (before + levels)[k - 9..k + 1];
  }

  /** The stitched signal at month i is the one the naive ten-level average of the whole history
      gives there, and its prior state is the previous month's. */
  lemma StitchedSignalIsNaive(before: seq<real>, levels: seq<real>, dates: seq<int>, i: nat)
    requires 9 <= |before| && |levels| == |dates| && i < |levels|
    ensures var s := StitchedSpec(before[|before| - 9..], levels, dates)[i];
      var k := |before| + i;
      && s.decision == dates[i] && s.level == levels[i]
      && s.sma == Sma10(before + levels, k)
      && s.state == (if levels[i] > Sma10(before + levels, k) then LONG else CASH)
      && s.priorState == Some(if i == 0 then LONG else StateAt(before + levels, k - 1))
      && s.transition == (s.state != s.priorState.value)
  {
    var tail := before[|before| - 9..];
    SignalsFromAt(tail + levels, seq(9, j => 0) + dates, 9, Some(LONG), i);
    WindowOfStitchedSeries(before, levels, i);
    if i > 0 {
      WindowOfStitchedSeries(before, levels, i - 1);
    }
  }

  /** The signal at month i of the later partition, as one run over the whole history and as the
      stitched loop compute it. */
  lemma BothRunsAt(before: seq<real>, levels: seq<real>, earlier: seq<int>, dates: seq<int>, i: nat)
    requires 10 <= |before| == |earlier| && |levels| == |dates| && i < |levels|
    ensures var series, stamps, k := before + levels, earlier + dates, |before| + i;
      var held := StateAt(series, k - 1);
      && SignalsFrom(series, stamps, 9, None)[k - 9] == SignalAt(series, stamps, k, Some(held))
      && StitchedSpec(before[|before| - 9..], levels, dates)[i]
         == SignalAt(series, stamps, k, Some(if i == 0 then LONG else held))
  {
    SignalsFromAt(before + levels, earlier + dates, 9, None, |before| + i - 9);
    StitchedSignalIsNaive(before, levels, dates, i);
  }

  /** Running the first-partition loop over the whole history gives the same later signals, exactly
      when the state it had reached is the frozen LONG the second partition starts from. */
  lemma StitchingAgreesWithOneRun(before: seq<real>, levels: seq<real>, earlier: seq<int>, dates: seq<int>)
    requires 10 <= |before| == |earlier| && |levels| == |dates| && 1 <= |levels|
    ensures SignalsFrom(before + levels, earlier + dates, 9, None)[|before| - 9..]
         == StitchedSpec(before[|before| - 9..], levels, dates)
       <==> StateAt(before + levels, |before| - 1) == LONG
  {
    var whole := SignalsFrom(before + levels, earlier + dates, 9, None)[|before| - 9..];
    var stitched := StitchedSpec(before[|before| - 9..], levels, dates);
    BothRunsAt(before, levels, earlier, dates, 0);
    if StateAt(before + levels, |before| - 1) == LONG {
      forall i | 0 <= i < |levels|
        ensures whole[i] == stitched[i]
      {
        BothRunsAt(before, levels, earlier, dates, i);
      }
    } else {
      assert whole[0] != stitched[0];
    }
  }

  /** Causality: levels that agree through month i give the same signals through month i. */
  lemma SignalsAreCausal(tail: seq<real>, a: seq<real>, b: seq<real>, dates: seq<int>, i: nat)
    requires |tail| == 9 && |a| == |b| == |dates| && i < |a| && a[..i + 1] == b[..i + 1]
    ensures StitchedSpec(tail, a, dates)[..i + 1] == StitchedSpec(tail, b, dates)[..i + 1]
  {
    forall j | 0 <= j <= i
      ensures StitchedSpec(tail, a, dates)[j] == StitchedSpec(tail, b, dates)[j]
    {
      SameLevel(a, b, i, j);
      StitchedSignalIsNaive(tail, a, dates, j);
      StitchedSignalIsNaive(tail, b, dates, j);
      SameWindow(tail, a, b, i, j);
      if j > 0 {
        SameLevel(a, b, i, j - 1);
        SameWindow(tail, a, b, i, j - 1);
      }
      assert tail[|tail| - 9..] == tail;
    }
  }

  lemma SameLevel(a: seq<real>, b: seq<real>, i: nat, j: nat)
    requires i < |a| && i < |b| && a[..i + 1] == b[..i + 1] && j <= i
    ensures a[j] == b[j]
  {
    assert a[..i + 1][j] == b[..i + 1][j];
  }

  lemma SameWindow(tail: seq<real>, a: seq<real>, b: seq<real>, i: nat, j: nat)
    requires |tail| == 9 && |a| == |b| && i < |a| && a[..i + 1] == b[..i + 1] && j <= i
    ensures StateAt(tail + a, 9 + j) == StateAt(tail + b, 9 + j) && Sma10(tail + a, 9 + j) == Sma10(tail + b, 9 + j)
  {
    forall k | 0 <= k <= i
      ensures a[k] == b[k]
    {
      SameLevel(a, b, i, k);
    }
    assert (tail + a)[j..j + 10] == (tail + b)[j..j + 10];
  }
}
