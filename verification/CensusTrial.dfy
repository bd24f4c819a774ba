/** One in-sample census trial: lookback feature, next-bar label, ternary signal with a deadband, and
    friction subtracted in place from the active bars. Arithmetic is exact. */
module CensusTrial {
  import opened Common

  const HORIZON := 1
  const MINIMUM := 10

  /** Prices of the in-sample slice, all positive. */
  ghost predicate Prices(closes: seq<real>, opens: seq<real>) {
    && |closes| == |opens|
    && (forall i :: 0 <= i < |closes| ==> closes[i] > 0.0 && opens[i] > 0.0)
  }

  /** Momentum over the lookback, known at bar t. */
  function Feature(closes: seq<real>, t: nat, lookback: nat): real
    requires lookback <= t < |closes| && closes[t - lookback] != 0.0
  {
    (closes[t] - closes[t - lookback]) / closes[t - lookback]
  }

  /** Open-to-close return of the next bar. */
  function Label(closes: seq<real>, opens: seq<real>, t: nat): real
    requires t + HORIZON < |closes| == |opens| && opens[t + 1] != 0.0
  {
    (closes[t + HORIZON] - opens[t + 1]) / opens[t + 1]
  }

  function Signal(x: real, deadband: real): int {
    if x > deadband then 1 else if x < -deadband then -1 else 0
  }

  /** How many bars take a position. */
  function Active(signals: seq<int>): nat {
    if signals == [] then 0 else Active(signals[..|signals| - 1]) + if signals[|signals| - 1] != 0 then 1 else 0
  }

  /** Return of the position taken. */
  function Taken(gross: real, signal: int): real {
    gross * signal as real
  }

  /** The masked selection: label times signal on the active bars, in order. */
  function Gross(labels: seq<real>, signals: seq<int>): seq<real>
    requires |labels| == |signals|
  {
    if labels == [] then []
    else
      var n := |labels| - 1;
      var before := Gross(labels[..n], signals[..n]);
      if signals[n] != 0 then before + [Taken(labels[n], signals[n])] else before
  }

  /** One friction for each active bar. */
  function Friction(signals: seq<int>, friction: real): real {
    if signals == [] then 0.0
    else Friction(signals[..|signals| - 1], friction) + if signals[|signals| - 1] != 0 then friction else 0.0
  }

  /** The friction charged is the trade count times the friction of one trade. */
  lemma {:induction false} FrictionIsPerTrade(signals: seq<int>, friction: real)
    ensures Friction(signals, friction) == Active(signals) as real * friction
  {
    if signals != [] {
      var front := signals[..|signals| - 1];
      FrictionIsPerTrade(front, friction);
      assert (Active(front) + 1) as real * friction == Active(front) as real * friction + friction;
    }
  }

  datatype Trial = Trial(labels: seq<real>, signals: seq<int>, trades: nat, net: seq<real>, strategy: seq<real>)

  /** Signals and labels of consecutive bars from the first with a full lookback. */
  ghost predicate Observed(
    closes: seq<real>, opens: seq<real>, lookback: nat, deadband: real, labels: seq<real>, signals: seq<int>)
    requires Prices(closes, opens) && lookback + |labels| + HORIZON <= |closes|
  {
    && |labels| == |signals|
    && (forall k :: 0 <= k < |labels| ==> signals[k] == Signal(Feature(closes, lookback + k, lookback), deadband))
    && (forall k :: 0 <= k < |labels| ==> labels[k] == Label(closes, opens, lookback + k))
  }

  // ----- The trial in prices -----

  /** Long above the deadband, short below it, idle inside: the close of bar t against the close a lookback
      before. */
  ghost predicate Direction(closes: seq<real>, lookback: nat, deadband: real, t: nat, signal: int)
    requires lookback <= t < |closes|
  {
    var now, before := closes[t], closes[t - lookback];
    && (signal == 1 <==> now > before * (1.0 + deadband))
    && (signal == -1 <==> now <= before * (1.0 + deadband) && now < before * (1.0 - deadband))
    && signal in {-1, 0, 1}
  }

  /** What bar t earns: the next bar's close over its open, less one; its negative for a short; less one
      friction when a position is taken, and nothing otherwise. */
  ghost predicate Earns(closes: seq<real>, opens: seq<real>, friction: real, t: nat, signal: int, earned: real)
    requires t + 1 < |closes| == |opens| && opens[t + 1] > 0.0
  {
    var gain := closes[t + 1] / opens[t + 1] - 1.0;
    && (signal == 1 ==> earned == gain - friction)
    && (signal == -1 ==> earned == -gain - friction)
    && (signal == 0 ==> earned == 0.0)
  }

  lemma QuotientAbove(x: real, base: real, bound: real)
    requires base > 0.0
    ensures (x - base) / base > bound <==> x > base * (1.0 + bound)
    ensures (x - base) / base < -bound <==> x < base * (1.0 - bound)
  {
    var q := (x - base) / base;
    assert q * base == x - base;
    assert base * (1.0 + bound) == base + bound * base && base * (1.0 - bound) == base - bound * base;
    SameSide(q, bound, base);
    SameSide(-bound, q, base);
    assert (-bound) * base == -(bound * base);
  }

  lemma SameSide(a: real, b: real, base: real)
    requires base > 0.0
    ensures a > b <==> a * base > b * base
  {
    if a > b {
      assert (a - b) * base > 0.0;
    } else {
      assert (b - a) * base >= 0.0;
    }
  }

  lemma SignalInPrices(closes: seq<real>, lookback: nat, deadband: real, t: nat)
    requires lookback <= t < |closes| && closes[t - lookback] > 0.0
    ensures Direction(closes, lookback, deadband, t, Signal(Feature(closes, t, lookback), deadband))
  {
    QuotientAbove(closes[t], closes[t - lookback], deadband);
  }

  lemma LabelInPrices(closes: seq<real>, opens: seq<real>, t: nat)
    requires t + 1 < |closes| == |opens| && opens[t + 1] > 0.0
    ensures Label(closes, opens, t) == closes[t + 1] / opens[t + 1] - 1.0
  {
    var o := opens[t + 1];
    assert o / o == 1.0;
    assert (closes[t + 1] - o) / o == closes[t + 1] / o - o / o;
  }

  /** Bar k of an observed trial, in prices. */
  ghost predicate TradedAt(
    closes: seq<real>, opens: seq<real>, lookback: nat, deadband: real, friction: real, signal: int, earned: real, k: nat)
    requires Prices(closes, opens) && lookback + k + 1 < |closes|
  {
    && Direction(closes, lookback, deadband, lookback + k, signal)
    && Earns(closes, opens, friction, lookback + k, signal, earned)
  }

  lemma ChargedInPrices(
    closes: seq<real>, opens: seq<real>, lookback: nat, deadband: real, friction: real,
    labels: seq<real>, signals: seq<int>, k: nat)
    requires Prices(closes, opens) && lookback + |labels| + HORIZON <= |closes|
    requires Observed(closes, opens, lookback, deadband, labels, signals) && k < |labels|
    ensures TradedAt(closes, opens, lookback, deadband, friction, signals[k], Charged(labels, signals, friction, k), k)
  {
    SignalInPrices(closes, lookback, deadband, lookback + k);
    LabelInPrices(closes, opens, lookback + k);
  }

  /** Every valid bar: those with a full lookback behind them and a bar after them. Each index read lies
      inside the slice. */
  method Observe(closes: seq<real>, opens: seq<real>, lookback: nat, deadband: real, count: nat)
    returns (labels: seq<real>, signals: seq<int>)
    requires Prices(closes, opens) && lookback + count + HORIZON <= |closes|
    ensures |labels| == count && Observed(closes, opens, lookback, deadband, labels, signals)
    ensures forall k :: 0 <= k < count ==>
      && Direction(closes, lookback, deadband, lookback + k, signals[k])
      && labels[k] == closes[lookback + k + 1] / opens[lookback + k + 1] - 1.0
  {
    labels, signals := [], [];
    for k := 0 to count
      invariant |labels| == |signals| == k
      invariant forall j :: 0 <= j < k ==> signals[j] == Signal(Feature(closes, lookback + j, lookback), deadband)
      invariant forall j :: 0 <= j < k ==> labels[j] == Label(closes, opens, lookback + j)
    {
      signals := signals + [Signal(Feature(closes, lookback + k, lookback), deadband)];
      labels := labels + [Label(closes, opens, lookback + k)];
    }
    forall k | 0 <= k < count
      ensures Direction(closes, lookback, deadband, lookback + k, signals[k])
      ensures labels[k] == closes[lookback + k + 1] / opens[lookback + k + 1] - 1.0
    {
      SignalInPrices(closes, lookback, deadband, lookback + k);
      LabelInPrices(closes, opens, lookback + k);
    }
  }

  /** One trial. The friction of all trades, and nothing else, separates the net strategy series from the
      gross active returns. */
  method RunTrial(closes: seq<real>, opens: seq<real>, lookback: nat, deadband: real, friction: real) returns (r: Option<Trial>)
    requires Prices(closes, opens)
    ensures r.None? <==> |closes| - 1 - lookback < 10
    ensures r.Some? ==>
      var t := r.value;
      && |t.labels| == |t.strategy| == |closes| - 1 - lookback
      && Observed(closes, opens, lookback, deadband, t.labels, t.signals)
      && |t.signals| == |t.labels|
      && (forall k :: 0 <= k < |t.strategy| ==>
            TradedAt(closes, opens, lookback, deadband, friction, t.signals[k], t.strategy[k], k))
      && t.trades == Active(t.signals) == |t.net|
      && (forall k :: 0 <= k < |t.signals| && t.signals[k] != 0 ==>
            var active := Active(t.signals[..k]); active < |t.net| && t.net[active] == t.strategy[k])
      && Sum(t.strategy) == Sum(Gross(t.labels, t.signals)) - Friction(t.signals, friction)
      && Sum(t.net) == Sum(t.strategy)
  {
    var n := |closes|;
    if n - lookback < MINIMUM || n - HORIZON - lookback < MINIMUM {
      return None;
    }
    var labels, signals := Observe(closes, opens, lookback, deadband, n - HORIZON - lookback);
    var strategy := StrategyReturns(labels, signals, friction);
    var net := NetActive(labels, signals, friction);
    forall k | 0 <= k < |strategy|
      ensures TradedAt(closes, opens, lookback, deadband, friction, signals[k], strategy[k], k)
    {
      ChargedInPrices(closes, opens, lookback, deadband, friction, labels, signals, k);
    }
    assert forall k :: 0 <= k < |signals| && signals[k] != 0 ==> NetAt(labels, signals, friction, k, net);
    return Some(Trial(labels, signals, |net|, net, strategy));
  }

  method StrategyReturns(labels: seq<real>, signals: seq<int>, friction: real) returns (r: seq<real>)
    requires |labels| == |signals|
    ensures |r| == |labels| && Sum(r) == Sum(Gross(labels, signals)) - Friction(signals, friction)
    ensures forall k :: 0 <= k < |r| ==> r[k] == Charged(labels, signals, friction, k)
  {
    var strategy := new real[|labels|](k requires 0 <= k < |labels| == |signals| => Taken(labels[k], signals[k]));
    SubtractFriction(strategy, labels, signals, friction);
    r := strategy[..];
    ChargedSums(labels, signals, friction, r);
  }

  /** The return of one bar after friction. */
  function Charged(labels: seq<real>, signals: seq<int>, friction: real, k: nat): real
    requires k < |labels| == |signals|
  {
    if signals[k] != 0 then Taken(labels[k], signals[k]) - friction else Taken(labels[k], signals[k])
  }

  /** The in-place masked subtraction. */
  method SubtractFriction(strategy: array<real>, labels: seq<real>, signals: seq<int>, friction: real)
    requires strategy.Length == |labels| == |signals|
    requires forall k :: 0 <= k < |labels| ==> strategy[k] == Taken(labels[k], signals[k])
    modifies strategy
    ensures forall k :: 0 <= k < |labels| ==> strategy[k] == Charged(labels, signals, friction, k)
  {
    for k := 0 to strategy.Length
      invariant forall j :: 0 <= j < k ==> strategy[j] == Charged(labels, signals, friction, j)
      invariant forall j :: k <= j < |labels| ==> strategy[j] == Taken(labels[j], signals[j])
    {
      if signals[k] != 0 {
        strategy[k] := strategy[k] - friction;
      }
    }
  }

  /** Summing charged returns over all bars, idle ones included, is the gross active sum less friction. */
  lemma {:induction false} ChargedSums(labels: seq<real>, signals: seq<int>, friction: real, charged: seq<real>)
    requires |labels| == |signals| == |charged|
    requires forall k :: 0 <= k < |labels| ==> charged[k] == Charged(labels, signals, friction, k)
    ensures Sum(charged) == Sum(Gross(labels, signals)) - Friction(signals, friction)
  {
    if labels != [] {
      var n := |labels| - 1;
      ChargedSums(labels[..n], signals[..n], friction, charged[..n]);
      SumSnoc(Gross(labels[..n], signals[..n]), Taken(labels[n], signals[n]));
      assert charged[n] == Charged(labels, signals, friction, n);
      assert signals[n] == 0 ==> Taken(labels[n], signals[n]) == 0.0;
    }
  }

  lemma SumSnoc(xs: seq<real>, x: real)
    ensures Sum(xs + [x]) == Sum(xs) + x
  {
    assert (xs + [x])[..|xs|] == xs;
  }

  /** The net returns of the active bars among the first k, in order. */
  ghost predicate Netted(labels: seq<real>, signals: seq<int>, friction: real, k: nat, net: seq<real>)
    requires |labels| == |signals| && k <= |labels|
  {
    && |net| == Active(signals[..k])
    && Sum(net) == Sum(Gross(labels[..k], signals[..k])) - Friction(signals[..k], friction)
    && forall j :: 0 <= j < k && signals[j] != 0 ==> NetAt(labels, signals, friction, j, net)
  }

  ghost predicate NetAt(labels: seq<real>, signals: seq<int>, friction: real, j: nat, net: seq<real>)
    requires j < |labels| == |signals|
  {
    Active(signals[..j]) < |net| && net[Active(signals[..j])] == Charged(labels, signals, friction, j)
  }

  lemma NettedStep(labels: seq<real>, signals: seq<int>, friction: real, k: nat, net: seq<real>)
    requires k < |labels| == |signals| && Netted(labels, signals, friction, k, net)
    ensures Netted(labels, signals, friction, k + 1,
      if signals[k] != 0 then net + [Taken(labels[k], signals[k]) - friction] else net)
  {
    var after := if signals[k] != 0 then net + [Taken(labels[k], signals[k]) - friction] else net;
    assert labels[..k + 1][..k] == labels[..k] && signals[..k + 1][..k] == signals[..k];
    SumSnoc(net, Taken(labels[k], signals[k]) - friction);
    SumSnoc(Gross(labels[..k], signals[..k]), Taken(labels[k], signals[k]));
    forall j | 0 <= j < k + 1 && signals[j] != 0
      ensures NetAt(labels, signals, friction, j, after)
    {
      assert j < k ==> NetAt(labels, signals, friction, j, net);
    }
  }

  /** Gross active returns less the friction of each. */
  method NetActive(labels: seq<real>, signals: seq<int>, friction: real) returns (net: seq<real>)
    requires |labels| == |signals|
    ensures |net| == Active(signals)
    ensures forall k :: 0 <= k < |signals| && signals[k] != 0 ==> NetAt(labels, signals, friction, k, net)
    ensures Sum(net) == Sum(Gross(labels, signals)) - Friction(signals, friction)
  {
    net := [];
    for k := 0 to |labels|
      invariant Netted(labels, signals, friction, k, net)
    {
      NettedStep(labels, signals, friction, k, net);
      if signals[k] != 0 {
        net := net + [Taken(labels[k], signals[k]) - friction];
      }
    }
    assert labels[..|labels|] == labels && signals[..|signals|] == signals;
  }

  // ----- Deadbands and causality -----

  lemma WiderIsStricter(x: real, narrow: real, wide: real)
    requires 0.0 <= narrow <= wide
    ensures Signal(x, wide) != 0 ==> Signal(x, wide) == Signal(x, narrow)
  {
  }

  /** A larger deadband is active on a subset of a smaller one's bars, with the same signals there, and
      pays friction at most as often. */
  lemma WiderDeadbandTradesLess(closes: seq<real>, lookback: nat, narrow: real, wide: real, a: seq<int>, b: seq<int>)
    requires |a| == |b| && lookback + |a| <= |closes| && forall i :: 0 <= i < |closes| ==> closes[i] > 0.0
    requires 0.0 <= narrow <= wide
    requires forall k :: 0 <= k < |a| ==> a[k] == Signal(Feature(closes, lookback + k, lookback), wide)
    requires forall k :: 0 <= k < |b| ==> b[k] == Signal(Feature(closes, lookback + k, lookback), narrow)
    ensures forall k :: 0 <= k < |a| ==> a[k] != 0 ==> a[k] == b[k]
    ensures Active(a) <= Active(b)
  {
    forall k | 0 <= k < |a|
      ensures a[k] != 0 ==> a[k] == b[k]
    {
      WiderIsStricter(Feature(closes, lookback + k, lookback), narrow, wide);
    }
    SubsetCounts(a, b);
  }

  lemma {:induction false} SubsetCounts(a: seq<int>, b: seq<int>)
    requires |a| == |b| && forall k :: 0 <= k < |a| ==> a[k] != 0 ==> a[k] == b[k]
    ensures Active(a) <= Active(b)
  {
    if a != [] {
      SubsetCounts(a[..|a| - 1], b[..|b| - 1]);
    }
  }

  /** The signal of a bar depends on closes up to that bar only; its label on the next bar only. */
  lemma SignalIsCausal(a: seq<real>, b: seq<real>, lookback: nat, deadband: real, t: nat)
    requires lookback <= t < |a| && t < |b| && a[..t + 1] == b[..t + 1]
    requires forall i :: 0 <= i < |a| ==> a[i] > 0.0
    ensures b[t - lookback] > 0.0
    ensures Signal(Feature(a, t, lookback), deadband) == Signal(Feature(b, t, lookback), deadband)
  {
    assert a[..t + 1][t] == b[..t + 1][t] && a[..t + 1][t - lookback] == b[..t + 1][t - lookback];
  }
}
