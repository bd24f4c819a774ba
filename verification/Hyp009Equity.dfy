/** What the equity curve of a run holds, said from the bars, the dividends and the trades alone: at every
    session the closing price, the shares bought less those sold, the dividends owned and not yet payable,
    and the cash that is left. */
module Hyp009Equity {
  import opened Common
  import opened Hyp009Signals
  import opened Hyp009Schedule
  import opened Hyp009Portfolio

  // ----- Holdings from trades and dividends -----

  /** Shares bought less shares sold, up to and including a session. */
  function Position(trades: seq<Trade>, session: int): int {
    if trades == [] then 0
    else
      var t := trades[|trades| - 1];
      Position(trades[..|trades| - 1], session)
      + if t.session > session then 0 else if t.buy then t.quantity else -t.quantity
  }

  /** Cash spent on buys less net sale proceeds, up to and including a session. */
  function SpentBy(trades: seq<Trade>, session: int): real {
    if trades == [] then 0.0
    else
      var t := trades[|trades| - 1];
      SpentBy(trades[..|trades| - 1], session)
      + if t.session > session then 0.0 else if t.buy then t.notional else t.fees - t.notional
  }

  /** Shares at the close before session n. */
  function SharesBefore(curve: seq<Equity>, n: nat): int
    requires n <= |curve|
  {
    if n == 0 then 0 else curve[n - 1].shares
  }

  /** Shares that own an ex-date, if it is among the first n sessions. */
  function Owners(ex: int, sessions: seq<int>, curve: seq<Equity>, n: nat): int
    requires n <= |sessions| && n <= |curve|
  {
    if n == 0 then 0
    else if sessions[n - 1] == ex then SharesBefore(curve, n - 1)
    else Owners(ex, sessions, curve, n - 1)
  }

  /** Whether a dividend is payable after an instant; all are when none is given. */
  predicate Pending(payable: int, at: Option<int>) {
    at.Some? ==> at.value < payable
  }

  /** Dividends whose ex-date is among the first n sessions and which are still to be paid after `at`: the
      amount per share for each share owned at the close before the ex-date. */
  function Dividends(ds: seq<Dividend>, sessions: seq<int>, curve: seq<Equity>, n: nat, at: Option<int>): real
    requires n <= |sessions| && n <= |curve|
  {
    if ds == [] then 0.0
    else
      var d := ds[|ds| - 1];
      Dividends(ds[..|ds| - 1], sessions, curve, n, at)
      + if Pending(d.payable, at) then Owners(d.ex, sessions, curve, n) as real * d.amount else 0.0
  }

  /** Record i of the curve, from the bars, the dividends and the trades. */
  ghost predicate Valued(m: Market, sessions: seq<int>, trades: seq<Trade>, curve: seq<Equity>, aum: real, i: nat)
    requires i < |sessions| && i < |curve|
  {
    var e, at := curve[i], sessions[i];
    && at in m.bars && e.close == m.bars[at].close
    && e.shares == Position(trades, at)
    && e.receivable == Dividends(m.dividends, sessions, curve, i + 1, Some(at))
    && e.cash + e.receivable == aum + Dividends(m.dividends, sessions, curve, i + 1, None) - SpentBy(trades, at)
  }

  // ----- One session's entitlements -----

  function StillOwed(xs: seq<(int, real)>, at: Option<int>): seq<(int, real)> {
    if at.Some? then Outstanding(xs, at.value) else xs
  }

  lemma {:induction false} OutstandingOfSum(a: seq<(int, real)>, b: seq<(int, real)>, at: int)
    ensures Outstanding(a + b, at) == Outstanding(a, at) + Outstanding(b, at)
  {
    if b == [] {
      assert a + b == a;
    } else {
      OutstandingOfSum(a, b[..|b| - 1], at);
      assert (a + b)[..|a + b| - 1] == a + b[..|b| - 1];
    }
  }

  /** What is owed after a later instant is owed after an earlier one. */
  lemma {:induction false} OutstandingLater(xs: seq<(int, real)>, at: int, later: int)
    requires at <= later
    ensures Outstanding(Outstanding(xs, at), later) == Outstanding(xs, later)
  {
    if xs != [] {
      var front, last := xs[..|xs| - 1], [xs[|xs| - 1]];
      OutstandingLater(front, at, later);
      if xs[|xs| - 1].0 > at {
        OutstandingOfSum(Outstanding(front, at), last, later);
        assert last[..0] == [];
      }
    }
  }

  /** Dividends with their ex-date on one session. */
  function Fresh(ds: seq<Dividend>, session: int, shares: int, at: Option<int>): real {
    if ds == [] then 0.0
    else
      var d := ds[|ds| - 1];
      Fresh(ds[..|ds| - 1], session, shares, at)
      + if d.ex == session && Pending(d.payable, at) then shares as real * d.amount else 0.0
  }

  lemma {:induction false} NoShares(ds: seq<Dividend>, session: int, at: Option<int>)
    ensures Fresh(ds, session, 0, at) == 0.0
  {
    if ds != [] {
      NoShares(ds[..|ds| - 1], session, at);
    }
  }

  /** The entitlements of a session, by what they are still worth after an instant. */
  lemma {:induction false} EntitledIsFresh(ds: seq<Dividend>, session: int, shares: int, at: Option<int>)
    requires shares >= 0
    ensures Total(StillOwed(Entitled(ds, session, shares), at)) == Fresh(ds, session, shares, at)
  {
    if shares == 0 {
      NoShares(ds, session, at);
    } else if ds != [] {
      var d, earlier := ds[|ds| - 1], Entitled(ds[..|ds| - 1], session, shares);
      EntitledIsFresh(ds[..|ds| - 1], session, shares, at);
      if d.ex == session {
        OneMoreOwed(earlier, Owed(d, shares), at);
      }
    }
  }

  lemma OneMoreOwed(xs: seq<(int, real)>, x: (int, real), at: Option<int>)
    ensures Total(StillOwed(xs + [x], at)) == Total(StillOwed(xs, at)) + if Pending(x.0, at) then x.1 else 0.0
  {
    assert (xs + [x])[..|xs|] == xs;
    TotalOfSum(StillOwed(xs, at), [x]);
  }

  // ----- One session more -----

  lemma {:induction false} OwnersStay(ex: int, sessions: seq<int>, curve: seq<Equity>, session: int, e: Equity, n: nat)
    requires n <= |sessions| == |curve|
    ensures Owners(ex, sessions + [session], curve + [e], n) == Owners(ex, sessions, curve, n)
    decreases n
  {
    if n > 0 {
      OwnersStay(ex, sessions, curve, session, e, n - 1);
    }
  }

  lemma {:induction false} NobodyOwns(ex: int, sessions: seq<int>, curve: seq<Equity>, n: nat)
    requires n <= |sessions| && n <= |curve| && ex !in sessions
    ensures Owners(ex, sessions, curve, n) == 0
    decreases n
  {
    if n > 0 {
      NobodyOwns(ex, sessions, curve, n - 1);
    }
  }

  lemma {:induction false} DividendsStay(
    ds: seq<Dividend>, sessions: seq<int>, curve: seq<Equity>, session: int, e: Equity, n: nat, at: Option<int>)
    requires n <= |sessions| == |curve|
    ensures Dividends(ds, sessions + [session], curve + [e], n, at) == Dividends(ds, sessions, curve, n, at)
    decreases |ds|
  {
    if ds != [] {
      DividendsStay(ds[..|ds| - 1], sessions, curve, session, e, n, at);
      OwnersStay(ds[|ds| - 1].ex, sessions, curve, session, e, n);
    }
  }

  /** A new session adds its own ex-dates, owned by the shares of the close before it. */
  lemma {:induction false} DividendsGrow(
    ds: seq<Dividend>, sessions: seq<int>, curve: seq<Equity>, session: int, e: Equity, at: Option<int>)
    requires |sessions| == |curve| && session !in sessions
    ensures Dividends(ds, sessions + [session], curve + [e], |sessions| + 1, at)
         == Dividends(ds, sessions, curve, |sessions|, at) + Fresh(ds, session, SharesBefore(curve, |sessions|), at)
    decreases |ds|
  {
    if ds != [] {
      var d, n := ds[|ds| - 1], |sessions|;
      DividendsGrow(ds[..|ds| - 1], sessions, curve, session, e, at);
      OwnersStay(d.ex, sessions, curve, session, e, n);
      if d.ex == session {
        NobodyOwns(d.ex, sessions, curve, n);
      }
      OwnersOfNext(d.ex, sessions, curve, session, e);
    }
  }

  lemma OwnersOfNext(ex: int, sessions: seq<int>, curve: seq<Equity>, session: int, e: Equity)
    requires |sessions| == |curve|
    ensures var n := |sessions|;
      Owners(ex, sessions + [session], curve + [e], n + 1)
      == if session == ex then SharesBefore(curve, n) else Owners(ex, sessions + [session], curve + [e], n)
  {
    var n := |sessions|;
    assert (sessions + [session])[n] == session;
    assert n > 0 ==> (curve + [e])[n - 1] == curve[n - 1];
  }

  // ----- Along a run -----

  /** The book after the sessions, against its own curve and trades. */
  ghost predicate Tracked(m: Market, b: Book, sessions: seq<int>) {
    && |b.curve| == |sessions|
    && b.shares == SharesBefore(b.curve, |sessions|) >= 0
    && b.dividendsReceived == Dividends(m.dividends, sessions, b.curve, |sessions|, None)
    && (forall at: int :: Reaches(sessions, at) ==> OwedAt(m, b, sessions, at))
    && (forall at: int :: Reaches(sessions, at) ==> Position(b.trades, at) == b.shares)
    && (forall at: int :: Reaches(sessions, at) ==> SpentBy(b.trades, at) == Spent(b.trades))
  }

  /** The instant is not before the last session. */
  predicate Reaches(sessions: seq<int>, at: int) {
    sessions != [] ==> sessions[|sessions| - 1] <= at
  }

  predicate OwedAt(m: Market, b: Book, sessions: seq<int>, at: int)
    requires |b.curve| == |sessions|
  {
    Total(Outstanding(b.receivables, at)) == Dividends(m.dividends, sessions, b.curve, |sessions|, Some(at))
  }

  /** What a session leaves besides its trades. */
  ghost predicate Closed(m: Market, session: int, b: Book, after: Book) {
    var n := |b.curve|;
    && session in m.bars && |after.curve| == n + 1 && after.curve[..n] == b.curve
    && after.receivables == Collect(m, session, b).receivables
    && after.dividendsReceived == Collect(m, session, b).dividendsReceived
    && var e := after.curve[n];
       && e.close == m.bars[session].close && e.cash == after.cash && e.shares == after.shares
       && e.receivable == Total(after.receivables)
  }

  /** At most one trade in the session, and the shares it moves. */
  ghost predicate Moved(session: int, b: Book, after: Book) {
    || (after.trades == b.trades && after.shares == b.shares)
    || (exists t: Trade :: t.session == session && after.trades == b.trades + [t]
          && after.shares == b.shares + if t.buy then t.quantity else -t.quantity)
  }

  lemma DayCloses(m: Market, target: map<int, State>, session: int, b: Book)
    requires m.slippage >= 0.0 && Day(m, target, session, b).Ok?
    ensures Closed(m, session, b, Day(m, target, session, b).value)
  {
  }

  lemma FollowMoves(m: Market, session: int, open: real, target: State, b: Book)
    requires open > 0.0 && m.slippage >= 0.0 && Follow(m, session, open, target, b).Ok?
    ensures Moved(session, b, Follow(m, session, open, target, b).value)
  {
    var after := Follow(m, session, open, target, b).value;
    if after.trades != b.trades {
      assert after.trades == b.trades + [after.trades[|b.trades|]];
    }
  }

  lemma DayMoves(m: Market, target: map<int, State>, session: int, b: Book)
    requires m.slippage >= 0.0 && Day(m, target, session, b).Ok?
    ensures Moved(session, b, Day(m, target, session, b).value)
  {
    var paid := Collect(m, session, b);
    FollowMoves(m, session, m.bars[session].open, if session in target then target[session] else paid.state, paid);
  }

  lemma OneMoreTrade(trades: seq<Trade>, t: Trade, at: int)
    ensures Position(trades + [t], at)
         == Position(trades, at) + if t.session > at then 0 else if t.buy then t.quantity else -t.quantity
    ensures SpentBy(trades + [t], at)
         == SpentBy(trades, at) + if t.session > at then 0.0 else if t.buy then t.notional else t.fees - t.notional
    ensures Spent(trades + [t]) == Spent(trades) + if t.buy then t.notional else t.fees - t.notional
  {
    assert (trades + [t])[..|trades|] == trades;
  }

  lemma OwedGrows(m: Market, b: Book, after: Book, sessions: seq<int>, session: int, at: int)
    requires Tracked(m, b, sessions) && Closed(m, session, b, after) && Reaches(sessions, session)
    requires session !in sessions && session <= at
    ensures OwedAt(m, after, sessions + [session], at)
  {
    assert OwedAt(m, b, sessions, at);
    CollectedOwes(m, session, b, at);
    DividendsGrow(m.dividends, sessions, b.curve, session, after.curve[|sessions|], Some(at));
    assert after.curve == b.curve + [after.curve[|sessions|]];
  }

  /** What is owed after a session's collection, by what was owed before it and its own ex-dates. */
  lemma CollectedOwes(m: Market, session: int, b: Book, at: int)
    requires session <= at && b.shares >= 0
    ensures Total(Outstanding(Collect(m, session, b).receivables, at))
         == Total(Outstanding(b.receivables, at)) + Fresh(m.dividends, session, b.shares, Some(at))
  {
    var entitled := Entitled(m.dividends, session, b.shares);
    OutstandingLater(b.receivables + entitled, session, at);
    OutstandingOfSum(b.receivables, entitled, at);
    TotalOfSum(Outstanding(b.receivables, at), Outstanding(entitled, at));
    EntitledIsFresh(m.dividends, session, b.shares, Some(at));
  }

  lemma ReceivedGrows(m: Market, b: Book, after: Book, sessions: seq<int>, session: int)
    requires Tracked(m, b, sessions) && Closed(m, session, b, after) && session !in sessions
    ensures after.dividendsReceived == Dividends(m.dividends, sessions + [session], after.curve, |sessions| + 1, None)
  {
    var n := |sessions|;
    EntitledIsFresh(m.dividends, session, b.shares, None);
    DividendsGrow(m.dividends, sessions, b.curve, session, after.curve[n], None);
    assert after.curve == b.curve + [after.curve[n]];
  }

  lemma TradesGrow(m: Market, b: Book, after: Book, sessions: seq<int>, session: int, at: int)
    requires Tracked(m, b, sessions) && Moved(session, b, after) && Reaches(sessions, session) && session <= at
    ensures Position(after.trades, at) == after.shares && SpentBy(after.trades, at) == Spent(after.trades)
  {
    assert Reaches(sessions, at);
    if after.trades != b.trades {
      var t: Trade :| t.session == session && after.trades == b.trades + [t]
        && after.shares == b.shares + if t.buy then t.quantity else -t.quantity;
      OneMoreTrade(b.trades, t, at);
    }
  }

  lemma TrackedStep(m: Market, b: Book, after: Book, sessions: seq<int>, session: int)
    requires Tracked(m, b, sessions) && Closed(m, session, b, after) && Moved(session, b, after) && after.shares >= 0
    requires Reaches(sessions, session) && session !in sessions
    ensures Tracked(m, after, sessions + [session])
  {
    ReceivedGrows(m, b, after, sessions, session);
    forall at: int | Reaches(sessions + [session], at)
      ensures OwedAt(m, after, sessions + [session], at)
      ensures Position(after.trades, at) == after.shares && SpentBy(after.trades, at) == Spent(after.trades)
    {
      OwedGrows(m, b, after, sessions, session, at);
      TradesGrow(m, b, after, sessions, session, at);
    }
  }

  /** The record of the last session. */
  lemma LastIsValued(m: Market, b: Book, after: Book, sessions: seq<int>, session: int, aum: real)
    requires Closed(m, session, b, after) && Tracked(m, after, sessions + [session]) && Balanced(after, aum)
    requires |sessions| == |b.curve|
    ensures Valued(m, sessions + [session], after.trades, after.curve, aum, |sessions|)
  {
    var all := b.receivables + Entitled(m.dividends, session, b.shares);
    OutstandingLater(all, session, session);
    assert Reaches(sessions + [session], session);
    assert OwedAt(m, after, sessions + [session], session);
  }

  /** Earlier records are not touched by later sessions. */
  lemma ValuedStays(m: Market, b: Book, after: Book, sessions: seq<int>, session: int, aum: real, i: nat)
    requires i < |sessions| == |b.curve| && Valued(m, sessions, b.trades, b.curve, aum, i)
    requires Closed(m, session, b, after) && Moved(session, b, after) && sessions[i] < session
    ensures Valued(m, sessions + [session], after.trades, after.curve, aum, i)
  {
    var e := after.curve[|sessions|];
    assert after.curve == b.curve + [e];
    DividendsStay(m.dividends, sessions, b.curve, session, e, i + 1, Some(sessions[i]));
    DividendsStay(m.dividends, sessions, b.curve, session, e, i + 1, None);
    if after.trades != b.trades {
      var t: Trade :| t.session == session && after.trades == b.trades + [t];
      OneMoreTrade(b.trades, t, sessions[i]);
    }
  }

  ghost predicate AllValued(m: Market, b: Book, sessions: seq<int>, aum: real) {
    |b.curve| == |sessions| && forall i :: 0 <= i < |sessions| ==> Valued(m, sessions, b.trades, b.curve, aum, i)
  }

  lemma StepIsValued(m: Market, b: Book, after: Book, sessions: seq<int>, session: int, aum: real)
    requires Tracked(m, b, sessions) && AllValued(m, b, sessions, aum)
    requires Closed(m, session, b, after) && Moved(session, b, after)
    requires Balanced(after, aum) && after.shares >= 0
    requires forall i :: 0 <= i < |sessions| ==> sessions[i] < session
    ensures Tracked(m, after, sessions + [session]) && AllValued(m, after, sessions + [session], aum)
  {
    TrackedStep(m, b, after, sessions, session);
    LastIsValued(m, b, after, sessions, session, aum);
    forall i | 0 <= i < |sessions|
      ensures Valued(m, sessions + [session], after.trades, after.curve, aum, i)
    {
      ValuedStays(m, b, after, sessions, session, aum, i);
    }
  }

  lemma DayIsValued(m: Market, target: map<int, State>, b: Book, sessions: seq<int>, session: int, aum: real)
    requires m.slippage >= 0.0 && Day(m, target, session, b).Ok? && Balanced(b, aum) && Alternating(b)
    requires Tracked(m, b, sessions) && AllValued(m, b, sessions, aum)
    requires forall i :: 0 <= i < |sessions| ==> sessions[i] < session
    ensures var after := Day(m, target, session, b).value;
      Tracked(m, after, sessions + [session]) && AllValued(m, after, sessions + [session], aum)
  {
    DayConserves(m, target, session, b, aum);
    DayCloses(m, target, session, b);
    DayMoves(m, target, session, b);
    StepIsValued(m, b, Day(m, target, session, b).value, sessions, session, aum);
  }

  lemma {:induction false} RunIsTracked(m: Market, target: map<int, State>, sessions: seq<int>, aum: real)
    requires m.slippage >= 0.0 && Increasing(sessions) && Simulate(m, target, sessions, aum).Ok?
    ensures var b := Simulate(m, target, sessions, aum).value;
      Tracked(m, b, sessions) && AllValued(m, b, sessions, aum)
  {
    if sessions == [] {
      NoDividendsYet(m.dividends, []);
    } else {
      var n := |sessions| - 1;
      RunIsTracked(m, target, sessions[..n], aum);
      BookBalances(m, target, sessions[..n], aum);
      DayIsValued(m, target, Simulate(m, target, sessions[..n], aum).value, sessions[..n], sessions[n], aum);
      assert sessions == sessions[..n] + [sessions[n]];
    }
  }

  lemma {:induction false} NoDividendsYet(ds: seq<Dividend>, curve: seq<Equity>)
    ensures forall at: Option<int> :: Dividends(ds, [], curve, 0, at) == 0.0
    decreases |ds|
  {
    if ds != [] {
      NoDividendsYet(ds[..|ds| - 1], curve);
    }
  }

  /** Main result: at every session of any run the record holds the session's own closing price, the shares
      bought less those sold so far, the dividends owned and not yet payable, and the cash left of the
      starting balance, the dividends already paid and the trades; with the value, return and drawdown
      these give. */
  lemma EquityIsDetermined(m: Market, target: map<int, State>, sessions: seq<int>, aum: real)
    requires m.slippage >= 0.0 && aum > 0.0 && Increasing(sessions) && Simulate(m, target, sessions, aum).Ok?
    ensures var b := Simulate(m, target, sessions, aum).value;
      && AllValued(m, b, sessions, aum)
      && (forall i :: 0 <= i < |sessions| ==> Recorded(b.curve, sessions, i))
      && b.dividendsReceived == Dividends(m.dividends, sessions, b.curve, |sessions|, None)
  {
    RunIsTracked(m, target, sessions, aum);
    CurveIsRecorded(m, target, sessions, aum);
  }
}
