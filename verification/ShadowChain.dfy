/** One prospective observation and the hash chain behind it.

    The SHA-256 of an observation file is modelled by the observation itself: equal digests mean
    equal files. An observation therefore carries the one it names as its predecessor. */
module ShadowChain {
  import opened Common
  import opened NyseCalendar

  datatype Symbol = ACWI | AGG | SPY
  const SYMBOLS: seq<Symbol> := [ACWI, AGG, SPY]

  type Closes = map<Symbol, real>

  // ----- Split continuity -----

  datatype SplitStatus = NoPriorHistory | NoNewSplitEvent
  datatype SplitError = BaselineCorrupt(symbol: Symbol) | NonPositiveSplit(symbol: Symbol) | UnboundSplitEvent(symbol: Symbol)

  function CheckSplitContinuity(symbol: Symbol, closes: Closes, splitCloses: Closes, prior: map<Symbol, (real, real)>)
    : Result<SplitStatus, SplitError>
    requires symbol in closes && symbol in splitCloses
  {
    if prior == map[] then Ok(NoPriorHistory)
    else if symbol !in prior then Err(BaselineCorrupt(symbol))
    else
      var (priorRaw, priorSplit) := prior[symbol];
      if priorRaw <= 0.0 || priorSplit <= 0.0 then Err(BaselineCorrupt(symbol))
      else if splitCloses[symbol] <= 0.0 then Err(NonPositiveSplit(symbol))
      else
        var priorRatio := priorRaw / priorSplit;
        var todayRatio := closes[symbol] / splitCloses[symbol];
        if !WithinTolerance(priorRatio, todayRatio) then Err(UnboundSplitEvent(symbol))
        else Ok(NoNewSplitEvent)
  }

  /** The baseline the runner restores: symbols present in both stored tables. */
  function PriorCloses(raw: Closes, split: Closes): map<Symbol, (real, real)> {
    map s | s in raw && s in split :: (raw[s], split[s])
  }

  // ----- Observations -----

  datatype Transaction = InitialAllocation | ScheduledAnnualRebalance | Hold

  datatype Observation = Observation(
    session: Day, ordinal: nat, processedAt: int, transaction: Transaction,
    splitStatus: map<Symbol, SplitStatus>, raw: Closes, split: Closes,
    binding: Option<int>, previous: Option<Observation>)

  /** The whole chain, oldest first. */
  function History(o: Observation): (h: seq<Observation>)
    ensures |h| >= 1 && h[|h| - 1] == o
  {
    match o.previous
    case None => [o]
    case Some(p) => History(p) + [o]
  }

  function Sessions(o: Observation): (s: seq<Day>)
    ensures |s| >= 1 && s[|s| - 1] == o.session
  {
    match o.previous
    case None => [o.session]
    case Some(p) => Sessions(p) + [o.session]
  }

  function First(o: Observation): Observation {
    match o.previous
    case None => o
    case Some(p) => First(p)
  }

  /** The counter the state file accumulates. */
  function RebalanceCount(o: Observation): nat {
    (if o.transaction.ScheduledAnnualRebalance? then 1 else 0) +
    match o.previous
    case None => 0
    case Some(p) => RebalanceCount(p)
  }

  predicate YearObserved(y: int, sessions: seq<Day>) {
    exists i :: 0 <= i < |sessions| && Year(sessions[i]) == y
  }

  function TransactionFor(target: Day, observed: seq<Day>): Transaction {
    if observed == [] then InitialAllocation
    else if !YearObserved(Year(target), observed) then ScheduledAnnualRebalance
    else Hold
  }

  // ----- Which sessions may be observed, and when -----

  const RECENT_STRESS_START: int := 739252   // 2025-01-01
  const RECENT_STRESS_END: int := 739842     // 2026-08-14
  const QUARANTINE_START: int := 739843      // 2026-08-15
  const SCIENTIFIC_BOUNDARY: int := 739884   // 2026-09-25

  predicate Forbidden(d: Day) {
    RECENT_STRESS_START <= d <= RECENT_STRESS_END || QUARANTINE_START <= d < SCIENTIFIC_BOUNDARY
  }

  /** The session the runner must observe after `last`: at most fourteen days ahead. */
  function NextExpected(c: Calendar, last: Day): Search {
    FirstSession(c, last + 1, 14)
  }

  /** The session whose opening makes `d` stale: at most thirty days ahead. */
  function Successor(c: Calendar, d: Day): Search {
    FirstSession(c, d + 1, 30)
  }

  /** The acceptance window: past the delayed feed, before the next session opens. */
  predicate ProcessableAt(c: Calendar, d: Day, now: int) {
    && IsSession(c, d)
    && EligibleAfter(c, d) < now
    && Successor(c, d).Found?
    && now < Open(c, Successor(c, d).day)
  }

  /** The acceptance window without the search: fifteen minutes past the close are over, no later session
      has opened, and one of the next thirty days is a session. */
  lemma WindowExactly(c: Calendar, d: Day, now: int)
    ensures ProcessableAt(c, d, now) <==>
      && IsSession(c, d) && Close(c, d) + 15 * MINUTE < now && SessionAmong(c, d + 1, 30)
      && forall e: Day :: d < e && IsSession(c, e) ==> now < Open(c, e)
  {
    if IsSession(c, d) {
      NextExactly(c, d, 30);
      if Successor(c, d).Found? {
        forall e: Day | d < e && IsSession(c, e)
          ensures Open(c, Successor(c, d).day) <= Open(c, e)
        {
          OpensInOrder(c, Successor(c, d).day, e);
        }
      }
    }
  }

  lemma OpensInOrder(c: Calendar, d: Day, e: Day)
    requires d <= e
    ensures Open(c, d) <= Open(c, e)
  {
    if d < e {
      WindowsAreOrdered(c, d, e);
    }
  }

  /** The registered dates: the recent-stress year and its end, the quarantine that follows it, and the
      scientific boundary. */
  lemma RegisteredDates(d: Day)
    ensures Forbidden(d) <==>
      || DaysBefore(2025) + 1 <= d <= DaysBefore(2026) + 226     // 1 January 2025 to 14 August 2026
      || DaysBefore(2026) + 227 <= d < DaysBefore(2026) + 268    // 15 August to 24 September 2026
  {
  }

  /** No instant accepts two sessions: the windows are disjoint and ordered like the sessions. */
  lemma WindowsAreDisjoint(c: Calendar, d: Day, e: Day, at: int, later: int)
    requires ProcessableAt(c, d, at) && ProcessableAt(c, e, later)
    ensures d < e ==> at < later
    ensures at == later ==> d == e
  {
    if d < e {
      WindowBeforeLaterWindow(c, d, e, at, later);
    } else if e < d {
      WindowBeforeLaterWindow(c, e, d, later, at);
    }
  }

  lemma WindowBeforeLaterWindow(c: Calendar, d: Day, e: Day, at: int, later: int)
    requires ProcessableAt(c, d, at) && ProcessableAt(c, e, later) && d < e
    ensures at < later
  {
    var next := Successor(c, d).day;
    assert next <= e;
    if next < e {
      WindowsAreOrdered(c, next, e);
    }
    WindowsAreOrdered(c, e, e + 1);
  }

  // ----- What every committed observation satisfies -----

  predicate AllPositive(m: Closes) {
    forall s: Symbol :: s in m && m[s] > 0.0
  }

  predicate SplitAccepted(o: Observation, prior: map<Symbol, (real, real)>) {
    forall s: Symbol :: s in o.raw && s in o.split && s in o.splitStatus
      && CheckSplitContinuity(s, o.raw, o.split, prior) == Ok(o.splitStatus[s])
  }

  /** The link between an observation and its predecessor, as the gates leave it. */
  predicate GoodLink(c: Calendar, o: Observation) {
    && ProcessableAt(c, o.session, o.processedAt)
    && !Forbidden(o.session)
    && AllPositive(o.raw) && AllPositive(o.split)
    && match o.previous
       case None =>
         o.ordinal == 1 && o.transaction == InitialAllocation && SplitAccepted(o, map[])
       case Some(p) =>
         && o.ordinal == p.ordinal + 1
         && NextExpected(c, p.session) == Found(o.session)
         && o.transaction == TransactionFor(o.session, Sessions(p))
         && SplitAccepted(o, PriorCloses(p.raw, p.split))
  }

  predicate GoodChain(c: Calendar, o: Observation) {
    GoodLink(c, o) && (o.previous.Some? ==> GoodChain(c, o.previous.value))
  }

  // ----- Contiguity -----

  /** Predecessors are neighbours in the history, whatever the chain contains. */
  lemma {:induction false} HistoryShape(o: Observation, i: nat)
    requires i < |History(o)|
    ensures |History(o)| == |Sessions(o)| && Sessions(o)[i] == History(o)[i].session
    ensures First(History(o)[i]) == First(o)
    ensures History(o)[i].previous == if i == 0 then None else Some(History(o)[i - 1])
  {
    match o.previous {
      case None =>
      case Some(p) =>
        var h := History(p);
        HistoryShape(p, if i < |h| then i else i - 1);
        assert i < |h| ==> History(o)[i] == h[i];
    }
  }

  /** Every prefix of a good chain is a good chain, and ordinals are positions. */
  lemma {:induction false} HistoryAt(c: Calendar, o: Observation, i: nat)
    requires GoodChain(c, o) && i < |History(o)|
    ensures |History(o)| == o.ordinal
    ensures GoodChain(c, History(o)[i]) && History(o)[i].ordinal == i + 1
  {
    match o.previous {
      case None =>
      case Some(p) =>
        var h := History(p);
        if i < |h| {
          HistoryAt(c, p, i);
          assert History(o)[i] == h[i];
        } else {
          HistoryAt(c, p, i - 1);
        }
    }
  }

  lemma {:induction false} SessionsIncrease(c: Calendar, o: Observation)
    requires GoodChain(c, o)
    ensures forall i, j :: 0 <= i < j < |Sessions(o)| ==> Sessions(o)[i] < Sessions(o)[j]
  {
    if o.previous.Some? {
      SessionsIncrease(c, o.previous.value);
    }
  }

  /** The observed sessions are exactly the calendar's sessions from the first to the last one:
      no gap, no duplicate and no backfill. */
  lemma {:induction false} ObservedSessionsAreContiguous(c: Calendar, o: Observation)
    requires GoodChain(c, o)
    ensures forall i, j :: 0 <= i < j < |Sessions(o)| ==> Sessions(o)[i] < Sessions(o)[j]
    ensures Sessions(o)[0] == First(o).session <= o.session
    ensures forall d: Day :: d in Sessions(o) <==> First(o).session <= d <= o.session && IsSession(c, d)
  {
    SessionsIncrease(c, o);
    if o.previous.Some? {
      var p := o.previous.value;
      ObservedSessionsAreContiguous(c, p);
      assert Sessions(o) == Sessions(p) + [o.session];
      forall d: Day
        ensures d in Sessions(o) <==> First(o).session <= d <= o.session && IsSession(c, d)
      {
        assert d in Sessions(o) <==> d in Sessions(p) || d == o.session;
      }
    }
  }

  /** Clock readings of committed observations strictly increase, whatever the clock did between. */
  lemma ProcessingTimesIncrease(c: Calendar, o: Observation, i: nat, j: nat)
    requires GoodChain(c, o) && i < j < |History(o)|
    ensures History(o)[i].processedAt < History(o)[j].processedAt
  {
    HistoryAt(c, o, i);
    HistoryAt(c, o, j);
    HistoryShape(o, i);
    HistoryShape(o, j);
    SessionsIncrease(c, o);
    var a, b := History(o)[i], History(o)[j];
    WindowsAreDisjoint(c, a.session, b.session, a.processedAt, b.processedAt);
  }

  // ----- Annual rebalances -----

  /** On increasing sessions only the last year can coincide with the target's. */
  lemma TransactionByYear(observed: seq<Day>, target: Day)
    requires observed != [] && observed[|observed| - 1] < target
    requires forall i, j :: 0 <= i < j < |observed| ==> observed[i] < observed[j]
    ensures TransactionFor(target, observed) ==
      if Year(target) == Year(observed[|observed| - 1]) then Hold else ScheduledAnnualRebalance
  {
    if YearObserved(Year(target), observed) {
      ObservedYearIsLast(observed, target);
    } else {
      assert Year(observed[|observed| - 1]) != Year(target);
    }
  }

  lemma ObservedYearIsLast(observed: seq<Day>, target: Day)
    requires observed != [] && observed[|observed| - 1] < target && YearObserved(Year(target), observed)
    requires forall i, j :: 0 <= i < j < |observed| ==> observed[i] < observed[j]
    ensures Year(observed[|observed| - 1]) == Year(target)
  {
    var last := observed[|observed| - 1];
    var i :| 0 <= i < |observed| && Year(observed[i]) == Year(target);
    YearStep(observed[i], last);
    YearStep(last, target);
  }

  lemma NextIsSoon(c: Calendar, o: Observation)
    requires GoodChain(c, o) && o.previous.Some?
    ensures var p := o.previous.value;
      && p.session < o.session <= p.session + 14 && o.transaction == TransactionFor(o.session, Sessions(p))
      && forall i, j :: 0 <= i < j < |Sessions(p)| ==> Sessions(p)[i] < Sessions(p)[j]
  {
    SessionsIncrease(c, o.previous.value);
  }

  /** A rebalance is scheduled exactly when the year differs from the previous session's year. */
  lemma RebalanceIsYearChange(c: Calendar, o: Observation)
    requires GoodChain(c, o) && o.previous.Some?
    ensures o.transaction ==
      if Year(o.session) == Year(o.previous.value.session) then Hold else ScheduledAnnualRebalance
    ensures Year(o.previous.value.session) <= Year(o.session) <= Year(o.previous.value.session) + 1
  {
    var p := o.previous.value;
    NextIsSoon(c, o);
    TransactionAndYear(Sessions(p), p.session, o.session);
  }

  lemma TransactionAndYear(observed: seq<Day>, last: Day, target: Day)
    requires observed != [] && observed[|observed| - 1] == last < target <= last + 14
    requires forall i, j :: 0 <= i < j < |observed| ==> observed[i] < observed[j]
    ensures TransactionFor(target, observed) == if Year(target) == Year(last) then Hold else ScheduledAnnualRebalance
    ensures Year(last) <= Year(target) <= Year(last) + 1
  {
    YearStep(last, target);
    TransactionByYear(observed, target);
  }

  /** The persisted counter is a calendar quantity. */
  lemma {:induction false} RebalancesCountYears(c: Calendar, o: Observation)
    requires GoodChain(c, o)
    ensures RebalanceCount(o) == Year(o.session) - Year(First(o).session)
  {
    if o.previous.Some? {
      RebalancesCountYears(c, o.previous.value);
      RebalanceIsYearChange(c, o);
    }
  }

  lemma YearsDoNotDecrease(c: Calendar, o: Observation, i: nat)
    requires GoodChain(c, o) && i < |History(o)|
    ensures Year(History(o)[i].session) <= Year(o.session)
  {
    HistoryShape(o, i);
    SessionsIncrease(c, o);
    YearStep(History(o)[i].session, o.session);
  }

  /** `at` is the only rebalance of year y and the first session observed in that year. */
  predicate RebalancesOnce(h: seq<Observation>, y: int, at: int) {
    && 0 < at < |h|
    && h[at].transaction == ScheduledAnnualRebalance && Year(h[at].session) == y
    && (forall i :: 0 <= i < at ==> Year(h[i].session) < y)
    && (forall i :: at < i < |h| && Year(h[i].session) == y ==> h[i].transaction == Hold)
  }

  lemma RebalanceSurvives(h: seq<Observation>, o: Observation, y: int, at: int)
    requires RebalancesOnce(h, y, at) && (Year(o.session) == y ==> o.transaction == Hold)
    ensures RebalancesOnce(h + [o], y, at)
  {
    forall i | at < i < |h| + 1 && Year((h + [o])[i].session) == y
      ensures (h + [o])[i].transaction == Hold
    {
      assert i < |h| ==> (h + [o])[i] == h[i];
    }
  }

  /** Each later calendar year holds exactly one rebalance, on its first observed session. */
  lemma {:induction false} OneRebalancePerYear(c: Calendar, o: Observation, y: int) returns (at: nat)
    requires GoodChain(c, o) && Year(First(o).session) < y <= Year(o.session)
    ensures RebalancesOnce(History(o), y, at)
    decreases o
  {
    var p := o.previous.value;
    var h := History(p);
    RebalanceIsYearChange(c, o);
    if y <= Year(p.session) {
      at := OneRebalancePerYear(c, p, y);
      RebalanceSurvives(h, o, y, at);
    } else {
      at := |h|;
      FirstSessionOfYear(c, o);
    }
  }

  lemma FirstSessionOfYear(c: Calendar, o: Observation)
    requires GoodChain(c, o) && o.previous.Some? && Year(o.previous.value.session) < Year(o.session)
    ensures RebalancesOnce(History(o), Year(o.session), |History(o.previous.value)|)
  {
    var p := o.previous.value;
    var h := History(p);
    RebalanceIsYearChange(c, o);
    forall i | 0 <= i < |h|
      ensures Year((h + [o])[i].session) < Year(o.session)
    {
      YearsDoNotDecrease(c, p, i);
      assert (h + [o])[i] == h[i];
    }
  }

  /** Exactly one initial allocation, and it comes first. */
  lemma InitialAllocationComesFirst(c: Calendar, o: Observation, i: nat)
    requires GoodChain(c, o) && i < |History(o)|
    ensures History(o)[i].transaction == InitialAllocation <==> i == 0
  {
    HistoryAt(c, o, i);
    HistoryShape(o, i);
  }

  // ----- The registered minimums -----

  const PROSPECTIVE_MIN_SESSIONS: nat := 504
  const PROSPECTIVE_MIN_REBALANCES: nat := 2

  predicate MinimumsSatisfied(sessions: nat, rebalances: nat) {
    sessions >= PROSPECTIVE_MIN_SESSIONS && rebalances >= PROSPECTIVE_MIN_REBALANCES
  }

  /** With the ratified calendar ending in 2026 no chain started after the scientific boundary can
      meet either registered minimum. */
  lemma MinimumsUnreachableOnRatifiedCalendar(c: Calendar, o: Observation)
    requires GoodChain(c, o) && c.maxYear == 2026 && SCIENTIFIC_BOUNDARY <= First(o).session
    ensures RebalanceCount(o) == 0 && o.ordinal <= 98
    ensures !MinimumsSatisfied(o.ordinal, RebalanceCount(o))
    ensures MinimumsSatisfied(504, 2) && !MinimumsSatisfied(503, 2) && !MinimumsSatisfied(504, 1)
  {
    RebalancesCountYears(c, o);
    ObservedSessionsAreContiguous(c, o);
    YearIsUnique(SCIENTIFIC_BOUNDARY, 2026);
    YearStep(SCIENTIFIC_BOUNDARY, First(o).session);
    YearStep(First(o).session, o.session);
    assert Year(o.session) == 2026 && o.session <= DaysBefore(2027) == 739981;
    SpanBoundsOrdinal(c, o);
  }

  lemma {:induction false} SpanBoundsOrdinal(c: Calendar, o: Observation)
    requires GoodChain(c, o)
    ensures o.ordinal <= o.session - First(o).session + 1
  {
    if o.previous.Some? {
      SpanBoundsOrdinal(c, o.previous.value);
    }
  }

  // ----- Split drift -----

  function Pow(b: real, k: nat): real { if k == 0 then 1.0 else b * Pow(b, k - 1) }

  function Ratio(o: Observation, s: Symbol): real {
    if s in o.raw && s in o.split && o.split[s] != 0.0 then o.raw[s] / o.split[s] else 0.0
  }

  lemma QuotientPositive(x: real, y: real)
    requires x > 0.0 && y > 0.0
    ensures x / y > 0.0
  {
    if x / y <= 0.0 {
      assert x == (x / y) * y;
    }
  }

  /** What one accepted comparison says about two positive ratios. */
  lemma AcceptedComparison(symbol: Symbol, closes: Closes, splitCloses: Closes, prior: map<Symbol, (real, real)>)
    requires AllPositive(closes) && AllPositive(splitCloses)
    requires symbol in prior && prior[symbol].0 > 0.0 && prior[symbol].1 > 0.0
    requires CheckSplitContinuity(symbol, closes, splitCloses, prior).Ok?
    ensures CheckSplitContinuity(symbol, closes, splitCloses, prior) == Ok(NoNewSplitEvent)
    ensures var r := prior[symbol].0 / prior[symbol].1;
      0.0 < r && r * (1.0 - TOLERANCE) <= closes[symbol] / splitCloses[symbol] <= r * (1.0 + TOLERANCE)
  {
    QuotientPositive(prior[symbol].0, prior[symbol].1);
  }

  /** Two positive prices whose ratio is within one millionth of the ratio of two positive prices before. */
  predicate RatioKept(before: (real, real), raw: real, split: real) {
    && before.0 > 0.0 && before.1 > 0.0 && split > 0.0
    && -(before.0 / before.1) * 0.000001 <= raw / split - before.0 / before.1 <= (before.0 / before.1) * 0.000001
  }

  /** Exactly which answer the comparison gives, for every pair of tables. */
  lemma ContinuityExactly(symbol: Symbol, closes: Closes, splitCloses: Closes, prior: map<Symbol, (real, real)>)
    requires symbol in closes && symbol in splitCloses
    ensures var r := CheckSplitContinuity(symbol, closes, splitCloses, prior);
      var corrupt := symbol !in prior || prior[symbol].0 <= 0.0 || prior[symbol].1 <= 0.0;
      && (r == Ok(NoPriorHistory) <==> prior == map[])
      && (r == Err(BaselineCorrupt(symbol)) <==> prior != map[] && corrupt)
      && (r == Err(NonPositiveSplit(symbol)) <==> prior != map[] && !corrupt && splitCloses[symbol] <= 0.0)
      && (r == Ok(NoNewSplitEvent) <==> symbol in prior && RatioKept(prior[symbol], closes[symbol], splitCloses[symbol]))
      && (r.Ok? || r.error in {BaselineCorrupt(symbol), NonPositiveSplit(symbol), UnboundSplitEvent(symbol)})
  {
    if symbol in prior && prior[symbol].0 > 0.0 && prior[symbol].1 > 0.0 {
      QuotientPositive(prior[symbol].0, prior[symbol].1);
    }
  }

  /** An ordinary price move is no split: both prices scaled alike keep the ratio, whatever the factor. */
  lemma ScaledPricesAreKept(before: (real, real), factor: real)
    requires before.0 > 0.0 && before.1 > 0.0 && factor > 0.0
    ensures RatioKept(before, before.0 * factor, before.1 * factor)
  {
    var r := before.0 / before.1;
    QuotientPositive(before.0, before.1);
    ScaledQuotient(before.0, before.1, factor);
  }

  lemma ScaledQuotient(x: real, y: real, factor: real)
    requires y > 0.0 && factor > 0.0
    ensures y * factor > 0.0 && (x * factor) / (y * factor) == x / y
  {
    var q := x / y;
    assert x == q * y;
    assert x * factor == q * (y * factor);
    DivideBack(x * factor, q, y * factor);
  }

  lemma DivideBack(n: real, q: real, d: real)
    requires d > 0.0 && n == q * d
    ensures n / d == q
  {
  }

  /** One accepted session-to-session check keeps the ratio within the tolerance of the last one. */
  lemma OneStepDrift(c: Calendar, o: Observation, s: Symbol)
    requires GoodChain(c, o) && o.previous.Some?
    ensures var r := Ratio(o.previous.value, s);
      0.0 < r && r * (1.0 - TOLERANCE) <= Ratio(o, s) <= r * (1.0 + TOLERANCE)
    ensures s in o.splitStatus && o.splitStatus[s] == NoNewSplitEvent
  {
    var p := o.previous.value;
    var prior := PriorCloses(p.raw, p.split);
    PositiveCloses(c, o);
    PositiveCloses(c, p);
    assert s in prior;
    assert SplitAccepted(o, prior);
    AcceptedComparison(s, o.raw, o.split, prior);
  }

  lemma PositiveCloses(c: Calendar, o: Observation)
    requires GoodChain(c, o)
    ensures AllPositive(o.raw) && AllPositive(o.split) && 1 <= o.ordinal
  {
    assert GoodLink(c, o);
  }

  lemma RatioIsPositive(c: Calendar, o: Observation, s: Symbol)
    requires GoodChain(c, o)
    ensures 0.0 < Ratio(o, s)
  {
    PositiveCloses(c, o);
    QuotientPositive(o.raw[s], o.split[s]);
  }

  predicate WithinDrift(first: real, now: real, k: nat) {
    Pow(1.0 - TOLERANCE, k) * first <= now <= Pow(1.0 + TOLERANCE, k) * first
  }

  /** Each ratio is within the tolerance of the one before it. */
  predicate AcceptedRun(ratios: seq<real>) {
    forall i :: 0 < i < |ratios| ==>
      ratios[i - 1] * (1.0 - TOLERANCE) <= ratios[i] <= ratios[i - 1] * (1.0 + TOLERANCE)
  }

  lemma {:induction false} RunDrift(ratios: seq<real>, k: nat)
    requires k < |ratios| && AcceptedRun(ratios)
    ensures WithinDrift(ratios[0], ratios[k], k)
  {
    if k == 0 {
      NoDrift(ratios[0]);
    } else {
      RunDrift(ratios, k - 1);
      CompoundDrift(ratios[0], ratios[k - 1], ratios[k], k - 1);
    }
  }

  lemma NeighbourDrift(c: Calendar, o: Observation, s: Symbol, i: nat)
    requires GoodChain(c, o) && 0 < i < |History(o)|
    ensures var (before, now) := (Ratio(History(o)[i - 1], s), Ratio(History(o)[i], s));
      before * (1.0 - TOLERANCE) <= now <= before * (1.0 + TOLERANCE)
  {
    HistoryAt(c, o, i);
    HistoryShape(o, i);
    OneStepDrift(c, History(o)[i], s);
  }

  /** The ratios of the whole history, oldest first. */
  function Ratios(o: Observation, s: Symbol): (r: seq<real>)
    ensures |r| == |History(o)| && forall i :: 0 <= i < |r| ==> r[i] == Ratio(History(o)[i], s)
  {
    seq(|History(o)|, i requires 0 <= i < |History(o)| => Ratio(History(o)[i], s))
  }

  lemma RatiosAreAccepted(c: Calendar, o: Observation, s: Symbol)
    requires GoodChain(c, o)
    ensures AcceptedRun(Ratios(o, s))
  {
    forall i | 0 < i < |Ratios(o, s)|
      ensures Ratios(o, s)[i - 1] * (1.0 - TOLERANCE) <= Ratios(o, s)[i] <= Ratios(o, s)[i - 1] * (1.0 + TOLERANCE)
    {
      NeighbourDrift(c, o, s, i);
    }
  }

  /** The comparison is only ever between neighbours, so k checks bound the drift by the k-th power. */
  lemma SplitDriftIsBounded(c: Calendar, o: Observation, s: Symbol, k: nat)
    requires GoodChain(c, o) && k < |Ratios(o, s)|
    ensures WithinDrift(Ratios(o, s)[0], Ratios(o, s)[k], k)
  {
    RatiosAreAccepted(c, o, s);
    RunDrift(Ratios(o, s), k);
  }

  lemma NoDrift(ratio: real)
    ensures WithinDrift(ratio, ratio, 0)
  {
  }

  lemma CompoundDrift(first: real, before: real, now: real, k: nat)
    requires WithinDrift(first, before, k)
    requires before * (1.0 - TOLERANCE) <= now <= before * (1.0 + TOLERANCE)
    ensures WithinDrift(first, now, k + 1)
  {
    ScaleBoth(Pow(1.0 - TOLERANCE, k) * first, before, 1.0 - TOLERANCE);
    ScaleBoth(before, Pow(1.0 + TOLERANCE, k) * first, 1.0 + TOLERANCE);
    assert Pow(1.0 - TOLERANCE, k + 1) * first == (Pow(1.0 - TOLERANCE, k) * first) * (1.0 - TOLERANCE);
    assert Pow(1.0 + TOLERANCE, k + 1) * first == (Pow(1.0 + TOLERANCE, k) * first) * (1.0 + TOLERANCE);
  }

  lemma ScaleBoth(x: real, y: real, f: real)
    requires x <= y && 0.0 <= f
    ensures x * f <= y * f
  {
    assert 0.0 <= (y - x) * f;
  }

  /** Only the first observation ever took the branch that has no baseline to compare with. */
  lemma NoHistoryBranchOnlyAtSessionOne(c: Calendar, o: Observation, s: Symbol)
    requires GoodChain(c, o)
    ensures s in o.splitStatus && (o.splitStatus[s] == NoPriorHistory <==> o.ordinal == 1)
  {
    if o.previous.Some? {
      OneStepDrift(c, o, s);
      PositiveCloses(c, o.previous.value);
    }
  }
}
