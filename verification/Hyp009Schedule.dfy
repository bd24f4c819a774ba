/** From month-end signals to execution schedules: the transition-only encoding of the later
    partition, the every-signal encoding of the first one, and the positions they drive. */
module Hyp009Schedule {
  import opened Common
  import opened Hyp009Signals

  // ----- Month-ends -----

  /** The last session of each run of sessions in one month. */
  function MonthEnds(sessions: seq<int>, month: int -> int): (r: seq<int>) {
    if sessions == [] then []
    else
      var last := sessions[|sessions| - 1];
      var earlier := MonthEnds(sessions[..|sessions| - 1], month);
      if earlier != [] && month(earlier[|earlier| - 1]) == month(last) then earlier[|earlier| - 1 := last]
      else earlier + [last]
  }

  ghost predicate Monotone(month: int -> int) {
    forall x, y :: x <= y ==> month(x) <= month(y)
  }

  /** Month-ends are increasing sessions, the last one the last session. */
  lemma {:induction false} MonthEndsAreSessions(sessions: seq<int>, month: int -> int)
    requires Increasing(sessions)
    ensures var ends := MonthEnds(sessions, month);
      && Increasing(ends)
      && (forall i | 0 <= i < |ends| :: ends[i] in sessions)
      && (sessions != [] ==> ends != [] && ends[|ends| - 1] == sessions[|sessions| - 1])
  {
    if sessions != [] {
      var front, last := sessions[..|sessions| - 1], sessions[|sessions| - 1];
      MonthEndsAreSessions(front, month);
      var ends, before := MonthEnds(sessions, month), MonthEnds(front, month);
      assert ends[|ends| - 1] == last;
      forall i | 0 <= i < |ends| - 1
        ensures ends[i] == before[i] && ends[i] in sessions && ends[i] < last
      {
        assert before[i] in front;
      }
    }
  }

  lemma MonthOrder(month: int -> int, x: int, y: int)
    requires Monotone(month) && x <= y
    ensures month(x) <= month(y)
  {
  }

  ghost predicate MonthsIncrease(ends: seq<int>, month: int -> int) {
    forall i, j :: 0 <= i < j < |ends| ==> month(ends[i]) < month(ends[j])
  }

  lemma LaterMonth(before: seq<int>, month: int -> int, last: int)
    requires MonthsIncrease(before, month) && before != []
    ensures month(before[|before| - 1]) == month(last) ==> MonthsIncrease(before[|before| - 1 := last], month)
    ensures month(before[|before| - 1]) < month(last) ==> MonthsIncrease(before + [last], month)
  {
  }

  /** Month-ends have strictly increasing months. */
  lemma {:induction false} MonthEndsIncrease(sessions: seq<int>, month: int -> int)
    requires Increasing(sessions) && Monotone(month)
    ensures MonthsIncrease(MonthEnds(sessions, month), month)
  {
    if sessions != [] {
      var front, last := sessions[..|sessions| - 1], sessions[|sessions| - 1];
      var before := MonthEnds(front, month);
      MonthEndsIncrease(front, month);
      MonthEndsAreSessions(front, month);
      if before != [] {
        MonthOrder(month, before[|before| - 1], last);
        LaterMonth(before, month, last);
      }
    }
  }

  /** Every session has a month-end of its own month that is not before it: a month-end is the latest
      session of its month. */
  lemma {:induction false} EverySessionHasAMonthEnd(sessions: seq<int>, month: int -> int, s: int)
    requires Increasing(sessions) && Monotone(month) && s in sessions
    ensures exists e | e in MonthEnds(sessions, month) :: month(e) == month(s) && s <= e
    decreases |sessions|
  {
    var front, last := sessions[..|sessions| - 1], sessions[|sessions| - 1];
    var ends, before := MonthEnds(sessions, month), MonthEnds(front, month);
    MonthEndsAreSessions(sessions, month);
    assert ends[|ends| - 1] in ends;
    if s != last {
      EverySessionHasAMonthEnd(front, month, s);
      var e :| e in before && month(e) == month(s) && s <= e;
      var i :| 0 <= i < |before| && before[i] == e;
      if i < |ends| - 1 {
        assert ends[i] == e;
      }
    }
  }

  // ----- Next sessions -----

  function NextIndex(sessions: seq<int>, day: int): (k: nat)
    ensures k <= |sessions|
    ensures forall i :: 0 <= i < k ==> sessions[i] <= day
    ensures k < |sessions| ==> day < sessions[k]
  {
    if sessions == [] || day < sessions[0] then 0 else 1 + NextIndex(sessions[1..], day)
  }

  method NextSession(sessions: seq<int>, day: int) returns (k: nat)
    ensures k == NextIndex(sessions, day)
  {
    k := 0;
    while k < |sessions| && sessions[k] <= day
      invariant k <= |sessions|
      invariant k + NextIndex(sessions[k..], day) == NextIndex(sessions, day)
    {
      k := k + 1;
    }
  }

  lemma NextIndexIsMonotone(sessions: seq<int>, earlier: int, later: int)
    requires Increasing(sessions) && earlier < later && later in sessions
    ensures NextIndex(sessions, earlier) < NextIndex(sessions, later)
  {
    var k := NextIndex(sessions, earlier);
    var j :| 0 <= j < |sessions| && sessions[j] == later;
    assert k <= j;
    assert NextIndex(sessions, later) > j;
  }

  // ----- Schedules -----

  datatype Schedule = Schedule(target: map<int, State>, decision: map<int, int>, pending: seq<Signal>)

  const EMPTY := Schedule(map[], map[], [])

  function Place(sessions: seq<int>, s: Signal, into: Schedule): Schedule {
    var k := NextIndex(sessions, s.decision);
    if k == |sessions| then into.(pending := into.pending + [s])
    else
      var e := sessions[k];
      into.(target := into.target[e := s.state], decision := into.decision[e := s.decision])
  }

  /** Fold the signals into a schedule, keeping every signal or only the transitions. */
  function Compile(sessions: seq<int>, signals: seq<Signal>, from: Schedule, every: bool): Schedule {
    if signals == [] then from
    else
      var s := signals[|signals| - 1];
      var before := Compile(sessions, signals[..|signals| - 1], from, every);
      if every || s.transition then Place(sessions, s, before) else before
  }

  /** The frozen LONG decided on `cutoff`, executed at the first session after it. */
  function Opening(sessions: seq<int>, cutoff: int): Schedule {
    var k := NextIndex(sessions, cutoff);
    if k == |sessions| then EMPTY
    else Schedule(map[sessions[k] := LONG], map[sessions[k] := cutoff], [])
  }

  /** Later-partition compiler; None when no session follows the frozen decision. */
  method TransitionSchedule(sessions: seq<int>, cutoff: int, signals: seq<Signal>) returns (r: Option<Schedule>)
    ensures r.None? <==> NextIndex(sessions, cutoff) == |sessions|
    ensures r.Some? ==> r.value == Compile(sessions, signals, Opening(sessions, cutoff), false)
  {
    var first := NextSession(sessions, cutoff);
    if first == |sessions| {
      return None;
    }
    var executionBySession := map[sessions[first] := LONG];
    var decisionByExecution := map[sessions[first] := cutoff];
    var pending: seq<Signal> := [];
    for i := 0 to |signals|
      invariant Schedule(executionBySession, decisionByExecution, pending)
             == Compile(sessions, signals[..i], Opening(sessions, cutoff), false)
    {
      assert signals[..i + 1][..i] == signals[..i];
      var signal := signals[i];
      if signal.transition {
        var k := NextSession(sessions, signal.decision);
        if k == |sessions| {
          pending := pending + [signal];
        } else {
          executionBySession := executionBySession[sessions[k] := signal.state];
          decisionByExecution := decisionByExecution[sessions[k] := signal.decision];
        }
      }
    }
    assert signals[..|signals|] == signals;
    return Some(Schedule(executionBySession, decisionByExecution, pending));
  }

  /** First-partition compiler: every runnable signal; None (the run stops) when a signal other than
      one decided on `end` has no session after it. */
  method EverySignalSchedule(sessions: seq<int>, end: int, signals: seq<Signal>) returns (r: Option<Schedule>)
    ensures r.None? <==> exists s | s in signals :: s.decision != end && NextIndex(sessions, s.decision) == |sessions|
    ensures r.Some? ==> r.value == Compile(sessions, signals, EMPTY, true)
  {
    var executionBySession: map<int, State> := map[];
    var decisionByExecution: map<int, int> := map[];
    var pending: seq<Signal> := [];
    for i := 0 to |signals|
      invariant Schedule(executionBySession, decisionByExecution, pending) == Compile(sessions, signals[..i], EMPTY, true)
      invariant forall s | s in signals[..i] :: s.decision == end || NextIndex(sessions, s.decision) < |sessions|
    {
      assert signals[..i + 1][..i] == signals[..i];
      var signal := signals[i];
      var k := NextSession(sessions, signal.decision);
      if k == |sessions| {
        if signal.decision != end {
          return None;
        }
        pending := pending + [signal];
      } else {
        executionBySession := executionBySession[sessions[k] := signal.state];
        decisionByExecution := decisionByExecution[sessions[k] := signal.decision];
      }
    }
    assert signals[..|signals|] == signals;
    return Some(Schedule(executionBySession, decisionByExecution, pending));
  }

  // ----- What a schedule drives -----

  /** The position after the opens of the first n sessions, starting in CASH. */
  function Held(sessions: seq<int>, target: map<int, State>, n: nat): State
    requires n <= |sessions|
  {
    if n == 0 then CASH
    else if sessions[n - 1] in target then target[sessions[n - 1]]
    else Held(sessions, target, n - 1)
  }

  /** Decisions are increasing sessions after the frozen one. */
  ghost predicate Dated(sessions: seq<int>, cutoff: int, signals: seq<Signal>) {
    && Increasing(sessions)
    && (forall i :: 0 <= i < |signals| ==> cutoff < signals[i].decision && signals[i].decision in sessions)
    && (forall i, j :: 0 <= i < j < |signals| ==> signals[i].decision < signals[j].decision)
  }

  function LastDecision(cutoff: int, signals: seq<Signal>): int {
    if signals == [] then cutoff else signals[|signals| - 1].decision
  }

  function LastState(signals: seq<Signal>): State {
    if signals == [] then LONG else signals[|signals| - 1].state
  }

  /** Each transition flag compares a state with the one before it, the first with the frozen LONG. */
  ghost predicate Chained(signals: seq<Signal>) {
    forall i :: 0 <= i < |signals| ==> signals[i].transition == (signals[i].state != LastState(signals[..i]))
  }

  lemma Front(sessions: seq<int>, cutoff: int, signals: seq<Signal>)
    requires Dated(sessions, cutoff, signals) && signals != []
    ensures Dated(sessions, cutoff, signals[..|signals| - 1])
    ensures NextIndex(sessions, LastDecision(cutoff, signals[..|signals| - 1]))
          < NextIndex(sessions, LastDecision(cutoff, signals))
  {
    NextIndexIsMonotone(sessions, LastDecision(cutoff, signals[..|signals| - 1]), LastDecision(cutoff, signals));
  }

  lemma ChainedFront(signals: seq<Signal>)
    requires Chained(signals) && signals != []
    ensures var front := signals[..|signals| - 1];
      && Chained(front)
      && signals[|signals| - 1].transition == (LastState(signals) != LastState(front))
  {
    var front := signals[..|signals| - 1];
    forall i | 0 <= i < |front|
      ensures front[i].transition == (front[i].state != LastState(front[..i]))
    {
      assert front[..i] == signals[..i];
    }
  }

  ghost predicate NoneAfter(sessions: seq<int>, target: map<int, State>, k: nat) {
    forall j :: k < j < |sessions| ==> sessions[j] !in target
  }

  /** An entry placed after all others decides every later position and no earlier one. */
  lemma {:induction false} LatestEntryDecides(sessions: seq<int>, target: map<int, State>, k: nat, state: State, n: nat)
    requires Increasing(sessions) && k < |sessions| && n <= |sessions| && NoneAfter(sessions, target, k)
    ensures Held(sessions, target[sessions[k] := state], n) == if n <= k then Held(sessions, target, n) else state
  {
    if n > 0 {
      LatestEntryDecides(sessions, target, k, state, n - 1);
    }
  }

  lemma {:induction false} HeldSince(sessions: seq<int>, target: map<int, State>, k: nat, n: nat)
    requires k < n <= |sessions| && NoneAfter(sessions, target, k)
    ensures Held(sessions, target, n) == Held(sessions, target, k + 1)
    decreases n
  {
    if n > k + 1 {
      HeldSince(sessions, target, k, n - 1);
    }
  }

  /** Either encoding places nothing after the last execution and drives, from there on, the state of the
      last signal. */
  lemma {:induction false} LastSignalIsHeld(sessions: seq<int>, cutoff: int, signals: seq<Signal>, every: bool)
    requires Dated(sessions, cutoff, signals) && Chained(signals)
    ensures var t := Compile(sessions, signals, Opening(sessions, cutoff), every).target;
      var k := NextIndex(sessions, LastDecision(cutoff, signals));
      && NoneAfter(sessions, t, k)
      && (forall n :: k < n <= |sessions| ==> Held(sessions, t, n) == LastState(signals))
  {
    var opening := Opening(sessions, cutoff);
    var t := Compile(sessions, signals, opening, every).target;
    var k := NextIndex(sessions, LastDecision(cutoff, signals));
    if signals == [] {
      forall n | k < n <= |sessions|
        ensures Held(sessions, t, n) == LONG
      {
        HeldSince(sessions, t, k, n);
      }
    } else {
      var front := signals[..|signals| - 1];
      Front(sessions, cutoff, signals);
      ChainedFront(signals);
      LastSignalIsHeld(sessions, cutoff, front, every);
      if k < |sessions| {
        var before := Compile(sessions, front, opening, every).target;
        forall n | k < n <= |sessions|
          ensures Held(sessions, t, n) == LastState(signals)
        {
          LatestEntryDecides(sessions, before, k, LastState(signals), n);
        }
      }
    }
  }

  /** Main result: holding only transitions or every runnable signal drives the same position at every
      session, given the same opening LONG. */
  lemma {:induction false} EncodingsDriveTheSamePositions(sessions: seq<int>, cutoff: int, signals: seq<Signal>, n: nat)
    requires Dated(sessions, cutoff, signals) && Chained(signals) && n <= |sessions|
    ensures Held(sessions, Compile(sessions, signals, Opening(sessions, cutoff), false).target, n)
         == Held(sessions, Compile(sessions, signals, Opening(sessions, cutoff), true).target, n)
    decreases |signals|
  {
    if signals != [] {
      var front, k := signals[..|signals| - 1], NextIndex(sessions, LastDecision(cutoff, signals));
      var opening := Opening(sessions, cutoff);
      Front(sessions, cutoff, signals);
      ChainedFront(signals);
      EncodingsDriveTheSamePositions(sessions, cutoff, front, n);
      LastSignalIsHeld(sessions, cutoff, front, false);
      LastSignalIsHeld(sessions, cutoff, front, true);
      if k < |sessions| {
        LatestEntryDecides(sessions, Compile(sessions, front, opening, false).target, k, LastState(signals), n);
        LatestEntryDecides(sessions, Compile(sessions, front, opening, true).target, k, LastState(signals), n);
      }
    }
  }

  // ----- What a schedule holds -----

  ghost predicate SameEntry(a: Schedule, b: Schedule, e: int) {
    && (e in a.target <==> e in b.target) && (e in a.target ==> a.target[e] == b.target[e])
    && (e in a.decision <==> e in b.decision) && (e in a.decision ==> a.decision[e] == b.decision[e])
  }

  lemma PlaceLeavesEarlierEntries(sessions: seq<int>, s: Signal, into: Schedule, j: nat)
    requires Increasing(sessions) && j < |sessions| && j < NextIndex(sessions, s.decision)
    ensures SameEntry(Place(sessions, s, into), into, sessions[j])
  {
  }

  /** No entry is ever overwritten: signal i that is kept and has a next session is found, with its own
      state and its own decision, at that session. */
  lemma {:induction false} EntriesAreNeverOverwritten(
    sessions: seq<int>, cutoff: int, signals: seq<Signal>, every: bool, i: nat)
    requires Dated(sessions, cutoff, signals) && i < |signals| && (every || signals[i].transition)
    requires NextIndex(sessions, signals[i].decision) < |sessions|
    ensures var c := Compile(sessions, signals, Opening(sessions, cutoff), every);
      var e := sessions[NextIndex(sessions, signals[i].decision)];
      && e in c.target && c.target[e] == signals[i].state
      && e in c.decision && c.decision[e] == signals[i].decision
  {
    ScheduleIsCausal(sessions, cutoff, signals, every, i, NextIndex(sessions, signals[i].decision));
    assert signals[..i + 1][..i] == signals[..i];
  }

  /** e is the first session after day d. */
  ghost predicate FirstAfter(sessions: seq<int>, d: int, e: int) {
    d < e && e in sessions && forall s | s in sessions :: s <= d || e <= s
  }

  /** The decision and state of an entry are the frozen ones or those of a kept signal. */
  ghost predicate Decided(cutoff: int, signals: seq<Signal>, every: bool, d: int, state: State) {
    || (d == cutoff && state == LONG)
    || exists g | g in signals :: g.decision == d && g.state == state && (every || g.transition)
  }

  lemma NextIsFirstAfter(sessions: seq<int>, day: int)
    requires Increasing(sessions) && NextIndex(sessions, day) < |sessions|
    ensures FirstAfter(sessions, day, sessions[NextIndex(sessions, day)])
  {
  }

  lemma DecidedWithMore(cutoff: int, signals: seq<Signal>, every: bool, d: int, state: State)
    requires signals != []
    ensures Decided(cutoff, signals[..|signals| - 1], every, d, state) ==> Decided(cutoff, signals, every, d, state)
    ensures var g := signals[|signals| - 1];
      every || g.transition ==> Decided(cutoff, signals, every, g.decision, g.state)
  {
    assert signals[|signals| - 1] in signals;
  }

  /** Conversely every entry executes at the first session after its own decision, which is the frozen
      one or a kept signal's; and the two maps have the same keys. */
  lemma {:induction false} EveryEntryIsBound(sessions: seq<int>, cutoff: int, signals: seq<Signal>, every: bool, e: int)
    requires Increasing(sessions)
    ensures var c := Compile(sessions, signals, Opening(sessions, cutoff), every);
      && (e in c.target <==> e in c.decision)
      && (e in c.decision ==>
            FirstAfter(sessions, c.decision[e], e) && Decided(cutoff, signals, every, c.decision[e], c.target[e]))
    decreases |signals|
  {
    var c := Compile(sessions, signals, Opening(sessions, cutoff), every);
    if signals == [] {
      if e in c.decision {
        NextIsFirstAfter(sessions, cutoff);
      }
    } else {
      EveryEntryIsBound(sessions, cutoff, signals[..|signals| - 1], every, e);
      if e in c.decision {
        DecidedWithMore(cutoff, signals, every, c.decision[e], c.target[e]);
        var last := signals[|signals| - 1];
        if NextIndex(sessions, last.decision) < |sessions| {
          NextIsFirstAfter(sessions, last.decision);
        }
      }
    }
  }

  /** Nothing is left pending but a kept signal decided on the last session. */
  lemma {:induction false} OnlyTheLastSessionPends(sessions: seq<int>, cutoff: int, signals: seq<Signal>, every: bool)
    requires Dated(sessions, cutoff, signals)
    ensures Compile(sessions, signals, Opening(sessions, cutoff), every).pending
         == if signals == [] then [] else
              var last := signals[|signals| - 1];
              if (every || last.transition) && last.decision == sessions[|sessions| - 1] then [last] else []
    decreases |signals|
  {
    if signals != [] {
      var front, last := signals[..|signals| - 1], signals[|signals| - 1];
      Front(sessions, cutoff, signals);
      OnlyTheLastSessionPends(sessions, cutoff, front, every);
      PendsOnlyAtTheEnd(sessions, last.decision);
      if front != [] {
        PendsOnlyAtTheEnd(sessions, front[|front| - 1].decision);
      }
    }
  }

  lemma PendsOnlyAtTheEnd(sessions: seq<int>, day: int)
    requires Increasing(sessions) && day in sessions
    ensures NextIndex(sessions, day) == |sessions| <==> day == sessions[|sessions| - 1]
  {
    NextIndexIsMonotone(sessions, day - 1, day);
  }

  // ----- Causality -----

  /** Entries at or before the execution of decision i come from the first i + 1 signals alone. */
  lemma {:induction false} ScheduleIsCausal(
    sessions: seq<int>, cutoff: int, signals: seq<Signal>, every: bool, i: nat, j: nat)
    requires Dated(sessions, cutoff, signals) && i < |signals|
    requires j < |sessions| && j <= NextIndex(sessions, signals[i].decision)
    ensures var opening := Opening(sessions, cutoff);
      SameEntry(Compile(sessions, signals, opening, every), Compile(sessions, signals[..i + 1], opening, every), sessions[j])
    decreases |signals|
  {
    if i + 1 == |signals| {
      assert signals[..i + 1] == signals;
    } else {
      var front, last := signals[..|signals| - 1], signals[|signals| - 1];
      Front(sessions, cutoff, signals);
      assert front[..i + 1] == signals[..i + 1];
      ScheduleIsCausal(sessions, cutoff, front, every, i, j);
      NextIndexIsMonotone(sessions, signals[i].decision, last.decision);
      PlaceLeavesEarlierEntries(sessions, last, Compile(sessions, front, Opening(sessions, cutoff), every), j);
    }
  }
}
