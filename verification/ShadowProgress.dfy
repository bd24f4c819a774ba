/** One undisturbed invocation as a run of the shadow system, and directories that are stuck. */
module ShadowProgress {
  import opened Common
  import opened NyseCalendar
  import opened ShadowChain
  import opened ShadowRunner
  import opened ShadowGates
  import opened ShadowSafety

  // ----- One undisturbed invocation -----

  /** `append_observation` without interference: the file first, the state document second. */
  function Append(disk: Disk, k: Commit): Disk {
    if k.observation.session in disk.observations then disk
    else Merged(Filed(disk, k), BaseOf(disk, k), k)
  }

  function Burn(disk: Disk, key: Key): Disk {
    disk.(ledger := disk.ledger + {key})
  }

  /** What an undisturbed invocation leaves, from its decision and what qualification made of the data. */
  function Completed(start: Disk, outcome: Outcome, k: Option<Commit>): Disk {
    if !outcome.Dispatch? then start
    else if k.None? then Burn(start, outcome.key)
    else Append(Burn(start, outcome.key), k.value)
  }

  /** What qualification makes of the response. */
  function CommitFor(inv: Invocation, outcome: Outcome, response: Option<Market>): Option<Commit> {
    match outcome
    case Dispatch(doc, activation, target, key) => Qualify(inv, activation, doc, target, response)
    case _ => None
  }

  /** The whole live path of one invocation that nobody disturbs. */
  function Execute(c: Calendar, disk: Disk, inv: Invocation, response: Option<Market>): Disk {
    var d := Decide(c, inv, disk);
    Completed(disk, d, CommitFor(inv, d, response))
  }

  /** The ledger key an outcome burns, if it gets that far. */
  function EventsOf(outcome: Outcome): seq<Event> {
    match outcome
    case Dispatch(doc, activation, target, key) => [Consumed(key), Fetched(key)]
    case _ => []
  }

  function Advances(pid: nat, response: Option<Market>, n: nat): seq<Action> {
    if n == 0 then [] else [Advance(pid, response)] + Advances(pid, response, n - 1)
  }

  /** Turns an invocation needs at most. */
  const TURNS: nat := 12

  function Invoke(pid: nat, inv: Invocation, response: Option<Market>, n: nat): seq<Action> {
    [Spawn(pid, inv)] + Advances(pid, response, n)
  }

  /** n turns of one process nobody disturbs. */
  function Alone(c: Calendar, disk: Disk, p: Proc, response: Option<Market>, n: nat): Effect
    decreases n
  {
    if n == 0 then Effect(disk, p, [])
    else
      var e := AdvanceProc(c, disk, p, response);
      var rest := Alone(c, e.disk, e.proc, response, n - 1);
      Effect(rest.disk, rest.proc, e.events + rest.events)
  }

  lemma {:induction false} RunAlone(c: Calendar, s: System, pid: nat, response: Option<Market>, n: nat)
    requires pid in s.procs
    ensures Run(c, s, Advances(pid, response, n)) == Applied(s, pid, Alone(c, s.disk, s.procs[pid], response, n))
    decreases n
  {
    if n == 0 {
      assert s.procs[pid := s.procs[pid]] == s.procs && s.events + [] == s.events;
    } else {
      var actions := Advances(pid, response, n);
      var first := AdvanceProc(c, s.disk, s.procs[pid], response);
      var t := Applied(s, pid, first);
      assert actions[0] == Advance(pid, response) && actions[1..] == Advances(pid, response, n - 1);
      AppliedHolds(s, pid, first);
      RunAlone(c, t, pid, response, n - 1);
      JoinEffects(s, pid, first, Alone(c, first.disk, first.proc, response, n - 1));
    }
  }

  lemma AppliedHolds(s: System, pid: nat, e: Effect)
    ensures var t := Applied(s, pid, e); pid in t.procs && t.procs[pid] == e.proc && t.disk == e.disk
  {
  }

  lemma JoinEffects(s: System, pid: nat, first: Effect, rest: Effect)
    ensures Applied(Applied(s, pid, first), pid, rest)
         == Applied(s, pid, Effect(rest.disk, rest.proc, first.events + rest.events))
  {
    assert s.procs[pid := first.proc][pid := rest.proc] == s.procs[pid := rest.proc];
    assert (s.events + first.events) + rest.events == s.events + (first.events + rest.events);
  }

  lemma SpawnThenAdvance(c: Calendar, s: System, pid: nat, inv: Invocation, response: Option<Market>, n: nat)
    requires pid !in s.procs
    ensures Run(c, s, Invoke(pid, inv, response, n)) == Applied(s, pid, Alone(c, s.disk, Started(inv), response, n))
  {
    var actions := Invoke(pid, inv, response, n);
    assert actions[0] == Spawn(pid, inv) && actions[1..] == Advances(pid, response, n);
    var t := Step(c, s, Spawn(pid, inv));
    RunAlone(c, t, pid, response, n);
    var e := Alone(c, s.disk, Started(inv), response, n);
    assert t.procs[pid := e.proc] == s.procs[pid := e.proc];
  }

  // ----- What an invocation still reading will decide -----

  function Foresee(c: Calendar, disk: Disk, p: Proc): Outcome
    requires Reading(p)
  {
    match p
    case Started(inv) => Decide(c, inv, disk)
    case Located(inv, activation) => DecideLocated(c, inv, activation, disk)
    case Listed(inv, activation, bare) => DecideListed(c, inv, activation, bare, disk)
    case Loaded(inv, activation, doc) => DecideLoaded(c, inv, activation, doc, disk)
    case Verified(inv, activation, doc) => DecideVerified(c, inv, activation, doc, disk)
    case Unspent(inv, doc, activation, target) => DecideUnspent(c, inv, activation, doc, target, disk)
  }

  /** Reading one more file of an unchanging directory changes nothing about the decision. */
  lemma ReadForesees(c: Calendar, disk: Disk, p: Proc)
    requires Reading(p)
    ensures var r := Read(c, disk, p);
      if Reading(r) then r.inv == p.inv && Foresee(c, disk, r) == Foresee(c, disk, p)
      else if r.Skipped? then Foresee(c, disk, p) == AlreadyProcessed
      else if r.Cleared? then r.inv == p.inv && Foresee(c, disk, p) == Dispatch(r.doc, r.activation, r.target, r.key)
      else r == Ended && !Foresee(c, disk, p).Dispatch? && !Foresee(c, disk, p).AlreadyProcessed?
  {
    match p {
      case Unspent(inv, doc, activation, target) => AdmitOutcomes(c, inv, activation, doc, target, Successor(c, target));
      case _ =>
    }
  }

  lemma AdmitOutcomes(c: Calendar, inv: Invocation, activation: Day, doc: StateDoc, target: Day, successor: Search)
    ensures Admit(c, inv, activation, doc, target, successor) != AlreadyProcessed
  {
  }

  // ----- An undisturbed invocation at every turn -----

  /** Where an invocation that started on directory `start`, will decide `outcome` and was never disturbed
      can be, with the directory and the events it has produced. */
  ghost predicate Tracks(
    c: Calendar, start: Disk, inv: Invocation, outcome: Outcome, k: Option<Commit>, disk: Disk, p: Proc, events: seq<Event>)
  {
    if Reading(p) then p.inv == inv && disk == start && events == [] && Foresee(c, start, p) == outcome
    else if p.Ended? then disk == Completed(start, outcome, k) && events == EventsOf(outcome)
    else outcome.Dispatch? && !p.Skipped? && Dispatched(start, inv, outcome, k, disk, p, events)
  }

  ghost predicate Dispatched(
    start: Disk, inv: Invocation, outcome: Outcome, k: Option<Commit>, disk: Disk, p: Proc, events: seq<Event>)
    requires outcome.Dispatch?
  {
    var burned := Burn(start, outcome.key);
    && (p.Cleared? ==>
          p == Cleared(inv, outcome.doc, outcome.activation, outcome.target, outcome.key) && disk == start && events == [])
    && (p.Burned? ==>
          && p == Burned(inv, outcome.doc, outcome.activation, outcome.target, outcome.key)
          && disk == burned && events == [Consumed(outcome.key)])
    && (p.Qualified? || p.Checked? || p.Written? || p.Merging? ==>
          && k == Some(p.commit) && events == EventsOf(outcome)
          && disk == (if p.Written? || p.Merging? then Filed(burned, p.commit) else burned)
          && (p.Merging? ==> p.base == BaseOf(start, p.commit)))
  }

  /** A decision made on this directory: it never skips, a dispatch has an unused key and target, and the
      commit is of that target. */
  predicate Undisturbed(start: Disk, outcome: Outcome, k: Option<Commit>) {
    && !outcome.AlreadyProcessed?
    && (outcome.Dispatch? ==> outcome.key !in start.ledger && outcome.target !in start.observations)
    && (outcome.Dispatch? && k.Some? ==> k.value.observation.session == outcome.target)
  }

  lemma DecisionIsUndisturbed(c: Calendar, inv: Invocation, start: Disk, response: Option<Market>)
    ensures Undisturbed(start, Decide(c, inv, start), CommitFor(inv, Decide(c, inv, start), response))
  {
    UndisturbedNeverSkips(c, inv, start);
    var d := Decide(c, inv, start);
    if d.Dispatch? {
      DispatchMeaning(c, inv, start);
      if CommitFor(inv, d, response).Some? {
        QualifiedTarget(inv, d.activation, d.doc, d.target, response);
      }
    }
  }

  lemma TracksRead(c: Calendar, start: Disk, inv: Invocation, outcome: Outcome, k: Option<Commit>, p: Proc)
    requires Reading(p) && Undisturbed(start, outcome, k) && Tracks(c, start, inv, outcome, k, start, p, [])
    ensures Tracks(c, start, inv, outcome, k, start, Read(c, start, p), [])
  {
    ReadForesees(c, start, p);
  }

  lemma QualifiedTarget(inv: Invocation, activation: Day, doc: StateDoc, target: Day, response: Option<Market>)
    requires Qualify(inv, activation, doc, target, response).Some?
    ensures Qualify(inv, activation, doc, target, response).value.observation.session == target
  {
  }

  lemma FetchingStep(
    c: Calendar, start: Disk, inv: Invocation, outcome: Outcome, k: Option<Commit>,
    response: Option<Market>, disk: Disk, p: Proc, events: seq<Event>)
    requires outcome.Dispatch? && Undisturbed(start, outcome, k) && k == CommitFor(inv, outcome, response)
    requires (p.Cleared? || p.Burned?) && Dispatched(start, inv, outcome, k, disk, p, events)
    ensures var e := AdvanceProc(c, disk, p, response);
      if e.proc.Ended? then e.disk == Completed(start, outcome, k) && events + e.events == EventsOf(outcome)
      else !Reading(e.proc) && !Stopped(e.proc) && Dispatched(start, inv, outcome, k, e.disk, e.proc, events + e.events)
  {
    assert [] + [Consumed(outcome.key)] == [Consumed(outcome.key)];
    assert [Consumed(outcome.key)] + [Fetched(outcome.key)] == EventsOf(outcome);
  }

  lemma CommittingStep(
    c: Calendar, start: Disk, inv: Invocation, outcome: Outcome, k: Option<Commit>,
    response: Option<Market>, disk: Disk, p: Proc, events: seq<Event>)
    requires outcome.Dispatch? && Undisturbed(start, outcome, k) && k == CommitFor(inv, outcome, response)
    requires p.Qualified? || p.Checked? || p.Written? || p.Merging?
    requires Dispatched(start, inv, outcome, k, disk, p, events)
    ensures var e := AdvanceProc(c, disk, p, response);
      if e.proc.Ended? then e.disk == Completed(start, outcome, k) && events + e.events == EventsOf(outcome)
      else !Reading(e.proc) && !Stopped(e.proc) && Dispatched(start, inv, outcome, k, e.disk, e.proc, events + e.events)
  {
    assert events + [] == events;
  }

  lemma DispatchedStep(
    c: Calendar, start: Disk, inv: Invocation, outcome: Outcome, k: Option<Commit>,
    response: Option<Market>, disk: Disk, p: Proc, events: seq<Event>)
    requires outcome.Dispatch? && Undisturbed(start, outcome, k) && k == CommitFor(inv, outcome, response)
    requires !Reading(p) && !Stopped(p) && Dispatched(start, inv, outcome, k, disk, p, events)
    ensures var e := AdvanceProc(c, disk, p, response);
      if e.proc.Ended? then e.disk == Completed(start, outcome, k) && events + e.events == EventsOf(outcome)
      else !Reading(e.proc) && !Stopped(e.proc) && Dispatched(start, inv, outcome, k, e.disk, e.proc, events + e.events)
  {
    if p.Cleared? || p.Burned? {
      FetchingStep(c, start, inv, outcome, k, response, disk, p, events);
    } else {
      CommittingStep(c, start, inv, outcome, k, response, disk, p, events);
    }
  }

  lemma TracksStep(
    c: Calendar, start: Disk, inv: Invocation, outcome: Outcome, k: Option<Commit>,
    response: Option<Market>, disk: Disk, p: Proc, events: seq<Event>)
    requires Undisturbed(start, outcome, k) && k == CommitFor(inv, outcome, response)
    requires Tracks(c, start, inv, outcome, k, disk, p, events)
    ensures var e := AdvanceProc(c, disk, p, response);
      Tracks(c, start, inv, outcome, k, e.disk, e.proc, events + e.events)
  {
    var e := AdvanceProc(c, disk, p, response);
    if Reading(p) {
      TracksRead(c, start, inv, outcome, k, p);
      assert e == Effect(start, Read(c, start, p), []);
    } else if p.Ended? {
      assert e == Effect(disk, p, []) && events + [] == events;
    } else {
      DispatchedStep(c, start, inv, outcome, k, response, disk, p, events);
    }
  }

  /** File operations an invocation still has before it. */
  function Remaining(p: Proc): nat {
    match p
    case Started(_) => TURNS
    case Located(_, _) => 11
    case Listed(_, _, _) => 10
    case Loaded(_, _, _) => 9
    case Verified(_, _, _) => 8
    case Unspent(_, _, _, _) => 7
    case Cleared(_, _, _, _, _) => 6
    case Burned(_, _, _, _, _) => 5
    case Qualified(_) => 4
    case Checked(_) => 3
    case Written(_) => 2
    case Merging(_, _) => 1
    case _ => 0
  }

  lemma ReadRemains(c: Calendar, disk: Disk, p: Proc)
    requires Reading(p)
    ensures Remaining(Read(c, disk, p)) < Remaining(p)
  {
    match p {
      case Unspent(inv, doc, activation, target) => UnspentStep(c, disk, inv, doc, activation, target);
      case _ => EarlyRemains(c, disk, p);
    }
  }

  lemma EarlyRemains(c: Calendar, disk: Disk, p: Proc)
    requires Reading(p) && !p.Unspent?
    ensures Remaining(Read(c, disk, p)) < Remaining(p)
  {
  }

  lemma StepRemains(c: Calendar, disk: Disk, p: Proc, response: Option<Market>)
    ensures var q := AdvanceProc(c, disk, p, response).proc;
      Remaining(q) < Remaining(p) || (Stopped(p) && q == p)
  {
    if Reading(p) {
      ReadRemains(c, disk, p);
      assert AdvanceProc(c, disk, p, response).proc == Read(c, disk, p);
    }
  }

  lemma {:induction false} AloneTracks(
    c: Calendar, start: Disk, inv: Invocation, outcome: Outcome, k: Option<Commit>,
    response: Option<Market>, disk: Disk, p: Proc, events: seq<Event>, n: nat)
    requires Undisturbed(start, outcome, k) && k == CommitFor(inv, outcome, response)
    requires Tracks(c, start, inv, outcome, k, disk, p, events)
    ensures var r := Alone(c, disk, p, response, n);
      Tracks(c, start, inv, outcome, k, r.disk, r.proc, events + r.events)
    decreases n, 0
  {
    if n == 0 {
      assert events + [] == events;
    } else {
      TracksStep(c, start, inv, outcome, k, response, disk, p, events);
      AfterStep(c, start, inv, outcome, k, response, AdvanceProc(c, disk, p, response), events, n - 1);
    }
  }

  lemma {:induction false} AfterStep(
    c: Calendar, start: Disk, inv: Invocation, outcome: Outcome, k: Option<Commit>,
    response: Option<Market>, e: Effect, events: seq<Event>, n: nat)
    requires Undisturbed(start, outcome, k) && k == CommitFor(inv, outcome, response)
    requires Tracks(c, start, inv, outcome, k, e.disk, e.proc, events + e.events)
    ensures var rest := Alone(c, e.disk, e.proc, response, n);
      Tracks(c, start, inv, outcome, k, rest.disk, rest.proc, events + (e.events + rest.events))
    decreases n, 1
  {
    var rest := Alone(c, e.disk, e.proc, response, n);
    AloneTracks(c, start, inv, outcome, k, response, e.disk, e.proc, events + e.events, n);
    assert (events + e.events) + rest.events == events + (e.events + rest.events);
  }

  lemma {:induction false} AloneStops(c: Calendar, disk: Disk, p: Proc, response: Option<Market>, n: nat)
    requires Remaining(p) <= n
    ensures Stopped(Alone(c, disk, p, response, n).proc)
    decreases n
  {
    if n > 0 {
      var e := AdvanceProc(c, disk, p, response);
      StepRemains(c, disk, p, response);
      AloneStops(c, e.disk, e.proc, response, n - 1);
    }
  }

  lemma StartTracks(c: Calendar, disk: Disk, inv: Invocation, k: Option<Commit>)
    ensures Tracks(c, disk, inv, Decide(c, inv, disk), k, disk, Started(inv), [])
  {
  }

  lemma SameEvents(
    c: Calendar, start: Disk, inv: Invocation, outcome: Outcome, k: Option<Commit>, r: Effect, events: seq<Event>)
    requires Tracks(c, start, inv, outcome, k, r.disk, r.proc, events) && events == r.events
    ensures Tracks(c, start, inv, outcome, k, r.disk, r.proc, r.events)
  {
  }

  lemma TracksFromStart(
    c: Calendar, disk: Disk, inv: Invocation, outcome: Outcome, k: Option<Commit>, response: Option<Market>, n: nat)
    requires Undisturbed(disk, outcome, k) && k == CommitFor(inv, outcome, response)
    requires Tracks(c, disk, inv, outcome, k, disk, Started(inv), [])
    ensures var r := Alone(c, disk, Started(inv), response, n);
      Tracks(c, disk, inv, outcome, k, r.disk, r.proc, r.events)
  {
    var r := Alone(c, disk, Started(inv), response, n);
    AloneTracks(c, disk, inv, outcome, k, response, disk, Started(inv), [], n);
    SameEvents(c, disk, inv, outcome, k, r, [] + r.events);
  }

  lemma StartedTracks(c: Calendar, disk: Disk, inv: Invocation, response: Option<Market>, n: nat)
    ensures var r := Alone(c, disk, Started(inv), response, n);
      var d := Decide(c, inv, disk);
      Tracks(c, disk, inv, d, CommitFor(inv, d, response), r.disk, r.proc, r.events)
  {
    var d := Decide(c, inv, disk);
    var k := CommitFor(inv, d, response);
    DecisionIsUndisturbed(c, inv, disk, response);
    StartTracks(c, disk, inv, k);
    TracksFromStart(c, disk, inv, d, k, response, n);
  }

  lemma StartedEnds(c: Calendar, disk: Disk, inv: Invocation, response: Option<Market>)
    ensures Alone(c, disk, Started(inv), response, TURNS)
         == Effect(Execute(c, disk, inv, response), Ended, EventsOf(Decide(c, inv, disk)))
  {
    StartedTracks(c, disk, inv, response, TURNS);
    AloneStops(c, disk, Started(inv), response, TURNS);
  }

  /** The sequential live path is one particular schedule of the interleaved system. */
  lemma ExecuteIsARun(c: Calendar, s: System, pid: nat, inv: Invocation, response: Option<Market>)
    requires pid !in s.procs
    ensures Run(c, s, Invoke(pid, inv, response, TURNS)) ==
      System(Execute(c, s.disk, inv, response), s.procs[pid := Ended], s.events + EventsOf(Decide(c, inv, s.disk)))
  {
    SpawnThenAdvance(c, s, pid, inv, response, TURNS);
    StartedEnds(c, s.disk, inv, response);
  }

  // ----- Stuck directories -----

  /** Invocations whose clock reads at least `from`; all of them when there is no bound. */
  ghost predicate After(inv: Invocation, from: Option<int>) {
    from.Some? ==> from.value <= inv.now
  }

  ghost predicate NeverDispatches(c: Calendar, disk: Disk, from: Option<int>) {
    forall inv: Invocation :: After(inv, from) ==> !Decide(c, inv, disk).Dispatch?
  }

  ghost predicate SpawnsAfter(actions: seq<Action>, from: Option<int>) {
    forall i :: 0 <= i < |actions| && actions[i].Spawn? ==> After(actions[i].inv, from)
  }

  /** Why no invocation can be dispatched from instant `from` on: a file the state document does not
      list, a target whose successor has opened, or a calendar that ends before the next session. */
  ghost predicate Stuck(c: Calendar, disk: Disk, from: Option<int>) {
    || (exists d :: d in disk.observations && (disk.state.Some? ==> d !in disk.state.value.observed))
    || (disk.state.Some? && disk.state.value.observed != [] &&
        match NextExpected(c, disk.state.value.observed[|disk.state.value.observed| - 1])
        case Found(target) =>
          (match Successor(c, target)
           case Found(next) => from == Some(Open(c, next))
           case _ => true)
        case _ => true)
  }

  lemma StuckNeverDispatches(c: Calendar, disk: Disk, from: Option<int>)
    requires Stuck(c, disk, from)
    ensures NeverDispatches(c, disk, from)
  {
    forall inv: Invocation | After(inv, from)
      ensures !Decide(c, inv, disk).Dispatch?
    {
      StuckRefuses(c, disk, from, inv);
    }
  }

  /** A dispatched invocation shows the directory is not stuck at its clock reading. */
  lemma DispatchedHasNoOrphan(c: Calendar, disk: Disk, inv: Invocation)
    requires Decide(c, inv, disk).Dispatch?
    ensures forall d :: d in disk.observations ==> disk.state.Some? && d in disk.state.value.observed
    ensures disk.state.Some? ==> Decide(c, inv, disk).doc == disk.state.value
  {
    DispatchMeaning(c, inv, disk);
    VerifiedMeaning(disk.state, disk.observations, IdentityOf(inv, Decide(c, inv, disk).activation));
  }

  lemma DispatchedHasFreshTarget(c: Calendar, disk: Disk, inv: Invocation)
    requires Decide(c, inv, disk).Dispatch?
    ensures var d := Decide(c, inv, disk);
      && Target(c, d.doc.observed, d.activation) == Found(d.target)
      && Successor(c, d.target).Found? && inv.now < Open(c, Successor(c, d.target).day)
  {
    DispatchMeaning(c, inv, disk);
    AimMeaning(c, inv, Decide(c, inv, disk).activation, Decide(c, inv, disk).doc);
  }

  /** A listed directory whose target is still fresh is not stuck. */
  lemma FreshIsNotStuck(c: Calendar, disk: Disk, from: Option<int>, doc: StateDoc, activation: Day, target: Day, now: int)
    requires forall d :: d in disk.observations ==> disk.state.Some? && d in disk.state.value.observed
    requires disk.state.Some? ==> doc == disk.state.value
    requires Target(c, doc.observed, activation) == Found(target)
    requires Successor(c, target).Found? && now < Open(c, Successor(c, target).day)
    requires from.Some? ==> from.value <= now
    ensures !Stuck(c, disk, from)
  {
  }

  lemma StuckRefuses(c: Calendar, disk: Disk, from: Option<int>, inv: Invocation)
    requires Stuck(c, disk, from) && After(inv, from)
    ensures !Decide(c, inv, disk).Dispatch?
  {
    if Decide(c, inv, disk).Dispatch? {
      DispatchedHasNoOrphan(c, disk, inv);
      DispatchedHasFreshTarget(c, disk, inv);
      var d := Decide(c, inv, disk);
      FreshIsNotStuck(c, disk, from, d.doc, d.activation, d.target, inv.now);
    }
  }

  /** An invocation that has stopped, or whose reading of this directory will not clear it. */
  ghost predicate Idle(c: Calendar, disk: Disk, p: Proc) {
    Stopped(p) || (Reading(p) && !Foresee(c, disk, p).Dispatch?)
  }

  ghost predicate AllIdle(c: Calendar, s: System) {
    forall pid :: pid in s.procs ==> Idle(c, s.disk, s.procs[pid])
  }

  lemma IdleStaysIdle(c: Calendar, disk: Disk, p: Proc, response: Option<Market>)
    requires Idle(c, disk, p)
    ensures var e := AdvanceProc(c, disk, p, response);
      e.disk == disk && e.events == [] && Idle(c, disk, e.proc)
  {
    if Reading(p) {
      ReadForesees(c, disk, p);
    }
  }

  lemma FrozenStep(c: Calendar, s: System, from: Option<int>, a: Action)
    requires NeverDispatches(c, s.disk, from) && AllIdle(c, s) && (a.Spawn? ==> After(a.inv, from))
    ensures var t := Step(c, s, a); t.disk == s.disk && t.events == s.events && AllIdle(c, t)
  {
    if a.Advance? && a.pid in s.procs {
      IdleStaysIdle(c, s.disk, s.procs[a.pid], a.response);
    }
  }

  lemma {:induction false} FrozenRun(c: Calendar, s: System, from: Option<int>, actions: seq<Action>)
    requires NeverDispatches(c, s.disk, from) && AllIdle(c, s) && SpawnsAfter(actions, from)
    ensures var t := Run(c, s, actions); t.disk == s.disk && t.events == s.events
    decreases |actions|
  {
    if actions != [] {
      FrozenStep(c, s, from, actions[0]);
      FrozenRun(c, Step(c, s, actions[0]), from, actions[1..]);
    }
  }

  /** A stuck directory stays as it is for ever: no later invocation, interleaved with any others
      and crashing anywhere, consumes an attempt, fetches or commits, provided none of those already in
      flight is about to. */
  lemma StuckForever(c: Calendar, s: System, from: Option<int>, actions: seq<Action>)
    requires AllIdle(c, s) && Stuck(c, s.disk, from) && SpawnsAfter(actions, from)
    ensures var t := Run(c, s, actions); t.disk == s.disk && t.events == s.events
  {
    StuckNeverDispatches(c, s.disk, from);
    FrozenRun(c, s, from, actions);
  }

  // ----- A crash between the two files -----

  /** The system after an invocation took n undisturbed turns and died. */
  function Crashed(c: Calendar, s: System, pid: nat, inv: Invocation, response: Option<Market>, n: nat): System {
    Step(c, Run(c, s, Invoke(pid, inv, response, n)), Crash(pid))
  }

  /** The point between the two files of `append_observation`. */
  predicate BetweenFiles(p: Proc) {
    p.Written? || p.Merging?
  }

  lemma CrashLeaves(c: Calendar, s: System, pid: nat, inv: Invocation, response: Option<Market>, n: nat)
    requires pid !in s.procs
    ensures Crashed(c, s, pid, inv, response, n) ==
      var r := Alone(c, s.disk, Started(inv), response, n);
      System(r.disk, s.procs[pid := Ended], s.events + r.events)
  {
    SpawnThenAdvance(c, s, pid, inv, response, n);
    var r := Alone(c, s.disk, Started(inv), response, n);
    assert s.procs[pid := r.proc][pid := Ended] == s.procs[pid := Ended];
  }

  /** Between the files the directory holds one file its state document does not list. */
  lemma BetweenFilesIsOrphaned(c: Calendar, disk: Disk, inv: Invocation, response: Option<Market>, n: nat)
    requires BetweenFiles(Alone(c, disk, Started(inv), response, n).proc)
    ensures var r := Alone(c, disk, Started(inv), response, n);
      && Decide(c, inv, disk).Dispatch? && r.disk.state == disk.state
      && Decide(c, inv, disk).target in r.disk.observations
      && (disk.state.Some? ==> Decide(c, inv, disk).target !in disk.state.value.observed)
  {
    StartedTracks(c, disk, inv, response, n);
    var d := Decide(c, inv, disk);
    QualifiedTarget(inv, d.activation, d.doc, d.target, response);
    DispatchMeaning(c, inv, disk);
    VerifiedMeaning(disk.state, disk.observations, IdentityOf(inv, d.activation));
  }

  /** A crash after the observation file and before the state document blocks the directory for ever,
      unless another invocation is already past reading it. */
  lemma CrashBetweenFilesBlocks(
    c: Calendar, s: System, pid: nat, inv: Invocation, response: Option<Market>, n: nat, later: seq<Action>)
    requires pid !in s.procs && BetweenFiles(Alone(c, s.disk, Started(inv), response, n).proc)
    requires forall other :: other in s.procs ==>
      Idle(c, Crashed(c, s, pid, inv, response, n).disk, s.procs[other])
    ensures var crashed := Crashed(c, s, pid, inv, response, n);
      && Decide(c, inv, s.disk).Dispatch? && Decide(c, inv, s.disk).target in crashed.disk.observations
      && Run(c, crashed, later).disk == crashed.disk && Run(c, crashed, later).events == crashed.events
  {
    var crashed := Crashed(c, s, pid, inv, response, n);
    CrashLeaves(c, s, pid, inv, response, n);
    BetweenFilesIsOrphaned(c, s.disk, inv, response, n);
    StuckForever(c, crashed, None, later);
  }

  /** Every dispatched invocation whose data qualify passes that point. */
  lemma BetweenFilesIsReached(c: Calendar, disk: Disk, inv: Invocation, response: Option<Market>) returns (n: nat)
    requires CommitFor(inv, Decide(c, inv, disk), response).Some?
    ensures BetweenFiles(Alone(c, disk, Started(inv), response, n).proc)
  {
    var d := Decide(c, inv, disk);
    DecisionIsUndisturbed(c, inv, disk, response);
    n := FindBetweenFiles(c, disk, inv, d, CommitFor(inv, d, response), response, disk, Started(inv), []);
  }

  lemma {:induction false} FindBetweenFiles(
    c: Calendar, start: Disk, inv: Invocation, outcome: Outcome, k: Option<Commit>,
    response: Option<Market>, disk: Disk, p: Proc, events: seq<Event>)
    returns (n: nat)
    requires Undisturbed(start, outcome, k) && k == CommitFor(inv, outcome, response) && k.Some?
    requires Tracks(c, start, inv, outcome, k, disk, p, events) && 1 <= Remaining(p)
    ensures BetweenFiles(Alone(c, disk, p, response, n).proc)
    decreases Remaining(p)
  {
    if BetweenFiles(p) {
      n := 0;
    } else {
      var e := AdvanceProc(c, disk, p, response);
      TracksStep(c, start, inv, outcome, k, response, disk, p, events);
      StepRemains(c, disk, p, response);
      QualifiedGoesOn(c, start, inv, outcome, k, response, disk, p, events);
      n := FindBetweenFiles(c, start, inv, outcome, k, response, e.disk, e.proc, events + e.events);
      n := n + 1;
    }
  }

  lemma QualifiedGoesOn(
    c: Calendar, start: Disk, inv: Invocation, outcome: Outcome, k: Option<Commit>,
    response: Option<Market>, disk: Disk, p: Proc, events: seq<Event>)
    requires Undisturbed(start, outcome, k) && k == CommitFor(inv, outcome, response) && k.Some?
    requires Tracks(c, start, inv, outcome, k, disk, p, events) && 3 <= Remaining(p)
    ensures 1 <= Remaining(AdvanceProc(c, disk, p, response).proc)
  {
    if Reading(p) {
      ReadForesees(c, start, p);
    }
  }
}
