/** Invocations that do overlap: what they can do to each other, each shown by a run of the system. */
module ShadowRaces {
  import opened Common
  import opened NyseCalendar
  import opened ShadowChain
  import opened ShadowRunner
  import opened ShadowGates
  import opened ShadowSafety
  import opened ShadowProgress
  import opened ShadowSerial

  // ----- The already-processed exit -----

  /** The action writes the observation file of session d. */
  predicate Writes(s: System, a: Action, d: Day) {
    a.Advance? && a.pid in s.procs && s.procs[a.pid].Checked? && s.procs[a.pid].commit.observation.session == d
  }

  /** Observation files appear by writing and never go away. */
  lemma FilesAppearByWriting(c: Calendar, s: System, a: Action, d: Day)
    ensures d in Step(c, s, a).disk.observations <==> d in s.disk.observations || Writes(s, a, d)
  {
  }

  lemma {:induction false} FilesOfARun(c: Calendar, s: System, actions: seq<Action>, d: Day)
    ensures d in Run(c, s, actions).disk.observations <==> d in s.disk.observations || WrittenDuring(c, s, actions, d)
    decreases |actions|
  {
    if actions != [] {
      var t, rest := Step(c, s, actions[0]), actions[1..];
      FilesAppearByWriting(c, s, actions[0], d);
      FilesOfARun(c, t, rest, d);
    }
  }

  /** Some action of the run writes the file of session d. */
  predicate WrittenDuring(c: Calendar, s: System, actions: seq<Action>, d: Day)
    decreases |actions|
  {
    actions != [] && (Writes(s, actions[0], d) || WrittenDuring(c, Step(c, s, actions[0]), actions[1..], d))
  }

  /** When an invocation's chain check passes, or its listing of a directory without a state document finds
      nothing, the file of its target is absent. */
  lemma CheckedTargetIsAbsent(c: Calendar, disk: Disk, p: Proc)
    requires p.Loaded? || p.Located?
    ensures var r := Read(c, disk, p);
      && (r.Verified? ==> var target := Target(c, r.doc.observed, r.activation);
            target.Found? ==> target.day !in disk.observations)
      && (r.Listed? && r.bare ==> disk.observations == map[])
  {
    if p.Loaded? && Read(c, disk, p).Verified? {
      VerifiedTargetIsNew(c, disk.(state := Some(p.doc)), IdentityOf(p.inv, p.activation));
    }
  }

  /** Exactly when an invocation exits as already processed: its target's file was absent at s, where it
      checked the chain, and some invocation wrote it before the file test. The exit changes nothing. */
  lemma SkipsExactly(c: Calendar, s: System, pid: nat, actions: seq<Action>, response: Option<Market>)
    requires var t := Run(c, s, actions);
      pid in t.procs && t.procs[pid].Unspent? && t.procs[pid].target !in s.disk.observations
    ensures var t := Run(c, s, actions);
      var after := Step(c, t, Advance(pid, response));
      && (after.procs[pid].Skipped? <==> WrittenDuring(c, s, actions, t.procs[pid].target))
      && after.disk == t.disk && after.events == t.events
  {
    var t := Run(c, s, actions);
    var p := t.procs[pid];
    FilesOfARun(c, s, actions, p.target);
    UnspentStep(c, t.disk, p.inv, p.doc, p.activation, p.target);
    assert AdvanceProc(c, t.disk, p, response) == Effect(t.disk, Read(c, t.disk, p), []);
    assert t.events + [] == t.events;
  }

  // ----- Files that stay -----

  /** Nobody stands between the file test and the write for session d. */
  predicate NobodyWrites(s: System, d: Day) {
    forall pid :: pid in s.procs ==> !(s.procs[pid].Checked? && s.procs[pid].commit.observation.session == d)
  }

  lemma FileStaysOneStep(c: Calendar, s: System, a: Action, d: Day)
    requires d in s.disk.observations && NobodyWrites(s, d)
    ensures var t := Step(c, s, a);
      d in t.disk.observations && t.disk.observations[d] == s.disk.observations[d] && NobodyWrites(t, d)
  {
    if a.Advance? && a.pid in s.procs {
      OneProcStays(c, s.disk, s.procs[a.pid], a.response, d);
    }
  }

  lemma OneProcStays(c: Calendar, disk: Disk, p: Proc, response: Option<Market>, d: Day)
    requires d in disk.observations && !(p.Checked? && p.commit.observation.session == d)
    ensures var e := AdvanceProc(c, disk, p, response);
      && d in e.disk.observations && e.disk.observations[d] == disk.observations[d]
      && !(e.proc.Checked? && e.proc.commit.observation.session == d)
  {
    if !p.Checked? && !p.Merging? {
      OthersWriteNoFile(c, disk, p, response);
    }
  }

  /** An observation file is never changed again, whatever invocations, races and crashes follow, once it is
      present with nobody between the file test and the write for its session. */
  lemma {:induction false} FilesStay(c: Calendar, s: System, actions: seq<Action>, d: Day)
    requires d in s.disk.observations && NobodyWrites(s, d)
    ensures var t := Run(c, s, actions);
      d in t.disk.observations && t.disk.observations[d] == s.disk.observations[d]
    decreases |actions|
  {
    if actions != [] {
      FileStaysOneStep(c, s, actions[0], d);
      FilesStay(c, Step(c, s, actions[0]), actions[1..], d);
    }
  }

  /** A merge never replaces one recovery authority by another and never lists a session twice; what it does
      not write it leaves as it is. */
  lemma MergesAreCareful(disk: Disk, base: StateDoc, k: Commit)
    requires forall i, j :: 0 <= i < j < |base.observed| ==> base.observed[i] != base.observed[j]
    ensures var after := Merged(disk, base, k);
      var clash := k.identity.recovery.Some? && base.authority.Some? && base.authority != k.identity.recovery;
      && after.observations == disk.observations && after.ledger == disk.ledger
      && (clash || k.observation.session in base.observed ==> after == disk)
      && (!clash && k.observation.session !in base.observed ==>
            && after.state.Some? && after.state.value.observed == base.observed + [k.observation.session]
            && (base.authority.Some? ==> after.state.value.authority == base.authority)
            && (k.identity.recovery.Some? ==> after.state.value.authority == k.identity.recovery)
            && forall i, j :: 0 <= i < j < |after.state.value.observed| ==>
                 after.state.value.observed[i] != after.state.value.observed[j])
  {
  }

  // ----- Pieces of runs -----

  /** One reading step before n undisturbed turns. */
  lemma ReadAlone(c: Calendar, disk: Disk, p: Proc, q: Proc, response: Option<Market>, n: nat)
    requires Reading(p) && Alone(c, disk, Read(c, disk, p), response, n) == Effect(disk, q, [])
    ensures Alone(c, disk, p, response, n + 1) == Effect(disk, q, [])
  {
    assert AdvanceProc(c, disk, p, response) == Effect(disk, Read(c, disk, p), []);
  }

  lemma AtRest(c: Calendar, disk: Disk, p: Proc, response: Option<Market>)
    ensures Alone(c, disk, p, response, 0) == Effect(disk, p, [])
  {
  }

  lemma ForeseenDispatch(c: Calendar, disk: Disk, p: Proc, outcome: Outcome)
    requires Reading(p) && outcome.Dispatch? && Foresee(c, disk, p) == outcome
    ensures var r := Read(c, disk, p);
      || (Reading(r) && r.inv == p.inv && Foresee(c, disk, r) == outcome)
      || r == Cleared(p.inv, outcome.doc, outcome.activation, outcome.target, outcome.key)
  {
    ReadForesees(c, disk, p);
  }

  lemma {:induction false} FindCleared(c: Calendar, disk: Disk, outcome: Outcome, response: Option<Market>, p: Proc)
    returns (n: nat)
    requires outcome.Dispatch? && Reading(p) && Foresee(c, disk, p) == outcome
    ensures Alone(c, disk, p, response, n)
         == Effect(disk, Cleared(p.inv, outcome.doc, outcome.activation, outcome.target, outcome.key), [])
    decreases Remaining(p), 1
  {
    ForeseenDispatch(c, disk, p, outcome);
    ReadRemains(c, disk, p);
    var goal := Cleared(p.inv, outcome.doc, outcome.activation, outcome.target, outcome.key);
    n := FindFrom(c, disk, outcome, response, Read(c, disk, p), goal);
    ReadAlone(c, disk, p, goal, response, n);
    n := n + 1;
  }

  lemma {:induction false} FindFrom(c: Calendar, disk: Disk, outcome: Outcome, response: Option<Market>, r: Proc, goal: Proc)
    returns (n: nat)
    requires outcome.Dispatch? && goal.Cleared?
    requires goal == Cleared(goal.inv, outcome.doc, outcome.activation, outcome.target, outcome.key)
    requires (Reading(r) && r.inv == goal.inv && Foresee(c, disk, r) == outcome) || r == goal
    ensures Alone(c, disk, r, response, n) == Effect(disk, goal, [])
    decreases Remaining(r), 2
  {
    if r == goal {
      AtRest(c, disk, r, response);
      n := 0;
    } else {
      n := FindCleared(c, disk, outcome, response, r);
    }
  }

  /** An invocation that will be dispatched is cleared after some number of undisturbed turns. */
  lemma ClearedIsReached(c: Calendar, disk: Disk, inv: Invocation, response: Option<Market>) returns (n: nat)
    requires Decide(c, inv, disk).Dispatch?
    ensures var d := Decide(c, inv, disk);
      Alone(c, disk, Started(inv), response, n)
      == Effect(disk, Cleared(inv, d.doc, d.activation, d.target, d.key), [])
  {
    n := FindCleared(c, disk, Decide(c, inv, disk), response, Started(inv));
  }

  /** The last six turns of a cleared invocation whose data qualify, whatever the directory has become. */
  lemma ClearedCommits(c: Calendar, disk: Disk, p: Proc, k: Commit, response: Option<Market>)
    requires p.Cleared? && p.key !in disk.ledger && k.observation.session !in disk.observations
    requires Qualify(p.inv, p.activation, p.doc, p.target, response) == Some(k)
    ensures Alone(c, disk, p, response, 6) == Effect(Append(Burn(disk, p.key), k), Ended, [Consumed(p.key), Fetched(p.key)])
  {
    var burned := Burn(disk, p.key);
    QualifiedCommits(c, burned, k, response);
    BurnedCommits(c, burned, Burned(p.inv, p.doc, p.activation, p.target, p.key), k, response);
    ConsumeFirst(c, disk, p, response, Append(burned, k));
  }

  lemma ConsumeFirst(c: Calendar, disk: Disk, p: Proc, response: Option<Market>, after: Disk)
    requires p.Cleared? && p.key !in disk.ledger
    requires Alone(c, Burn(disk, p.key), Burned(p.inv, p.doc, p.activation, p.target, p.key), response, 5)
          == Effect(after, Ended, [Fetched(p.key)])
    ensures Alone(c, disk, p, response, 6) == Effect(after, Ended, [Consumed(p.key), Fetched(p.key)])
  {
    assert [Consumed(p.key)] + [Fetched(p.key)] == [Consumed(p.key), Fetched(p.key)];
  }

  lemma QualifiedCommits(c: Calendar, disk: Disk, k: Commit, response: Option<Market>)
    requires k.observation.session !in disk.observations
    ensures Alone(c, disk, Qualified(k), response, 4) == Effect(Append(disk, k), Ended, [])
  {
    CheckedCommits(c, disk, k, response);
    assert AdvanceProc(c, disk, Qualified(k), response) == Effect(disk, Checked(k), []);
  }

  lemma BurnedCommits(c: Calendar, burned: Disk, p: Proc, k: Commit, response: Option<Market>)
    requires p.Burned? && Qualify(p.inv, p.activation, p.doc, p.target, response) == Some(k)
    requires Alone(c, burned, Qualified(k), response, 4) == Effect(Append(burned, k), Ended, [])
    ensures Alone(c, burned, p, response, 5) == Effect(Append(burned, k), Ended, [Fetched(p.key)])
  {
    assert AdvanceProc(c, burned, p, response) == Effect(burned, Qualified(k), [Fetched(p.key)]);
  }

  lemma CheckedCommits(c: Calendar, disk: Disk, k: Commit, response: Option<Market>)
    ensures Alone(c, disk, Checked(k), response, 3) == Effect(Merged(Filed(disk, k), BaseOf(disk, k), k), Ended, [])
  {
    var filed, base := Filed(disk, k), BaseOf(disk, k);
    assert Alone(c, Merged(filed, base, k), Ended, response, 0) == Effect(Merged(filed, base, k), Ended, []);
    assert Alone(c, filed, Merging(k, base), response, 1) == Effect(Merged(filed, base, k), Ended, []);
    assert Alone(c, filed, Written(k), response, 2) == Effect(Merged(filed, base, k), Ended, []);
  }

  /** Running more of one process after anything else. */
  lemma RunThenAdvance(c: Calendar, s: System, before: seq<Action>, pid: nat, response: Option<Market>, n: nat)
    requires pid in Run(c, s, before).procs
    ensures var t := Run(c, s, before);
      Run(c, s, before + Advances(pid, response, n)) == Applied(t, pid, Alone(c, t.disk, t.procs[pid], response, n))
  {
    RunJoins(c, s, before, Advances(pid, response, n));
    RunAlone(c, Run(c, s, before), pid, response, n);
  }

  lemma RunThenInvoke(
    c: Calendar, s: System, before: seq<Action>, pid: nat, inv: Invocation, response: Option<Market>, n: nat)
    requires pid !in Run(c, s, before).procs
    ensures var t := Run(c, s, before);
      Run(c, s, before + Invoke(pid, inv, response, n)) == Applied(t, pid, Alone(c, t.disk, Started(inv), response, n))
  {
    RunJoins(c, s, before, Invoke(pid, inv, response, n));
    SpawnThenAdvance(c, Run(c, s, before), pid, inv, response, n);
  }

  lemma TornIsOrphaned(disk: Disk, id: Identity, a: Commit, b: Commit)
    requires Continues(disk, id, b) && a.observation.session == b.observation.session
    ensures !Verifies(Filed(disk, a))
  {
    VerifiedMeaning(disk.state, disk.observations, id);
    assert a.observation.session in Filed(disk, a).observations;
    OrphanedNeverVerifies(Filed(disk, a));
  }

  /** A directory left between the two files of commit a heals when an invocation that had already found
      its file absent goes on: b of the same session overwrites the file and lists it. */
  lemma AnotherWriterHeals(
    c: Calendar, s: System, pid: nat, disk: Disk, id: Identity, a: Commit, b: Commit, response: Option<Market>)
    requires Continues(disk, id, b) && a.observation.session == b.observation.session
    requires s.disk == Filed(disk, a) && pid in s.procs && s.procs[pid] == Checked(b)
    ensures !Verifies(s.disk)
    ensures var healed := Run(c, s, Advances(pid, response, 3)).disk;
      healed == Append(disk, b) && VerifyChain(healed.state, healed.observations, id).Ok?
  {
    TornIsOrphaned(disk, id, a, b);
    RunAlone(c, s, pid, response, 3);
    CheckedCommits(c, s.disk, b, response);
    OverwrittenIsAppended(disk, a, b);
    CommitKeepsVerified(disk, id, b);
  }

  lemma OverwrittenIsAppended(disk: Disk, a: Commit, b: Commit)
    requires a.observation.session == b.observation.session && b.observation.session !in disk.observations
    ensures Merged(Filed(Filed(disk, a), b), BaseOf(Filed(disk, a), b), b) == Append(disk, b)
  {
    assert Filed(Filed(disk, a), b) == Filed(disk, b);
  }

  // ----- First sessions of a segment -----

  /** A first session that can be processed now. */
  ghost predicate FirstReady(c: Calendar, segment: Binding, now: int) {
    ProcessableAt(c, segment.session, now) && !Forbidden(segment.session)
  }

  /** The first invocation of a segment under one authority file. */
  function FirstOf(segment: Binding, now: int, authority: int): Invocation {
    Operator(InitialState(SegmentIdentity(segment)), segment, now, authority)
  }

  function FirstKey(segment: Binding, authority: int): Key {
    Key(Some(authority), ForOrdinal(1), 1, 1, segment.session)
  }

  lemma FirstIsDispatched(c: Calendar, disk: Disk, segment: Binding, now: int, authority: int)
    requires FirstReady(c, segment, now) && disk.state == None && disk.observations == map[]
    requires FirstKey(segment, authority) !in disk.ledger
    ensures Decide(c, FirstOf(segment, now, authority), disk)
         == Dispatch(InitialState(SegmentIdentity(segment)), segment.session, segment.session, FirstKey(segment, authority))
  {
    OperatorIsDispatched(c, disk, segment, segment.session, now, authority);
  }

  lemma FirstQualifies(segment: Binding, now: int, authority: int, market: Market)
    requires AllPositive(market.raw) && AllPositive(market.split) && market.economics
    ensures var doc, inv := InitialState(SegmentIdentity(segment)), FirstOf(segment, now, authority);
      var k := Qualify(inv, segment.session, doc, segment.session, Some(market));
      && k.Some? && k.value.identity == SegmentIdentity(segment)
      && k.value.observation.session == segment.session && k.value.observation.previous == None
  {
  }

  // ----- Runs -----

  /** A first invocation on a bare directory whose data never arrive burns its key and nothing else. */
  lemma FirstBurns(c: Calendar, s: System, pid: nat, segment: Binding, now: int, authority: int)
    requires FirstReady(c, segment, now) && s.disk.state == None && s.disk.observations == map[]
    requires pid !in s.procs && FirstKey(segment, authority) !in s.disk.ledger
    ensures var key := FirstKey(segment, authority);
      Run(c, s, Invoke(pid, FirstOf(segment, now, authority), None, TURNS))
      == System(Burn(s.disk, key), s.procs[pid := Ended], s.events + [Consumed(key), Fetched(key)])
  {
    FirstIsDispatched(c, s.disk, segment, now, authority);
    ExecuteIsARun(c, s, pid, FirstOf(segment, now, authority), None);
  }

  lemma TwoBurns(c: Calendar, segment: Binding, now: int)
    requires FirstReady(c, segment, now)
    ensures var first, second := FirstKey(segment, 0), FirstKey(segment, 1);
      var s := Run(c, START, Invoke(0, FirstOf(segment, now, 0), None, TURNS));
      Run(c, s, Invoke(1, FirstOf(segment, now, 1), None, TURNS)).events
      == [Consumed(first), Fetched(first)] + [Consumed(second), Fetched(second)]
  {
    var first := FirstKey(segment, 0);
    FirstBurns(c, START, 0, segment, now, 0);
    SecondBurn(c, segment, now, [Consumed(first), Fetched(first)]);
    assert START.events + [Consumed(first), Fetched(first)] == [Consumed(first), Fetched(first)];
  }

  lemma SecondBurn(c: Calendar, segment: Binding, now: int, events: seq<Event>)
    requires FirstReady(c, segment, now)
    ensures var second := FirstKey(segment, 1);
      var s := System(Burn(EMPTY_DISK, FirstKey(segment, 0)), map[0 := Ended], events);
      Run(c, s, Invoke(1, FirstOf(segment, now, 1), None, TURNS)).events == events + [Consumed(second), Fetched(second)]
  {
    FirstBurns(c, System(Burn(EMPTY_DISK, FirstKey(segment, 0)), map[0 := Ended], events), 1, segment, now, 1);
  }

  /** Single use is per ledger key: two authorities for the same first session both reach the network,
      although each of their keys is used once. */
  lemma OneSessionCanBeFetchedTwice(c: Calendar, segment: Binding, now: int) returns (actions: seq<Action>)
    requires FirstReady(c, segment, now)
    ensures var first, second := FirstKey(segment, 0), FirstKey(segment, 1);
      && first != second && first.target == second.target == segment.session
      && Reached(c, actions).events == [Consumed(first), Fetched(first)] + [Consumed(second), Fetched(second)]
  {
    var before := Invoke(0, FirstOf(segment, now, 0), None, TURNS);
    var after := Invoke(1, FirstOf(segment, now, 1), None, TURNS);
    TwoBurns(c, segment, now);
    RunJoins(c, START, before, after);
    actions := before + after;
  }

  /** The second authority's invocation stops between the two files of its commit. */
  lemma OtherWrites(c: Calendar, s: System, segment: Binding, now: int, market: Market) returns (actions: seq<Action>)
    requires FirstReady(c, segment, now) && s.disk == EMPTY_DISK && 1 !in s.procs && 0 in s.procs
    requires AllPositive(market.raw) && AllPositive(market.split) && market.economics
    ensures var t := Run(c, s, actions);
      && t.disk.state == None && segment.session in t.disk.observations && t.disk.ledger == {FirstKey(segment, 1)}
      && 0 in t.procs && t.procs[0] == s.procs[0]
  {
    var inv, response := FirstOf(segment, now, 1), Some(market);
    FirstIsDispatched(c, EMPTY_DISK, segment, now, 1);
    FirstQualifies(segment, now, 1, market);
    var n := BetweenFilesIsReached(c, EMPTY_DISK, inv, response);
    BetweenFilesLeaves(c, EMPTY_DISK, inv, response, n);
    SpawnThenAdvance(c, s, 1, inv, response, n);
    actions := Invoke(1, inv, response, n);
  }

  /** After its chain check an invocation finds the file another one has just written, and exits: its key
      is unused, and the state document need not exist yet. */
  lemma SkipIsReachable(c: Calendar, segment: Binding, now: int, market: Market) returns (actions: seq<Action>)
    requires FirstReady(c, segment, now)
    requires AllPositive(market.raw) && AllPositive(market.split) && market.economics
    ensures var s := Reached(c, actions);
      && 0 in s.procs && s.procs[0] == Skipped(segment.session)
      && s.disk.state == None && segment.session in s.disk.observations
      && s.disk.ledger == {FirstKey(segment, 1)} && FirstKey(segment, 0) !in s.disk.ledger
  {
    var first := Invoke(0, FirstOf(segment, now, 0), None, 3);
    ReadsBareDirectory(c, segment, now, 0);
    SpawnThenAdvance(c, START, 0, FirstOf(segment, now, 0), None, 3);
    var writes := OtherWrites(c, Run(c, START, first), segment, now, market);
    RunJoins(c, START, first, writes);
    FirstFindsFile(c, Run(c, START, first + writes).disk, segment, now);
    RunThenAdvance(c, START, first + writes, 0, None, 2);
    actions := first + writes + Advances(0, None, 2);
  }

  lemma FirstFindsFile(c: Calendar, disk: Disk, segment: Binding, now: int)
    requires segment.session in disk.observations && FirstKey(segment, 0) !in disk.ledger
    ensures Alone(c, disk, Verified(FirstOf(segment, now, 0), segment.session, InitialState(SegmentIdentity(segment))), None, 2)
         == Effect(disk, Skipped(segment.session), [])
  {
    FindsFile(c, disk, FirstOf(segment, now, 0), segment.session, InitialState(SegmentIdentity(segment)));
  }

  lemma ReadsBareDirectory(c: Calendar, segment: Binding, now: int, authority: int)
    requires IsSession(c, segment.session)
    ensures Alone(c, EMPTY_DISK, Started(FirstOf(segment, now, authority)), None, 3)
         == Effect(EMPTY_DISK, Verified(FirstOf(segment, now, authority), segment.session, InitialState(SegmentIdentity(segment))), [])
  {
    var inv, a := FirstOf(segment, now, authority), segment.session;
    var doc := InitialState(SegmentIdentity(segment));
    assert Read(c, EMPTY_DISK, Started(inv)) == Located(inv, a);
    assert Read(c, EMPTY_DISK, Located(inv, a)) == Listed(inv, a, true);
    assert Read(c, EMPTY_DISK, Listed(inv, a, true)) == Verified(inv, a, doc);
    ReadAlone(c, EMPTY_DISK, Listed(inv, a, true), Verified(inv, a, doc), None, 0);
    ReadAlone(c, EMPTY_DISK, Located(inv, a), Verified(inv, a, doc), None, 1);
    ReadAlone(c, EMPTY_DISK, Started(inv), Verified(inv, a, doc), None, 2);
  }

  /** Between the files of a first commit the directory has its one file and one key and no document. */
  lemma BetweenFilesLeaves(c: Calendar, disk: Disk, inv: Invocation, response: Option<Market>, n: nat)
    requires BetweenFiles(Alone(c, disk, Started(inv), response, n).proc)
    ensures var d := Decide(c, inv, disk);
      var r := Alone(c, disk, Started(inv), response, n).disk;
      d.Dispatch? && r.state == disk.state && d.target in r.observations && r.ledger == disk.ledger + {d.key}
  {
    BetweenFilesIsOrphaned(c, disk, inv, response, n);
    StartedTracks(c, disk, inv, response, n);
  }

  lemma FindsFile(c: Calendar, disk: Disk, inv: Invocation, activation: Day, doc: StateDoc)
    requires Aim(c, inv, activation, doc).Ok?
    requires var target := Aim(c, inv, activation, doc).value;
      KeyFor(inv, doc, target) !in disk.ledger && target in disk.observations
    ensures Alone(c, disk, Verified(inv, activation, doc), None, 2)
         == Effect(disk, Skipped(Aim(c, inv, activation, doc).value), [])
  {
    var target := Aim(c, inv, activation, doc).value;
    ReadAlone(c, disk, Unspent(inv, doc, activation, target), Skipped(target), None, 0);
    ReadAlone(c, disk, Verified(inv, activation, doc), Skipped(target), None, 1);
  }

  /** A first invocation that has passed every gate. */
  function FirstCleared(segment: Binding, now: int, authority: int): Proc {
    Cleared(FirstOf(segment, now, authority), InitialState(SegmentIdentity(segment)), segment.session, segment.session,
      FirstKey(segment, authority))
  }

  /** Two first invocations of different segments can both pass every gate of an empty directory. */
  lemma BothAreCleared(c: Calendar, a: Binding, atA: int, b: Binding, atB: int, response: Option<Market>)
    returns (actions: seq<Action>)
    requires FirstReady(c, a, atA) && FirstReady(c, b, atB)
    ensures Reached(c, actions)
         == System(EMPTY_DISK, map[0 := FirstCleared(a, atA, 0), 1 := FirstCleared(b, atB, 1)], [])
  {
    FirstIsDispatched(c, EMPTY_DISK, a, atA, 0);
    FirstIsDispatched(c, EMPTY_DISK, b, atB, 1);
    var n := ClearedIsReached(c, EMPTY_DISK, FirstOf(a, atA, 0), response);
    var m := ClearedIsReached(c, EMPTY_DISK, FirstOf(b, atB, 1), response);
    var first := Invoke(0, FirstOf(a, atA, 0), response, n);
    SpawnThenAdvance(c, START, 0, FirstOf(a, atA, 0), response, n);
    RunThenInvoke(c, START, first, 1, FirstOf(b, atB, 1), response, m);
    actions := first + Invoke(1, FirstOf(b, atB, 1), response, m);
  }

  /** Two cleared invocations with different keys and targets both commit, one after the other. */
  lemma BothCommit(c: Calendar, s: System, p: Proc, q: Proc, kp: Commit, kq: Commit, response: Option<Market>)
    requires p.Cleared? && q.Cleared? && s == System(EMPTY_DISK, map[0 := p, 1 := q], [])
    requires p.key != q.key && kp.observation.session != kq.observation.session
    requires Qualify(p.inv, p.activation, p.doc, p.target, response) == Some(kp)
    requires Qualify(q.inv, q.activation, q.doc, q.target, response) == Some(kq)
    ensures Run(c, s, Advances(0, response, 6) + Advances(1, response, 6)).disk
         == Append(Burn(Append(Burn(EMPTY_DISK, p.key), kp), q.key), kq)
  {
    ClearedCommits(c, EMPTY_DISK, p, kp, response);
    RunAlone(c, s, 0, response, 6);
    var t := Run(c, s, Advances(0, response, 6));
    ClearedCommits(c, t.disk, q, kq, response);
    RunThenAdvance(c, s, Advances(0, response, 6), 1, response, 6);
  }

  /** Two first commits, one over the other: both sessions are listed and neither file links to the other. */
  lemma FirstOverFirst(keyA: Key, a: Commit, keyB: Key, b: Commit)
    requires a.observation.session != b.observation.session && b.observation.previous == None
    requires a.identity.recovery == None && b.identity.recovery == None
    ensures var disk := Append(Burn(Append(Burn(EMPTY_DISK, keyA), a), keyB), b);
      && disk.state.Some? && disk.state.value.observed == [a.observation.session, b.observation.session]
      && b.observation.session in disk.observations && disk.observations[b.observation.session].previous == None
  {
    var once := Append(Burn(EMPTY_DISK, keyA), a);
    assert once.state == Some(MergedState(InitialState(a.identity), a));
    assert once.state.value.observed == [a.observation.session];
  }

  lemma UnlinkedNeverVerifies(disk: Disk)
    requires disk.state.Some? && |disk.state.value.observed| == 2
    requires var last := disk.state.value.observed[1]; last in disk.observations && disk.observations[last].previous == None
    ensures !Verifies(disk)
  {
    var doc := disk.state.value;
    forall id: Identity
      ensures !VerifyChain(disk.state, disk.observations, id).Ok?
    {
      if doc.observed[0] in disk.observations {
        assert WalkChain(doc.observed, disk.observations, id.recovery, 1, Some(disk.observations[doc.observed[0]])).Err?;
      }
      assert WalkChain(doc.observed, disk.observations, id.recovery, 0, None).Err?;
    }
  }

  /** The sessions a commit was qualified after. */
  function Before(k: Commit): seq<Day> {
    match k.observation.previous
    case None => []
    case Some(p) => Sessions(p)
  }

  lemma ContiguousIsUnique(c: Calendar, a: seq<Day>, b: seq<Day>, last: Day, activation: Day)
    requires Contiguous(c, a + [last], activation) && Contiguous(c, b + [last], activation)
    ensures a == b
  {
    forall d: Day
      ensures d in a + [last] <==> d in b + [last]
    {
    }
    SortedIsUnique(a + [last], b + [last]);
    assert a == (a + [last])[..|a|] && b == (b + [last])[..|b|];
    assert |a| == |b|;
  }

  lemma CommittedIsContiguous(c: Calendar, k: Commit)
    requires CommitOk(c, k)
    ensures Contiguous(c, Before(k) + [k.observation.session], k.identity.activation)
  {
    ObservedSessionsAreContiguous(c, k.observation);
    assert Sessions(k.observation) == Before(k) + [k.observation.session];
  }

  lemma MergingCommitIsGood(c: Calendar, s: System, pid: nat)
    requires Lineage(c, s) && pid in s.procs && s.procs[pid].Merging?
    ensures CommitOk(c, s.procs[pid].commit)
  {
    assert ProcOk(c, s.procs[pid]);
  }

  lemma StepMerges(c: Calendar, s: System, pid: nat, response: Option<Market>)
    requires pid in s.procs && s.procs[pid].Merging? && !Rejected(s.procs[pid].base, s.procs[pid].commit)
    ensures Step(c, s, Advance(pid, response)).disk.state == Some(MergedState(s.procs[pid].base, s.procs[pid].commit))
  {
  }

  /** Exactly when a merge leaves a contiguous state document: when the document it reads again lists the
      very sessions its own commit was qualified after. */
  lemma MergeIsContiguousExactly(c: Calendar, actions: seq<Action>, pid: nat, response: Option<Market>)
    requires var s := Reached(c, actions);
      pid in s.procs && s.procs[pid].Merging? && !Rejected(s.procs[pid].base, s.procs[pid].commit)
    ensures var s := Reached(c, actions);
      var state := Step(c, s, Advance(pid, response)).disk.state;
      && state.Some?
      && (Contiguous(c, state.value.observed, state.value.activation)
          <==> s.procs[pid].base.observed == Before(s.procs[pid].commit))
  {
    var s := Reached(c, actions);
    var k, base := s.procs[pid].commit, s.procs[pid].base;
    RunKeepsLineage(c, START, actions);
    MergingCommitIsGood(c, s, pid);
    StepMerges(c, s, pid, response);
    CommittedIsContiguous(c, k);
    if Contiguous(c, base.observed + [k.observation.session], k.identity.activation) {
      ContiguousIsUnique(c, base.observed, Before(k), k.observation.session, k.identity.activation);
    }
  }

  /** Contiguity needs that invocations do not overlap, or that the directory verifies: two first
      invocations of different segments, each inside its own window, leave both sessions in the state
      document, in either order and however far apart. The directory then verifies for nobody. */
  lemma OverlapBreaksContiguity(c: Calendar, a: Binding, atA: int, b: Binding, atB: int, market: Market)
    returns (actions: seq<Action>)
    requires FirstReady(c, a, atA) && FirstReady(c, b, atB) && a.session != b.session
    requires AllPositive(market.raw) && AllPositive(market.split) && market.economics
    ensures var disk := Reached(c, actions).disk;
      && disk.state.Some? && disk.state.value.observed == [a.session, b.session]
      && !Verifies(disk)
  {
    var response := Some(market);
    var cleared := BothAreCleared(c, a, atA, b, atB, response);
    FirstQualifies(a, atA, 0, market);
    FirstQualifies(b, atB, 1, market);
    var p, q := FirstCleared(a, atA, 0), FirstCleared(b, atB, 1);
    var kp := Qualify(p.inv, p.activation, p.doc, p.target, response).value;
    var kq := Qualify(q.inv, q.activation, q.doc, q.target, response).value;
    var commits := Advances(0, response, 6) + Advances(1, response, 6);
    BothCommit(c, Reached(c, cleared), p, q, kp, kq, response);
    RunJoins(c, START, cleared, commits);
    FirstOverFirst(p.key, kp, q.key, kq);
    UnlinkedNeverVerifies(Reached(c, cleared + commits).disk);
    actions := cleared + commits;
  }
}
