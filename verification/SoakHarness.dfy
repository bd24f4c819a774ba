/** The soak harness's own code: ledger object, snapshot store and the pulse loop, proved against the
    disk model. */
module SoakHarness {
  import opened Common
  import opened SoakLedger

  /** The two files of the output directory. */
  class Store {
    var disk: Disk

    constructor ()
      ensures disk == EMPTY
    {
      disk := EMPTY;
    }
  }

  /** Append-only ledger object over the store; its fields are kept by replay and append. */
  class OperationalLedger {
    const store: Store
    var lastEvent: Option<Event>
    var lastSequence: int
    var cycleIds: set<nat>
    var eventCount: nat
    ghost var events: seq<Event>

    ghost predicate Valid()
      reads this
    {
      && lastEvent == Last(events)
      && lastSequence == |events| - 1
      && eventCount == |events|
      && cycleIds == set e | e in events :: e.cycle
    }

    constructor (store: Store)
      ensures this.store == store && Valid() && events == []
    {
      this.store := store;
      lastEvent, lastSequence, cycleIds, eventCount, events := None, -1, {}, 0, [];
    }

    /** The three checks of replay and append, on the ledger's fields. */
    method Check(e: Event) returns (error: Option<Error>)
      requires Valid()
      ensures Admit(events, e) == if error.None? then Ok(events + [e]) else Err(error.value)
    {
      if e.sequence != lastSequence + 1 {
        return Some(SequenceMismatch);
      }
      if e.previous != lastEvent {
        return Some(ChainBroken);
      }
      if e.cycle in cycleIds {
        assert exists x | x in events :: x.cycle == e.cycle;
        return Some(DuplicateCycle);
      }
      return None;
    }

    method Record(e: Event)
      requires Valid()
      modifies this
      ensures Valid() && events == old(events) + [e]
    {
      lastEvent, lastSequence, cycleIds, eventCount := Some(e), lastSequence + 1, cycleIds + {e.cycle}, eventCount + 1;
      events := events + [e];
    }

    /** Read and verify every line; the object is updated only when all pass. */
    method ReplayFromDisk() returns (error: Option<Error>)
      requires Valid() && events == []
      modifies this
      ensures Replay(store.disk.lines) == if error.None? then Ok(events) else Err(error.value)
      ensures error.None? ==> Valid()
    {
      var lines := store.disk.lines;
      for i := 0 to |lines|
        invariant Valid() && Replay(lines[..i]) == Ok(events)
      {
        ReplayStops(lines, i + 1);
        assert lines[..i + 1][..i] == lines[..i];
        if lines[i].Garbage? {
          return Some(CorruptLine);
        }
        error := Check(lines[i].event);
        if error.Some? {
          return;
        }
        Record(lines[i].event);
      }
      assert lines[..|lines|] == lines;
      return None;
    }

    /** Append one event to the file and to memory, or refuse without touching either. */
    method AppendEvent(e: Event) returns (error: Option<Error>)
      requires Valid()
      modifies this, store
      ensures Valid()
      ensures Admit(old(events), e) == if error.None? then Ok(events) else Err(error.value)
      ensures error.None? ==> store.disk == AppendLine(old(store.disk), Whole(e), true)
      ensures error.Some? ==> store.disk == old(store.disk) && events == old(events)
    {
      error := Check(e);
      if error.Some? {
        return;
      }
      store.disk := AppendLine(store.disk, Whole(e), true);
      Record(e);
    }
  }

  lemma {:induction false} ReplayStops(lines: seq<Line>, n: nat)
    requires n <= |lines|
    ensures Replay(lines[..n]).Err? ==> Replay(lines) == Replay(lines[..n])
    decreases |lines|
  {
    if n == |lines| {
      assert lines[..n] == lines;
    } else {
      ReplayStops(lines[..|lines| - 1], n);
      assert lines[..|lines| - 1][..n] == lines[..n];
    }
  }

  /** What the outside world does around one pass of the loop. */
  datatype World =
    | Tick(poll: Poll)
    | Expired(poll: Poll)         // the planned duration has passed
    | Raises(poll: Poll)          // an exception before the snapshot is saved
    | RaisesAfter(poll: Poll)     // an exception after the append (memory runaway)
    | Fails(ending: Ending)       // an exception or a crash inside one of the two writes, or between them

  /** The pulses completed before the loop ends. */
  function Completed(worlds: seq<World>): seq<Poll> {
    if worlds == [] then []
    else if worlds[0].Tick? then [worlds[0].poll] + Completed(worlds[1..])
    else if worlds[0].RaisesAfter? then [worlds[0].poll]
    else []
  }

  function Done(done: seq<Poll>, w: World): seq<Poll> {
    if w.Tick? || w.RaisesAfter? then done + [w.poll] else done
  }

  /** How the last pass leaves the disk. */
  function EndingOf(worlds: seq<World>): Ending {
    if worlds == [] then Between
    else if worlds[0].Tick? then EndingOf(worlds[1..])
    else EndOf(worlds[0])
  }

  function EndOf(w: World): Ending {
    if w.Fails? then w.ending else Between
  }

  /** What one more pass completes, while all passes before it went on. */
  lemma {:induction false} CompletedThrough(worlds: seq<World>, i: nat)
    requires i < |worlds| && forall j :: 0 <= j < i ==> worlds[j].Tick?
    ensures Completed(worlds[..i + 1]) == Done(Completed(worlds[..i]), worlds[i])
    ensures !worlds[i].Tick? ==> Completed(worlds) == Completed(worlds[..i + 1])
    ensures EndingOf(worlds[..i]) == Between && EndingOf(worlds[..i + 1]) == EndOf(worlds[i])
    ensures !worlds[i].Tick? ==> EndingOf(worlds) == EndOf(worlds[i])
  {
    if i > 0 {
      CompletedThrough(worlds[1..], i - 1);
      assert worlds[..i + 1][1..] == worlds[1..][..i] && worlds[..i][1..] == worlds[1..][..i - 1];
    }
  }

  /** Disk and memory after the pulses done so far, and the ending of the last pass. */
  ghost predicate Along(
    start: Disk, memory: seq<Event>, p: Portfolio, done: seq<Poll>, ending: Ending, d: Disk, events: seq<Event>)
  {
    && events == Memory(memory, p, done) && d == End(Pulses(start, memory, p, done), events, p, ending)
    && Exact(events) && (events != [] ==> events[0].portfolio == p)
  }

  lemma AlongStep(start: Disk, memory: seq<Event>, p: Portfolio, done: seq<Poll>, d: Disk, events: seq<Event>, poll: Poll)
    requires Along(start, memory, p, done, Between, d, events)
    ensures Along(start, memory, p, done + [poll], Between, Pulse(d, events, p, poll), events + [Next(events, p, poll)])
  {
    ExactNext(events, p, poll);
    assert (done + [poll])[..|done|] == done;
  }

  class Phase13SoakHarness {
    const store: Store
    var stopRequested: bool
    var pulseCount: nat
    var staleCount: nat
    var exceptionsCount: nat

    constructor (store: Store)
      ensures this.store == store && !stopRequested
      ensures pulseCount == staleCount == exceptionsCount == 0
    {
      this.store := store;
      stopRequested, pulseCount, staleCount, exceptionsCount := false, 0, 0, 0;
    }

    /** Replay the ledger and take up the snapshot its head names, or a genesis portfolio. */
    method Rehydrate(ledger: OperationalLedger, now: int) returns (r: Result<Portfolio, Error>)
      requires ledger.store == store && ledger.Valid() && ledger.events == []
      modifies ledger
      ensures match Startup(store.disk, now)
        case Err(e) => r == Err(e)
        case Ok((p, memory)) => r == Ok(p) && ledger.events == memory && ledger.Valid()
    {
      var error := ledger.ReplayFromDisk();
      if error.Some? {
        return Err(error.value);
      }
      if ledger.eventCount == 0 {
        return Ok(Portfolio(now, 100000.0));
      }
      match store.disk.snapshot {
        case Absent => return Err(SnapshotMissing);
        case Torn => return Err(SnapshotUnreadable);
        case Saved(p) => return if p != ledger.lastEvent.value.portfolio then Err(DigestMismatch) else Ok(p);
      }
    }

    /** Snapshot, then append: the body of the loop once the feed has been polled. */
    method SaveAndAppend(ledger: OperationalLedger, portfolio: Portfolio, poll: Poll)
      requires ledger.store == store && ledger.Valid() && pulseCount == |ledger.events| + 1
      requires Exact(ledger.events)
      modifies ledger, store
      ensures ledger.Valid() && ledger.events == old(ledger.events) + [Next(old(ledger.events), portfolio, poll)]
      ensures store.disk == Pulse(old(store.disk), old(ledger.events), portfolio, poll)
    {
      store.disk := store.disk.(snapshot := Saved(portfolio));
      var event := Event(pulseCount, ledger.eventCount, ledger.lastEvent, portfolio, poll.clock, poll.stale);
      OwnEventIsAdmitted(ledger.events, portfolio, poll);
      var refused := ledger.AppendEvent(event);
    }

    /** The same body when one of its writes fails: opening the snapshot for writing empties it, and the
        line goes out before its newline. */
    method BreakOff(ledger: OperationalLedger, portfolio: Portfolio, ending: Ending)
      requires ledger.store == store && ledger.Valid() && pulseCount == |ledger.events| + 1
      modifies store
      ensures store.disk == End(old(store.disk), ledger.events, portfolio, ending)
    {
      if ending.Between? {
        return;
      }
      store.disk := store.disk.(snapshot := Torn);
      if ending.SnapshotTorn? {
        return;
      }
      store.disk := store.disk.(snapshot := Saved(portfolio));
      if ending.SnapshotSaved? {
        return;
      }
      var line := Garbage;
      if ending.LineUnterminated? {
        line := Whole(Event(pulseCount, ledger.eventCount, ledger.lastEvent, portfolio, ending.poll.clock, ending.poll.stale));
      }
      store.disk := AppendLine(store.disk, line, false);
    }

    /** One pass of the loop; afterwards stopRequested says whether the loop ends. */
    method OnePass(
      ledger: OperationalLedger, p: Portfolio, world: World,
      ghost start: Disk, ghost memory: seq<Event>, ghost done: seq<Poll>)
      requires ledger.store == store && ledger.Valid() && pulseCount == |ledger.events|
      requires Along(start, memory, p, done, Between, store.disk, ledger.events)
      modifies this, ledger, store
      ensures ledger.Valid()
      ensures stopRequested <==> !world.Tick?
      ensures pulseCount == |ledger.events| + if world.Raises? || world.Fails? then 1 else 0
      ensures Along(start, memory, p, Done(done, world), EndOf(world), store.disk, ledger.events)
    {
      stopRequested := !world.Tick?;
      if world.Expired? {
        return;
      }
      pulseCount := pulseCount + 1;
      if world.Raises? || world.Fails? {
        if world.Fails? {
          BreakOff(ledger, p, world.ending);
        }
        exceptionsCount := exceptionsCount + 1;
        return;
      }
      staleCount := staleCount + if world.poll.stale then 1 else 0;
      AlongStep(start, memory, p, done, store.disk, ledger.events, world.poll);
      SaveAndAppend(ledger, p, world.poll);
      exceptionsCount := exceptionsCount + if world.RaisesAfter? then 1 else 0;
    }

    /** The pulse loop. It ends at the deadline, an exception, a failing write, or when the world ends (a
        stop signal). */
    method PulseLoop(ledger: OperationalLedger, p: Portfolio, worlds: seq<World>, ghost start: Disk, ghost memory: seq<Event>)
      requires ledger.store == store && ledger.Valid() && pulseCount == |ledger.events| && !stopRequested
      requires Along(start, memory, p, [], Between, store.disk, ledger.events)
      modifies this, ledger, store
      ensures Along(start, memory, p, Completed(worlds), EndingOf(worlds), store.disk, ledger.events)
      ensures |ledger.events| <= pulseCount <= |ledger.events| + 1
    {
      var i := 0;
      assert worlds[..0] == [] && worlds[..|worlds|] == worlds;
      while i < |worlds| && !stopRequested
        invariant i <= |worlds| && ledger.Valid()
        invariant !stopRequested ==> pulseCount == |ledger.events| && forall j :: 0 <= j < i ==> worlds[j].Tick?
        invariant stopRequested ==> Completed(worlds) == Completed(worlds[..i]) && EndingOf(worlds) == EndingOf(worlds[..i])
        invariant |ledger.events| <= pulseCount <= |ledger.events| + 1
        invariant Along(start, memory, p, Completed(worlds[..i]), EndingOf(worlds[..i]), store.disk, ledger.events)
      {
        CompletedThrough(worlds, i);
        OnePass(ledger, p, worlds[i], start, memory, Completed(worlds[..i]));
        i := i + 1;
      }
    }

    /** One run, however it ends: the ledger never refuses the loop's own events, and the disk is that of
        the session model. */
    method Run(now: int, worlds: seq<World>) returns (error: Option<Error>)
      requires Sound(store.disk) && !stopRequested
      modifies this, store
      ensures Sound(store.disk)
      ensures match Startup(old(store.disk), now)
        case Err(e) => error == Some(e)
        case Ok((_, memory)) =>
          error == None && |memory| + |Completed(worlds)| <= pulseCount <= |memory| + |Completed(worlds)| + 1
      ensures store.disk == AfterSession(old(store.disk), Session(now, Completed(worlds), EndingOf(worlds)))
    {
      SessionKeepsSound(store.disk, Session(now, Completed(worlds), EndingOf(worlds)));
      var ledger := new OperationalLedger(store);
      var portfolio := Rehydrate(ledger, now);
      if portfolio.Err? {
        return Some(portfolio.error);
      }
      StartupRuns(store.disk, now);
      MemoryGrows(ledger.events, portfolio.value, Completed(worlds));
      pulseCount := ledger.eventCount;
      PulseLoop(ledger, portfolio.value, worlds, store.disk, ledger.events);
      return None;
    }
  }

  /** The loop's next event always passes the ledger's checks. */
  lemma OwnEventIsAdmitted(memory: seq<Event>, p: Portfolio, poll: Poll)
    requires Exact(memory)
    ensures Admit(memory, Next(memory, p, poll)) == Ok(memory + [Next(memory, p, poll)])
  {
    forall x | x in memory
      ensures x.cycle != |memory| + 1
    {
      var i :| 0 <= i < |memory| && memory[i] == x;
      assert Placed(memory, i);
    }
  }
}
