/** The soak harness: a pulse loop that saves a portfolio snapshot and appends to a hash-chained ledger,
    over any sequence of runs ended by deadline, signal, exception or a crash inside a write. */
module SoakLedger {
  import opened Common

  /** A portfolio; its digest covers every field, so it stands for its digest. */
  datatype Portfolio = Portfolio(stamp: int, cash: real)

  /** A ledger event. `previous` is the predecessor itself, standing for its digest; None is genesis. */
  datatype Event =
    Event(cycle: nat, sequence: nat, previous: Option<Event>, portfolio: Portfolio, clock: int, stale: bool)

  datatype Line = Whole(event: Event) | Garbage

  /** The snapshot file. `open("w")` truncates, so an interrupted save leaves a torn one. */
  datatype Snapshot = Absent | Torn | Saved(portfolio: Portfolio)

  /** Ledger lines, whether the last one still lacks its newline, and the snapshot. */
  datatype Disk = Disk(lines: seq<Line>, unterminated: bool, snapshot: Snapshot)

  const EMPTY := Disk([], false, Absent)

  datatype Error = CorruptLine | SequenceMismatch | ChainBroken | DuplicateCycle | SnapshotMissing | SnapshotUnreadable | DigestMismatch

  function Last(events: seq<Event>): Option<Event> {
    if events == [] then None else Some(events[|events| - 1])
  }

  // ----- Ledger -----

  /** The checks shared by replay and append. */
  function Admit(events: seq<Event>, e: Event): Result<seq<Event>, Error> {
    if e.sequence != |events| then Err(SequenceMismatch)
    else if e.previous != Last(events) then Err(ChainBroken)
    else if exists x | x in events :: x.cycle == e.cycle then Err(DuplicateCycle)
    else Ok(events + [e])
  }

  function Replay(lines: seq<Line>): Result<seq<Event>, Error> {
    if lines == [] then Ok([])
    else
      var l := lines[|lines| - 1];
      match Replay(lines[..|lines| - 1])
      case Err(e) => Err(e)
      case Ok(events) => if l.Garbage? then Err(CorruptLine) else Admit(events, l.event)
  }

  /** A text append: bytes written after an unterminated line land on that same line. */
  function AppendLine(d: Disk, l: Line, terminated: bool): Disk {
    if d.unterminated && d.lines != [] then d.(lines := d.lines[..|d.lines| - 1] + [Garbage], unterminated := !terminated)
    else d.(lines := d.lines + [l], unterminated := !terminated)
  }

  // ----- One run -----

  /** Market poll and clock of one pulse. */
  datatype Poll = Poll(clock: int, stale: bool)

  /** What the next pulse appends: cycle and sequence both come from the in-memory ledger. */
  function Next(memory: seq<Event>, p: Portfolio, poll: Poll): Event {
    Event(|memory| + 1, |memory|, Last(memory), p, poll.clock, poll.stale)
  }

  function Pulse(d: Disk, memory: seq<Event>, p: Portfolio, poll: Poll): Disk {
    AppendLine(d.(snapshot := Saved(p)), Whole(Next(memory, p, poll)), true)
  }

  /** Memory and disk after the given complete pulses. */
  function Memory(memory: seq<Event>, p: Portfolio, polls: seq<Poll>): seq<Event> {
    if polls == [] then memory
    else
      var before := Memory(memory, p, polls[..|polls| - 1]);
      before + [Next(before, p, polls[|polls| - 1])]
  }

  function Pulses(d: Disk, memory: seq<Event>, p: Portfolio, polls: seq<Poll>): Disk {
    if polls == [] then d
    else
      Pulse(Pulses(d, memory, p, polls[..|polls| - 1]), Memory(memory, p, polls[..|polls| - 1]), p, polls[|polls| - 1])
  }

  /** Where a run ends: between two pulses (deadline, signal, exception, crash), or inside a write of the
      pulse after them. */
  datatype Ending =
    | Between
    | SnapshotTorn
    | SnapshotSaved
    | LineTorn
    | LineUnterminated(poll: Poll)

  function End(d: Disk, memory: seq<Event>, p: Portfolio, ending: Ending): Disk {
    match ending
    case Between => d
    case SnapshotTorn => d.(snapshot := Torn)
    case SnapshotSaved => d.(snapshot := Saved(p))
    case LineTorn => AppendLine(d.(snapshot := Saved(p)), Garbage, false)
    case LineUnterminated(poll) => AppendLine(d.(snapshot := Saved(p)), Whole(Next(memory, p, poll)), false)
  }

  /** Replay the ledger, then take the snapshot its head names, or a genesis portfolio when it is empty. */
  function Startup(d: Disk, now: int): Result<(Portfolio, seq<Event>), Error> {
    match Replay(d.lines)
    case Err(e) => Err(e)
    case Ok(events) =>
      if events == [] then Ok((Portfolio(now, 100000.0), []))
      else
        match d.snapshot
        case Absent => Err(SnapshotMissing)
        case Torn => Err(SnapshotUnreadable)
        case Saved(p) => if p != events[|events| - 1].portfolio then Err(DigestMismatch) else Ok((p, events))
  }

  datatype Session = Session(now: int, polls: seq<Poll>, ending: Ending)

  function AfterSession(d: Disk, s: Session): Disk {
    match Startup(d, s.now)
    case Err(_) => d
    case Ok((p, memory)) => End(Pulses(d, memory, p, s.polls), Memory(memory, p, s.polls), p, s.ending)
  }

  function AfterSessions(d: Disk, sessions: seq<Session>): Disk {
    if sessions == [] then d
    else AfterSession(AfterSessions(d, sessions[..|sessions| - 1]), sessions[|sessions| - 1])
  }

  // ----- The chain -----

  /** Cycles 1..n, sequences 0..n-1, each event naming its predecessor, all with one portfolio. */
  ghost predicate Exact(events: seq<Event>) {
    && (forall i :: 0 <= i < |events| ==> Placed(events, i))
    && (forall i :: 0 <= i < |events| ==> events[i].portfolio == events[0].portfolio)
  }

  predicate Placed(events: seq<Event>, i: nat)
    requires i < |events|
  {
    events[i].cycle == i + 1 && events[i].sequence == i && events[i].previous == Last(events[..i])
  }

  /** The events before the first unreadable line. */
  function Readable(lines: seq<Line>): (r: seq<Event>)
    ensures |r| <= |lines|
    ensures forall i :: 0 <= i < |r| ==> lines[i] == Whole(r[i])
    ensures |r| < |lines| ==> lines[|r|].Garbage?
  {
    if lines == [] || lines[0].Garbage? then [] else [lines[0].event] + Readable(lines[1..])
  }

  predicate AllWhole(lines: seq<Line>) {
    forall i :: 0 <= i < |lines| ==> lines[i].Whole?
  }

  /** Disk and in-memory ledger of a running session: what is readable is a prefix of the memory, and all
      of it unless a line was spoiled. */
  ghost predicate Running(d: Disk, memory: seq<Event>, p: Portfolio) {
    && Exact(memory)
    && (memory != [] ==> memory[0].portfolio == p)
    && Readable(d.lines) <= memory
    && (AllWhole(d.lines) ==> Readable(d.lines) == memory)
  }

  /** What every sequence of sessions keeps on disk. */
  ghost predicate Sound(d: Disk) {
    && Exact(Readable(d.lines))
    && (AllWhole(d.lines) && d.lines != [] ==>
          d.snapshot == Torn || d.snapshot == Saved(Readable(d.lines)[0].portfolio))
  }

  lemma ReadableOf(lines: seq<Line>, events: seq<Event>)
    requires |events| <= |lines| && (|events| < |lines| ==> lines[|events|].Garbage?)
    requires forall i :: 0 <= i < |events| ==> lines[i] == Whole(events[i])
    ensures Readable(lines) == events
  {
    var r := Readable(lines);
    assert |r| >= |events| && |events| >= |r|;
  }

  lemma ExactPrefix(events: seq<Event>, n: nat)
    requires Exact(events) && n <= |events|
    ensures Exact(events[..n])
  {
    forall i | 0 <= i < n
      ensures Placed(events[..n], i) && events[..n][i].portfolio == events[..n][0].portfolio
    {
      assert Placed(events, i) && events[..n][..i] == events[..i];
    }
  }

  lemma ExactNext(memory: seq<Event>, p: Portfolio, poll: Poll)
    requires Exact(memory) && (memory != [] ==> memory[0].portfolio == p)
    ensures Exact(memory + [Next(memory, p, poll)])
  {
    var all := memory + [Next(memory, p, poll)];
    forall i | 0 <= i < |all|
      ensures Placed(all, i) && all[i].portfolio == all[0].portfolio
    {
      assert all[..i] == memory[..i];
      if i < |memory| {
        assert Placed(memory, i);
      } else {
        assert memory[..i] == memory;
      }
    }
  }

  /** The last event of an exact chain passes the checks after the ones before it. */
  lemma LastIsAdmitted(events: seq<Event>)
    requires Exact(events) && events != []
    ensures Admit(events[..|events| - 1], events[|events| - 1]) == Ok(events)
  {
    var n := |events| - 1;
    assert Placed(events, n);
    forall x | x in events[..n]
      ensures x.cycle != events[n].cycle
    {
      var i :| 0 <= i < n && events[i] == x;
      assert Placed(events, i);
    }
    assert events == events[..n] + [events[n]];
  }

  /** On an exact chain replay accepts every line, and accepts nothing but whole lines. */
  lemma {:induction false} ReplayAcceptsExactChains(lines: seq<Line>)
    requires Exact(Readable(lines))
    ensures Replay(lines) == if AllWhole(lines) then Ok(Readable(lines)) else Err(CorruptLine)
  {
    if lines != [] {
      var front, events := lines[..|lines| - 1], Readable(lines);
      if |events| == |lines| {
        ReadableOf(front, events[..|front|]);
        ExactPrefix(events, |front|);
        ReplayAcceptsExactChains(front);
        LastIsAdmitted(events);
      } else {
        assert !AllWhole(lines);
        ReadableOf(front, events);
        ReplayAcceptsExactChains(front);
      }
    }
  }

  /** The lines are the events of one numbered chain: sequences 0 to n-1, each event naming the one before
      it, no cycle twice. */
  ghost predicate ChainOf(lines: seq<Line>) {
    && AllWhole(lines)
    && (forall i :: 0 <= i < |lines| ==> LinkedAt(lines, i))
    && (forall i, j :: 0 <= i < j < |lines| ==> lines[i].event.cycle != lines[j].event.cycle)
  }

  predicate LinkedAt(lines: seq<Line>, i: nat)
    requires i < |lines| && AllWhole(lines)
  {
    lines[i].event.sequence == i && lines[i].event.previous == if i == 0 then None else Some(lines[i - 1].event)
  }

  ghost predicate EventsAre(lines: seq<Line>, events: seq<Event>) {
    |events| == |lines| && forall i :: 0 <= i < |lines| ==> lines[i] == Whole(events[i])
  }

  lemma ChainFront(lines: seq<Line>)
    requires lines != [] && AllWhole(lines)
    ensures var n := |lines| - 1;
      ChainOf(lines) <==>
        && ChainOf(lines[..n]) && LinkedAt(lines, n)
        && forall j :: 0 <= j < n ==> lines[j].event.cycle != lines[n].event.cycle
  {
    var n := |lines| - 1;
    var front := lines[..n];
    assert AllWhole(front);
    assert forall i :: 0 <= i < n ==> (LinkedAt(lines, i) <==> LinkedAt(front, i));
    assert forall i, j :: 0 <= i < j < n ==> front[i] == lines[i] && front[j] == lines[j];
  }

  lemma AdmitExactly(lines: seq<Line>, events: seq<Event>)
    requires lines != [] && AllWhole(lines) && EventsAre(lines[..|lines| - 1], events)
    ensures var n := |lines| - 1;
      Admit(events, lines[n].event).Ok? <==>
        LinkedAt(lines, n) && forall j :: 0 <= j < n ==> lines[j].event.cycle != lines[n].event.cycle
  {
    var n := |lines| - 1;
    assert forall j :: 0 <= j < n ==> lines[..n][j] == lines[j] && lines[j].event == events[j];
    assert n > 0 ==> Last(events) == Some(lines[n - 1].event);
    if x :| x in events && x.cycle == lines[n].event.cycle {
      var j :| 0 <= j < n && events[j] == x;
      assert lines[j].event.cycle == lines[n].event.cycle;
    }
    assert forall j :: 0 <= j < n ==> events[j] in events;
  }

  /** Exactly what replay accepts: a broken sequence or link, a repeated cycle or an unreadable line
      anywhere is refused, and an accepted ledger is read back whole. */
  lemma {:induction false} ReplayExactly(lines: seq<Line>)
    ensures Replay(lines).Ok? <==> ChainOf(lines)
    ensures Replay(lines).Ok? ==> EventsAre(lines, Replay(lines).value)
  {
    if lines != [] {
      var n := |lines| - 1;
      ReplayExactly(lines[..n]);
      if AllWhole(lines) {
        ChainFront(lines);
        if Replay(lines[..n]).Ok? {
          AdmitExactly(lines, Replay(lines[..n]).value);
          ReadBack(lines, Replay(lines[..n]).value);
        }
      } else if Replay(lines[..n]).Ok? {
        assert lines[n].Garbage?;
      }
    }
  }

  lemma ReadBack(lines: seq<Line>, events: seq<Event>)
    requires lines != [] && lines[|lines| - 1].Whole? && EventsAre(lines[..|lines| - 1], events)
    ensures EventsAre(lines, events + [lines[|lines| - 1].event])
  {
    assert forall i :: 0 <= i < |lines| - 1 ==> lines[..|lines| - 1][i] == lines[i];
  }

  /** The snapshot is the portfolio the last line names; nothing is demanded of an empty ledger. */
  predicate HeadSaved(d: Disk) {
    d.lines != [] ==> d.lines[|d.lines| - 1].Whole? && d.snapshot == Saved(d.lines[|d.lines| - 1].event.portfolio)
  }

  /** Exactly when a start is accepted, for every pair of files, and with what: an empty ledger with a fresh
      genesis portfolio, or a numbered chain whose last event names the snapshot's own portfolio. */
  lemma StartupExactly(d: Disk, now: int)
    ensures Startup(d, now).Ok? <==> ChainOf(d.lines) && HeadSaved(d)
    ensures Startup(d, now).Ok? ==> EventsAre(d.lines, Startup(d, now).value.1)
    ensures Startup(d, now).Ok? && d.lines == [] ==> Startup(d, now).value.0 == Portfolio(now, 100000.0)
    ensures Startup(d, now).Ok? && d.lines != [] ==> Saved(Startup(d, now).value.0) == d.snapshot
  {
    ReplayExactly(d.lines);
  }

  /** Writing a line keeps the readable events a prefix; a whole line on a terminated file is recorded. */
  lemma AppendKeepsRunning(d: Disk, memory: seq<Event>, p: Portfolio, poll: Poll, terminated: bool)
    requires Running(d, memory, p)
    ensures Running(AppendLine(d, Whole(Next(memory, p, poll)), terminated), memory + [Next(memory, p, poll)], p)
  {
    var e := Next(memory, p, poll);
    ExactNext(memory, p, poll);
    var t := AppendLine(d, Whole(e), terminated);
    var r := Readable(d.lines);
    if d.unterminated && d.lines != [] {
      ReadableOf(t.lines, if |r| < |t.lines| then r else r[..|r| - 1]);
      assert t.lines[|t.lines| - 1].Garbage?;
    } else if |r| == |d.lines| {
      ReadableOf(t.lines, r + [e]);
    } else {
      ReadableOf(t.lines, r);
      assert t.lines[|r|].Garbage?;
    }
  }

  lemma {:induction false} PulsesKeepRunning(d: Disk, memory: seq<Event>, p: Portfolio, polls: seq<Poll>)
    requires Running(d, memory, p)
    ensures var t := Pulses(d, memory, p, polls);
      && Running(t, Memory(memory, p, polls), p)
      && t.snapshot == (if polls == [] then d.snapshot else Saved(p))
  {
    if polls != [] {
      var front := polls[..|polls| - 1];
      PulsesKeepRunning(d, memory, p, front);
      AppendKeepsRunning(Pulses(d, memory, p, front).(snapshot := Saved(p)), Memory(memory, p, front), p, polls[|polls| - 1], true);
    }
  }

  /** Tearing the line being written leaves the readable events a prefix of the memory. */
  lemma TearKeepsRunning(d: Disk, memory: seq<Event>, p: Portfolio)
    requires Running(d, memory, p)
    ensures Running(AppendLine(d, Garbage, false), memory, p)
    ensures !AllWhole(AppendLine(d, Garbage, false).lines)
  {
    var t, r := AppendLine(d, Garbage, false), Readable(d.lines);
    assert t.lines[|t.lines| - 1].Garbage?;
    ReadableOf(t.lines, if |r| < |t.lines| then r else r[..|r| - 1]);
  }

  lemma RunningIsSound(d: Disk, memory: seq<Event>, p: Portfolio)
    requires Running(d, memory, p) && (memory != [] && AllWhole(d.lines) ==> d.snapshot == Torn || d.snapshot == Saved(p))
    ensures Sound(d)
  {
    ExactPrefix(memory, |Readable(d.lines)|);
    assert memory[..|Readable(d.lines)|] == Readable(d.lines);
  }

  lemma StartupRuns(d: Disk, now: int)
    requires Sound(d) && Startup(d, now).Ok?
    ensures var (p, memory) := Startup(d, now).value;
      && Running(d, memory, p) && AllWhole(d.lines)
      && (memory != [] ==> d.snapshot == Saved(p))
  {
    ReplayAcceptsExactChains(d.lines);
  }

  lemma SessionKeepsSound(d: Disk, s: Session)
    requires Sound(d)
    ensures Sound(AfterSession(d, s))
  {
    if Startup(d, s.now).Ok? {
      StartupRuns(d, s.now);
      var (p, memory) := Startup(d, s.now).value;
      PulsesKeepRunning(d, memory, p, s.polls);
      var t, now := Pulses(d, memory, p, s.polls), Memory(memory, p, s.polls);
      assert now != [] ==> t.snapshot == Saved(p);
      match s.ending
      case Between => RunningIsSound(t, now, p);
      case SnapshotTorn => RunningIsSound(t.(snapshot := Torn), now, p);
      case SnapshotSaved => RunningIsSound(t.(snapshot := Saved(p)), now, p);
      case LineTorn =>
        TearKeepsRunning(t.(snapshot := Saved(p)), now, p);
        RunningIsSound(AppendLine(t.(snapshot := Saved(p)), Garbage, false), now, p);
      case LineUnterminated(poll) =>
        AppendKeepsRunning(t.(snapshot := Saved(p)), now, p, poll, false);
        RunningIsSound(AfterSession(d, s), now + [Next(now, p, poll)], p);
    }
  }

  lemma {:induction false} SessionsKeepSound(sessions: seq<Session>)
    ensures Sound(AfterSessions(EMPTY, sessions))
  {
    if sessions != [] {
      SessionsKeepSound(sessions[..|sessions| - 1]);
      SessionKeepsSound(AfterSessions(EMPTY, sessions[..|sessions| - 1]), sessions[|sessions| - 1]);
    }
  }

  // ----- Results over whole histories -----

  lemma SoundStartup(d: Disk, now: int)
    requires Sound(d)
    ensures Startup(d, now).Ok? <==> AllWhole(d.lines) && (d.lines == [] || d.snapshot != Torn)
    ensures Startup(d, now).Err? ==>
      Startup(d, now).error == if AllWhole(d.lines) then SnapshotUnreadable else CorruptLine
    ensures Startup(d, now).Ok? ==> Startup(d, now).value.1 == Readable(d.lines) && |Readable(d.lines)| == |d.lines|
  {
    ReplayAcceptsExactChains(d.lines);
    if d.lines != [] && AllWhole(d.lines) {
      assert Readable(d.lines)[|d.lines| - 1].portfolio == Readable(d.lines)[0].portfolio;
    }
  }

  /** Main result: after any sequence of runs and crashes, whatever can still be read of the ledger has
      cycles 1..n and sequences 0..n-1 in order, each event naming its predecessor and one and the same
      portfolio; and a restart is refused for an unreadable line or an unreadable snapshot only, never for
      a sequence, chain, duplicate or digest mismatch. */
  lemma LedgerIsExact(sessions: seq<Session>, now: int)
    ensures var d := AfterSessions(EMPTY, sessions);
      && Exact(Readable(d.lines))
      && (Startup(d, now).Ok? <==> AllWhole(d.lines) && (d.lines == [] || d.snapshot != Torn))
      && (Startup(d, now).Err? ==>
            Startup(d, now).error == if AllWhole(d.lines) then SnapshotUnreadable else CorruptLine)
      && (Startup(d, now).Ok? ==> Startup(d, now).value.1 == Readable(d.lines) && |Readable(d.lines)| == |d.lines|)
  {
    SessionsKeepSound(sessions);
    SoundStartup(AfterSessions(EMPTY, sessions), now);
  }

  /** A refused restart changes nothing and every later one is refused alike. */
  lemma {:induction false} RefusedForever(d: Disk, now: int, sessions: seq<Session>)
    requires Sound(d) && Startup(d, now).Err?
    ensures AfterSessions(d, sessions) == d
  {
    ReplayAcceptsExactChains(d.lines);
    if sessions != [] {
      RefusedForever(d, now, sessions[..|sessions| - 1]);
    }
  }

  // ----- When nothing is lost -----

  lemma {:induction false} MemoryGrows(memory: seq<Event>, p: Portfolio, polls: seq<Poll>)
    ensures |Memory(memory, p, polls)| == |memory| + |polls| && memory <= Memory(memory, p, polls)
  {
    if polls != [] {
      MemoryGrows(memory, p, polls[..|polls| - 1]);
    }
  }

  /** What the i-th pulse of a run puts into the ledger: the next number, its own poll, the run's portfolio. */
  lemma {:induction false} PulsesAreRecorded(memory: seq<Event>, p: Portfolio, polls: seq<Poll>, i: nat)
    requires i < |polls|
    ensures |Memory(memory, p, polls)| == |memory| + |polls|
    ensures var e := Memory(memory, p, polls)[|memory| + i];
      && e.clock == polls[i].clock && e.stale == polls[i].stale && e.portfolio == p
      && e.cycle == |memory| + i + 1 && e.sequence == |memory| + i
  {
    var front := polls[..|polls| - 1];
    MemoryGrows(memory, p, polls);
    MemoryGrows(memory, p, front);
    if i < |front| {
      PulsesAreRecorded(memory, p, front, i);
    }
  }

  /** No line is waiting for its newline. */
  predicate Clean(d: Disk) {
    d.lines == [] || !d.unterminated
  }

  lemma AppendReads(d: Disk, l: Line, terminated: bool)
    ensures var t := AppendLine(d, l, terminated);
      && (AllWhole(t.lines) <==> AllWhole(d.lines) && Clean(d) && l.Whole?)
      && (Clean(t) <==> terminated)
  {
    var t := AppendLine(d, l, terminated);
    if d.unterminated && d.lines != [] {
      assert t.lines[|t.lines| - 1] == Garbage;
    } else {
      assert t.lines[|t.lines| - 1] == l;
      assert forall i :: 0 <= i < |d.lines| ==> t.lines[i] == d.lines[i];
    }
  }

  lemma {:induction false} PulsesRead(d: Disk, memory: seq<Event>, p: Portfolio, polls: seq<Poll>)
    requires AllWhole(d.lines)
    ensures var t := Pulses(d, memory, p, polls);
      && (AllWhole(t.lines) <==> polls == [] || Clean(d))
      && (Clean(t) <==> polls != [] || Clean(d))
  {
    if polls != [] {
      var front := polls[..|polls| - 1];
      PulsesRead(d, memory, p, front);
      var before := Pulses(d, memory, p, front);
      AppendReads(before.(snapshot := Saved(p)), Whole(Next(Memory(memory, p, front), p, polls[|polls| - 1])), true);
    }
  }

  /** The events a session commits, counting the one whose newline was lost. */
  function Committed(held: seq<Event>, p: Portfolio, ending: Ending): seq<Event> {
    match ending
    case LineUnterminated(poll) => held + [Next(held, p, poll)]
    case _ => held
  }

  lemma EndingReads(d: Disk, held: seq<Event>, p: Portfolio, ending: Ending)
    requires Running(d, held, p)
    ensures var t := End(d, held, p, ending);
      && (AllWhole(t.lines) <==>
            AllWhole(d.lines) && !ending.LineTorn? && (ending.LineUnterminated? ==> Clean(d)))
      && (AllWhole(t.lines) ==> Readable(t.lines) == Committed(held, p, ending))
  {
    match ending
    case LineTorn => AppendReads(d.(snapshot := Saved(p)), Garbage, false);
    case LineUnterminated(poll) =>
      AppendReads(d.(snapshot := Saved(p)), Whole(Next(held, p, poll)), false);
      AppendKeepsRunning(d.(snapshot := Saved(p)), held, p, poll, false);
    case _ =>
  }

  /** When a restart will accept the disk a session leaves. */
  predicate Recoverable(d: Disk, s: Session) {
    match s.ending
    case Between => s.polls == [] || Clean(d)
    case SnapshotSaved => s.polls == [] || Clean(d)
    case SnapshotTorn => s.polls == [] && d.lines == []
    case LineTorn => false
    case LineUnterminated(_) => Clean(d)
  }

  /** What can be read of the ledger a session leaves. */
  lemma SessionReads(d: Disk, s: Session)
    requires Sound(d) && Startup(d, s.now).Ok?
    ensures var (p, memory) := Startup(d, s.now).value;
      var after := AfterSession(d, s);
      && (AllWhole(after.lines) <==>
            && (s.polls == [] || Clean(d)) && !s.ending.LineTorn? && (s.ending.LineUnterminated? ==> Clean(d)))
      && (AllWhole(after.lines) ==> Readable(after.lines) == Committed(Memory(memory, p, s.polls), p, s.ending))
  {
    StartupRuns(d, s.now);
    var (p, memory) := Startup(d, s.now).value;
    PulsesKeepRunning(d, memory, p, s.polls);
    PulsesRead(d, memory, p, s.polls);
    EndingReads(Pulses(d, memory, p, s.polls), Memory(memory, p, s.polls), p, s.ending);
  }

  /** A session leaves a torn snapshot over a non-empty ledger exactly when its own save was torn. */
  lemma SessionSnapshot(d: Disk, s: Session)
    requires Sound(d) && Startup(d, s.now).Ok? && AllWhole(AfterSession(d, s).lines)
    ensures var after := AfterSession(d, s);
      after.lines != [] && after.snapshot == Torn
      <==> s.ending.SnapshotTorn? && (s.polls != [] || d.lines != [])
  {
    SessionReads(d, s);
    SoundStartup(d, s.now);
    var (p, memory) := Startup(d, s.now).value;
    PulsesKeepRunning(d, memory, p, s.polls);
    MemoryGrows(memory, p, s.polls);
    StartupRuns(d, s.now);
    assert |Readable(AfterSession(d, s).lines)| == |AfterSession(d, s).lines|;
  }

  /** Where the invariant fails and exactly when it does not: a restart accepts what a session left if
      and only if the session is recoverable, and then it reads back every event committed. */
  lemma SessionIsRecoverable(d: Disk, s: Session, now: int)
    requires Sound(d) && Startup(d, s.now).Ok?
    ensures var (p, memory) := Startup(d, s.now).value;
      var next := Startup(AfterSession(d, s), now);
      && (next.Ok? <==> Recoverable(d, s))
      && (next.Ok? ==> next.value.1 == Committed(Memory(memory, p, s.polls), p, s.ending))
  {
    SessionReads(d, s);
    if AllWhole(AfterSession(d, s).lines) {
      SessionSnapshot(d, s);
    }
    SessionKeepsSound(d, s);
    SoundStartup(AfterSession(d, s), now);
  }

  /** The disk of the first run that loses only a newline is accepted and holds two events. */
  lemma LostNewlineIsAccepted(first: Session)
    requires first == Session(0, [Poll(1, false)], LineUnterminated(Poll(2, false)))
    ensures var d := AfterSession(EMPTY, first);
      && Sound(d) && d.lines != [] && !Clean(d)
      && Startup(d, 3).Ok? && |Startup(d, 3).value.1| == 2
  {
    SessionsKeepSound([]);
    assert AfterSessions(EMPTY, []) == EMPTY;
    assert Startup(EMPTY, 0) == Ok((Portfolio(0, 100000.0), []));
    SessionIsRecoverable(EMPTY, first, 3);
    MemoryGrows([], Portfolio(0, 100000.0), first.polls);
    SessionKeepsSound(EMPTY, first);
    AppendReads(Pulses(EMPTY, [], Portfolio(0, 100000.0), first.polls).(snapshot := Saved(Portfolio(0, 100000.0))),
                Whole(Next(Memory([], Portfolio(0, 100000.0), first.polls), Portfolio(0, 100000.0), Poll(2, false))), false);
  }

  /** A crash that loses only a newline costs the next run's first append, both events, and every later
      restart. */
  lemma LostNewlineSpoilsTheLedger()
    ensures var first := Session(0, [Poll(1, false)], LineUnterminated(Poll(2, false)));
      var second := Session(3, [Poll(4, false)], Between);
      && Startup(AfterSessions(EMPTY, [first]), 3).Ok?
      && |Startup(AfterSessions(EMPTY, [first]), 3).value.1| == 2
      && Startup(AfterSessions(EMPTY, [first, second]), 5).Err?
  {
    var first := Session(0, [Poll(1, false)], LineUnterminated(Poll(2, false)));
    var second := Session(3, [Poll(4, false)], Between);
    assert [first, second][..1] == [first] && [first][..0] == [];
    assert AfterSessions(EMPTY, [first]) == AfterSession(EMPTY, first);
    LostNewlineIsAccepted(first);
    SessionIsRecoverable(AfterSession(EMPTY, first), second, 5);
  }
}
