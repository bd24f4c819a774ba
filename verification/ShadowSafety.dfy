/** Invariants of every reachable state of the shadow system, and the theorems they give. */
module ShadowSafety {
  import opened Common
  import opened NyseCalendar
  import opened ShadowChain
  import opened ShadowRunner
  import opened ShadowGates

  // ----- The invariant -----

  /** The tail of a state document summarises the chain that ends in its last observation. */
  ghost predicate SummaryOk(c: Calendar, doc: StateDoc) {
    && doc.lastObservation.Some?
    && var o := doc.lastObservation.value;
    && GoodChain(c, o)
    && doc.activation == First(o).session
    && doc.rebalances == RebalanceCount(o)
    && doc.lastRaw == o.raw && doc.lastSplit == o.split
    && doc.observed != [] && doc.observed[|doc.observed| - 1] == o.session
  }

  ghost predicate StateOk(c: Calendar, state: Option<StateDoc>) {
    state.Some? ==> SummaryOk(c, state.value)
  }

  ghost predicate FilesNamed(observations: map<Day, Observation>) {
    forall d :: d in observations ==> observations[d].session == d
  }

  ghost predicate FilesOk(c: Calendar, observations: map<Day, Observation>) {
    FilesNamed(observations) && forall d :: d in observations ==> GoodChain(c, observations[d])
  }

  ghost predicate CommitOk(c: Calendar, k: Commit) {
    && GoodChain(c, k.observation)
    && k.identity.activation == First(k.observation).session
    && k.rebalances == RebalanceCount(k.observation)
  }

  /** A document that is one whole chain from its activation session. */
  ghost predicate DocOk(c: Calendar, doc: StateDoc, activation: Day) {
    && doc.activation == activation
    && (doc.observed != [] ==> SummaryOk(c, doc) && doc.observed == Sessions(doc.lastObservation.value))
  }

  /** The document an invocation was cleared on: a whole verified chain and its only next session. */
  ghost predicate SourceOk(c: Calendar, inv: Invocation, doc: StateDoc, activation: Day, target: Day) {
    && ProcessableAt(c, target, inv.now) && !Forbidden(target)
    && DocOk(c, doc, activation)
    && Target(c, doc.observed, activation) == Found(target)
  }

  ghost predicate ProcOk(c: Calendar, p: Proc) {
    match p
    case Loaded(inv, activation, doc) => SummaryOk(c, doc)
    case Verified(inv, activation, doc) => DocOk(c, doc, activation)
    case Unspent(inv, doc, activation, target) =>
      DocOk(c, doc, activation) && Target(c, doc.observed, activation) == Found(target)
    case Cleared(inv, doc, activation, target, key) => SourceOk(c, inv, doc, activation, target)
    case Burned(inv, doc, activation, target, key) => SourceOk(c, inv, doc, activation, target)
    case Qualified(k) => CommitOk(c, k)
    case Checked(k) => CommitOk(c, k)
    case Written(k) => CommitOk(c, k)
    case Merging(k, base) => CommitOk(c, k)
    case _ => true
  }

  ghost predicate DiskOk(c: Calendar, disk: Disk) {
    StateOk(c, disk.state) && FilesOk(c, disk.observations)
  }

  ghost predicate Lineage(c: Calendar, s: System) {
    DiskOk(c, s.disk) && forall pid :: pid in s.procs ==> ProcOk(c, s.procs[pid])
  }

  // ----- A verified document is the chain of its last observation -----

  lemma {:induction false} WalkIsChain(
    observed: seq<Day>, observations: map<Day, Observation>, recovery: Option<int>, i: nat, previous: Option<Observation>)
    requires FilesNamed(observations) && i <= |observed|
    requires WalkChain(observed, observations, recovery, i, previous).Ok?
    requires if previous.None? then i == 0 else Sessions(previous.value) == observed[..i]
    ensures var last := WalkChain(observed, observations, recovery, i, previous).value;
      if last.None? then observed == [] else Sessions(last.value) == observed
    decreases |observed| - i
  {
    if i < |observed| {
      var o := observations[observed[i]];
      assert observed[..i + 1] == observed[..i] + [o.session];
      WalkIsChain(observed, observations, recovery, i + 1, Some(o));
    } else {
      assert observed[..i] == observed;
    }
  }

  lemma VerifiedIsChain(c: Calendar, state: Option<StateDoc>, observations: map<Day, Observation>, expected: Identity)
    requires StateOk(c, state) && FilesOk(c, observations)
    requires VerifyChain(state, observations, expected).Ok?
    ensures DocOk(c, VerifyChain(state, observations, expected).value, expected.activation)
  {
    VerifiedMeaning(state, observations, expected);
    WalkIsChain(VerifyChain(state, observations, expected).value.observed, observations, expected.recovery, 0, None);
  }

  // ----- A qualified commit extends the chain -----

  lemma QualifiedExtendsChain(c: Calendar, inv: Invocation, activation: Day, doc: StateDoc, target: Day, response: Option<Market>)
    requires SourceOk(c, inv, doc, activation, target)
    requires Qualify(inv, activation, doc, target, response).Some?
    ensures CommitOk(c, Qualify(inv, activation, doc, target, response).value)
  {
    var market := response.value;
    var statuses := SplitStatuses(market, PriorOf(doc)).value;
    StatusesAreAccepted(market, PriorOf(doc), statuses);
    CommitExtendsChain(c, inv, activation, doc, target, market, statuses);
  }

  lemma CommitExtendsChain(
    c: Calendar, inv: Invocation, activation: Day, doc: StateDoc, target: Day, market: Market, statuses: map<Symbol, SplitStatus>)
    requires SourceOk(c, inv, doc, activation, target)
    requires AllPositive(market.raw) && AllPositive(market.split)
    requires AllAccepted(market, PriorOf(doc), statuses)
    ensures CommitOk(c, CommitOf(inv, activation, doc, target, market, statuses))
  {
    var k := CommitOf(inv, activation, doc, target, market, statuses);
    if doc.observed == [] {
      FirstLink(c, k.observation);
    } else {
      OrdinalIsLength(c, doc.lastObservation.value);
      CommitLinks(c, inv, activation, doc, target, market, statuses);
      NextLink(c, k.observation);
    }
  }

  lemma CommitLinks(
    c: Calendar, inv: Invocation, activation: Day, doc: StateDoc, target: Day, market: Market, statuses: map<Symbol, SplitStatus>)
    requires SourceOk(c, inv, doc, activation, target) && doc.observed != []
    requires |doc.observed| == doc.lastObservation.value.ordinal
    requires AllPositive(market.raw) && AllPositive(market.split)
    requires AllAccepted(market, PriorOf(doc), statuses)
    ensures GoodLink(c, CommitOf(inv, activation, doc, target, market, statuses).observation)
  {
  }

  lemma FirstLink(c: Calendar, o: Observation)
    requires o.previous == None && GoodLink(c, o)
    ensures GoodChain(c, o) && First(o) == o && RebalanceCount(o) == 0
  {
  }

  lemma NextLink(c: Calendar, o: Observation)
    requires o.previous.Some? && GoodLink(c, o) && GoodChain(c, o.previous.value)
    ensures GoodChain(c, o) && First(o) == First(o.previous.value)
    ensures RebalanceCount(o) == RebalanceCount(o.previous.value) + if o.transaction.ScheduledAnnualRebalance? then 1 else 0
  {
  }

  predicate AllAccepted(market: Market, prior: map<Symbol, (real, real)>, statuses: map<Symbol, SplitStatus>) {
    forall s: Symbol :: s in market.raw && s in market.split && s in statuses
      && CheckSplitContinuity(s, market.raw, market.split, prior) == Ok(statuses[s])
  }

  lemma StatusesAreAccepted(market: Market, prior: map<Symbol, (real, real)>, statuses: map<Symbol, SplitStatus>)
    requires AllPositive(market.raw) && AllPositive(market.split)
    requires SplitStatuses(market, prior) == Some(statuses)
    ensures AllAccepted(market, prior, statuses)
  {
    forall s: Symbol
      ensures s in market.raw && s in market.split && s in statuses
        && CheckSplitContinuity(s, market.raw, market.split, prior) == Ok(statuses[s])
    {
      match s {
        case ACWI =>
        case AGG =>
        case SPY =>
      }
    }
  }

  lemma OrdinalIsLength(c: Calendar, o: Observation)
    requires GoodChain(c, o)
    ensures |Sessions(o)| == o.ordinal
  {
    HistoryAt(c, o, 0);
    HistoryShape(o, 0);
  }

  // ----- Every step keeps the invariant -----

  lemma WritingKeepsFiles(c: Calendar, observations: map<Day, Observation>, k: Commit)
    requires FilesOk(c, observations) && CommitOk(c, k)
    ensures FilesOk(c, observations[k.observation.session := k.observation])
  {
  }

  lemma MergingKeepsState(c: Calendar, base: StateDoc, k: Commit)
    requires CommitOk(c, k)
    ensures SummaryOk(c, MergedState(base, k))
  {
  }

  lemma AdvanceKeepsDisk(c: Calendar, disk: Disk, p: Proc, response: Option<Market>)
    requires DiskOk(c, disk) && ProcOk(c, p)
    ensures DiskOk(c, AdvanceProc(c, disk, p, response).disk)
  {
    match p {
      case Checked(k) =>
        WritingKeepsFiles(c, disk.observations, k);
      case Merging(k, base) =>
        MergingKeepsState(c, base, k);
      case _ => OthersWriteNoFile(c, disk, p, response);
    }
  }

  lemma OthersWriteNoFile(c: Calendar, disk: Disk, p: Proc, response: Option<Market>)
    requires !p.Checked? && !p.Merging?
    ensures var after := AdvanceProc(c, disk, p, response).disk;
      after.state == disk.state && after.observations == disk.observations
  {
  }

  lemma LoadedVerifies(c: Calendar, disk: Disk, inv: Invocation, activation: Day, doc: StateDoc)
    requires FilesOk(c, disk.observations) && SummaryOk(c, doc)
    requires VerifyDocument(doc, disk.observations, IdentityOf(inv, activation)).Ok?
    ensures DocOk(c, doc, activation)
  {
    VerifiedIsChain(c, Some(doc), disk.observations, IdentityOf(inv, activation));
  }

  lemma LoadedStep(c: Calendar, disk: Disk, inv: Invocation, activation: Day, doc: StateDoc)
    ensures var r := Read(c, disk, Loaded(inv, activation, doc));
      r == Ended || (r == Verified(inv, activation, doc) && VerifyDocument(doc, disk.observations, IdentityOf(inv, activation)).Ok?)
  {
  }

  lemma VerifiedStep(c: Calendar, disk: Disk, inv: Invocation, activation: Day, doc: StateDoc)
    ensures var r := Read(c, disk, Verified(inv, activation, doc));
      r == Ended || (r.Unspent? && r == Unspent(inv, doc, activation, r.target) && Target(c, doc.observed, activation) == Found(r.target))
  {
    if Aim(c, inv, activation, doc).Ok? {
      AimMeaning(c, inv, activation, doc);
    }
  }

  lemma UnspentStep(c: Calendar, disk: Disk, inv: Invocation, doc: StateDoc, activation: Day, target: Day)
    ensures var r := Read(c, disk, Unspent(inv, doc, activation, target));
      || r == Ended || r == Skipped(target)
      || (&& r == Cleared(inv, doc, activation, target, KeyFor(inv, doc, target))
          && ProcessableAt(c, target, inv.now) && !Forbidden(target))
  {
    if Admit(c, inv, activation, doc, target, Successor(c, target)).Dispatch? {
      AdmitDispatch(c, inv, activation, doc, target);
    }
  }

  lemma ReadKeepsProc(c: Calendar, disk: Disk, p: Proc)
    requires DiskOk(c, disk) && ProcOk(c, p) && Reading(p)
    ensures ProcOk(c, Read(c, disk, p))
  {
    match p {
      case Loaded(inv, activation, doc) =>
        LoadedStep(c, disk, inv, activation, doc);
        if Read(c, disk, p) != Ended {
          LoadedVerifies(c, disk, inv, activation, doc);
        }
      case Verified(inv, activation, doc) => VerifiedStep(c, disk, inv, activation, doc);
      case Unspent(inv, doc, activation, target) => UnspentStep(c, disk, inv, doc, activation, target);
      case _ => EarlyRead(c, disk, p);
    }
  }

  lemma EarlyRead(c: Calendar, disk: Disk, p: Proc)
    requires StateOk(c, disk.state) && (p.Started? || p.Located? || p.Listed?)
    ensures ProcOk(c, Read(c, disk, p))
  {
  }

  lemma BurnedKeepsProc(c: Calendar, disk: Disk, p: Proc, response: Option<Market>)
    requires p.Burned? && ProcOk(c, p)
    ensures ProcOk(c, AdvanceProc(c, disk, p, response).proc)
  {
    if Qualify(p.inv, p.activation, p.doc, p.target, response).Some? {
      QualifiedExtendsChain(c, p.inv, p.activation, p.doc, p.target, response);
    }
  }

  lemma AdvanceKeepsProc(c: Calendar, disk: Disk, p: Proc, response: Option<Market>)
    requires DiskOk(c, disk) && ProcOk(c, p)
    ensures ProcOk(c, AdvanceProc(c, disk, p, response).proc)
  {
    if Reading(p) {
      ReadKeepsProc(c, disk, p);
      assert AdvanceProc(c, disk, p, response).proc == Read(c, disk, p);
    } else if p.Burned? {
      BurnedKeepsProc(c, disk, p, response);
    }
  }

  lemma StepKeepsLineage(c: Calendar, s: System, a: Action)
    requires Lineage(c, s)
    ensures Lineage(c, Step(c, s, a))
  {
    if a.Advance? && a.pid in s.procs {
      AdvanceKeepsDisk(c, s.disk, s.procs[a.pid], a.response);
      AdvanceKeepsProc(c, s.disk, s.procs[a.pid], a.response);
    }
  }

  lemma {:induction false} RunKeepsLineage(c: Calendar, s: System, actions: seq<Action>)
    requires Lineage(c, s)
    ensures Lineage(c, Run(c, s, actions))
    decreases |actions|
  {
    if actions != [] {
      StepKeepsLineage(c, s, actions[0]);
      RunKeepsLineage(c, Step(c, s, actions[0]), actions[1..]);
    }
  }

  // ----- Theorems about every reachable directory that verifies -----

  /** The sessions are the consecutive trading sessions from the activation session. */
  ghost predicate Contiguous(c: Calendar, observed: seq<Day>, activation: Day) {
    observed != [] ==>
      && observed[0] == activation
      && (forall i, j :: 0 <= i < j < |observed| ==> observed[i] < observed[j])
      && (forall d: Day :: d in observed <==> activation <= d <= observed[|observed| - 1] && IsSession(c, d))
  }

  /** The rebalance counter is a difference of years. */
  predicate CountsYears(doc: StateDoc) {
    doc.observed != [] ==> doc.rebalances == Year(doc.observed[|doc.observed| - 1]) - Year(doc.observed[0])
  }

  lemma ChainedDocument(c: Calendar, doc: StateDoc, activation: Day)
    requires DocOk(c, doc, activation)
    ensures Contiguous(c, doc.observed, activation)
    ensures doc.observed != [] ==> CountsYears(doc) && doc.observed[0] == activation
  {
    if doc.observed != [] {
      ObservedSessionsAreContiguous(c, doc.lastObservation.value);
      RebalancesCountYears(c, doc.lastObservation.value);
    }
  }

  lemma ReachableDocument(c: Calendar, actions: seq<Action>, expected: Identity)
    requires var disk := Reached(c, actions).disk; VerifyChain(disk.state, disk.observations, expected).Ok?
    ensures var disk := Reached(c, actions).disk;
      DocOk(c, VerifyChain(disk.state, disk.observations, expected).value, expected.activation)
  {
    RunKeepsLineage(c, START, actions);
    var disk := Reached(c, actions).disk;
    VerifiedIsChain(c, disk.state, disk.observations, expected);
  }

  /** Whenever the chain check passes, the recorded sessions are the consecutive trading sessions
      from the activation session, under any races and crashes before. */
  lemma ReachableSessionsAreContiguous(c: Calendar, actions: seq<Action>, expected: Identity)
    requires var disk := Reached(c, actions).disk; VerifyChain(disk.state, disk.observations, expected).Ok?
    ensures var disk := Reached(c, actions).disk;
      Contiguous(c, VerifyChain(disk.state, disk.observations, expected).value.observed, expected.activation)
  {
    var disk := Reached(c, actions).disk;
    ReachableDocument(c, actions, expected);
    ChainedDocument(c, VerifyChain(disk.state, disk.observations, expected).value, expected.activation);
  }

  /** The persisted rebalance counter of a verified directory is a difference of years. */
  lemma ReachableCounterCountsYears(c: Calendar, actions: seq<Action>, expected: Identity)
    requires var disk := Reached(c, actions).disk; VerifyChain(disk.state, disk.observations, expected).Ok?
    ensures var disk := Reached(c, actions).disk;
      CountsYears(VerifyChain(disk.state, disk.observations, expected).value)
  {
    var disk := Reached(c, actions).disk;
    ReachableDocument(c, actions, expected);
    ChainedDocument(c, VerifyChain(disk.state, disk.observations, expected).value, expected.activation);
  }

  /** Position by position, ordinals count up from one and clock readings strictly increase. */
  ghost predicate OrderedFiles(observed: seq<Day>, observations: map<Day, Observation>) {
    && (forall i :: 0 <= i < |observed| ==> observed[i] in observations && observations[observed[i]].ordinal == i + 1)
    && (forall i, j :: 0 <= i < j < |observed| ==>
         observations[observed[i]].processedAt < observations[observed[j]].processedAt)
  }

  lemma WalkedFilesAreOrdered(
    c: Calendar, observed: seq<Day>, observations: map<Day, Observation>, recovery: Option<int>, o: Observation)
    requires GoodChain(c, o) && WalkChain(observed, observations, recovery, 0, None) == Ok(Some(o))
    ensures OrderedFiles(observed, observations)
  {
    WalkIsHistory(observed, observations, recovery, 0, None);
    HistoryOrdinalsAndTimes(c, o);
  }

  /** The files of a verified directory are one history, although nothing assumes a monotone clock. */
  lemma ReachableFilesAreOrdered(c: Calendar, actions: seq<Action>, expected: Identity)
    requires var disk := Reached(c, actions).disk; VerifyChain(disk.state, disk.observations, expected).Ok?
    ensures var disk := Reached(c, actions).disk;
      OrderedFiles(VerifyChain(disk.state, disk.observations, expected).value.observed, disk.observations)
  {
    var disk := Reached(c, actions).disk;
    ReachableDocument(c, actions, expected);
    VerifiedMeaning(disk.state, disk.observations, expected);
    var doc := VerifyChain(disk.state, disk.observations, expected).value;
    if doc.observed != [] {
      WalkedFilesAreOrdered(c, doc.observed, disk.observations, expected.recovery, doc.lastObservation.value);
    }
  }

  /** The files a successful walk visits are the history of its result. */
  lemma {:induction false} WalkIsHistory(
    observed: seq<Day>, observations: map<Day, Observation>, recovery: Option<int>, i: nat, previous: Option<Observation>)
    requires i <= |observed| && WalkChain(observed, observations, recovery, i, previous).Ok?
    requires if previous.None? then i == 0 else |History(previous.value)| == i
    requires forall j :: 0 <= j < i ==>
      observed[j] in observations && observations[observed[j]] == History(previous.value)[j]
    ensures var last := WalkChain(observed, observations, recovery, i, previous).value;
      last.Some? ==> |History(last.value)| == |observed| && forall j :: 0 <= j < |observed| ==>
        observed[j] in observations && observations[observed[j]] == History(last.value)[j]
    decreases |observed| - i
  {
    if i < |observed| {
      WalkIsHistory(observed, observations, recovery, i + 1, Some(observations[observed[i]]));
    }
  }

  lemma HistoryOrdinalsAndTimes(c: Calendar, o: Observation)
    requires GoodChain(c, o)
    ensures forall i :: 0 <= i < |History(o)| ==> History(o)[i].ordinal == i + 1
    ensures forall i, j :: 0 <= i < j < |History(o)| ==> History(o)[i].processedAt < History(o)[j].processedAt
  {
    forall i | 0 <= i < |History(o)|
      ensures History(o)[i].ordinal == i + 1
    {
      HistoryAt(c, o, i);
    }
    forall i, j | 0 <= i < j < |History(o)|
      ensures History(o)[i].processedAt < History(o)[j].processedAt
    {
      ProcessingTimesIncrease(c, o, i, j);
    }
  }

  // ----- One fetch per ledger key -----

  ghost predicate HoldsKey(s: System, pid: nat) {
    pid in s.procs && s.procs[pid].Burned?
  }

  /** No event repeats, a fetch follows its own consumption, and consumptions are the ledger. */
  ghost predicate EventsOk(events: seq<Event>, ledger: set<Key>) {
    && (forall i, j :: 0 <= i < j < |events| ==> events[i] != events[j])
    && (forall j :: 0 <= j < |events| && events[j].Fetched? ==> Consumed(events[j].key) in events[..j])
    && (forall key :: Consumed(key) in events <==> key in ledger)
  }

  /** Invocations between consumption and fetch hold distinct keys, consumed and not yet fetched. */
  ghost predicate HoldersOk(s: System) {
    && (forall pid :: HoldsKey(s, pid) ==>
         Consumed(s.procs[pid].key) in s.events && Fetched(s.procs[pid].key) !in s.events)
    && (forall pid, other :: HoldsKey(s, pid) && HoldsKey(s, other) && pid != other ==>
         s.procs[pid].key != s.procs[other].key)
  }

  ghost predicate AtMostOnce(s: System) {
    EventsOk(s.events, s.disk.ledger) && HoldersOk(s)
  }

  /** Appending an event that did not happen yet. */
  lemma NewEventKeepsOrder(events: seq<Event>, e: Event, ledger: set<Key>)
    requires EventsOk(events, ledger) && e !in events && (e.Fetched? ==> Consumed(e.key) in events)
    ensures EventsOk(events + [e], if e.Consumed? then ledger + {e.key} else ledger)
  {
    var after := events + [e];
    forall j | 0 <= j < |after| && after[j].Fetched?
      ensures Consumed(after[j].key) in after[..j]
    {
      assert after[..j] == events[..j];
    }
  }

  /** An invocation that stops holding a key, or one that takes a key nobody holds. */
  lemma HoldersAfter(s: System, t: System, pid: nat, e: Event)
    requires HoldersOk(s) && pid in s.procs && t.procs.Keys == s.procs.Keys && t.events == s.events + [e]
    requires forall other :: other in s.procs && other != pid ==> t.procs[other] == s.procs[other]
    requires
      if e.Consumed? then t.procs[pid].Burned? && t.procs[pid].key == e.key && e !in s.events && Fetched(e.key) !in s.events
      else HoldsKey(s, pid) && s.procs[pid].key == e.key && !t.procs[pid].Burned?
    ensures HoldersOk(t)
  {
    forall other | HoldsKey(t, other)
      ensures Consumed(t.procs[other].key) in t.events && Fetched(t.procs[other].key) !in t.events
    {
      assert other != pid ==> HoldsKey(s, other);
    }
    forall one, other | HoldsKey(t, one) && HoldsKey(t, other) && one != other
      ensures t.procs[one].key != t.procs[other].key
    {
      assert one != pid ==> HoldsKey(s, one);
      assert other != pid ==> HoldsKey(s, other);
    }
  }

  lemma ConsumingKeepsAtMostOnce(c: Calendar, s: System, pid: nat, response: Option<Market>)
    requires AtMostOnce(s) && pid in s.procs && s.procs[pid].Cleared?
    ensures AtMostOnce(Step(c, s, Advance(pid, response)))
  {
    var key, t := s.procs[pid].key, Step(c, s, Advance(pid, response));
    if key !in s.disk.ledger {
      NewEventKeepsOrder(s.events, Consumed(key), s.disk.ledger);
      UnconsumedIsUnfetched(s.events, s.disk.ledger, key);
      HoldersAfter(s, t, pid, Consumed(key));
    } else {
      IdleKeepsHolders(s, t, pid);
    }
  }

  lemma UnconsumedIsUnfetched(events: seq<Event>, ledger: set<Key>, key: Key)
    requires EventsOk(events, ledger) && key !in ledger
    ensures Fetched(key) !in events && Consumed(key) !in events
  {
    assert forall j :: 0 <= j < |events| && events[j].Fetched? ==> Consumed(events[j].key) in events;
  }

  lemma FetchingKeepsAtMostOnce(c: Calendar, s: System, pid: nat, response: Option<Market>)
    requires AtMostOnce(s) && HoldsKey(s, pid)
    ensures AtMostOnce(Step(c, s, Advance(pid, response)))
  {
    var key, t := s.procs[pid].key, Step(c, s, Advance(pid, response));
    NewEventKeepsOrder(s.events, Fetched(key), s.disk.ledger);
    assert t.events == s.events + [Fetched(key)] && t.disk.ledger == s.disk.ledger && !t.procs[pid].Burned?;
    HoldersAfter(s, t, pid, Fetched(key));
  }

  lemma IdleKeepsHolders(s: System, t: System, pid: nat)
    requires HoldersOk(s) && t.events == s.events && pid in t.procs && !t.procs[pid].Burned?
    requires forall other :: other in t.procs && other != pid ==> other in s.procs && t.procs[other] == s.procs[other]
    ensures HoldersOk(t)
  {
    assert forall other :: HoldsKey(t, other) ==> HoldsKey(s, other);
  }

  lemma StepKeepsAtMostOnce(c: Calendar, s: System, a: Action)
    requires AtMostOnce(s)
    ensures AtMostOnce(Step(c, s, a))
  {
    var t := Step(c, s, a);
    if a.Advance? && a.pid in s.procs {
      var p := s.procs[a.pid];
      if p.Cleared? {
        ConsumingKeepsAtMostOnce(c, s, a.pid, a.response);
      } else if p.Burned? {
        FetchingKeepsAtMostOnce(c, s, a.pid, a.response);
      } else {
        OtherStepsAreSilent(c, s.disk, p, a.response);
        assert t.events == s.events;
        IdleKeepsHolders(s, t, a.pid);
      }
    } else if t != s {
      IdleKeepsHolders(s, t, a.pid);
    }
  }

  lemma OtherStepsAreSilent(c: Calendar, disk: Disk, p: Proc, response: Option<Market>)
    requires !p.Cleared? && !p.Burned?
    ensures var e := AdvanceProc(c, disk, p, response);
      e.events == [] && e.disk.ledger == disk.ledger && !e.proc.Burned?
  {
  }

  lemma {:induction false} RunKeepsAtMostOnce(c: Calendar, s: System, actions: seq<Action>)
    requires AtMostOnce(s)
    ensures AtMostOnce(Run(c, s, actions))
    decreases |actions|
  {
    if actions != [] {
      StepKeepsAtMostOnce(c, s, actions[0]);
      RunKeepsAtMostOnce(c, Step(c, s, actions[0]), actions[1..]);
    }
  }

  /** Over every interleaving each ledger key is consumed at most once and fetched at most once,
      and a fetch always comes after its own consumption. */
  lemma OneFetchPerKey(c: Calendar, actions: seq<Action>)
    ensures var events := Reached(c, actions).events;
      && (forall i, j :: 0 <= i < j < |events| ==> events[i] != events[j])
      && (forall j :: 0 <= j < |events| && events[j].Fetched? ==> Consumed(events[j].key) in events[..j])
  {
    RunKeepsAtMostOnce(c, START, actions);
  }
}
