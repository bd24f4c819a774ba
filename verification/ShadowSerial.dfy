/** Invocations that do not overlap: any number of them one after another, each crashing anywhere or
    finishing. Here the state document is contiguous without any proviso. */
module ShadowSerial {
  import opened Common
  import opened NyseCalendar
  import opened ShadowChain
  import opened ShadowRunner
  import opened ShadowGates
  import opened ShadowSafety
  import opened ShadowProgress

  // ----- A commit leaves a directory that verifies -----

  /** One more file, linked to the last one, is walked like the others. */
  lemma {:induction false} WalkOneMore(
    observed: seq<Day>, observations: map<Day, Observation>, recovery: Option<int>, i: nat, previous: Option<Observation>,
    o: Observation)
    requires i <= |observed| && WalkChain(observed, observations, recovery, i, previous) == Ok(o.previous)
    requires o.session !in observations && (recovery.Some? ==> o.binding == recovery)
    ensures WalkChain(observed + [o.session], observations[o.session := o], recovery, i, previous) == Ok(Some(o))
    decreases |observed| - i
  {
    var all := observed + [o.session];
    if i == |observed| {
      assert all[i] == o.session;
      assert WalkChain(all, observations[o.session := o], recovery, i + 1, Some(o)) == Ok(Some(o));
    } else {
      assert all[i] == observed[i];
      WalkOneMore(observed, observations, recovery, i + 1, Some(observations[observed[i]]), o);
    }
  }

  /** The commit continues the verified document by one later session, under the same identity. */
  ghost predicate Continues(disk: Disk, id: Identity, k: Commit) {
    && VerifyChain(disk.state, disk.observations, id).Ok?
    && var doc := VerifyChain(disk.state, disk.observations, id).value;
    && k.identity == id
    && k.observation.session !in disk.observations
    && (doc.observed != [] ==> doc.observed[|doc.observed| - 1] < k.observation.session)
    && k.observation.previous == doc.lastObservation
    && k.observation.binding == id.recovery
  }

  lemma ExtendedFilesMatch(observed: seq<Day>, observations: map<Day, Observation>, o: Observation)
    requires FilesMatch(observed, observations)
    requires observed != [] ==> observed[|observed| - 1] < o.session
    ensures FilesMatch(observed + [o.session], observations[o.session := o])
  {
    var all := observed + [o.session];
    assert forall d :: d in all <==> d in observed || d == o.session;
  }

  lemma MergedVerifies(disk: Disk, id: Identity, k: Commit)
    requires Continues(disk, id, k)
    ensures var doc := VerifyChain(disk.state, disk.observations, id).value;
      && !Rejected(doc, k) && BaseOf(disk, k) == doc
      && VerifyDocument(MergedState(doc, k), Filed(disk, k).observations, id) == Ok(MergedState(doc, k))
  {
    VerifiedMeaning(disk.state, disk.observations, id);
    var doc := VerifyChain(disk.state, disk.observations, id).value;
    assert k.observation.session !in doc.observed;
    WalkOneMore(doc.observed, disk.observations, id.recovery, 0, None, k.observation);
    ExtendedFilesMatch(doc.observed, disk.observations, k.observation);
  }

  /** A finished commit leaves a directory that verifies again, one session longer. */
  lemma CommitKeepsVerified(disk: Disk, id: Identity, k: Commit)
    requires Continues(disk, id, k)
    ensures var doc := VerifyChain(disk.state, disk.observations, id).value;
      var after := Append(disk, k);
      && VerifyChain(after.state, after.observations, id) == Ok(MergedState(doc, k))
      && MergedState(doc, k).observed == doc.observed + [k.observation.session]
      && after.ledger == disk.ledger
  {
    MergedVerifies(disk, id, k);
  }

  lemma CommitOfDispatch(inv: Invocation, outcome: Outcome, response: Option<Market>)
    requires CommitFor(inv, outcome, response).Some?
    ensures var k := CommitFor(inv, outcome, response).value;
      && k.identity == IdentityOf(inv, outcome.activation)
      && k.observation.session == outcome.target && k.observation.binding == k.identity.recovery
      && k.observation.previous == (if outcome.doc.observed == [] then None else outcome.doc.lastObservation)
  {
  }

  /** Every commit of an undisturbed invocation continues the directory it was decided on. */
  lemma DispatchContinues(c: Calendar, disk: Disk, inv: Invocation, response: Option<Market>)
    requires CommitFor(inv, Decide(c, inv, disk), response).Some?
    ensures var d := Decide(c, inv, disk);
      var id := IdentityOf(inv, d.activation);
      && VerifyChain(disk.state, disk.observations, id) == Ok(d.doc)
      && Continues(disk, id, CommitFor(inv, d, response).value)
  {
    var d := Decide(c, inv, disk);
    DispatchMeaning(c, inv, disk);
    AimMeaning(c, inv, d.activation, d.doc);
    VerifiedMeaning(disk.state, disk.observations, IdentityOf(inv, d.activation));
    CommitOfDispatch(inv, d, response);
  }

  // ----- Serial schedules -----

  /** One invocation, the market it would be served, and after how many file operations it dies. */
  datatype Attempt = Attempt(inv: Invocation, response: Option<Market>, turns: nat)

  function AfterAttempt(c: Calendar, disk: Disk, a: Attempt): Effect {
    Alone(c, disk, Started(a.inv), a.response, a.turns)
  }

  function Serial(c: Calendar, attempts: seq<Attempt>): Disk {
    if attempts == [] then EMPTY_DISK
    else AfterAttempt(c, Serial(c, attempts[..|attempts| - 1]), attempts[|attempts| - 1]).disk
  }

  /** The attempt dies between the two files of its commit. */
  predicate TornBy(c: Calendar, disk: Disk, a: Attempt) {
    BetweenFiles(AfterAttempt(c, disk, a).proc)
  }

  predicate Torn(c: Calendar, attempts: seq<Attempt>) {
    exists i :: 0 <= i < |attempts| && TornAt(c, attempts, i)
  }

  predicate TornAt(c: Calendar, attempts: seq<Attempt>, i: nat)
    requires i < |attempts|
  {
    TornBy(c, Serial(c, attempts[..i]), attempts[i])
  }

  /** The directory passes the chain check for somebody. */
  ghost predicate Verifies(disk: Disk) {
    exists id: Identity :: VerifyChain(disk.state, disk.observations, id).Ok?
  }

  ghost predicate Orphaned(disk: Disk) {
    exists d :: d in disk.observations && (disk.state.Some? ==> d !in disk.state.value.observed)
  }

  lemma OrphanedNeverVerifies(disk: Disk)
    requires Orphaned(disk)
    ensures !Verifies(disk)
  {
    forall id: Identity
      ensures !VerifyChain(disk.state, disk.observations, id).Ok?
    {
      if VerifyChain(disk.state, disk.observations, id).Ok? {
        VerifiedMeaning(disk.state, disk.observations, id);
      }
    }
  }

  /** The state document, whatever the chain check says: one whole chain from its activation session. */
  ghost predicate StateWhole(c: Calendar, state: Option<StateDoc>) {
    state.Some? ==> DocOk(c, state.value, state.value.activation)
  }

  /** Where a serial schedule leaves the directory. */
  ghost predicate Settled(c: Calendar, disk: Disk) {
    && DiskOk(c, disk) && StateWhole(c, disk.state)
    && (Verifies(disk) || Orphaned(disk))
  }

  lemma BurningChangesNoFile(c: Calendar, disk: Disk, key: Key)
    requires Settled(c, disk)
    ensures Settled(c, Burn(disk, key)) && (Verifies(Burn(disk, key)) <==> Verifies(disk))
  {
    var burned := Burn(disk, key);
    if Verifies(disk) {
      var id: Identity :| VerifyChain(disk.state, disk.observations, id).Ok?;
      assert VerifyChain(burned.state, burned.observations, id).Ok?;
    }
    if Verifies(burned) {
      var id: Identity :| VerifyChain(burned.state, burned.observations, id).Ok?;
      assert VerifyChain(disk.state, disk.observations, id).Ok?;
    }
  }

  /** The commit of an undisturbed invocation on a settled directory is a good link of its chain. */
  lemma CommitIsGood(c: Calendar, disk: Disk, inv: Invocation, response: Option<Market>)
    requires DiskOk(c, disk) && CommitFor(inv, Decide(c, inv, disk), response).Some?
    ensures CommitOk(c, CommitFor(inv, Decide(c, inv, disk), response).value)
  {
    var d := Decide(c, inv, disk);
    DispatchMeaning(c, inv, disk);
    AimMeaning(c, inv, d.activation, d.doc);
    VerifiedIsChain(c, disk.state, disk.observations, IdentityOf(inv, d.activation));
    QualifiedExtendsChain(c, inv, d.activation, d.doc, d.target, response);
  }

  lemma AppendKeepsDisk(c: Calendar, disk: Disk, k: Commit)
    requires DiskOk(c, disk) && CommitOk(c, k)
    ensures DiskOk(c, Append(disk, k))
  {
    WritingKeepsFiles(c, disk.observations, k);
    MergingKeepsState(c, BaseOf(disk, k), k);
  }

  lemma VerifiedSettles(c: Calendar, disk: Disk, id: Identity)
    requires DiskOk(c, disk) && VerifyChain(disk.state, disk.observations, id).Ok?
    ensures Settled(c, disk) && Verifies(disk)
  {
    VerifiedIsWhole(c, disk, id);
    assert Verifies(disk);
  }

  lemma VerifiedIsWhole(c: Calendar, disk: Disk, id: Identity)
    requires DiskOk(c, disk) && VerifyChain(disk.state, disk.observations, id).Ok?
    ensures StateWhole(c, disk.state)
  {
    VerifiedIsChain(c, disk.state, disk.observations, id);
    VerifiedMeaning(disk.state, disk.observations, id);
  }

  lemma ContinuedSettles(c: Calendar, disk: Disk, id: Identity, k: Commit)
    requires DiskOk(c, disk) && CommitOk(c, k) && Continues(disk, id, k)
    ensures Settled(c, Append(disk, k)) && Verifies(Append(disk, k)) && Verifies(disk)
  {
    VerifiedSettles(c, disk, id);
    AppendKeepsDisk(c, disk, k);
    CommitKeepsVerified(disk, id, k);
    VerifiedSettles(c, Append(disk, k), id);
  }

  lemma FinishedCommitSettles(c: Calendar, disk: Disk, inv: Invocation, response: Option<Market>)
    requires Settled(c, disk) && CommitFor(inv, Decide(c, inv, disk), response).Some?
    ensures var after := Append(disk, CommitFor(inv, Decide(c, inv, disk), response).value);
      Settled(c, after) && Verifies(after) && Verifies(disk)
  {
    var d := Decide(c, inv, disk);
    DispatchContinues(c, disk, inv, response);
    CommitIsGood(c, disk, inv, response);
    ContinuedSettles(c, disk, IdentityOf(inv, d.activation), CommitFor(inv, d, response).value);
  }

  lemma FiledIsOrphaned(c: Calendar, disk: Disk, k: Commit)
    requires DiskOk(c, disk) && StateWhole(c, disk.state) && CommitOk(c, k)
    requires disk.state.Some? ==> k.observation.session !in disk.state.value.observed
    ensures Settled(c, Filed(disk, k)) && !Verifies(Filed(disk, k))
  {
    WritingKeepsFiles(c, disk.observations, k);
    assert k.observation.session in Filed(disk, k).observations;
    OrphanedNeverVerifies(Filed(disk, k));
  }

  /** Where one attempt leaves the directory: torn between the files, or as it was but perhaps for a
      burned key, or with its commit finished. */
  lemma AttemptLeaves(c: Calendar, disk: Disk, a: Attempt)
    ensures var r := AfterAttempt(c, disk, a);
      var d := Decide(c, a.inv, disk);
      var k := CommitFor(a.inv, d, a.response);
      if TornBy(c, disk, a) then d.Dispatch? && k.Some? && r.disk == Filed(Burn(disk, d.key), k.value)
      else
        || r.disk == disk
        || (d.Dispatch? && r.disk == Burn(disk, d.key))
        || (d.Dispatch? && k.Some? && r.disk == Append(Burn(disk, d.key), k.value))
  {
    StartedTracks(c, disk, a.inv, a.response, a.turns);
  }

  lemma BurnedCommitContinues(disk: Disk, key: Key, k: Commit)
    ensures Append(Burn(disk, key), k) == Burn(Append(disk, k), key)
    ensures Filed(Burn(disk, key), k) == Burn(Filed(disk, k), key)
  {
  }

  lemma AttemptSettles(c: Calendar, disk: Disk, a: Attempt)
    requires Settled(c, disk)
    ensures var after := AfterAttempt(c, disk, a).disk;
      Settled(c, after) && (Verifies(after) <==> Verifies(disk) && !TornBy(c, disk, a))
  {
    var d := Decide(c, a.inv, disk);
    AttemptLeaves(c, disk, a);
    if d.Dispatch? {
      BurningChangesNoFile(c, disk, d.key);
      var k := CommitFor(a.inv, d, a.response);
      if k.Some? {
        BurnedCommitContinues(disk, d.key, k.value);
        if TornBy(c, disk, a) {
          TornAttempt(c, disk, a.inv, a.response);
          BurningChangesNoFile(c, Filed(disk, k.value), d.key);
        } else {
          FinishedCommitSettles(c, disk, a.inv, a.response);
          BurningChangesNoFile(c, Append(disk, k.value), d.key);
        }
      }
    }
  }

  lemma TornAttempt(c: Calendar, disk: Disk, inv: Invocation, response: Option<Market>)
    requires Settled(c, disk) && CommitFor(inv, Decide(c, inv, disk), response).Some?
    ensures var torn := Filed(disk, CommitFor(inv, Decide(c, inv, disk), response).value);
      Settled(c, torn) && !Verifies(torn)
  {
    var d := Decide(c, inv, disk);
    CommitIsGood(c, disk, inv, response);
    DispatchContinues(c, disk, inv, response);
    VerifiedMeaning(disk.state, disk.observations, IdentityOf(inv, d.activation));
    FiledIsOrphaned(c, disk, CommitFor(inv, d, response).value);
  }

  lemma EmptySettles(c: Calendar)
    ensures Settled(c, EMPTY_DISK) && Verifies(EMPTY_DISK)
  {
    var id := Identity(1, None, None);
    assert VerifyChain(EMPTY_DISK.state, EMPTY_DISK.observations, id).Ok?;
  }

  lemma TornOnce(c: Calendar, attempts: seq<Attempt>)
    requires attempts != []
    ensures var front := attempts[..|attempts| - 1];
      Torn(c, attempts) <==> Torn(c, front) || TornBy(c, Serial(c, front), attempts[|attempts| - 1])
  {
    var front, last := attempts[..|attempts| - 1], |attempts| - 1;
    forall i | 0 <= i < last
      ensures TornAt(c, attempts, i) <==> TornAt(c, front, i)
    {
      assert attempts[..i] == front[..i];
    }
    assert TornAt(c, attempts, last) <==> TornBy(c, Serial(c, front), attempts[last]);
  }

  lemma {:induction false} SerialSettles(c: Calendar, attempts: seq<Attempt>)
    ensures Settled(c, Serial(c, attempts)) && (Verifies(Serial(c, attempts)) <==> !Torn(c, attempts))
  {
    if attempts == [] {
      EmptySettles(c);
    } else {
      var front := attempts[..|attempts| - 1];
      SerialSettles(c, front);
      AttemptSettles(c, Serial(c, front), attempts[|attempts| - 1]);
      TornOnce(c, attempts);
    }
  }

  /** Main result for invocations that do not overlap, whatever crashes they suffer: the state document
      always lists exactly the consecutive sessions from its activation session and counts its years, and
      the directory passes the chain check if and only if no attempt died between its two files. */
  lemma SerialStateIsContiguous(c: Calendar, attempts: seq<Attempt>)
    ensures var disk := Serial(c, attempts);
      && (disk.state.Some? ==>
            && disk.state.value.observed != []
            && Contiguous(c, disk.state.value.observed, disk.state.value.activation)
            && CountsYears(disk.state.value))
      && (Verifies(disk) <==> !Torn(c, attempts))
  {
    SerialSettles(c, attempts);
    var disk := Serial(c, attempts);
    if disk.state.Some? {
      ChainedDocument(c, disk.state.value, disk.state.value.activation);
    }
  }

  /** A serial schedule as a run of the interleaved system: spawn, advance, kill. */
  function SerialActions(attempts: seq<Attempt>): seq<Action> {
    if attempts == [] then []
    else
      var pid, a := |attempts| - 1, attempts[|attempts| - 1];
      SerialActions(attempts[..pid]) + (Invoke(pid, a.inv, a.response, a.turns) + [Crash(pid)])
  }

  lemma {:induction false} RunJoins(c: Calendar, s: System, before: seq<Action>, after: seq<Action>)
    ensures Run(c, s, before + after) == Run(c, Run(c, s, before), after)
    decreases |before|
  {
    if before == [] {
      assert before + after == after;
    } else {
      assert (before + after)[1..] == before[1..] + after;
      RunJoins(c, Step(c, s, before[0]), before[1..], after);
    }
  }

  lemma CrashedIsARun(c: Calendar, s: System, pid: nat, inv: Invocation, response: Option<Market>, n: nat)
    ensures Run(c, s, Invoke(pid, inv, response, n) + [Crash(pid)]) == Crashed(c, s, pid, inv, response, n)
  {
    RunJoins(c, s, Invoke(pid, inv, response, n), [Crash(pid)]);
    var t := Run(c, s, Invoke(pid, inv, response, n));
    assert Run(c, t, [Crash(pid)]) == Run(c, Step(c, t, Crash(pid)), []);
  }

  /** Serial schedules are among the reachable states. */
  lemma {:induction false} SerialIsReached(c: Calendar, attempts: seq<Attempt>)
    ensures var s := Reached(c, SerialActions(attempts));
      s.disk == Serial(c, attempts) && forall pid :: pid in s.procs ==> pid < |attempts| && s.procs[pid] == Ended
  {
    if attempts != [] {
      var pid, a := |attempts| - 1, attempts[|attempts| - 1];
      var front := attempts[..pid];
      SerialIsReached(c, front);
      var s := Reached(c, SerialActions(front));
      RunJoins(c, START, SerialActions(front), Invoke(pid, a.inv, a.response, a.turns) + [Crash(pid)]);
      CrashedIsARun(c, s, pid, a.inv, a.response, a.turns);
      CrashLeaves(c, s, pid, a.inv, a.response, a.turns);
    }
  }

  // ----- And it moves -----

  /** Arguments a faithful operator of a V2 segment would pass for the next session. */
  function Operator(doc: StateDoc, segment: Binding, now: int, authority: int): Invocation {
    Invocation(Some(segment), None, now, true, false, ForOrdinal(|doc.observed| + 1), |doc.observed| + 1, 1,
      Some(authority), true, true, Bytes(true), true, true)
  }

  function SegmentIdentity(segment: Binding): Identity {
    Identity(segment.session, Some(segment.digest), None)
  }

  /** The next session of a verified segment directory can be processed now with an unused authority. */
  ghost predicate Ready(c: Calendar, disk: Disk, segment: Binding, target: Day, now: int, authority: int) {
    var verified := VerifyChain(disk.state, disk.observations, SegmentIdentity(segment));
    && IsSession(c, segment.session) && verified.Ok?
    && var doc := verified.value;
    && Target(c, doc.observed, segment.session) == Found(target)
    && ProcessableAt(c, target, now) && !Forbidden(target) && segment.session <= target
    && Key(Some(authority), ForOrdinal(|doc.observed| + 1), |doc.observed| + 1, 1, target) !in disk.ledger
  }

  lemma OperatorIsDispatched(c: Calendar, disk: Disk, segment: Binding, target: Day, now: int, authority: int)
    requires Ready(c, disk, segment, target, now, authority)
    ensures var doc := VerifyChain(disk.state, disk.observations, SegmentIdentity(segment)).value;
      var inv := Operator(doc, segment, now, authority);
      Decide(c, inv, disk) == Dispatch(doc, segment.session, target, KeyFor(inv, doc, target))
  {
    var id := SegmentIdentity(segment);
    var doc := VerifyChain(disk.state, disk.observations, id).value;
    var inv := Operator(doc, segment, now, authority);
    VerifiedTargetIsNew(c, disk, id);
    LocatedDecision(c, inv, segment.session, disk);
    ClearsExactly(c, inv, segment.session, doc, target, disk);
    VerifiedDispatch(c, inv, segment.session, doc, disk);
  }

  /** The directory verifies with these sessions, the last one served by this market, and one key more. */
  ghost predicate Advanced(disk: Disk, after: Disk, segment: Binding, observed: seq<Day>, market: Market, key: Key) {
    var verified := VerifyChain(after.state, after.observations, SegmentIdentity(segment));
    && verified.Ok? && verified.value.observed == observed
    && verified.value.lastRaw == market.raw && verified.value.lastSplit == market.split
    && after.ledger == disk.ledger + {key}
  }

  /** Inside the acceptance window of the expected session a verified directory with an unused authority
      always admits a commit of exactly that session, and verifies again after it. */
  lemma FreshTargetCommits(
    c: Calendar, disk: Disk, segment: Binding, target: Day, now: int, authority: int, market: Market)
    requires Ready(c, disk, segment, target, now, authority)
    requires AllPositive(market.raw) && AllPositive(market.split) && market.economics
    requires var doc := VerifyChain(disk.state, disk.observations, SegmentIdentity(segment)).value;
      HasBaseline(doc) ==> RatiosKept(doc, market)
    ensures var doc := VerifyChain(disk.state, disk.observations, SegmentIdentity(segment)).value;
      var inv := Operator(doc, segment, now, authority);
      Advanced(disk, Execute(c, disk, inv, Some(market)), segment, doc.observed + [target], market, KeyFor(inv, doc, target))
  {
    var id := SegmentIdentity(segment);
    var doc := VerifyChain(disk.state, disk.observations, id).value;
    var inv := Operator(doc, segment, now, authority);
    OperatorIsDispatched(c, disk, segment, target, now, authority);
    SplitsExactly(doc, market);
    var d := Decide(c, inv, disk);
    var k := CommitFor(inv, d, Some(market)).value;
    DispatchContinues(c, disk, inv, Some(market));
    BurnedCommitContinues(disk, d.key, k);
    CommitKeepsVerified(disk, id, k);
  }

  // ----- The same under a recovery binding -----

  /** A market that can follow another: positive, no step raises on it, every ratio kept. */
  ghost predicate Acceptable(market: Market) {
    AllPositive(market.raw) && AllPositive(market.split) && market.economics
  }

  /** Arguments a faithful operator of a Stage-C directory would pass: the first session as attempt two
      without an authority, later ones like a segment's. */
  function RecoveryOperator(doc: StateDoc, binding: Binding, now: int, authority: int): Invocation {
    var n := |doc.observed| + 1;
    if doc.observed == [] then
      Invocation(None, Some(binding), now, true, false, ForAttempt(1, 2), 1, 2, None, true, true, Absent, true, true)
    else
      Invocation(None, Some(binding), now, true, false, ForOrdinal(n), n, 1, Some(authority), true, true, Bytes(true), true, true)
  }

  function RecoveryIdentity(binding: Binding): Identity {
    Identity(binding.session, None, Some(binding.digest))
  }

  ghost predicate RecoveryReady(c: Calendar, disk: Disk, binding: Binding, target: Day, now: int, authority: int) {
    var verified := VerifyChain(disk.state, disk.observations, RecoveryIdentity(binding));
    && IsSession(c, binding.session) && FAILED_ACTIVATION < binding.session && verified.Ok?
    && var doc := verified.value;
    && Target(c, doc.observed, binding.session) == Found(target)
    && ProcessableAt(c, target, now) && !Forbidden(target) && binding.session <= target
    && KeyFor(RecoveryOperator(doc, binding, now, authority), doc, target) !in disk.ledger
  }

  lemma RecoveryIsDispatched(c: Calendar, disk: Disk, binding: Binding, target: Day, now: int, authority: int)
    requires RecoveryReady(c, disk, binding, target, now, authority)
    ensures var doc := VerifyChain(disk.state, disk.observations, RecoveryIdentity(binding)).value;
      var inv := RecoveryOperator(doc, binding, now, authority);
      Decide(c, inv, disk) == Dispatch(doc, binding.session, target, KeyFor(inv, doc, target))
  {
    var id := RecoveryIdentity(binding);
    var doc := VerifyChain(disk.state, disk.observations, id).value;
    var inv := RecoveryOperator(doc, binding, now, authority);
    VerifiedTargetIsNew(c, disk, id);
    LocatedDecision(c, inv, binding.session, disk);
    ClearsExactly(c, inv, binding.session, doc, target, disk);
    VerifiedDispatch(c, inv, binding.session, doc, disk);
  }

  /** The commit of a dispatched invocation whose market qualifies, and the directory it leaves. */
  lemma CommitOfDecision(c: Calendar, disk: Disk, inv: Invocation, market: Market) returns (k: Commit)
    requires Decide(c, inv, disk).Dispatch? && Acceptable(market)
    requires HasBaseline(Decide(c, inv, disk).doc) ==> RatiosKept(Decide(c, inv, disk).doc, market)
    ensures var d := Decide(c, inv, disk);
      && Continues(disk, IdentityOf(inv, d.activation), k) && k.observation.session == d.target
      && Execute(c, disk, inv, Some(market)) == Burn(Append(disk, k), d.key)
  {
    var d := Decide(c, inv, disk);
    SplitsExactly(d.doc, market);
    k := CommitFor(inv, d, Some(market)).value;
    DispatchContinues(c, disk, inv, Some(market));
    CommitOfDispatch(inv, d, Some(market));
    BurnedCommitContinues(disk, d.key, k);
  }

  /** A Stage-C directory with one session more: the document and the new file carry the binding. */
  ghost predicate RecoveryAdvanced(disk: Disk, after: Disk, binding: Binding, observed: seq<Day>, key: Key) {
    && observed != []
    && after.state.Some? && after.state.value.observed == observed
    && after.state.value.authority == Some(binding.digest) && after.state.value.segment == None
    && var target := observed[|observed| - 1];
    && target in after.observations && after.observations[target].binding == Some(binding.digest)
    && VerifyChain(after.state, after.observations, RecoveryIdentity(binding)).Ok?
    && after.ledger == disk.ledger + {key}
  }

  /** Under a recovery binding too the expected session is always committed: the document then carries the
      binding, and so does the new file. */
  lemma RecoveryCommits(
    c: Calendar, disk: Disk, binding: Binding, target: Day, now: int, authority: int, market: Market)
    requires RecoveryReady(c, disk, binding, target, now, authority) && Acceptable(market)
    requires var doc := VerifyChain(disk.state, disk.observations, RecoveryIdentity(binding)).value;
      HasBaseline(doc) ==> RatiosKept(doc, market)
    ensures var doc := VerifyChain(disk.state, disk.observations, RecoveryIdentity(binding)).value;
      var inv := RecoveryOperator(doc, binding, now, authority);
      RecoveryAdvanced(disk, Execute(c, disk, inv, Some(market)), binding, doc.observed + [target], KeyFor(inv, doc, target))
  {
    var doc := VerifyChain(disk.state, disk.observations, RecoveryIdentity(binding)).value;
    var inv := RecoveryOperator(doc, binding, now, authority);
    RecoveryIsDispatched(c, disk, binding, target, now, authority);
    var k := CommitOfDecision(c, disk, inv, market);
    RecoveryRecorded(disk, binding, k, KeyFor(inv, doc, target));
  }

  lemma RecoveryRecorded(disk: Disk, binding: Binding, k: Commit, key: Key)
    requires Continues(disk, RecoveryIdentity(binding), k)
    ensures var doc := VerifyChain(disk.state, disk.observations, RecoveryIdentity(binding)).value;
      RecoveryAdvanced(disk, Burn(Append(disk, k), key), binding, doc.observed + [k.observation.session], key)
  {
    MergedVerifies(disk, RecoveryIdentity(binding), k);
    VerifiedMeaning(disk.state, disk.observations, RecoveryIdentity(binding));
  }

  /** Session i is the one expected after session i - 1. */
  predicate Follows(c: Calendar, sessions: seq<Day>, i: nat)
    requires 0 < i < |sessions|
  {
    NextExpected(c, sessions[i - 1]) == Found(sessions[i])
  }

  predicate InWindow(c: Calendar, sessions: seq<Day>, clocks: seq<int>, i: nat)
    requires i < |sessions| == |clocks|
  {
    ProcessableAt(c, sessions[i], clocks[i]) && !Forbidden(sessions[i])
  }

  /** Consecutive sessions from the segment's first one. */
  ghost predicate Consecutive(c: Calendar, segment: Binding, sessions: seq<Day>) {
    && IsSession(c, segment.session)
    && (sessions != [] ==> sessions[0] == segment.session)
    && (forall i :: 0 < i < |sessions| ==> Follows(c, sessions, i))
  }

  /** The same, each with a clock reading in its window. */
  ghost predicate Timetable(c: Calendar, segment: Binding, sessions: seq<Day>, clocks: seq<int>) {
    && Consecutive(c, segment, sessions) && |sessions| == |clocks|
    && (forall i :: 0 <= i < |sessions| ==> InWindow(c, sessions, clocks, i))
  }

  lemma ShorterTimetable(c: Calendar, segment: Binding, sessions: seq<Day>, clocks: seq<int>)
    requires Timetable(c, segment, sessions, clocks) && sessions != []
    ensures Timetable(c, segment, sessions[..|sessions| - 1], clocks[..|sessions| - 1])
  {
    var front, times := sessions[..|sessions| - 1], clocks[..|sessions| - 1];
    forall i | 0 < i < |front|
      ensures Follows(c, front, i)
    {
      assert Follows(c, sessions, i);
    }
    forall i | 0 <= i < |front|
      ensures InWindow(c, front, times, i)
    {
      assert InWindow(c, sessions, clocks, i);
    }
  }

  ghost predicate Kept(before: Market, market: Market) {
    forall s: Symbol :: s in before.raw && s in before.split && s in market.raw && s in market.split
      && RatioKept((before.raw[s], before.split[s]), market.raw[s], market.split[s])
  }

  /** Markets for the sessions of a timetable, each keeping the ratios of the one before. */
  ghost predicate Series(markets: seq<Market>) {
    && (forall i :: 0 <= i < |markets| ==> Acceptable(markets[i]))
    && (forall i :: 0 < i < |markets| ==> KeptAt(markets, i))
  }

  ghost predicate KeptAt(markets: seq<Market>, i: nat)
    requires 0 < i < |markets|
  {
    Kept(markets[i - 1], markets[i])
  }

  lemma ShorterSeries(markets: seq<Market>)
    requires Series(markets) && markets != []
    ensures Series(markets[..|markets| - 1])
  {
    var front := markets[..|markets| - 1];
    forall i | 0 < i < |front|
      ensures KeptAt(front, i)
    {
      assert KeptAt(markets, i);
    }
  }

  /** The state of a segment that has observed these sessions on these markets, one authority each. */
  ghost predicate Observing(disk: Disk, segment: Binding, sessions: seq<Day>, markets: seq<Market>) {
    var verified := VerifyChain(disk.state, disk.observations, SegmentIdentity(segment));
    && verified.Ok? && verified.value.observed == sessions && |markets| == |sessions|
    && (markets != [] ==>
          var last := markets[|markets| - 1]; verified.value.lastRaw == last.raw && verified.value.lastSplit == last.split)
    && (forall key | key in disk.ledger :: key.authority.Some? && key.authority.value < |sessions|)
  }

  lemma ObservingIsReady(
    c: Calendar, disk: Disk, segment: Binding, sessions: seq<Day>, clocks: seq<int>, markets: seq<Market>)
    requires Timetable(c, segment, sessions, clocks) && sessions != []
    requires Observing(disk, segment, sessions[..|sessions| - 1], markets)
    ensures Ready(c, disk, segment, sessions[|sessions| - 1], clocks[|sessions| - 1], |sessions| - 1)
  {
    var n := |sessions| - 1;
    FirstIsEarliest(c, segment, sessions, n);
    assert InWindow(c, sessions, clocks, n);
    if n > 0 {
      assert Follows(c, sessions, n) && sessions[..n][n - 1] == sessions[n - 1];
    }
  }

  lemma {:induction false} FirstIsEarliest(c: Calendar, segment: Binding, sessions: seq<Day>, i: nat)
    requires Consecutive(c, segment, sessions) && i < |sessions|
    ensures segment.session <= sessions[i]
    decreases i
  {
    if i > 0 {
      FirstIsEarliest(c, segment, sessions, i - 1);
      assert Follows(c, sessions, i);
      NextIsLater(c, sessions[i - 1], sessions[i]);
    }
  }

  lemma NextIsLater(c: Calendar, d: Day, e: Day)
    requires NextExpected(c, d) == Found(e)
    ensures d < e
  {
  }

  /** The document the chain check accepts for the segment. */
  function DocumentOf(disk: Disk, segment: Binding): StateDoc
    requires VerifyChain(disk.state, disk.observations, SegmentIdentity(segment)).Ok?
  {
    VerifyChain(disk.state, disk.observations, SegmentIdentity(segment)).value
  }

  lemma AdvancedObserves(
    disk: Disk, after: Disk, segment: Binding, before: seq<Day>, target: Day, markets: seq<Market>, market: Market, key: Key)
    requires Observing(disk, segment, before, markets)
    requires Advanced(disk, after, segment, before + [target], market, key) && key.authority == Some(|before|)
    ensures Observing(after, segment, before + [target], markets + [market])
  {
  }

  /** Markets that keep the ratios are accepted after one another. */
  lemma MarketIsAccepted(doc: StateDoc, markets: seq<Market>, market: Market)
    requires Acceptable(market) && |doc.observed| == |markets|
    requires markets != [] ==>
      var last := markets[|markets| - 1]; doc.lastRaw == last.raw && doc.lastSplit == last.split && Kept(last, market)
    ensures HasBaseline(doc) ==> RatiosKept(doc, market)
  {
  }

  lemma ObserveOneMore(
    c: Calendar, disk: Disk, segment: Binding, before: seq<Day>, target: Day, now: int, markets: seq<Market>, market: Market)
    requires Observing(disk, segment, before, markets)
    requires Ready(c, disk, segment, target, now, |before|)
    requires Acceptable(market) && (markets != [] ==> Kept(markets[|markets| - 1], market))
    ensures var inv := Operator(DocumentOf(disk, segment), segment, now, |before|);
      var key := KeyFor(inv, DocumentOf(disk, segment), target);
      Advanced(disk, Execute(c, disk, inv, Some(market)), segment, before + [target], market, key)
  {
    MarketIsAccepted(DocumentOf(disk, segment), markets, market);
    FreshTargetCommits(c, disk, segment, target, now, |before|, market);
  }

  /** The attempt that observes one session more. */
  lemma AttemptAt(
    c: Calendar, disk: Disk, segment: Binding, before: seq<Day>, target: Day, now: int, markets: seq<Market>, market: Market)
    returns (a: Attempt)
    requires Observing(disk, segment, before, markets)
    requires Ready(c, disk, segment, target, now, |before|)
    requires Acceptable(market) && (markets != [] ==> Kept(markets[|markets| - 1], market))
    ensures Observing(AfterAttempt(c, disk, a).disk, segment, before + [target], markets + [market])
  {
    var doc := DocumentOf(disk, segment);
    var inv := Operator(doc, segment, now, |before|);
    a := Attempt(inv, Some(market), TURNS);
    ObserveOneMore(c, disk, segment, before, target, now, markets, market);
    StartedEnds(c, disk, inv, Some(market));
    AdvancedObserves(disk, AfterAttempt(c, disk, a).disk, segment, before, target, markets, market, KeyFor(inv, doc, target));
  }

  lemma LastIsReady(
    c: Calendar, disk: Disk, segment: Binding, sessions: seq<Day>, clocks: seq<int>, before: seq<Day>, markets: seq<Market>)
    requires Timetable(c, segment, sessions, clocks) && sessions != [] && before == sessions[..|sessions| - 1]
    requires |markets| == |sessions| && Series(markets)
    requires Observing(disk, segment, before, markets[..|before|])
    ensures Ready(c, disk, segment, sessions[|before|], clocks[|before|], |before|)
    ensures before != [] ==> Kept(markets[..|before|][|before| - 1], markets[|before|])
  {
    ObservingIsReady(c, disk, segment, sessions, clocks, markets[..|before|]);
    assert before != [] ==> KeptAt(markets, |before|);
  }

  /** The attempt that observes the last session of a timetable. */
  lemma NextAttempt(
    c: Calendar, disk: Disk, segment: Binding, sessions: seq<Day>, clocks: seq<int>, before: seq<Day>, markets: seq<Market>)
    returns (a: Attempt)
    requires Timetable(c, segment, sessions, clocks) && sessions != [] && before == sessions[..|sessions| - 1]
    requires |markets| == |sessions| && Series(markets)
    requires Observing(disk, segment, before, markets[..|before|])
    ensures Observing(AfterAttempt(c, disk, a).disk, segment, before + [sessions[|before|]], markets[..|before|] + [markets[|before|]])
  {
    LastIsReady(c, disk, segment, sessions, clocks, before, markets);
    a := AttemptAt(c, disk, segment, before, sessions[|before|], clocks[|before|], markets[..|before|], markets[|before|]);
  }

  lemma SameObserving(
    disk: Disk, segment: Binding, a: seq<Day>, b: seq<Day>, markets: seq<Market>, others: seq<Market>)
    requires Observing(disk, segment, a, markets) && a == b && markets == others
    ensures Observing(disk, segment, b, others)
  {
  }

  lemma SerialOneMore(c: Calendar, before: seq<Attempt>, a: Attempt)
    ensures Serial(c, before + [a]) == AfterAttempt(c, Serial(c, before), a).disk
  {
    assert (before + [a])[..|before|] == before;
  }

  /** The chain check is passed by directories of every length: any timetable, however long, and any
      positive markets whose ratios are kept, however their prices move, are observed by some serial
      schedule, session by session. */
  lemma {:induction false} EveryTimetableIsObserved(
    c: Calendar, segment: Binding, sessions: seq<Day>, clocks: seq<int>, markets: seq<Market>)
    returns (attempts: seq<Attempt>)
    requires Timetable(c, segment, sessions, clocks) && |markets| == |sessions| && Series(markets)
    ensures Observing(Serial(c, attempts), segment, sessions, markets)
  {
    if sessions == [] {
      attempts := [];
    } else {
      var n := |sessions| - 1;
      ShorterTimetable(c, segment, sessions, clocks);
      ShorterSeries(markets);
      var before := EveryTimetableIsObserved(c, segment, sessions[..n], clocks[..n], markets[..n]);
      var a := NextAttempt(c, Serial(c, before), segment, sessions, clocks, sessions[..n], markets);
      SerialOneMore(c, before, a);
      attempts := before + [a];
      SameObserving(Serial(c, attempts), segment, sessions[..n] + [sessions[n]], sessions,
        markets[..n] + [markets[n]], markets);
    }
  }

  // ----- The registered minimums over every run -----

  /** On the calendar that ends in 2026 no reachable verified directory activated after the
      scientific boundary ever satisfies the registered minimums. */
  lemma MinimumsAreUnreachable(c: Calendar, actions: seq<Action>, expected: Identity)
    requires c.maxYear == 2026 && SCIENTIFIC_BOUNDARY <= expected.activation
    requires var disk := Reached(c, actions).disk; VerifyChain(disk.state, disk.observations, expected).Ok?
    ensures var disk := Reached(c, actions).disk;
      var doc := VerifyChain(disk.state, disk.observations, expected).value;
      && |doc.observed| <= 98 && doc.rebalances == 0
      && !MinimumsSatisfied(|doc.observed|, 0)
  {
    var disk := Reached(c, actions).disk;
    ReachableDocument(c, actions, expected);
    var doc := VerifyChain(disk.state, disk.observations, expected).value;
    if doc.observed != [] {
      OrdinalIsLength(c, doc.lastObservation.value);
      MinimumsUnreachableOnRatifiedCalendar(c, doc.lastObservation.value);
    }
  }
}
