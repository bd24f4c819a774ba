/** The prospective shadow runner as a small-step system: any number of invocations share one
    state directory, interleave between file operations, and may crash at every step. */
module ShadowRunner {
  import opened Common
  import opened NyseCalendar
  import opened ShadowChain

  // ----- The state directory -----

  /** Who a directory belongs to: the activation session, the segment of a V2 directory and the Stage-C
      recovery binding of a V1 one. */
  datatype Identity = Identity(activation: Day, segment: Option<int>, recovery: Option<int>)

  datatype StateDoc = StateDoc(
    activation: Day, segment: Option<int>, authority: Option<int>, observed: seq<Day>, count: int, lastProcessed: Option<Day>,
    lastObservation: Option<Observation>, rebalances: int, lastRaw: Closes, lastSplit: Closes)

  datatype Token = NoToken | ForOrdinal(ordinal: int) | ForAttempt(ordinal: int, attempt: int) | OtherToken

  /** The canonical key of one dispatch attempt; the authority is identified by its file digest. */
  datatype Key = Key(authority: Option<int>, token: Token, ordinal: int, attempt: int, target: Day)

  datatype Disk = Disk(state: Option<StateDoc>, observations: map<Day, Observation>, ledger: set<Key>)

  const EMPTY_DISK := Disk(None, map[], {})

  function InitialState(id: Identity): StateDoc {
    StateDoc(id.activation, id.segment, None, [], 0, None, None, 0, map[], map[])
  }

  datatype Refusal =
    | OrphanObservations | ActivationMismatch | SegmentMismatch | RecoveryAuthorityMismatch
    | InitialStateNotPristine | SessionsUnordered | ObservationMissing | BrokenLink | BindingMismatch
    | LastDigestMismatch | LastSessionMismatch | CountMismatch
    | NoActivation | RecoveryBindingRequired
    | AuthorizationRequired | OrdinalMismatch | AttemptMismatch | TokenMismatch
    | AuthorityRequired | AuthorityUnreadable | NoNextSession | Replay
    | CorporateActionsRequired | AuthorityBindingUnavailable | AuthorityInvalid
    | CorporateActionsInvalid | EvidenceBundleInvalid
    | Stale | Backfill | DuplicateSession | OutOfOrder | BeforeActivation | NotASession
    | RecentStress | Quarantine | Incomplete | NotYetAccessible

  // ----- verify_chain -----

  predicate Ascending(s: seq<Day>) {
    forall i, j :: 0 <= i < j < |s| ==> s[i] <= s[j]
  }

  /** The sorted list of file stems equals the observed list. */
  predicate FilesMatch(observed: seq<Day>, observations: map<Day, Observation>) {
    && (forall i, j :: 0 <= i < j < |observed| ==> observed[i] < observed[j])
    && observations.Keys == (set d | d in observed)
  }

  /** Walk the chain from position i; the running value is the digest of the previous file. */
  function WalkChain(
    observed: seq<Day>, observations: map<Day, Observation>, recovery: Option<int>, i: nat, previous: Option<Observation>)
    : Result<Option<Observation>, Refusal>
    requires i <= |observed|
    decreases |observed| - i
  {
    if i == |observed| then Ok(previous)
    else if observed[i] !in observations then Err(ObservationMissing)
    else if observations[observed[i]].previous != previous then Err(BrokenLink)
    else if recovery.Some? && observations[observed[i]].binding != recovery then Err(BindingMismatch)
    else WalkChain(observed, observations, recovery, i + 1, Some(observations[observed[i]]))
  }

  predicate Pristine(doc: StateDoc) {
    doc.count == 0 && doc.lastProcessed == None && doc.lastObservation == None && doc.rebalances == 0 && doc.authority == None
  }

  function LastOf(s: seq<Day>): Option<Day> {
    if s == [] then None else Some(s[|s| - 1])
  }

  /** Refusals before the walk over the files. */
  function HeadRefusal(doc: StateDoc, expected: Identity): Option<Refusal> {
    if doc.activation != expected.activation then Some(ActivationMismatch)
    else if doc.segment != expected.segment then Some(SegmentMismatch)
    else if doc.observed == [] && !Pristine(doc) then Some(InitialStateNotPristine)
    else if doc.observed != [] && doc.authority != expected.recovery then Some(RecoveryAuthorityMismatch)
    else None
  }

  /** Refusals after it. */
  function TailRefusal(doc: StateDoc, last: Option<Observation>, observations: map<Day, Observation>): Option<Refusal> {
    if doc.lastObservation != last then Some(LastDigestMismatch)
    else if doc.lastProcessed != LastOf(doc.observed) then Some(LastSessionMismatch)
    else if doc.count != |doc.observed| then Some(CountMismatch)
    else if !FilesMatch(doc.observed, observations) then Some(OrphanObservations)
    else None
  }

  function VerifyDocument(doc: StateDoc, observations: map<Day, Observation>, expected: Identity): Result<StateDoc, Refusal> {
    var head := HeadRefusal(doc, expected);
    if head.Some? then Err(head.value)
    else if !Ascending(doc.observed) then Err(SessionsUnordered)
    else
      match WalkChain(doc.observed, observations, expected.recovery, 0, None)
      case Err(e) => Err(e)
      case Ok(last) =>
        var tail := TailRefusal(doc, last, observations);
        if tail.Some? then Err(tail.value) else Ok(doc)
  }

  /** The chain check of a directory nobody is writing to. */
  function VerifyChain(state: Option<StateDoc>, observations: map<Day, Observation>, expected: Identity): Result<StateDoc, Refusal> {
    match state
    case None => if observations != map[] then Err(OrphanObservations) else Ok(InitialState(expected))
    case Some(doc) => VerifyDocument(doc, observations, expected)
  }

  // ----- One invocation's arguments -----

  datatype Evidence = Absent | Unreadable | Empty | Bytes(valid: bool)

  /** A ratified activation session and the digest of the document that names it. */
  datatype Binding = Binding(session: Day, digest: int)

  datatype Invocation = Invocation(
    segment: Option<Binding>,      // V2: the segment activation authority
    recovery: Option<Binding>,     // V1: the Stage-C binding, if one exists
    now: int, execute: bool, preflight: bool,
    token: Token, ordinal: int, attempt: int,
    authority: Option<int>, authorityReadable: bool, authorityValid: bool,
    corporateActions: Evidence, bundleValid: bool, credentials: bool)

  const STAGE_B_ACTIVATION: int := 739887                                  // 2026-09-28
  const FAILED_ACTIVATION: int := 739887
  const FAILED_DISPATCH_AT: int := 739887 * DAY + (20 * 60 + 10) * MINUTE  // 20:10 UTC that day

  function ActivationFor(c: Calendar, inv: Invocation, committed: nat): Result<Day, Refusal> {
    if inv.segment.Some? then
      if IsSession(c, inv.segment.value.session) then Ok(inv.segment.value.session) else Err(NoActivation)
    else if inv.recovery.Some? then
      if FAILED_ACTIVATION < inv.recovery.value.session && IsSession(c, inv.recovery.value.session)
      then Ok(inv.recovery.value.session) else Err(NoActivation)
    else if committed == 0 && FAILED_DISPATCH_AT <= inv.now then Err(RecoveryBindingRequired)
    else Ok(STAGE_B_ACTIVATION)
  }

  /** The identity the chain check demands of the directory. */
  function IdentityOf(inv: Invocation, activation: Day): Identity {
    if inv.segment.Some? then Identity(activation, Some(inv.segment.value.digest), None)
    else Identity(activation, None, if inv.recovery.Some? then Some(inv.recovery.value.digest) else None)
  }

  predicate IsRecovery(inv: Invocation, activation: Day, observed: seq<Day>) {
    inv.segment.None? && observed == [] && activation > FAILED_ACTIVATION
  }

  function ExpectedToken(inv: Invocation, activation: Day, observed: seq<Day>): Token {
    if IsRecovery(inv, activation, observed) then ForAttempt(|observed| + 1, 2) else ForOrdinal(|observed| + 1)
  }

  predicate AttemptAccepted(inv: Invocation, activation: Day, observed: seq<Day>) {
    if IsRecovery(inv, activation, observed) then inv.attempt == 2 else inv.attempt == 0 || inv.attempt == 1
  }

  /** `_expected_next`: the activation session, then only ever the next trading session. */
  function Target(c: Calendar, observed: seq<Day>, activation: Day): Search {
    if observed == [] then Found(activation) else NextExpected(c, observed[|observed| - 1])
  }

  // ----- The gates, in order -----

  datatype Outcome =
    | DryRun | Refused(reason: Refusal) | AlreadyProcessed | MissingCredentials | PreflightPassed
    | Dispatch(doc: StateDoc, activation: Day, target: Day, key: Key)

  /** Authority and corporate-action gates between the replay check and the credential check. */
  function EvidenceRefusal(inv: Invocation, observed: seq<Day>): Option<Refusal> {
    var bytes := observed != [] && inv.corporateActions.Bytes?;
    if observed != [] && inv.corporateActions in {Absent, Unreadable} then Some(CorporateActionsRequired)
    else if inv.authority.Some? && !bytes && !(inv.segment.Some? && observed == []) then Some(AuthorityBindingUnavailable)
    else if inv.authority.Some? && !inv.authorityValid then Some(AuthorityInvalid)
    else if observed != [] && !(bytes && inv.corporateActions.valid) then Some(CorporateActionsInvalid)
    else if observed != [] && !inv.bundleValid then Some(EvidenceBundleInvalid)
    else None
  }

  /** `ShadowState.record_session`. */
  function RecordRefusal(c: Calendar, activation: Day, observed: seq<Day>, target: Day, now: int): Option<Refusal> {
    if target in observed then Some(DuplicateSession)
    else if observed != [] && target <= observed[|observed| - 1] then Some(OutOfOrder)
    else if target < activation then Some(BeforeActivation)
    else if !IsSession(c, target) then Some(NotASession)
    else if RECENT_STRESS_START <= target <= RECENT_STRESS_END then Some(RecentStress)
    else if QUARANTINE_START <= target < SCIENTIFIC_BOUNDARY then Some(Quarantine)
    else if now <= Close(c, target) then Some(Incomplete)
    else None
  }

  /** Authorization gates and the only legal target, from the verified document alone. */
  function Aim(c: Calendar, inv: Invocation, activation: Day, doc: StateDoc): Result<Day, Refusal> {
    var observed := doc.observed;
    match TokenRefusal(inv, activation, observed)
    case Some(reason) => Err(reason)
    case None =>
      match Target(c, observed, activation)
      case Found(target) => Ok(target)
      case _ => Err(NoNextSession)
  }

  function TokenRefusal(inv: Invocation, activation: Day, observed: seq<Day>): Option<Refusal> {
    if inv.token.NoToken? then Some(AuthorizationRequired)
    else if inv.ordinal != |observed| + 1 then Some(OrdinalMismatch)
    else if !AttemptAccepted(inv, activation, observed) then Some(AttemptMismatch)
    else if inv.token != ExpectedToken(inv, activation, observed) then Some(TokenMismatch)
    else if (inv.segment.Some? || observed != []) && inv.authority.None? then Some(AuthorityRequired)
    else if inv.authority.Some? && !inv.authorityReadable then Some(AuthorityUnreadable)
    else None
  }

  function KeyFor(inv: Invocation, doc: StateDoc, target: Day): Key {
    Key(inv.authority, inv.token, |doc.observed| + 1, inv.attempt, target)
  }

  /** Every gate after the two file tests; `successor` is the session after the target. */
  function Admit(c: Calendar, inv: Invocation, activation: Day, doc: StateDoc, target: Day, successor: Search): Outcome {
    match EvidenceRefusal(inv, doc.observed)
    case Some(reason) => Refused(reason)
    case None =>
      if !inv.credentials then MissingCredentials
      else if !successor.Found? then Refused(NoNextSession)
      else if Open(c, successor.day) <= inv.now then Refused(Stale)
      else if target < activation then Refused(Backfill)
      else match RecordRefusal(c, activation, doc.observed, target, inv.now)
        case Some(reason) => Refused(reason)
        case None =>
          if inv.now <= EligibleAfter(c, target) then Refused(NotYetAccessible)
          else if inv.preflight then PreflightPassed
          else Dispatch(doc, activation, target, KeyFor(inv, doc, target))
  }

  // The rest of an invocation's decision from each point at which it reads the directory, should nobody
  // write to it any more.

  function DecideUnspent(c: Calendar, inv: Invocation, activation: Day, doc: StateDoc, target: Day, disk: Disk): Outcome {
    if target in disk.observations then AlreadyProcessed
    else Admit(c, inv, activation, doc, target, Successor(c, target))
  }

  function DecideVerified(c: Calendar, inv: Invocation, activation: Day, doc: StateDoc, disk: Disk): Outcome {
    match Aim(c, inv, activation, doc)
    case Err(reason) => Refused(reason)
    case Ok(target) =>
      if KeyFor(inv, doc, target) in disk.ledger then Refused(Replay)
      else DecideUnspent(c, inv, activation, doc, target, disk)
  }

  function DecideLoaded(c: Calendar, inv: Invocation, activation: Day, doc: StateDoc, disk: Disk): Outcome {
    match VerifyDocument(doc, disk.observations, IdentityOf(inv, activation))
    case Err(reason) => Refused(reason)
    case Ok(_) => DecideVerified(c, inv, activation, doc, disk)
  }

  function DecideListed(c: Calendar, inv: Invocation, activation: Day, bare: bool, disk: Disk): Outcome {
    match disk.state
    case None =>
      if bare then DecideVerified(c, inv, activation, InitialState(IdentityOf(inv, activation)), disk)
      else Refused(OrphanObservations)
    case Some(doc) => DecideLoaded(c, inv, activation, doc, disk)
  }

  function DecideLocated(c: Calendar, inv: Invocation, activation: Day, disk: Disk): Outcome {
    DecideListed(c, inv, activation, disk.observations == map[], disk)
  }

  function Committed(disk: Disk): nat {
    if disk.state.Some? then |disk.state.value.observed| else 0
  }

  /** The whole pre-network part of an invocation nobody disturbs. */
  function Decide(c: Calendar, inv: Invocation, disk: Disk): Outcome {
    if !inv.execute && !inv.preflight then DryRun
    else match ActivationFor(c, inv, Committed(disk))
      case Err(reason) => Refused(reason)
      case Ok(activation) => DecideLocated(c, inv, activation, disk)
  }

  // ----- After the network -----

  /** Closes of the six series, and whether the portfolio and benchmark steps went through. */
  datatype Market = Market(raw: Closes, split: Closes, economics: bool)

  /** What one successful invocation writes. */
  datatype Commit = Commit(identity: Identity, observation: Observation, rebalances: int)

  function SplitStatuses(market: Market, prior: map<Symbol, (real, real)>): Option<map<Symbol, SplitStatus>>
    requires AllPositive(market.raw) && AllPositive(market.split)
  {
    var a := CheckSplitContinuity(ACWI, market.raw, market.split, prior);
    var b := CheckSplitContinuity(AGG, market.raw, market.split, prior);
    var s := CheckSplitContinuity(SPY, market.raw, market.split, prior);
    if a.Err? || b.Err? || s.Err? then None
    else Some(map[ACWI := a.value, AGG := b.value, SPY := s.value])
  }

  /** The observation of a qualified market, and the counter that goes with it. */
  function CommitOf(
    inv: Invocation, activation: Day, doc: StateDoc, target: Day, market: Market, statuses: map<Symbol, SplitStatus>): Commit
  {
    var id := IdentityOf(inv, activation);
    var transaction := TransactionFor(target, doc.observed);
    var before := if doc.observed == [] then 0 else doc.rebalances;
    var previous := if doc.observed == [] then None else doc.lastObservation;
    Commit(id,
      Observation(target, |doc.observed| + 1, inv.now, transaction, statuses, market.raw, market.split, id.recovery, previous),
      before + if transaction.ScheduledAnnualRebalance? then 1 else 0)
  }

  function PriorOf(doc: StateDoc): map<Symbol, (real, real)> {
    if doc.observed == [] then map[] else PriorCloses(doc.lastRaw, doc.lastSplit)
  }

  /** Qualification and the observation it leads to; None when anything raised. Bars are strictly
      positive by construction of the bar type, so a malformed response never gets this far. */
  function Qualify(inv: Invocation, activation: Day, doc: StateDoc, target: Day, response: Option<Market>): Option<Commit> {
    match response
    case None => None
    case Some(market) =>
      if !AllPositive(market.raw) || !AllPositive(market.split) || !market.economics then None
      else
        match SplitStatuses(market, PriorOf(doc))
        case None => None
        case Some(statuses) => Some(CommitOf(inv, activation, doc, target, market, statuses))
  }

  /** The observation file is in place. */
  function Filed(disk: Disk, k: Commit): Disk {
    disk.(observations := disk.observations[k.observation.session := k.observation])
  }

  /** The state document `append_observation` reads again before it writes. */
  function BaseOf(disk: Disk, k: Commit): StateDoc {
    if disk.state.Some? then disk.state.value else InitialState(k.identity)
  }

  /** Refusals of `append_observation` after its observation file is written. */
  predicate Rejected(base: StateDoc, k: Commit) {
    || (k.identity.recovery.Some? && base.authority.Some? && base.authority != k.identity.recovery)
    || k.observation.session in base.observed
  }

  /** The state document written over the one read again. */
  function MergedState(base: StateDoc, k: Commit): StateDoc {
    var session := k.observation.session;
    StateDoc(k.identity.activation, base.segment,
      if k.identity.recovery.Some? then k.identity.recovery else base.authority,
      base.observed + [session], base.count + 1, Some(session), Some(k.observation),
      k.rebalances, k.observation.raw, k.observation.split)
  }

  function Merged(disk: Disk, base: StateDoc, k: Commit): Disk {
    if Rejected(base, k) then disk else disk.(state := Some(MergedState(base, k)))
  }

  // ----- Interleaved execution -----

  /** Program counter of one invocation between two file operations. Its arguments, and what it has read
      so far, are all it carries. */
  datatype Proc =
    | Started(inv: Invocation)
    | Located(inv: Invocation, activation: Day)                                            // counted the commits
    | Listed(inv: Invocation, activation: Day, bare: bool)                                 // listed the files
    | Loaded(inv: Invocation, activation: Day, doc: StateDoc)                              // read state.json
    | Verified(inv: Invocation, activation: Day, doc: StateDoc)                            // walked the chain
    | Unspent(inv: Invocation, doc: StateDoc, activation: Day, target: Day)                // ledger entry absent
    | Skipped(target: Day)                                                                 // exit: already processed
    | Cleared(inv: Invocation, doc: StateDoc, activation: Day, target: Day, key: Key)      // file absent, every gate passed
    | Burned(inv: Invocation, doc: StateDoc, activation: Day, target: Day, key: Key)       // ledger entry created
    | Qualified(commit: Commit)                                                            // fetched and qualified
    | Checked(commit: Commit)                                                              // observation file absent
    | Written(commit: Commit)                                                              // observation file in place
    | Merging(commit: Commit, base: StateDoc)                                              // read state.json again
    | Ended

  datatype Event = Consumed(key: Key) | Fetched(key: Key)

  datatype System = System(disk: Disk, procs: map<nat, Proc>, events: seq<Event>)

  datatype Action = Spawn(pid: nat, inv: Invocation) | Crash(pid: nat) | Advance(pid: nat, response: Option<Market>)

  datatype Effect = Effect(disk: Disk, proc: Proc, events: seq<Event>)

  function Clearance(inv: Invocation, outcome: Outcome): Proc {
    match outcome
    case Dispatch(doc, activation, target, key) => Cleared(inv, doc, activation, target, key)
    case _ => Ended
  }

  /** The reading steps of one invocation. */
  function Read(c: Calendar, disk: Disk, p: Proc): Proc {
    match p
    case Started(inv) =>
      if !inv.execute && !inv.preflight then Ended
      else (match ActivationFor(c, inv, Committed(disk))
            case Err(_) => Ended
            case Ok(activation) => Located(inv, activation))
    case Located(inv, activation) => Listed(inv, activation, disk.observations == map[])
    case Listed(inv, activation, bare) =>
      (match disk.state
       case None => if bare then Verified(inv, activation, InitialState(IdentityOf(inv, activation))) else Ended
       case Some(doc) => Loaded(inv, activation, doc))
    case Loaded(inv, activation, doc) =>
      if VerifyDocument(doc, disk.observations, IdentityOf(inv, activation)).Ok? then Verified(inv, activation, doc)
      else Ended
    case Verified(inv, activation, doc) =>
      (match Aim(c, inv, activation, doc)
       case Err(_) => Ended
       case Ok(target) =>
         if KeyFor(inv, doc, target) in disk.ledger then Ended else Unspent(inv, doc, activation, target))
    case Unspent(inv, doc, activation, target) =>
      if target in disk.observations then Skipped(target)
      else Clearance(inv, Admit(c, inv, activation, doc, target, Successor(c, target)))
    case _ => p
  }

  predicate Reading(p: Proc) {
    p.Started? || p.Located? || p.Listed? || p.Loaded? || p.Verified? || p.Unspent?
  }

  predicate Stopped(p: Proc) {
    p.Ended? || p.Skipped?
  }

  function AdvanceProc(c: Calendar, disk: Disk, p: Proc, response: Option<Market>): Effect {
    match p
    case Cleared(inv, doc, activation, target, key) =>
      if key in disk.ledger then Effect(disk, Ended, [])
      else Effect(disk.(ledger := disk.ledger + {key}), Burned(inv, doc, activation, target, key), [Consumed(key)])
    case Burned(inv, doc, activation, target, key) =>
      (match Qualify(inv, activation, doc, target, response)
       case None => Effect(disk, Ended, [Fetched(key)])
       case Some(k) => Effect(disk, Qualified(k), [Fetched(key)]))
    case Qualified(k) => Effect(disk, if k.observation.session in disk.observations then Ended else Checked(k), [])
    case Checked(k) => Effect(Filed(disk, k), Written(k), [])
    case Written(k) => Effect(disk, Merging(k, BaseOf(disk, k)), [])
    case Merging(k, base) => Effect(Merged(disk, base, k), Ended, [])
    case _ => Effect(disk, Read(c, disk, p), [])
  }

  function Applied(s: System, pid: nat, e: Effect): System {
    System(e.disk, s.procs[pid := e.proc], s.events + e.events)
  }

  function Step(c: Calendar, s: System, a: Action): System {
    match a
    case Spawn(pid, inv) => if pid in s.procs then s else s.(procs := s.procs[pid := Started(inv)])
    case Crash(pid) => if pid in s.procs then s.(procs := s.procs[pid := Ended]) else s
    case Advance(pid, response) =>
      if pid !in s.procs then s
      else Applied(s, pid, AdvanceProc(c, s.disk, s.procs[pid], response))
  }

  function Run(c: Calendar, s: System, actions: seq<Action>): System
    decreases |actions|
  {
    if actions == [] then s else Run(c, Step(c, s, actions[0]), actions[1..])
  }

  const START := System(EMPTY_DISK, map[], [])

  /** The system after any interleaving of invocations and crashes from an empty directory. */
  function Reached(c: Calendar, actions: seq<Action>): System {
    Run(c, START, actions)
  }
}
