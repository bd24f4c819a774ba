/** What the pre-network gates guarantee, for every argument and every directory. */
module ShadowGates {
  import opened Common
  import opened NyseCalendar
  import opened ShadowChain
  import opened ShadowRunner

  /** The verified document is the one on disk, and its observation files are exactly its sessions. */
  lemma VerifiedMeaning(state: Option<StateDoc>, observations: map<Day, Observation>, expected: Identity)
    requires VerifyChain(state, observations, expected).Ok?
    ensures var doc := VerifyChain(state, observations, expected).value;
      && doc == (if state.Some? then state.value else InitialState(expected))
      && doc.activation == expected.activation && doc.segment == expected.segment
      && doc.authority == (if doc.observed == [] then None else expected.recovery)
      && FilesMatch(doc.observed, observations)
      && doc.count == |doc.observed| && doc.lastProcessed == LastOf(doc.observed)
      && (doc.observed == [] ==> doc.lastObservation == None && doc.rebalances == 0)
      && WalkChain(doc.observed, observations, expected.recovery, 0, None) == Ok(doc.lastObservation)
  {
  }

  // ----- Exactly what the chain check accepts -----

  /** The file of position i is there, names the file before it, and carries the recovery binding if one is
      demanded. */
  ghost predicate FileFits(observed: seq<Day>, observations: map<Day, Observation>, recovery: Option<int>, i: nat)
    requires i < |observed|
  {
    && observed[i] in observations
    && (if i == 0 then observations[observed[0]].previous == None
        else observed[i - 1] in observations && observations[observed[i]].previous == Some(observations[observed[i - 1]]))
    && (recovery.Some? ==> observations[observed[i]].binding == recovery)
  }

  ghost predicate FilesFit(observed: seq<Day>, observations: map<Day, Observation>, recovery: Option<int>, from: nat) {
    forall i :: from <= i < |observed| ==> FileFits(observed, observations, recovery, i)
  }

  /** The file of the last session, if there is one. */
  ghost predicate IsLastFile(observed: seq<Day>, observations: map<Day, Observation>, last: Option<Observation>) {
    if observed == [] then last == None
    else observed[|observed| - 1] in observations && last == Some(observations[observed[|observed| - 1]])
  }

  lemma {:induction false} WalkExactly(
    observed: seq<Day>, observations: map<Day, Observation>, recovery: Option<int>, i: nat, previous: Option<Observation>)
    requires i <= |observed| && IsLastFile(observed[..i], observations, previous)
    ensures var r := WalkChain(observed, observations, recovery, i, previous);
      && (r.Ok? <==> FilesFit(observed, observations, recovery, i))
      && (r.Ok? ==> IsLastFile(observed, observations, r.value))
    decreases |observed| - i
  {
    if i == |observed| {
      assert observed[..i] == observed;
    } else {
      assert FilesFit(observed, observations, recovery, i) <==>
        FileFits(observed, observations, recovery, i) && FilesFit(observed, observations, recovery, i + 1);
      if FileFits(observed, observations, recovery, i) {
        assert IsLastFile(observed[..i + 1], observations, Some(observations[observed[i]]));
        WalkExactly(observed, observations, recovery, i + 1, Some(observations[observed[i]]));
      }
    }
  }

  /** A state document that fits its files: identity, sessions, links, bindings and totals. */
  ghost predicate DocumentFits(doc: StateDoc, observations: map<Day, Observation>, expected: Identity) {
    var observed := doc.observed;
    && doc.activation == expected.activation && doc.segment == expected.segment
    && doc.authority == (if observed == [] then None else expected.recovery)
    && (forall i, j :: 0 <= i < j < |observed| ==> observed[i] < observed[j])
    && (forall d :: d in observations <==> d in observed)
    && FilesFit(observed, observations, expected.recovery, 0)
    && IsLastFile(observed, observations, doc.lastObservation)
    && doc.lastProcessed == (if observed == [] then None else Some(observed[|observed| - 1]))
    && doc.count == |observed|
    && (observed == [] ==> doc.rebalances == 0)
  }

  /** Exactly which directories pass: a bare one without a document, or a document that fits. */
  lemma VerifiesExactly(state: Option<StateDoc>, observations: map<Day, Observation>, expected: Identity)
    ensures VerifyChain(state, observations, expected).Ok? <==>
      match state
      case None => observations == map[]
      case Some(doc) => DocumentFits(doc, observations, expected)
  {
    if state.Some? {
      WalkExactly(state.value.observed, observations, expected.recovery, 0, None);
      SameKeys(state.value.observed, observations);
    }
  }

  lemma SameKeys(observed: seq<Day>, observations: map<Day, Observation>)
    ensures observations.Keys == (set d | d in observed) <==> forall d :: d in observations <==> d in observed
  {
    assert forall d :: d in observations.Keys <==> d in observations;
  }

  // ----- Decisions -----

  /** An undisturbed invocation decides on the document its chain check accepts. */
  lemma LocatedDecision(c: Calendar, inv: Invocation, activation: Day, disk: Disk)
    ensures DecideLocated(c, inv, activation, disk) ==
      match VerifyChain(disk.state, disk.observations, IdentityOf(inv, activation))
      case Err(reason) => Refused(reason)
      case Ok(doc) => DecideVerified(c, inv, activation, doc, disk)
  {
    var id := IdentityOf(inv, activation);
    match disk.state {
      case None =>
      case Some(doc) => assert VerifyDocument(doc, disk.observations, id).Ok? ==> VerifyDocument(doc, disk.observations, id).value == doc;
    }
  }

  /** Facts of a target every gate admitted. */
  predicate Admissible(c: Calendar, inv: Invocation, doc: StateDoc, target: Day) {
    && ProcessableAt(c, target, inv.now) && !Forbidden(target) && !inv.preflight
    && (doc.observed != [] ==> inv.corporateActions == Bytes(true) && inv.bundleValid)
    && (inv.authority.Some? ==> inv.authorityValid)
  }

  lemma AdmitDispatch(c: Calendar, inv: Invocation, activation: Day, doc: StateDoc, target: Day)
    requires Admit(c, inv, activation, doc, target, Successor(c, target)).Dispatch?
    ensures Admit(c, inv, activation, doc, target, Successor(c, target))
         == Dispatch(doc, activation, target, KeyFor(inv, doc, target))
    ensures Admissible(c, inv, doc, target) && activation <= target && target !in doc.observed
  {
    WindowsAreOrdered(c, target, target + 1);
  }

  lemma VerifiedDispatch(c: Calendar, inv: Invocation, activation: Day, doc: StateDoc, disk: Disk)
    requires DecideVerified(c, inv, activation, doc, disk).Dispatch?
    ensures var d := DecideVerified(c, inv, activation, doc, disk);
      && d == Dispatch(doc, activation, d.target, KeyFor(inv, doc, d.target))
      && Aim(c, inv, activation, doc) == Ok(d.target)
      && d.key !in disk.ledger && d.target !in disk.observations
      && Admissible(c, inv, doc, d.target)
  {
    var target := Aim(c, inv, activation, doc).value;
    AdmitDispatch(c, inv, activation, doc, target);
  }

  lemma AimMeaning(c: Calendar, inv: Invocation, activation: Day, doc: StateDoc)
    requires Aim(c, inv, activation, doc).Ok?
    ensures Target(c, doc.observed, activation) == Found(Aim(c, inv, activation, doc).value)
    ensures inv.ordinal == |doc.observed| + 1
    ensures doc.observed != [] || inv.segment.Some? ==> inv.authority.Some?
  {
  }

  /** Everything a dispatched invocation can rely on, when nobody disturbs it. */
  lemma DispatchMeaning(c: Calendar, inv: Invocation, disk: Disk)
    requires Decide(c, inv, disk).Dispatch?
    ensures var d := Decide(c, inv, disk);
      && ActivationFor(c, inv, Committed(disk)) == Ok(d.activation) && inv.execute
      && VerifyChain(disk.state, disk.observations, IdentityOf(inv, d.activation)) == Ok(d.doc)
      && Aim(c, inv, d.activation, d.doc) == Ok(d.target)
      && d.key == KeyFor(inv, d.doc, d.target)
      && d.key !in disk.ledger && d.target !in disk.observations
      && Admissible(c, inv, d.doc, d.target)
  {
    var activation := ActivationFor(c, inv, Committed(disk)).value;
    LocatedDecision(c, inv, activation, disk);
    var doc := VerifyChain(disk.state, disk.observations, IdentityOf(inv, activation)).value;
    VerifiedDispatch(c, inv, activation, doc, disk);
  }

  /** The second attempt of a first session after 28 September 2026 names itself; every other session is
      authorised by its ordinal alone, as attempt one or unnumbered. */
  predicate TokenFits(inv: Invocation, activation: Day, observed: seq<Day>) {
    if inv.segment.None? && observed == [] && 739887 < activation then inv.token == ForAttempt(1, 2) && inv.attempt == 2
    else inv.token == ForOrdinal(|observed| + 1) && inv.attempt in {0, 1}
  }

  /** The arguments that clear a target, said without the order of the gates. */
  predicate Clears(c: Calendar, inv: Invocation, activation: Day, doc: StateDoc, disk: Disk, target: Day) {
    var observed := doc.observed;
    var first := observed == [];
    && inv.ordinal == |observed| + 1 && TokenFits(inv, activation, observed)
    && KeyFor(inv, doc, target) !in disk.ledger && inv.credentials && !inv.preflight
    && ProcessableAt(c, target, inv.now) && !Forbidden(target) && activation <= target && target !in observed
    && (if first then inv.authority.Some? == inv.segment.Some?
        else inv.authority.Some? && inv.corporateActions == Bytes(true) && inv.bundleValid)
    && (inv.authority.Some? ==> inv.authorityReadable && inv.authorityValid)
  }

  /** Exactly when an undisturbed invocation reaches the network. Without a segment a first session must
      come with the bare token alone: a supplied authority has no evidence to bind and is refused. */
  lemma DispatchExactly(c: Calendar, inv: Invocation, disk: Disk)
    ensures Decide(c, inv, disk).Dispatch? <==>
      var activation := ActivationFor(c, inv, Committed(disk));
      && inv.execute && activation.Ok?
      && var verified := VerifyChain(disk.state, disk.observations, IdentityOf(inv, activation.value));
      && verified.Ok?
      && var target := Target(c, verified.value.observed, activation.value);
      && target.Found? && Clears(c, inv, activation.value, verified.value, disk, target.day)
  {
    var activation := ActivationFor(c, inv, Committed(disk));
    if activation.Ok? {
      LocatedDecision(c, inv, activation.value, disk);
      var verified := VerifyChain(disk.state, disk.observations, IdentityOf(inv, activation.value));
      if verified.Ok? && Target(c, verified.value.observed, activation.value).Found? {
        var target := Target(c, verified.value.observed, activation.value).day;
        VerifiedTargetIsNew(c, disk, IdentityOf(inv, activation.value));
        ClearsExactly(c, inv, activation.value, verified.value, target, disk);
      }
    }
  }

  lemma AdmitExactly(c: Calendar, inv: Invocation, activation: Day, doc: StateDoc, target: Day)
    ensures Admit(c, inv, activation, doc, target, Successor(c, target)).Dispatch? <==>
      && EvidenceRefusal(inv, doc.observed).None? && inv.credentials && !inv.preflight
      && activation <= target && RecordRefusal(c, activation, doc.observed, target, inv.now).None?
      && Successor(c, target).Found? && EligibleAfter(c, target) < inv.now < Open(c, Successor(c, target).day)
  {
  }

  lemma RecordExactly(c: Calendar, activation: Day, observed: seq<Day>, target: Day, now: int)
    requires Target(c, observed, activation) == Found(target) && EligibleAfter(c, target) < now
    ensures activation <= target && RecordRefusal(c, activation, observed, target, now).None? <==>
      activation <= target && target !in observed && IsSession(c, target) && !Forbidden(target)
  {
    WindowsAreOrdered(c, target, target + 1);
  }

  lemma EvidenceExactly(inv: Invocation, activation: Day, observed: seq<Day>)
    ensures TokenRefusal(inv, activation, observed).None? && EvidenceRefusal(inv, observed).None? <==>
      && inv.ordinal == |observed| + 1 && TokenFits(inv, activation, observed)
      && (if observed == [] then inv.authority.Some? == inv.segment.Some?
          else inv.authority.Some? && inv.corporateActions == Bytes(true) && inv.bundleValid)
      && (inv.authority.Some? ==> inv.authorityReadable && inv.authorityValid)
  {
  }

  lemma ClearsExactly(c: Calendar, inv: Invocation, activation: Day, doc: StateDoc, target: Day, disk: Disk)
    requires Target(c, doc.observed, activation) == Found(target)
    requires target !in disk.observations && target !in doc.observed
    ensures DecideVerified(c, inv, activation, doc, disk).Dispatch? <==> Clears(c, inv, activation, doc, disk, target)
  {
    AdmitExactly(c, inv, activation, doc, target);
    EvidenceExactly(inv, activation, doc.observed);
    if EligibleAfter(c, target) < inv.now {
      RecordExactly(c, activation, doc.observed, target, inv.now);
    }
    if TokenRefusal(inv, activation, doc.observed).None? {
      assert Aim(c, inv, activation, doc) == Ok(target);
    }
  }

  /** Two dispatch attempts share a ledger key exactly when they agree on the authority file, the token, the
      ordinal, the attempt number and the target. */
  lemma KeysAgree(a: Invocation, docA: StateDoc, targetA: Day, b: Invocation, docB: StateDoc, targetB: Day)
    ensures KeyFor(a, docA, targetA) == KeyFor(b, docB, targetB) <==>
      && a.authority == b.authority && a.token == b.token && |docA.observed| == |docB.observed|
      && a.attempt == b.attempt && targetA == targetB
  {
  }

  /** Exactly which activation session an invocation works for: a segment's own, if the calendar trades on it;
      a recovery binding's, if it trades and is later than 28 September 2026; without either that day itself,
      until 20:10 UTC on it finds nothing committed. */
  lemma ActivationExactly(c: Calendar, inv: Invocation, committed: nat, a: Day)
    ensures var day := DaysBefore(2026) + 271;
      ActivationFor(c, inv, committed) == Ok(a) <==>
        || (inv.segment.Some? && a == inv.segment.value.session && IsSession(c, a))
        || (inv.segment.None? && inv.recovery.Some? && a == inv.recovery.value.session && day < a && IsSession(c, a))
        || (inv.segment.None? && inv.recovery.None? && a == day
            && (committed > 0 || inv.now < day * DAY + (20 * 60 + 10) * MINUTE))
  {
  }

  /** How the clock decides about an admissible target, from the stale end to the early one: after the next
      open it is stale, up to its close incomplete, for fifteen minutes more not yet accessible. */
  lemma ClockDecides(c: Calendar, inv: Invocation, activation: Day, doc: StateDoc, target: Day)
    requires EvidenceRefusal(inv, doc.observed).None? && inv.credentials && activation <= target
    requires IsSession(c, target) && !Forbidden(target) && Successor(c, target).Found?
    requires target !in doc.observed && (doc.observed != [] ==> doc.observed[|doc.observed| - 1] < target)
    ensures Admit(c, inv, activation, doc, target, Successor(c, target)) ==
      if Open(c, Successor(c, target).day) <= inv.now then Refused(Stale)
      else if inv.now <= Close(c, target) then Refused(Incomplete)
      else if inv.now <= Close(c, target) + 15 * MINUTE then Refused(NotYetAccessible)
      else if inv.preflight then PreflightPassed
      else Dispatch(doc, activation, target, KeyFor(inv, doc, target))
  {
  }

  /** A preflight passes exactly when the same invocation would be dispatched. */
  lemma PreflightAgrees(c: Calendar, inv: Invocation, disk: Disk)
    requires inv.preflight
    ensures Decide(c, inv, disk).PreflightPassed? <==>
      Decide(c, inv.(preflight := false, execute := true), disk).Dispatch?
  {
    var live := inv.(preflight := false, execute := true);
    assert ActivationFor(c, live, Committed(disk)) == ActivationFor(c, inv, Committed(disk));
    var activation := ActivationFor(c, inv, Committed(disk));
    if activation.Ok? {
      LocatedDecision(c, inv, activation.value, disk);
      LocatedDecision(c, live, activation.value, disk);
      var verified := VerifyChain(disk.state, disk.observations, IdentityOf(inv, activation.value));
      if verified.Ok? {
        VerifiedAgrees(c, inv, live, activation.value, verified.value, disk);
      }
    }
  }

  lemma VerifiedAgrees(c: Calendar, inv: Invocation, live: Invocation, activation: Day, doc: StateDoc, disk: Disk)
    requires inv.preflight && live == inv.(preflight := false, execute := true)
    ensures DecideVerified(c, inv, activation, doc, disk).PreflightPassed?
       <==> DecideVerified(c, live, activation, doc, disk).Dispatch?
  {
    assert Aim(c, live, activation, doc) == Aim(c, inv, activation, doc);
    if Aim(c, inv, activation, doc).Ok? {
      AdmitAgrees(c, inv, live, activation, doc, Aim(c, inv, activation, doc).value);
    }
  }

  lemma AdmitAgrees(c: Calendar, inv: Invocation, live: Invocation, activation: Day, doc: StateDoc, target: Day)
    requires inv.preflight && live == inv.(preflight := false, execute := true)
    ensures Admit(c, inv, activation, doc, target, Successor(c, target)).PreflightPassed?
       <==> Admit(c, live, activation, doc, target, Successor(c, target)).Dispatch?
  {
  }

  /** The chain check accepts only directories that hold no file for the target. */
  lemma VerifiedTargetIsNew(c: Calendar, disk: Disk, id: Identity)
    requires VerifyChain(disk.state, disk.observations, id).Ok?
    ensures var doc := VerifyChain(disk.state, disk.observations, id).value;
      var target := Target(c, doc.observed, id.activation);
      target.Found? ==> target.day !in disk.observations && target.day !in doc.observed
  {
    VerifiedMeaning(disk.state, disk.observations, id);
  }

  /** The already-processed exit is never taken by an invocation nobody disturbs. */
  lemma UndisturbedNeverSkips(c: Calendar, inv: Invocation, disk: Disk)
    ensures Decide(c, inv, disk) != AlreadyProcessed
  {
    var activation := ActivationFor(c, inv, Committed(disk));
    if activation.Ok? {
      LocatedDecision(c, inv, activation.value, disk);
      var id := IdentityOf(inv, activation.value);
      if VerifyChain(disk.state, disk.observations, id).Ok? {
        VerifiedTargetIsNew(c, disk, id);
        NewTargetIsNotSkipped(c, inv, activation.value, VerifyChain(disk.state, disk.observations, id).value, disk);
      }
    }
  }

  lemma NewTargetIsNotSkipped(c: Calendar, inv: Invocation, activation: Day, doc: StateDoc, disk: Disk)
    requires var target := Target(c, doc.observed, activation); target.Found? ==> target.day !in disk.observations
    ensures DecideVerified(c, inv, activation, doc, disk) != AlreadyProcessed
  {
  }

  /** A file the state document does not list blocks every invocation that reads the directory as it is. */
  lemma OrphanBlocks(c: Calendar, inv: Invocation, disk: Disk, d: Day)
    requires d in disk.observations
    requires disk.state.Some? ==> d !in disk.state.value.observed
    ensures !Decide(c, inv, disk).Dispatch?
  {
    if Decide(c, inv, disk).Dispatch? {
      DispatchMeaning(c, inv, disk);
      VerifiedMeaning(disk.state, disk.observations, IdentityOf(inv, Decide(c, inv, disk).activation));
    }
  }

  /** The Stage-B activation session can never be dispatched without a recovery binding: its data
      become accessible only after the instant from which a binding is demanded. */
  lemma StageBNeedsRecovery(c: Calendar, inv: Invocation, disk: Disk)
    requires STAGE_B_ACTIVATION in c.daylight && STAGE_B_ACTIVATION !in c.earlyCloses
    requires inv.segment.None? && inv.recovery.None? && Committed(disk) == 0
    ensures !Decide(c, inv, disk).Dispatch?
  {
    if Decide(c, inv, disk).Dispatch? {
      DispatchMeaning(c, inv, disk);
      VerifiedMeaning(disk.state, disk.observations, IdentityOf(inv, Decide(c, inv, disk).activation));
      AimMeaning(c, inv, Decide(c, inv, disk).activation, Decide(c, inv, disk).doc);
    }
  }

  // ----- Qualification -----

  /** The stored closes of both kinds of at least one symbol: without them there is no baseline. */
  predicate HasBaseline(doc: StateDoc) {
    doc.observed != [] && exists s: Symbol :: s in doc.lastRaw && s in doc.lastSplit
  }

  /** The symbol's raw/split ratio is the stored one to within a millionth. */
  predicate SymbolKept(doc: StateDoc, market: Market, s: Symbol)
    requires s in market.raw && s in market.split
  {
    s in doc.lastRaw && s in doc.lastSplit && RatioKept((doc.lastRaw[s], doc.lastSplit[s]), market.raw[s], market.split[s])
  }

  predicate RatiosKept(doc: StateDoc, market: Market)
    requires AllPositive(market.raw) && AllPositive(market.split)
  {
    forall s: Symbol :: s in market.raw && s in market.split && SymbolKept(doc, market, s)
  }

  /** The same against a baseline table. */
  predicate PriorKept(prior: map<Symbol, (real, real)>, market: Market)
    requires AllPositive(market.raw) && AllPositive(market.split)
  {
    forall s: Symbol :: s in market.raw && s in market.split
      && s in prior && RatioKept(prior[s], market.raw[s], market.split[s])
  }

  /** The three symbols are accepted exactly when there is no baseline or all ratios are kept. */
  lemma StatusesExactly(market: Market, prior: map<Symbol, (real, real)>)
    requires AllPositive(market.raw) && AllPositive(market.split)
    ensures SplitStatuses(market, prior).Some? <==> prior == map[] || PriorKept(prior, market)
  {
    ContinuityExactly(ACWI, market.raw, market.split, prior);
    ContinuityExactly(AGG, market.raw, market.split, prior);
    ContinuityExactly(SPY, market.raw, market.split, prior);
    if SplitStatuses(market, prior).Some? && prior != map[] {
      forall s: Symbol
        ensures s in prior && RatioKept(prior[s], market.raw[s], market.split[s])
      {
        match s {
          case ACWI =>
          case AGG =>
          case SPY =>
        }
      }
    }
  }

  lemma BaselineExactly(doc: StateDoc)
    ensures PriorOf(doc) == map[] <==> !HasBaseline(doc)
    ensures forall s: Symbol :: s in PriorOf(doc) <==> doc.observed != [] && s in doc.lastRaw && s in doc.lastSplit
    ensures forall s: Symbol :: s in PriorOf(doc) ==> PriorOf(doc)[s] == (doc.lastRaw[s], doc.lastSplit[s])
  {
    var prior := PriorOf(doc);
    if HasBaseline(doc) {
      var s: Symbol :| s in doc.lastRaw && s in doc.lastSplit;
      assert s in prior;
    } else {
      assert forall s: Symbol :: s !in prior;
    }
  }

  lemma SplitsExactly(doc: StateDoc, market: Market)
    requires AllPositive(market.raw) && AllPositive(market.split)
    ensures SplitStatuses(market, PriorOf(doc)).Some? <==> (HasBaseline(doc) ==> RatiosKept(doc, market))
  {
    BaselineExactly(doc);
    StatusesExactly(market, PriorOf(doc));
  }

  /** Exactly which responses are committed after the network: whole ones that no step raised on, and
      whose ratios are those stored with the previous session, if any are. Prices may move at will. */
  lemma QualifiesExactly(inv: Invocation, activation: Day, doc: StateDoc, target: Day, response: Option<Market>)
    ensures Qualify(inv, activation, doc, target, response).Some? <==>
      && response.Some? && AllPositive(response.value.raw) && AllPositive(response.value.split)
      && response.value.economics
      && (HasBaseline(doc) ==> RatiosKept(doc, response.value))
  {
    if response.Some? && AllPositive(response.value.raw) && AllPositive(response.value.split) {
      SplitsExactly(doc, response.value);
    }
  }
}
