/** The runner as it is written: loops over the calendar and the chain, and a state directory whose
    files one invocation updates in place. */
module ShadowMain {
  import opened Common
  import opened NyseCalendar
  import opened ShadowChain
  import opened ShadowRunner
  import opened ShadowGates
  import opened ShadowProgress
  import opened ShadowSerial

  // ----- Loops -----

  /** The cursor loops of `_expected_next` (14 days) and `next_trading_session_open` (30 days). */
  method SearchSession(c: Calendar, start: Day, tries: nat) returns (r: Search)
    ensures r == FirstSession(c, start, tries)
    ensures r.Found? <==> InRange(c, start) && SessionAmong(c, start, tries)
  {
    r := Exhausted;
    var cursor := start;
    for i := 0 to tries
      invariant r == Exhausted && FirstSession(c, cursor, tries - i) == FirstSession(c, start, tries)
    {
      if !InRange(c, cursor) {
        r := OutOfRange;
        break;
      }
      if Trades(c, cursor) {
        r := Found(cursor);
        break;
      }
      cursor := cursor + 1;
    }
    SearchExactly(c, start, tries);
  }

  method ExpectedNext(c: Calendar, observed: seq<Day>, activation: Day) returns (r: Search)
    ensures r == Target(c, observed, activation)
    ensures observed == [] ==> r == Found(activation)
    ensures observed != [] && IsSession(c, observed[|observed| - 1]) ==>
      (r.Found? <==> SessionAmong(c, observed[|observed| - 1] + 1, 14))
  {
    if observed == [] {
      return Found(activation);
    }
    var last := observed[|observed| - 1];
    r := SearchSession(c, last + 1, 14);
    if IsSession(c, last) {
      NextExactly(c, last, 14);
    }
  }

  /** The hash-link loop of `verify_chain`. */
  method WalkFiles(observed: seq<Day>, observations: map<Day, Observation>, recovery: Option<int>)
    returns (r: Result<Option<Observation>, Refusal>)
    ensures r == WalkChain(observed, observations, recovery, 0, None)
  {
    var previous := None;
    for i := 0 to |observed|
      invariant WalkChain(observed, observations, recovery, i, previous) == WalkChain(observed, observations, recovery, 0, None)
    {
      if observed[i] !in observations {
        return Err(ObservationMissing);
      }
      var file := observations[observed[i]];
      if file.previous != previous {
        return Err(BrokenLink);
      }
      if recovery.Some? && file.binding != recovery {
        return Err(BindingMismatch);
      }
      previous := Some(file);
    }
    return Ok(previous);
  }

  /** Sessions may only ever be compared with the sorted list; the loop looks at neighbours. */
  method IsAscending(s: seq<Day>) returns (b: bool)
    ensures b == Ascending(s)
  {
    for i := 0 to |s|
      invariant forall j, k :: 0 <= j < k < i ==> s[j] <= s[k]
    {
      if i > 0 && s[i] < s[i - 1] {
        return false;
      }
    }
    return true;
  }

  /** The split-lineage loop over the three symbols. */
  method SplitSection(market: Market, prior: map<Symbol, (real, real)>) returns (r: Option<map<Symbol, SplitStatus>>)
    requires AllPositive(market.raw) && AllPositive(market.split)
    ensures r == SplitStatuses(market, prior)
    ensures r.Some? <==> prior == map[] || PriorKept(prior, market)
  {
    StatusesExactly(market, prior);
    var section: map<Symbol, SplitStatus> := map[];
    for i := 0 to |SYMBOLS|
      invariant section.Keys == (set j | 0 <= j < i :: SYMBOLS[j])
      invariant forall j :: 0 <= j < i ==>
        CheckSplitContinuity(SYMBOLS[j], market.raw, market.split, prior) == Ok(section[SYMBOLS[j]])
    {
      var status := CheckSplitContinuity(SYMBOLS[i], market.raw, market.split, prior);
      if status.Err? {
        return None;
      }
      section := section[SYMBOLS[i] := status.value];
    }
    assert SYMBOLS[0] == ACWI && SYMBOLS[1] == AGG && SYMBOLS[2] == SPY;
    assert section == map[ACWI := section[ACWI], AGG := section[AGG], SPY := section[SPY]];
    return Some(section);
  }

  /** Qualification of the six series and the observation built from them. */
  method BuildCommit(inv: Invocation, activation: Day, doc: StateDoc, target: Day, response: Option<Market>)
    returns (r: Option<Commit>)
    ensures r == Qualify(inv, activation, doc, target, response)
    ensures r.Some? <==>
      && response.Some? && AllPositive(response.value.raw) && AllPositive(response.value.split)
      && response.value.economics
      && (HasBaseline(doc) ==> RatiosKept(doc, response.value))
    ensures r.Some? ==>
      var o := r.value.observation;
      && o.session == target && o.ordinal == |doc.observed| + 1 && o.processedAt == inv.now
      && o.raw == response.value.raw && o.split == response.value.split
  {
    QualifiesExactly(inv, activation, doc, target, response);
    if response.None? || !AllPositive(response.value.raw) || !AllPositive(response.value.split) || !response.value.economics {
      return None;
    }
    var section := SplitSection(response.value, PriorOf(doc));
    return if section.None? then None else Some(CommitOf(inv, activation, doc, target, response.value, section.value));
  }

  // ----- The directory -----

  datatype Exit = StoppedBefore(outcome: Outcome) | FailedAfterDispatch | Sealed(digest: Observation)

  class StateDirectory {
    var state: Option<StateDoc>
    var observations: map<Day, Observation>
    var ledger: set<Key>

    function Snapshot(): Disk
      reads this
    {
      Disk(state, observations, ledger)
    }

    constructor ()
      ensures Snapshot() == EMPTY_DISK
    {
      state, observations, ledger := None, map[], {};
    }

    method VerifyChainOnDisk(expected: Identity) returns (r: Result<StateDoc, Refusal>)
      ensures r == VerifyChain(state, observations, expected)
    {
      if state.None? {
        return if observations != map[] then Err(OrphanObservations) else Ok(InitialState(expected));
      }
      var doc := state.value;
      var head := HeadRefusal(doc, expected);
      if head.Some? {
        return Err(head.value);
      }
      var ascending := IsAscending(doc.observed);
      if !ascending {
        return Err(SessionsUnordered);
      }
      var last := WalkFiles(doc.observed, observations, expected.recovery);
      if last.Err? {
        return Err(last.error);
      }
      var tail := TailRefusal(doc, last.value, observations);
      return if tail.Some? then Err(tail.value) else Ok(doc);
    }

    /** Create-once: a key already present is refused and nothing changes. */
    method ConsumeDispatchAttempt(key: Key) returns (ok: bool)
      modifies this`ledger
      ensures ok == (key !in old(ledger)) && ledger == old(ledger) + {key}
    {
      ok := key !in ledger;
      if ok {
        ledger := ledger + {key};
      }
    }

    /** The observation file first, then the state document. A refusal after the file is written leaves
        the file behind. */
    method AppendObservation(k: Commit) returns (r: Option<Observation>)
      modifies this`state, this`observations
      ensures Snapshot() == Append(old(Snapshot()), k)
      ensures r.Some? <==> k.observation.session !in old(observations) && !Rejected(BaseOf(old(Snapshot()), k), k)
      ensures r.Some? ==> r.value == k.observation && state == Some(MergedState(BaseOf(old(Snapshot()), k), k))
      ensures r.None? ==> state == old(state)
    {
      var session := k.observation.session;
      if session in observations {
        return None;
      }
      observations := observations[session := k.observation];
      var base := BaseOf(Snapshot(), k);
      if Rejected(base, k) {
        return None;
      }
      state := Some(MergedState(base, k));
      return Some(k.observation);
    }

    /** Every gate before the network, in the order of the script. */
    method Preflight(c: Calendar, inv: Invocation) returns (r: Outcome)
      ensures r == Decide(c, inv, Snapshot())
    {
      if !inv.execute && !inv.preflight {
        return DryRun;
      }
      var resolved := ActivationFor(c, inv, Committed(Snapshot()));
      if resolved.Err? {
        return Refused(resolved.error);
      }
      var verified := VerifyChainOnDisk(IdentityOf(inv, resolved.value));
      LocatedDecision(c, inv, resolved.value, Snapshot());
      if verified.Err? {
        return Refused(verified.error);
      }
      r := PreflightTarget(c, inv, resolved.value, verified.value);
    }

    /** The authorization gates and the only legal target. */
    static method AimAtNext(c: Calendar, inv: Invocation, activation: Day, doc: StateDoc) returns (r: Result<Day, Refusal>)
      ensures r == Aim(c, inv, activation, doc)
    {
      var token := TokenRefusal(inv, activation, doc.observed);
      if token.Some? {
        return Err(token.value);
      }
      var next := ExpectedNext(c, doc.observed, activation);
      return if next.Found? then Ok(next.day) else Err(NoNextSession);
    }

    method PreflightTarget(c: Calendar, inv: Invocation, activation: Day, doc: StateDoc) returns (r: Outcome)
      ensures r == DecideVerified(c, inv, activation, doc, Snapshot())
    {
      var aim := AimAtNext(c, inv, activation, doc);
      if aim.Err? {
        return Refused(aim.error);
      }
      if KeyFor(inv, doc, aim.value) in ledger {
        return Refused(Replay);
      }
      if aim.value in observations {
        return AlreadyProcessed;
      }
      var successor := SearchSession(c, aim.value + 1, 30);
      return Admit(c, inv, activation, doc, aim.value, successor);
    }

    /** One invocation from start to finish. The directory ends as the specification says, a stopped
        invocation leaves it untouched, a sealed one appends exactly its target, and a directory that
        verified verifies again. */
    method RunMain(c: Calendar, inv: Invocation, response: Option<Market>) returns (exit: Exit)
      modifies this
      ensures Snapshot() == Execute(c, old(Snapshot()), inv, response)
      ensures exit.StoppedBefore? ==> Snapshot() == old(Snapshot()) && exit.outcome == Decide(c, inv, Snapshot())
      ensures !exit.StoppedBefore? ==>
        var d := Decide(c, inv, old(Snapshot()));
        d.Dispatch? && ledger == old(ledger) + {d.key}
      ensures exit.FailedAfterDispatch? ==> state == old(state) && observations == old(observations)
      ensures exit.Sealed? ==>
        var d := Decide(c, inv, old(Snapshot()));
        var verified := VerifyChain(state, observations, IdentityOf(inv, d.activation));
        && verified.Ok? && verified.value.observed == d.doc.observed + [d.target]
        && verified.value.lastObservation == Some(exit.digest) && exit.digest.session == d.target
    {
      ghost var before := Snapshot();
      var outcome := Preflight(c, inv);
      if !outcome.Dispatch? {
        return StoppedBefore(outcome);
      }
      DispatchMeaning(c, inv, before);
      ghost var k := CommitFor(inv, outcome, response);
      if k.Some? {
        SealedVerifies(c, before, inv, response);
      }
      exit := Observe(inv, outcome, response);
    }

    /** After the gates: burn the attempt, fetch, qualify, append. */
    method Observe(inv: Invocation, d: Outcome, response: Option<Market>) returns (exit: Exit)
      requires d.Dispatch? && d.key !in ledger
      requires var k := CommitFor(inv, d, response);
        k.Some? ==> k.value.observation.session !in observations && !Rejected(BaseOf(Snapshot(), k.value), k.value)
      modifies this
      ensures var k := CommitFor(inv, d, response);
        && Snapshot() == Completed(old(Snapshot()), d, k) && ledger == old(ledger) + {d.key}
        && exit == if k.None? then FailedAfterDispatch else Sealed(k.value.observation)
    {
      var consumed := ConsumeDispatchAttempt(d.key);
      var k := BuildCommit(inv, d.activation, d.doc, d.target, response);
      if k.None? {
        return FailedAfterDispatch;
      }
      var digest := AppendObservation(k.value);
      return if digest.None? then FailedAfterDispatch else Sealed(digest.value);
    }
  }

  /** The commit of a dispatched invocation is appended whole and the directory verifies with it. */
  lemma SealedVerifies(c: Calendar, disk: Disk, inv: Invocation, response: Option<Market>)
    requires CommitFor(inv, Decide(c, inv, disk), response).Some?
    ensures var d := Decide(c, inv, disk);
      var k := CommitFor(inv, d, response).value;
      var after := Append(Burn(disk, d.key), k);
      var verified := VerifyChain(after.state, after.observations, IdentityOf(inv, d.activation));
      && k.observation.session == d.target && d.target !in disk.observations && !Rejected(BaseOf(disk, k), k)
      && verified.Ok? && verified.value.observed == d.doc.observed + [d.target]
      && verified.value.lastObservation == Some(k.observation)
  {
    var d := Decide(c, inv, disk);
    var k := CommitFor(inv, d, response).value;
    DispatchContinues(c, disk, inv, response);
    CommitOfDispatch(inv, d, response);
    BurnedCommitContinues(disk, d.key, k);
    MergedVerifies(disk, IdentityOf(inv, d.activation), k);
  }
}
