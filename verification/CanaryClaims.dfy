/** The single-use canary: concurrent driver processes, each crashing or refused at any point, racing
    through four exclusive file creations before any HTTP request leaves. */
module CanaryClaims {

  type Directory = int
  type Instant = int

  /** The operator authorization. Its hash covers every field, so the authority itself stands for it. */
  datatype Authority = Authority(id: int, root: Directory, validFrom: Instant, validUntil: Instant, inScope: bool) {
    predicate Permits(now: Instant) {
      inScope && validFrom <= now <= validUntil
    }
  }

  const MAX_REQUESTS := 3

  datatype File =
    | IdClaim(dir: Directory, id: int)
    | HashClaim(dir: Directory, authority: Authority)
    | RootClaim(dir: Directory, root: Directory)
    | StartFile(dir: Directory)

  /** The k-th file a process creates. */
  function ClaimFile(a: Authority, claims: Directory, k: nat): File
    requires k < 4
  {
    match k
    case 0 => IdClaim(claims, a.id)
    case 1 => HashClaim(claims, a)
    case 2 => RootClaim(claims, a.root)
    case _ => StartFile(a.root)
  }

  // ----- Interleaved processes -----

  datatype Phase = Idle | Refused | Claiming | Blocked | Fetching | Finished | Crashed

  datatype Proc = Proc(authority: Authority, claims: Directory, phase: Phase, held: nat, issued: nat)

  /** A request that reached the inner transport, with the clock reading taken for it. */
  datatype Sent = Sent(proc: nat, at: Instant)

  datatype System = System(procs: seq<Proc>, files: map<File, nat>, log: seq<Sent>)

  datatype Action =
    | Begin(now: Instant)          // validate, check scope, roots and the empty evidence root
    | Claim                        // one exclusive creation
    | Recheck(now: Instant)        // validate again once all four files are held
    | Request(now: Instant)        // one pass of the page loop; the transport reads the clock
    | Stop                         // response handled, no further page
    | Crash

  datatype Event = Event(proc: nat, action: Action)

  predicate RootEmpty(files: map<File, nat>, root: Directory) {
    forall f | f in files :: f.dir != root
  }

  function With(s: System, i: nat, p: Proc): System
    requires i < |s.procs|
  {
    s.(procs := s.procs[i := p])
  }

  function Act(s: System, i: nat, action: Action): System
    requires i < |s.procs|
  {
    var p := s.procs[i];
    match action
    case Begin(now) =>
      if p.phase != Idle then s
      else if p.authority.Permits(now) && p.authority.root != p.claims && RootEmpty(s.files, p.authority.root) then
        With(s, i, p.(phase := Claiming))
      else With(s, i, p.(phase := Refused))
    case Claim =>
      if p.phase != Claiming || p.held >= 4 then s
      else
        var f := ClaimFile(p.authority, p.claims, p.held);
        if f in s.files then With(s, i, p.(phase := Blocked))
        else With(s, i, p.(held := p.held + 1)).(files := s.files[f := i])
    case Recheck(now) =>
      if p.phase != Claiming || p.held != 4 then s
      else With(s, i, p.(phase := if p.authority.Permits(now) then Fetching else Finished))
    case Request(now) =>
      if p.phase != Fetching then s
      else if p.issued >= MAX_REQUESTS then With(s, i, p.(phase := Finished))
      else if !p.authority.Permits(now) then With(s, i, p.(issued := p.issued + 1, phase := Finished))
      else With(s, i, p.(issued := p.issued + 1)).(log := s.log + [Sent(i, now)])
    case Stop => if p.phase == Fetching then With(s, i, p.(phase := Finished)) else s
    case Crash => if p.phase in {Claiming, Fetching} then With(s, i, p.(phase := Crashed)) else s
  }

  function Step(s: System, e: Event): (r: System)
    ensures |r.procs| == |s.procs|
  {
    if e.proc < |s.procs| then Act(s, e.proc, e.action) else s
  }

  function Run(s: System, events: seq<Event>): (r: System)
    ensures |r.procs| == |s.procs|
  {
    if events == [] then s else Step(Run(s, events[..|events| - 1]), events[|events| - 1])
  }

  function Fresh(a: Authority, claims: Directory): Proc {
    Proc(a, claims, Idle, 0, 0)
  }

  /** No process has begun and nothing has been written. */
  predicate Initial(s: System) {
    s.files == map[] && s.log == [] && forall p | p in s.procs :: p == Fresh(p.authority, p.claims)
  }

  // ----- Invariant -----

  /** Files on disk are exactly the claims the processes hold. */
  ghost predicate Owned(s: System) {
    && (forall i, k :: 0 <= i < |s.procs| && 0 <= k < s.procs[i].held && k < 4 ==>
          Owns(s, i, ClaimFile(s.procs[i].authority, s.procs[i].claims, k)))
    && (forall f | f in s.files :: HeldBy(s, f, s.files[f]))
  }

  predicate Owns(s: System, i: nat, f: File) {
    f in s.files && s.files[f] == i
  }

  predicate HeldBy(s: System, f: File, i: nat) {
    i < |s.procs| && exists k | 0 <= k < 4 && k < s.procs[i].held :: f == ClaimFile(s.procs[i].authority, s.procs[i].claims, k)
  }

  predicate WellPhased(s: System, i: nat)
    requires i < |s.procs|
  {
    var p := s.procs[i];
    && p.held <= 4
    && p.issued <= MAX_REQUESTS
    && (p.phase in {Idle, Refused} ==> p.held == 0)
    && (p.issued > 0 || p.phase in {Fetching, Finished} ==> p.held == 4)
    && (p.phase == Blocked ==> p.held < 4 && ClaimFile(p.authority, p.claims, p.held) in s.files)
  }

  function Count(log: seq<Sent>, i: nat): nat {
    if log == [] then 0
    else Count(log[..|log| - 1], i) + if log[|log| - 1].proc == i then 1 else 0
  }

  ghost predicate Invariant(s: System) {
    && Owned(s)
    && (forall i :: 0 <= i < |s.procs| ==> WellPhased(s, i))
    && Logged(s)
  }

  /** Every request on the log has its own in-window clock reading and its process has counted it. */
  ghost predicate Logged(s: System) {
    && (forall r | r in s.log :: r.proc < |s.procs| && s.procs[r.proc].authority.Permits(r.at))
    && (forall i :: 0 <= i < |s.procs| ==> Count(s.log, i) <= s.procs[i].issued)
  }

  lemma ClaimFilesDiffer(a: Authority, b: Authority, c: Directory, d: Directory, j: nat, k: nat)
    requires j < 4 && k < 4 && ClaimFile(a, c, j) == ClaimFile(b, d, k)
    ensures j == k
  {
  }

  /** What one step may do to claims: nothing, or process i creates its next, absent file. */
  ghost predicate Moved(s: System, t: System, i: nat)
    requires i < |s.procs|
  {
    var p := s.procs[i];
    && |t.procs| == |s.procs|
    && (forall j :: 0 <= j < |s.procs| ==>
          && t.procs[j].authority == s.procs[j].authority
          && t.procs[j].claims == s.procs[j].claims
          && (j != i ==> t.procs[j] == s.procs[j]))
    && (|| (t.files == s.files && t.procs[i].held == p.held)
        || (&& p.held < 4
            && ClaimFile(p.authority, p.claims, p.held) !in s.files
            && t.files == s.files[ClaimFile(p.authority, p.claims, p.held) := i]
            && t.procs[i].held == p.held + 1))
  }

  lemma ActMoves(s: System, i: nat, action: Action)
    requires i < |s.procs|
    ensures Moved(s, Act(s, i, action), i)
  {
  }

  lemma MovedKeepsOwned(s: System, t: System, i: nat)
    requires i < |s.procs| && Owned(s) && Moved(s, t, i)
    ensures Owned(t)
  {
    forall j, k | 0 <= j < |t.procs| && 0 <= k < t.procs[j].held && k < 4
      ensures Owns(t, j, ClaimFile(t.procs[j].authority, t.procs[j].claims, k))
    {
      if k < s.procs[j].held {
        assert Owns(s, j, ClaimFile(s.procs[j].authority, s.procs[j].claims, k));
      }
    }
    forall f | f in t.files
      ensures HeldBy(t, f, t.files[f])
    {
      if f in s.files {
        assert HeldBy(s, f, s.files[f]);
        var q := s.procs[s.files[f]];
        var k :| 0 <= k < 4 && k < q.held && f == ClaimFile(q.authority, q.claims, k);
        assert f == ClaimFile(t.procs[t.files[f]].authority, t.procs[t.files[f]].claims, k);
      } else {
        assert f == ClaimFile(t.procs[i].authority, t.procs[i].claims, s.procs[i].held);
      }
    }
  }

  /** What one step may do to the log: nothing, or one request of process i that it counts, read in its window. */
  ghost predicate Sends(s: System, t: System, i: nat)
    requires i < |s.procs| && |t.procs| == |s.procs|
  {
    || (t.log == s.log && t.procs[i].issued >= s.procs[i].issued)
    || (&& t.procs[i].issued == s.procs[i].issued + 1
        && exists at: Instant :: t.log == s.log + [Sent(i, at)] && s.procs[i].authority.Permits(at))
  }

  lemma ActSends(s: System, i: nat, action: Action)
    requires i < |s.procs|
    ensures Sends(s, Act(s, i, action), i)
  {
  }

  lemma SendingKeepsLogged(s: System, t: System, i: nat)
    requires i < |s.procs| && Logged(s) && Moved(s, t, i) && Sends(s, t, i)
    ensures Logged(t)
  {
    if t.log != s.log {
      assert t.log[..|t.log| - 1] == s.log;
    }
  }

  lemma StepKeepsLogged(s: System, i: nat, action: Action)
    requires i < |s.procs| && Logged(s)
    ensures Logged(Act(s, i, action))
  {
    ActMoves(s, i, action);
    ActSends(s, i, action);
    SendingKeepsLogged(s, Act(s, i, action), i);
  }

  lemma StepKeepsPhases(s: System, i: nat, action: Action, j: nat)
    requires i < |s.procs| && j < |s.procs| && WellPhased(s, i) && WellPhased(s, j)
    ensures WellPhased(Act(s, i, action), j)
  {
  }

  lemma StepKeepsInvariant(s: System, e: Event)
    requires Invariant(s)
    ensures Invariant(Step(s, e))
  {
    if e.proc < |s.procs| {
      ActMoves(s, e.proc, e.action);
      MovedKeepsOwned(s, Act(s, e.proc, e.action), e.proc);
      StepKeepsLogged(s, e.proc, e.action);
      forall i | 0 <= i < |s.procs|
        ensures WellPhased(Act(s, e.proc, e.action), i)
      {
        StepKeepsPhases(s, e.proc, e.action, i);
      }
    }
  }

  lemma {:induction false} RunKeepsInvariant(s: System, events: seq<Event>)
    requires Initial(s)
    ensures Invariant(Run(s, events))
  {
    if events == [] {
      forall i | 0 <= i < |s.procs|
        ensures s.procs[i] == Fresh(s.procs[i].authority, s.procs[i].claims)
      {
        assert s.procs[i] in s.procs;
      }
    } else {
      RunKeepsInvariant(s, events[..|events| - 1]);
      StepKeepsInvariant(Run(s, events[..|events| - 1]), events[|events| - 1]);
    }
  }

  // ----- Safety -----

  /** Two processes never hold the same file. */
  lemma OneHolder(s: System, i: nat, j: nat, k: nat)
    requires Invariant(s) && i < |s.procs| && j < |s.procs| && k < 4
    requires k < s.procs[i].held && k < s.procs[j].held
    requires ClaimFile(s.procs[i].authority, s.procs[i].claims, k) == ClaimFile(s.procs[j].authority, s.procs[j].claims, k)
    ensures i == j
  {
    assert Owns(s, i, ClaimFile(s.procs[i].authority, s.procs[i].claims, k));
    assert Owns(s, j, ClaimFile(s.procs[j].authority, s.procs[j].claims, k));
  }

  /** Main safety result: in every run, two processes that issued a request have different roots, and if
      they share a claims directory also different ids and different authorities. */
  lemma AtMostOneReachesHttp(s: System, events: seq<Event>, i: nat, j: nat)
    requires Initial(s) && i < j < |s.procs|
    requires Run(s, events).procs[i].issued > 0 && Run(s, events).procs[j].issued > 0
    ensures var p, q := Run(s, events).procs[i], Run(s, events).procs[j];
      && p.authority.root != q.authority.root
      && (p.claims == q.claims ==> p.authority.id != q.authority.id && p.authority != q.authority)
  {
    RunKeepsInvariant(s, events);
    var t := Run(s, events);
    assert WellPhased(t, i) && WellPhased(t, j);
    if t.procs[i].authority.root == t.procs[j].authority.root {
      OneHolder(t, i, j, 3);
    } else if t.procs[i].claims == t.procs[j].claims && t.procs[i].authority.id == t.procs[j].authority.id {
      OneHolder(t, i, j, 0);
    }
  }

  /** Requests that reached the inner transport for one evidence root. */
  function ToRoot(s: System, log: seq<Sent>, root: Directory): nat
    requires forall r | r in log :: r.proc < |s.procs|
  {
    if log == [] then 0
    else
      ToRoot(s, log[..|log| - 1], root)
      + if s.procs[log[|log| - 1].proc].authority.root == root then 1 else 0
  }

  lemma {:induction false} CountedMeansLogged(log: seq<Sent>, r: Sent)
    requires r in log
    ensures Count(log, r.proc) > 0
  {
    if log[|log| - 1] != r {
      CountedMeansLogged(log[..|log| - 1], r);
    }
  }

  lemma {:induction false} OneProcessPerRoot(s: System, log: seq<Sent>, i: nat)
    requires i < |s.procs| && forall r | r in log :: r.proc < |s.procs|
    requires forall r | r in log :: s.procs[r.proc].authority.root == s.procs[i].authority.root ==> r.proc == i
    ensures ToRoot(s, log, s.procs[i].authority.root) == Count(log, i)
  {
    if log != [] {
      OneProcessPerRoot(s, log[..|log| - 1], i);
      assert log[|log| - 1] in log;
    }
  }

  lemma {:induction false} NoneToRoot(s: System, log: seq<Sent>, root: Directory)
    requires forall r | r in log :: r.proc < |s.procs| && s.procs[r.proc].authority.root != root
    ensures ToRoot(s, log, root) == 0
  {
    if log != [] {
      NoneToRoot(s, log[..|log| - 1], root);
      assert log[|log| - 1] in log;
    }
  }

  /** Positions of the log whose requests went to the root. */
  predicate WentTo(s: System, log: seq<Sent>, root: Directory, k: nat)
    requires k < |log| && forall r | r in log :: r.proc < |s.procs|
  {
    log[k] in log && s.procs[log[k].proc].authority.root == root
  }

  lemma {:induction false} ToRootIsMonotone(s: System, log: seq<Sent>, root: Directory, n: nat)
    requires n <= |log| && forall r | r in log :: r.proc < |s.procs|
    ensures ToRoot(s, log[..n], root) <= ToRoot(s, log, root)
    decreases |log| - n
  {
    if n == |log| {
      assert log[..n] == log;
    } else {
      ToRootIsMonotone(s, log, root, n + 1);
      assert log[..n + 1][..n] == log[..n];
    }
  }

  /** A further request to the root after position k counts one more. */
  lemma OneMoreTo(s: System, log: seq<Sent>, root: Directory, k: nat, n: nat)
    requires k < n <= |log| && (forall r | r in log :: r.proc < |s.procs|) && WentTo(s, log, root, k)
    ensures ToRoot(s, log[..k], root) + 1 <= ToRoot(s, log[..n], root)
  {
    assert log[..k + 1][..k] == log[..k];
    assert log[..n][..k + 1] == log[..k + 1];
    ToRootIsMonotone(s, log[..n], root, k + 1);
  }

  lemma FourCount(s: System, log: seq<Sent>, root: Directory, i: nat, j: nat, k: nat, l: nat)
    requires i < j < k < l < |log| && forall r | r in log :: r.proc < |s.procs|
    requires WentTo(s, log, root, i) && WentTo(s, log, root, j) && WentTo(s, log, root, k) && WentTo(s, log, root, l)
    ensures 4 <= ToRoot(s, log, root)
  {
    OneMoreTo(s, log, root, i, j);
    OneMoreTo(s, log, root, j, k);
    OneMoreTo(s, log, root, k, l);
    OneMoreTo(s, log, root, l, |log|);
    assert log[..|log|] == log;
  }

  /** An evidence root receives at most three requests ever, whatever authorities, claims directories,
      processes and crashes: of any four positions of the log one did not go to it. Each request has its own
      clock reading inside its authority's scope and validity. */
  lemma RootBudget(s: System, events: seq<Event>, root: Directory)
    requires Initial(s)
    ensures var t := Run(s, events);
      && (forall r | r in t.log :: r.proc < |t.procs| &&
            var a := t.procs[r.proc].authority; a.inScope && a.validFrom <= r.at <= a.validUntil)
      && (forall i, j, k, l :: 0 <= i < j < k < l < |t.log| ==>
            !(WentTo(t, t.log, root, i) && WentTo(t, t.log, root, j) && WentTo(t, t.log, root, k) && WentTo(t, t.log, root, l)))
  {
    RootCount(s, events, root);
    var t := Run(s, events);
    forall i, j, k, l | 0 <= i < j < k < l < |t.log|
      ensures !(WentTo(t, t.log, root, i) && WentTo(t, t.log, root, j) && WentTo(t, t.log, root, k) && WentTo(t, t.log, root, l))
    {
      if WentTo(t, t.log, root, i) && WentTo(t, t.log, root, j) && WentTo(t, t.log, root, k) && WentTo(t, t.log, root, l) {
        FourCount(t, t.log, root, i, j, k, l);
      }
    }
  }

  lemma RootCount(s: System, events: seq<Event>, root: Directory)
    requires Initial(s)
    ensures var t := Run(s, events);
      && (forall r | r in t.log :: r.proc < |t.procs| && t.procs[r.proc].authority.Permits(r.at))
      && ToRoot(t, t.log, root) <= MAX_REQUESTS
  {
    RunKeepsInvariant(s, events);
    var t := Run(s, events);
    if r :| r in t.log && t.procs[r.proc].authority.root == root {
      forall q | q in t.log && t.procs[q.proc].authority.root == root
        ensures q.proc == r.proc
      {
        CountedMeansLogged(t.log, r);
        CountedMeansLogged(t.log, q);
        if q.proc < r.proc {
          AtMostOneReachesHttp(s, events, q.proc, r.proc);
        } else if r.proc < q.proc {
          AtMostOneReachesHttp(s, events, r.proc, q.proc);
        }
      }
      OneProcessPerRoot(t, t.log, r.proc);
      assert WellPhased(t, r.proc);
    } else {
      NoneToRoot(t, t.log, root);
    }
  }

  /** Exactly when a process may start claiming: its authority is in scope and valid now, its evidence root is
      not its claims directory, and no file lies in that root; otherwise it is refused. */
  lemma BeginExactly(s: System, i: nat, now: Instant)
    requires i < |s.procs| && s.procs[i].phase == Idle
    ensures var t := Step(s, Event(i, Begin(now)));
      var a := s.procs[i].authority;
      && t.files == s.files && t.log == s.log && t.procs[i].held == s.procs[i].held
      && t.procs[i].phase ==
           if a.inScope && a.validFrom <= now <= a.validUntil && a.root != s.procs[i].claims
              && (forall f | f in s.files :: f.dir != a.root) then Claiming
           else Refused
  {
  }

  /** Exactly when a process goes on to fetch: it holds all four claims and its authority is valid on a second
      reading. */
  lemma RecheckExactly(s: System, i: nat, now: Instant)
    requires i < |s.procs| && s.procs[i].phase == Claiming && s.procs[i].held == 4
    ensures var t := Step(s, Event(i, Recheck(now)));
      var a := s.procs[i].authority;
      && t.files == s.files && t.log == s.log && t.procs[i].issued == s.procs[i].issued
      && t.procs[i].phase == if a.inScope && a.validFrom <= now <= a.validUntil then Fetching else Finished
  {
  }

  /** Exactly when a request leaves: fewer than three were issued and the authority is valid on the reading
      taken for it. Otherwise the process is finished and nothing is sent. */
  lemma RequestExactly(s: System, i: nat, now: Instant)
    requires i < |s.procs| && s.procs[i].phase == Fetching
    ensures var t := Step(s, Event(i, Request(now)));
      var a := s.procs[i].authority;
      && t.files == s.files
      && if s.procs[i].issued < 3 && a.inScope && a.validFrom <= now <= a.validUntil then
           t.log == s.log + [Sent(i, now)] && t.procs[i].phase == Fetching && t.procs[i].issued == s.procs[i].issued + 1
         else t.log == s.log && t.procs[i].phase == Finished
  {
  }

  // ----- Progress -----

  /** Nobody is between two steps. */
  predicate Quiet(s: System) {
    forall p | p in s.procs :: p.phase in {Refused, Blocked, Finished, Crashed}
  }

  /** Whoever blocks a process holds strictly more claims than it. */
  lemma BlockerIsAhead(s: System, i: nat) returns (j: nat)
    requires Invariant(s) && i < |s.procs| && s.procs[i].phase == Blocked
    ensures j < |s.procs| && s.procs[i].held < 4 && s.procs[i].held < s.procs[j].held
    ensures ClaimFile(s.procs[j].authority, s.procs[j].claims, s.procs[i].held)
         == ClaimFile(s.procs[i].authority, s.procs[i].claims, s.procs[i].held)
  {
    assert WellPhased(s, i);
    var p := s.procs[i];
    var f := ClaimFile(p.authority, p.claims, p.held);
    assert HeldBy(s, f, s.files[f]);
    j := s.files[f];
    var k :| 0 <= k < 4 && k < s.procs[j].held && f == ClaimFile(s.procs[j].authority, s.procs[j].claims, k);
    ClaimFilesDiffer(p.authority, s.procs[j].authority, p.claims, s.procs[j].claims, p.held, k);
  }

  lemma {:induction false} SomeoneWins(s: System, i: nat) returns (j: nat)
    requires Invariant(s) && Quiet(s) && i < |s.procs| && s.procs[i].phase != Refused
    ensures j < |s.procs| && (s.procs[j].held == 4 || s.procs[j].phase == Crashed)
    decreases 4 - s.procs[i].held
  {
    assert WellPhased(s, i) && s.procs[i] in s.procs;
    if s.procs[i].phase == Blocked {
      var k := BlockerIsAhead(s, i);
      assert WellPhased(s, k) && s.procs[k] in s.procs;
      j := SomeoneWins(s, k);
    } else {
      j := i;
    }
  }

  /** Main progress result: once every process has stopped, if none crashed and one passed validation,
      then one holds all four claims. */
  lemma ContendersCannotAllBlock(s: System, events: seq<Event>, i: nat) returns (j: nat)
    requires Initial(s) && i < |s.procs|
    requires Quiet(Run(s, events)) && Run(s, events).procs[i].phase != Refused
    requires forall p | p in Run(s, events).procs :: p.phase != Crashed
    ensures j < |s.procs| && Run(s, events).procs[j].held == 4 && Run(s, events).procs[j].phase == Finished
  {
    RunKeepsInvariant(s, events);
    var t := Run(s, events);
    j := SomeoneWins(t, i);
    assert t.procs[j] in t.procs && WellPhased(t, j);
  }

  /** The authority-hash claim never refuses anyone: whoever holds it holds the same id claim. A start
      file refuses only a process of another claims directory, since a shared one settles it at the root
      claim. */
  lemma WhoCanBlock(s: System, events: seq<Event>, i: nat)
    requires Initial(s) && i < |s.procs| && Run(s, events).procs[i].phase == Blocked
    ensures var t := Run(s, events);
      var p := t.procs[i];
      && p.held != 1
      && (p.held == 3 ==> exists j | 0 <= j < |t.procs| ::
            t.procs[j].held == 4 && t.procs[j].authority.root == p.authority.root && t.procs[j].claims != p.claims)
  {
    RunKeepsInvariant(s, events);
    var t := Run(s, events);
    var j := BlockerIsAhead(t, i);
    assert WellPhased(t, j);
    if t.procs[i].held == 1 {
      OneHolder(t, i, j, 0);
    } else if t.procs[i].held == 3 && t.procs[j].claims == t.procs[i].claims {
      OneHolder(t, i, j, 2);
    }
  }

  /** Claims are permanent: whatever happens later, a file keeps its owner. */
  lemma {:induction false} ClaimsArePermanent(s: System, events: seq<Event>, f: File)
    requires f in s.files
    ensures f in Run(s, events).files && Run(s, events).files[f] == s.files[f]
  {
    if events != [] {
      ClaimsArePermanent(s, events[..|events| - 1], f);
    }
  }

  /** A crash after the first claim spends the authority for good: in that claims directory no process
      with the same id ever sends a request afterwards. */
  lemma CrashSpendsTheAuthority(s: System, before: seq<Event>, after: seq<Event>, i: nat, j: nat)
    requires Initial(s) && i < |s.procs| && j < |s.procs| && i != j
    requires Run(s, before).procs[i].phase == Crashed && Run(s, before).procs[i].held > 0
    requires Run(s, before + after).procs[j].claims == Run(s, before).procs[i].claims
    requires Run(s, before + after).procs[j].authority.id == Run(s, before).procs[i].authority.id
    ensures Run(s, before + after).procs[j].issued == 0
  {
    var mid, t := Run(s, before), Run(s, before + after);
    RunKeepsInvariant(s, before);
    RunKeepsInvariant(s, before + after);
    RunSplits(s, before, after);
    var f := ClaimFile(mid.procs[i].authority, mid.procs[i].claims, 0);
    assert Owns(mid, i, f);
    ClaimsArePermanent(mid, after, f);
    assert WellPhased(t, j);
    assert t.procs[j].held > 0 ==> Owns(t, j, ClaimFile(t.procs[j].authority, t.procs[j].claims, 0));
  }

  lemma {:induction false} RunSplits(s: System, before: seq<Event>, after: seq<Event>)
    ensures Run(s, before + after) == Run(Run(s, before), after)
    decreases |after|
  {
    if after == [] {
      assert before + after == before;
    } else {
      assert (before + after)[..|before + after| - 1] == before + after[..|after| - 1];
      RunSplits(s, before, after[..|after| - 1]);
    }
  }
}
