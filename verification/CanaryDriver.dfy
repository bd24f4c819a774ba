/** The canary driver's own code, step by step: the window-enforcing transport, the exclusive writer and
    the ordered claims of one operation. */
module CanaryDriver {
  import opened Common
  import opened CanaryClaims

  /** The claims directories and evidence roots of one host, with the exclusive-creation writer. */
  class EvidenceDisk {
    var files: map<File, nat>

    constructor ()
      ensures files == map[]
    {
      files := map[];
    }

    /** Create a file that must not exist; an existing one is left alone. */
    method CreateExclusive(f: File, owner: nat) returns (ok: bool)
      modifies this
      ensures ok <==> f !in old(files)
      ensures files == if ok then old(files)[f := owner] else old(files)
    {
      if f in files {
        return false;
      }
      files := files[f := owner];
      return true;
    }
  }

  /** Fail-closed window check before every request. `clock(n)` is the n-th reading of the clock. */
  class DispatchWindowTransport {
    const authority: Authority
    const clock: nat -> Instant
    var readings: nat
    var forwarded: seq<Instant>

    constructor (authority: Authority, clock: nat -> Instant, readings: nat)
      ensures this.authority == authority && this.clock == clock && this.readings == readings && forwarded == []
    {
      this.authority, this.clock, this.readings, this.forwarded := authority, clock, readings, [];
    }

    /** A request passes on exactly when the clock, read for this very request, is in the window. */
    method HandleRequest() returns (ok: bool)
      modifies this
      ensures readings == old(readings) + 1
      ensures ok <==> authority.inScope && authority.validFrom <= clock(old(readings)) <= authority.validUntil
      ensures forwarded == if ok then old(forwarded) + [clock(old(readings))] else old(forwarded)
    {
      var now := clock(readings);
      readings := readings + 1;
      if !authority.Permits(now) {
        return false;
      }
      forwarded := forwarded + [now];
      return true;
    }
  }

  datatype Outcome =
    | Invalid                                  // refused before any claim
    | Consumed(held: nat)                      // refused at the claim after `held` of them
    | Ran(sent: seq<Instant>, invocations: nat, ending: Ending)

  /** The provider's answer to one request, or its absence. A body is malformed too when one of its bars
      fails validation; an empty page token counts as none. */
  datatype Reply = Unanswered | Rejected(status: int) | MalformedBody | Page(token: string)

  datatype Ending = Retrieved | BudgetExhausted | OutsideWindow | TransportFailed | HttpFailed | Malformed | RepeatedToken

  /** How many claims succeed in order before one is already taken. */
  function Free(files: map<File, nat>, a: Authority, claims: Directory, k: nat): (n: nat)
    requires k <= 4
    ensures k <= n <= 4
    ensures forall j :: k <= j < n ==> ClaimFile(a, claims, j) !in files
    ensures n < 4 ==> ClaimFile(a, claims, n) in files
    decreases 4 - k
  {
    if k == 4 || ClaimFile(a, claims, k) in files then k else Free(files, a, claims, k + 1)
  }

  /** The disk after creating claims 0 to n - 1. */
  function Claimed(files: map<File, nat>, a: Authority, claims: Directory, owner: nat, n: nat): (r: map<File, nat>)
    requires n <= 4
    ensures r.Keys == files.Keys + set k | 0 <= k < n :: ClaimFile(a, claims, k)
    ensures forall f | f in files :: f in r && ((forall k | 0 <= k < n :: f != ClaimFile(a, claims, k)) ==> r[f] == files[f])
  {
    if n == 0 then files else Claimed(files, a, claims, owner, n - 1)[ClaimFile(a, claims, n - 1) := owner]
  }

  /** Create the four files in their fixed order, stopping at the first that exists; no rollback. */
  method Reserve(disk: EvidenceDisk, owner: nat, a: Authority, claims: Directory) returns (held: nat)
    modifies disk
    ensures held == Free(old(disk.files), a, claims, 0)
    ensures disk.files == Claimed(old(disk.files), a, claims, owner, held)
  {
    ghost var before := disk.files;
    held := 0;
    while held < 4
      invariant 0 <= held <= 4
      invariant disk.files == Claimed(before, a, claims, owner, held)
      invariant Free(before, a, claims, 0) == Free(before, a, claims, held)
    {
      OnlyOwnClaimsAdded(before, a, claims, owner, held);
      var ok := disk.CreateExclusive(ClaimFile(a, claims, held), owner);
      if !ok {
        return;
      }
      held := held + 1;
    }
  }

  /** Whether answer i ends the loop, and how; it goes on after a page whose token is new. */
  function EndsAt(replies: nat -> Reply, i: nat): Option<Ending> {
    match replies(i)
    case Unanswered => Some(TransportFailed)
    case Rejected(_) => Some(HttpFailed)
    case MalformedBody => Some(Malformed)
    case Page(token) =>
      if token == "" then Some(Retrieved)
      else if exists j :: 0 <= j < i && replies(j) == Page(token) then Some(RepeatedToken)
      else None
  }

  /** What a retrieval of `issued` invocations did: every request was sent at its own in-window reading,
      every answer but the last went on, and the ending is the one the last reading or answer gives. */
  ghost predicate Retrieval(
    a: Authority, clock: nat -> Instant, replies: nat -> Reply, sent: seq<Instant>, issued: nat, ending: Ending)
  {
    && |sent| <= issued <= 3 && issued <= |sent| + 1
    && (forall i :: 0 <= i < |sent| ==>
          sent[i] == clock(3 + i) && a.inScope && a.validFrom <= sent[i] <= a.validUntil)
    && (forall i :: 0 <= i < issued - 1 ==> EndsAt(replies, i).None?)
    && if issued == |sent| + 1 then ending == OutsideWindow && !a.Permits(clock(3 + |sent|))
       else if issued > 0 && EndsAt(replies, issued - 1).Some? then EndsAt(replies, issued - 1) == Some(ending)
       else ending == BudgetExhausted && issued == 3
  }

  /** The tokens of the first n answers. */
  ghost predicate SeenBy(replies: nat -> Reply, n: nat, seen: set<string>) {
    forall token :: token in seen <==> exists j :: 0 <= j < n && replies(j) == Page(token)
  }

  /** What one answer does to the loop. */
  method ReadAnswer(replies: nat -> Reply, i: nat, seen: set<string>) returns (ending: Option<Ending>, now: set<string>)
    requires SeenBy(replies, i, seen)
    ensures ending == EndsAt(replies, i)
    ensures ending.None? ==> SeenBy(replies, i + 1, now)
  {
    ending, now := None, seen;
    match replies(i) {
      case Unanswered => ending := Some(TransportFailed);
      case Rejected(_) => ending := Some(HttpFailed);
      case MalformedBody => ending := Some(Malformed);
      case Page(token) =>
        if token == "" {
          ending := Some(Retrieved);
        } else if token in seen {
          ending := Some(RepeatedToken);
        } else {
          now := seen + {token};
        }
    }
  }

  /** n requests sent, each answer going on. */
  ghost predicate Going(a: Authority, clock: nat -> Instant, replies: nat -> Reply, sent: seq<Instant>, n: nat) {
    && |sent| == n
    && (forall i :: 0 <= i < n ==> sent[i] == clock(3 + i) && a.Permits(sent[i]))
    && (forall i :: 0 <= i < n ==> EndsAt(replies, i).None?)
  }

  /** What the next reading and answer make of it. */
  lemma OneMoreRequest(a: Authority, clock: nat -> Instant, replies: nat -> Reply, sent: seq<Instant>, n: nat)
    requires Going(a, clock, replies, sent, n) && n < 3
    ensures var at := clock(3 + n);
      if !a.Permits(at) then Retrieval(a, clock, replies, sent, n + 1, OutsideWindow)
      else if EndsAt(replies, n).Some? then Retrieval(a, clock, replies, sent + [at], n + 1, EndsAt(replies, n).value)
      else Going(a, clock, replies, sent + [at], n + 1)
  {
  }

  /** The page loop. */
  method FetchPages(a: Authority, clock: nat -> Instant, replies: nat -> Reply)
    returns (sent: seq<Instant>, issued: nat, ending: Ending)
    ensures Retrieval(a, clock, replies, sent, issued, ending)
  {
    var transport := new DispatchWindowTransport(a, clock, 3);
    var seen: set<string> := {};
    issued := 0;
    while issued < MAX_REQUESTS
      invariant 0 <= issued <= MAX_REQUESTS && fresh(transport) && transport.authority == a && transport.clock == clock
      invariant transport.readings == 3 + issued && Going(a, clock, replies, transport.forwarded, issued)
      invariant SeenBy(replies, issued, seen)
    {
      OneMoreRequest(a, clock, replies, transport.forwarded, issued);
      issued := issued + 1;
      var ok := transport.HandleRequest();
      if !ok {
        return transport.forwarded, issued, OutsideWindow;
      }
      var answered: Option<Ending>;
      answered, seen := ReadAnswer(replies, issued - 1, seen);
      if answered.Some? {
        return transport.forwarded, issued, answered.value;
      }
    }
    return transport.forwarded, issued, BudgetExhausted;
  }

  /** One operation. */
  method ExecuteOnce(disk: EvidenceDisk, owner: nat, a: Authority, claims: Directory, clock: nat -> Instant, replies: nat -> Reply)
    returns (r: Outcome)
    modifies disk
    ensures r.Invalid? <==>
      !(a.inScope && a.validFrom <= clock(0) <= a.validUntil && a.root != claims
        && forall f | f in old(disk.files) :: f.dir != a.root)
    ensures r.Invalid? ==> disk.files == old(disk.files)
    ensures !r.Invalid? ==>
      disk.files == Claimed(old(disk.files), a, claims, owner, Free(old(disk.files), a, claims, 0))
    ensures r.Consumed? ==> r.held == Free(old(disk.files), a, claims, 0) < 4
    ensures r.Ran? ==> Free(old(disk.files), a, claims, 0) == 4
    ensures r.Ran? ==>
      if a.Permits(clock(1)) then Retrieval(a, clock, replies, r.sent, r.invocations, r.ending)
      else r == Ran([], 0, OutsideWindow)
  {
    if !a.Permits(clock(0)) || a.root == claims || !RootEmpty(disk.files, a.root) {
      return Invalid;
    }
    var held := Reserve(disk, owner, a, claims);
    if held < 4 {
      return Consumed(held);
    }
    if !a.Permits(clock(1)) {
      return Ran([], 0, OutsideWindow);
    }
    var sent, issued, ending := FetchPages(a, clock, replies);
    return Ran(sent, issued, ending);
  }

  /** A claim not yet attempted is on disk only if it was there before. */
  lemma OnlyOwnClaimsAdded(files: map<File, nat>, a: Authority, claims: Directory, owner: nat, k: nat)
    requires k < 4
    ensures ClaimFile(a, claims, k) in Claimed(files, a, claims, owner, k) <==> ClaimFile(a, claims, k) in files
  {
    forall j | 0 <= j < k
      ensures ClaimFile(a, claims, j) != ClaimFile(a, claims, k)
    {
      if ClaimFile(a, claims, j) == ClaimFile(a, claims, k) {
        ClaimFilesDiffer(a, a, claims, claims, j, k);
      }
    }
  }

  /** The driver run alone is the interleaved model's run of one process: same files, same requests. */
  function Solo(k: nat): seq<Event> {
    if k == 0 then [] else Solo(k - 1) + [Event(0, Claim)]
  }

  lemma {:induction false} SoloClaims(s: System, k: nat)
    requires |s.procs| == 1 && s.procs[0].phase == Claiming && s.procs[0].held == 0
    requires k <= Free(s.files, s.procs[0].authority, s.procs[0].claims, 0)
    ensures var p, t := s.procs[0], Run(s, Solo(k));
      && t.procs[0] == p.(held := k) && t.log == s.log
      && t.files == Claimed(s.files, p.authority, p.claims, 0, k)
  {
    if k > 0 {
      SoloClaims(s, k - 1);
      OnlyOwnClaimsAdded(s.files, s.procs[0].authority, s.procs[0].claims, 0, k - 1);
      assert Solo(k)[..|Solo(k)| - 1] == Solo(k - 1);
    }
  }

  /** One claim more, when its file is taken or all four are held. */
  lemma ClaimingStops(s: System)
    requires |s.procs| == 1 && s.procs[0].phase == Claiming && s.procs[0].held <= 4
    requires var p := s.procs[0]; p.held < 4 ==> ClaimFile(p.authority, p.claims, p.held) in s.files
    ensures var t := Step(s, Event(0, Claim));
      && t.files == s.files && t.procs[0].held == s.procs[0].held
      && (t.procs[0].phase == Blocked <==> s.procs[0].held < 4)
  {
  }

  /** Claiming on after the last free claim stops the process there, exactly as the driver does. */
  lemma SoloAgreesWithDriver(s: System)
    requires |s.procs| == 1 && s.procs[0].phase == Claiming && s.procs[0].held == 0
    ensures var p := s.procs[0];
      var n := Free(s.files, p.authority, p.claims, 0);
      var t := Run(s, Solo(n + 1));
      && t.files == Claimed(s.files, p.authority, p.claims, 0, n)
      && t.procs[0].held == n
      && (t.procs[0].phase == Blocked <==> n < 4)
  {
    var p := s.procs[0];
    var n := Free(s.files, p.authority, p.claims, 0);
    SoloClaims(s, n);
    assert Solo(n + 1)[..|Solo(n + 1)| - 1] == Solo(n);
    if n < 4 {
      OnlyOwnClaimsAdded(s.files, p.authority, p.claims, 0, n);
    }
    ClaimingStops(Run(s, Solo(n)));
  }
}
