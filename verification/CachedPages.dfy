/** Zero-network replay of cached trade pages p1, p2, ... of one session date. */
module CachedPages {
  import opened Common

  /** A cached page file: unreadable, or parsed trades with the raw next_page_token. */
  datatype File = Broken | Parsed(trades: seq<int>, raw: Option<string>)

  /** An empty token counts as none. */
  function Token(f: File): Option<string>
    requires f.Parsed?
  {
    if f.raw == Some("") then None else f.raw
  }

  datatype Error = MissingPage(index: nat) | UnreadablePage(index: nat) | RepeatedToken(index: nat) | OrphanPage(index: nat)

  /** Trades, page count and the files whose digests were taken. */
  datatype Replay = Replay(trades: seq<int>, pages: nat, digests: map<int, File>)

  // ----- What the loader accepts -----

  /** The page names no further one: its next_page_token is missing or empty. */
  predicate Ends(f: File)
    requires f.Parsed?
  {
    f.raw == None || f.raw == Some("")
  }

  /** Pages 1 to n are present and readable. */
  ghost predicate Present(dir: map<int, File>, n: nat) {
    forall k :: 1 <= k <= n ==> k in dir && dir[k].Parsed?
  }

  /** The first n pages each name a further page, all by different tokens. */
  ghost predicate GoesOn(dir: map<int, File>, n: nat)
    requires Present(dir, n)
  {
    && (forall k :: 1 <= k <= n ==> !Ends(dir[k]))
    && (forall j, k :: 1 <= j < k <= n ==> dir[j].raw != dir[k].raw)
  }

  /** Pages 1 to n are a complete chain: the earlier ones go on, the last does not, and no page follows. */
  ghost predicate Complete(dir: map<int, File>, n: nat) {
    && n >= 1 && Present(dir, n) && GoesOn(dir, n - 1)
    && Ends(dir[n])
    && n + 1 !in dir
  }

  function Trades(dir: map<int, File>, n: nat): seq<int>
    requires Present(dir, n)
  {
    if n == 0 then [] else Trades(dir, n - 1) + dir[n].trades
  }

  /** How many trades pages 1 to n hold. */
  function Before(dir: map<int, File>, n: nat): nat
    requires Present(dir, n)
  {
    if n == 0 then 0 else Before(dir, n - 1) + |dir[n].trades|
  }

  /** Page order: every entry of every page stands after the entries of the pages before it. */
  ghost predicate InPageOrder(dir: map<int, File>, n: nat, trades: seq<int>)
    requires Present(dir, n)
  {
    && |trades| == Before(dir, n)
    && forall k :: 1 <= k <= n ==> PageStands(dir, k, trades)
  }

  ghost predicate PageStands(dir: map<int, File>, k: nat, trades: seq<int>)
    requires k >= 1 && Present(dir, k)
  {
    var start := Before(dir, k - 1);
    start + |dir[k].trades| <= |trades| && trades[start..start + |dir[k].trades|] == dir[k].trades
  }

  lemma {:induction false} TradesInPageOrder(dir: map<int, File>, n: nat)
    requires Present(dir, n)
    ensures InPageOrder(dir, n, Trades(dir, n))
  {
    if n > 0 {
      var earlier := Trades(dir, n - 1);
      TradesInPageOrder(dir, n - 1);
      forall k | 1 <= k <= n
        ensures PageStands(dir, k, Trades(dir, n))
      {
        if k < n {
          assert PageStands(dir, k, earlier);
          var start := Before(dir, k - 1);
          assert Trades(dir, n)[start..start + |dir[k].trades|] == earlier[start..start + |dir[k].trades|];
        }
      }
    }
  }

  /** The files whose digests the loader takes. */
  function Digested(dir: map<int, File>, n: nat): (r: map<int, File>)
    requires Present(dir, n)
    ensures r == map k | 1 <= k <= n :: dir[k]
  {
    if n == 0 then map[] else Digested(dir, n - 1)[n := dir[n]]
  }

  /** What the loader says of page n, all earlier pages going on: the first fault, the end, or nothing. */
  ghost predicate Faulty(dir: map<int, File>, n: nat, e: Error) {
    && n >= 1 && Present(dir, n - 1) && GoesOn(dir, n - 1)
    && match e
       case MissingPage(i) => i == n && n !in dir
       case UnreadablePage(i) => i == n && n in dir && dir[n].Broken?
       case RepeatedToken(i) =>
         && i == n && n in dir && dir[n].Parsed? && !Ends(dir[n])
         && exists j :: 1 <= j < n && dir[j].raw == dir[n].raw
       case OrphanPage(i) => i == n + 1 && n in dir && dir[n].Parsed? && Ends(dir[n]) && n + 1 in dir
  }

  function From(dir: map<int, File>, index: int): set<int> {
    set k | k in dir && k >= index
  }

  /** The tokens of pages 1 to n. */
  function Seen(dir: map<int, File>, n: nat): set<string>
    requires Present(dir, n)
  {
    set k | 1 <= k <= n && Token(dir[k]).Some? :: Token(dir[k]).value
  }

  lemma SeenGrows(dir: map<int, File>, n: nat)
    requires n >= 1 && Present(dir, n) && Token(dir[n]).Some?
    ensures Seen(dir, n) == Seen(dir, n - 1) + {Token(dir[n]).value}
  {
  }

  /** One page of the loop: a fault, the end of the chain, or one more page that goes on. */
  method ReadPage(dir: map<int, File>, index: nat, seen: set<string>) returns (error: Option<Error>, more: bool)
    requires index >= 1 && Present(dir, index - 1) && GoesOn(dir, index - 1)
    requires seen == Seen(dir, index - 1)
    ensures error.Some? ==> Faulty(dir, index, error.value)
    ensures error.None? ==> Present(dir, index) && if more then GoesOn(dir, index) else Complete(dir, index)
  {
    error, more := None, false;
    if index !in dir {
      return Some(MissingPage(index)), more;
    }
    if dir[index].Broken? {
      return Some(UnreadablePage(index)), more;
    }
    var token := Token(dir[index]);
    if token.Some? {
      if token.value in seen {
        return Some(RepeatedToken(index)), more;
      }
      OneMoreGoesOn(dir, index);
      more := true;
    } else if index + 1 in dir {
      error := Some(OrphanPage(index + 1));
    }
  }

  /** The loader stops on every finite directory: each page read leaves fewer files at or after the next
      index. It accepts exactly the complete chains, returning the ordered concatenation of their trades
      and their own files; a refusal names the first fault. */
  method LoadCachedPages(dir: map<int, File>) returns (r: Result<Replay, Error>)
    ensures r.Ok? <==> exists n :: Complete(dir, n)
    ensures r.Ok? ==> Complete(dir, r.value.pages) && InPageOrder(dir, r.value.pages, r.value.trades)
    ensures r.Ok? ==> r.value.digests == map k | 1 <= k <= r.value.pages :: dir[k]
    ensures r.Err? ==> exists n :: Faulty(dir, n, r.error)
  {
    var trades: seq<int>, seen: set<string>, digests: map<int, File> := [], {}, map[];
    var index := 1;
    while true
      invariant index >= 1 && Present(dir, index - 1) && GoesOn(dir, index - 1)
      invariant trades == Trades(dir, index - 1)
      invariant seen == Seen(dir, index - 1)
      invariant digests == Digested(dir, index - 1)
      decreases |From(dir, index)|
    {
      var error, more := ReadPage(dir, index, seen);
      if error.Some? {
        FaultsExclude(dir, index, error.value);
        return Err(error.value);
      }
      digests := digests[index := dir[index]];
      trades := trades + dir[index].trades;
      if !more {
        TradesInPageOrder(dir, index);
        return Ok(Replay(trades, index, digests));
      }
      SeenGrows(dir, index);
      seen := seen + {Token(dir[index]).value};
      FewerRemain(dir, index);
      index := index + 1;
    }
  }

  lemma OneMoreGoesOn(dir: map<int, File>, index: nat)
    requires index >= 1 && Present(dir, index) && GoesOn(dir, index - 1) && !Ends(dir[index])
    requires forall k :: 1 <= k < index ==> dir[k].raw != dir[index].raw
    ensures GoesOn(dir, index)
  {
  }

  lemma FewerRemain(dir: map<int, File>, index: int)
    requires index in dir
    ensures |From(dir, index + 1)| < |From(dir, index)|
  {
    assert From(dir, index) == From(dir, index + 1) + {index};
  }

  /** A fault anywhere rules out every complete chain. */
  lemma FaultsExclude(dir: map<int, File>, n: nat, e: Error)
    requires Faulty(dir, n, e)
    ensures exists k :: Faulty(dir, k, e)
    ensures !exists m :: Complete(dir, m)
  {
    assert Faulty(dir, n, e);
    forall m: nat
      ensures !Complete(dir, m)
    {
      if 1 <= m < n {
        assert !Ends(dir[m]);
      }
    }
  }

  /** A directory holds at most one complete chain. */
  lemma CompleteIsUnique(dir: map<int, File>, m: nat, n: nat)
    requires Complete(dir, m)
    ensures Complete(dir, n) <==> m == n
  {
    if 1 <= n < m {
      assert !Ends(dir[n]);
    }
  }

  /** Only the very next page is looked for: files past it, such as page n + 2, change nothing. */
  lemma LaterFilesAreIgnored(dir: map<int, File>, other: map<int, File>, n: nat)
    requires Complete(dir, n)
    requires forall k :: 1 <= k <= n ==> k in other && other[k] == dir[k]
    ensures Complete(other, n) <==> n + 1 !in other
    ensures Present(other, n) && Trades(other, n) == Trades(dir, n)
  {
    SameTrades(dir, other, n);
  }

  lemma {:induction false} SameTrades(dir: map<int, File>, other: map<int, File>, n: nat)
    requires Present(dir, n) && forall k :: 1 <= k <= n ==> k in other && other[k] == dir[k]
    ensures Trades(other, n) == Trades(dir, n)
  {
    if n > 0 {
      SameTrades(dir, other, n - 1);
    }
  }

  /** Removing a page of a complete chain, or adding the page after it, makes loading fail. */
  lemma TamperingIsRefused(dir: map<int, File>, n: nat, k: nat, extra: File, m: nat)
    requires Complete(dir, n) && 1 <= k <= n
    ensures !Complete(dir - {k}, m)
    ensures !Complete(dir[n + 1 := extra], m)
  {
    var removed, added := dir - {k}, dir[n + 1 := extra];
    if 1 <= m < n {
      assert !Ends(dir[m]);
      assert m != k ==> !Ends(removed[m]);
      assert !Ends(added[m]);
    } else if n < m {
      assert Ends(added[n]);
      assert n != k ==> Ends(removed[n]);
    }
  }
}
