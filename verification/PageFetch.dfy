/** Writing page chains: the paginated fetch loop, sealing of pages already on disk, and what the
    verified loader makes of both. */
module PageFetch {
  import opened Common
  import opened PageChain
  import opened PageNames

  const MAX_REQUESTS := 32
  const MAX_RESPONSE_BYTES := 8_388_608

  /** The provider's answer to one request. */
  datatype Reply = Reply(status: int, payload: Payload)

  class RawDirectory {
    var files: map<Name, Payload>
    var manifest: Option<seq<Record>>

    constructor ()
      ensures files == map[] && manifest == None
    {
      files, manifest := map[], None;
    }

    predicate Empty()
      reads this
    {
      files == map[] && manifest == None
    }
  }

  function Bytes(records: seq<Record>): nat {
    if records == [] then 0 else Bytes(records[..|records| - 1]) + records[|records| - 1].bytes
  }

  /** The files a list of records stands for. */
  function Written(records: seq<Record>): (r: map<Name, Payload>) {
    if records == [] then map[]
    else Written(records[..|records| - 1])[records[|records| - 1].file := records[|records| - 1].sha]
  }

  /** The first page is the whole answer. */
  predicate SinglePage(reply: Reply) {
    && reply.status == 200
    && reply.payload.size <= 8 * 1024 * 1024
    && reply.payload.json
    && reply.payload.next == None
  }

  /** Why a response is not kept, if it is not. */
  function Refusal(observed: nat, reply: Reply): Option<Error> {
    if reply.status != 200 then Some(Http)
    else if observed + reply.payload.size > MAX_RESPONSE_BYTES then Some(ByteBudget)
    else if !reply.payload.json then Some(Malformed)
    else None
  }

  /** One pass of the loop: write the response unless refused, then verify the pages before it. */
  method KeepPage(dir: RawDirectory, tag: Tag, earlier: seq<Record>, token: Option<string>, reply: Reply)
    returns (error: Option<Error>, records: seq<Record>)
    requires |earlier| <= 1 && dir.files == Written(earlier) && Bytes(earlier) <= MAX_RESPONSE_BYTES
    requires forall r | r in earlier :: r == PageRecord(tag, 1, None, r.sha) && r.next.Some?
    modifies dir`files
    ensures dir.files == Written(records) && Bytes(records) <= MAX_RESPONSE_BYTES
    ensures var refusal := Refusal(Bytes(earlier), reply);
      if refusal.Some? then error == refusal && records == earlier
      else
        && error == (if earlier == [] then None else Some(ChainIncomplete))
        && records == earlier + [PageRecord(tag, |earlier| + 1, token, reply.payload)]
  {
    error := Refusal(Bytes(earlier), reply);
    if error.Some? {
      return error, earlier;
    }
    var record := PageRecord(tag, |earlier| + 1, token, reply.payload);
    dir.files := dir.files[record.file := reply.payload];
    records := earlier + [record];
    assert records[..|records| - 1] == earlier;
    error := VerifyEarlier(earlier, tag);
  }

  /** One request series into a new directory. `replies[n]` answers request n.

      The loop verifies the pages before the current one as if they were a complete chain. A chain whose
      last page names a further page is refused as incomplete, so a second page can never be kept: the
      fetch succeeds exactly when the first page is the whole answer. Whatever happens, at most two
      requests are made, and what is on disk is within the byte budget. */
  method Fetch(dir: RawDirectory, tag: Tag, replies: seq<Reply>)
    returns (error: Option<Error>, records: seq<Record>, requests: nat)
    requires |replies| == MAX_REQUESTS
    modifies dir
    ensures error.None? <==> old(dir.Empty()) && SinglePage(replies[0])
    ensures error.None? ==> records == [PageRecord(tag, 1, None, replies[0].payload)]
    ensures dir.manifest == if error.None? then Some(records) else old(dir.manifest)
    ensures |records| <= requests <= 2
    ensures if old(dir.Empty()) then dir.files == Written(records) && Bytes(records) <= 8 * 1024 * 1024
            else error == Some(DirNotEmpty) && dir.files == old(dir.files) && requests == 0
    ensures |records| == 2 ==> error == Some(ChainIncomplete)
  {
    records, requests := [], 0;
    if !dir.Empty() {
      return Some(DirNotEmpty), records, requests;
    }
    var token: Option<string> := None;
    while requests == 0 || token.Some?
      invariant |records| == requests <= 1 && Bytes(records) <= MAX_RESPONSE_BYTES
      invariant dir.files == Written(records) && dir.manifest == None
      invariant requests == 0 ==> token == None
      invariant requests == 1 ==> records == [PageRecord(tag, 1, None, replies[0].payload)]
      invariant requests == 1 ==> token == records[0].next && Refusal(0, replies[0]).None?
      decreases MAX_REQUESTS - requests
    {
      if |records| >= MAX_REQUESTS {
        return Some(RequestBudget), records, requests;
      }
      error, records := KeepPage(dir, tag, records, token, replies[requests]);
      requests := requests + 1;
      if error.Some? {
        return;
      }
      token := records[|records| - 1].next;
    }
    error := VerifyWhole(records, tag);
    dir.manifest := Some(records);
  }

  /** The check made inside the loop, on the pages before the current one. */
  method VerifyEarlier(earlier: seq<Record>, tag: Tag) returns (error: Option<Error>)
    requires |earlier| <= 1
    requires forall r | r in earlier :: r == PageRecord(tag, 1, None, r.sha) && r.next.Some?
    ensures error == if earlier == [] then None else Some(ChainIncomplete)
  {
    error := VerifyPageChain(earlier);
    if earlier != [] {
      assert earlier[0] in earlier && earlier[..0] == [];
      VerifyOneTag(earlier, tag);
    }
  }

  /** The check made once the last page is in. */
  method VerifyWhole(records: seq<Record>, tag: Tag) returns (error: Option<Error>)
    requires |records| == 1 && records[0] == PageRecord(tag, 1, None, records[0].sha) && records[0].next.None?
    ensures error == None
  {
    error := VerifyPageChain(records);
    assert records[..0] == [];
    VerifyOneTag(records, tag);
  }

  /** The loop check refuses every proper prefix of every chain that goes on: no chain of two or more
      pages, however well linked, gets past it. */
  lemma EveryLongerChainIsRefused(chain: seq<Record>, tag: Tag, k: nat)
    requires Linked(chain) && (forall r | r in chain :: r.tag == tag)
    requires 0 < k < |chain| && chain[k - 1].next.Some?
    ensures VerifyPageChain(chain[..k]) == Some(ChainIncomplete)
  {
    var prefix := chain[..k];
    forall i | 0 <= i < k
      ensures Placed(prefix, i) && prefix[i].index == i + 1
    {
      assert Placed(chain, i) && prefix[..i] == chain[..i] && prefix[i] == chain[i];
      assert forall j :: 0 <= j < i ==> prefix[j] == chain[j];
    }
    VerifyOneTag(prefix, tag);
  }

  /** A concrete two-page answer that fails: one token, then the end. */
  lemma TwoPagesCannotBeFetched()
    ensures var first := PageRecord(Bars, 1, None, Payload(1, 10, true, Some("t")));
      var second := PageRecord(Bars, 2, Some("t"), Payload(2, 10, true, None));
      VerifyPageChain([first, second]).None? && VerifyPageChain([first]) == Some(ChainIncomplete)
  {
    var first := PageRecord(Bars, 1, None, Payload(1, 10, true, Some("t")));
    var second := PageRecord(Bars, 2, Some("t"), Payload(2, 10, true, None));
    var chain := [first, second];
    assert Placed(chain, 0) && chain[..1] == [first] && Placed(chain, 1);
    VerifyOneTag(chain, Bars);
    EveryLongerChainIsRefused(chain, Bars, 1);
  }

  // ----- Sealing pages that are already on disk -----

  /** Records inferred from pages in listing order: request tokens are the previous pages' next ones. */
  function Infer(tag: Tag, pages: seq<Payload>): (r: seq<Record>)
    ensures |r| == |pages|
  {
    if pages == [] then []
    else
      var before := Infer(tag, pages[..|pages| - 1]);
      before + [PageRecord(tag, |pages|, LastNext(before), pages[|pages| - 1])]
  }

  function Manifest(bars: seq<Payload>, actions: seq<Payload>): seq<Record> {
    Infer(Bars, bars) + Infer(CorporateActions, actions)
  }

  function Contents(files: map<Name, Payload>, names: seq<Name>): (r: seq<Payload>)
    requires forall n | n in names :: n in files
    ensures |r| == |names|
    ensures forall i :: 0 <= i < |r| ==> r[i] == files[names[i]]
  {
    seq(|names|, i requires 0 <= i < |names| => files[names[i]])
  }

  /** Contents of the tag's files in name order. */
  ghost function Pages(files: map<Name, Payload>, tag: Tag): seq<Payload> {
    Contents(files, Listing(files.Keys, tag))
  }

  predicate AllJson(pages: seq<Payload>) {
    forall p | p in pages :: p.json
  }

  /** The listing is that of readable pages 1 to n. */
  predicate Named(files: map<Name, Payload>, tag: Tag, names: seq<Name>)
    requires forall n | n in names :: n in files
  {
    names == Numbered(tag, |names|) && AllJson(Contents(files, names))
  }

  /** The record of one enumerated page. */
  method SealPage(tag: Tag, index: nat, token: Option<string>, name: Name, payload: Payload)
    returns (error: Option<Error>, record: Record)
    ensures record == PageRecord(tag, index, token, payload)
    ensures error ==
      if !payload.json then Some(Malformed)
      else if name != Page(tag, index) then Some(PageNameUnexpected)
      else None
  {
    record := PageRecord(tag, index, token, payload);
    error := if !payload.json then Some(Malformed) else if record.file != name then Some(PageNameUnexpected) else None;
  }

  /** Entry i of the inferred records. */
  ghost predicate InferredAt(tag: Tag, pages: seq<Payload>, records: seq<Record>, i: nat)
    requires i < |pages| == |records|
  {
    records[i] == PageRecord(tag, i + 1, LastNext(records[..i]), pages[i])
  }

  lemma {:induction false} InferEntries(tag: Tag, pages: seq<Payload>)
    ensures forall i :: 0 <= i < |pages| ==> InferredAt(tag, pages, Infer(tag, pages), i)
  {
    if pages != [] {
      var front := pages[..|pages| - 1];
      InferEntries(tag, front);
      var r, before := Infer(tag, pages), Infer(tag, front);
      forall i | 0 <= i < |pages|
        ensures InferredAt(tag, pages, r, i)
      {
        assert r[..i] == before[..i];
        assert i < |front| ==> InferredAt(tag, front, before, i);
      }
    }
  }

  /** Seal one tag's files, enumerated in name order from 1. */
  method SealTag(files: map<Name, Payload>, tag: Tag, names: seq<Name>) returns (error: Option<Error>, records: seq<Record>)
    requires forall n | n in names :: n in files
    ensures error.None? <==> Named(files, tag, names)
    ensures error.None? ==> records == Infer(tag, Contents(files, names))
    ensures AllJson(Contents(files, names)) && error.Some? ==> error == Some(PageNameUnexpected)
  {
    ghost var pages := Contents(files, names);
    InferEntries(tag, pages);
    error, records := SealAll(tag, names, Contents(files, names), Infer(tag, pages));
    InferredFiles(tag, names, pages, Infer(tag, pages));
  }

  lemma InferredFiles(tag: Tag, names: seq<Name>, pages: seq<Payload>, inferred: seq<Record>)
    requires |names| == |pages| == |inferred|
    requires forall i :: 0 <= i < |inferred| ==> InferredAt(tag, pages, inferred, i)
    ensures (forall i :: 0 <= i < |names| ==> names[i] == inferred[i].file && pages[i].json)
        <==> names == Numbered(tag, |names|) && AllJson(pages)
  {
    var expected := Numbered(tag, |names|);
    forall i | 0 <= i < |names|
      ensures inferred[i].file == expected[i] && pages[i] in pages
    {
      assert InferredAt(tag, pages, inferred, i);
    }
  }

  /** The loop over the enumerated pages, with the records it is to infer. */
  method SealAll(tag: Tag, names: seq<Name>, pages: seq<Payload>, ghost inferred: seq<Record>)
    returns (error: Option<Error>, records: seq<Record>)
    requires |names| == |pages| == |inferred|
    requires forall i :: 0 <= i < |inferred| ==> InferredAt(tag, pages, inferred, i)
    ensures error.None? <==> forall i :: 0 <= i < |names| ==> names[i] == inferred[i].file && pages[i].json
    ensures error.None? ==> records == inferred
    ensures AllJson(pages) && error.Some? ==> error == Some(PageNameUnexpected)
  {
    records, error := [], None;
    for i := 0 to |names|
      invariant error == None && records == inferred[..i]
      invariant forall j :: 0 <= j < i ==> names[j] == inferred[j].file && pages[j].json
    {
      var record: Record;
      assert InferredAt(tag, pages, inferred, i);
      error, record := SealPage(tag, i + 1, LastNext(records), names[i], pages[i]);
      if error.Some? {
        assert pages[i] in pages;
        return;
      }
      records := records + [record];
    }
  }

  /** Non-null tokens are pairwise distinct and the last page names no further one. */
  ghost predicate TokensEnd(pages: seq<Payload>) {
    && (pages != [] ==> pages[|pages| - 1].next.None?)
    && forall i, j :: 0 <= i < j < |pages| && pages[j].next.Some? ==> pages[i].next != pages[j].next
  }

  /** What a seal can accept for one tag: the files are pages 1 to n with n at most 99, each readable,
      tokens distinct and ended. */
  ghost predicate Sealable(files: map<Name, Payload>, tag: Tag, pages: seq<Payload>) {
    Intact(files, tag, pages) && AllJson(pages) && |pages| <= 99 && TokensEnd(pages)
  }

  /** Seal both tags' files as they stand. */
  method SealLegacy(dir: RawDirectory) returns (error: Option<Error>)
    modifies dir`manifest
    ensures error.None? <==>
      && old(dir.manifest) == None
      && Sealable(dir.files, Bars, Pages(dir.files, Bars))
      && Sealable(dir.files, CorporateActions, Pages(dir.files, CorporateActions))
    ensures dir.manifest ==
      if error.None? then Some(Manifest(Pages(dir.files, Bars), Pages(dir.files, CorporateActions))) else old(dir.manifest)
  {
    if dir.manifest.Some? {
      return Some(ManifestExists);
    }
    var names := SortedNames(dir.files.Keys, Bars);
    var first, second: seq<Record>;
    NamedIsIntact(dir.files, Bars);
    error, first := SealTag(dir.files, Bars, names);
    if error.Some? {
      return;
    }
    names := SortedNames(dir.files.Keys, CorporateActions);
    NamedIsIntact(dir.files, CorporateActions);
    error, second := SealTag(dir.files, CorporateActions, names);
    if error.Some? {
      return;
    }
    ManifestVerifies(Pages(dir.files, Bars), Pages(dir.files, CorporateActions));
    error := VerifyPageChain(first + second);
    if error.Some? {
      return;
    }
    dir.manifest := Some(first + second);
  }

  /** Enumerating the name order from 1 meets the right names exactly when the files are the pages 1 to
      n and n is at most 99: page 100 sorts before page 11. */
  lemma NamedIsIntact(files: map<Name, Payload>, tag: Tag)
    ensures Named(files, tag, Listing(files.Keys, tag)) <==>
      Intact(files, tag, Pages(files, tag)) && AllJson(Pages(files, tag)) && |Pages(files, tag)| <= 99
  {
    var names, pages := Listing(files.Keys, tag), Pages(files, tag);
    var n := |names|;
    NumberedInOrder(tag, n);
    if Intact(files, tag, pages) && n <= 99 {
      IntactListing(files, tag, pages);
    }
  }

  /** The listing of an intact tag with at most 99 pages. */
  lemma IntactListing(files: map<Name, Payload>, tag: Tag, pages: seq<Payload>)
    requires Intact(files, tag, pages) && |pages| <= 99
    ensures Listing(files.Keys, tag) == Numbered(tag, |pages|) && Pages(files, tag) == pages
  {
    var names := Numbered(tag, |pages|);
    forall m
      ensures m in names <==> m in files.Keys && Matches(m, tag)
    {
      assert m in OnDisk(files, tag) <==> m in files && Matches(m, tag);
    }
    ListingOfPages(files.Keys, tag, |pages|);
  }

  lemma LongListingIsUnnamed(files: map<Name, Payload>, tag: Tag, pages: seq<Payload>)
    requires Intact(files, tag, pages) && |pages| > 99
    ensures !Named(files, tag, Listing(files.Keys, tag))
  {
    NamedIsIntact(files, tag);
    if Named(files, tag, Listing(files.Keys, tag)) {
      HundredIsPresent(files, tag, pages);
      HundredIsPresent(files, tag, Pages(files, tag));
    }
  }

  lemma HundredIsPresent(files: map<Name, Payload>, tag: Tag, pages: seq<Payload>)
    requires Intact(files, tag, pages)
    ensures Page(tag, 100) in OnDisk(files, tag) <==> |pages| > 99
  {
    if |pages| <= 99 {
      HundredIsNew(tag, |pages|);
    } else {
      assert Numbered(tag, |pages|)[99] == Page(tag, 100);
    }
  }

  /** The seal of an intact tag succeeds if and only if it has at most 99 pages and its tokens end. */
  lemma SealExactly(files: map<Name, Payload>, tag: Tag, pages: seq<Payload>)
    requires Intact(files, tag, pages) && AllJson(pages)
    ensures Sealable(files, tag, Pages(files, tag)) <==> |pages| <= 99 && TokensEnd(pages)
    ensures |pages| <= 99 ==> Pages(files, tag) == pages
  {
    if |pages| <= 99 {
      IntactListing(files, tag, pages);
    } else if Sealable(files, tag, Pages(files, tag)) {
      HundredIsPresent(files, tag, pages);
      HundredIsPresent(files, tag, Pages(files, tag));
    }
  }

  lemma InferIsFaithful(tag: Tag, pages: seq<Payload>)
    requires AllJson(pages)
    ensures Faithful(Infer(tag, pages), tag, pages)
    ensures forall i :: 0 <= i < |pages| ==>
      var r := Infer(tag, pages); r[i].index == i + 1 && r[i].request == LastNext(r[..i]) && r[i].tag == tag
  {
    InferEntries(tag, pages);
    forall i | 0 <= i < |pages|
      ensures pages[i].json && InferredAt(tag, pages, Infer(tag, pages), i)
    {
      assert pages[i] in pages;
    }
  }

  lemma InferIsLinked(tag: Tag, pages: seq<Payload>)
    requires AllJson(pages)
    ensures Linked(Infer(tag, pages)) && LastNext(Infer(tag, pages)).None? <==> TokensEnd(pages)
  {
    InferIsFaithful(tag, pages);
    var r := Infer(tag, pages);
    assert forall i :: 0 <= i < |r| ==> r[i].next == pages[i].next;
    if Linked(r) && LastNext(r).None? {
      forall i, j | 0 <= i < j < |pages| && pages[j].next.Some?
        ensures pages[i].next != pages[j].next
      {
        assert Placed(r, j);
      }
    }
    if TokensEnd(pages) {
      forall i | 0 <= i < |r|
        ensures Placed(r, i)
      {
      }
    }
  }

  lemma InferredTags(bars: seq<Payload>, actions: seq<Payload>)
    requires AllJson(bars) && AllJson(actions)
    ensures var manifest := Manifest(bars, actions);
      OfTag(manifest, Bars) == Infer(Bars, bars) && OfTag(manifest, CorporateActions) == Infer(CorporateActions, actions)
  {
    var first, second := Infer(Bars, bars), Infer(CorporateActions, actions);
    InferIsFaithful(Bars, bars);
    InferIsFaithful(CorporateActions, actions);
    OneTag(first, Bars);
    OneTag(second, CorporateActions);
    OfTagOfSum(first, second, Bars);
    OfTagOfSum(first, second, CorporateActions);
    assert first + [] == first && [] + second == second;
  }

  lemma InferredTagVerifies(tag: Tag, pages: seq<Payload>)
    requires AllJson(pages)
    ensures VerifyTag(Infer(tag, pages)).None? <==> TokensEnd(pages)
  {
    InferIsFaithful(tag, pages);
    InferIsLinked(tag, pages);
    VerifyTagExactly(Infer(tag, pages));
  }

  lemma ManifestVerifies(bars: seq<Payload>, actions: seq<Payload>)
    requires AllJson(bars) && AllJson(actions)
    ensures VerifyPageChain(Manifest(bars, actions)).None? <==> TokensEnd(bars) && TokensEnd(actions)
  {
    InferredTags(bars, actions);
    VerifyBothTags(Manifest(bars, actions));
    InferredTagVerifies(Bars, bars);
    InferredTagVerifies(CorporateActions, actions);
  }

  /** The loader reads an inferred manifest back exactly when the tokens end, however many pages there are. */
  lemma InferredTagLoads(files: map<Name, Payload>, manifest: seq<Record>, tag: Tag, pages: seq<Payload>)
    requires OfTag(manifest, tag) == Infer(tag, pages) && pages != []
    requires Intact(files, tag, pages) && AllJson(pages)
    ensures LoadVerifiedPages(files, Some(manifest), tag) == Ok(pages) <==> TokensEnd(pages)
  {
    InferIsFaithful(tag, pages);
    InferIsLinked(tag, pages);
    LoaderExactly(files, manifest, tag, pages);
  }

  /** Round trip of a seal: the manifest it writes for a directory makes the loader give back each tag's
      pages, in page order. */
  lemma SealedPagesLoad(files: map<Name, Payload>, bars: seq<Payload>, actions: seq<Payload>)
    requires Sealable(files, Bars, bars) && Sealable(files, CorporateActions, actions)
    ensures Pages(files, Bars) == bars && Pages(files, CorporateActions) == actions
    ensures var manifest := Some(Manifest(Pages(files, Bars), Pages(files, CorporateActions)));
      && (bars != [] ==> LoadVerifiedPages(files, manifest, Bars) == Ok(bars))
      && (actions != [] ==> LoadVerifiedPages(files, manifest, CorporateActions) == Ok(actions))
  {
    SealExactly(files, Bars, bars);
    SealExactly(files, CorporateActions, actions);
    InferredTags(bars, actions);
    if bars != [] {
      InferredTagLoads(files, Manifest(bars, actions), Bars, bars);
    }
    if actions != [] {
      InferredTagLoads(files, Manifest(bars, actions), CorporateActions, actions);
    }
  }

  /** The limit is the seal's alone: an intact chain of a hundred pages or more whose tokens end is never
      sealed, although the loader would read it back from the manifest a longer numbering would write. */
  lemma LongChainsCannotBeSealed(files: map<Name, Payload>, bars: seq<Payload>)
    requires Intact(files, Bars, bars) && AllJson(bars) && TokensEnd(bars) && |bars| > 99
    ensures !Sealable(files, Bars, Pages(files, Bars)) && !Named(files, Bars, Listing(files.Keys, Bars))
    ensures LoadVerifiedPages(files, Some(Manifest(bars, [])), Bars) == Ok(bars)
  {
    SealExactly(files, Bars, bars);
    LongListingIsUnnamed(files, Bars, bars);
    InferredTags(bars, []);
    InferredTagLoads(files, Manifest(bars, []), Bars, bars);
  }

  /** Round trip for the fetch: what it keeps, the loader reads back. */
  lemma FetchedPageLoads(tag: Tag, payload: Payload)
    requires payload.json && payload.next.None?
    ensures var records := [PageRecord(tag, 1, None, payload)];
      LoadVerifiedPages(Written(records), Some(records), tag) == Ok([payload])
  {
    var records := [PageRecord(tag, 1, None, payload)];
    assert records[..0] == [] && Written(records) == map[Page(tag, 1) := payload];
    assert Infer(tag, [payload]) == records by {
      assert [payload][..0] == [];
    }
    assert Numbered(tag, 1) == [Page(tag, 1)];
    InferIsFaithful(tag, [payload]);
    OneTag(records, tag);
    InferredTagLoads(Written(records), records, tag, [payload]);
  }
}
