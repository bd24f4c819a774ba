/** Token-linked raw pages on disk: manifest records, chain verification, the verified loader. */
module PageChain {
  import opened Common
  import opened PageNames

  /** A response body. Its digest stands for it. `next` is its next_page_token. */
  datatype Payload = Payload(id: int, size: nat, json: bool, next: Option<string>)

  datatype Record =
    Record(tag: Tag, index: int, file: Name, request: Option<string>, next: Option<string>, bytes: nat, sha: Payload)

  datatype Error =
    | DirNotEmpty | RequestBudget | Http | ByteBudget | Malformed | ManifestExists | PageNameUnexpected
    | IndexGap | ChainBroken | TokenRepeated | ChainIncomplete
    | ManifestMissing | PagesMissing | PageSetMismatch | PageUnreadable | DigestMismatch | TokenMismatch

  function PageRecord(tag: Tag, index: nat, request: Option<string>, payload: Payload): Record {
    Record(tag, index, Page(tag, index), request, payload.next, payload.size, payload)
  }

  // ----- Chain verification -----

  function OfTag(records: seq<Record>, tag: Tag): seq<Record> {
    if records == [] then []
    else if records[0].tag == tag then [records[0]] + OfTag(records[1..], tag)
    else OfTag(records[1..], tag)
  }

  /** Stable sort by index. */
  function Insert(r: Record, sorted: seq<Record>): seq<Record> {
    if sorted == [] || sorted[|sorted| - 1].index <= r.index then sorted + [r]
    else Insert(r, sorted[..|sorted| - 1]) + [sorted[|sorted| - 1]]
  }

  function ByIndex(chain: seq<Record>): seq<Record> {
    if chain == [] then [] else Insert(chain[|chain| - 1], ByIndex(chain[..|chain| - 1]))
  }

  function LastNext(chain: seq<Record>): Option<string> {
    if chain == [] then None else chain[|chain| - 1].next
  }

  /** The checks of one record at its position. */
  function CheckRecord(before: seq<Record>, r: Record): Option<Error> {
    if r.index != |before| + 1 then Some(IndexGap)
    else if r.request != LastNext(before) then Some(ChainBroken)
    else if r.next.Some? && exists x | x in before :: x.next == r.next then Some(TokenRepeated)
    else None
  }

  function WalkChain(sorted: seq<Record>): Option<Error> {
    if sorted == [] then None
    else
      var before := sorted[..|sorted| - 1];
      if WalkChain(before).Some? then WalkChain(before) else CheckRecord(before, sorted[|sorted| - 1])
  }

  function VerifyTag(chain: seq<Record>): Option<Error> {
    var sorted := ByIndex(chain);
    if WalkChain(sorted).Some? then WalkChain(sorted)
    else if LastNext(sorted).Some? then Some(ChainIncomplete)
    else None
  }

  /** Tags are verified in order of first appearance. */
  function VerifyPageChain(records: seq<Record>): Option<Error> {
    if records == [] then None
    else
      var first := records[0].tag;
      var other := if first == Bars then CorporateActions else Bars;
      if VerifyTag(OfTag(records, first)).Some? then VerifyTag(OfTag(records, first))
      else VerifyTag(OfTag(records, other))
  }

  /** Record i sits at its position: index i + 1, its request token the previous next token, and its own
      next token, if any, not seen before. */
  ghost predicate Placed(chain: seq<Record>, i: nat)
    requires i < |chain|
  {
    && chain[i].index == i + 1
    && chain[i].request == LastNext(chain[..i])
    && (chain[i].next.Some? ==> forall j :: 0 <= j < i ==> chain[j].next != chain[i].next)
  }

  /** A well-linked chain in page order. */
  ghost predicate Linked(chain: seq<Record>) {
    forall i :: 0 <= i < |chain| ==> Placed(chain, i)
  }

  lemma PlacedInFront(chain: seq<Record>, i: nat)
    requires i < |chain| - 1
    ensures Placed(chain, i) <==> Placed(chain[..|chain| - 1], i)
  {
    var front := chain[..|chain| - 1];
    assert front[..i] == chain[..i] && front[i] == chain[i];
    assert forall j :: 0 <= j < i ==> front[j] == chain[j];
  }

  lemma PlacedLast(chain: seq<Record>)
    requires chain != []
    ensures Placed(chain, |chain| - 1) <==> CheckRecord(chain[..|chain| - 1], chain[|chain| - 1]).None?
  {
    var before, r := chain[..|chain| - 1], chain[|chain| - 1];
    if exists x | x in before :: x.next == r.next {
      var j :| 0 <= j < |before| && before[j].next == r.next;
      assert chain[j].next == r.next;
    }
    assert forall j :: 0 <= j < |before| ==> chain[j] in before;
  }

  lemma {:induction false} WalkMeansLinked(chain: seq<Record>)
    ensures WalkChain(chain).None? <==> Linked(chain)
  {
    if chain != [] {
      var front := chain[..|chain| - 1];
      WalkMeansLinked(front);
      PlacedLast(chain);
      forall i | 0 <= i < |front|
        ensures Placed(chain, i) <==> Placed(front, i)
      {
        PlacedInFront(chain, i);
      }
    }
  }

  /** Records already in page order are left alone by the sort. */
  lemma {:induction false} LinkedIsSorted(chain: seq<Record>)
    requires forall i :: 0 <= i < |chain| ==> chain[i].index == i + 1
    ensures ByIndex(chain) == chain
  {
    if chain != [] {
      var front := chain[..|chain| - 1];
      LinkedIsSorted(front);
      assert front + [chain[|chain| - 1]] == chain;
    }
  }

  /** Exactly when a chain given in page order is accepted. */
  lemma VerifyTagExactly(chain: seq<Record>)
    requires forall i :: 0 <= i < |chain| ==> chain[i].index == i + 1
    ensures VerifyTag(chain).None? <==> Linked(chain) && LastNext(chain).None?
    ensures Linked(chain) && LastNext(chain).Some? ==> VerifyTag(chain) == Some(ChainIncomplete)
  {
    LinkedIsSorted(chain);
    WalkMeansLinked(chain);
  }

  lemma {:induction false} OneTag(records: seq<Record>, tag: Tag)
    requires forall r | r in records :: r.tag == tag
    ensures OfTag(records, tag) == records
    ensures forall t | t != tag :: OfTag(records, t) == []
  {
    if records != [] {
      OneTag(records[1..], tag);
    }
  }

  lemma {:induction false} OfTagOfSum(a: seq<Record>, b: seq<Record>, tag: Tag)
    ensures OfTag(a + b, tag) == OfTag(a, tag) + OfTag(b, tag)
  {
    if a == [] {
      assert a + b == b;
    } else {
      OfTagOfSum(a[1..], b, tag);
      assert (a + b)[1..] == a[1..] + b;
    }
  }

  lemma VerifyBothTags(records: seq<Record>)
    ensures VerifyPageChain(records).None? <==>
      VerifyTag(OfTag(records, Bars)).None? && VerifyTag(OfTag(records, CorporateActions)).None?
  {
    if records == [] {
      assert OfTag(records, Bars) == [] && OfTag(records, CorporateActions) == [];
    }
  }

  /** A single tag's records, in page order, are accepted exactly when linked and ended by a null token. */
  lemma VerifyOneTag(records: seq<Record>, tag: Tag)
    requires forall r | r in records :: r.tag == tag
    requires forall i :: 0 <= i < |records| ==> records[i].index == i + 1
    ensures VerifyPageChain(records).None? <==> Linked(records) && LastNext(records).None?
    ensures records != [] && Linked(records) && LastNext(records).Some? ==> VerifyPageChain(records) == Some(ChainIncomplete)
  {
    OneTag(records, tag);
    VerifyTagExactly(records);
    VerifyBothTags(records);
    if records != [] {
      assert records[0] in records;
    }
  }

  // ----- Loader -----

  function CheckBytes(r: Record, payload: Payload): Option<Error> {
    if payload.size != r.bytes || payload != r.sha then Some(DigestMismatch)
    else if !payload.json then Some(Malformed)
    else if payload.next != r.next then Some(TokenMismatch)
    else None
  }

  function ReadPages(files: map<Name, Payload>, records: seq<Record>): Result<seq<Payload>, Error> {
    if records == [] then Ok([])
    else
      match ReadPages(files, records[..|records| - 1])
      case Err(e) => Err(e)
      case Ok(pages) =>
        var r := records[|records| - 1];
        if r.file !in files then Err(PageUnreadable)
        else if CheckBytes(r, files[r.file]).Some? then Err(CheckBytes(r, files[r.file]).value)
        else Ok(pages + [files[r.file]])
  }

  function Listed(records: seq<Record>): set<Name> {
    set r | r in records :: r.file
  }

  function OnDisk(files: map<Name, Payload>, tag: Tag): set<Name> {
    set n | n in files && Matches(n, tag)
  }

  function LoadVerifiedPages(files: map<Name, Payload>, manifest: Option<seq<Record>>, tag: Tag): Result<seq<Payload>, Error> {
    if manifest.None? then Err(ManifestMissing)
    else
      var records := OfTag(manifest.value, tag);
      if records == [] then Err(PagesMissing)
      else if VerifyPageChain(records).Some? then Err(VerifyPageChain(records).value)
      else if Listed(records) != OnDisk(files, tag) then Err(PageSetMismatch)
      else ReadPages(files, records)
  }

  lemma {:induction false} ReadPagesExactly(files: map<Name, Payload>, records: seq<Record>)
    ensures ReadPages(files, records).Ok? <==>
      forall i :: 0 <= i < |records| ==> records[i].file in files && CheckBytes(records[i], files[records[i].file]).None?
    ensures ReadPages(files, records).Ok? ==>
      var pages := ReadPages(files, records).value;
      |pages| == |records| && forall i :: 0 <= i < |records| ==> pages[i] == files[records[i].file] == records[i].sha
  {
    if records != [] {
      ReadPagesExactly(files, records[..|records| - 1]);
    }
  }

  // ----- Any manifest -----

  ghost predicate IndexOrder(chain: seq<Record>) {
    forall i, j :: 0 <= i < j < |chain| ==> chain[i].index <= chain[j].index
  }

  lemma {:induction false} InsertOrders(r: Record, sorted: seq<Record>)
    requires IndexOrder(sorted)
    ensures IndexOrder(Insert(r, sorted)) && multiset(Insert(r, sorted)) == multiset(sorted) + multiset{r}
  {
    if sorted != [] && sorted[|sorted| - 1].index > r.index {
      var front, last := sorted[..|sorted| - 1], sorted[|sorted| - 1];
      assert sorted == front + [last];
      InsertOrders(r, front);
      InsertedBelow(Insert(r, front), front, r, last);
    }
  }

  lemma InsertedBelow(t: seq<Record>, front: seq<Record>, r: Record, last: Record)
    requires IndexOrder(front + [last]) && r.index < last.index && IndexOrder(t)
    requires multiset(t) == multiset(front) + multiset{r}
    ensures IndexOrder(t + [last]) && multiset(t + [last]) == multiset(front + [last]) + multiset{r}
  {
    forall i | 0 <= i < |t|
      ensures t[i].index <= last.index
    {
      assert t[i] in multiset(t);
      if t[i] != r {
        var k :| 0 <= k < |front| && front[k] == t[i];
        assert (front + [last])[k] == front[k] && (front + [last])[|front|] == last;
      }
    }
  }

  /** The sort puts the same records in index order. */
  lemma {:induction false} SortOrders(chain: seq<Record>)
    ensures IndexOrder(ByIndex(chain)) && multiset(ByIndex(chain)) == multiset(chain)
  {
    if chain != [] {
      SortOrders(chain[..|chain| - 1]);
      InsertOrders(chain[|chain| - 1], ByIndex(chain[..|chain| - 1]));
      assert chain == chain[..|chain| - 1] + [chain[|chain| - 1]];
    }
  }

  /** Some order of the records is one linked chain that ends. */
  ghost predicate Chainable(records: seq<Record>) {
    exists order :: multiset(order) == multiset(records) && Linked(order) && LastNext(order).None?
  }

  /** Exactly when the records of one tag are accepted, in whatever order the manifest lists them: some order
      of them is linked and ended. */
  lemma VerifyTagMeans(chain: seq<Record>)
    ensures VerifyTag(chain).None? <==> Chainable(chain)
  {
    SortOrders(chain);
    WalkMeansLinked(ByIndex(chain));
    if VerifyTag(chain).None? {
      assert Linked(ByIndex(chain));
    }
    if order :| multiset(order) == multiset(chain) && Linked(order) && LastNext(order).None? {
      LinkedIsTheSort(order, chain);
    }
  }

  /** A linked order of the records is the one the sort finds. */
  lemma LinkedIsTheSort(order: seq<Record>, chain: seq<Record>)
    requires multiset(order) == multiset(chain) && Linked(order)
    ensures ByIndex(chain) == order
  {
    SortOrders(chain);
    LinkedCounts(order);
    assert |order| == |multiset(order)| && |ByIndex(chain)| == |multiset(ByIndex(chain))|;
    SameOrder(order, ByIndex(chain));
  }

  ghost predicate Counting(chain: seq<Record>) {
    forall i :: 0 <= i < |chain| ==> chain[i].index == i + 1
  }

  lemma LinkedCounts(chain: seq<Record>)
    requires Linked(chain)
    ensures Counting(chain)
  {
    forall i | 0 <= i < |chain|
      ensures chain[i].index == i + 1
    {
      assert Placed(chain, i);
    }
  }

  lemma SameLast(a: seq<Record>, b: seq<Record>)
    requires multiset(a) == multiset(b) && IndexOrder(b) && Counting(a) && a != [] && |a| == |b|
    ensures a[|a| - 1] == b[|b| - 1]
  {
    var n := |a| - 1;
    assert b[n] in multiset(b) && a[n] in multiset(a);
    assert b[n] in a && a[n] in b;
    var j :| 0 <= j < |a| && a[j] == b[n];
    var i :| 0 <= i < |b| && b[i] == a[n];
  }

  lemma SameFronts(u: seq<Record>, v: seq<Record>, last: Record)
    requires multiset(u + [last]) == multiset(v + [last]) && IndexOrder(v + [last]) && Counting(u + [last])
    ensures multiset(u) == multiset(v) && IndexOrder(v) && Counting(u)
  {
    assert multiset(u) == multiset(u + [last]) - multiset{last};
    assert multiset(v) == multiset(v + [last]) - multiset{last};
    assert forall i :: 0 <= i < |u| ==> (u + [last])[i] == u[i];
    assert forall i :: 0 <= i < |v| ==> (v + [last])[i] == v[i];
  }

  lemma {:induction false} SameOrder(a: seq<Record>, b: seq<Record>)
    requires multiset(a) == multiset(b) && |a| == |b| && IndexOrder(b) && Counting(a)
    ensures a == b
    decreases |a|, 0
  {
    if a != [] {
      SameLast(a, b);
      SameAfter(a[..|a| - 1], b[..|b| - 1], a[|a| - 1], a, b);
    }
  }

  lemma {:induction false} SameAfter(u: seq<Record>, v: seq<Record>, last: Record, a: seq<Record>, b: seq<Record>)
    requires a == u + [last] && b == v + [last] && |u| == |v|
    requires multiset(a) == multiset(b) && IndexOrder(b) && Counting(a)
    ensures a == b
    decreases |u|, 1
  {
    SameFronts(u, v, last);
    SameOrder(u, v);
  }

  /** The file of a record is there with the recorded size, digest and next token, and parses. */
  predicate RecordHolds(files: map<Name, Payload>, r: Record) {
    && r.file in files && files[r.file].size == r.bytes && files[r.file] == r.sha
    && files[r.file].json && files[r.file].next == r.next
  }

  ghost predicate AllHold(files: map<Name, Payload>, records: seq<Record>) {
    forall i :: 0 <= i < |records| ==> RecordHolds(files, records[i])
  }

  /** Exactly when the loader accepts, for any manifest and any files: the tag has records, some order of
      them is one linked ended chain, they name exactly the files the pattern matches, and every file is
      as recorded. It returns the files in the order the manifest lists them. */
  lemma LoaderMeans(files: map<Name, Payload>, manifest: seq<Record>, tag: Tag)
    ensures var records := OfTag(manifest, tag);
      LoadVerifiedPages(files, Some(manifest), tag).Ok?
      <==> records != [] && Chainable(records) && Listed(records) == OnDisk(files, tag) && AllHold(files, records)
    ensures var records := OfTag(manifest, tag);
      var loaded := LoadVerifiedPages(files, Some(manifest), tag);
      loaded.Ok? ==>
        && |loaded.value| == |records| && AllHold(files, records)
        && forall i :: 0 <= i < |records| ==> loaded.value[i] == files[records[i].file]
  {
    var records := OfTag(manifest, tag);
    TagVerifies(manifest, tag);
    ReadPagesExactly(files, records);
    assert forall i :: 0 <= i < |records| && records[i].file in files ==>
      (CheckBytes(records[i], files[records[i].file]).None? <==> RecordHolds(files, records[i]));
  }

  lemma TagVerifies(manifest: seq<Record>, tag: Tag)
    ensures VerifyPageChain(OfTag(manifest, tag)).None? <==> Chainable(OfTag(manifest, tag))
  {
    var records := OfTag(manifest, tag);
    TagOnly(manifest, tag);
    OneTag(records, tag);
    VerifyBothTags(records);
    VerifyTagMeans(records);
    EmptyTagVerifies();
  }

  lemma {:induction false} TagOnly(manifest: seq<Record>, tag: Tag)
    ensures forall r | r in OfTag(manifest, tag) :: r.tag == tag
  {
    if manifest != [] {
      TagOnly(manifest[1..], tag);
    }
  }

  lemma EmptyTagVerifies()
    ensures VerifyTag([]).None?
  {
  }

  // ----- Manifests their writers produced -----

  /** What a writer leaves for one tag: every record describes the payload it wrote, in page order. */
  ghost predicate Faithful(records: seq<Record>, tag: Tag, payloads: seq<Payload>) {
    && |records| == |payloads|
    && forall i :: 0 <= i < |records| ==>
         payloads[i].json && records[i] == PageRecord(tag, i + 1, records[i].request, payloads[i])
  }

  /** The files of the tag are exactly the pages written, with their contents. */
  predicate Intact(files: map<Name, Payload>, tag: Tag, payloads: seq<Payload>) {
    var names := Numbered(tag, |payloads|);
    && OnDisk(files, tag) == (set n | n in names)
    && forall i :: 0 <= i < |payloads| ==> names[i] in files && files[names[i]] == payloads[i]
  }

  lemma AcceptedIsIntact(files: map<Name, Payload>, records: seq<Record>, tag: Tag, payloads: seq<Payload>)
    requires Faithful(records, tag, payloads)
    requires Listed(records) == OnDisk(files, tag) && ReadPages(files, records).Ok?
    ensures Intact(files, tag, payloads) && ReadPages(files, records).value == payloads
  {
    ReadPagesExactly(files, records);
    ListedPages(records, tag, payloads);
    var names := Numbered(tag, |payloads|);
    forall i | 0 <= i < |payloads|
      ensures names[i] in files && files[names[i]] == payloads[i]
    {
      assert records[i].file == names[i] && records[i].sha == payloads[i];
    }
  }

  lemma IntactIsAccepted(files: map<Name, Payload>, records: seq<Record>, tag: Tag, payloads: seq<Payload>)
    requires Faithful(records, tag, payloads) && Intact(files, tag, payloads)
    ensures Listed(records) == OnDisk(files, tag) && ReadPages(files, records).Ok?
  {
    ReadPagesExactly(files, records);
    ListedPages(records, tag, payloads);
    forall i | 0 <= i < |records|
      ensures records[i].file in files && CheckBytes(records[i], files[records[i].file]).None?
    {
      assert records[i].file == Numbered(tag, |payloads|)[i];
    }
  }

  /** Exactly when the loader accepts a faithful manifest: the files of the tag are the recorded pages
      with their recorded contents, and the chain is linked and complete. It then returns the payloads in
      page order. */
  lemma LoaderExactly(files: map<Name, Payload>, manifest: seq<Record>, tag: Tag, payloads: seq<Payload>)
    requires Faithful(OfTag(manifest, tag), tag, payloads) && payloads != []
    ensures var records := OfTag(manifest, tag);
      var loaded := LoadVerifiedPages(files, Some(manifest), tag);
      && (loaded.Ok? <==> Linked(records) && LastNext(records).None? && Intact(files, tag, payloads))
      && (loaded.Ok? ==> loaded.value == payloads)
  {
    var records := OfTag(manifest, tag);
    VerifyOneTag(records, tag);
    if Intact(files, tag, payloads) {
      IntactIsAccepted(files, records, tag, payloads);
    }
    if Listed(records) == OnDisk(files, tag) && ReadPages(files, records).Ok? {
      AcceptedIsIntact(files, records, tag, payloads);
    }
  }

  lemma ListedPages(records: seq<Record>, tag: Tag, payloads: seq<Payload>)
    requires Faithful(records, tag, payloads)
    ensures Listed(records) == set n | n in Numbered(tag, |payloads|)
  {
    var names := Numbered(tag, |payloads|);
    forall n
      ensures n in Listed(records) <==> n in names
    {
      if n in names {
        var i :| 0 <= i < |names| && names[i] == n;
        assert records[i] in records && records[i].file == n;
      }
      if n in Listed(records) {
        var r :| r in records && r.file == n;
        var i :| 0 <= i < |records| && records[i] == r;
        assert names[i] == n;
      }
    }
  }

  /** Adding or removing one file the tag's pattern matches, or altering a page, makes loading fail. */
  lemma TamperingIsDetected(
    files: map<Name, Payload>, manifest: seq<Record>, tag: Tag, payloads: seq<Payload>, name: Name, other: Payload)
    requires Faithful(OfTag(manifest, tag), tag, payloads) && payloads != []
    requires LoadVerifiedPages(files, Some(manifest), tag).Ok? && Matches(name, tag)
    ensures name !in files ==> LoadVerifiedPages(files[name := other], Some(manifest), tag).Err?
    ensures name in files ==> LoadVerifiedPages(files - {name}, Some(manifest), tag).Err?
    ensures name in files && other != files[name] ==> LoadVerifiedPages(files[name := other], Some(manifest), tag).Err?
  {
    LoaderExactly(files, manifest, tag, payloads);
    var added, removed := files[name := other], files - {name};
    LoaderExactly(added, manifest, tag, payloads);
    LoaderExactly(removed, manifest, tag, payloads);
    assert name in OnDisk(added, tag) && name !in OnDisk(removed, tag);
    if name in files {
      assert name in OnDisk(files, tag);
      var names := Numbered(tag, |payloads|);
      assert name in names;
      var i :| 0 <= i < |names| && names[i] == name;
      assert files[names[i]] == payloads[i] && added[names[i]] == other;
    }
  }
}
