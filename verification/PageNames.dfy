/** Names of raw page files, and the order in which a directory listing sorts them. */
module PageNames {

  datatype Tag = Bars | CorporateActions

  /** A file of the raw directory: `<tag>_page_<text>.json`, or one that neither tag's pattern matches. */
  datatype Name = Matching(tag: Tag, text: string) | Unrelated(id: int)

  predicate Matches(name: Name, tag: Tag) {
    name.Matching? && name.tag == tag
  }

  // ----- Two-digit numbering -----

  const DIGITS := "0123456789"

  function Decimal(i: nat): string {
    if i < 10 then [DIGITS[i]] else Decimal(i / 10) + [DIGITS[i % 10]]
  }

  /** The number in decimal, padded with zeros to two places. */
  function Padded(i: nat): string {
    if i < 10 then "0" + Decimal(i) else Decimal(i)
  }

  function Page(tag: Tag, index: nat): Name {
    Matching(tag, Padded(index))
  }

  // ----- Name order -----

  /** Lexicographic order by character code. */
  predicate Below(a: string, b: string) {
    b != [] && (a == [] || a[0] < b[0] || (a[0] == b[0] && Below(a[1..], b[1..])))
  }

  lemma {:induction false} BelowIsTotal(a: string, b: string)
    ensures a == b || Below(a, b) || Below(b, a)
    ensures !(Below(a, b) && Below(b, a)) && !Below(a, a)
  {
    if a != [] && b != [] {
      BelowIsTotal(a[1..], b[1..]);
      BelowIsTotal(a[1..], a[1..]);
      assert a == [a[0]] + a[1..] && b == [b[0]] + b[1..];
    } else if a != [] {
      BelowIsTotal(a[1..], a[1..]);
    }
  }

  lemma {:induction false} BelowIsTransitive(a: string, b: string, c: string)
    requires Below(a, b) && Below(b, c)
    ensures Below(a, c)
  {
    if a != [] && a[0] == b[0] == c[0] {
      BelowIsTransitive(a[1..], b[1..], c[1..]);
    }
  }

  /** Whole names are compared, so the extension takes part. */
  predicate Precedes(a: Name, b: Name)
    requires a.Matching? && b.Matching?
  {
    Below(a.text + ".json", b.text + ".json")
  }

  /** Matching names in increasing order. */
  ghost predicate InOrder(names: seq<Name>, tag: Tag) {
    && (forall i :: 0 <= i < |names| ==> Matches(names[i], tag))
    && (forall i, j :: 0 <= i < j < |names| ==> Precedes(names[i], names[j]))
  }

  lemma SameText(a: Name, b: Name)
    requires a.Matching? && b.Matching? && a.tag == b.tag
    ensures a == b || Precedes(a, b) || Precedes(b, a)
    ensures !(Precedes(a, b) && Precedes(b, a)) && !Precedes(a, a)
  {
    BelowIsTotal(a.text + ".json", b.text + ".json");
    BelowIsTotal(a.text + ".json", a.text + ".json");
    if a.text + ".json" == b.text + ".json" {
      assert |a.text| == |b.text|;
      assert a.text == (a.text + ".json")[..|a.text|] == (b.text + ".json")[..|b.text|] == b.text;
    }
  }

  /** A directory has one listing. */
  lemma {:induction false} OrderIsUnique(a: seq<Name>, b: seq<Name>, tag: Tag)
    requires InOrder(a, tag) && InOrder(b, tag) && forall n :: n in a <==> n in b
    ensures a == b
  {
    if a != [] || b != [] {
      SameLastName(a, b, tag);
      var u, v := a[..|a| - 1], b[..|b| - 1];
      forall n
        ensures n in u <==> n in v
      {
        WithoutLastName(a, tag, n);
        WithoutLastName(b, tag, n);
      }
      OrderIsUnique(u, v, tag);
      assert a == u + [a[|a| - 1]] && b == v + [b[|b| - 1]];
    }
  }

  lemma SameLastName(a: seq<Name>, b: seq<Name>, tag: Tag)
    requires InOrder(a, tag) && InOrder(b, tag) && (forall n :: n in a <==> n in b) && (a != [] || b != [])
    ensures a != [] && b != [] && a[|a| - 1] == b[|b| - 1]
  {
    assert a != [] ==> a[|a| - 1] in b;
    assert b != [] ==> b[|b| - 1] in a;
    var j :| 0 <= j < |b| && b[j] == a[|a| - 1];
    var i :| 0 <= i < |a| && a[i] == b[|b| - 1];
    SameText(a[|a| - 1], b[|b| - 1]);
  }

  lemma WithoutLastName(a: seq<Name>, tag: Tag, n: Name)
    requires InOrder(a, tag) && a != []
    ensures n in a[..|a| - 1] <==> n in a && n != a[|a| - 1]
  {
    var last := a[|a| - 1];
    if n in a && n != last {
      var k :| 0 <= k < |a| && a[k] == n;
      assert a[..|a| - 1][k] == n;
    }
    if n in a[..|a| - 1] {
      var k :| 0 <= k < |a| - 1 && a[k] == n;
      SameText(n, last);
    }
  }

  // ----- Listings -----

  function Insert(n: Name, names: seq<Name>): seq<Name>
    requires n.Matching? && forall i :: 0 <= i < |names| ==> names[i].Matching?
  {
    if names == [] || Precedes(names[|names| - 1], n) then names + [n]
    else Insert(n, names[..|names| - 1]) + [names[|names| - 1]]
  }

  lemma {:induction false} InsertKeepsOrder(n: Name, names: seq<Name>, tag: Tag)
    requires Matches(n, tag) && InOrder(names, tag) && n !in names
    ensures InOrder(Insert(n, names), tag) && forall m :: m in Insert(n, names) <==> m in names || m == n
  {
    if names != [] {
      var front, last := names[..|names| - 1], names[|names| - 1];
      assert names == front + [last];
      if Precedes(last, n) {
        AfterLast(names, n, tag);
      } else {
        SameText(last, n);
        InsertKeepsOrder(n, front, tag);
        AfterAll(Insert(n, front), last, tag);
      }
    }
  }

  lemma AfterLast(names: seq<Name>, n: Name, tag: Tag)
    requires InOrder(names, tag) && Matches(n, tag) && names != [] && Precedes(names[|names| - 1], n)
    ensures InOrder(names + [n], tag)
  {
    forall i | 0 <= i < |names|
      ensures Precedes(names[i], n)
    {
      if i < |names| - 1 {
        BelowIsTransitive(names[i].text + ".json", names[|names| - 1].text + ".json", n.text + ".json");
      }
    }
  }

  lemma AfterAll(names: seq<Name>, n: Name, tag: Tag)
    requires InOrder(names, tag) && Matches(n, tag)
    requires forall m :: m in names ==> Matches(m, tag) && Precedes(m, n)
    ensures InOrder(names + [n], tag)
  {
  }

  /** What sorting the matches of the tag's pattern gives. */
  ghost predicate IsListing(names: seq<Name>, present: set<Name>, tag: Tag) {
    InOrder(names, tag) && forall n :: n in names <==> n in present && Matches(n, tag)
  }

  ghost function Listing(present: set<Name>, tag: Tag): (names: seq<Name>)
    ensures IsListing(names, present, tag)
    decreases |present|
  {
    if present == {} then []
    else
      var n :| n in present;
      var rest := Listing(present - {n}, tag);
      if Matches(n, tag) then InsertKeepsOrder(n, rest, tag); Insert(n, rest) else rest
  }

  /** Sort the matching names of a directory. */
  method SortedNames(present: set<Name>, tag: Tag) returns (names: seq<Name>)
    ensures names == Listing(present, tag)
  {
    names := [];
    var left := present;
    while left != {}
      invariant left <= present && IsListing(names, present - left, tag)
      decreases |left|
    {
      var n :| n in left;
      left := left - {n};
      if Matches(n, tag) {
        InsertKeepsOrder(n, names, tag);
        names := Insert(n, names);
      }
    }
    OrderIsUnique(names, Listing(present, tag), tag);
  }

  // ----- Numbered pages -----

  /** The names of pages 1 to n, in page order. */
  function Numbered(tag: Tag, n: nat): (names: seq<Name>)
    ensures |names| == n && forall i :: 0 <= i < n ==> names[i] == Page(tag, i + 1)
  {
    seq(n, i requires 0 <= i < n => Page(tag, i + 1))
  }

  lemma TwoPlaces(i: nat)
    requires i <= 99
    ensures Padded(i) == [DIGITS[i / 10], DIGITS[i % 10]]
  {
    assert i >= 10 ==> Decimal(i / 10) == [DIGITS[i / 10]];
  }

  lemma DigitsIncrease(i: nat, j: nat)
    requires i < j < 10
    ensures DIGITS[i] < DIGITS[j]
  {
  }

  lemma TwoPlacesIncrease(tag: Tag, i: nat, j: nat)
    requires i < j <= 99
    ensures Precedes(Page(tag, i), Page(tag, j))
  {
    TwoPlaces(i);
    TwoPlaces(j);
    var a, b := Padded(i) + ".json", Padded(j) + ".json";
    if i / 10 < j / 10 {
      DigitsIncrease(i / 10, j / 10);
    } else {
      DigitsIncrease(i % 10, j % 10);
      assert a[1..][0] < b[1..][0];
    }
  }

  /** Page 100 is listed before page 99. */
  lemma HundredComesEarly(tag: Tag)
    ensures !Precedes(Page(tag, 99), Page(tag, 100)) && |Padded(100)| == 3
  {
    TwoPlaces(10);
    TwoPlaces(99);
    assert Padded(100) == Decimal(10) + ['0'] == "100";
    assert Padded(99) == "99";
  }

  lemma ShortNumbering(tag: Tag, n: nat)
    requires n <= 99
    ensures InOrder(Numbered(tag, n), tag)
  {
    var names := Numbered(tag, n);
    forall i, j | 0 <= i < j < n
      ensures Precedes(names[i], names[j])
    {
      TwoPlacesIncrease(tag, i + 1, j + 1);
    }
  }

  /** Name order is page order exactly up to page 99. */
  lemma NumberedInOrder(tag: Tag, n: nat)
    ensures InOrder(Numbered(tag, n), tag) <==> n <= 99
  {
    if n <= 99 {
      ShortNumbering(tag, n);
    } else {
      HundredComesEarly(tag);
      assert Numbered(tag, n)[98] == Page(tag, 99) && Numbered(tag, n)[99] == Page(tag, 100);
    }
  }

  /** Up to page 99 the listing is the pages in page order. */
  lemma ListingOfPages(present: set<Name>, tag: Tag, n: nat)
    requires n <= 99 && forall m :: m in Numbered(tag, n) <==> m in present && Matches(m, tag)
    ensures Listing(present, tag) == Numbered(tag, n)
  {
    NumberedInOrder(tag, n);
    OrderIsUnique(Listing(present, tag), Numbered(tag, n), tag);
  }

  /** Page 100 has a name of its own. */
  lemma HundredIsNew(tag: Tag, n: nat)
    requires n <= 99
    ensures Page(tag, 100) !in Numbered(tag, n)
  {
    HundredComesEarly(tag);
    if Page(tag, 100) in Numbered(tag, n) {
      var i :| 0 <= i < n && Numbered(tag, n)[i] == Page(tag, 100);
      TwoPlaces(i + 1);
    }
  }
}
