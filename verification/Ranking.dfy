/** Ranking of portfolios by annualized return, and the reversal flag against a reference ranking. */
module Ranking {

  datatype Status = RUN | NOT_RUN

  /** One grid run. `portfolio` stands for the name by its place in the alphabet of names. */
  datatype Run = Run(scenario: int, row: int, portfolio: int, status: Status, twr: real)

  /** What a ranking looks at. */
  datatype Entry = Entry(portfolio: int, twr: real)

  function InCell(runs: seq<Run>, scenario: int, row: int): seq<Entry> {
    if runs == [] then []
    else
      var before, r := InCell(runs[..|runs| - 1], scenario, row), runs[|runs| - 1];
      if r.scenario == scenario && r.row == row && r.status == RUN then before + [Entry(r.portfolio, r.twr)] else before
  }

  /** Higher return first, ties by name. */
  predicate Before(a: Entry, b: Entry) {
    a.twr > b.twr || (a.twr == b.twr && a.portfolio <= b.portfolio)
  }

  function Insert(r: Entry, sorted: seq<Entry>): seq<Entry> {
    if sorted == [] || Before(sorted[|sorted| - 1], r) then sorted + [r]
    else Insert(r, sorted[..|sorted| - 1]) + [sorted[|sorted| - 1]]
  }

  function Sort(cell: seq<Entry>): seq<Entry> {
    if cell == [] then [] else Insert(cell[|cell| - 1], Sort(cell[..|cell| - 1]))
  }

  function Names(cell: seq<Entry>): (r: seq<int>)
    ensures |r| == |cell|
    ensures forall i :: 0 <= i < |cell| ==> r[i] == cell[i].portfolio
  {
    seq(|cell|, i requires 0 <= i < |cell| => cell[i].portfolio)
  }

  function Ranked(runs: seq<Run>, scenario: int, row: int): seq<int> {
    Names(Sort(InCell(runs, scenario, row)))
  }

  ghost predicate Sorted(cell: seq<Entry>) {
    forall i, j :: 0 <= i < j < |cell| ==> Before(cell[i], cell[j])
  }

  // ----- The ranking does not depend on the order of the runs -----

  lemma {:induction false} InsertSorts(r: Entry, sorted: seq<Entry>)
    requires Sorted(sorted)
    ensures Sorted(Insert(r, sorted)) && multiset(Insert(r, sorted)) == multiset(sorted) + multiset{r}
  {
    if sorted != [] && !Before(sorted[|sorted| - 1], r) {
      var front, last := sorted[..|sorted| - 1], sorted[|sorted| - 1];
      assert sorted == front + [last];
      InsertSorts(r, front);
      InsertedBeforeLast(front, last, r, Insert(r, front));
    }
  }

  lemma InsertedBeforeLast(front: seq<Entry>, last: Entry, r: Entry, t: seq<Entry>)
    requires Sorted(front + [last]) && !Before(last, r)
    requires Sorted(t) && multiset(t) == multiset(front) + multiset{r}
    ensures Sorted(t + [last]) && multiset(t + [last]) == multiset(front + [last]) + multiset{r}
  {
    AllBeforeLast(front, last, r, t);
  }

  /** Whatever was inserted before the last entry stands before it. */
  lemma AllBeforeLast(front: seq<Entry>, last: Entry, r: Entry, t: seq<Entry>)
    requires Sorted(front + [last]) && !Before(last, r)
    requires multiset(t) == multiset(front) + multiset{r}
    ensures forall i :: 0 <= i < |t| ==> Before(t[i], last)
  {
    forall i | 0 <= i < |t|
      ensures Before(t[i], last)
    {
      assert t[i] in multiset(t);
      if t[i] != r {
        var k :| 0 <= k < |front| && front[k] == t[i];
        assert (front + [last])[k] == front[k] && (front + [last])[|front|] == last;
      }
    }
  }

  lemma {:induction false} SortSorts(cell: seq<Entry>)
    ensures Sorted(Sort(cell)) && multiset(Sort(cell)) == multiset(cell)
  {
    if cell != [] {
      SortSorts(cell[..|cell| - 1]);
      InsertSorts(cell[|cell| - 1], Sort(cell[..|cell| - 1]));
      assert cell == cell[..|cell| - 1] + [cell[|cell| - 1]];
    }
  }

  lemma {:induction false} InCellCounts(runs: seq<Run>, scenario: int, row: int, e: Entry)
    ensures multiset(InCell(runs, scenario, row))[e] == multiset(runs)[Run(scenario, row, e.portfolio, RUN, e.twr)]
  {
    if runs != [] {
      InCellCounts(runs[..|runs| - 1], scenario, row, e);
      assert runs == runs[..|runs| - 1] + [runs[|runs| - 1]];
    }
  }

  lemma SameMembers(a: seq<Entry>, b: seq<Entry>, r: Entry)
    requires multiset(a) == multiset(b)
    ensures r in a <==> r in b
  {
    assert r in multiset(a) <==> r in multiset(b);
  }

  lemma LastOfSorted(a: seq<Entry>, r: Entry)
    requires Sorted(a) && r in a
    ensures r == a[|a| - 1] || Before(r, a[|a| - 1])
  {
  }

  lemma WithoutLast(a: seq<Entry>)
    requires a != []
    ensures multiset(a[..|a| - 1]) == multiset(a) - multiset{a[|a| - 1]}
  {
    assert a == a[..|a| - 1] + [a[|a| - 1]];
  }

  lemma SameLast(a: seq<Entry>, b: seq<Entry>)
    requires Sorted(a) && Sorted(b) && multiset(a) == multiset(b) && a != [] && b != []
    ensures a[|a| - 1] == b[|b| - 1]
  {
    var x, y := a[|a| - 1], b[|b| - 1];
    SameMembers(a, b, x);
    SameMembers(a, b, y);
    LastOfSorted(a, y);
    LastOfSorted(b, x);
  }

  lemma {:induction false} SortedIsUnique(a: seq<Entry>, b: seq<Entry>)
    requires Sorted(a) && Sorted(b) && multiset(a) == multiset(b)
    ensures a == b
  {
    assert |multiset(a)| == |a| && |multiset(b)| == |b|;
    if a != [] {
      SameLast(a, b);
      WithoutLast(a);
      WithoutLast(b);
      SortedIsUnique(a[..|a| - 1], b[..|b| - 1]);
      assert a == a[..|a| - 1] + [a[|a| - 1]] && b == b[..|b| - 1] + [b[|b| - 1]];
    }
  }

  /** Any two orders of the same runs give the same ranking. */
  lemma RankingIgnoresOrder(a: seq<Run>, b: seq<Run>, scenario: int, row: int)
    requires multiset(a) == multiset(b)
    ensures Ranked(a, scenario, row) == Ranked(b, scenario, row)
  {
    var x, y := InCell(a, scenario, row), InCell(b, scenario, row);
    forall e
      ensures multiset(x)[e] == multiset(y)[e]
    {
      InCellCounts(a, scenario, row, e);
      InCellCounts(b, scenario, row, e);
    }
    assert multiset(x) == multiset(y);
    SortSorts(x);
    SortSorts(y);
    SortedIsUnique(Sort(x), Sort(y));
  }

  lemma {:induction false} InCellIsRun(runs: seq<Run>, scenario: int, row: int)
    ensures forall e | e in InCell(runs, scenario, row) :: Run(scenario, row, e.portfolio, RUN, e.twr) in runs
  {
    if runs != [] {
      InCellIsRun(runs[..|runs| - 1], scenario, row);
    }
  }

  /** The run takes part in the ranking of this scenario and row. */
  ghost predicate Competes(runs: seq<Run>, scenario: int, row: int, r: Run) {
    r in runs && r.scenario == scenario && r.row == row && r.status == RUN
  }

  lemma CompetesExactly(runs: seq<Run>, scenario: int, row: int, e: Entry)
    ensures e in Sort(InCell(runs, scenario, row)) <==> Competes(runs, scenario, row, Run(scenario, row, e.portfolio, RUN, e.twr))
  {
    var cell, r := InCell(runs, scenario, row), Run(scenario, row, e.portfolio, RUN, e.twr);
    InCellCounts(runs, scenario, row, e);
    SortSorts(cell);
    SameMembers(Sort(cell), cell, e);
    assert e in cell <==> e in multiset(cell);
    assert r in runs <==> r in multiset(runs);
  }

  /** Each name has one of its own returns in the cell, and the returns descend, ties by name. */
  ghost predicate RankedBy(runs: seq<Run>, scenario: int, row: int, ranked: seq<int>, twrs: seq<real>) {
    && |twrs| == |ranked|
    && (forall i :: 0 <= i < |ranked| ==> Competes(runs, scenario, row, Run(scenario, row, ranked[i], RUN, twrs[i])))
    && (forall i, j :: 0 <= i < j < |ranked| ==> Before(Entry(ranked[i], twrs[i]), Entry(ranked[j], twrs[j])))
  }

  lemma RankedBySorted(runs: seq<Run>, scenario: int, row: int)
    ensures exists twrs :: RankedBy(runs, scenario, row, Ranked(runs, scenario, row), twrs)
  {
    var sorted := Sort(InCell(runs, scenario, row));
    var ranked := Ranked(runs, scenario, row);
    var twrs := seq(|sorted|, i requires 0 <= i < |sorted| => sorted[i].twr);
    SortSorts(InCell(runs, scenario, row));
    forall i | 0 <= i < |ranked|
      ensures Competes(runs, scenario, row, Run(scenario, row, ranked[i], RUN, twrs[i]))
    {
      CompetesExactly(runs, scenario, row, sorted[i]);
    }
    assert forall i :: 0 <= i < |ranked| ==> Entry(ranked[i], twrs[i]) == sorted[i];
    assert RankedBy(runs, scenario, row, ranked, twrs);
  }

  /** The ranking holds exactly the portfolios with a finished run in the cell, and each is there with a
      return of its own runs in that cell, in descending order, ties by name. */
  lemma RankingIsByReturn(runs: seq<Run>, scenario: int, row: int)
    ensures var ranked := Ranked(runs, scenario, row);
      && (forall p :: p in ranked <==> exists r :: Competes(runs, scenario, row, r) && r.portfolio == p)
      && exists twrs :: RankedBy(runs, scenario, row, ranked, twrs)
  {
    var sorted := Sort(InCell(runs, scenario, row));
    var ranked := Ranked(runs, scenario, row);
    RankedBySorted(runs, scenario, row);
    forall p
      ensures p in ranked <==> exists r :: Competes(runs, scenario, row, r) && r.portfolio == p
    {
      if p in ranked {
        var i :| 0 <= i < |ranked| && ranked[i] == p;
        CompetesExactly(runs, scenario, row, sorted[i]);
        assert Competes(runs, scenario, row, Run(scenario, row, p, RUN, sorted[i].twr));
      }
      if r: Run :| Competes(runs, scenario, row, r) && r.portfolio == p {
        CompetesExactly(runs, scenario, row, Entry(p, r.twr));
        var i :| 0 <= i < |sorted| && sorted[i] == Entry(p, r.twr);
        assert ranked[i] == p;
      }
    }
  }

  // ----- Reversal -----

  function Keep(xs: seq<int>, among: seq<int>): seq<int> {
    if xs == [] then []
    else
      var before := Keep(xs[..|xs| - 1], among);
      if xs[|xs| - 1] in among then before + [xs[|xs| - 1]] else before
  }

  /** The flag of one cell: the common portfolios, in the two orders, are not the same list. */
  predicate Reversal(reference: seq<int>, order: seq<int>) {
    var common := Keep(reference, order);
    Keep(order, common) != common
  }

  ghost predicate Distinct(xs: seq<int>) {
    forall i, j :: 0 <= i < j < |xs| ==> xs[i] != xs[j]
  }

  /** p comes before q. */
  ghost predicate Precedes(xs: seq<int>, p: int, q: int) {
    exists i, j :: 0 <= i < j < |xs| && xs[i] == p && xs[j] == q
  }

  lemma {:induction false} KeepKeeps(xs: seq<int>, among: seq<int>)
    ensures forall p :: p in Keep(xs, among) <==> p in xs && p in among
    ensures Distinct(xs) ==> Distinct(Keep(xs, among))
    ensures forall p, q :: Precedes(Keep(xs, among), p, q) <==> Precedes(xs, p, q) && p in among && q in among
  {
    if xs != [] {
      var front, last := xs[..|xs| - 1], xs[|xs| - 1];
      var before, kept := Keep(front, among), Keep(xs, among);
      KeepKeeps(front, among);
      assert xs == front + [last];
      forall p, q
        ensures Precedes(kept, p, q) <==> Precedes(xs, p, q) && p in among && q in among
      {
        PrecedesLast(front, last, p, q);
        PrecedesLast(before, last, p, q);
      }
    }
  }

  lemma PrecedesLast(xs: seq<int>, last: int, p: int, q: int)
    ensures Precedes(xs + [last], p, q) <==> Precedes(xs, p, q) || (p in xs && q == last)
  {
    var ys := xs + [last];
    if Precedes(xs, p, q) {
      var i, j :| 0 <= i < j < |xs| && xs[i] == p && xs[j] == q;
      assert ys[i] == p && ys[j] == q;
    }
    if p in xs && q == last {
      var i :| 0 <= i < |xs| && xs[i] == p;
      assert ys[i] == p && ys[|xs|] == q;
    }
    if Precedes(ys, p, q) {
      var i, j :| 0 <= i < j < |ys| && ys[i] == p && ys[j] == q;
      assert j < |xs| ==> xs[i] == p && xs[j] == q;
    }
  }

  ghost predicate SameNames(a: seq<int>, b: seq<int>) {
    (forall i :: 0 <= i < |a| ==> a[i] in b) && (forall i :: 0 <= i < |b| ==> b[i] in a)
  }

  /** No pair stands in opposite orders. */
  ghost predicate Agree(a: seq<int>, b: seq<int>) {
    forall p, q :: Precedes(a, p, q) ==> !Precedes(b, q, p)
  }

  lemma SameLastName(a: seq<int>, b: seq<int>)
    requires Distinct(a) && Distinct(b) && a != [] && SameNames(a, b) && Agree(a, b)
    ensures b != [] && a[|a| - 1] == b[|b| - 1]
  {
    assert a[0] in b;
    var x, y := a[|a| - 1], b[|b| - 1];
    assert x in a && y in b;
    var j :| 0 <= j < |b| && b[j] == x;
    var i :| 0 <= i < |a| && a[i] == y;
    assert j < |b| - 1 ==> Precedes(b, x, y);
    assert i < |a| - 1 ==> Precedes(a, y, x);
  }

  lemma WithoutLastName(a: seq<int>, p: int)
    requires Distinct(a) && a != []
    ensures p in a[..|a| - 1] <==> p in a && p != a[|a| - 1]
  {
    assert a == a[..|a| - 1] + [a[|a| - 1]];
  }

  lemma FrontsHaveSameNames(a: seq<int>, b: seq<int>)
    requires Distinct(a) && Distinct(b) && SameNames(a, b) && a != [] && b != [] && a[|a| - 1] == b[|b| - 1]
    ensures SameNames(a[..|a| - 1], b[..|b| - 1])
  {
    var u, v := a[..|a| - 1], b[..|b| - 1];
    forall p
      ensures p in u <==> p in v
    {
      WithoutLastName(a, p);
      WithoutLastName(b, p);
    }
  }

  lemma FrontsAgree(u: seq<int>, v: seq<int>, last: int)
    requires Agree(u + [last], v + [last])
    ensures Agree(u, v)
  {
    forall p, q | Precedes(u, p, q)
      ensures !Precedes(v, q, p)
    {
      PrecedesLast(u, last, p, q);
      PrecedesLast(v, last, q, p);
    }
  }

  /** Two lists of the same distinct names differ exactly when some pair is in opposite orders. */
  lemma {:induction false} SameOrderIsSameList(a: seq<int>, b: seq<int>)
    requires Distinct(a) && Distinct(b) && SameNames(a, b) && Agree(a, b)
    ensures a == b
    decreases |a|, 0
  {
    if a != [] {
      SameLastName(a, b);
      FrontsHaveSameNames(a, b);
      SameListAfter(a[..|a| - 1], b[..|b| - 1], a[|a| - 1], a, b);
    }
  }

  lemma {:induction false} SameListAfter(u: seq<int>, v: seq<int>, last: int, a: seq<int>, b: seq<int>)
    requires a == u + [last] && b == v + [last] && Agree(a, b)
    requires Distinct(u) && Distinct(v) && SameNames(u, v)
    ensures a == b
    decreases |u|, 1
  {
    FrontsAgree(u, v, last);
    SameOrderIsSameList(u, v);
  }

  /** A cell is flagged exactly when two portfolios ranked in both it and the reference stand in opposite
      orders, whatever portfolios were not run in either. */
  lemma ReversalExactly(reference: seq<int>, order: seq<int>)
    requires Distinct(reference) && Distinct(order)
    ensures Reversal(reference, order) <==> exists p, q :: Precedes(reference, p, q) && Precedes(order, q, p)
  {
    var common := Keep(reference, order);
    var same := Keep(order, common);
    KeepKeeps(reference, order);
    KeepKeeps(order, common);
    if same != common && !exists p, q :: Precedes(reference, p, q) && Precedes(order, q, p) {
      SameOrderIsSameList(common, same);
    }
    if p, q :| Precedes(reference, p, q) && Precedes(order, q, p) {
      PrecedesMembers(reference, p, q);
      PrecedesMembers(order, q, p);
      assert Precedes(common, p, q) && Precedes(same, q, p);
      OppositeOrdersDiffer(common, same, p, q);
    }
  }

  lemma PrecedesMembers(xs: seq<int>, p: int, q: int)
    requires Precedes(xs, p, q)
    ensures p in xs && q in xs
  {
  }

  lemma OppositeOrdersDiffer(a: seq<int>, b: seq<int>, p: int, q: int)
    requires Distinct(a) && Precedes(a, p, q) && Precedes(b, q, p)
    ensures a != b
  {
  }

  ghost predicate OneRunEach(runs: seq<Run>) {
    forall i, j :: 0 <= i < j < |runs| ==>
      !(runs[i].scenario == runs[j].scenario && runs[i].row == runs[j].row && runs[i].portfolio == runs[j].portfolio)
  }

  /** One run per portfolio and cell makes every ranking a list of distinct names. */
  lemma RankingIsDistinct(runs: seq<Run>, scenario: int, row: int)
    requires OneRunEach(runs)
    ensures Distinct(Ranked(runs, scenario, row))
  {
    var cell := InCell(runs, scenario, row);
    InCellIsDistinct(runs, scenario, row);
    SortSorts(cell);
    SortedIsDistinct(cell, Sort(cell));
  }

  lemma {:induction false} InCellIsDistinct(runs: seq<Run>, scenario: int, row: int)
    requires OneRunEach(runs)
    ensures Distinct(Names(InCell(runs, scenario, row)))
  {
    if runs != [] {
      var front := runs[..|runs| - 1];
      InCellIsDistinct(front, scenario, row);
      InCellIsRun(front, scenario, row);
      var before := InCell(front, scenario, row);
      assert forall i :: 0 <= i < |before| ==> before[i] in before;
    }
  }

  lemma SortedIsDistinct(cell: seq<Entry>, sorted: seq<Entry>)
    requires multiset(cell) == multiset(sorted) && Distinct(Names(cell))
    ensures Distinct(Names(sorted))
  {
    forall i, j | 0 <= i < j < |sorted|
      ensures sorted[i].portfolio != sorted[j].portfolio
    {
      TwiceInSequence(sorted, i, j);
      OnceInDistinct(cell, sorted[i]);
      SameMembers(sorted, cell, sorted[i]);
      SameMembers(sorted, cell, sorted[j]);
      var u :| 0 <= u < |cell| && cell[u] == sorted[i];
      var v :| 0 <= v < |cell| && cell[v] == sorted[j];
      assert Names(cell)[u] == Names(cell)[v] ==> u == v;
    }
  }

  lemma TwiceInSequence(s: seq<Entry>, i: nat, j: nat)
    requires i < j < |s|
    ensures s[i] == s[j] ==> multiset(s)[s[i]] >= 2
  {
    assert s == s[..j] + s[j..];
    assert s[i] in s[..j] && s[j] in s[j..];
  }

  lemma {:induction false} OnceInDistinct(cell: seq<Entry>, r: Entry)
    requires Distinct(Names(cell))
    ensures multiset(cell)[r] <= 1
  {
    if cell != [] {
      var front, last := cell[..|cell| - 1], cell[|cell| - 1];
      assert cell == front + [last];
      assert forall i :: 0 <= i < |front| ==> Names(front)[i] == Names(cell)[i];
      OnceInDistinct(front, r);
      assert forall i :: 0 <= i < |front| ==> Names(cell)[i] != Names(cell)[|front|];
    }
  }

  /** With one run per portfolio and cell, one finished run's portfolio stands before another's if and only
      if its return is higher, or equal with the smaller name. */
  lemma RankingOrdersRuns(runs: seq<Run>, scenario: int, row: int, a: Run, b: Run)
    requires OneRunEach(runs) && Competes(runs, scenario, row, a) && Competes(runs, scenario, row, b)
    ensures Precedes(Ranked(runs, scenario, row), a.portfolio, b.portfolio)
       <==> a.twr > b.twr || (a.twr == b.twr && a.portfolio < b.portfolio)
  {
    var sorted, ranked := Sort(InCell(runs, scenario, row)), Ranked(runs, scenario, row);
    var x, y := Entry(a.portfolio, a.twr), Entry(b.portfolio, b.twr);
    RankingIsDistinct(runs, scenario, row);
    SortSorts(InCell(runs, scenario, row));
    CompetesExactly(runs, scenario, row, x);
    CompetesExactly(runs, scenario, row, y);
    var i :| 0 <= i < |sorted| && sorted[i] == x;
    var j :| 0 <= j < |sorted| && sorted[j] == y;
    assert ranked[i] == a.portfolio && ranked[j] == b.portfolio;
    PositionsDecide(ranked, i, j);
  }

  lemma PositionsDecide(xs: seq<int>, i: nat, j: nat)
    requires Distinct(xs) && i < |xs| && j < |xs|
    ensures Precedes(xs, xs[i], xs[j]) <==> i < j
    ensures xs[i] == xs[j] <==> i == j
  {
  }
}
