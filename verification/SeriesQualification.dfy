/** Qualification of daily bar series against a session calendar, the date-keyed price maps built from
    them, and the whole-window split check. */
module SeriesQualification {
  import opened Common

  datatype Bar = Bar(stamp: int, open: real, close: real)

  const SECONDS_PER_DAY := 86400

  /** The UTC calendar day of a bar's timestamp. */
  function Date(b: Bar): int {
    b.stamp / SECONDS_PER_DAY
  }

  /** A bar belongs to the day that begins at or before its timestamp and ends after it. */
  lemma DateIsItsDay(b: Bar)
    ensures Date(b) * 86400 <= b.stamp < (Date(b) + 1) * 86400
  {
  }

  datatype Error = CalendarMismatch | CountMismatch | AlignmentMismatch | NoSessions | ZeroPrice | SplitEvent

  // ----- Sorted distinct dates -----

  function Insert(d: int, sorted: seq<int>): seq<int> {
    if sorted == [] then [d]
    else
      var last := sorted[|sorted| - 1];
      if last < d then sorted + [d]
      else if last == d then sorted
      else Insert(d, sorted[..|sorted| - 1]) + [last]
  }

  function SortedDates(bars: seq<Bar>): seq<int> {
    if bars == [] then [] else Insert(Date(bars[|bars| - 1]), SortedDates(bars[..|bars| - 1]))
  }

  lemma {:induction false} InsertSorts(d: int, sorted: seq<int>)
    requires Increasing(sorted)
    ensures Increasing(Insert(d, sorted))
    ensures forall x :: x in Insert(d, sorted) <==> x == d || x in sorted
    ensures |Insert(d, sorted)| == |sorted| + if d in sorted then 0 else 1
  {
    if sorted != [] {
      var front, last := sorted[..|sorted| - 1], sorted[|sorted| - 1];
      assert sorted == front + [last];
      if last > d {
        InsertSorts(d, front);
        var r := Insert(d, front);
        forall i | 0 <= i < |r|
          ensures r[i] < last
        {
          assert r[i] in r;
        }
      }
    }
  }

  lemma {:induction false} SortedDatesSort(bars: seq<Bar>)
    ensures Increasing(SortedDates(bars)) && |SortedDates(bars)| <= |bars|
    ensures forall x :: x in SortedDates(bars) <==> exists i :: 0 <= i < |bars| && Date(bars[i]) == x
  {
    if bars != [] {
      var front := bars[..|bars| - 1];
      SortedDatesSort(front);
      InsertSorts(Date(bars[|bars| - 1]), SortedDates(front));
      forall x
        ensures x in SortedDates(bars) <==> exists i :: 0 <= i < |bars| && Date(bars[i]) == x
      {
        if x in SortedDates(front) {
          var i :| 0 <= i < |front| && Date(front[i]) == x;
          assert Date(bars[i]) == x;
        }
        if i :| 0 <= i < |bars| && Date(bars[i]) == x {
          assert i < |front| ==> Date(front[i]) == x;
        }
      }
    }
  }

  /** As many distinct dates as bars means no two bars share a date. */
  lemma {:induction false} DistinctDates(bars: seq<Bar>)
    ensures |SortedDates(bars)| == |bars| <==> OneBarPerDate(bars)
  {
    if bars != [] {
      var front, d := bars[..|bars| - 1], Date(bars[|bars| - 1]);
      SortedDatesSort(front);
      DistinctDates(front);
      InsertSorts(d, SortedDates(front));
      if OneBarPerDate(front) && d !in SortedDates(front) {
        forall i, j | 0 <= i < j < |bars|
          ensures Date(bars[i]) != Date(bars[j])
        {
          assert Date(front[i]) in SortedDates(front);
        }
      }
      if OneBarPerDate(bars) {
        forall i, j | 0 <= i < j < |front|
          ensures Date(front[i]) != Date(front[j])
        {
          assert front[i] == bars[i] && front[j] == bars[j];
        }
        assert forall i :: 0 <= i < |front| ==> Date(front[i]) != d;
      }
    }
  }

  ghost predicate OneBarPerDate(bars: seq<Bar>) {
    forall i, j :: 0 <= i < j < |bars| ==> Date(bars[i]) != Date(bars[j])
  }

  // ----- Qualification -----

  function Qualify(bars: seq<Bar>, sessions: seq<int>): (r: Result<(), Error>) {
    if SortedDates(bars) != sessions then Err(CalendarMismatch)
    else if |bars| != |sessions| then Err(CountMismatch)
    else Ok(())
  }

  /** Bars and sessions correspond one to one: no bar off the calendar, none twice, no session missed. */
  ghost predicate Matched(bars: seq<Bar>, sessions: seq<int>) {
    && Increasing(sessions)
    && OneBarPerDate(bars)
    && (forall i :: 0 <= i < |bars| ==> Date(bars[i]) in sessions)
    && (forall s | s in sessions :: exists i :: 0 <= i < |bars| && Date(bars[i]) == s)
  }

  /** A series qualifies exactly when its bars and the sessions correspond one to one. */
  lemma QualifiedMeansMatched(bars: seq<Bar>, sessions: seq<int>)
    ensures Qualify(bars, sessions).Ok? <==> Matched(bars, sessions)
  {
    SortedDatesSort(bars);
    DistinctDates(bars);
    if Matched(bars, sessions) {
      SortedIsUnique(SortedDates(bars), sessions);
    }
  }

  // ----- Price maps -----

  /** The date-keyed map as the comprehension builds it: a later bar of a date replaces an earlier one. */
  function ByDate(bars: seq<Bar>): map<int, Bar> {
    if bars == [] then map[] else ByDate(bars[..|bars| - 1])[Date(bars[|bars| - 1]) := bars[|bars| - 1]]
  }

  lemma {:induction false} ByDateKeys(bars: seq<Bar>)
    ensures forall d :: d in ByDate(bars) <==> d in SortedDates(bars)
    ensures OneBarPerDate(bars) ==> forall i :: 0 <= i < |bars| ==> Date(bars[i]) in ByDate(bars) && ByDate(bars)[Date(bars[i])] == bars[i]
  {
    if bars != [] {
      var front := bars[..|bars| - 1];
      ByDateKeys(front);
      SortedDatesSort(front);
      InsertSorts(Date(bars[|bars| - 1]), SortedDates(front));
      if OneBarPerDate(bars) {
        assert OneBarPerDate(front) by {
          assert forall i :: 0 <= i < |front| ==> front[i] == bars[i];
        }
        forall i | 0 <= i < |bars|
          ensures Date(bars[i]) in ByDate(bars) && ByDate(bars)[Date(bars[i])] == bars[i]
        {
          assert i < |front| ==> front[i] == bars[i];
        }
      }
    }
  }

  lemma KeysAreDates(bars: seq<Bar>)
    ensures ByDate(bars).Keys == set d | d in SortedDates(bars)
  {
    ByDateKeys(bars);
    forall d
      ensures d in ByDate(bars).Keys <==> d in SortedDates(bars)
    {
      assert d in ByDate(bars) <==> d in SortedDates(bars);
    }
  }

  datatype Aligned = Aligned(split: map<int, Bar>, raw: map<int, Bar>)

  /** Qualify a symbol's two series and key them by date. The maps are total on the sessions, hold every
      bar under its own date, and the alignment check after them can never fail. */
  method QualifySymbol(split: seq<Bar>, raw: seq<Bar>, sessions: seq<int>) returns (r: Result<Aligned, Error>)
    ensures r.Ok? <==> Matched(split, sessions) && Matched(raw, sessions)
    ensures r.Ok? ==>
      && r.value.split.Keys == r.value.raw.Keys == (set s | s in sessions)
      && (forall i :: 0 <= i < |split| ==> r.value.split[Date(split[i])] == split[i])
      && (forall i :: 0 <= i < |raw| ==> r.value.raw[Date(raw[i])] == raw[i])
    ensures r.Err? ==> r.error in {CalendarMismatch, CountMismatch}
  {
    QualifiedMeansMatched(split, sessions);
    QualifiedMeansMatched(raw, sessions);
    ByDateKeys(split);
    ByDateKeys(raw);
    var first := Qualify(split, sessions);
    if first.Err? {
      return Err(first.error);
    }
    var second := Qualify(raw, sessions);
    if second.Err? {
      return Err(second.error);
    }
    var splitMap := KeyByDate(split);
    var rawMap := KeyByDate(raw);
    KeysAreDates(split);
    KeysAreDates(raw);
    if splitMap.Keys != rawMap.Keys || splitMap.Keys != set s | s in sessions {
      return Err(AlignmentMismatch);
    }
    return Ok(Aligned(splitMap, rawMap));
  }

  method KeyByDate(bars: seq<Bar>) returns (m: map<int, Bar>)
    ensures m == ByDate(bars)
  {
    m := map[];
    for i := 0 to |bars|
      invariant m == ByDate(bars[..i])
    {
      assert bars[..i + 1][..i] == bars[..i];
      m := m[Date(bars[i]) := bars[i]];
    }
    assert bars[..|bars|] == bars;
  }

  // ----- Split lineage -----

  function Ratio(a: Aligned, s: int): real
    requires s in a.split && s in a.raw && a.split[s].close != 0.0
  {
    a.raw[s].close / a.split[s].close
  }

  /** The raw over the split close of session s differs from that of `first` by at most a millionth of it. */
  predicate RatioWithin(a: Aligned, first: int, s: int)
    requires first in a.split && first in a.raw && a.split[first].close != 0.0
    requires s in a.split && s in a.raw && a.split[s].close != 0.0
  {
    var base, now := a.raw[first].close / a.split[first].close, a.raw[s].close / a.split[s].close;
    && (base >= 0.0 ==> -base * 0.000001 <= now - base <= base * 0.000001)
    && (base < 0.0 ==> base * 0.000001 <= now - base <= -base * 0.000001)
  }

  /** Every ratio of the window against the first one. */
  method CheckWindow(a: Aligned, sessions: seq<int>) returns (r: Result<(), Error>)
    requires forall i :: 0 <= i < |sessions| ==> sessions[i] in a.split && sessions[i] in a.raw
    ensures r.Ok? <==>
      && sessions != []
      && (forall i :: 0 <= i < |sessions| ==> a.split[sessions[i]].close != 0.0)
      && (forall i :: 0 <= i < |sessions| ==> RatioWithin(a, sessions[0], sessions[i]))
  {
    var ratios: seq<real> := [];
    for i := 0 to |sessions|
      invariant |ratios| == i
      invariant forall j :: 0 <= j < i ==> a.split[sessions[j]].close != 0.0 && ratios[j] == Ratio(a, sessions[j])
    {
      if a.split[sessions[i]].close == 0.0 {
        return Err(ZeroPrice);
      }
      ratios := ratios + [Ratio(a, sessions[i])];
    }
    if sessions == [] {
      return Err(NoSessions);
    }
    var base := ratios[0];
    for i := 0 to |sessions|
      invariant forall j :: 0 <= j < i ==> WithinTolerance(base, ratios[j])
    {
      if !WithinTolerance(base, ratios[i]) {
        return Err(SplitEvent);
      }
    }
    return Ok(());
  }

  /** A whole-window pass bounds every pair of sessions, however far apart. */
  lemma WindowBoundsEveryPair(base: real, x: real, y: real)
    requires WithinTolerance(base, x) && WithinTolerance(base, y)
    ensures Abs(x - y) <= 2.0 * Abs(base) * TOLERANCE
    ensures base > 0.0 ==> x > 0.0 && y > 0.0
  {
  }

  /** Session-to-session checks do not give that: two steps each within the tolerance of the one before
      can leave the window. */
  lemma StepsCanLeaveTheWindow()
    ensures exists x: real, y: real, z: real ::
      WithinTolerance(x, y) && WithinTolerance(y, z) && !WithinTolerance(x, z)
  {
    var x, y, z := 1.0, 1.000001, 1.000002;
    assert WithinTolerance(x, y) && WithinTolerance(y, z) && !WithinTolerance(x, z);
  }
}
