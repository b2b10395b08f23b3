/** apps/api/app/printers/counter_history.py: a cumulative meter differenced at day
    boundaries. Times are in seconds since the epoch, so a UTC day is 86400 of them. */
module CounterHistory {
  import opened Prelude
  import Query

  const DAY := 86400

  datatype Field = Total | Copies | Prints

  datatype Reading = Reading(at: int, total: Option<int>, copies: Option<int>, prints: Option<int>) {
    function Get(f: Field): Option<int> {
      match f case Total => total case Copies => copies case Prints => prints
    }
  }

  datatype DailyDelta = DailyDelta(day: int, total: Option<int>, copies: Option<int>, prints: Option<int>) {
    function Get(f: Field): Option<int> {
      match f case Total => total case Copies => copies case Prints => prints
    }
  }

  function DayOf(r: Reading): int {
    r.at / DAY
  }

  /** `_field_delta`: null when either side is missing or the counter went backwards. */
  function FieldDelta(current: Option<int>, previous: Option<int>): Option<int> {
    if current.None? || previous.None? || current.value < previous.value then None
    else Some(current.value - previous.value)
  }

  function Delta(current: Reading, previous: Option<Reading>): DailyDelta {
    DailyDelta(DayOf(current),
               FieldDelta(current.total, if previous.Some? then previous.value.total else None),
               FieldDelta(current.copies, if previous.Some? then previous.value.copies else None),
               FieldDelta(current.prints, if previous.Some? then previous.value.prints else None))
  }

  ghost predicate Ascending(readings: seq<Reading>) {
    forall i, j :: 0 <= i < j < |readings| ==> readings[i].at < readings[j].at
  }

  /** `lasts` without its final entry when that is of the same day as `x`. */
  function Trim(lasts: seq<Reading>, x: Reading): seq<Reading> {
    if lasts != [] && DayOf(Last(lasts)) == DayOf(x) then Front(lasts) else lasts
  }

  /** The last reading of each day that has one. */
  function LastOfEachDay(readings: seq<Reading>): (lasts: seq<Reading>)
    ensures readings != [] ==> lasts != [] && Last(lasts) == Last(readings)
    ensures readings == [] ==> lasts == []
  {
    if readings == [] then []
    else Trim(LastOfEachDay(Front(readings)), Last(readings)) + [Last(readings)]
  }

  /** The loop's `previous` once all of `readings` have gone by. */
  function PreviousAfter(readings: seq<Reading>, previous: Option<Reading>): Option<Reading> {
    if readings == [] then previous else Some(Last(readings))
  }

  /** Each reading against the one before it, the first against `previous`. */
  function Differences(readings: seq<Reading>, previous: Option<Reading>): seq<DailyDelta> {
    if readings == [] then []
    else Differences(Front(readings), previous) + [Delta(Last(readings), PreviousAfter(Front(readings), previous))]
  }

  lemma OneDifferenceMore(readings: seq<Reading>, previous: Option<Reading>)
    requires readings != []
    ensures Differences(readings, previous)
            == Differences(Front(readings), previous) + [Delta(Last(readings), PreviousAfter(Front(readings), previous))]
  {
    hide Delta;
  }

  lemma NoDifferences(previous: Option<Reading>)
    ensures Differences([], previous) == []
  {
  }

  ghost predicate DaysAscend(readings: seq<Reading>) {
    forall i, j :: 0 <= i < j < |readings| ==> DayOf(readings[i]) < DayOf(readings[j])
  }

  lemma {:induction false} LastsComeFromReadings(readings: seq<Reading>)
    ensures forall i :: 0 <= i < |LastOfEachDay(readings)| ==> LastOfEachDay(readings)[i] in readings
  {
    hide DayOf;
    if readings != [] {
      LastsComeFromReadings(Front(readings));
      var earlier, lasts := LastOfEachDay(Front(readings)), LastOfEachDay(readings);
      assert forall r :: r in Front(readings) ==> r in readings;
      assert forall i :: 0 <= i < |lasts| - 1 ==> lasts[i] == earlier[i];
      assert Last(readings) in readings;
    }
  }

  lemma {:induction false} LastsAscend(readings: seq<Reading>)
    requires Ascending(readings)
    ensures DaysAscend(LastOfEachDay(readings))
  {
    hide DayOf;
    if readings != [] {
      LastsAscend(Front(readings));
      var earlier, lasts, x := LastOfEachDay(Front(readings)), LastOfEachDay(readings), Last(readings);
      assert forall i :: 0 <= i < |lasts| - 1 ==> lasts[i] == earlier[i];
      assert Last(lasts) == x;
      if earlier != [] {
        assert Last(earlier) == Last(Front(readings));
        DaySameOrLater(Last(earlier), x);
        assert forall i :: 0 <= i < |earlier| - 1 ==> DayOf(earlier[i]) < DayOf(Last(earlier));
      }
    }
  }

  lemma DaySameOrLater(a: Reading, b: Reading)
    requires a.at <= b.at
    ensures DayOf(a) <= DayOf(b)
  {
  }

  // ---- The loop, with its dictionary ----

  lemma LastIsGreatest(s: seq<int>)
    requires s != [] && forall i, j :: 0 <= i < j < |s| ==> s[i] < s[j]
    ensures forall x :: x in s ==> x <= Last(s)
    ensures forall x :: x in Front(s) <==> x in s && x != Last(s)
  {
    assert s == Front(s) + [Last(s)];
  }

  lemma SameMembersBothEmpty(a: seq<int>, b: seq<int>)
    requires forall x :: x in a <==> x in b
    ensures a == [] <==> b == []
  {
    if a != [] {
      var x := a[0];
      assert x in a;
      assert x in b;
    }
    if b != [] {
      var x := b[0];
      assert x in b;
      assert x in a;
    }
  }

  lemma {:induction false} SortedIsUnique(a: seq<int>, b: seq<int>)
    requires forall i, j :: 0 <= i < j < |a| ==> a[i] < a[j]
    requires forall i, j :: 0 <= i < j < |b| ==> b[i] < b[j]
    requires forall x :: x in a <==> x in b
    ensures a == b
    decreases |a|
  {
    SameMembersBothEmpty(a, b);
    if a != [] {
      assert Last(a) in a && Last(a) in b;
      LastIsGreatest(a);
      LastIsGreatest(b);
      assert Last(b) in b && Last(b) in a;
      SortedIsUnique(Front(a), Front(b));
      assert a == Front(a) + [Last(a)] && b == Front(b) + [Last(b)];
    }
  }

  /** The dictionary the loop leaves: each day's last reading, by day. */
  ghost function ByDay(lasts: seq<Reading>): map<int, Reading> {
    if lasts == [] then map[] else ByDay(Front(lasts))[DayOf(Last(lasts)) := Last(lasts)]
  }

  lemma NothingStored()
    ensures ByDay(LastOfEachDay([])) == map[]
  {
  }

  lemma StoredOneMore(readings: seq<Reading>)
    requires readings != []
    ensures ByDay(LastOfEachDay(readings)) == ByDay(LastOfEachDay(Front(readings)))[DayOf(Last(readings)) := Last(readings)]
  {
    hide DayOf;
    var earlier, x := LastOfEachDay(Front(readings)), Last(readings);
    var lasts := Trim(earlier, x) + [x];
    assert Front(lasts) == Trim(earlier, x);
  }

  lemma {:induction false} ByDayFinds(lasts: seq<Reading>)
    requires DaysAscend(lasts)
    ensures forall i :: 0 <= i < |lasts| ==> DayOf(lasts[i]) in ByDay(lasts) && ByDay(lasts)[DayOf(lasts[i])] == lasts[i]
    ensures forall d :: d in ByDay(lasts) ==> HasDay(lasts, d)
  {
    hide DayOf;
    if lasts != [] {
      ByDayFinds(Front(lasts));
      assert forall i :: 0 <= i < |lasts| - 1 ==> lasts[i] == Front(lasts)[i] && DayOf(lasts[i]) < DayOf(Last(lasts));
      forall d | d in ByDay(lasts)
        ensures HasDay(lasts, d)
      {
        if d == DayOf(Last(lasts)) {
          assert DayOf(lasts[|lasts| - 1]) == d;
        } else {
          assert d in ByDay(Front(lasts));
          var i :| 0 <= i < |Front(lasts)| && DayOf(Front(lasts)[i]) == d;
          assert DayOf(lasts[i]) == d;
        }
      }
    }
  }

  ghost predicate HasDay(readings: seq<Reading>, day: int) {
    exists i :: 0 <= i < |readings| && DayOf(readings[i]) == day
  }

  /** `_diff_readings` */
  method DiffReadings(readings: seq<Reading>, boundary: Option<Reading>) returns (deltas: seq<DailyDelta>)
    requires Ascending(readings)
    ensures deltas == Differences(LastOfEachDay(readings), boundary)
  {
    hide DayOf, ByDay, LastOfEachDay;
    var lastPerDay: map<int, Reading> := map[];
    assert readings[..0] == [] && lastPerDay == ByDay(LastOfEachDay([])) by {
      NothingStored();
    }
    for i := 0 to |readings|
      invariant lastPerDay == ByDay(LastOfEachDay(readings[..i]))
    {
      assert Front(readings[..i + 1]) == readings[..i] && Last(readings[..i + 1]) == readings[i];
      StoredOneMore(readings[..i + 1]);
      lastPerDay := lastPerDay[DayOf(readings[i]) := readings[i]];
    }
    assert readings[..|readings|] == readings;
    ghost var lasts := LastOfEachDay(readings);
    var days := SortDays(lastPerDay.Keys);
    LastsAscend(readings);
    DaysOfLasts(lasts, days);
    deltas := DiffDays(lasts, days, lastPerDay, boundary);
  }

  /** The second loop: the days in order, each against the one before. */
  method DiffDays(ghost lasts: seq<Reading>, days: seq<int>, lastPerDay: map<int, Reading>, boundary: Option<Reading>)
    returns (deltas: seq<DailyDelta>)
    requires |days| == |lasts|
    requires forall k :: 0 <= k < |days| ==> days[k] in lastPerDay && lastPerDay[days[k]] == lasts[k]
    ensures deltas == Differences(lasts, boundary)
  {
    hide Delta;
    deltas := [];
    var previous := boundary;
    for k := 0 to |days|
      invariant deltas == Differences(lasts[..k], boundary)
      invariant previous == PreviousAfter(lasts[..k], boundary)
    {
      var current := lastPerDay[days[k]];
      assert Front(lasts[..k + 1]) == lasts[..k];
      deltas := deltas + [Delta(current, previous)];
      previous := Some(current);
    }
    assert lasts[..|lasts|] == lasts;
  }

  /** Python's `sorted`, over a set of days. */
  method SortDays(days: set<int>) returns (sorted: seq<int>)
    ensures forall x :: x in sorted <==> x in days
    ensures forall i, j :: 0 <= i < j < |sorted| ==> sorted[i] < sorted[j]
  {
    sorted := [];
    var left := days;
    while left != {}
      invariant left <= days
      invariant forall x :: x in sorted <==> x in days && x !in left
      invariant forall i, x :: 0 <= i < |sorted| && x in left ==> sorted[i] < x
      invariant forall i, j :: 0 <= i < j < |sorted| ==> sorted[i] < sorted[j]
      decreases left
    {
      Query.SomethingIsLeast(left);
      var next :| Query.IsLeast(next, left);
      sorted := sorted + [next];
      left := left - {next};
    }
  }

  lemma DaysOfLasts(lasts: seq<Reading>, days: seq<int>)
    requires DaysAscend(lasts)
    requires forall d :: d in days <==> d in ByDay(lasts)
    requires forall i, j :: 0 <= i < j < |days| ==> days[i] < days[j]
    ensures |days| == |lasts|
    ensures forall k :: 0 <= k < |days| ==> days[k] in ByDay(lasts) && ByDay(lasts)[days[k]] == lasts[k]
  {
    hide DayOf, ByDay;
    ByDayFinds(lasts);
    var expected := seq(|lasts|, k requires 0 <= k < |lasts| => DayOf(lasts[k]));
    forall d
      ensures d in expected <==> d in days
    {
      if d in days {
        var k :| 0 <= k < |lasts| && DayOf(lasts[k]) == d;
        assert expected[k] == d;
      }
      if d in expected {
        var k :| 0 <= k < |expected| && expected[k] == d;
        assert DayOf(lasts[k]) in ByDay(lasts);
      }
    }
    SortedIsUnique(expected, days);
  }

  // ---- A range of days ----

  function Window(readings: seq<Reading>, start: int, end: int): seq<Reading> {
    if readings == [] then []
    else if start <= Last(readings).at < end then Window(Front(readings), start, end) + [Last(readings)]
    else Window(Front(readings), start, end)
  }

  /** The last reading before the window, no older than the floor if there is one. */
  function Boundary(readings: seq<Reading>, start: int, floor: Option<int>): Option<Reading> {
    if readings == [] then None
    else if Last(readings).at < start && (floor.None? || Last(readings).at >= floor.value) then Some(Last(readings))
    else Boundary(Front(readings), start, floor)
  }

  /** What the first day is compared with, and the readings that are compared. */
  function Baseline(readings: seq<Reading>, start: int, end: int, floor: Option<int>): (Option<Reading>, seq<Reading>) {
    var boundary, window := Boundary(readings, start, floor), Window(readings, start, end);
    if boundary.None? && floor.Some? && floor.value >= start && window != [] then (Some(window[0]), window[1..])
    else (boundary, window)
  }

  /** `get_daily_deltas_range` */
  function DailyDeltas(readings: seq<Reading>, start: int, end: int, floor: Option<int>): seq<DailyDelta> {
    var (boundary, window) := Baseline(readings, start, end, floor);
    Differences(LastOfEachDay(window), boundary)
  }

  method GetDailyDeltasRange(readings: seq<Reading>, start: int, end: int, floor: Option<int>) returns (deltas: seq<DailyDelta>)
    requires Ascending(readings)
    ensures deltas == DailyDeltas(readings, start, end, floor)
  {
    var boundary, window := Boundary(readings, start, floor), Window(readings, start, end);
    WindowFacts(readings, start, end);
    if boundary.None? && floor.Some? && floor.value >= start && window != [] {
      boundary := Some(window[0]);
      window := window[1..];
    }
    deltas := DiffReadings(window, boundary);
  }

  lemma {:induction false} WindowFacts(readings: seq<Reading>, start: int, end: int)
    requires Ascending(readings)
    ensures Ascending(Window(readings, start, end))
    ensures forall r :: r in Window(readings, start, end) <==> r in readings && start <= r.at < end
  {
    if readings != [] {
      WindowFacts(Front(readings), start, end);
      assert readings == Front(readings) + [Last(readings)];
      if start <= Last(readings).at < end {
        AscendingGrows(Window(Front(readings), start, end), Front(readings), Last(readings));
      }
    }
  }

  lemma AscendingGrows(window: seq<Reading>, readings: seq<Reading>, r: Reading)
    requires Ascending(window) && Ascending(readings + [r])
    requires forall x :: x in window ==> x in readings
    ensures Ascending(window + [r])
  {
    forall i | 0 <= i < |window|
      ensures window[i].at < r.at
    {
      assert window[i] in readings;
      var k :| 0 <= k < |readings| && readings[k] == window[i];
      assert (readings + [r])[k] == window[i] && (readings + [r])[|readings|] == r;
    }
  }

  /** Cutting a window in two, and what the second part is compared with. */
  lemma {:induction false} WindowSplits(readings: seq<Reading>, a: int, b: int, c: int)
    requires Ascending(readings) && a <= b <= c
    ensures Window(readings, a, c) == Window(readings, a, b) + Window(readings, b, c)
    ensures Boundary(readings, b, None)
            == if Window(readings, a, b) == [] then Boundary(readings, a, None) else Some(Last(Window(readings, a, b)))
  {
    if readings != [] {
      WindowSplits(Front(readings), a, b, c);
      WindowFacts(Front(readings), b, c);
      if Last(readings).at < b {
        NothingAfter(Front(readings), b, c);
      }
      if Last(readings).at < a {
        NothingAfter(Front(readings), a, b);
      }
    }
  }

  lemma {:induction false} NothingAfter(readings: seq<Reading>, b: int, c: int)
    requires forall i :: 0 <= i < |readings| ==> readings[i].at < b
    ensures Window(readings, b, c) == []
  {
    if readings != [] {
      NothingAfter(Front(readings), b, c);
    }
  }

  lemma TrimOfConcat(a: seq<Reading>, b: seq<Reading>, x: Reading)
    requires b == [] ==> a == [] || DayOf(Last(a)) != DayOf(x)
    ensures Trim(a + b, x) == a + Trim(b, x)
  {
    hide DayOf;
    if b == [] {
      assert a + b == a;
    } else {
      assert Front(a + b) == a + Front(b);
    }
  }

  lemma {:induction false} LastsOfConcat(x: seq<Reading>, y: seq<Reading>)
    requires forall i, j :: 0 <= i < |x| && 0 <= j < |y| ==> DayOf(x[i]) < DayOf(y[j])
    ensures LastOfEachDay(x + y) == LastOfEachDay(x) + LastOfEachDay(y)
    decreases |y|
  {
    hide DayOf, Trim;
    if y == [] {
      assert x + y == x;
    } else {
      assert Front(x + y) == x + Front(y) && Last(x + y) == Last(y);
      LastsOfConcat(x, Front(y));
      assert x != [] ==> DayOf(Last(x)) < DayOf(Last(y));
      TrimOfConcat(LastOfEachDay(x), LastOfEachDay(Front(y)), Last(y));
    }
  }

  lemma {:induction false} DifferencesOfConcat(x: seq<Reading>, y: seq<Reading>, previous: Option<Reading>)
    ensures Differences(x + y, previous)
            == Differences(x, previous) + Differences(y, PreviousAfter(x, previous))
    decreases |y|
  {
    hide Delta, Differences;
    if y == [] {
      assert x + y == x;
      NoDifferences(PreviousAfter(x, previous));
    } else {
      assert Front(x + y) == x + Front(y);
      DifferencesOfConcat(x, Front(y), previous);
      OneDifferenceMore(x + y, previous);
      OneDifferenceMore(y, PreviousAfter(x, previous));
    }
  }

  lemma {:induction false} FirstOfLasts(readings: seq<Reading>)
    requires readings != []
    ensures DayOf(LastOfEachDay(readings)[0]) == DayOf(readings[0])
  {
    hide DayOf;
    if |readings| > 1 {
      FirstOfLasts(Front(readings));
    } else {
      assert Front(readings) == [];
    }
  }

  // ---- Main results ----

  /** The days of a cut's two sides do not meet: no day has readings on both. */
  predicate CutsBetweenDays(x: seq<Reading>, y: seq<Reading>) {
    x == [] || y == [] || DayOf(Last(x)) != DayOf(y[0])
  }

  lemma DaysStayApart(x: seq<Reading>, y: seq<Reading>, cut: int)
    requires Ascending(x) && Ascending(y) && CutsBetweenDays(x, y)
    requires (forall r :: r in x ==> r.at < cut) && (forall r :: r in y ==> cut <= r.at)
    ensures forall i, j :: 0 <= i < |x| && 0 <= j < |y| ==> DayOf(x[i]) < DayOf(y[j])
  {
    hide DayOf;
    forall i, j | 0 <= i < |x| && 0 <= j < |y|
      ensures DayOf(x[i]) < DayOf(y[j])
    {
      assert Last(x) in x && y[0] in y;
      assert x[i].at <= Last(x).at < cut <= y[0].at <= y[j].at;
      DaySameOrLater(x[i], Last(x));
      DaySameOrLater(Last(x), y[0]);
      DaySameOrLater(y[0], y[j]);
    }
  }

  /** The second part of a cut starts with a day the first part already reported. */
  lemma MeetingDayIsTwice(x: seq<Reading>, y: seq<Reading>, before: Option<Reading>, between: Option<Reading>)
    requires x != [] && y != [] && DayOf(Last(x)) == DayOf(y[0])
    ensures var a, b := Differences(LastOfEachDay(x), before), Differences(LastOfEachDay(y), between);
            a != [] && b != [] && Last(a).day == b[0].day
  {
    hide DayOf, Differences, LastOfEachDay;
    FirstOfLasts(y);
    DaysOfDifferences(LastOfEachDay(x), before);
    DaysOfDifferences(LastOfEachDay(y), between);
  }

  /** Cutting a range changes nothing exactly when no day has readings on both sides of
      the cut; otherwise that day is reported twice. */
  lemma SplitsExactlyBetweenDays(readings: seq<Reading>, a: int, b: int, c: int)
    requires Ascending(readings) && a <= b <= c
    ensures DailyDeltas(readings, a, c, None) == DailyDeltas(readings, a, b, None) + DailyDeltas(readings, b, c, None)
            <==> CutsBetweenDays(Window(readings, a, b), Window(readings, b, c))
  {
    hide DayOf, Differences, LastOfEachDay;
    WindowSplits(readings, a, b, c);
    var x, y := Window(readings, a, b), Window(readings, b, c);
    WindowFacts(readings, a, b);
    WindowFacts(readings, b, c);
    if CutsBetweenDays(x, y) {
      DaysStayApart(x, y, b);
      LastsOfConcat(x, y);
      DifferencesOfConcat(LastOfEachDay(x), LastOfEachDay(y), Boundary(readings, a, None));
    } else {
      var left, right := DailyDeltas(readings, a, b, None), DailyDeltas(readings, b, c, None);
      MeetingDayIsTwice(x, y, Boundary(readings, a, None), Boundary(readings, b, None));
      DaysStrictlyAscend(readings, a, c, None);
      var joined: seq<DailyDelta> := left + right;
      assert joined[|left| - 1].day == joined[|left|].day;
    }
  }

  /** In particular, cutting at a UTC midnight changes nothing. */
  lemma MidnightSplits(readings: seq<Reading>, a: int, b: int, c: int)
    requires Ascending(readings) && a <= b <= c && b % DAY == 0
    ensures DailyDeltas(readings, a, c, None) == DailyDeltas(readings, a, b, None) + DailyDeltas(readings, b, c, None)
  {
    var x, y := Window(readings, a, b), Window(readings, b, c);
    WindowFacts(readings, a, b);
    WindowFacts(readings, b, c);
    SplitsExactlyBetweenDays(readings, a, b, c);
    if x != [] && y != [] {
      assert Last(x) in x && y[0] in y;
      MidnightSeparates(Last(x).at, b, y[0].at);
    }
  }

  lemma MidnightSeparates(before: int, midnight: int, after: int)
    requires midnight % DAY == 0 && before < midnight <= after
    ensures before / DAY < after / DAY
  {
  }

  /** Two readings of one day, cut at noon. */
  lemma NoonDoesNotSplit()
    ensures var readings := [Reading(0, Some(5), None, None), Reading(DAY / 2, Some(9), None, None)];
            && Ascending(readings)
            && DailyDeltas(readings, 0, DAY, None)
               != DailyDeltas(readings, 0, DAY / 2, None) + DailyDeltas(readings, DAY / 2, DAY, None)
  {
    hide Delta;
    var first, second := Reading(0, Some(5), None, None), Reading(DAY / 2, Some(9), None, None);
    var readings := [first, second];
    assert Front(readings) == [first] && Front([first]) == [];
    assert Window([first], 0, DAY / 2) == [first] && Window(readings, 0, DAY / 2) == [first];
    assert Window([first], DAY / 2, DAY) == [] && Window(readings, DAY / 2, DAY) == [] + [second] == [second];
    SplitsExactlyBetweenDays(readings, 0, DAY / 2, DAY);
  }

  /** One delta per day that has a reading in the window, in order of days. */
  lemma DaysStrictlyAscend(readings: seq<Reading>, start: int, end: int, floor: Option<int>)
    requires Ascending(readings)
    ensures var deltas := DailyDeltas(readings, start, end, floor);
            forall i, j :: 0 <= i < j < |deltas| ==> deltas[i].day < deltas[j].day
  {
    var (boundary, window) := Baseline(readings, start, end, floor);
    WindowFacts(readings, start, end);
    LastsAscend(window);
    DaysOfDifferences(LastOfEachDay(window), boundary);
  }

  lemma {:induction false} DaysOfDifferences(lasts: seq<Reading>, previous: Option<Reading>)
    ensures |Differences(lasts, previous)| == |lasts|
    ensures forall i :: 0 <= i < |lasts| ==> Differences(lasts, previous)[i].day == DayOf(lasts[i])
  {
    if lasts != [] {
      DaysOfDifferences(Front(lasts), previous);
    }
  }

  function SumOf(deltas: seq<DailyDelta>, f: Field): int {
    if deltas == [] then 0
    else SumOf(Front(deltas), f) + (var d := Last(deltas).Get(f); if d.Some? then d.value else 0)
  }

  function ValueOf(r: Reading, f: Field): int {
    var v := r.Get(f);
    if v.Some? then v.value else 0
  }

  function LastOr(previous: Reading, readings: seq<Reading>): Reading {
    if readings == [] then previous else Last(readings)
  }

  /** From `previous` on, the counter is always reported and never falls. */
  predicate Climbs(previous: Reading, readings: seq<Reading>, f: Field) {
    if readings == [] then previous.Get(f).Some?
    else
      && Climbs(previous, Front(readings), f)
      && Last(readings).Get(f).Some?
      && ValueOf(LastOr(previous, Front(readings)), f) <= ValueOf(Last(readings), f)
  }

  lemma ClimbsOneMore(previous: Reading, readings: seq<Reading>, f: Field)
    requires readings != [] && Climbs(previous, readings, f)
    ensures Climbs(previous, Front(readings), f) && Last(readings).Get(f).Some?
    ensures ValueOf(LastOr(previous, Front(readings)), f) <= ValueOf(Last(readings), f)
  {
  }

  lemma DeltaOfClimb(current: Reading, previous: Reading, f: Field)
    requires current.Get(f).Some? && previous.Get(f).Some? && ValueOf(previous, f) <= ValueOf(current, f)
    ensures Delta(current, Some(previous)).Get(f) == Some(ValueOf(current, f) - ValueOf(previous, f))
  {
  }

  lemma SumOneMore(deltas: seq<DailyDelta>, d: DailyDelta, f: Field)
    ensures SumOf(deltas + [d], f) == SumOf(deltas, f) + (if d.Get(f).Some? then d.Get(f).value else 0)
  {
    assert Front(deltas + [d]) == deltas;
  }

  lemma {:induction false} DifferencesTelescope(lasts: seq<Reading>, previous: Reading, f: Field)
    requires Climbs(previous, lasts, f)
    ensures SumOf(Differences(lasts, Some(previous)), f) == ValueOf(LastOr(previous, lasts), f) - ValueOf(previous, f)
    ensures forall d :: d in Differences(lasts, Some(previous)) ==> d.Get(f).Some?
    ensures LastOr(previous, lasts).Get(f).Some?
  {
    if lasts == [] {
    } else {
      hide Delta, Differences, Climbs, ValueOf, SumOf;
      ClimbsOneMore(previous, lasts, f);
      var earlier := Front(lasts);
      DifferencesTelescope(earlier, previous, f);
      OneDifferenceMore(lasts, Some(previous));
      DeltaOfClimb(Last(lasts), LastOr(previous, earlier), f);
      SumOneMore(Differences(earlier, Some(previous)), Delta(Last(lasts), Some(LastOr(previous, earlier))), f);
    }
  }

  lemma {:induction false} LastsStillClimb(previous: Reading, readings: seq<Reading>, f: Field)
    requires Climbs(previous, readings, f)
    ensures Climbs(previous, LastOfEachDay(readings), f)
  {
    if readings != [] {
      hide DayOf, ValueOf;
      ClimbsOneMore(previous, readings, f);
      LastsStillClimb(previous, Front(readings), f);
      var earlier, x := LastOfEachDay(Front(readings)), Last(readings);
      assert LastOr(previous, earlier) == LastOr(previous, Front(readings));
      TrimStillClimbs(previous, earlier, x, f);
    }
  }

  lemma TrimStillClimbs(previous: Reading, lasts: seq<Reading>, x: Reading, f: Field)
    requires Climbs(previous, lasts, f) && x.Get(f).Some? && ValueOf(LastOr(previous, lasts), f) <= ValueOf(x, f)
    ensures Climbs(previous, Trim(lasts, x) + [x], f)
  {
    hide DayOf;
    var kept := Trim(lasts, x);
    assert Front(kept + [x]) == kept;
    if kept != lasts {
      ClimbsOneMore(previous, lasts, f);
    }
  }

  /** On a meter that only climbs, the daily deltas add up to the last reading minus the
      boundary: no page is lost between days and none is counted twice. */
  lemma DeltasTelescope(readings: seq<Reading>, start: int, end: int, f: Field)
    requires Boundary(readings, start, None).Some?
    requires Climbs(Boundary(readings, start, None).value, Window(readings, start, end), f)
    ensures var boundary, window := Boundary(readings, start, None).value, Window(readings, start, end);
            var deltas := DailyDeltas(readings, start, end, None);
            && SumOf(deltas, f) == ValueOf(LastOr(boundary, window), f) - ValueOf(boundary, f)
            && forall d :: d in deltas ==> d.Get(f).Some?
  {
    var boundary, window := Boundary(readings, start, None).value, Window(readings, start, end);
    LastsStillClimb(boundary, window, f);
    DifferencesTelescope(LastOfEachDay(window), boundary, f);
  }

  // ---- Against the pages really made ----

  /** The pages really made by each moment, and how far resets and swaps had by then set
      the counter off from them. */
  datatype Truth = Truth(made: int -> int, shift: int -> int)

  /** Pages are only ever added, and no reset or swap raises the counter. */
  ghost predicate Behaves(t: Truth) {
    && (forall x, y :: x <= y ==> t.made(x) <= t.made(y))
    && (forall x, y :: x <= y ==> t.shift(y) <= t.shift(x))
  }

  predicate Tells(r: Reading, f: Field, t: Truth) {
    r.Get(f).Some? ==> r.Get(f).value == t.made(r.at) + t.shift(r.at)
  }

  function Pages(from: Reading, to: Reading, t: Truth): int {
    t.made(to.at) - t.made(from.at)
  }

  /** The counter was set back by more than was made. */
  predicate FellBack(current: Reading, previous: Reading, t: Truth) {
    Pages(previous, current, t) < t.shift(previous.at) - t.shift(current.at)
  }

  /** A delta says all that was made between its readings: a null one that nothing was,
      another that the counter was not set back in between. */
  predicate IsWhole(current: Reading, previous: Reading, f: Field, t: Truth) {
    if FieldDelta(current.Get(f), previous.Get(f)).None? then Pages(previous, current, t) == 0
    else t.shift(current.at) == t.shift(previous.at)
  }

  lemma DeltaNeverExceedsPages(current: Reading, previous: Reading, f: Field, t: Truth)
    requires Behaves(t) && Tells(current, f, t) && Tells(previous, f, t) && previous.at <= current.at
    ensures var d := Delta(current, Some(previous)).Get(f);
            var counted := if d.Some? then d.value else 0;
            && 0 <= counted <= Pages(previous, current, t)
            && (counted == Pages(previous, current, t) <==> IsWhole(current, previous, f, t))
            && (d.None? <==> (current.Get(f).None? || previous.Get(f).None? || FellBack(current, previous, t)))
  {
  }

  predicate AllWhole(lasts: seq<Reading>, previous: Reading, f: Field, t: Truth) {
    lasts == [] || (AllWhole(Front(lasts), previous, f, t) && IsWhole(Last(lasts), LastOr(previous, Front(lasts)), f, t))
  }

  lemma {:induction false} DifferencesNeverExceedPages(lasts: seq<Reading>, previous: Reading, f: Field, t: Truth)
    requires Behaves(t) && Ascending([previous] + lasts)
    requires Tells(previous, f, t) && forall r :: r in lasts ==> Tells(r, f, t)
    ensures SumOf(Differences(lasts, Some(previous)), f) <= Pages(previous, LastOr(previous, lasts), t)
    ensures SumOf(Differences(lasts, Some(previous)), f) == Pages(previous, LastOr(previous, lasts), t)
            <==> AllWhole(lasts, previous, f, t)
  {
    if lasts == [] {
    } else {
      hide Delta, Differences, SumOf, IsWhole, Tells, Behaves;
      var earlier, last := Front(lasts), Last(lasts);
      FrontFollows(previous, lasts);
      DifferencesNeverExceedPages(earlier, previous, f, t);
      OneDifferenceMore(lasts, Some(previous));
      DeltaNeverExceedsPages(last, LastOr(previous, earlier), f, t);
      SumOneMore(Differences(earlier, Some(previous)), Delta(last, Some(LastOr(previous, earlier))), f);
    }
  }

  lemma FrontFollows(previous: Reading, lasts: seq<Reading>)
    requires lasts != [] && Ascending([previous] + lasts)
    ensures Ascending([previous] + Front(lasts)) && LastOr(previous, Front(lasts)).at < Last(lasts).at
    ensures Last(lasts) in lasts && (forall r :: r in Front(lasts) ==> r in lasts)
    ensures Front(lasts) != [] ==> LastOr(previous, Front(lasts)) in lasts
  {
    var all := [previous] + lasts;
    assert [previous] + Front(lasts) == Front(all);
    assert LastOr(previous, Front(lasts)) == all[|all| - 2] && Last(lasts) == all[|all| - 1];
  }

  /** The last readings of the days come after whatever comes before all readings. */
  lemma LastsFollow(previous: Reading, window: seq<Reading>)
    requires Ascending(window) && (window != [] ==> previous.at < window[0].at)
    ensures Ascending([previous] + LastOfEachDay(window))
  {
    hide DayOf, LastOfEachDay;
    var lasts := LastOfEachDay(window);
    LastsAscend(window);
    LastsComeFromReadings(window);
    forall i | 0 <= i < |lasts|
      ensures previous.at < lasts[i].at
    {
      assert lasts[i] in window;
    }
    forall i, j | 0 <= i < j < |lasts|
      ensures lasts[i].at < lasts[j].at
    {
      if lasts[j].at <= lasts[i].at {
        DaySameOrLater(lasts[j], lasts[i]);
      }
    }
  }

  lemma {:induction false} SumOfConcat(a: seq<DailyDelta>, b: seq<DailyDelta>, f: Field)
    ensures SumOf(a + b, f) == SumOf(a, f) + SumOf(b, f)
  {
    if b == [] {
      assert a + b == a;
    } else {
      assert Front(a + b) == a + Front(b) && Last(a + b) == Last(b);
      SumOfConcat(a, Front(b), f);
    }
  }

  /** Without a baseline the first day is null, and the next is compared with it. */
  lemma FirstDayIsNull(lasts: seq<Reading>, f: Field)
    requires lasts != []
    ensures SumOf(Differences(lasts, None), f) == SumOf(Differences(lasts[1..], Some(lasts[0])), f)
  {
    var first := [lasts[0]];
    assert lasts == first + lasts[1..] && Front(first) == [];
    assert Differences(first, None) == [] + [Delta(lasts[0], None)];
    assert Front([Delta(lasts[0], None)]) == [];
    DifferencesOfConcat(first, lasts[1..], None);
    SumOfConcat(Differences(first, None), Differences(lasts[1..], Some(lasts[0])), f);
  }

  /** Where the counting of a range starts: at its baseline, or else at its first reading. */
  function StartOf(readings: seq<Reading>, start: int, end: int, floor: Option<int>): Reading
    requires Window(readings, start, end) != []
  {
    var base := Baseline(readings, start, end, floor).0;
    if base.Some? then base.value else Window(readings, start, end)[0]
  }

  lemma BaselineIsBefore(readings: seq<Reading>, start: int, end: int, floor: Option<int>)
    requires Ascending(readings) && Window(readings, start, end) != []
    ensures var (base, window) := Baseline(readings, start, end, floor);
            && Ascending(window) && (forall r :: r in window ==> r in readings)
            && (base.Some? ==> base.value in readings && (window != [] ==> base.value.at < window[0].at))
            && (base.Some? ==> LastOr(base.value, window) == Last(Window(readings, start, end)))
            && (base.None? ==> window == Window(readings, start, end))
  {
    BoundaryFacts(readings, start, floor);
    WindowFacts(readings, start, end);
    var all := Window(readings, start, end);
    assert all[0] in all;
    assert forall r :: r in all[1..] ==> r in all;
  }

  /** However the counter was reset, swapped for a lower one or not reported, the days of
      a range never add up to more than the pages made from its baseline to its last
      reading; and they add up to those if and only if every day's delta is whole. */
  lemma DeltasNeverExceedPages(readings: seq<Reading>, start: int, end: int, floor: Option<int>, f: Field, t: Truth)
    requires Ascending(readings) && Behaves(t) && (forall r :: r in readings ==> Tells(r, f, t))
    requires Window(readings, start, end) != []
    ensures var from, to := StartOf(readings, start, end, floor), Last(Window(readings, start, end));
            var (base, window) := Baseline(readings, start, end, floor);
            var sum := SumOf(DailyDeltas(readings, start, end, floor), f);
            && sum <= Pages(from, to, t)
            && (base.Some? ==> (sum == Pages(from, to, t) <==> AllWhole(LastOfEachDay(window), base.value, f, t)))
  {
    hide Differences, LastOfEachDay, SumOf, AllWhole, Tells, Window, Baseline;
    var (base, window) := Baseline(readings, start, end, floor);
    var lasts := LastOfEachDay(window);
    BaselineIsBefore(readings, start, end, floor);
    LastsComeFromReadings(window);
    assert forall r :: r in lasts ==> r in readings;
    if base.Some? {
      LastsFollow(base.value, window);
      DifferencesNeverExceedPages(lasts, base.value, f, t);
    } else {
      FirstDayIsNull(lasts, f);
      LastsOfAscend(window);
      assert lasts[0] in window && lasts == [lasts[0]] + lasts[1..];
      DifferencesNeverExceedPages(lasts[1..], lasts[0], f, t);
      assert LastOr(lasts[0], lasts[1..]) == Last(lasts) == Last(window);
    }
  }

  lemma LastsOfAscend(window: seq<Reading>)
    requires Ascending(window) && window != []
    ensures Ascending(LastOfEachDay(window)) && window[0].at <= LastOfEachDay(window)[0].at
  {
    hide DayOf, LastOfEachDay;
    var before := Reading(window[0].at - 1, None, None, None);
    LastsFollow(before, window);
    var all := [before] + LastOfEachDay(window);
    assert forall i :: 0 <= i < |LastOfEachDay(window)| ==> LastOfEachDay(window)[i] == all[i + 1];
    assert all[0].at < all[1].at;
  }

  predicate MayBeBoundary(r: Reading, start: int, floor: Option<int>) {
    r.at < start && (floor.None? || floor.value <= r.at)
  }

  lemma LastAndTheRest(readings: seq<Reading>)
    requires Ascending(readings) && readings != []
    ensures Ascending(Front(readings))
    ensures forall r :: r in readings <==> r in Front(readings) || r == Last(readings)
    ensures forall r :: r in Front(readings) ==> r.at < Last(readings).at
  {
    assert readings == Front(readings) + [Last(readings)];
  }

  /** There is a boundary if and only if some reading lies before the window and not before
      the floor, and then it is the last of those. */
  lemma {:induction false} BoundaryFacts(readings: seq<Reading>, start: int, floor: Option<int>)
    requires Ascending(readings)
    ensures var b := Boundary(readings, start, floor);
            && (b.None? <==> forall r :: r in readings ==> !MayBeBoundary(r, start, floor))
            && (b.Some? ==> b.value in readings && MayBeBoundary(b.value, start, floor))
            && (b.Some? ==> forall r :: r in readings && MayBeBoundary(r, start, floor) ==> r.at <= b.value.at)
  {
    if readings != [] {
      LastAndTheRest(readings);
      hide Ascending;
      BoundaryFacts(Front(readings), start, floor);
    }
  }

  /** Exactly what a range is compared with: its boundary; failing that, for a floor that is
      not before the window, the window's first reading, which then is not compared itself;
      failing that, nothing. */
  lemma BaselineExactly(readings: seq<Reading>, start: int, end: int, floor: Option<int>, r: Reading)
    requires Ascending(readings)
    ensures var (base, compared) := Baseline(readings, start, end, floor);
            var bounded := exists b :: b in readings && MayBeBoundary(b, start, floor);
            var adopts := !bounded && floor.Some? && start <= floor.value;
            && (base == Some(r) ==> r in readings)
            && (bounded ==> base.Some? && MayBeBoundary(base.value, start, floor)
                            && (r in readings && MayBeBoundary(r, start, floor) ==> r.at <= base.value.at))
            && (adopts && r in readings && start <= r.at < end ==> base.Some? && start <= base.value.at <= r.at)
            && (base.Some? <==> bounded || (adopts && exists x :: x in readings && start <= x.at < end))
            && (r in compared <==> r in readings && start <= r.at < end && (base.Some? ==> base.value.at < r.at))
  {
    BoundaryFacts(readings, start, floor);
    WindowFacts(readings, start, end);
    var window := Window(readings, start, end);
    var bounded := exists b :: b in readings && MayBeBoundary(b, start, floor);
    forall x | x in readings && start <= x.at < end
      ensures x in window
    {
    }
    if window != [] {
      assert window[0] in window && window == [window[0]] + window[1..];
      assert forall x :: x in window[1..] ==> window[0].at < x.at;
    }
  }

  /** The last reading of a day is the last: every reading has one of its own day that is
      not earlier. */
  lemma {:induction false} LastsAreTheLast(readings: seq<Reading>, r: Reading)
    requires Ascending(readings) && r in readings
    ensures exists l :: l in LastOfEachDay(readings) && DayOf(l) == DayOf(r) && r.at <= l.at
  {
    hide DayOf;
    var earlier, lasts, x := LastOfEachDay(Front(readings)), LastOfEachDay(readings), Last(readings);
    assert lasts[|lasts| - 1] == x;
    assert readings == Front(readings) + [x];
    if DayOf(r) == DayOf(x) {
      assert x in lasts;
    } else {
      assert r in Front(readings);
      LastsAreTheLast(Front(readings), r);
      var l :| l in earlier && DayOf(l) == DayOf(r) && r.at <= l.at;
      assert earlier == Front(earlier) + [Last(earlier)];
      assert l in lasts;
    }
  }

  /** The days reported are exactly those on which something was read in the window, after
      what the range is compared with. */
  lemma ReportedExactlyWhen(readings: seq<Reading>, start: int, end: int, floor: Option<int>, day: int)
    requires Ascending(readings)
    ensures var (base, compared) := Baseline(readings, start, end, floor);
            var deltas := DailyDeltas(readings, start, end, floor);
            (exists i :: 0 <= i < |deltas| && deltas[i].day == day)
            <==> exists r :: r in readings && start <= r.at < end && (base.Some? ==> base.value.at < r.at) && DayOf(r) == day
  {
    hide DayOf, LastOfEachDay, Differences, Baseline;
    var (base, compared) := Baseline(readings, start, end, floor);
    var lasts := LastOfEachDay(compared);
    ComparedAscend(readings, start, end, floor);
    DaysOfDifferences(lasts, base);
    LastsComeFromReadings(compared);
    forall r {
      BaselineExactly(readings, start, end, floor, r);
    }
    var deltas := DailyDeltas(readings, start, end, floor);
    if i :| 0 <= i < |deltas| && deltas[i].day == day {
      assert lasts[i] in compared && DayOf(lasts[i]) == day;
    }
    if r :| r in compared && DayOf(r) == day {
      LastsAreTheLast(compared, r);
      var l :| l in lasts && DayOf(l) == DayOf(r) && r.at <= l.at;
      var i :| 0 <= i < |lasts| && lasts[i] == l;
      assert deltas[i].day == day;
    }
  }

  lemma ComparedAscend(readings: seq<Reading>, start: int, end: int, floor: Option<int>)
    requires Ascending(readings)
    ensures Ascending(Baseline(readings, start, end, floor).1)
  {
    WindowFacts(readings, start, end);
  }

  /** Exactly when the first day is compared with a reading older than the floor: the
      floor lies inside the window and the window's first reading before it. */
  lemma FloorIsKeptExactlyWhen(readings: seq<Reading>, start: int, end: int, floor: int)
    requires Ascending(readings)
    ensures var window := Window(readings, start, end);
            var base := Baseline(readings, start, end, Some(floor)).0;
            base.Some? && base.value.at < floor <==> start < floor && window != [] && window[0].at < floor
  {
    BoundaryFacts(readings, start, Some(floor));
    WindowFacts(readings, start, end);
    var window := Window(readings, start, end);
    assert window != [] ==> window[0] in window;
  }

  /** A range that begins before the floor, over readings on both sides of it. */
  lemma FloorCanBeMissed()
    ensures var readings := [Reading(1, Some(5), None, None), Reading(3, Some(9), None, None)];
            && Ascending(readings)
            && Baseline(readings, 0, 4, Some(2)).0 == Some(readings[0]) && readings[0].at < 2
  {
    var first, second := Reading(1, Some(5), None, None), Reading(3, Some(9), None, None);
    var readings := [first, second];
    assert Front(readings) == [first] && Front([first]) == [];
    assert Boundary([first], 0, Some(2)) == None && Boundary(readings, 0, Some(2)) == None;
    assert Window([first], 0, 4) == [] + [first] && Window(readings, 0, 4) == [first] + [second];
  }

  /** The report's range, which begins at its own floor: when tracking was switched on,
      or later if a filter says so. */
  function ReportStart(filterStart: Option<int>, enabledAt: int): int {
    if filterStart.Some? && filterStart.value > enabledAt then filterStart.value else enabledAt
  }

  /** So the report, which begins at the later of the two, never compares a day with a reading
      from before tracking began. */
  lemma ReportKeepsItsFloor(readings: seq<Reading>, filterStart: Option<int>, enabledAt: int, end: int)
    requires Ascending(readings)
    ensures var base := Baseline(readings, ReportStart(filterStart, enabledAt), end, Some(enabledAt)).0;
            base.Some? ==> base.value.at >= enabledAt
    ensures ReportStart(filterStart, enabledAt) == enabledAt || Some(ReportStart(filterStart, enabledAt)) == filterStart
    ensures ReportStart(filterStart, enabledAt) >= enabledAt && (filterStart.Some? ==> ReportStart(filterStart, enabledAt) >= filterStart.value)
  {
    FloorIsKeptExactlyWhen(readings, ReportStart(filterStart, enabledAt), end, enabledAt);
  }
}
