/** Whole runs of apps/api/app/copiers/account_counters.py over one account of one
    copier: a meter that only climbs but may be cleared without notice, beside the
    pages it really produced. */
module AccountMetering {
  import opened Prelude
  import opened Ledger
  import opened AccountCounters

  /** Pages per (activity, counter type); a type that is absent stands for zero. */
  type Tally = map<(string, string), nat>

  function At(t: Tally, activity: string, name: string): nat {
    if (activity, name) in t then t[(activity, name)] else 0
  }

  function Sum(a: Tally, b: Tally): Tally {
    map k | k in a.Keys + b.Keys :: At(a, k.0, k.1) + At(b, k.0, k.1)
  }

  ghost predicate Shows(lists: Lists, meter: Tally) {
    forall activity, name :: Value(lists, activity, name) == At(meter, activity, name)
  }

  /** Pages per (activity, counter type) that never made it into the record. */
  type Loss = (string, string) -> int

  const NO_LOSS: Loss := (activity, name) => 0

  /** `made` is what the account really produced since its origin: the moment PrintOps
      provisioned it, or else its first reading. `counted` is `made` as of the last
      poll; the flags say whether the counters were cleared since the origin, and since
      that poll. `unseen` are the pages wiped off the counters since that poll before
      any poll saw them, `lost` all those missing from the record as of that poll. */
  datatype World = World(
    meter: Tally, made: Tally, counted: Tally, unseen: Loss, lost: Loss,
    cleared: bool, clearedSincePoll: bool, provisioned: Option<int>,
    view: seq<Reading>, deltas: seq<Delta>, usage: seq<Usage>, history: seq<(int, Lists)>, clock: int)

  datatype Step =
    | Make(pages: Tally)
    | Clear
    | Provision(at: int)
    | Poll(lists: Lists, owner: Option<Row>, now: int)

  ghost predicate Enabled(w: World, s: Step) {
    match s
    case Make(pages) => true
    case Clear => true
    case Provision(at) => w.view == [] && w.clock <= at
    case Poll(lists, owner, now) =>
      && w.clock < now && Shows(lists, w.meter)
      && (w.view == [] && owner.Some? ==> w.provisioned == Some(owner.value.provisionedAt))
  }

  /** What the last poll saw of a counter and the counters still show. */
  function Seen(w: World, activity: string, name: string): int {
    if w.view != [] && !w.clearedSincePoll then Value(Last(w.view).counters, activity, name) else 0
  }

  /** Pages on a counter that no poll has seen. */
  function Pending(w: World, activity: string, name: string): int {
    At(w.meter, activity, name) - Seen(w, activity, name)
  }

  /** What a poll subtracts in error: the old value of a counter that was cleared since,
      when every counter has climbed back to its old value and the clear goes unnoticed. */
  ghost function HiddenBy(w: World, lists: Lists, activity: string, name: string): int {
    if w.view != [] && w.clearedSincePoll && Reports(lists, activity, name) && !WentBackwards(Last(w.view).counters, lists)
    then Value(Last(w.view).counters, activity, name) else 0
  }

  /** Where an account's counting begins: when PrintOps puts it on the copier, or else at
      its first reading. */
  predicate IsOrigin(w: World, s: Step) {
    s.Provision? || (s.Poll? && w.view == [] && s.owner.None?)
  }

  predicate Counting(w: World) {
    w.view != [] || w.provisioned.Some?
  }

  ghost function Apply(account: string, w: World, s: Step): World {
    match s
    case Make(pages) => w.(meter := Sum(w.meter, pages), made := Sum(w.made, pages))
    case Clear => w.(meter := map[], cleared := true, clearedSincePoll := true,
                     unseen := (a, n) => w.unseen(a, n) + Pending(w, a, n))
    case Provision(at) => w.(meter := map[], made := map[], unseen := NO_LOSS, lost := NO_LOSS,
                             cleared := false, clearedSincePoll := false, provisioned := Some(at), clock := at)
    case Poll(lists, owner, now) =>
      var delta := RecordedDelta(w.view, lists, owner);
      var made := if IsOrigin(w, s) then map[] else w.made;
      w.(made := made, counted := made, unseen := NO_LOSS,
         lost := if IsOrigin(w, s) then NO_LOSS else (a, n) => w.lost(a, n) + w.unseen(a, n) + HiddenBy(w, lists, a, n),
         cleared := w.cleared && !IsOrigin(w, s), clearedSincePoll := false,
         view := ReadingsAfter(w.view, account, lists, now),
         deltas := w.deltas + (if delta.Some? then [delta.value] else []),
         usage := w.usage + UsageAfter(w.view, account, lists, owner, now),
         history := w.history + [(now, lists)],
         clock := now)
  }

  ghost predicate Runs(account: string, w: World, steps: seq<Step>)
    decreases |steps|
  {
    steps == [] || (Enabled(w, steps[0]) && Runs(account, Apply(account, w, steps[0]), steps[1..]))
  }

  ghost function After(account: string, w: World, steps: seq<Step>): World
    decreases |steps|
  {
    if steps == [] then w else After(account, Apply(account, w, steps[0]), steps[1..])
  }

  ghost predicate Unread(w: World) {
    && w.view == [] && w.deltas == [] && w.usage == [] && w.history == []
    && w.made == map[] && w.counted == map[] && w.unseen == w.lost == NO_LOSS && !w.cleared && !w.clearedSincePoll && w.provisioned == None 
  }

  function Recorded(deltas: seq<Delta>, activity: string, name: string): int {
    if deltas == [] then 0
    else Recorded(Front(deltas), activity, name) + Value(Last(deltas).lists, activity, name)
  }

  /** The pages of one activity that the usage rows carry. */
  function Billed(usage: seq<Usage>, activity: Activity): int {
    if usage == [] then 0
    else Billed(Front(usage), activity) + (if Last(usage).activity == activity then Last(usage).pages else 0)
  }

  // ---- Conservation of pages ----

  /** Pages produced since the last poll. */
  function Fresh(w: World, activity: string, name: string): int {
    At(w.made, activity, name) - At(w.counted, activity, name)
  }

  /** One counter of one account, in every reachable state. */
  ghost predicate Balanced(w: World, a: string, n: string) {
    && 0 <= w.unseen(a, n) && 0 <= w.lost(a, n) && 0 <= Pending(w, a, n)
    && (w.view != [] ==> Value(Last(w.view).counters, a, n) >= 0)
    && (!w.clearedSincePoll ==> w.unseen(a, n) == 0)
    && (!w.cleared ==> w.unseen(a, n) == w.lost(a, n) == 0)
    && (Counting(w) ==> && Recorded(w.deltas, a, n) + w.lost(a, n) == At(w.counted, a, n)
                        && Fresh(w, a, n) == w.unseen(a, n) + Pending(w, a, n))
  }

  ghost predicate PagesInv(w: World) {
    && (w.clearedSincePoll ==> w.cleared)
    && (w.view == [] ==> w.deltas == [] && w.counted == map[])
    && forall a, n :: Balanced(w, a, n)
  }

  /** What a poll records of a counter. */
  ghost function PolledPages(w: World, lists: Lists, owner: Option<Row>, a: string, n: string): int {
    var delta := RecordedDelta(w.view, lists, owner);
    if delta.Some? then Value(delta.value.lists, a, n) else 0
  }

  /** A counter flagged as reset was really cleared since the last poll. */
  lemma ResetMeansCleared(w: World, lists: Lists)
    requires PagesInv(w) && Shows(lists, w.meter) && w.view != []
    requires WentBackwards(Last(w.view).counters, lists)
    ensures w.clearedSincePoll
  {
    hide Recorded;
    var a, n :| Reports(lists, a, n) && Value(lists, a, n) < Value(Last(w.view).counters, a, n);
    assert Balanced(w, a, n);
    assert Value(lists, a, n) == At(w.meter, a, n);
  }

  lemma FirstPollRecordsAll(w: World, lists: Lists, owner: Option<Row>, a: string, n: string)
    requires w.view == [] && owner.Some?
    ensures PolledPages(w, lists, owner, a, n) == Value(lists, a, n)
  {
    if RecordedDelta(w.view, lists, owner).None? && Value(lists, a, n) != 0 {
      assert a in lists && n in lists[a];
      assert AnyCount(lists);
    }
  }

  lemma ChangeRecorded(w: World, lists: Lists, owner: Option<Row>, a: string, n: string)
    requires w.view != [] && Last(w.view).counters != lists
    ensures var previous := Last(w.view).counters;
            PolledPages(w, lists, owner, a, n)
            == if Reports(lists, a, n) then Moved(previous, lists, WentBackwards(previous, lists), a, n) else 0
  {
    var previous := Last(w.view).counters;
    var delta := Difference(previous, lists);
    hide Difference, WentBackwards;
    DifferenceIsDifference(previous, lists);
    assert Reports(delta.lists, a, n) ==> Reports(lists, a, n);
    assert Reports(lists, a, n) && !Reports(delta.lists, a, n) ==> Moved(previous, lists, delta.followsReset, a, n) == 0;
  }

  /** What a poll records of a counter falls short of the pages made since the last poll
      by those wiped before any poll saw them, and by what it subtracts in error. */
  lemma PollIsExact(w: World, lists: Lists, owner: Option<Row>, a: string, n: string)
    requires PagesInv(w) && Shows(lists, w.meter) && Counting(w)
    requires w.view == [] ==> owner.Some?
    ensures PolledPages(w, lists, owner, a, n) + w.unseen(a, n) + HiddenBy(w, lists, a, n) == Fresh(w, a, n)
    ensures HiddenBy(w, lists, a, n) >= 0 && (!w.clearedSincePoll ==> HiddenBy(w, lists, a, n) == 0)
  {
    hide Recorded, RecordedDelta, PolledPages;
    assert Balanced(w, a, n);
    assert Value(lists, a, n) == At(w.meter, a, n);
    if w.view == [] {
      FirstPollRecordsAll(w, lists, owner, a, n);
    } else {
      var previous := Last(w.view).counters;
      if WentBackwards(previous, lists) {
        ResetMeansCleared(w, lists);
      }
      if previous == lists {
        NoChangeRecorded(w, lists, owner, a, n);
      } else {
        ChangeRecorded(w, lists, owner, a, n);
      }
    }
  }

  lemma NoChangeRecorded(w: World, lists: Lists, owner: Option<Row>, a: string, n: string)
    requires w.view != [] && Last(w.view).counters == lists
    ensures PolledPages(w, lists, owner, a, n) == 0 && !WentBackwards(Last(w.view).counters, lists)
  {
  }

  /** What a poll adds is never more than the pages produced since the poll before,
      and exactly those when the counters were not cleared in between. */
  lemma PollCountsFreshPages(w: World, lists: Lists, owner: Option<Row>)
    requires PagesInv(w) && Shows(lists, w.meter) && Counting(w)
    requires w.view == [] ==> owner.Some?
    ensures forall a, n ::
              && PolledPages(w, lists, owner, a, n) <= Fresh(w, a, n)
              && (!w.clearedSincePoll ==> PolledPages(w, lists, owner, a, n) == Fresh(w, a, n))
  {
    hide Recorded, RecordedDelta, HiddenBy, PolledPages;
    forall a, n
      ensures PolledPages(w, lists, owner, a, n) <= Fresh(w, a, n)
      ensures !w.clearedSincePoll ==> PolledPages(w, lists, owner, a, n) == Fresh(w, a, n)
    {
      assert Balanced(w, a, n);
      PollIsExact(w, lists, owner, a, n);
    }
  }

  lemma RecordedOfAppend(deltas: seq<Delta>, delta: Delta, activity: string, name: string)
    ensures Recorded(deltas + [delta], activity, name) == Recorded(deltas, activity, name) + Value(delta.lists, activity, name)
  {
    assert Front(deltas + [delta]) == deltas;
  }

  lemma RecordedAfterPoll(account: string, w: World, s: Step, a: string, n: string)
    requires s.Poll?
    ensures Recorded(Apply(account, w, s).deltas, a, n) == Recorded(w.deltas, a, n) + PolledPages(w, s.lists, s.owner, a, n)
  {
    hide Recorded, RecordedDelta, UsageAfter, ReadingsAfter;
    var delta := RecordedDelta(w.view, s.lists, s.owner);
    if delta.Some? {
      RecordedOfAppend(w.deltas, delta.value, a, n);
    } else {
      assert w.deltas + [] == w.deltas;
    }
  }

  /** The reading a poll leaves live is the one it took. */
  lemma PollSeesTheMeter(account: string, w: World, s: Step)
    requires s.Poll?
    ensures var w' := Apply(account, w, s); w'.view != [] && Last(w'.view).counters == s.lists
  {
    hide RecordedDelta, UsageAfter, Difference;
  }

  lemma PollKeepsPages(account: string, w: World, s: Step)
    requires PagesInv(w) && Enabled(w, s) && s.Poll?
    ensures PagesInv(Apply(account, w, s))
  {
    var w' := Apply(account, w, s);
    PollSeesTheMeter(account, w, s);
    hide Recorded, RecordedDelta, UsageAfter, ReadingsAfter, HiddenBy, PolledPages;
    forall a, n
      ensures Balanced(w', a, n)
    {
      assert Balanced(w, a, n);
      assert Value(s.lists, a, n) == At(w.meter, a, n) == At(w'.meter, a, n);
      RecordedAfterPoll(account, w, s, a, n);
      if IsOrigin(w, s) {
        OriginRecordsNothing(w, s, a, n);
      } else {
        PollIsExact(w, s.lists, s.owner, a, n);
      }
    }
  }

  lemma OriginRecordsNothing(w: World, s: Step, a: string, n: string)
    requires s.Poll? && IsOrigin(w, s) && PagesInv(w)
    ensures Recorded(w.deltas, a, n) == PolledPages(w, s.lists, s.owner, a, n) == 0
  {
  }

  lemma RecordedNothing()
    ensures forall a, n :: Recorded([], a, n) == 0
  {
  }

  lemma MakeKeepsPages(account: string, w: World, pages: Tally)
    requires PagesInv(w)
    ensures PagesInv(Apply(account, w, Make(pages)))
  {
    hide Recorded, Value;
    var w' := Apply(account, w, Make(pages));
    forall a, n
      ensures Balanced(w', a, n)
    {
      assert Balanced(w, a, n);
      assert At(w'.made, a, n) == At(w.made, a, n) + At(pages, a, n);
      assert At(w'.meter, a, n) == At(w.meter, a, n) + At(pages, a, n);
    }
  }

  lemma ClearKeepsPages(account: string, w: World)
    requires PagesInv(w)
    ensures PagesInv(Apply(account, w, Clear))
  {
    hide Recorded, Value;
    var w' := Apply(account, w, Clear);
    forall a, n
      ensures Balanced(w', a, n)
    {
      assert Balanced(w, a, n);
      assert At(w'.meter, a, n) == 0;
    }
  }

  lemma ProvisionKeepsPages(account: string, w: World, at: int)
    requires PagesInv(w) && Enabled(w, Provision(at))
    ensures PagesInv(Apply(account, w, Provision(at)))
  {
    RecordedNothing();
    var w' := Apply(account, w, Provision(at));
    forall a, n
      ensures Balanced(w', a, n)
    {
      assert At(w'.meter, a, n) == At(w'.made, a, n) == 0;
    }
  }

  lemma StepKeepsPages(account: string, w: World, s: Step)
    requires PagesInv(w) && Enabled(w, s)
    ensures PagesInv(Apply(account, w, s))
  {
    hide Recorded;
    match s {
      case Make(pages) => MakeKeepsPages(account, w, pages);
      case Clear => ClearKeepsPages(account, w);
      case Provision(at) => ProvisionKeepsPages(account, w, at);
      case Poll(lists, owner, now) => PollKeepsPages(account, w, s);
    }
  }

  // ---- Run-length encoding ----

  /** One row per stretch of unchanged counters, each over before the next begins. */
  ghost predicate Encodes(view: seq<Reading>, account: string, clock: int) {
    && OneLive(view)
    && (forall i :: 0 <= i < |view| ==> view[i].account == account && view[i].firstSeen <= view[i].lastSeen <= clock)
    && (forall i, j :: 0 <= i < j < |view| ==> view[i].lastSeen < view[j].firstSeen)
    && (forall i :: 0 <= i < |view| - 1 ==>
         view[i].superseded == Some(view[i + 1].firstSeen) && view[i].counters != view[i + 1].counters)
  }

  predicate Spans(r: Reading, t: int) {
    r.firstSeen <= t <= r.lastSeen
  }

  /** What the stored rows say was reported at `t`. */
  function Decode(view: seq<Reading>, t: int): Option<Lists> {
    if view == [] then None
    else if Spans(Last(view), t) then Some(Last(view).counters)
    else Decode(Front(view), t)
  }

  lemma {:induction false} DecodeFinds(view: seq<Reading>, account: string, clock: int, i: nat, t: int)
    requires Encodes(view, account, clock) && i < |view| && Spans(view[i], t)
    ensures Decode(view, t) == Some(view[i].counters)
    ensures forall j :: 0 <= j < |view| && Spans(view[j], t) ==> j == i
  {
    SpansOnce(view, account, clock, i, |view|, t);
  }

  lemma {:induction false} SpansOnce(view: seq<Reading>, account: string, clock: int, i: nat, upTo: nat, t: int)
    requires Encodes(view, account, clock) && i < upTo <= |view| && Spans(view[i], t)
    ensures Decode(view[..upTo], t) == Some(view[i].counters)
    ensures forall j :: 0 <= j < |view| && Spans(view[j], t) ==> j == i
    ensures view[..|view|] == view
  {
    assert forall j :: i < j < |view| ==> view[i].lastSeen < view[j].firstSeen;
    assert forall j :: 0 <= j < i ==> view[j].lastSeen < view[i].firstSeen;
    if i < upTo - 1 {
      assert Front(view[..upTo]) == view[..upTo - 1];
      SpansOnce(view, account, clock, i, upTo - 1, t);
    }
  }

  ghost predicate Remembers(view: seq<Reading>, history: seq<(int, Lists)>) {
    forall k :: 0 <= k < |history| ==> Holds(view, history[k].0, history[k].1)
  }

  ghost predicate Holds(view: seq<Reading>, t: int, lists: Lists) {
    exists i :: 0 <= i < |view| && Spans(view[i], t) && view[i].counters == lists
  }

  ghost predicate EncodingInv(account: string, w: World) {
    Encodes(w.view, account, w.clock) && Remembers(w.view, w.history)
  }

  /** A poll only stretches the rows there were, and leaves one that spans it. */
  lemma PollStretchesRows(view: seq<Reading>, account: string, lists: Lists, now: int)
    requires view != [] ==> Last(view).firstSeen <= Last(view).lastSeen < now
    ensures var after := ReadingsAfter(view, account, lists, now);
            && |view| <= |after| && after != []
            && Last(after).lastSeen == now && Last(after).firstSeen <= now && Last(after).counters == lists
            && forall i :: 0 <= i < |view| ==>
                 after[i].firstSeen == view[i].firstSeen && after[i].lastSeen >= view[i].lastSeen && after[i].counters == view[i].counters
  {
    hide Difference;
  }

  lemma PollKeepsMemory(view: seq<Reading>, account: string, history: seq<(int, Lists)>, lists: Lists, now: int)
    requires Remembers(view, history) && (view != [] ==> Last(view).firstSeen <= Last(view).lastSeen < now)
    ensures Remembers(ReadingsAfter(view, account, lists, now), history + [(now, lists)])
  {
    hide ReadingsAfter;
    var after := ReadingsAfter(view, account, lists, now);
    var h := history + [(now, lists)];
    PollStretchesRows(view, account, lists, now);
    forall k | 0 <= k < |h|
      ensures Holds(after, h[k].0, h[k].1)
    {
      if k < |history| {
        assert h[k] == history[k] && Holds(view, history[k].0, history[k].1);
        var i :| 0 <= i < |view| && Spans(view[i], history[k].0) && view[i].counters == history[k].1;
        assert Spans(after[i], h[k].0) && after[i].counters == h[k].1;
      } else {
        assert h[k] == (now, lists);
        assert Spans(after[|after| - 1], now) && after[|after| - 1].counters == lists;
      }
    }
  }

  lemma SameKeepsEncoding(account: string, view: seq<Reading>, clock: int, now: int)
    requires Encodes(view, account, clock) && view != [] && clock < now
    ensures Encodes(Front(view) + [Last(view).(lastSeen := now)], account, now)
  {
    var after := Front(view) + [Last(view).(lastSeen := now)];
    assert forall i :: 0 <= i < |view| - 1 ==> after[i] == view[i];
    assert after[|view| - 1].firstSeen == view[|view| - 1].firstSeen;
  }

  lemma ChangeKeepsEncoding(account: string, view: seq<Reading>, clock: int, lists: Lists, reset: bool, now: int)
    requires Encodes(view, account, clock) && view != [] && Last(view).counters != lists && clock < now
    ensures Encodes(Front(view) + [Last(view).(superseded := Some(now)), Reading(account, lists, now, now, None, reset)], account, now)
  {
    var n := |view| - 1;
    var after := Front(view) + [Last(view).(superseded := Some(now)), Reading(account, lists, now, now, None, reset)];
    assert forall i :: 0 <= i < n ==> after[i] == view[i];
    assert after[n] == view[n].(superseded := Some(now)) && after[n + 1] == Reading(account, lists, now, now, None, reset);
    assert forall i :: 0 <= i <= n ==> after[i].lastSeen == view[i].lastSeen <= clock && after[i].firstSeen == view[i].firstSeen;
  }

  lemma PollKeepsEncoding(account: string, view: seq<Reading>, history: seq<(int, Lists)>, clock: int, lists: Lists, now: int)
    requires Encodes(view, account, clock) && Remembers(view, history) && clock < now
    ensures Encodes(ReadingsAfter(view, account, lists, now), account, now)
    ensures Remembers(ReadingsAfter(view, account, lists, now), history + [(now, lists)])
  {
    hide Difference, Remembers;
    PollKeepsMemory(view, account, history, lists, now);
    if view != [] {
      hide Encodes;
      if Last(view).counters == lists {
        SameKeepsEncoding(account, view, clock, now);
      } else {
        ChangeKeepsEncoding(account, view, clock, lists, Difference(Last(view).counters, lists).followsReset, now);
      }
    }
  }

  // ---- Usage periods ----

  /** Periods of one activity follow one another, and none reaches past the last poll. */
  ghost predicate PeriodsInSequence(usage: seq<Usage>, through: int) {
    && (forall i :: 0 <= i < |usage| ==> usage[i].start <= usage[i].end <= through)
    && (forall i, j :: 0 <= i < j < |usage| && usage[i].activity == usage[j].activity ==> usage[i].end <= usage[j].start)
  }

  ghost predicate PeriodsInv(w: World) {
    && (w.provisioned.Some? ==> w.provisioned.value <= w.clock)
    && (w.view == [] ==> w.usage == [])
    && (w.view != [] ==> Last(w.view).lastSeen == w.clock && w.history != [] && Last(w.history).0 == w.clock)
    && (w.view != [] ==> PeriodsInSequence(w.usage, w.clock))
  }

  lemma RowsShareThePeriod(account: string, delta: Delta, owner: Option<Row>, start: int, end: int, baseline: bool)
    ensures var rows := UsageRows(account, delta, owner, start, end, baseline);
            && (forall i :: 0 <= i < |rows| ==> rows[i].start == start && rows[i].end == end)
            && (forall i, j :: 0 <= i < j < |rows| ==> rows[i].activity != rows[j].activity)
  {
    hide TotalPages, Value, EmailOf, SplitOf, OneRow;
    var copied, scanned, faxed :=
      TotalPages(delta.lists, "copy"), Value(delta.lists, "scan_fax", "DocumentReadTotal"), Value(delta.lists, "scan_fax", "FaxSend");
    var c := Usage(account, EmailOf(owner), Copy, copied, SplitOf(delta.lists), start, end, delta, baseline);
    var s := Usage(account, EmailOf(owner), Scan, scanned, NO_SPLIT, start, end, delta, baseline);
    var f := Usage(account, EmailOf(owner), Fax, faxed, NO_SPLIT, start, end, delta, baseline);
    AtMostOne(copied, c);
    AtMostOne(scanned, s);
    AtMostOne(faxed, f);
  }

  lemma AtMostOne(pages: int, row: Usage)
    ensures |OneRow(pages, row)| <= 1 && forall i :: 0 <= i < |OneRow(pages, row)| ==> OneRow(pages, row)[i] == row
  {
  }

  lemma BatchKeepsPeriods(usage: seq<Usage>, through: int, added: seq<Usage>, start: int, end: int)
    requires usage == [] || (PeriodsInSequence(usage, through) && through <= start)
    requires start <= end
    requires forall i :: 0 <= i < |added| ==> added[i].start == start && added[i].end == end
    requires forall i, j :: 0 <= i < j < |added| ==> added[i].activity != added[j].activity
    ensures PeriodsInSequence(usage + added, end)
  {
    var all := usage + added;
    assert forall i :: 0 <= i < |all| ==> all[i] == if i < |usage| then usage[i] else added[i - |usage|];
  }

  lemma PollKeepsPeriods(account: string, w: World, s: Step)
    requires PeriodsInv(w) && Enabled(w, s) && s.Poll?
    ensures PeriodsInv(Apply(account, w, s))
  {
    hide Difference, AnyCount, UsageRows;
    var w' := Apply(account, w, s);
    assert Last(w'.view).lastSeen == s.now;
    var delta := RecordedDelta(w.view, s.lists, s.owner);
    if delta.None? {
      assert w'.usage == w.usage;
    } else if w.view == [] {
      var start := s.owner.value.provisionedAt;
      RowsShareThePeriod(account, delta.value, s.owner, start, s.now, true);
      BatchKeepsPeriods(w.usage, w.clock, UsageAfter(w.view, account, s.lists, s.owner, s.now), start, s.now);
    } else {
      var start := Last(w.view).lastSeen;
      RowsShareThePeriod(account, delta.value, s.owner, start, s.now, false);
      BatchKeepsPeriods(w.usage, start, UsageAfter(w.view, account, s.lists, s.owner, s.now), start, s.now);
    }
  }

  // ---- Copies billed ----

  /** The counters a model keeps under "copy": one per kind of page, and perhaps a
      total of them. */
  datatype Device = Device(pageTypes: set<string>, hasTotal: bool)

  ghost function Copied(d: Device, t: Tally): int {
    SumOver(d.pageTypes, n => At(t, "copy", n))
  }

  ghost predicate AddsUp(d: Device, t: Tally) {
    && (forall n :: n in d.pageTypes ==> CountsPages(n))
    && (forall n :: CountsPages(n) && n !in d.pageTypes ==> At(t, "copy", n) == 0)
    && At(t, "copy", "Total") == if d.hasTotal then Copied(d, t) else 0
  }

  /** What a run must respect when the copier is such a model. */
  ghost predicate FitsStep(d: Device, s: Step) {
    match s
    case Make(pages) => AddsUp(d, pages)
    case Poll(lists, _, _) => Reports(lists, "copy", "Total") ==> d.hasTotal
    case _ => true
  }

  lemma {:induction false} SumIsPointwise(names: set<string>, f: string -> int, g: string -> int)
    requires forall n :: n in names ==> f(n) <= g(n)
    ensures SumOver(names, f) <= SumOver(names, g)
    ensures (forall n :: n in names ==> f(n) == g(n)) ==> SumOver(names, f) == SumOver(names, g)
    decreases names
  {
    if names != {} {
      var n :| n in names;
      SumPicksAny(names, f, n);
      SumPicksAny(names, g, n);
      SumIsPointwise(names - {n}, f, g);
    }
  }

  lemma {:induction false} SumOfDifference(names: set<string>, f: string -> int, g: string -> int, h: string -> int)
    requires forall n :: n in names ==> h(n) == f(n) - g(n)
    ensures SumOver(names, h) == SumOver(names, f) - SumOver(names, g)
    decreases names
  {
    if names != {} {
      var n :| n in names;
      SumPicksAny(names, f, n);
      SumPicksAny(names, g, n);
      SumPicksAny(names, h, n);
      SumOfDifference(names - {n}, f, g, h);
    }
  }

  /** Names at which `f` is zero may be added to a sum or left out of it. */
  lemma {:induction false} SumIgnoresZeros(a: set<string>, b: set<string>, f: string -> int)
    requires forall n :: n in a && n !in b ==> f(n) == 0
    requires forall n :: n in b && n !in a ==> f(n) == 0
    ensures SumOver(a, f) == SumOver(b, f)
    decreases a + b
  {
    if a + b != {} {
      var n :| n in a + b;
      if n in a {
        SumPicksAny(a, f, n);
      } else {
        assert a - {n} == a;
      }
      if n in b {
        SumPicksAny(b, f, n);
      } else {
        assert b - {n} == b;
      }
      assert (a - {n}) + (b - {n}) < a + b;
      SumIgnoresZeros(a - {n}, b - {n}, f);
    }
  }

  const KINDS: set<string> := {"FullColor", "BiColor", "MonoColor", "Bw"}

  function OrZero(pages: Option<int>): int {
    if pages.Some? then pages.value else 0
  }

  /** Where the copier counts a page as colour or as black and in no other way, and sends
      no total, the two parts of a copy row add up to its pages. */
  lemma SplitAddsUp(lists: Lists)
    requires !Reports(lists, "copy", "Total")
    requires forall n :: CountsPages(n) && n !in KINDS ==> Value(lists, "copy", n) == 0
    ensures OrZero(SplitOf(lists).color) + OrZero(SplitOf(lists).mono) == TotalPages(lists, "copy")
  {
    var f := (n: string) => Value(lists, "copy", n);
    KindsCountPages();
    hide CountsPages;
    assert forall n :: n in KINDS && n !in PageTypesOf(lists, "copy") ==> f(n) == 0;
    SumIgnoresZeros(PageTypesOf(lists, "copy"), KINDS, f);
    SumOfKinds(f);
  }

  lemma KindsCountPages()
    ensures forall n :: n in KINDS ==> CountsPages(n)
  {
    assert "FullColor"[8] == 'r' && "BiColor"[6] == 'r' && "MonoColor"[8] == 'r';
    forall n | n in KINDS
      ensures CountsPages(n)
    {
      assert |n| >= 5 ==> n[|n| - 5..][4] == 'r' && "Large"[4] == 'e';
      assert n[0] != 'T' && n[0] != 'P' && n[0] != 'D' && (n[0] == 'B' ==> n[1] != 'l');
    }
  }

  lemma SumOfKinds(f: string -> int)
    ensures SumOver(KINDS, f) == f("FullColor") + f("BiColor") + f("MonoColor") + f("Bw")
  {
    assert "Bw"[0] == 'B' && "BiColor"[1] == 'i' && "Bw"[1] == 'w' && "FullColor"[0] == 'F' && "MonoColor"[0] == 'M';
    SumPicksAny(KINDS, f, "FullColor");
    var three: set<string> := {"BiColor", "MonoColor", "Bw"};
    assert KINDS - {"FullColor"} == three;
    SumPicksAny(three, f, "BiColor");
    var two: set<string> := {"MonoColor", "Bw"};
    assert three - {"BiColor"} == two;
    SumPicksAny(two, f, "MonoColor");
    var one: set<string> := {"Bw"};
    assert two - {"MonoColor"} == one;
    SumPicksAny(one, f, "Bw");
    assert one - {"Bw"} == {};
  }

  /** The pages of a delta that never exceeds `made - counted` counter by counter do
      not exceed it in total either, whether or not the device sends a total. */
  lemma TotalOfDelta(d: Device, lists: Lists, made: Tally, counted: Tally, exact: bool)
    requires AddsUp(d, made) && AddsUp(d, counted)
    requires forall n :: Value(lists, "copy", n) <= At(made, "copy", n) - At(counted, "copy", n)
    requires forall n :: CountsPages(n) && n !in d.pageTypes ==> Value(lists, "copy", n) == 0
    requires Reports(lists, "copy", "Total") ==> d.hasTotal
    requires exact ==> forall n :: Value(lists, "copy", n) == At(made, "copy", n) - At(counted, "copy", n)
    ensures TotalPages(lists, "copy") <= Copied(d, made) - Copied(d, counted)
    ensures exact ==> TotalPages(lists, "copy") == Copied(d, made) - Copied(d, counted)
  {
    var f := (n: string) => Value(lists, "copy", n);
    var g := (n: string) => At(made, "copy", n) - At(counted, "copy", n);
    SumOfDifference(d.pageTypes, n => At(made, "copy", n), n => At(counted, "copy", n), g);
    if !Reports(lists, "copy", "Total") {
      SumIgnoresZeros(PageTypesOf(lists, "copy"), d.pageTypes, f);
      SumIsPointwise(d.pageTypes, f, g);
    }
  }

  lemma {:induction false} BilledOfConcat(a: seq<Usage>, b: seq<Usage>, activity: Activity)
    ensures Billed(a + b, activity) == Billed(a, activity) + Billed(b, activity)
  {
    if b == [] {
      assert a + b == a;
    } else {
      assert Front(a + b) == a + Front(b);
      BilledOfConcat(a, Front(b), activity);
    }
  }

  /** The pages a delta has for an activity. */
  ghost function PagesFor(delta: Delta, activity: Activity): int {
    match activity
    case Copy => TotalPages(delta.lists, "copy")
    case Scan => Value(delta.lists, "scan_fax", "DocumentReadTotal")
    case Fax => Value(delta.lists, "scan_fax", "FaxSend")
  }

  lemma {:induction false} BilledOfOthers(usage: seq<Usage>, activity: Activity)
    requires forall r :: r in usage ==> r.activity != activity
    ensures Billed(usage, activity) == 0
  {
    if usage != [] {
      assert forall r :: r in Front(usage) ==> r in usage;
      BilledOfOthers(Front(usage), activity);
    }
  }

  lemma {:induction false} BilledOfOnly(usage: seq<Usage>, i: nat)
    requires i < |usage| && forall j :: 0 <= j < |usage| && j != i ==> usage[j].activity != usage[i].activity
    ensures Billed(usage, usage[i].activity) == usage[i].pages
  {
    var n := |usage| - 1;
    if i < n {
      BilledOfOnly(Front(usage), i);
    } else {
      BilledOfOthers(Front(usage), usage[i].activity);
    }
  }

  lemma BilledOfRows(account: string, delta: Delta, owner: Option<Row>, start: int, end: int, baseline: bool, activity: Activity)
    ensures Billed(UsageRows(account, delta, owner, start, end, baseline), activity) == PagesFor(delta, activity)
  {
    var rows := UsageRows(account, delta, owner, start, end, baseline);
    RowExactlyWhenMoved(account, delta, owner, start, end, baseline);
    hide TotalPages, Value, UsageRows, Billed;
    if r :| r in rows && r.activity == activity {
      var i :| 0 <= i < |rows| && rows[i] == r;
      assert IsRowOf(r, delta);
      BilledOfOnly(rows, i);
    } else {
      BilledOfOthers(rows, activity);
    }
  }

  ghost predicate BillingInv(d: Device, w: World) {
    && AddsUp(d, w.meter) && AddsUp(d, w.made) && AddsUp(d, w.counted)
    && (w.view != [] ==> forall n :: CountsPages(n) && n !in d.pageTypes ==> Value(Last(w.view).counters, "copy", n) == 0)
    && (w.view != [] && Reports(Last(w.view).counters, "copy", "Total") ==> d.hasTotal)
    && Billed(w.usage, Copy) <= Copied(d, w.counted)
    && (!w.cleared ==> Billed(w.usage, Copy) == Copied(d, w.counted))
  }

  lemma AddsUpSums(d: Device, a: Tally, b: Tally)
    requires AddsUp(d, a) && AddsUp(d, b)
    ensures AddsUp(d, Sum(a, b))
  {
    assert forall n :: At(Sum(a, b), "copy", n) == At(a, "copy", n) + At(b, "copy", n);
    SumOfDifference(d.pageTypes, n => At(Sum(a, b), "copy", n), n => At(a, "copy", n), n => At(b, "copy", n));
  }

  lemma AddsUpToNothing(d: Device)
    requires forall n :: n in d.pageTypes ==> CountsPages(n)
    ensures AddsUp(d, map[]) && Copied(d, map[]) == 0
  {
    SumIgnoresZeros(d.pageTypes, {}, n => At(map[], "copy", n));
  }

  lemma MadeCoversCounted(w: World)
    requires PagesInv(w)
    ensures forall a, n :: At(w.counted, a, n) <= At(w.made, a, n)
  {
    hide Recorded, Pending;
    forall a, n
      ensures At(w.counted, a, n) <= At(w.made, a, n)
    {
      assert Balanced(w, a, n);
    }
  }

  lemma NothingRecordedStillCovers(d: Device, w: World, lists: Lists, owner: Option<Row>)
    requires PagesInv(w) && Shows(lists, w.meter) && RecordedDelta(w.view, lists, owner).None?
    requires Counting(w) && (w.view == [] ==> owner.Some?)
    ensures Copied(d, w.counted) <= Copied(d, w.made)
    ensures !w.clearedSincePoll ==> Copied(d, w.counted) == Copied(d, w.made)
  {
    hide RecordedDelta, Recorded, PagesInv;
    PollCountsFreshPages(w, lists, owner);
    MadeCoversCounted(w);
    if !w.clearedSincePoll {
      forall n
        ensures At(w.counted, "copy", n) == At(w.made, "copy", n)
      {
        assert PolledPages(w, lists, owner, "copy", n) == Fresh(w, "copy", n);
      }
    }
    CopiedGrows(d, w.counted, w.made, !w.clearedSincePoll);
  }

  lemma PagesOfRecordedDelta(d: Device, w: World, lists: Lists, owner: Option<Row>)
    requires PagesInv(w) && BillingInv(d, w) && Shows(lists, w.meter) && RecordedDelta(w.view, lists, owner).Some?
    requires Counting(w) && (w.view == [] ==> owner.Some?)
    requires Reports(lists, "copy", "Total") ==> d.hasTotal
    ensures var pages := TotalPages(RecordedDelta(w.view, lists, owner).value.lists, "copy");
            && pages <= Copied(d, w.made) - Copied(d, w.counted)
            && (!w.clearedSincePoll ==> pages == Copied(d, w.made) - Copied(d, w.counted))
  {
    hide RecordedDelta, Recorded, TotalPages, Copied, PagesInv;
    PollCountsFreshPages(w, lists, owner);
    var delta := RecordedDelta(w.view, lists, owner).value.lists;
    forall n
      ensures Value(delta, "copy", n) <= At(w.made, "copy", n) - At(w.counted, "copy", n)
      ensures !w.clearedSincePoll ==> Value(delta, "copy", n) == At(w.made, "copy", n) - At(w.counted, "copy", n)
    {
      assert PolledPages(w, lists, owner, "copy", n) == Value(delta, "copy", n);
    }
    DeltaWithinTypes(d, w, lists, owner);
    TotalOfDelta(d, delta, w.made, w.counted, !w.clearedSincePoll);
  }

  lemma PollKeepsBilling(d: Device, account: string, w: World, s: Step)
    requires PagesInv(w) && BillingInv(d, w) && Enabled(w, s) && s.Poll? && FitsStep(d, s)
    requires w.view == [] ==> w.usage == []
    ensures BillingInv(d, Apply(account, w, s))
  {
    hide Difference, AnyCount, TotalPages, UsageRows, Recorded, Copied;
    var w' := Apply(account, w, s);
    var delta := RecordedDelta(w.view, s.lists, s.owner);
    AddsUpToNothing(d);
    assert forall n :: Value(s.lists, "copy", n) == At(w.meter, "copy", n);
    if w.view == [] && s.owner.None? {
      assert w'.usage == [];
    } else {
      if delta.None? {
        assert w'.usage == w.usage;
        NothingRecordedStillCovers(d, w, s.lists, s.owner);
      } else {
        PagesOfRecordedDelta(d, w, s.lists, s.owner);
        var start := if w.view == [] then s.owner.value.provisionedAt else Last(w.view).lastSeen;
        BilledOfRows(account, delta.value, s.owner, start, s.now, w.view == [], Copy);
        BilledOfConcat(w.usage, UsageAfter(w.view, account, s.lists, s.owner, s.now), Copy);
      }
    }
  }

  lemma CopiedGrows(d: Device, a: Tally, b: Tally, same: bool)
    requires forall n :: At(a, "copy", n) <= At(b, "copy", n)
    requires same ==> forall n :: At(a, "copy", n) == At(b, "copy", n)
    ensures Copied(d, a) <= Copied(d, b) && (same ==> Copied(d, a) == Copied(d, b))
  {
    SumIsPointwise(d.pageTypes, n => At(a, "copy", n), n => At(b, "copy", n));
  }

  lemma DeltaWithinTypes(d: Device, w: World, lists: Lists, owner: Option<Row>)
    requires BillingInv(d, w) && Shows(lists, w.meter) && RecordedDelta(w.view, lists, owner).Some?
    requires Reports(lists, "copy", "Total") ==> d.hasTotal
    ensures var delta := RecordedDelta(w.view, lists, owner).value.lists;
            && (forall n :: CountsPages(n) && n !in d.pageTypes ==> Value(delta, "copy", n) == 0)
            && (Reports(delta, "copy", "Total") ==> d.hasTotal)
  {
    hide Difference;
    assert forall n :: Value(lists, "copy", n) == At(w.meter, "copy", n);
    if w.view != [] {
      var delta := RecordedDelta(w.view, lists, owner).value;
      DifferenceIsDifference(Last(w.view).counters, lists);
      assert forall n :: Reports(delta.lists, "copy", n) ==> Reports(lists, "copy", n);
    }
  }

  lemma StepKeepsBilling(d: Device, account: string, w: World, s: Step)
    requires PagesInv(w) && PeriodsInv(w) && BillingInv(d, w) && Enabled(w, s) && FitsStep(d, s)
    ensures BillingInv(d, Apply(account, w, s))
  {
    hide Balanced;
    match s {
      case Make(pages) =>
        AddsUpSums(d, w.meter, pages);
        AddsUpSums(d, w.made, pages);
      case Clear => AddsUpToNothing(d);
      case Provision(at) => AddsUpToNothing(d);
      case Poll(lists, owner, now) => PollKeepsBilling(d, account, w, s);
    }
  }

  // ---- Every run ----

  ghost predicate Inv(account: string, w: World) {
    PagesInv(w) && EncodingInv(account, w) && PeriodsInv(w)
  }

  lemma UnreadIsInv(account: string, w: World)
    requires Unread(w)
    ensures Inv(account, w)
  {
    RecordedNothing();
    assert forall a, n :: Balanced(w, a, n);
  }

  lemma StepKeepsInv(account: string, w: World, s: Step)
    requires Inv(account, w) && Enabled(w, s)
    ensures Inv(account, Apply(account, w, s))
  {
    hide PagesInv, Encodes, Remembers;
    StepKeepsPages(account, w, s);
    if s.Poll? {
      PollKeepsEncoding(account, w.view, w.history, w.clock, s.lists, s.now);
      PollKeepsPeriods(account, w, s);
    } else if s.Provision? {
      NothingEncodedYet(account, w.clock, s.at);
    }
  }

  lemma NothingEncodedYet(account: string, clock: int, later: int)
    ensures Encodes([], account, later)
  {
  }

  lemma {:induction false} RunKeepsInv(account: string, w: World, steps: seq<Step>)
    requires Inv(account, w) && Runs(account, w, steps)
    ensures Inv(account, After(account, w, steps))
    decreases |steps|
  {
    hide Inv, Enabled, Apply;
    if steps != [] {
      StepKeepsInv(account, w, steps[0]);
      RunKeepsInv(account, Apply(account, w, steps[0]), steps[1..]);
    }
  }

  lemma {:induction false} RunKeepsBilling(d: Device, account: string, w: World, steps: seq<Step>)
    requires Inv(account, w) && BillingInv(d, w) && Runs(account, w, steps)
    requires forall i :: 0 <= i < |steps| ==> FitsStep(d, steps[i])
    ensures BillingInv(d, After(account, w, steps))
    decreases |steps|
  {
    hide Enabled, Apply, PagesInv, EncodingInv, PeriodsInv, BillingInv, FitsStep;
    if steps != [] {
      StepKeepsBilling(d, account, w, steps[0]);
      StepKeepsInv(account, w, steps[0]);
      RunKeepsBilling(d, account, Apply(account, w, steps[0]), steps[1..]);
    }
  }

  // ---- Main results ----

  /** Where the pages are: those a counter really made since its origin are in the
      record, or were lost from it by clears, or were wiped since the last poll, or are
      still on the meter. */
  lemma PagesAreAccountedFor(account: string, w: World, steps: seq<Step>, a: string, n: string)
    requires Unread(w) && Runs(account, w, steps) && Counting(After(account, w, steps))
    ensures var end := After(account, w, steps);
            && Recorded(end.deltas, a, n) + end.lost(a, n) + end.unseen(a, n) + Pending(end, a, n) == At(end.made, a, n)
            && Recorded(end.deltas, a, n) + end.lost(a, n) == At(end.counted, a, n)
            && 0 <= end.lost(a, n) && 0 <= end.unseen(a, n) && 0 <= Pending(end, a, n)
  {
    UnreadIsInv(account, w);
    RunKeepsInv(account, w, steps);
    assert Balanced(After(account, w, steps), a, n);
  }

  /** Whatever was produced, cleared and polled, no counter is recorded as having moved
      further than it really did, and when nothing was cleared each is recorded exactly
      as far as the last poll. */
  lemma DeltasConservePages(account: string, w: World, steps: seq<Step>, a: string, n: string)
    requires Unread(w) && Runs(account, w, steps)
    ensures var end := After(account, w, steps);
            && Recorded(end.deltas, a, n) <= At(end.made, a, n)
            && (!end.cleared ==> Recorded(end.deltas, a, n) == At(end.counted, a, n))
  {
    UnreadIsInv(account, w);
    RunKeepsInv(account, w, steps);
    assert Balanced(After(account, w, steps), a, n);
  }

  /** A step loses pages of a counter in two ways only: a clear wipes pages no poll has
      seen; or a poll after a clear finds every counter it is told of at its old value or
      above, takes the counters for uncleared, and subtracts an old value again. */
  ghost predicate Loses(w: World, s: Step, a: string, n: string) {
    match s
    case Clear => Pending(w, a, n) > 0
    case Poll(lists, _, _) =>
      && w.view != [] && w.clearedSincePoll && !WentBackwards(Last(w.view).counters, lists)
      && Reports(lists, a, n) && Value(Last(w.view).counters, a, n) > 0
    case _ => false
  }

  /** Pages of a counter that are not in the record and will not be. */
  function Missing(w: World, a: string, n: string): int {
    w.lost(a, n) + w.unseen(a, n)
  }

  lemma StepLosesExactly(account: string, w: World, s: Step, a: string, n: string)
    requires PagesInv(w) && Enabled(w, s) && !IsOrigin(w, s)
    ensures Missing(w, a, n) <= Missing(Apply(account, w, s), a, n)
    ensures Missing(w, a, n) < Missing(Apply(account, w, s), a, n) <==> Loses(w, s, a, n)
  {
    hide Recorded, RecordedDelta, UsageAfter, ReadingsAfter;
    assert Balanced(w, a, n);
  }

  ghost predicate NothingLost(account: string, w: World, steps: seq<Step>, a: string, n: string)
    decreases |steps|
  {
    steps == [] || (!Loses(w, steps[0], a, n) && NothingLost(account, Apply(account, w, steps[0]), steps[1..], a, n))
  }

  ghost predicate NoOrigin(account: string, w: World, steps: seq<Step>)
    decreases |steps|
  {
    steps == [] || (!IsOrigin(w, steps[0]) && NoOrigin(account, Apply(account, w, steps[0]), steps[1..]))
  }

  /** Once an account is being counted, nothing more goes missing of a counter if and
      only if no step loses pages of it. */
  lemma {:induction false} MissingExactlyWhenLost(account: string, w: World, steps: seq<Step>, a: string, n: string)
    requires Inv(account, w) && Runs(account, w, steps) && NoOrigin(account, w, steps)
    ensures Missing(w, a, n) <= Missing(After(account, w, steps), a, n)
    ensures Missing(w, a, n) == Missing(After(account, w, steps), a, n) <==> NothingLost(account, w, steps, a, n)
    decreases |steps|
  {
    hide Inv, Enabled, Apply, Loses, Missing, IsOrigin;
    if steps != [] {
      InvHasPages(account, w);
      StepLosesExactly(account, w, steps[0], a, n);
      StepKeepsInv(account, w, steps[0]);
      MissingExactlyWhenLost(account, Apply(account, w, steps[0]), steps[1..], a, n);
    }
  }

  lemma InvHasPages(account: string, w: World)
    requires Inv(account, w)
    ensures PagesInv(w)
  {
  }

  /** Nothing is missing at the origin. So of an account counted from its origin on, a
      counter is recorded in full as far as the last poll, with nothing wiped since, if
      and only if no step lost pages of it. */
  lemma RecordIsFullExactlyWhenNothingLost(
    account: string, w: World, before: seq<Step>, origin: Step, since: seq<Step>, a: string, n: string)
    requires Unread(w) && Runs(account, w, before) && Enabled(After(account, w, before), origin)
    requires IsOrigin(After(account, w, before), origin)
    requires var start := Apply(account, After(account, w, before), origin);
             Runs(account, start, since) && NoOrigin(account, start, since)
    ensures var start := Apply(account, After(account, w, before), origin);
            var end := After(account, start, since);
            && (Recorded(end.deltas, a, n) + Pending(end, a, n) == At(end.made, a, n)
                <==> NothingLost(account, start, since, a, n))
  {
    hide Recorded, Pending, NothingLost;
    var w0 := After(account, w, before);
    var start := Apply(account, w0, origin);
    UnreadIsInv(account, w);
    RunKeepsInv(account, w, before);
    StepKeepsInv(account, w0, origin);
    RunKeepsInv(account, start, since);
    MissingExactlyWhenLost(account, start, since, a, n);
    OriginMissesNothing(account, w0, origin, a, n);
    StillCounting(account, start, since);
    assert Balanced(After(account, start, since), a, n);
  }

  lemma OriginMissesNothing(account: string, w: World, origin: Step, a: string, n: string)
    requires IsOrigin(w, origin)
    ensures Missing(Apply(account, w, origin), a, n) == 0 && Counting(Apply(account, w, origin))
  {
    hide RecordedDelta, UsageAfter, Difference;
  }

  lemma {:induction false} StillCounting(account: string, w: World, steps: seq<Step>)
    requires Counting(w)
    ensures Counting(After(account, w, steps))
    decreases |steps|
  {
    if steps != [] {
      OneStepStillCounting(account, w, steps[0]);
      StillCounting(account, Apply(account, w, steps[0]), steps[1..]);
    }
  }

  lemma OneStepStillCounting(account: string, w: World, s: Step)
    requires Counting(w)
    ensures Counting(Apply(account, w, s))
  {
    hide RecordedDelta, UsageAfter, Difference;
  }

  /** The copies on the usage rows never exceed the pages copied, and equal those copied
      up to the last poll when nothing was cleared, on a copier whose counters add up. */
  lemma UsageConservesCopies(d: Device, account: string, w: World, steps: seq<Step>)
    requires Unread(w) && AddsUp(d, w.meter) && Runs(account, w, steps)
    requires forall i :: 0 <= i < |steps| ==> FitsStep(d, steps[i])
    ensures var end := After(account, w, steps);
            && Billed(end.usage, Copy) <= Copied(d, end.made)
            && (!end.cleared ==> Billed(end.usage, Copy) == Copied(d, end.counted))
  {
    UnreadIsInv(account, w);
    AddsUpToNothing(d);
    RunKeepsInv(account, w, steps);
    RunKeepsBilling(d, account, w, steps);
    var end := After(account, w, steps);
    MadeCoversCounted(end);
    CopiedGrows(d, end.counted, end.made, false);
  }

  lemma StepBillsAsRecorded(account: string, w: World, s: Step)
    ensures var w' := Apply(account, w, s);
            && Billed(w'.usage, Scan) - Billed(w.usage, Scan)
               == Recorded(w'.deltas, "scan_fax", "DocumentReadTotal") - Recorded(w.deltas, "scan_fax", "DocumentReadTotal")
            && Billed(w'.usage, Fax) - Billed(w.usage, Fax)
               == Recorded(w'.deltas, "scan_fax", "FaxSend") - Recorded(w.deltas, "scan_fax", "FaxSend")
  {
    hide Billed, Recorded, RecordedDelta, UsageAfter, ReadingsAfter, Value, TotalPages;
    if s.Poll? {
      PollBills(account, w, s, Scan);
      PollBills(account, w, s, Fax);
      RecordedAfterPoll(account, w, s, "scan_fax", "DocumentReadTotal");
      RecordedAfterPoll(account, w, s, "scan_fax", "FaxSend");
      hide Apply;
    }
  }

  lemma {:induction false} RunBillsAsRecorded(account: string, w: World, steps: seq<Step>)
    ensures var end := After(account, w, steps);
            && Billed(end.usage, Scan) - Billed(w.usage, Scan)
               == Recorded(end.deltas, "scan_fax", "DocumentReadTotal") - Recorded(w.deltas, "scan_fax", "DocumentReadTotal")
            && Billed(end.usage, Fax) - Billed(w.usage, Fax)
               == Recorded(end.deltas, "scan_fax", "FaxSend") - Recorded(w.deltas, "scan_fax", "FaxSend")
    decreases |steps|
  {
    hide Billed, Recorded, Apply;
    if steps != [] {
      StepBillsAsRecorded(account, w, steps[0]);
      RunBillsAsRecorded(account, Apply(account, w, steps[0]), steps[1..]);
    }
  }

  /** Over any run, on any copier, the scans billed are exactly what the counter of documents
      read was recorded to have moved, and the faxes what that of faxes sent was; so neither
      ever exceeds what was really made, and both equal it when nothing was cleared. */
  lemma ScansAndFaxesAreBilledAsRecorded(account: string, w: World, steps: seq<Step>)
    requires Unread(w) && Runs(account, w, steps)
    ensures var end := After(account, w, steps);
            && Billed(end.usage, Scan) == Recorded(end.deltas, "scan_fax", "DocumentReadTotal") <= At(end.made, "scan_fax", "DocumentReadTotal")
            && Billed(end.usage, Fax) == Recorded(end.deltas, "scan_fax", "FaxSend") <= At(end.made, "scan_fax", "FaxSend")
            && (!end.cleared ==> && Billed(end.usage, Scan) == At(end.counted, "scan_fax", "DocumentReadTotal")
                                 && Billed(end.usage, Fax) == At(end.counted, "scan_fax", "FaxSend"))
  {
    RunBillsAsRecorded(account, w, steps);
    DeltasConservePages(account, w, steps, "scan_fax", "DocumentReadTotal");
    DeltasConservePages(account, w, steps, "scan_fax", "FaxSend");
  }

  /** The rows a poll adds cover the time since the poll before, or since provisioning when
      there was none, and go to whoever the ledger named. */
  lemma PollBillsSinceTheLast(account: string, w: World, steps: seq<Step>, s: Step, r: Usage)
    requires Unread(w) && Runs(account, w, steps) && s.Poll? && Enabled(After(account, w, steps), s)
    requires r in UsageAfter(After(account, w, steps).view, account, s.lists, s.owner, s.now)
    ensures var end := After(account, w, steps);
            && Apply(account, end, s).usage == end.usage + UsageAfter(end.view, account, s.lists, s.owner, s.now)
            && r.end == s.now && r.account == account && (r.fromBaseline <==> end.view == [])
            && (if end.view == [] then Some(r.start) == end.provisioned else end.history != [] && r.start == Last(end.history).0)
            && (s.owner.None? ==> r.email == None) && (s.owner.Some? ==> r.email == Some(s.owner.value.email))
  {
    UnreadIsInv(account, w);
    RunKeepsInv(account, w, steps);
    hide RecordedDelta, UsageRows, ReadingsAfter, PagesInv, EncodingInv;
    var end := After(account, w, steps);
    var delta := RecordedDelta(end.view, s.lists, s.owner);
    RecordedHasOwner(end.view, s.lists, s.owner);
    if end.view == [] {
      RowExactlyWhenMoved(account, delta.value, s.owner, s.owner.value.provisionedAt, s.now, true);
    } else {
      RowExactlyWhenMoved(account, delta.value, s.owner, Last(end.view).lastSeen, s.now, false);
    }
  }

  // ---- Copiers whose counters need not add up ----

  /** A poll bills by the copier's own total, or bills nothing. */
  ghost predicate BillsByTotal(w: World, s: Step) {
    s.Poll? ==>
      var delta := RecordedDelta(w.view, s.lists, s.owner);
      delta.Some? ==> Reports(delta.value.lists, "copy", "Total") || TotalPages(delta.value.lists, "copy") == 0
  }

  ghost predicate AlwaysBillsByTotal(account: string, w: World, steps: seq<Step>)
    decreases |steps|
  {
    steps == [] || (BillsByTotal(w, steps[0]) && AlwaysBillsByTotal(account, Apply(account, w, steps[0]), steps[1..]))
  }

  lemma {:induction false} SumIsNotNegative(names: set<string>, f: string -> int)
    requires forall n :: n in names ==> f(n) >= 0
    ensures SumOver(names, f) >= 0
    decreases names
  {
    if names != {} {
      var n :| n in names;
      SumPicksAny(names, f, n);
      SumIsNotNegative(names - {n}, f);
    }
  }

  /** No poll records a counter as having gone down. */
  lemma PolledIsNotNegative(w: World, lists: Lists, owner: Option<Row>, a: string, n: string)
    requires Shows(lists, w.meter)
    ensures PolledPages(w, lists, owner, a, n) >= 0
  {
    hide PolledPages, RecordedDelta;
    assert Value(lists, a, n) == At(w.meter, a, n);
    if w.view == [] {
      if owner.Some? {
        FirstPollRecordsAll(w, lists, owner, a, n);
      } else {
        UnownedRecordsNothing(w, lists, owner, a, n);
      }
    } else if Last(w.view).counters == lists {
      NoChangeRecorded(w, lists, owner, a, n);
    } else {
      ChangeRecorded(w, lists, owner, a, n);
    }
  }

  lemma UnownedRecordsNothing(w: World, lists: Lists, owner: Option<Row>, a: string, n: string)
    requires w.view == [] && owner.None?
    ensures PolledPages(w, lists, owner, a, n) == 0
  {
  }

  /** What a poll bills of an activity. */
  lemma PollBills(account: string, w: World, s: Step, activity: Activity)
    requires s.Poll?
    ensures var delta := RecordedDelta(w.view, s.lists, s.owner);
            Billed(Apply(account, w, s).usage, activity)
            == Billed(w.usage, activity) + (if delta.Some? then PagesFor(delta.value, activity) else 0)
  {
    hide RecordedDelta, TotalPages, UsageRows, Billed, ReadingsAfter;
    var delta := RecordedDelta(w.view, s.lists, s.owner);
    if delta.Some? {
      RecordedHasOwner(w.view, s.lists, s.owner);
      var start := if w.view == [] then s.owner.value.provisionedAt else Last(w.view).lastSeen;
      BilledOfRows(account, delta.value, s.owner, start, s.now, w.view == [], activity);
      BilledOfConcat(w.usage, UsageAfter(w.view, account, s.lists, s.owner, s.now), activity);
    } else {
      assert w.usage + [] == w.usage;
    }
  }

  lemma RecordedHasOwner(view: seq<Reading>, lists: Lists, owner: Option<Row>)
    ensures RecordedDelta(view, lists, owner).Some? && view == [] ==> owner.Some?
  {
  }

  lemma PollBillsAtLeastTheTotal(account: string, w: World, s: Step)
    requires s.Poll? && Enabled(w, s)
    ensures var billed := Billed(Apply(account, w, s).usage, Copy) - Billed(w.usage, Copy);
            var total := PolledPages(w, s.lists, s.owner, "copy", "Total");
            billed >= total && (billed == total <==> BillsByTotal(w, s))
  {
    PollBills(account, w, s, Copy);
    hide RecordedDelta, Billed, Apply;
    var delta := RecordedDelta(w.view, s.lists, s.owner);
    if delta.Some? && !Reports(delta.value.lists, "copy", "Total") {
      forall n
        ensures Value(delta.value.lists, "copy", n) >= 0
      {
        PolledIsNotNegative(w, s.lists, s.owner, "copy", n);
      }
      SumIsNotNegative(PageTypesOf(delta.value.lists, "copy"), n => Value(delta.value.lists, "copy", n));
    }
  }

  lemma StepBillsAtLeastTheTotal(account: string, w: World, s: Step)
    requires PagesInv(w) && PeriodsInv(w) && Enabled(w, s)
    ensures var w' := Apply(account, w, s);
            var ahead, before := Billed(w'.usage, Copy) - Recorded(w'.deltas, "copy", "Total"), Billed(w.usage, Copy) - Recorded(w.deltas, "copy", "Total");
            ahead >= before && (ahead == before <==> BillsByTotal(w, s))
  {
    hide PagesInv, PeriodsInv, Billed, Recorded, RecordedDelta, PolledPages;
    if s.Poll? {
      hide Apply, BillsByTotal;
      PollBillsAtLeastTheTotal(account, w, s);
      RecordedAfterPoll(account, w, s, "copy", "Total");
    }
  }

  lemma {:induction false} RunBillsAtLeastTheTotal(account: string, w: World, steps: seq<Step>)
    requires Inv(account, w) && Runs(account, w, steps)
    ensures var end := After(account, w, steps);
            var ahead, before := Billed(end.usage, Copy) - Recorded(end.deltas, "copy", "Total"), Billed(w.usage, Copy) - Recorded(w.deltas, "copy", "Total");
            ahead >= before && (ahead == before <==> AlwaysBillsByTotal(account, w, steps))
    decreases |steps|
  {
    hide Enabled, Apply, BillsByTotal, Billed, Recorded, PagesInv, EncodingInv, PeriodsInv;
    if steps != [] {
      StepBillsAtLeastTheTotal(account, w, steps[0]);
      StepKeepsInv(account, w, steps[0]);
      RunBillsAtLeastTheTotal(account, Apply(account, w, steps[0]), steps[1..]);
    }
  }

  /** On any copier, the copies billed are what its own total was recorded to have moved
      if and only if every poll that billed by page counters billed nothing; otherwise
      they are more. If so, they never exceed what that total really moved, and equal it
      as of the last poll when nothing was cleared. */
  lemma BilledIsTheTotalExactlyWhen(account: string, w: World, steps: seq<Step>)
    requires Unread(w) && Runs(account, w, steps)
    ensures var end := After(account, w, steps);
            && Billed(end.usage, Copy) >= Recorded(end.deltas, "copy", "Total")
            && (Billed(end.usage, Copy) == Recorded(end.deltas, "copy", "Total") <==> AlwaysBillsByTotal(account, w, steps))
            && (AlwaysBillsByTotal(account, w, steps) ==>
                 && Billed(end.usage, Copy) <= At(end.made, "copy", "Total")
                 && (!end.cleared ==> Billed(end.usage, Copy) == At(end.counted, "copy", "Total")))
  {
    UnreadIsInv(account, w);
    hide AlwaysBillsByTotal;
    RunBillsAtLeastTheTotal(account, w, steps);
    DeltasConservePages(account, w, steps, "copy", "Total");
  }

  /** In any reachable state, the row a poll adds is flagged as following a reset exactly
      when some counter is lower than at the poll before, and a flagged row follows a real clear. */
  lemma ResetFlagMeansClear(account: string, w: World, steps: seq<Step>, s: Step)
    requires Unread(w) && Runs(account, w, steps)
    requires var end := After(account, w, steps);
             Enabled(end, s) && s.Poll? && (end.view == [] || Last(end.view).counters != s.lists)
    ensures var end := After(account, w, steps);
            var row := Last(Apply(account, end, s).view);
            && (row.followsReset <==>
                 end.view != [] && exists a, n :: a in s.lists && n in s.lists[a] && s.lists[a][n] < Value(Last(end.view).counters, a, n))
            && (row.followsReset ==> end.clearedSincePoll)
  {
    hide UsageAfter, RecordedDelta;
    UnreadIsInv(account, w);
    RunKeepsInv(account, w, steps);
    var end := After(account, w, steps);
    if end.view != [] {
      var previous := Last(end.view).counters;
      if WentBackwards(previous, s.lists) {
        ResetMeansCleared(end, s.lists);
      }
      assert forall a, n :: Reports(s.lists, a, n) ==> s.lists[a][n] == Value(s.lists, a, n);
      if a, n :| a in s.lists && n in s.lists[a] && s.lists[a][n] < Value(previous, a, n) {
        assert Reports(s.lists, a, n);
      }
    }
  }

  /** The stored rows answer for every poll that reported the account: exactly one row
      spans it, it holds what was reported, and one row is live. */
  lemma EncodingLosesNothing(account: string, w: World, steps: seq<Step>, k: nat)
    requires Unread(w) && Runs(account, w, steps)
    requires k < |After(account, w, steps).history|
    ensures var end := After(account, w, steps);
            var (t, reported) := end.history[k];
            && Decode(end.view, t) == Some(reported)
            && (exists i :: 0 <= i < |end.view| && Spans(end.view[i], t))
            && (forall i, j :: 0 <= i < |end.view| && 0 <= j < |end.view| && Spans(end.view[i], t) && Spans(end.view[j], t) ==> i == j)
            && OneLive(end.view)
  {
    UnreadIsInv(account, w);
    RunKeepsInv(account, w, steps);
    var end := After(account, w, steps);
    var (t, reported) := end.history[k];
    assert Holds(end.view, t, reported);
    var i :| 0 <= i < |end.view| && Spans(end.view[i], t) && end.view[i].counters == reported;
    DecodeFinds(end.view, account, end.clock, i, t);
  }

  /** No two usage rows of one activity cover the same time. */
  lemma UsagePeriodsNeverOverlap(account: string, w: World, steps: seq<Step>, i: nat, j: nat)
    requires Unread(w) && Runs(account, w, steps)
    requires i < j < |After(account, w, steps).usage|
    requires After(account, w, steps).usage[i].activity == After(account, w, steps).usage[j].activity
    ensures After(account, w, steps).usage[i].end <= After(account, w, steps).usage[j].start
  {
    UnreadIsInv(account, w);
    RunKeepsInv(account, w, steps);
  }

  // ---- A clear that hides ----

  function Bw(pages: int): Lists {
    map["copy" := map["Bw" := pages]]
  }

  function BwPages(pages: nat): Tally {
    map[("copy", "Bw") := pages]
  }

  lemma BwShows(pages: nat)
    ensures Shows(Bw(pages), BwPages(pages)) && Value(Bw(pages), "copy", "Bw") == pages && At(BwPages(pages), "copy", "Bw") == pages
    ensures forall a, n :: Reports(Bw(pages), a, n) <==> a == "copy" && n == "Bw"
  {
  }

  lemma BwAdds(a: nat, b: nat)
    ensures Sum(BwPages(a), BwPages(b)) == BwPages(a + b) && Sum(map[], BwPages(b)) == BwPages(b)
  {
  }

  ghost function AfterFirstPoll(account: string, w: World): World {
    Apply(account, w, Poll(Bw(5), None, 1))
  }

  const HIDING: seq<Step> := [Make(BwPages(1)), Clear, Make(BwPages(7)), Poll(Bw(7), None, 2)]

  /** How things stand in such a run: five pages read, the rest as given. */
  ghost predicate Stands(account: string, w: World, meter: Tally, made: Tally, unseen: int, cleared: bool) {
    && w.view == [Reading(account, Bw(5), 1, 1, None, false)] && w.deltas == [] && w.clock == 1
    && w.meter == meter && w.made == made && w.clearedSincePoll == cleared
    && w.unseen("copy", "Bw") == unseen && w.lost("copy", "Bw") == 0
  }

  lemma FirstPollStands(account: string, w: World)
    requires Unread(w) && w.meter == BwPages(5) && w.clock < 1
    ensures Enabled(w, Poll(Bw(5), None, 1)) && Stands(account, AfterFirstPoll(account, w), BwPages(5), map[], 0, false)
  {
    hide Difference;
    BwShows(5);
  }

  lemma MakeStands(account: string, w: World, pages: nat, meter: nat, made: Tally, more: Tally, unseen: int)
    requires Stands(account, w, BwPages(meter), made, unseen, false) && Sum(made, BwPages(pages)) == more
    ensures Stands(account, Apply(account, w, Make(BwPages(pages))), BwPages(meter + pages), more, unseen, false)
  {
    hide Sum, BwPages;
    BwAdds(meter, pages);
  }

  lemma MakeAfterClearStands(account: string, w: World, pages: nat, made: Tally, more: Tally, unseen: int)
    requires Stands(account, w, map[], made, unseen, true) && Sum(made, BwPages(pages)) == more
    ensures Stands(account, Apply(account, w, Make(BwPages(pages))), BwPages(pages), more, unseen, true)
  {
    hide Sum, BwPages;
    BwAdds(0, pages);
  }

  lemma ClearStands(account: string, w: World, meter: nat, made: Tally)
    requires Stands(account, w, BwPages(meter), made, 0, false)
    ensures Stands(account, Apply(account, w, Clear), map[], made, meter - 5, true)
  {
    BwShows(5);
    BwShows(meter);
  }

  lemma SecondPollHides(account: string, w: World)
    requires Stands(account, w, BwPages(7), BwPages(8), 1, true)
    ensures Enabled(w, Poll(Bw(7), None, 2)) && !IsOrigin(w, Poll(Bw(7), None, 2))
    ensures TwoOfEight(Apply(account, w, Poll(Bw(7), None, 2)))
  {
    hide UsageAfter, Recorded, RecordedDelta;
    var s := Poll(Bw(7), None, 2);
    BwShows(5);
    BwShows(7);
    BwShows(8);
    assert !WentBackwards(Bw(5), Bw(7));
    RecordedNothing();
    RecordedAfterPoll(account, w, s, "copy", "Bw");
    ChangeRecorded(w, Bw(7), None, "copy", "Bw");
  }

  ghost predicate TwoOfEight(w: World) {
    && Recorded(w.deltas, "copy", "Bw") == 2 && At(w.made, "copy", "Bw") == 8
    && Missing(w, "copy", "Bw") == 6 && w.view != [] && !Last(w.view).followsReset
  }

  /** Five pages are read off; one more is copied, the counters are cleared, and seven
      more bring them past where they stood. The poll records two of the eight pages and
      flags nothing: the one wiped and the five subtracted again are missing. */
  lemma ClearCanHide(account: string, w: World)
    requires Unread(w) && w.meter == BwPages(5) && w.clock < 1
    ensures Enabled(w, Poll(Bw(5), None, 1)) && IsOrigin(w, Poll(Bw(5), None, 1))
    ensures Runs(account, AfterFirstPoll(account, w), HIDING) && NoOrigin(account, AfterFirstPoll(account, w), HIDING)
    ensures TwoOfEight(After(account, AfterFirstPoll(account, w), HIDING))
  {
    hide Apply, TwoOfEight, AfterFirstPoll, Sum;
    var s1, s2, s3, s4 := Make(BwPages(1)), Clear, Make(BwPages(7)), Poll(Bw(7), None, 2);
    BwAdds(0, 1);
    BwAdds(1, 7);
    FirstPollStands(account, w);
    var w1 := AfterFirstPoll(account, w);
    MakeStands(account, w1, 1, 5, map[], BwPages(1), 0);
    var w2 := Apply(account, w1, s1);
    ClearStands(account, w2, 6, BwPages(1));
    var w3 := Apply(account, w2, s2);
    MakeAfterClearStands(account, w3, 7, BwPages(1), BwPages(8), 1);
    var w4 := Apply(account, w3, s3);
    SecondPollHides(account, w4);
    hide Stands, Enabled;
    StepByStep(account, w1, s1, [s2, s3, s4]);
    StepByStep(account, w2, s2, [s3, s4]);
    StepByStep(account, w3, s3, [s4]);
    StepByStep(account, w4, s4, []);
    assert [s1] + [s2, s3, s4] == HIDING && [s2] + [s3, s4] == [s2, s3, s4] && [s3] + [s4] == [s3, s4] && [s4] + [] == [s4];
    AlwaysPossible(w1, s1);
    AlwaysPossible(w2, s2);
    AlwaysPossible(w3, s3);
  }

  lemma AlwaysPossible(w: World, s: Step)
    requires s.Make? || s.Clear?
    ensures Enabled(w, s) && !IsOrigin(w, s)
  {
  }

  lemma StepByStep(account: string, w: World, s: Step, rest: seq<Step>)
    ensures Runs(account, w, [s] + rest) <==> Enabled(w, s) && Runs(account, Apply(account, w, s), rest)
    ensures NoOrigin(account, w, [s] + rest) <==> !IsOrigin(w, s) && NoOrigin(account, Apply(account, w, s), rest)
    ensures After(account, w, [s] + rest) == After(account, Apply(account, w, s), rest)
  {
    hide Apply, Enabled, IsOrigin;
    assert ([s] + rest)[0] == s && ([s] + rest)[1..] == rest;
  }
}
