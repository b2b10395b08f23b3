/** apps/api/app/copiers/account_counters.py: per-account lifetime counters turned
    into usage by subtraction, and stored run-length encoded. */
module AccountCounters {
  import opened Prelude
  import opened Ledger
  import Query

  type Counters = map<string, int>
  /** {activity: {counter type: value}}, as the device reported it. */
  type Lists = map<string, Counters>

  datatype Delta = Delta(lists: Lists, followsReset: bool)

  const NON_PAGE_TYPES: set<string> := {"BlackPrintPaper", "Paper", "Document", "DuplexTotal", "PrintPageTotal"}

  predicate IsPageType(name: string) {
    && !(|name| >= 5 && name[|name| - 5..] == "Large")
    && name !in NON_PAGE_TYPES
  }

  /** `lists.get(activity, {}).get(name, 0)` */
  function Value(lists: Lists, activity: string, name: string): int {
    if activity in lists && name in lists[activity] then lists[activity][name] else 0
  }

  // ---- The difference of two readings ----

  predicate Reports(lists: Lists, activity: string, name: string) {
    activity in lists && name in lists[activity]
  }

  /** Some counter the device reports now is lower than it was. */
  ghost predicate WentBackwards(previous: Lists, current: Lists) {
    exists activity, name :: Reports(current, activity, name)
      && Value(current, activity, name) < Value(previous, activity, name)
  }

  function Moved(previous: Lists, current: Lists, reset: bool, activity: string, name: string): int {
    Value(current, activity, name) - (if reset then 0 else Value(previous, activity, name))
  }

  /** What a delta must say: which counters moved, by how much, and nothing else. */
  ghost predicate IsDifference(previous: Lists, current: Lists, delta: Delta) {
    && (delta.followsReset <==> WentBackwards(previous, current))
    && (forall activity, name :: Reports(delta.lists, activity, name) ==>
         && Reports(current, activity, name)
         && delta.lists[activity][name] == Moved(previous, current, delta.followsReset, activity, name) != 0)
    && (forall activity, name :: Reports(current, activity, name) && !Reports(delta.lists, activity, name) ==>
         Moved(previous, current, delta.followsReset, activity, name) == 0)
    && (forall activity :: activity in delta.lists ==> delta.lists[activity] != map[])
  }

  function MovedCounters(previous: Lists, current: Lists, reset: bool, activity: string): Counters
    requires activity in current
  {
    map name | name in current[activity] && Moved(previous, current, reset, activity, name) != 0
      :: Moved(previous, current, reset, activity, name)
  }

  ghost function Difference(previous: Lists, current: Lists): Delta {
    var reset := WentBackwards(previous, current);
    Delta(map activity | activity in current && MovedCounters(previous, current, reset, activity) != map[]
            :: MovedCounters(previous, current, reset, activity), reset)
  }

  lemma DifferenceIsDifference(previous: Lists, current: Lists)
    ensures IsDifference(previous, current, Difference(previous, current))
  {
    var delta := Difference(previous, current);
    forall activity, name | Reports(current, activity, name) && !Reports(delta.lists, activity, name)
      ensures Moved(previous, current, delta.followsReset, activity, name) == 0
    {
      var moved := MovedCounters(previous, current, delta.followsReset, activity);
      assert name in moved <==> Moved(previous, current, delta.followsReset, activity, name) != 0;
    }
  }

  /** The clauses of IsDifference leave no choice. */
  lemma DifferenceIsUnique(previous: Lists, current: Lists, a: Delta, b: Delta)
    requires IsDifference(previous, current, a) && IsDifference(previous, current, b)
    ensures a == b
  {
    SameReports(previous, current, a, b);
    SameReports(previous, current, b, a);
    assert NoneEmpty(a.lists) && NoneEmpty(b.lists);
    assert a.followsReset == b.followsReset;
    hide IsDifference, Reports;
    SameLists(a.lists, b.lists);
  }

  lemma SameReports(previous: Lists, current: Lists, a: Delta, b: Delta)
    requires IsDifference(previous, current, a) && IsDifference(previous, current, b)
    ensures forall activity, name :: Reports(a.lists, activity, name) ==>
              Reports(b.lists, activity, name) && a.lists[activity][name] == b.lists[activity][name]
  {
    hide WentBackwards;
  }

  ghost predicate NoneEmpty(lists: Lists) {
    forall activity :: activity in lists ==> lists[activity] != map[]
  }

  /** Lists without empty entries that report the same counters are the same. */
  lemma SameLists(a: Lists, b: Lists)
    requires NoneEmpty(a) && NoneEmpty(b)
    requires forall activity, name :: Reports(a, activity, name) ==> Reports(b, activity, name) && a[activity][name] == b[activity][name]
    requires forall activity, name :: Reports(b, activity, name) ==> Reports(a, activity, name) && a[activity][name] == b[activity][name]
    ensures a == b
  {
    forall activity
      ensures activity in a ==> activity in b && a[activity] == b[activity]
      ensures activity in b ==> activity in a
    {
      if activity in a {
        SomeReported(a, activity);
        SameEntry(a, b, activity);
      }
      if activity in b {
        SomeReported(b, activity);
      }
    }
  }

  lemma SomeReported(lists: Lists, activity: string)
    requires activity in lists && lists[activity] != map[]
    ensures exists name :: Reports(lists, activity, name)
  {
    var name :| name in lists[activity];
    assert Reports(lists, activity, name);
  }

  lemma SameEntry(a: Lists, b: Lists, activity: string)
    requires activity in a && activity in b
    requires forall name :: Reports(a, activity, name) ==> Reports(b, activity, name) && a[activity][name] == b[activity][name]
    requires forall name :: Reports(b, activity, name) ==> Reports(a, activity, name)
    ensures a[activity] == b[activity]
  {
    forall name
      ensures name in a[activity] <==> name in b[activity]
      ensures name in a[activity] ==> a[activity][name] == b[activity][name]
    {
      assert name in a[activity] <==> Reports(a, activity, name);
      assert name in b[activity] <==> Reports(b, activity, name);
    }
  }

  /** `diff_counters` */
  method DiffCounters(previous: Lists, current: Lists) returns (delta: Delta)
    ensures delta == Difference(previous, current)
    ensures IsDifference(previous, current, delta)
  {
    hide MovedCounters, WentBackwards, IsDifference;
    var reset := FindReset(previous, current);
    var lists: Lists := map[];
    var todo := current.Keys;
    while todo != {}
      invariant todo <= current.Keys
      invariant forall activity :: activity in lists <==>
                  activity in current.Keys - todo && MovedCounters(previous, current, reset, activity) != map[]
      invariant forall activity :: activity in lists ==>
                  lists[activity] == MovedCounters(previous, current, reset, activity)
      decreases todo
    {
      var activity :| activity in todo;
      todo := todo - {activity};
      var deltas := CountersMoved(previous, current, reset, activity);
      if deltas != map[] {
        lists := lists[activity := deltas];
      }
    }
    delta := Delta(lists, reset);
    assert delta.lists == Difference(previous, current).lists;
    DifferenceIsDifference(previous, current);
  }

  method FindReset(previous: Lists, current: Lists) returns (reset: bool)
    ensures reset <==> WentBackwards(previous, current)
  {
    reset := false;
    var todo := current.Keys;
    while todo != {} && !reset
      invariant reset ==> WentBackwards(previous, current)
      invariant !reset ==> forall activity, name :: activity !in todo && Reports(current, activity, name) ==>
                  Value(current, activity, name) >= Value(previous, activity, name)
      decreases todo
    {
      var activity :| activity in todo;
      var names := current[activity].Keys;
      while names != {} && !reset
        invariant reset ==> WentBackwards(previous, current)
        invariant !reset ==> forall name :: name !in names && Reports(current, activity, name) ==>
                    Value(current, activity, name) >= Value(previous, activity, name)
        decreases names
      {
        var name :| name in names;
        names := names - {name};
        if current[activity][name] < Value(previous, activity, name) {
          assert Reports(current, activity, name);
          reset := true;
        }
      }
      todo := todo - {activity};
    }
  }

  method CountersMoved(previous: Lists, current: Lists, reset: bool, activity: string) returns (deltas: Counters)
    requires activity in current
    ensures deltas == MovedCounters(previous, current, reset, activity)
  {
    deltas := map[];
    var names := current[activity].Keys;
    while names != {}
      invariant names <= current[activity].Keys
      invariant forall name :: name in deltas <==>
                  name in current[activity].Keys - names && Moved(previous, current, reset, activity, name) != 0
      invariant forall name :: name in deltas ==> deltas[name] == Moved(previous, current, reset, activity, name)
      decreases names
    {
      var name :| name in names;
      names := names - {name};
      var before := if reset then 0 else Value(previous, activity, name);
      var moved := current[activity][name] - before;
      if moved != 0 {
        deltas := deltas[name := moved];
      }
    }
  }

  // ---- Usage rows ----

  /** The sum of `f` over a finite set of names. */
  ghost function SumOver(names: set<string>, f: string -> int): int {
    if names == {} then 0
    else
      var n :| n in names;
      f(n) + SumOver(names - {n}, f)
  }

  predicate CountsPages(name: string) {
    name != "Total" && IsPageType(name)
  }

  ghost function PageTypesOf(lists: Lists, activity: string): set<string> {
    set name | activity in lists && name in lists[activity] && CountsPages(name)
  }

  /** `total_pages`: the device's own total when the list has one, else the sum of
      its page counters. */
  ghost function TotalPages(lists: Lists, activity: string): int {
    if Reports(lists, activity, "Total") then lists[activity]["Total"]
    else SumOver(PageTypesOf(lists, activity), name => Value(lists, activity, name))
  }

  lemma {:induction false} SumPicksAny(names: set<string>, f: string -> int, n: string)
    requires n in names
    ensures SumOver(names, f) == f(n) + SumOver(names - {n}, f)
  {
    var m :| m in names && SumOver(names, f) == f(m) + SumOver(names - {m}, f);
    if m != n {
      SumPicksAny(names - {m}, f, n);
      SumPicksAny(names - {n}, f, m);
      assert names - {m} - {n} == names - {n} - {m};
    }
  }

  method SumPages(lists: Lists, activity: string) returns (pages: int)
    ensures pages == TotalPages(lists, activity)
  {
    if activity !in lists {
      return 0;
    }
    var counters := lists[activity];
    if "Total" in counters {
      return counters["Total"];
    }
    pages := 0;
    ghost var f := name => Value(lists, activity, name);
    var names := counters.Keys;
    ghost var rest := PageTypesOf(lists, activity);
    while names != {}
      invariant names <= counters.Keys
      invariant rest == set name | name in names && CountsPages(name)
      invariant pages + SumOver(rest, f) == SumOver(PageTypesOf(lists, activity), f)
      decreases names
    {
      var name :| name in names;
      names := names - {name};
      if IsPageType(name) {
        SumPicksAny(rest, f, name);
        pages := pages + counters[name];
        rest := rest - {name};
      }
    }
  }

  datatype Activity = Copy | Scan | Fax

  /** Pages in colour and in black, where they are known and not zero. */
  datatype Split = Split(color: Option<int>, mono: Option<int>)

  const NO_SPLIT := Split(None, None)

  function NonZero(pages: int): Option<int> {
    if pages == 0 then None else Some(pages)
  }

  /** `delta.pages("copy", COLOR_TYPES) or None`, and the same of MONO_TYPES */
  function SplitOf(lists: Lists): Split {
    Split(NonZero(Value(lists, "copy", "FullColor") + Value(lists, "copy", "BiColor") + Value(lists, "copy", "MonoColor")),
          NonZero(Value(lists, "copy", "Bw")))
  }

  datatype Usage = Usage(account: string, email: Option<string>, activity: Activity, pages: int, split: Split,
                         start: int, end: int, delta: Delta, fromBaseline: bool)

  function EmailOf(owner: Option<Row>): Option<string> {
    if owner.Some? then Some(owner.value.email) else None
  }

  function OneRow(pages: int, row: Usage): seq<Usage> {
    if pages != 0 then [row] else []
  }

  /** `_usage_rows`: one row per walk-up activity that moved. */
  ghost function UsageRows(account: string, delta: Delta, owner: Option<Row>, start: int, end: int, baseline: bool): seq<Usage> {
    var copied, scanned, faxed :=
      TotalPages(delta.lists, "copy"), Value(delta.lists, "scan_fax", "DocumentReadTotal"), Value(delta.lists, "scan_fax", "FaxSend");
    OneRow(copied, Usage(account, EmailOf(owner), Copy, copied, SplitOf(delta.lists), start, end, delta, baseline))
    + OneRow(scanned, Usage(account, EmailOf(owner), Scan, scanned, NO_SPLIT, start, end, delta, baseline))
    + OneRow(faxed, Usage(account, EmailOf(owner), Fax, faxed, NO_SPLIT, start, end, delta, baseline))
  }

  method MakeUsageRows(account: string, delta: Delta, owner: Option<Row>, start: int, end: int, baseline: bool)
    returns (rows: seq<Usage>)
    ensures rows == UsageRows(account, delta, owner, start, end, baseline)
  {
    rows := [];
    var copied := SumPages(delta.lists, "copy");
    if copied != 0 {
      rows := rows + [Usage(account, EmailOf(owner), Copy, copied, SplitOf(delta.lists), start, end, delta, baseline)];
    }
    var scanned := Value(delta.lists, "scan_fax", "DocumentReadTotal");
    if scanned != 0 {
      rows := rows + [Usage(account, EmailOf(owner), Scan, scanned, NO_SPLIT, start, end, delta, baseline)];
    }
    var faxed := Value(delta.lists, "scan_fax", "FaxSend");
    if faxed != 0 {
      rows := rows + [Usage(account, EmailOf(owner), Fax, faxed, NO_SPLIT, start, end, delta, baseline)];
    }
  }

  predicate AnyCount(lists: Lists) {
    exists activity | activity in lists :: exists name | name in lists[activity] :: lists[activity][name] != 0
  }

  // ---- The stored readings of one account ----

  datatype Reading = Reading(account: string, counters: Lists, firstSeen: int, lastSeen: int,
                             superseded: Option<int>, followsReset: bool)

  /** One account's readings, oldest first: all but the last are superseded. */
  predicate OneLive(view: seq<Reading>) {
    forall i :: 0 <= i < |view| ==> (view[i].superseded.None? <==> i == |view| - 1)
  }

  /** What a poll that reports `lists` makes of an account's readings. */
  ghost function ReadingsAfter(view: seq<Reading>, account: string, lists: Lists, now: int): seq<Reading> {
    if view == [] then [Reading(account, lists, now, now, None, false)]
    else if Last(view).counters == lists then Front(view) + [Last(view).(lastSeen := now)]
    else
      var reset := Difference(Last(view).counters, lists).followsReset;
      Front(view) + [Last(view).(superseded := Some(now)), Reading(account, lists, now, now, None, reset)]
  }

  /** The difference a poll records for an account, if it records one. */
  ghost function RecordedDelta(view: seq<Reading>, lists: Lists, owner: Option<Row>): Option<Delta> {
    if view == [] then (if owner.Some? && AnyCount(lists) then Some(Delta(lists, false)) else None)
    else if Last(view).counters == lists then None
    else Some(Difference(Last(view).counters, lists))
  }

  /** The usage rows of that poll: its period runs from the last poll that still saw
      the old values, or from provisioning when there is none. */
  ghost function UsageAfter(view: seq<Reading>, account: string, lists: Lists, owner: Option<Row>, now: int): seq<Usage> {
    var delta := RecordedDelta(view, lists, owner);
    if delta.None? then []
    else if view == [] then UsageRows(account, delta.value, owner, owner.value.provisionedAt, now, true)
    else UsageRows(account, delta.value, owner, Last(view).lastSeen, now, false)
  }

  // ---- The table, which holds every account's readings together ----

  function View(readings: seq<Reading>, account: string): seq<Reading> {
    if readings == [] then []
    else View(Front(readings), account) + (if Last(readings).account == account then [Last(readings)] else [])
  }

  lemma {:induction false} ViewOfConcat(a: seq<Reading>, b: seq<Reading>, account: string)
    ensures View(a + b, account) == View(a, account) + View(b, account)
  {
    if b == [] {
      assert a + b == a;
    } else {
      assert Front(a + b) == a + Front(b);
      ViewOfConcat(a, Front(b), account);
    }
  }

  lemma {:induction false} ViewMembers(readings: seq<Reading>, account: string)
    ensures forall r :: r in View(readings, account) <==> r in readings && r.account == account
  {
    if readings != [] {
      ViewMembers(Front(readings), account);
      assert readings == Front(readings) + [Last(readings)];
    }
  }

  lemma ViewAround(readings: seq<Reading>, i: nat, account: string)
    requires i < |readings|
    ensures View(readings, account) == View(readings[..i], account) + View([readings[i]], account) + View(readings[i + 1..], account)
  {
    assert readings == readings[..i] + [readings[i]] + readings[i + 1..];
    ViewOfConcat(readings[..i] + [readings[i]], readings[i + 1..], account);
    ViewOfConcat(readings[..i], [readings[i]], account);
  }

  lemma ViewOfOne(r: Reading, account: string)
    ensures View([r], account) == if r.account == account then [r] else []
  {
    assert Front([r]) == [];
  }

  /** The live row is the last of its account, wherever it sits in the table. */
  lemma LiveRowIsLast(readings: seq<Reading>, i: nat)
    requires i < |readings| && readings[i].superseded.None? && OneLive(View(readings, readings[i].account))
    ensures View(readings, readings[i].account) == View(readings[..i], readings[i].account) + [readings[i]]
    ensures View(readings[i + 1..], readings[i].account) == []
  {
    var account := readings[i].account;
    ViewAround(readings, i, account);
    ViewOfOne(readings[i], account);
    assert View(readings, account)[|View(readings[..i], account)|] == readings[i];
  }

  /** Updating an account's live row in place changes the last entry of that account's
      view, and no other account's. */
  lemma ViewOfUpdate(readings: seq<Reading>, i: nat, r: Reading, account: string)
    requires i < |readings| && r.account == readings[i].account
    requires readings[i].superseded.None? && OneLive(View(readings, readings[i].account))
    ensures View(readings, readings[i].account) != []
    ensures View(readings[i := r], account)
            == if account == r.account then Front(View(readings, account)) + [r] else View(readings, account)
  {
    LiveRowIsLast(readings, i);
    ViewAround(readings, i, account);
    ViewAround(readings[i := r], i, account);
    ViewOfOne(readings[i], account);
    ViewOfOne(r, account);
    assert readings[i := r][..i] == readings[..i] && readings[i := r][i + 1..] == readings[i + 1..];
  }

  datatype Report = Report(account: string, lists: Lists)

  ghost predicate DistinctAccounts(snapshot: seq<Report>) {
    forall i, j :: 0 <= i < j < |snapshot| ==> snapshot[i].account != snapshot[j].account
  }

  /** What the first `done` reports of a poll leave of one account's readings. */
  ghost function ViewAfter(view: seq<Reading>, account: string, snapshot: seq<Report>, now: int): seq<Reading> {
    if snapshot == [] then view
    else if Last(snapshot).account == account then ReadingsAfter(view, account, Last(snapshot).lists, now)
    else ViewAfter(view, account, Front(snapshot), now)
  }

  ghost function AllUsage(readings: seq<Reading>, snapshot: seq<Report>, owners: map<string, Row>, now: int): seq<Usage> {
    if snapshot == [] then []
    else
      var account := Last(snapshot).account;
      AllUsage(readings, Front(snapshot), owners, now)
      + UsageAfter(View(readings, account), account, Last(snapshot).lists, Found(owners, account), now)
  }

  datatype PollResult = PollResult(accountsRead: nat, baselines: nat, unmoved: nat, changed: nat,
                                   usageRows: nat, baselineUsageRows: nat, resets: nat, unmapped: nat)

  const NOTHING_POLLED := PollResult(0, 0, 0, 0, 0, 0, 0, 0)

  function Plus(a: PollResult, b: PollResult): PollResult {
    PollResult(a.accountsRead + b.accountsRead, a.baselines + b.baselines, a.unmoved + b.unmoved, a.changed + b.changed,
               a.usageRows + b.usageRows, a.baselineUsageRows + b.baselineUsageRows, a.resets + b.resets, a.unmapped + b.unmapped)
  }

  /** What one report adds to the poll's tally. */
  ghost function Tally(view: seq<Reading>, account: string, lists: Lists, owner: Option<Row>, now: int): PollResult {
    var rows := |UsageAfter(view, account, lists, owner, now)|;
    if view == [] then PollResult(1, 1, 0, 0, rows, rows, 0, 0)
    else if Last(view).counters == lists then PollResult(1, 0, 1, 0, rows, 0, 0, 0)
    else PollResult(1, 0, 0, 1, rows, 0,
                    if Difference(Last(view).counters, lists).followsReset then 1 else 0, if owner.None? then 1 else 0)
  }

  ghost function AllTallied(readings: seq<Reading>, snapshot: seq<Report>, owners: map<string, Row>, now: int): PollResult {
    if snapshot == [] then NOTHING_POLLED
    else
      var account := Last(snapshot).account;
      Plus(AllTallied(readings, Front(snapshot), owners, now),
           Tally(View(readings, account), account, Last(snapshot).lists, Found(owners, account), now))
  }

  /** Live rows by account number, as positions in the table. */
  ghost predicate Indexes(existing: map<string, nat>, readings: seq<Reading>) {
    && (forall a :: a in existing ==>
         existing[a] < |readings| && readings[existing[a]].account == a && readings[existing[a]].superseded.None?)
    && (forall i :: 0 <= i < |readings| && readings[i].superseded.None? ==> readings[i].account in existing)
  }

  class CounterStore {
    var readings: seq<Reading>
    var usage: seq<Usage>

    constructor ()
      ensures readings == [] && usage == []
    {
      readings, usage := [], [];
    }

    ghost predicate Valid()
      reads this
    {
      forall account :: OneLive(View(readings, account))
    }

    method LiveRows() returns (existing: map<string, nat>)
      ensures Indexes(existing, readings)
    {
      existing := map[];
      for i := 0 to |readings|
        invariant Indexes(existing, readings[..i])
      {
        if readings[i].superseded.None? {
          existing := existing[readings[i].account := i];
        }
      }
      assert readings[..|readings|] == readings;
    }

    /** The first reading of an account: a baseline, and usage only if PrintOps put the
        account there. */
    method FirstReading(account: string, lists: Lists, owner: Option<Row>, now: int) returns (result: PollResult)
      requires View(readings, account) == []
      modifies this
      ensures PolledOne(old(readings), old(usage), readings, usage, account, lists, owner, now)
      ensures result == Tally([], account, lists, owner, now)
    {
      hide AnyCount, UsageRows, View;
      AppendedReading(readings, Reading(account, lists, now, now, None, false));
      readings := readings + [Reading(account, lists, now, now, None, false)];
      var rows := [];
      if owner.Some? && AnyCount(lists) {
        rows := MakeUsageRows(account, Delta(lists, false), owner, owner.value.provisionedAt, now, true);
      }
      usage := usage + rows;
      result := PollResult(1, 1, 0, 0, |rows|, |rows|, 0, 0);
    }

    /** The counters have not moved: the live row was seen again. */
    method SameReading(account: string, i: nat, now: int, ghost owner: Option<Row>) returns (result: PollResult)
      requires i < |readings| && readings[i].account == account && readings[i].superseded.None?
      requires OneLive(View(readings, account))
      modifies this
      ensures PolledOne(old(readings), old(usage), readings, usage, account, old(readings)[i].counters, owner, now)
      ensures usage == old(usage)
      ensures result == Tally(View(old(readings), account), account, old(readings)[i].counters, owner, now)
    {
      hide Difference, UsageRows, AnyCount, View, OneLive;
      ghost var before := readings;
      LiveRowIsLast(readings, i);
      readings := readings[i := readings[i].(lastSeen := now)];
      forall a {
        ViewOfUpdate(before, i, readings[i], a);
      }
      assert View(readings, account) == ReadingsAfter(View(before, account), account, before[i].counters, now);
      result := PollResult(1, 0, 1, 0, 0, 0, 0, 0);
    }

    /** The counters have moved: the live row is superseded by a new one. */
    method NewReading(account: string, i: nat, lists: Lists, owner: Option<Row>, now: int) returns (result: PollResult)
      requires i < |readings| && readings[i].account == account && readings[i].superseded.None?
      requires OneLive(View(readings, account)) && readings[i].counters != lists
      modifies this
      ensures PolledOne(old(readings), old(usage), readings, usage, account, lists, owner, now)
      ensures result == Tally(View(old(readings), account), account, lists, owner, now)
    {
      hide Difference, View, UsageRows;
      ghost var before := readings;
      LiveRowIsLast(readings, i);
      var previous := readings[i];
      var delta := DiffCounters(previous.counters, lists);
      var closed := previous.(superseded := Some(now));
      var current := Reading(account, lists, now, now, None, delta.followsReset);
      readings := readings[i := closed] + [current];
      forall a {
        ViewOfUpdate(before, i, closed, a);
      }
      AppendedReading(before[i := closed], current);
      assert View(readings, account) == ReadingsAfter(View(before, account), account, lists, now);
      var rows := MakeUsageRows(account, delta, owner, previous.lastSeen, now, false);
      usage := usage + rows;
      result := PollResult(1, 0, 0, 1, |rows|, 0, if delta.followsReset then 1 else 0, if owner.None? then 1 else 0);
    }

    /** `poll_account_counters`: `owners` is the ledger read at `now`. */
    method Poll(snapshot: seq<Report>, owners: map<string, Row>, now: int) returns (result: PollResult)
      requires Valid() && DistinctAccounts(snapshot)
      modifies this
      ensures Valid()
      ensures forall account :: View(readings, account) == ViewAfter(View(old(readings), account), account, snapshot, now)
      ensures usage == old(usage) + AllUsage(old(readings), snapshot, owners, now)
      ensures result == AllTallied(old(readings), snapshot, owners, now)
    {
      var existing := LiveRows();
      ghost var before, billed := readings, usage;
      result := NOTHING_POLLED;
      NothingPolledYet(before, owners, now);
      assert snapshot[..0] == [];
      for k := 0 to |snapshot|
        invariant Halfway(before, billed, readings, usage, snapshot, k, owners, now)
        invariant result == AllTallied(before, snapshot[..k], owners, now)
      {
        hide View, PolledOne, Halfway, OneLive, Tally, AllTallied, Plus;
        var account, lists := snapshot[k].account, snapshot[k].lists;
        var owner := Found(owners, account);
        ghost var middle, middleUsage := readings, usage;
        IndexStillGood(existing, before, billed, middle, usage, snapshot, k, owners, now);
        var one: PollResult;
        if account !in existing {
          one := FirstReading(account, lists, owner, now);
        } else if readings[existing[account]].counters == lists {
          one := SameReading(account, existing[account], now, owner);
        } else {
          one := NewReading(account, existing[account], lists, owner, now);
        }
        TalliedOneMore(before, snapshot, k, owners, now);
        result := Plus(result, one);
        OneFurther(before, billed, middle, middleUsage, readings, usage, snapshot, k, owners, now);
      }
      assert snapshot[..|snapshot|] == snapshot;
    }
  }

  /** One report taken in: that account's readings and usage move on, nothing else. */
  ghost predicate PolledOne(
    before: seq<Reading>, billed: seq<Usage>, after: seq<Reading>, usage: seq<Usage>,
    account: string, lists: Lists, owner: Option<Row>, now: int)
  {
    && (forall a :: View(after, a) == if a == account then ReadingsAfter(View(before, a), a, lists, now) else View(before, a))
    && usage == billed + UsageAfter(View(before, account), account, lists, owner, now)
    && Untouched(before, after, {account})
  }

  /** The first `k` reports taken in. */
  ghost predicate Halfway(
    before: seq<Reading>, billed: seq<Usage>, after: seq<Reading>, usage: seq<Usage>,
    snapshot: seq<Report>, k: nat, owners: map<string, Row>, now: int)
    requires k <= |snapshot|
  {
    && (forall a :: OneLive(View(after, a)))
    && PolledSoFar(before, after, snapshot[..k], now)
    && usage == billed + AllUsage(before, snapshot[..k], owners, now)
    && Untouched(before, after, Accounts(snapshot[..k]))
  }

  lemma IndexStillGood(
    existing: map<string, nat>, before: seq<Reading>, billed: seq<Usage>, middle: seq<Reading>, usage: seq<Usage>,
    snapshot: seq<Report>, k: nat, owners: map<string, Row>, now: int)
    requires Indexes(existing, before) && (forall a :: OneLive(View(before, a))) && DistinctAccounts(snapshot)
    requires k < |snapshot| && Halfway(before, billed, middle, usage, snapshot, k, owners, now)
    ensures var account := snapshot[k].account;
            && OneLive(View(middle, account)) && View(middle, account) == View(before, account)
            && (account !in existing ==> View(middle, account) == [])
            && (account in existing ==> existing[account] < |middle| && middle[existing[account]].account == account
                                        && middle[existing[account]].superseded.None?)
  {
    var account := snapshot[k].account;
    AccountsOfPrefix(snapshot, k);
    SoFarLeavesTheRest(before, middle, snapshot, k, now);
    if View(before, account) != [] {
      LiveRowIsIndexed(existing, before, account);
    }
  }

  lemma OneFurther(
    before: seq<Reading>, billed: seq<Usage>, middle: seq<Reading>, middleUsage: seq<Usage>,
    after: seq<Reading>, usage: seq<Usage>, snapshot: seq<Report>, k: nat, owners: map<string, Row>, now: int)
    requires DistinctAccounts(snapshot) && k < |snapshot|
    requires Halfway(before, billed, middle, middleUsage, snapshot, k, owners, now)
    requires PolledOne(middle, middleUsage, after, usage, snapshot[k].account, snapshot[k].lists,
                       Found(owners, snapshot[k].account), now)
    ensures Halfway(before, billed, after, usage, snapshot, k + 1, owners, now)
  {
    hide AllUsage, UsageAfter, ReadingsAfter;
    var account := snapshot[k].account;
    AccountsOfPrefix(snapshot, k);
    SoFarLeavesTheRest(before, middle, snapshot, k, now);
    PolledOneMore(before, middle, after, snapshot, k, now);
    UsageOfOneMore(before, snapshot, k, owners, now);
    StillUntouched(before, middle, after, Accounts(snapshot[..k]), account);
    ReadingsStayOneLive(View(middle, account), account, snapshot[k].lists, now);
  }

  ghost function Accounts(snapshot: seq<Report>): set<string> {
    set i | 0 <= i < |snapshot| :: snapshot[i].account
  }

  ghost predicate PolledSoFar(before: seq<Reading>, readings: seq<Reading>, done: seq<Report>, now: int) {
    forall a :: View(readings, a) == ViewAfter(View(before, a), a, done, now)
  }

  ghost predicate Untouched(before: seq<Reading>, readings: seq<Reading>, accounts: set<string>) {
    |before| <= |readings|
    && forall i :: 0 <= i < |before| && before[i].account !in accounts ==> readings[i] == before[i]
  }

  lemma StillUntouched(before: seq<Reading>, middle: seq<Reading>, after: seq<Reading>, touched: set<string>, account: string)
    requires Untouched(before, middle, touched) && Untouched(middle, after, {account})
    ensures Untouched(before, after, touched + {account})
  {
  }

  lemma NothingPolledYet(before: seq<Reading>, owners: map<string, Row>, now: int)
    ensures PolledSoFar(before, before, [], now) && AllUsage(before, [], owners, now) == []
    ensures Untouched(before, before, Accounts([]))
  {
  }

  lemma SoFarLeavesTheRest(before: seq<Reading>, readings: seq<Reading>, snapshot: seq<Report>, k: nat, now: int)
    requires k < |snapshot| && DistinctAccounts(snapshot) && PolledSoFar(before, readings, snapshot[..k], now)
    ensures View(readings, snapshot[k].account) == View(before, snapshot[k].account)
  {
    NotYetReported(View(before, snapshot[k].account), snapshot[k].account, snapshot, k, now);
  }

  lemma PolledOneMore(before: seq<Reading>, middle: seq<Reading>, after: seq<Reading>, snapshot: seq<Report>, k: nat, now: int)
    requires k < |snapshot| && DistinctAccounts(snapshot) && PolledSoFar(before, middle, snapshot[..k], now)
    requires forall a :: View(after, a) == (var was := View(middle, a);
               if a == snapshot[k].account then ReadingsAfter(was, a, snapshot[k].lists, now) else was)
    ensures PolledSoFar(before, after, snapshot[..k + 1], now)
  {
    SoFarLeavesTheRest(before, middle, snapshot, k, now);
    assert Front(snapshot[..k + 1]) == snapshot[..k] && Last(snapshot[..k + 1]) == snapshot[k];
  }

  lemma UsageOfOneMore(before: seq<Reading>, snapshot: seq<Report>, k: nat, owners: map<string, Row>, now: int)
    requires k < |snapshot|
    ensures var account := snapshot[k].account;
            AllUsage(before, snapshot[..k + 1], owners, now)
            == AllUsage(before, snapshot[..k], owners, now)
               + UsageAfter(View(before, account), account, snapshot[k].lists, Found(owners, account), now)
  {
    assert Front(snapshot[..k + 1]) == snapshot[..k] && Last(snapshot[..k + 1]) == snapshot[k];
  }

  lemma TalliedOneMore(before: seq<Reading>, snapshot: seq<Report>, k: nat, owners: map<string, Row>, now: int)
    requires k < |snapshot|
    ensures var account := snapshot[k].account;
            AllTallied(before, snapshot[..k + 1], owners, now)
            == Plus(AllTallied(before, snapshot[..k], owners, now),
                    Tally(View(before, account), account, snapshot[k].lists, Found(owners, account), now))
  {
    hide Tally, Plus;
    assert Front(snapshot[..k + 1]) == snapshot[..k] && Last(snapshot[..k + 1]) == snapshot[k];
  }

  lemma AccountsOfPrefix(snapshot: seq<Report>, k: nat)
    requires k < |snapshot|
    ensures Accounts(snapshot[..k + 1]) == Accounts(snapshot[..k]) + {snapshot[k].account}
    ensures DistinctAccounts(snapshot) ==> snapshot[k].account !in Accounts(snapshot[..k])
  {
    assert snapshot[..k + 1][k] == snapshot[k];
    assert forall i :: 0 <= i < k ==> snapshot[..k + 1][i] == snapshot[..k][i] == snapshot[i];
  }

  lemma {:induction false} NotYetReported(view: seq<Reading>, account: string, snapshot: seq<Report>, k: nat, now: int)
    requires k <= |snapshot| && forall i :: 0 <= i < k ==> snapshot[i].account != account
    ensures ViewAfter(view, account, snapshot[..k], now) == view
  {
    if k > 0 {
      assert Front(snapshot[..k]) == snapshot[..k - 1];
      NotYetReported(view, account, snapshot, k - 1, now);
    }
  }

  lemma LiveRowIsIndexed(existing: map<string, nat>, readings: seq<Reading>, account: string)
    requires Indexes(existing, readings) && OneLive(View(readings, account)) && View(readings, account) != []
    ensures account in existing
  {
    ViewMembers(readings, account);
    var r := Last(View(readings, account));
    assert r in View(readings, account) && r.superseded.None?;
  }

  lemma AppendedReading(readings: seq<Reading>, r: Reading)
    ensures forall account :: View(readings + [r], account)
              == View(readings, account) + (if r.account == account then [r] else [])
  {
    assert Front(readings + [r]) == readings;
  }

  lemma ReadingsStayOneLive(view: seq<Reading>, account: string, lists: Lists, now: int)
    requires OneLive(view)
    ensures OneLive(ReadingsAfter(view, account, lists, now))
  {
  }

  /** The reports of a poll, among the first `done`, that answer to something. */
  ghost function Of(snapshot: seq<Report>, done: nat, p: Report -> bool): set<nat> {
    Query.Those(done, (k: nat) => k < |snapshot| && p(snapshot[k]))
  }

  lemma OneMoreOf(snapshot: seq<Report>, p: Report -> bool)
    requires snapshot != []
    ensures |Of(snapshot, |snapshot|, p)| == |Of(Front(snapshot), |Front(snapshot)|, p)| + (if p(Last(snapshot)) then 1 else 0)
  {
    var n := |snapshot| - 1;
    Query.OneMoreOfThose(n, (k: nat) => k < |snapshot| && p(snapshot[k]));
    assert Of(Front(snapshot), n, p) == Of(snapshot, n, p);
  }

  ghost predicate IsNew(readings: seq<Reading>, r: Report) {
    forall i :: 0 <= i < |readings| ==> readings[i].account != r.account
  }

  ghost predicate HasMoved(readings: seq<Reading>, r: Report) {
    View(readings, r.account) != [] && Last(View(readings, r.account)).counters != r.lists
  }

  ghost predicate HasFallen(readings: seq<Reading>, r: Report) {
    View(readings, r.account) != [] && WentBackwards(Last(View(readings, r.account)).counters, r.lists)
  }

  lemma NewExactlyWhenUnseen(readings: seq<Reading>, r: Report)
    ensures IsNew(readings, r) <==> View(readings, r.account) == []
  {
    var view := View(readings, r.account);
    ViewMembers(readings, r.account);
    if view != [] {
      assert view[0] in readings && view[0].account == r.account;
    }
    forall i | 0 <= i < |readings| && readings[i].account == r.account
      ensures readings[i] in view
    {
    }
  }

  lemma FallenHasMoved(readings: seq<Reading>, r: Report)
    ensures HasFallen(readings, r) ==> HasMoved(readings, r)
  {
  }

  /** What each number of a poll's tally counts. */
  lemma {:induction false} TallyCounts(readings: seq<Reading>, snapshot: seq<Report>, owners: map<string, Row>, now: int)
    ensures var t, n := AllTallied(readings, snapshot, owners, now), |snapshot|;
            && t.baselines == |Of(snapshot, n, r => IsNew(readings, r))|
            && t.changed == |Of(snapshot, n, r => HasMoved(readings, r))|
            && t.resets == |Of(snapshot, n, r => HasFallen(readings, r))|
            && t.unmapped == |Of(snapshot, n, r => HasMoved(readings, r) && r.account !in owners)|
  {
    hide View, UsageAfter, IsNew, WentBackwards;
    if snapshot != [] {
      var r := Last(snapshot);
      TallyCounts(readings, Front(snapshot), owners, now);
      OneMoreOf(snapshot, r => IsNew(readings, r));
      OneMoreOf(snapshot, r => HasMoved(readings, r));
      OneMoreOf(snapshot, r => HasFallen(readings, r));
      OneMoreOf(snapshot, r => HasMoved(readings, r) && r.account !in owners);
      NewExactlyWhenUnseen(readings, r);
      FallenHasMoved(readings, r);
    }
  }

  /** How many rows come from first readings. */
  function FromBaseline(usage: seq<Usage>): nat {
    if usage == [] then 0 else FromBaseline(Front(usage)) + (if Last(usage).fromBaseline then 1 else 0)
  }

  lemma {:induction false} FromBaselineOfConcat(a: seq<Usage>, b: seq<Usage>)
    ensures FromBaseline(a + b) == FromBaseline(a) + FromBaseline(b)
  {
    if b == [] {
      assert a + b == a;
    } else {
      assert Front(a + b) == a + Front(b);
      FromBaselineOfConcat(a, Front(b));
    }
  }

  lemma {:induction false} AllOrNoneFromBaseline(usage: seq<Usage>, baseline: bool)
    requires forall r :: r in usage ==> r.fromBaseline == baseline
    ensures FromBaseline(usage) == if baseline then |usage| else 0
  {
    if usage != [] {
      assert forall r :: r in Front(usage) ==> r in usage;
      AllOrNoneFromBaseline(Front(usage), baseline);
    }
  }

  lemma FirstReadingsAreBaselines(view: seq<Reading>, account: string, lists: Lists, owner: Option<Row>, now: int)
    ensures FromBaseline(UsageAfter(view, account, lists, owner, now)) == if view == [] then |UsageAfter(view, account, lists, owner, now)| else 0
  {
    hide UsageRows, Difference, AnyCount;
    var delta := RecordedDelta(view, lists, owner);
    if delta.Some? {
      if view == [] {
        RowExactlyWhenMoved(account, delta.value, owner, owner.value.provisionedAt, now, true);
      } else {
        RowExactlyWhenMoved(account, delta.value, owner, Last(view).lastSeen, now, false);
      }
      AllOrNoneFromBaseline(UsageAfter(view, account, lists, owner, now), view == []);
    }
  }

  /** The tally adds up: every report is a baseline, unmoved or changed, the usage rows
      are those written, from first readings and in all. */
  lemma {:induction false} TallyAddsUp(readings: seq<Reading>, snapshot: seq<Report>, owners: map<string, Row>, now: int)
    ensures var t := AllTallied(readings, snapshot, owners, now);
            && t.accountsRead == |snapshot| == t.baselines + t.unmoved + t.changed
            && t.usageRows == |AllUsage(readings, snapshot, owners, now)|
            && t.baselineUsageRows == FromBaseline(AllUsage(readings, snapshot, owners, now))
  {
    hide Difference, View, UsageAfter;
    if snapshot != [] {
      TallyAddsUp(readings, Front(snapshot), owners, now);
      var r := Last(snapshot);
      var rows := UsageAfter(View(readings, r.account), r.account, r.lists, Found(owners, r.account), now);
      FirstReadingsAreBaselines(View(readings, r.account), r.account, r.lists, Found(owners, r.account), now);
      FromBaselineOfConcat(AllUsage(readings, Front(snapshot), owners, now), rows);
    }
  }

  // ---- What the table as a whole says of one account ----

  function UsageOf(usage: seq<Usage>, account: string): seq<Usage> {
    if usage == [] then []
    else UsageOf(Front(usage), account) + (if Last(usage).account == account then [Last(usage)] else [])
  }

  lemma {:induction false} UsageOfConcat(a: seq<Usage>, b: seq<Usage>, account: string)
    ensures UsageOf(a + b, account) == UsageOf(a, account) + UsageOf(b, account)
  {
    if b == [] {
      assert a + b == a;
    } else {
      assert Front(a + b) == a + Front(b);
      UsageOfConcat(a, Front(b), account);
    }
  }

  lemma {:induction false} UsageOfItself(usage: seq<Usage>, owner: string, account: string)
    requires forall i :: 0 <= i < |usage| ==> usage[i].account == owner
    ensures UsageOf(usage, account) == if owner == account then usage else []
  {
    if usage != [] {
      UsageOfItself(Front(usage), owner, account);
    }
  }

  lemma RowsNameTheirAccount(view: seq<Reading>, account: string, lists: Lists, owner: Option<Row>, now: int)
    ensures forall i :: 0 <= i < |UsageAfter(view, account, lists, owner, now)| ==>
              UsageAfter(view, account, lists, owner, now)[i].account == account
  {
    hide Difference, AnyCount, TotalPages;
  }

  /** A poll treats each account by itself: the rows it writes for one account are those
      of that account's own readings and report, whoever else was in the snapshot. */
  lemma {:induction false} PollIsPerAccount(readings: seq<Reading>, snapshot: seq<Report>, owners: map<string, Row>, now: int, i: nat)
    requires DistinctAccounts(snapshot) && i < |snapshot|
    ensures var r := snapshot[i];
            && ViewAfter(View(readings, r.account), r.account, snapshot, now)
               == ReadingsAfter(View(readings, r.account), r.account, r.lists, now)
            && UsageOf(AllUsage(readings, snapshot, owners, now), r.account)
               == UsageAfter(View(readings, r.account), r.account, r.lists, Found(owners, r.account), now)
  {
    hide View, UsageAfter, ReadingsAfter;
    var account, last := snapshot[i].account, Last(snapshot);
    var rows := UsageAfter(View(readings, last.account), last.account, last.lists, Found(owners, last.account), now);
    UsageOfConcat(AllUsage(readings, Front(snapshot), owners, now), rows, account);
    RowsNameTheirAccount(View(readings, last.account), last.account, last.lists, Found(owners, last.account), now);
    UsageOfItself(rows, last.account, account);
    if i < |snapshot| - 1 {
      PollIsPerAccount(readings, Front(snapshot), owners, now, i);
    } else {
      NothingForTheUnreported(readings, Front(snapshot), owners, now, account);
    }
  }

  lemma {:induction false} NothingForTheUnreported(
    readings: seq<Reading>, snapshot: seq<Report>, owners: map<string, Row>, now: int, account: string)
    requires forall i :: 0 <= i < |snapshot| ==> snapshot[i].account != account
    ensures ViewAfter(View(readings, account), account, snapshot, now) == View(readings, account)
    ensures UsageOf(AllUsage(readings, snapshot, owners, now), account) == []
  {
    hide View, UsageAfter, ReadingsAfter;
    if snapshot != [] {
      var last := Last(snapshot);
      var rows := UsageAfter(View(readings, last.account), last.account, last.lists, Found(owners, last.account), now);
      NothingForTheUnreported(readings, Front(snapshot), owners, now, account);
      UsageOfConcat(AllUsage(readings, Front(snapshot), owners, now), rows, account);
      RowsNameTheirAccount(View(readings, last.account), last.account, last.lists, Found(owners, last.account), now);
      UsageOfItself(rows, last.account, account);
    }
  }

  /** Nothing but the walk-up counters is billed: whatever the print and total counters
      say, the rows carry the same activities and pages. */
  lemma PrintsAreNeverBilled(account: string, a: Delta, b: Delta, owner: Option<Row>, start: int, end: int, baseline: bool)
    requires SameActivity(a.lists, b.lists, "copy") && SameActivity(a.lists, b.lists, "scan_fax")
    ensures SameButDelta(UsageRows(account, a, owner, start, end, baseline), UsageRows(account, b, owner, start, end, baseline), a)
  {
    hide TotalPages, Value, SameActivity, EmailOf, OneRow, SameButDelta;
    SameTotal(a.lists, b.lists, "copy");
    SameSplit(a.lists, b.lists);
    hide SplitOf;
    SameValue(a.lists, b.lists, "scan_fax", "DocumentReadTotal");
    SameValue(a.lists, b.lists, "scan_fax", "FaxSend");
    var copied, scanned, faxed :=
      TotalPages(a.lists, "copy"), Value(a.lists, "scan_fax", "DocumentReadTotal"), Value(a.lists, "scan_fax", "FaxSend");
    var copy := OneRowSame(copied, Usage(account, EmailOf(owner), Copy, copied, SplitOf(b.lists), start, end, b, baseline), a);
    var scan := OneRowSame(scanned, Usage(account, EmailOf(owner), Scan, scanned, NO_SPLIT, start, end, b, baseline), a);
    var fax := OneRowSame(faxed, Usage(account, EmailOf(owner), Fax, faxed, NO_SPLIT, start, end, b, baseline), a);
    SameConcat(copy.0, copy.1, scan.0, scan.1, a);
    SameConcat(copy.0 + scan.0, copy.1 + scan.1, fax.0, fax.1, a);
  }

  ghost predicate SameButDelta(x: seq<Usage>, y: seq<Usage>, delta: Delta) {
    |x| == |y| && forall i :: 0 <= i < |x| ==> x[i] == y[i].(delta := delta)
  }

  lemma OneRowSame(pages: int, row: Usage, delta: Delta) returns (rows: (seq<Usage>, seq<Usage>))
    ensures rows == (OneRow(pages, row.(delta := delta)), OneRow(pages, row)) && SameButDelta(rows.0, rows.1, delta)
  {
    rows := (OneRow(pages, row.(delta := delta)), OneRow(pages, row));
  }

  lemma SameConcat(x: seq<Usage>, y: seq<Usage>, x': seq<Usage>, y': seq<Usage>, delta: Delta)
    requires SameButDelta(x, y, delta) && SameButDelta(x', y', delta)
    ensures SameButDelta(x + x', y + y', delta)
  {
  }

  ghost predicate SameActivity(a: Lists, b: Lists, activity: string) {
    (activity in a <==> activity in b) && (activity in a ==> a[activity] == b[activity])
  }

  lemma SameValue(a: Lists, b: Lists, activity: string, name: string)
    requires SameActivity(a, b, activity)
    ensures Value(a, activity, name) == Value(b, activity, name)
  {
  }

  lemma SameSplit(a: Lists, b: Lists)
    requires SameActivity(a, b, "copy")
    ensures SplitOf(a) == SplitOf(b)
  {
    SameValue(a, b, "copy", "FullColor");
    SameValue(a, b, "copy", "BiColor");
    SameValue(a, b, "copy", "MonoColor");
    SameValue(a, b, "copy", "Bw");
  }

  lemma SameTotal(a: Lists, b: Lists, activity: string)
    requires SameActivity(a, b, activity)
    ensures TotalPages(a, activity) == TotalPages(b, activity)
  {
    assert PageTypesOf(a, activity) == PageTypesOf(b, activity) by {
      hide CountsPages;
    }
    SameSum(PageTypesOf(a, activity), name => Value(a, activity, name), name => Value(b, activity, name));
  }

  lemma {:induction false} SameSum(names: set<string>, f: string -> int, g: string -> int)
    requires forall n :: n in names ==> f(n) == g(n)
    ensures SumOver(names, f) == SumOver(names, g)
    decreases names
  {
    if names != {} {
      var n :| n in names;
      SumPicksAny(names, f, n);
      SumPicksAny(names, g, n);
      SameSum(names - {n}, f, g);
    }
  }

  // ---- Exactly which rows a difference comes to ----

  /** The pages of an activity, and the parts of them that were in colour and in black. */
  ghost predicate IsRowOf(r: Usage, delta: Delta) {
    match r.activity
    case Copy =>
      && r.pages == TotalPages(delta.lists, "copy")
      && (var color := Value(delta.lists, "copy", "FullColor") + Value(delta.lists, "copy", "BiColor") + Value(delta.lists, "copy", "MonoColor");
          r.split.color == if color != 0 then Some(color) else None)
      && (var bw := Value(delta.lists, "copy", "Bw"); r.split.mono == if bw != 0 then Some(bw) else None)
    case Scan => r.pages == Value(delta.lists, "scan_fax", "DocumentReadTotal") && r.split == NO_SPLIT
    case Fax => r.pages == Value(delta.lists, "scan_fax", "FaxSend") && r.split == NO_SPLIT
  }

  /** There is a row of an activity if and only if its own counter moved: the total of the
      copies, the documents read, the faxes sent; and each row carries those pages, and the
      account, its holder's address and the period. */
  lemma RowExactlyWhenMoved(account: string, delta: Delta, owner: Option<Row>, start: int, end: int, baseline: bool)
    ensures var rows := UsageRows(account, delta, owner, start, end, baseline);
            && (forall r :: r in rows ==>
                 && IsRowOf(r, delta) && r.pages != 0
                 && r.account == account && r.start == start && r.end == end && r.delta == delta && r.fromBaseline == baseline
                 && (owner.None? ==> r.email == None) && (owner.Some? ==> r.email == Some(owner.value.email)))
            && ((exists r :: r in rows && r.activity == Copy) <==> TotalPages(delta.lists, "copy") != 0)
            && ((exists r :: r in rows && r.activity == Scan) <==> Value(delta.lists, "scan_fax", "DocumentReadTotal") != 0)
            && ((exists r :: r in rows && r.activity == Fax) <==> Value(delta.lists, "scan_fax", "FaxSend") != 0)
            && (forall i, j :: 0 <= i < j < |rows| ==> rows[i].activity != rows[j].activity)
  {
    hide TotalPages, Value;
    var copied, scanned, faxed :=
      TotalPages(delta.lists, "copy"), Value(delta.lists, "scan_fax", "DocumentReadTotal"), Value(delta.lists, "scan_fax", "FaxSend");
    var c := Usage(account, EmailOf(owner), Copy, copied, SplitOf(delta.lists), start, end, delta, baseline);
    var s := Usage(account, EmailOf(owner), Scan, scanned, NO_SPLIT, start, end, delta, baseline);
    var f := Usage(account, EmailOf(owner), Fax, faxed, NO_SPLIT, start, end, delta, baseline);
    var rows := UsageRows(account, delta, owner, start, end, baseline);
    assert IsRowOf(c, delta) && IsRowOf(s, delta) && IsRowOf(f, delta);
    hide SplitOf, EmailOf;
    assert copied != 0 ==> c in rows;
    assert scanned != 0 ==> s in rows;
    assert faxed != 0 ==> f in rows;
  }

  /** The page counters: all but the total, the totals of other things, and the counts of
      large sheets, which are counted again under their kind. */
  lemma CountsPagesExactlyWhen(name: string)
    ensures CountsPages(name) <==>
            && name != "Total" && name != "BlackPrintPaper" && name != "Paper" && name != "Document"
            && name != "DuplexTotal" && name != "PrintPageTotal"
            && forall kind: string :: name != kind + "Large"
  {
    if |name| >= 5 && name[|name| - 5..] == "Large" {
      assert name == name[..|name| - 5] + "Large";
    }
    forall kind: string | name == kind + "Large"
      ensures |name| >= 5 && name[|name| - 5..] == "Large"
    {
    }
  }
}