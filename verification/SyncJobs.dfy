/** apps/api/app/copiers/sync_jobs.py: the ledger that mirrors a table of codes
    nobody can read back. */
module SyncJobs {
  import opened Prelude
  import opened Ledger
  import opened KonicaBizhub

  /** `provisioned_identity_values`: the codes believed to be on the device. */
  function LiveCodes(rows: seq<Row>): set<string> {
    set i | 0 <= i < |rows| && Live(rows[i]) :: rows[i].code
  }

  function Opened(accounts: seq<Account>, now: int): seq<Row> {
    seq(|accounts|, i requires 0 <= i < |accounts| =>
      Row(accounts[i].email, accounts[i].code, accounts[i].slot, now, None))
  }

  /** A live row whose account was written again is over. */
  function ClosedRow(row: Row, slots: set<string>, now: int): Row {
    if Live(row) && row.slot in slots then row.(removedAt := Some(now)) else row
  }

  function Closed(rows: seq<Row>, slots: set<string>, now: int): seq<Row> {
    seq(|rows|, i requires 0 <= i < |rows| => ClosedRow(rows[i], slots, now))
  }

  /** The ledger after a run that wrote `accounts`. */
  function Booked(rows: seq<Row>, accounts: seq<Account>, rewrite: bool, now: int): seq<Row> {
    (if rewrite then Closed(rows, Slots(accounts), now) else rows) + Opened(accounts, now)
  }

  const PROGRESS_WRITE_EVERY := 5

  /** A finished job with its counts; one that an error ended, with those it last noted;
      or one whose copier was deleted before it started. */
  datatype JobRecord =
    | Finished(completed: nat, failed: nat, skipped: nat, succeeded: bool)
    | Errored(completed: nat, failed: nat, skipped: nat)
    | CopierDeleted

  /** When the device was last synced, and whether everybody was written. */
  datatype LastSync = LastSync(at: int, ok: bool)

  class SyncLedger {
    var rows: seq<Row>
    var lastSync: Option<LastSync>

    constructor (rows: seq<Row>)
      ensures this.rows == rows && lastSync == None
    {
      this.rows := rows;
      lastSync := None;
    }

    /** `run_sync_job`. An error other than a refused write ends it with the ledger as it
        was, whatever has been written by then. */
    method RunSyncJob(
      copierExists: bool, copier: Copier, listing: seq<string>, plan: seq<Identity>, rewrite: bool, refuses: nat -> bool,
      lost: Option<nat>, now: int) returns (job: JobRecord)
      modifies this, copier
      ensures !copierExists ==>
                copier.table == old(copier.table) && rows == old(rows) && lastSync == old(lastSync) && job == CopierDeleted
      ensures copierExists ==>
              var pending := Pending(plan, if rewrite then {} else LiveCodes(old(rows)));
              var start := Start(old(copier.table), listing);
              if Broken(start, |listing|, pending, rewrite, refuses, lost) then
                && copier.table == Progressed(start, |listing|, pending, rewrite, refuses, lost.value).table
                && rows == old(rows) && lastSync == old(lastSync)
                && var noted := NotedAfter(start, |listing|, pending, rewrite, refuses, PROGRESS_WRITE_EVERY, lost.value);
                job == Errored(noted.synced, noted.failed, |plan| - |pending|)
              else
                var end := Finish(old(copier.table), listing, pending, rewrite, refuses);
                && copier.table == end.table
                && rows == Booked(old(rows), end.accounts, rewrite, now)
                && lastSync == Some(LastSync(now, end.failed == 0))
                && job == Finished(|end.accounts|, end.failed, |plan| - |pending|, end.failed == 0)
    {
      hide Broken, Finish, Progressed, NotedAfter;
      if !copierExists {
        return CopierDeleted;
      }
      var seen := if rewrite then {} else LiveCodes(rows);
      var returned, noted := SyncUsersToDevice(copier, listing, plan, seen, rewrite, refuses, lost, PROGRESS_WRITE_EVERY);
      if returned.None? {
        return Errored(noted.synced, noted.failed, |plan| - |Pending(plan, seen)|);
      }
      var result := returned.value;
      ghost var before := rows;
      lastSync := Some(LastSync(now, result.failed == 0));
      if rewrite {
        var rewrittenSlots := Slots(result.accounts);
        for i := 0 to |rows|
          modifies this`rows
          invariant |rows| == |before|
          invariant forall k :: 0 <= k < |rows| ==>
                      rows[k] == if k < i then ClosedRow(before[k], rewrittenSlots, now) else before[k]
        {
          if rows[i].removedAt.None? && rows[i].slot in rewrittenSlots {
            rows := rows[i := rows[i].(removedAt := Some(now))];
          }
        }
        assert rows == Closed(before, rewrittenSlots, now);
      }
      ghost var closed := rows;
      for i := 0 to |result.accounts|
        modifies this`rows
        invariant rows == closed + Opened(result.accounts, now)[..i]
      {
        var account := result.accounts[i];
        rows := rows + [Row(account.email, account.code, account.slot, now, None)];
      }
      assert Opened(result.accounts, now)[..|result.accounts|] == Opened(result.accounts, now);
      assert rows == Booked(before, result.accounts, rewrite, now);
      job := Finished(result.synced, result.failed, result.skipped, result.failed == 0);
    }
  }

  // ---- The copier, the ledger and time ----

  datatype World = World(table: map<string, string>, rows: seq<Row>, clock: int)

  datatype Step =
    | Sync(plan: seq<Identity>, listing: seq<string>, rewrite: bool, refuses: nat -> bool, lost: Option<nat>, now: int)
    | Panel(edited: map<string, string>)  // somebody edits accounts the ledger does not track

  ghost predicate Enabled(w: World, s: Step) {
    match s
    case Sync(_, listing, _, _, _, now) => w.clock <= now && ListsAccounts(listing, w.table)
    case Panel(edited) =>
      && CodesDiffer(edited)
      && forall i :: 0 <= i < |w.rows| && Live(w.rows[i]) ==>
           w.rows[i].slot in edited && w.rows[i].slot in w.table && edited[w.rows[i].slot] == w.table[w.rows[i].slot]
  }

  ghost function ToWrite(w: World, s: Step): seq<Identity>
    requires s.Sync?
  {
    Pending(s.plan, if s.rewrite then {} else LiveCodes(w.rows))
  }

  /** An error ends the run before it can report what it wrote. */
  ghost predicate Breaks(w: World, s: Step)
    requires s.Sync?
  {
    Broken(Start(w.table, s.listing), |s.listing|, ToWrite(w, s), s.rewrite, s.refuses, s.lost)
  }

  /** Where the run leaves the device, and what it wrote. */
  ghost function Synced(w: World, s: Step): Progress
    requires s.Sync?
  {
    var done := if Breaks(w, s) then s.lost.value else |ToWrite(w, s)|;
    Progressed(Start(w.table, s.listing), |s.listing|, ToWrite(w, s), s.rewrite, s.refuses, done)
  }

  ghost function Apply(w: World, s: Step): World
  {
    match s
    case Sync(_, _, rewrite, _, _, now) =>
      World(Synced(w, s).table, if Breaks(w, s) then w.rows else Booked(w.rows, Synced(w, s).accounts, rewrite, now), now)
    case Panel(edited) => w.(table := edited)
  }

  ghost predicate Runs(w: World, steps: seq<Step>)
    decreases |steps|
  {
    steps == [] || (Enabled(w, steps[0]) && Runs(Apply(w, steps[0]), steps[1..]))
  }

  ghost function After(w: World, steps: seq<Step>): World
    decreases |steps|
  {
    if steps == [] then w else After(Apply(w, steps[0]), steps[1..])
  }

  /** The live rows say exactly what the copier holds in the accounts they track. */
  ghost predicate Mirrors(rows: seq<Row>, table: map<string, string>) {
    forall i :: 0 <= i < |rows| && Live(rows[i]) ==> rows[i].slot in table && table[rows[i].slot] == rows[i].code
  }

  ghost predicate StampedBy(rows: seq<Row>, clock: int) {
    forall i :: 0 <= i < |rows| ==>
      rows[i].provisionedAt <= clock && (rows[i].removedAt.Some? ==> rows[i].removedAt.value <= clock)
  }

  /** Every account the ledger tracks is there, whatever code it holds. */
  ghost predicate Held(rows: seq<Row>, table: map<string, string>) {
    forall i :: 0 <= i < |rows| && Live(rows[i]) ==> rows[i].slot in table
  }

  ghost predicate Inv(w: World) {
    CodesDiffer(w.table) && Held(w.rows, w.table) && InSequence(w.rows) && StampedBy(w.rows, w.clock)
  }

  /** What booking needs to know of the run: its accounts are all that changed on the
      device, and without a rewrite they were not there before. */
  ghost predicate Fits(w: World, end: Progress, rewrite: bool) {
    && Recorded(w.table, end) && CodesDiffer(end.table)
    && (!rewrite ==> Slots(end.accounts) !! w.table.Keys)
  }

  lemma SyncFits(w: World, s: Step)
    requires s.Sync? && Enabled(w, s) && CodesDiffer(w.table)
    ensures Fits(w, Synced(w, s), s.rewrite)
  {
    hide Decimal, Numeral, Recorded, CodesDiffer, ListsAccounts;
    var done := if Breaks(w, s) then s.lost.value else |ToWrite(w, s)|;
    if s.rewrite {
      RewritePromises(w.table, s.listing, ToWrite(w, s), s.refuses, done);
    } else {
      AdditivePromises(w.table, s.listing, ToWrite(w, s), s.refuses, done);
    }
  }

  lemma BookingIsInSequence(w: World, end: Progress, rewrite: bool, now: int)
    requires Inv(w) && Fits(w, end, rewrite) && w.clock <= now
    ensures InSequence(Booked(w.rows, end.accounts, rewrite, now))
    ensures StampedBy(Booked(w.rows, end.accounts, rewrite, now), now)
  {
    hide CodesDiffer, Slots;
    var kept := if rewrite then Closed(w.rows, Slots(end.accounts), now) else w.rows;
    ClosingKeepsSequence(w.rows, Slots(end.accounts), w.clock, now);
    assert forall i :: 0 <= i < |kept| && kept[i].slot in Slots(end.accounts) ==> !Live(kept[i]);
    assert forall i :: 0 <= i < |end.accounts| ==> end.accounts[i].slot in Slots(end.accounts) by {
      AccountsHaveSlots(end.accounts);
    }
    OpeningKeepsSequence(kept, end.accounts, now);
  }

  lemma AccountsHaveSlots(accounts: seq<Account>)
    ensures forall i :: 0 <= i < |accounts| ==> accounts[i].slot in Slots(accounts)
    ensures forall s :: s in Slots(accounts) ==> exists i :: 0 <= i < |accounts| && accounts[i].slot == s
  {
  }

  lemma ClosingKeepsSequence(rows: seq<Row>, slots: set<string>, clock: int, now: int)
    requires InSequence(rows) && StampedBy(rows, clock) && clock <= now
    ensures InSequence(Closed(rows, slots, now)) && StampedBy(Closed(rows, slots, now), now) && StampedBy(rows, now)
  {
  }

  lemma OpeningKeepsSequence(rows: seq<Row>, accounts: seq<Account>, now: int)
    requires InSequence(rows) && StampedBy(rows, now)
    requires forall i, j :: 0 <= i < |rows| && 0 <= j < |accounts| && rows[i].slot == accounts[j].slot ==> !Live(rows[i])
    requires forall i, j :: 0 <= i < j < |accounts| ==> accounts[i].slot != accounts[j].slot
    ensures InSequence(rows + Opened(accounts, now)) && StampedBy(rows + Opened(accounts, now), now)
  {
    var added := Opened(accounts, now);
    assert forall i :: 0 <= i < |added| ==> added[i].slot == accounts[i].slot && added[i].provisionedAt == now && Live(added[i]);
    hide Opened;
    var all := rows + added;
    assert forall i :: 0 <= i < |all| ==> all[i] == if i < |rows| then rows[i] else added[i - |rows|];
  }

  lemma BookingMirrors(w: World, end: Progress, rewrite: bool, now: int)
    requires Mirrors(w.rows, w.table) && Fits(w, end, rewrite)
    ensures Mirrors(Booked(w.rows, end.accounts, rewrite, now), end.table)
  {
    hide CodesDiffer;
    var rows := Booked(w.rows, end.accounts, rewrite, now);
    var n := |w.rows|;
    forall i | 0 <= i < |rows| && Live(rows[i])
      ensures rows[i].slot in end.table && end.table[rows[i].slot] == rows[i].code
    {
      if i < n {
        assert Live(w.rows[i]) && rows[i] == w.rows[i];
        assert w.rows[i].slot !in Slots(end.accounts);
      } else {
        assert rows[i].slot == end.accounts[i - n].slot;
      }
    }
  }

  lemma BookingHolds(w: World, end: Progress, rewrite: bool, now: int)
    requires Held(w.rows, w.table) && Fits(w, end, rewrite)
    ensures Held(Booked(w.rows, end.accounts, rewrite, now), end.table) && Held(w.rows, end.table)
  {
    hide CodesDiffer;
    var rows := Booked(w.rows, end.accounts, rewrite, now);
    var n := |w.rows|;
    forall i | 0 <= i < |rows| && Live(rows[i])
      ensures rows[i].slot in end.table
    {
      if i < n {
        assert Live(w.rows[i]) && rows[i].slot == w.rows[i].slot;
      } else {
        assert rows[i].slot == end.accounts[i - n].slot;
      }
    }
  }

  lemma StepKeepsInv(w: World, s: Step)
    requires Inv(w) && Enabled(w, s)
    ensures Inv(Apply(w, s))
  {
    hide CodesDiffer, InSequence, Recorded, ListsAccounts, Breaks, Synced;
    if s.Sync? {
      SyncFits(w, s);
      BookingIsInSequence(w, Synced(w, s), s.rewrite, s.now);
      BookingHolds(w, Synced(w, s), s.rewrite, s.now);
    }
  }

  lemma {:induction false} RunKeepsInv(w: World, steps: seq<Step>)
    requires Inv(w) && Runs(w, steps)
    ensures Inv(After(w, steps))
    decreases |steps|
  {
    hide Inv, Enabled, Apply;
    if steps != [] {
      StepKeepsInv(w, steps[0]);
      RunKeepsInv(Apply(w, steps[0]), steps[1..]);
    }
  }

  /** After a step the mirror is faithful if it was, unless an error broke a rewrite. */
  lemma StepMirrors(w: World, s: Step)
    requires Inv(w) && Mirrors(w.rows, w.table) && Enabled(w, s)
    requires s.Sync? && s.rewrite ==> !Breaks(w, s)
    ensures Mirrors(Apply(w, s).rows, Apply(w, s).table)
  {
    hide CodesDiffer, InSequence, Recorded, ListsAccounts, Breaks, Synced;
    if s.Sync? {
      SyncFits(w, s);
      BookingMirrors(w, Synced(w, s), s.rewrite, s.now);
      if !s.rewrite {
        AddingMirrors(w, Synced(w, s));
      }
    }
  }

  /** What is added to the device is not what the ledger tracks. */
  lemma AddingMirrors(w: World, end: Progress)
    requires Mirrors(w.rows, w.table) && Fits(w, end, false)
    ensures Mirrors(w.rows, end.table)
  {
    hide CodesDiffer;
  }

  // ---- Main results ----

  /** A copier nobody has been provisioned on yet, whatever accounts it came with. */
  ghost predicate Fresh(w: World) {
    w.rows == [] && CodesDiffer(w.table)
  }

  /** No rewriting run was broken off. */
  ghost predicate RewritesFinish(w: World, steps: seq<Step>)
    decreases |steps|
  {
    steps == [] || ((steps[0].Sync? && steps[0].rewrite ==> !Breaks(w, steps[0])) && RewritesFinish(Apply(w, steps[0]), steps[1..]))
  }

  lemma {:induction false} RunMirrors(w: World, steps: seq<Step>)
    requires Inv(w) && Mirrors(w.rows, w.table) && Runs(w, steps) && RewritesFinish(w, steps)
    ensures Mirrors(After(w, steps).rows, After(w, steps).table)
    decreases |steps|
  {
    hide Inv, Enabled, Apply, Breaks, Mirrors;
    if steps != [] {
      StepKeepsInv(w, steps[0]);
      StepMirrors(w, steps[0]);
      RunMirrors(Apply(w, steps[0]), steps[1..]);
    }
  }

  /** After any number of runs, additive or rewriting, with any writes refused and any
      additive run broken off anywhere: each tracked account holds the code the ledger
      says, and no account or code is live twice. */
  lemma LedgerMirrorsDevice(w: World, steps: seq<Step>)
    requires Fresh(w) && Runs(w, steps) && RewritesFinish(w, steps)
    ensures var end := After(w, steps);
            && Mirrors(end.rows, end.table)
            && forall i, j :: 0 <= i < j < |end.rows| && Live(end.rows[i]) && Live(end.rows[j]) ==>
                 end.rows[i].slot != end.rows[j].slot && end.rows[i].code != end.rows[j].code
  {
    RunKeepsInv(w, steps);
    RunMirrors(w, steps);
  }

  /** Whoever was live in an account that was written again has the code it was given. */
  ghost predicate KeptTheirCodes(rows: seq<Row>, accounts: seq<Account>) {
    forall i, j :: 0 <= i < |rows| && Live(rows[i]) && 0 <= j < |accounts| ==>
      accounts[j].slot == rows[i].slot ==> accounts[j].code == rows[i].code
  }

  /** A rewrite that an error breaks off leaves the mirror faithful if and only if every
      tracked account it had got to was given the code it had. */
  lemma BrokenRewriteMirrorsExactlyWhen(w: World, s: Step)
    requires Inv(w) && Mirrors(w.rows, w.table) && Enabled(w, s) && s.Sync? && s.rewrite && Breaks(w, s)
    ensures Mirrors(Apply(w, s).rows, Apply(w, s).table) <==> KeptTheirCodes(w.rows, Synced(w, s).accounts)
  {
    hide CodesDiffer, InSequence, ListsAccounts, Breaks, Synced;
    SyncFits(w, s);
    var end := Synced(w, s);
    assert Apply(w, s).rows == w.rows && Apply(w, s).table == end.table;
    if KeptTheirCodes(w.rows, end.accounts) {
      forall i | 0 <= i < |w.rows| && Live(w.rows[i])
        ensures w.rows[i].slot in end.table && end.table[w.rows[i].slot] == w.rows[i].code
      {
        if w.rows[i].slot in Slots(end.accounts) {
          AccountsHaveSlots(end.accounts);
          var j :| 0 <= j < |end.accounts| && end.accounts[j].slot == w.rows[i].slot;
        }
      }
    }
  }

  /** In every reachable ledger, broken runs included, one account has at most one holder
      at a time, and the reading by date finds that one. */
  lemma OneHolderAtATime(w: World, steps: seq<Step>, slot: string, at: int, i: nat)
    requires Fresh(w) && Runs(w, steps)
    requires i < |After(w, steps).rows| && Covers(After(w, steps).rows[i], slot, at)
    ensures OwnerAt(After(w, steps).rows, slot, at) == Some(After(w, steps).rows[i])
    ensures forall j :: 0 <= j < |After(w, steps).rows| && Covers(After(w, steps).rows[j], slot, at) ==> i == j
  {
    RunKeepsInv(w, steps);
    OwnerIsTheCoveringRow(After(w, steps).rows, slot, at);
  }

  datatype Person = Person(email: string, code: string)

  function Named(owner: Option<Row>): Option<Person> {
    if owner.None? then None else Some(Person(owner.value.email, owner.value.code))
  }

  /** Booking changes neither the past nor the accounts it is not about. */
  lemma {:induction false} BookingKeepsTheRest(rows: seq<Row>, slots: set<string>, accounts: seq<Account>, now: int, slot: string, at: int)
    requires at < now || (slot !in slots && forall i :: 0 <= i < |accounts| ==> accounts[i].slot != slot)
    ensures Named(OwnerAt(rows + Opened(accounts, now), slot, at)) == Named(OwnerAt(rows, slot, at))
    ensures Named(OwnerAt(Closed(rows, slots, now), slot, at)) == Named(OwnerAt(rows, slot, at))
    decreases |accounts| + |rows|
  {
    if accounts != [] {
      var n := |accounts| - 1;
      BookingKeepsTheRest(rows, slots, accounts[..n], now, slot, at);
      var more := rows + Opened(accounts, now);
      assert more[..|more| - 1] == rows + Opened(accounts[..n], now);
    } else {
      assert rows + Opened(accounts, now) == rows;
      if rows != [] {
        var n := |rows| - 1;
        BookingKeepsTheRest(rows[..n], slots, accounts, now, slot, at);
        assert Closed(rows, slots, now)[..n] == Closed(rows[..n], slots, now);
      }
    }
  }

  /** Nothing that happens later changes who held an account at a moment gone by. */
  lemma {:induction false} PastAttributionStands(w: World, steps: seq<Step>, slot: string, at: int)
    requires Runs(w, steps) && forall i :: 0 <= i < |steps| && steps[i].Sync? ==> at < steps[i].now
    ensures Named(OwnerAt(After(w, steps).rows, slot, at)) == Named(OwnerAt(w.rows, slot, at))
    decreases |steps|
  {
    if steps != [] {
      var s := steps[0];
      hide Breaks, Synced;
      if s.Sync? && !Breaks(w, s) {
        var accounts := Synced(w, s).accounts;
        var closed := if s.rewrite then Closed(w.rows, Slots(accounts), s.now) else w.rows;
        BookingKeepsTheRest(w.rows, Slots(accounts), [], s.now, slot, at);
        BookingKeepsTheRest(closed, {}, accounts, s.now, slot, at);
        assert Apply(w, s).rows == closed + Opened(accounts, s.now);
      }
      PastAttributionStands(Apply(w, s), steps[1..], slot, at);
    }
  }

  /** From a finished run on, an account it wrote is held by whom it wrote there, and every
      other by whoever held it. */
  lemma HolderFromNowOn(w: World, s: Step, slot: string, at: int)
    requires Inv(w) && Enabled(w, s) && s.Sync? && !Breaks(w, s) && s.now <= at
    ensures var accounts, holder := Synced(w, s).accounts, Named(OwnerAt(Apply(w, s).rows, slot, at));
            && (forall i :: 0 <= i < |accounts| && accounts[i].slot == slot ==> holder == Some(Person(accounts[i].email, accounts[i].code)))
            && ((forall i :: 0 <= i < |accounts| ==> accounts[i].slot != slot) ==> holder == Named(OwnerAt(w.rows, slot, at)))
  {
    hide Breaks, Synced, CodesDiffer, ListsAccounts, InSequence;
    var accounts, rows := Synced(w, s).accounts, Apply(w, s).rows;
    StepKeepsInv(w, s);
    OwnerIsTheCoveringRow(rows, slot, at);
    var closed := if s.rewrite then Closed(w.rows, Slots(accounts), s.now) else w.rows;
    assert rows == closed + Opened(accounts, s.now);
    if i :| 0 <= i < |accounts| && accounts[i].slot == slot {
      forall j | 0 <= j < |accounts| && accounts[j].slot == slot
        ensures Named(OwnerAt(rows, slot, at)) == Some(Person(accounts[j].email, accounts[j].code))
      {
        assert Covers(rows[|closed| + j], slot, at);
      }
    } else {
      BookingKeepsTheRest(w.rows, Slots(accounts), [], s.now, slot, at);
      BookingKeepsTheRest(closed, {}, accounts, s.now, slot, at);
    }
  }

  /** Whom a run has to write: everybody on a rewrite, and otherwise those whose code is in
      no live row. */
  lemma ToWriteExactlyWhen(w: World, s: Step, who: Identity)
    requires s.Sync?
    ensures who in ToWrite(w, s) <==>
            who in s.plan && (s.rewrite || forall i :: 0 <= i < |w.rows| && Live(w.rows[i]) ==> w.rows[i].code != who.code)
  {
    PendingIsTheUnseen(s.plan, if s.rewrite then {} else LiveCodes(w.rows));
    assert who.code in LiveCodes(w.rows) <==> exists i :: 0 <= i < |w.rows| && Live(w.rows[i]) && w.rows[i].code == who.code;
  }

  /** After a clean additive run (no error, nobody refused, the copier not full) everybody
      in the plan is on record, so running it again writes nothing. */
  lemma RerunWritesNothing(w: World, s: Step)
    requires s.Sync? && !s.rewrite && !Breaks(w, s) && Synced(w, s).failed == 0 && !Synced(w, s).stopped
    ensures Pending(s.plan, LiveCodes(Apply(w, s).rows)) == []
  {
    hide Decimal, Numeral, Accepts, Broken;
    var pending := ToWrite(w, s);
    var end := Synced(w, s);
    CleanRunAddsEverybody(w.table, s.listing, pending, s.refuses, |pending|);
    var rows := Apply(w, s).rows;
    assert rows == w.rows + Opened(end.accounts, s.now);
    LiveCodesGrow(w.rows, end.accounts, s.now);
    PendingIsTheUnseen(s.plan, LiveCodes(w.rows));
    hide LiveCodes, Apply, Booked, Opened, Synced;
    forall who | who in s.plan && who.code !in LiveCodes(w.rows)
      ensures who.code in LiveCodes(rows)
    {
      var k :| 0 <= k < |pending| && pending[k] == who;
      assert end.accounts[k].code == who.code;
    }
    PendingIsTheUnseen(s.plan, LiveCodes(rows));
  }

  lemma LiveCodesGrow(rows: seq<Row>, accounts: seq<Account>, now: int)
    ensures LiveCodes(rows) <= LiveCodes(rows + Opened(accounts, now))
    ensures forall k :: 0 <= k < |accounts| ==> accounts[k].code in LiveCodes(rows + Opened(accounts, now))
  {
    var all := rows + Opened(accounts, now);
    assert forall i :: 0 <= i < |rows| ==> all[i] == rows[i];
    forall k | 0 <= k < |accounts|
      ensures accounts[k].code in LiveCodes(all)
    {
      var i := |rows| + k;
      assert all[i] == Opened(accounts, now)[k];
      assert Live(all[i]) && all[i].code == accounts[k].code;
    }
  }

  lemma {:induction false} CleanRunAddsEverybody(
    table: map<string, string>, listing: seq<string>, pending: seq<Identity>, refuses: nat -> bool, done: nat)
    requires done <= |pending|
    requires var p := Progressed(Start(table, listing), |listing|, pending, false, refuses, done);
             p.failed == 0 && !p.stopped
    ensures var p := Progressed(Start(table, listing), |listing|, pending, false, refuses, done);
            |p.accounts| == done && forall i :: 0 <= i < done ==> p.accounts[i].code == pending[i].code
  {
    hide Decimal, Numeral, Accepts;
    if done > 0 {
      CleanRunAddsEverybody(table, listing, pending, refuses, done - 1);
    }
  }

  /** Whom a broken additive run had added is on the device under the number given, and,
      if the ledger did not know their code before, still in the plan of the next run. */
  lemma StrandedAreOnTheDevice(w: World, s: Step, i: nat)
    requires Inv(w) && Enabled(w, s) && s.Sync? && !s.rewrite && Breaks(w, s) && i < |Synced(w, s).accounts|
    ensures var a := Synced(w, s).accounts[i];
            && a.slot in Apply(w, s).table && Apply(w, s).table[a.slot] == a.code
            && a.code !in LiveCodes(Apply(w, s).rows)
  {
    hide ListsAccounts, CodesDiffer, InSequence, LiveCodes, Progressed;
    SyncFits(w, s);
    WrittenWereWanted(Start(w.table, s.listing), |s.listing|, ToWrite(w, s), s.refuses, s.lost.value, i);
    PendingIsTheUnseen(s.plan, LiveCodes(w.rows));
  }

  /** Every account of an additive run is of somebody it had to write. */
  lemma {:induction false} WrittenWereWanted(start: Progress, existingCount: nat, pending: seq<Identity>, refuses: nat -> bool, done: nat, i: nat)
    requires done <= |pending| && start.accounts == []
    requires i < |Progressed(start, existingCount, pending, false, refuses, done).accounts|
    ensures var a := Progressed(start, existingCount, pending, false, refuses, done).accounts[i];
            Identity(a.email, a.code) in pending
  {
    hide Decimal, Numeral, Accepts;
    if done > 0 && i < |Progressed(start, existingCount, pending, false, refuses, done - 1).accounts| {
      WrittenWereWanted(start, existingCount, pending, refuses, done - 1, i);
    } else if done > 0 {
      assert pending[done - 1] in pending;
      assert Progressed(start, existingCount, pending, false, refuses, done).accounts[i].code == pending[done - 1].code;
    }
  }

  /** But the copier holds their code, so no later additive run can add them. */
  lemma StrandedAreRefused(w: World, s: Step, slot: string, i: nat)
    requires s.Sync? && !s.rewrite && Enabled(w, s) && CodesDiffer(w.table)
    requires slot in w.table && i < |Synced(w, s).accounts|
    ensures Synced(w, s).accounts[i].code != w.table[slot]
  {
    hide ListsAccounts, Synced;
    SyncFits(w, s);
    var end := Synced(w, s);
    AccountsHaveSlots(end.accounts);
    assert end.accounts[i].slot in Slots(end.accounts);
  }
}
