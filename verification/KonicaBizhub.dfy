/** apps/api/app/copiers/konica_bizhub.py: `sync_users_to_device`, against a copier
    whose table of accounts can be written but whose codes can never be read. */
module KonicaBizhub {
  import opened Prelude
  import opened KonicaAdmin
  import Query

  datatype Identity = Identity(email: string, code: string)
  datatype Account = Account(email: string, code: string, slot: string)
  datatype SyncResult = SyncResult(synced: nat, failed: nat, skipped: nat, accounts: seq<Account>)

  // ---- Decimal account numbers ----

  function Decimal(n: nat): (s: string)
    ensures s != ""
  {
    if n < 10 then [Digit(n)] else Decimal(n / 10) + [Digit(n % 10)]
  }

  function Digit(d: nat): char
    requires d < 10
  {
    ['0', '1', '2', '3', '4', '5', '6', '7', '8', '9'][d]
  }

  /** The number a string of digits stands for; junk digits count as zero. */
  function Numeral(s: string): nat {
    if s == "" then 0
    else 10 * Numeral(s[..|s| - 1]) + (var c := s[|s| - 1]; if '0' <= c <= '9' then c as nat - '0' as nat else 0)
  }

  /** Printing a number loses nothing, so different numbers print differently. */
  lemma {:induction false} NumeralOfDecimal(n: nat)
    ensures Numeral(Decimal(n)) == n
  {
    if n < 10 {
      assert Decimal(n)[..0] == "";
    } else {
      NumeralOfDecimal(n / 10);
      assert Decimal(n)[..|Decimal(n)| - 1] == Decimal(n / 10);
    }
  }

  /** A number is printed in digits, with no zero in front. */
  lemma {:induction false} DecimalIsPlain(n: nat)
    ensures forall i :: 0 <= i < |Decimal(n)| ==> '0' <= Decimal(n)[i] <= '9'
    ensures Decimal(n)[0] == '0' ==> n == 0
  {
    if n >= 10 {
      DecimalIsPlain(n / 10);
    }
  }

  /** The numbers at `from` or above that are in use. */
  function UsedFrom(used: set<string>, from: nat): set<string> {
    set s | s in used && Numeral(s) >= from
  }

  lemma UsedShrinks(used: set<string>, from: nat)
    requires Decimal(from) in used
    ensures UsedFrom(used, from + 1) < UsedFrom(used, from)
  {
    NumeralOfDecimal(from);
    assert Decimal(from) in UsedFrom(used, from) && Decimal(from) !in UsedFrom(used, from + 1);
  }

  /** `while str(next_number) in used_numbers`: it ends because only finitely many
      numbers are in use and no two of them print alike. */
  method ScanForFree(used: set<string>, from: nat) returns (n: nat)
    ensures IsLeastFree(used, from, n)
  {
    hide Decimal, Numeral;
    n := from;
    while Decimal(n) in used
      invariant from <= n && forall k :: from <= k < n ==> Decimal(k) in used
      decreases UsedFrom(used, n)
    {
      UsedShrinks(used, n);
      n := n + 1;
    }
  }

  predicate IsLeastFree(used: set<string>, from: nat, n: nat) {
    from <= n && Decimal(n) !in used && forall k :: from <= k < n ==> Decimal(k) in used
  }

  function LeastFree(used: set<string>, from: nat): (n: nat)
    ensures IsLeastFree(used, from, n)
    decreases UsedFrom(used, from)
  {
    hide Numeral;
    if Decimal(from) in used then
      UsedShrinks(used, from);
      LeastFree(used, from + 1)
    else from
  }

  // ---- The copier ----

  /** A write goes through unless the copier has its own reason to refuse, another
      account already has the code, or a new account would land on an old one. */
  predicate Accepts(table: map<string, string>, slot: string, code: string, replaceExisting: bool, refused: bool) {
    && !refused
    && (replaceExisting || slot !in table)
    && forall s :: s in table && table[s] == code ==> s == slot
  }

  class Copier {
    /** Account number to code. */
    var table: map<string, string>

    constructor (table: map<string, string>)
      ensures this.table == table
    {
      this.table := table;
    }

    method WriteAccount(slot: string, code: string, replaceExisting: bool, refused: bool) returns (ok: bool)
      modifies this
      ensures ok <==> Accepts(old(table), slot, code, replaceExisting, refused)
      ensures table == if ok then old(table)[slot := code] else old(table)
    {
      ok := Accepts(table, slot, code, replaceExisting, refused);
      if ok {
        table := table[slot := code];
      }
    }
  }

  // ---- What a sync does, one person at a time ----

  /** The device and the loop's variables part-way through a sync. */
  datatype Progress = Progress(
    table: map<string, string>, used: set<string>, next: nat, accounts: seq<Account>, failed: nat, stopped: bool)

  function Rewrite(p: Progress, index: nat, who: Identity, refused: bool): Progress {
    var slot := Decimal(index + 1);
    if Accepts(p.table, slot, who.code, true, refused) then
      p.(table := p.table[slot := who.code], accounts := p.accounts + [Account(who.email, who.code, slot)])
    else
      p.(failed := p.failed + 1)
  }

  function Add(p: Progress, existingCount: nat, who: Identity, refused: bool): Progress {
    if p.stopped then p
    else if existingCount + |p.accounts| >= MAX_ACCOUNTS then p.(stopped := true)
    else
      var n := LeastFree(p.used, p.next);
      var slot := Decimal(n);
      if n > MAX_ACCOUNTS then p.(next := n, stopped := true)
      else if Accepts(p.table, slot, who.code, false, refused) then
        p.(next := n, table := p.table[slot := who.code], used := p.used + {slot},
           accounts := p.accounts + [Account(who.email, who.code, slot)])
      else
        p.(next := n, failed := p.failed + 1)
  }

  /** After the first `done` people. */
  function Progressed(
    start: Progress, existingCount: nat, pending: seq<Identity>, rewrite: bool, refuses: nat -> bool, done: nat): Progress
    requires done <= |pending|
  {
    if done == 0 then start
    else
      var p := Progressed(start, existingCount, pending, rewrite, refuses, done - 1);
      if rewrite then Rewrite(p, done - 1, pending[done - 1], refuses(done - 1))
      else Add(p, existingCount, pending[done - 1], refuses(done - 1))
  }

  function Pending(identities: seq<Identity>, seen: set<string>): (pending: seq<Identity>)
    ensures |pending| <= |identities|
  {
    if identities == [] then []
    else if identities[0].code in seen then Pending(identities[1..], seen)
    else [identities[0]] + Pending(identities[1..], seen)
  }

  lemma {:induction false} PendingIsTheUnseen(identities: seq<Identity>, seen: set<string>)
    ensures forall who :: who in Pending(identities, seen) <==> who in identities && who.code !in seen
    ensures Pending(identities, seen) == [] <==> forall who :: who in identities ==> who.code in seen
  {
    if identities != [] {
      PendingIsTheUnseen(identities[1..], seen);
    }
  }

  function Start(table: map<string, string>, listing: seq<string>): Progress {
    Progress(table, set s | s in listing, 1, [], 0, false)
  }

  function Finish(
    table: map<string, string>, listing: seq<string>, pending: seq<Identity>, rewrite: bool, refuses: nat -> bool): Progress
  {
    Progressed(Start(table, listing), |listing|, pending, rewrite, refuses, |pending|)
  }

  /** Whether the connection breaks in time to matter: before person `lost`, or after the
      last on the way out, unless the run has stopped by then. */
  predicate Broken(
    start: Progress, existingCount: nat, pending: seq<Identity>, rewrite: bool, refuses: nat -> bool, lost: Option<nat>)
  {
    && lost.Some? && lost.value <= |pending|
    && !Progressed(start, existingCount, pending, rewrite, refuses, lost.value).stopped
  }

  lemma OnePersonMore(
    start: Progress, existingCount: nat, pending: seq<Identity>, rewrite: bool, refuses: nat -> bool, done: nat)
    requires done < |pending|
    ensures var p := Progressed(start, existingCount, pending, rewrite, refuses, done);
            Progressed(start, existingCount, pending, rewrite, refuses, done + 1)
            == if rewrite then Rewrite(p, done, pending[done], refuses(done)) else Add(p, existingCount, pending[done], refuses(done))
  {
    hide Rewrite, Add;
  }

  /** One person of an additive run: the number they were added under, if they were. */
  method AddOne(
    copier: Copier, used: set<string>, next: nat, taken: nat, who: Identity, refused: bool,
    ghost p: Progress, ghost existingCount: nat)
    returns (added: Option<string>, free: nat, stopped: bool)
    requires p.table == copier.table && p.used == used && p.next == next && !p.stopped && taken == existingCount + |p.accounts|
    modifies copier
    ensures Add(p, existingCount, who, refused)
            == Progress(copier.table, if added.Some? then used + {added.value} else used, free,
                        if added.Some? then p.accounts + [Account(who.email, who.code, added.value)] else p.accounts,
                        if added.Some? || stopped then p.failed else p.failed + 1, stopped)
    ensures stopped ==> added.None?
  {
    hide Decimal, Numeral, Accepts;
    if taken >= MAX_ACCOUNTS {
      return None, next, true;
    }
    free := ScanForFree(used, next);
    LeastFreeIsUnique(used, next, LeastFree(used, next), free);
    if free > MAX_ACCOUNTS {
      return None, free, true;
    }
    var number := Decimal(free);
    var ok := copier.WriteAccount(number, who.code, false, refused);
    added, stopped := if ok then Some(number) else None, false;
  }

  /** What a caller that notes every so many people, and the last, has noted by then. */
  datatype Noted = Noted(synced: nat, failed: nat)

  function NotedAfter(
    start: Progress, existingCount: nat, pending: seq<Identity>, rewrite: bool, refuses: nat -> bool, every: nat, done: nat): Noted
    requires done <= |pending| && every > 0
  {
    if done == 0 then Noted(0, 0)
    else if done % every == 0 || done == |pending| then
      var p := Progressed(start, existingCount, pending, rewrite, refuses, done);
      Noted(|p.accounts|, p.failed)
    else NotedAfter(start, existingCount, pending, rewrite, refuses, every, done - 1)
  }

  /** `listing` is what `list_accounts` returned; `refuses(i)` says whether the copier
      turns down the i-th write for reasons of its own; `lost` when, if ever, an error
      other than a refusal ends the run, in which case there is no result but only what
      was `noted`, every so many people. */
  method SyncUsersToDevice(
    copier: Copier, listing: seq<string>, identities: seq<Identity>, alreadyProvisioned: set<string>,
    rewrite: bool, refuses: nat -> bool, lost: Option<nat>, every: nat) returns (result: Option<SyncResult>, noted: Noted)
    requires every > 0
    modifies copier
    ensures var seen := if rewrite then {} else alreadyProvisioned;
            var pending := Pending(identities, seen);
            var start := Start(old(copier.table), listing);
            if Broken(start, |listing|, pending, rewrite, refuses, lost) then
              && copier.table == Progressed(start, |listing|, pending, rewrite, refuses, lost.value).table
              && result.None? && noted == NotedAfter(start, |listing|, pending, rewrite, refuses, every, lost.value)
            else
              var end := Finish(old(copier.table), listing, pending, rewrite, refuses);
              && copier.table == end.table
              && result == Some(SyncResult(|end.accounts|, end.failed, |identities| - |pending|, end.accounts))
  {
    hide Decimal, Numeral, Accepts, Progressed, Add;
    var seen := if rewrite then {} else alreadyProvisioned;
    var pending := Pending(identities, seen);
    var skipped := |identities| - |pending|;
    var accounts: seq<Account>, synced: nat, failed: nat := [], 0, 0;
    var usedNumbers, existingCount, nextNumber: nat := (set s | s in listing), |listing|, 1;
    ghost var start := Start(copier.table, listing);
    NobodyYet(start, existingCount, pending, rewrite, refuses);
    noted := Noted(0, 0);
    var stopped := false;
    var index := 0;
    while index < |pending| && !stopped
      invariant index <= |pending| && synced == |accounts|
      invariant !rewrite || !stopped
      invariant lost.Some? ==> index <= lost.value
      invariant !stopped ==> noted == NotedAfter(start, existingCount, pending, rewrite, refuses, every, index)
      invariant Progressed(start, existingCount, pending, rewrite, refuses, index)
                == Progress(copier.table, usedNumbers, nextNumber, accounts, failed, stopped)
    {
      if lost == Some(index) {
        return None, noted;
      }
      var who := pending[index];
      OnePersonMore(start, existingCount, pending, rewrite, refuses, index);
      if rewrite {
        var number := Decimal(index + 1);
        var ok := copier.WriteAccount(number, who.code, true, refuses(index));
        if ok {
          synced := synced + 1;
          accounts := accounts + [Account(who.email, who.code, number)];
        } else {
          failed := failed + 1;
        }
      } else {
        ghost var p := Progress(copier.table, usedNumbers, nextNumber, accounts, failed, stopped);
        var added;
        added, nextNumber, stopped :=
          AddOne(copier, usedNumbers, nextNumber, existingCount + synced, who, refuses(index), p, existingCount);
        if added.Some? {
          usedNumbers := usedNumbers + {added.value};
          synced := synced + 1;
          accounts := accounts + [Account(who.email, who.code, added.value)];
        } else if !stopped {
          failed := failed + 1;
        }
      }
      index := index + 1;
      if !stopped && (index % every == 0 || index == |pending|) {
        noted := Noted(synced, failed);
      }
    }
    if stopped {
      StoppedStaysStopped(start, existingCount, pending, refuses, index, |pending|);
      if lost.Some? && lost.value <= |pending| {
        StoppedStaysStopped(start, existingCount, pending, refuses, index, lost.value);
      }
    } else if lost == Some(index) {
      return None, noted;
    }
    result := Some(SyncResult(synced, failed, skipped, accounts));
  }

  lemma NobodyYet(start: Progress, existingCount: nat, pending: seq<Identity>, rewrite: bool, refuses: nat -> bool)
    ensures Progressed(start, existingCount, pending, rewrite, refuses, 0) == start
  {
  }

  lemma LeastFreeIsUnique(used: set<string>, from: nat, a: nat, b: nat)
    requires IsLeastFree(used, from, a) && IsLeastFree(used, from, b)
    ensures a == b
  {
  }

  lemma {:induction false} StoppedStaysStopped(
    start: Progress, existingCount: nat, pending: seq<Identity>, refuses: nat -> bool, at: nat, done: nat)
    requires at <= done <= |pending|
    requires Progressed(start, existingCount, pending, false, refuses, at).stopped
    ensures Progressed(start, existingCount, pending, false, refuses, done)
            == Progressed(start, existingCount, pending, false, refuses, at)
  {
    hide Decimal, Numeral, Accepts, LeastFree;
    if at < done {
      StoppedStaysStopped(start, existingCount, pending, refuses, at, done - 1);
    }
  }

  // ---- What holds at every point of a sync ----

  /** No two accounts answer to the same code. */
  ghost predicate CodesDiffer(table: map<string, string>) {
    forall s, t :: s in table && t in table && table[s] == table[t] ==> s == t
  }

  /** `list_accounts` returns the account numbers, each once, up to the limit. */
  ghost predicate ListsAccounts(listing: seq<string>, table: map<string, string>) {
    && (forall i, j :: 0 <= i < j < |listing| ==> listing[i] != listing[j])
    && (forall s :: s in listing ==> s in table)
    && (|table| <= MAX_ACCOUNTS ==> forall s :: s in table ==> s in listing)
    && (|table| > MAX_ACCOUNTS ==> |listing| == MAX_ACCOUNTS)
  }

  /** What `list_accounts` reads off the device, at its limit, is such a listing. */
  lemma ListingListsAccounts(device: seq<string>, table: map<string, string>)
    requires forall i, j :: 0 <= i < j < |device| ==> device[i] != device[j]
    requires forall s :: s in device <==> s in table
    ensures ListsAccounts(device[..Min(MAX_ACCOUNTS, |device|)], table)
  {
    var members := set k | 0 <= k < |device| :: device[k];
    Query.DistinctSize(device);
    assert members == table.Keys;
    assert |device| <= MAX_ACCOUNTS ==> device[..|device|] == device;
  }

  function Slots(accounts: seq<Account>): set<string> {
    set i | 0 <= i < |accounts| :: accounts[i].slot
  }

  lemma SlotsOfAppend(accounts: seq<Account>, a: Account)
    ensures Slots(accounts + [a]) == Slots(accounts) + {a.slot}
  {
    var more := accounts + [a];
    assert more[|accounts|] == a;
    assert forall i :: 0 <= i < |accounts| ==> more[i] == accounts[i];
  }

  /** The accounts so far are written where they say, at different numbers, and are
      all that has changed on the device. */
  ghost predicate Recorded(table: map<string, string>, p: Progress) {
    && (forall i, j :: 0 <= i < j < |p.accounts| ==> p.accounts[i].slot != p.accounts[j].slot)
    && (forall i :: 0 <= i < |p.accounts| ==>
         p.accounts[i].slot in p.table && p.table[p.accounts[i].slot] == p.accounts[i].code)
    && p.table.Keys == table.Keys + Slots(p.accounts)
    && (forall s :: s in table && s !in Slots(p.accounts) ==> p.table[s] == table[s])
  }

  /** What only an additive run promises: old accounts stand, and numbers are given
      out from the bottom. */
  ghost predicate FromTheBottom(table: map<string, string>, listing: seq<string>, p: Progress) {
    && Slots(p.accounts) !! table.Keys
    && p.used == (set s | s in listing) + Slots(p.accounts)
    && 1 <= p.next && (forall k :: 1 <= k < p.next ==> Decimal(k) in p.used)
    && (forall i :: 0 <= i < |p.accounts| ==> IsNumberUpTo(p.accounts[i].slot, p.next))
  }

  /** At the moment a number is given it is free, and none below it is. */
  ghost predicate IsLeastThen(listing: seq<string>, earlier: seq<Account>, slot: string) {
    && slot !in listing && slot !in Slots(earlier)
    && forall k :: 1 <= k < Numeral(slot) ==> Decimal(k) in listing || Decimal(k) in Slots(earlier)
  }

  ghost predicate EachTheLeast(listing: seq<string>, accounts: seq<Account>) {
    forall i :: 0 <= i < |accounts| ==> IsLeastThen(listing, accounts[..i], accounts[i].slot)
  }

  lemma OneMoreTheLeast(listing: seq<string>, accounts: seq<Account>, a: Account)
    requires EachTheLeast(listing, accounts) && IsLeastThen(listing, accounts, a.slot)
    ensures EachTheLeast(listing, accounts + [a])
  {
    hide IsLeastThen;
    var more := accounts + [a];
    forall i | 0 <= i < |more|
      ensures IsLeastThen(listing, more[..i], more[i].slot)
    {
      if i < |accounts| {
        assert more[..i] == accounts[..i] && more[i] == accounts[i];
      } else {
        assert more[..i] == accounts && more[i] == a;
      }
    }
  }

  lemma GivenIsLeast(table: map<string, string>, listing: seq<string>, p: Progress, n: nat)
    requires FromTheBottom(table, listing, p) && IsLeastFree(p.used, p.next, n)
    ensures IsLeastThen(listing, p.accounts, Decimal(n))
  {
    hide Decimal, Numeral;
    NumeralOfDecimal(n);
  }

  predicate IsNumberUpTo(slot: string, bound: nat) {
    var n := Numeral(slot);
    1 <= n <= bound && n <= MAX_ACCOUNTS && slot == Decimal(n)
  }

  lemma AcceptedWriteKeepsCodesDifferent(table: map<string, string>, slot: string, code: string, replace: bool, refused: bool)
    requires CodesDiffer(table) && Accepts(table, slot, code, replace, refused)
    ensures CodesDiffer(table[slot := code])
  {
  }

  lemma WriteIsRecorded(table: map<string, string>, p: Progress, q: Progress, a: Account)
    requires Recorded(table, p) && a.slot !in Slots(p.accounts)
    requires q.accounts == p.accounts + [a] && q.table == p.table[a.slot := a.code]
    ensures Recorded(table, q) && Slots(q.accounts) == Slots(p.accounts) + {a.slot}
  {
    SlotsOfAppend(p.accounts, a);
    forall i | 0 <= i < |p.accounts|
      ensures q.accounts[i] == p.accounts[i] && p.accounts[i].slot in Slots(p.accounts)
    {
    }
  }

  lemma AddKeepsPromises(table: map<string, string>, listing: seq<string>, p: Progress, who: Identity, refused: bool)
    requires ListsAccounts(listing, table)
    requires Recorded(table, p) && FromTheBottom(table, listing, p) && CodesDiffer(p.table)
    ensures var q := Add(p, |listing|, who, refused);
            Recorded(table, q) && FromTheBottom(table, listing, q) && CodesDiffer(q.table)
  {
    hide Decimal, Numeral, Recorded, CodesDiffer, Slots, Accepts, FromTheBottom;
    var q := Add(p, |listing|, who, refused);
    if q.accounts != p.accounts {
      var a := Account(who.email, who.code, Decimal(q.next));
      FreeNumberIsNew(table, listing, p, a.slot);
      WriteIsRecorded(table, p, q, a);
      AcceptedWriteKeepsCodesDifferent(p.table, a.slot, a.code, false, refused);
      NumberGivenFromTheBottom(table, listing, p, q, a);
    } else {
      SameAccountsSameRecord(table, p, q);
      if q.next != p.next {
        NothingGivenFromTheBottom(table, listing, p, q);
      } else {
        assert q == p || q == p.(stopped := true) || q == p.(failed := p.failed + 1);
        SameNextSameBottom(table, listing, p, q);
      }
    }
  }

  lemma SameNextSameBottom(table: map<string, string>, listing: seq<string>, p: Progress, q: Progress)
    requires FromTheBottom(table, listing, p)
    requires q.accounts == p.accounts && q.used == p.used && q.next == p.next
    ensures FromTheBottom(table, listing, q)
  {
  }

  lemma NothingGivenFromTheBottom(table: map<string, string>, listing: seq<string>, p: Progress, q: Progress)
    requires FromTheBottom(table, listing, p)
    requires q.accounts == p.accounts && q.used == p.used && IsLeastFree(p.used, p.next, q.next)
    ensures FromTheBottom(table, listing, q)
  {
    hide Decimal, Numeral, Slots;
  }

  lemma NumberGivenFromTheBottom(table: map<string, string>, listing: seq<string>, p: Progress, q: Progress, a: Account)
    requires FromTheBottom(table, listing, p)
    requires IsLeastFree(p.used, p.next, q.next) && q.next <= MAX_ACCOUNTS && a.slot == Decimal(q.next) && a.slot !in table
    requires q.accounts == p.accounts + [a] && q.used == p.used + {a.slot}
    ensures FromTheBottom(table, listing, q)
  {
    hide Decimal, Numeral, Slots;
    NumeralOfDecimal(q.next);
    SlotsOfAppend(p.accounts, a);
  }

  lemma FreeNumberIsNew(table: map<string, string>, listing: seq<string>, p: Progress, slot: string)
    requires ListsAccounts(listing, table) && FromTheBottom(table, listing, p)
    requires |listing| < MAX_ACCOUNTS && slot !in p.used
    ensures slot !in table && slot !in Slots(p.accounts)
  {
  }

  lemma SameAccountsSameRecord(table: map<string, string>, p: Progress, q: Progress)
    requires Recorded(table, p) && q.accounts == p.accounts && q.table == p.table
    ensures Recorded(table, q)
  {
  }

  ghost predicate NumberedUpTo(accounts: seq<Account>, bound: nat) {
    forall s :: s in Slots(accounts) ==> 1 <= Numeral(s) <= bound
  }

  lemma RewriteKeepsPromises(table: map<string, string>, p: Progress, index: nat, who: Identity, refused: bool)
    requires Recorded(table, p) && CodesDiffer(p.table) && NumberedUpTo(p.accounts, index)
    ensures var q := Rewrite(p, index, who, refused);
            Recorded(table, q) && CodesDiffer(q.table) && NumberedUpTo(q.accounts, index + 1)
  {
    hide Decimal, Numeral, Recorded, CodesDiffer, Slots, Accepts;
    var q := Rewrite(p, index, who, refused);
    if q.accounts != p.accounts {
      var a := Account(who.email, who.code, Decimal(index + 1));
      NumeralOfDecimal(index + 1);
      WriteIsRecorded(table, p, q, a);
      AcceptedWriteKeepsCodesDifferent(p.table, a.slot, a.code, true, refused);
    } else {
      SameAccountsSameRecord(table, p, q);
    }
  }

  lemma {:induction false} AdditivePromises(
    table: map<string, string>, listing: seq<string>, pending: seq<Identity>, refuses: nat -> bool, done: nat)
    requires done <= |pending| && ListsAccounts(listing, table) && CodesDiffer(table)
    ensures var p := Progressed(Start(table, listing), |listing|, pending, false, refuses, done);
            Recorded(table, p) && FromTheBottom(table, listing, p) && CodesDiffer(p.table)
  {
    hide Decimal, Numeral, ListsAccounts, CodesDiffer;
    if done > 0 {
      hide Recorded, FromTheBottom, Add;
      AdditivePromises(table, listing, pending, refuses, done - 1);
      var p := Progressed(Start(table, listing), |listing|, pending, false, refuses, done - 1);
      AddKeepsPromises(table, listing, p, pending[done - 1], refuses(done - 1));
    }
  }

  lemma {:induction false} EachGetsTheLeast(
    table: map<string, string>, listing: seq<string>, pending: seq<Identity>, refuses: nat -> bool, done: nat)
    requires done <= |pending| && ListsAccounts(listing, table) && CodesDiffer(table)
    ensures EachTheLeast(listing, Progressed(Start(table, listing), |listing|, pending, false, refuses, done).accounts)
  {
    hide Decimal, Numeral, ListsAccounts, CodesDiffer, Recorded, FromTheBottom, Accepts;
    if done > 0 {
      hide EachTheLeast;
      EachGetsTheLeast(table, listing, pending, refuses, done - 1);
      AdditivePromises(table, listing, pending, refuses, done - 1);
      var p := Progressed(Start(table, listing), |listing|, pending, false, refuses, done - 1);
      var q := Add(p, |listing|, pending[done - 1], refuses(done - 1));
      if q.accounts != p.accounts {
        var a := Account(pending[done - 1].email, pending[done - 1].code, Decimal(q.next));
        assert q.accounts == p.accounts + [a];
        GivenIsLeast(table, listing, p, q.next);
        OneMoreTheLeast(listing, p.accounts, a);
      }
    }
  }

  lemma NothingRewrittenYet(table: map<string, string>, listing: seq<string>)
    ensures Recorded(table, Start(table, listing)) && NumberedUpTo(Start(table, listing).accounts, 0)
  {
  }

  lemma {:induction false} RewritePromises(
    table: map<string, string>, listing: seq<string>, pending: seq<Identity>, refuses: nat -> bool, done: nat)
    requires done <= |pending| && CodesDiffer(table)
    ensures var p := Progressed(Start(table, listing), |listing|, pending, true, refuses, done);
            Recorded(table, p) && CodesDiffer(p.table) && NumberedUpTo(p.accounts, done)
  {
    hide Decimal, Numeral, CodesDiffer, Recorded, NumberedUpTo, Rewrite, Add;
    if done == 0 {
      NothingRewrittenYet(table, listing);
    } else {
      RewritePromises(table, listing, pending, refuses, done - 1);
      var p := Progressed(Start(table, listing), |listing|, pending, true, refuses, done - 1);
      RewriteKeepsPromises(table, p, done - 1, pending[done - 1], refuses(done - 1));
    }
  }

  // ---- Main results ----

  /** An additive run changes no account that was there, and gives each new one a number
      from 1 to 1000 that no account had, the least that was free when it was given. */
  lemma NewAccountsGetTheLeastFreeNumbers(
    table: map<string, string>, listing: seq<string>, pending: seq<Identity>, refuses: nat -> bool)
    requires ListsAccounts(listing, table) && CodesDiffer(table)
    ensures var end := Finish(table, listing, pending, false, refuses);
            && (forall s :: s in table ==> s in end.table && end.table[s] == table[s])
            && (forall i, j :: 0 <= i < j < |end.accounts| ==> end.accounts[i].slot != end.accounts[j].slot)
            && (forall i :: 0 <= i < |end.accounts| ==>
                 && end.accounts[i].slot !in table
                 && IsNumberUpTo(end.accounts[i].slot, MAX_ACCOUNTS)
                 && IsLeastThen(listing, end.accounts[..i], end.accounts[i].slot))
  {
    hide Decimal, Numeral, IsLeastThen;
    EachGetsTheLeast(table, listing, pending, refuses, |pending|);
    AdditivePromises(table, listing, pending, refuses, |pending|);
    var end := Finish(table, listing, pending, false, refuses);
    forall i | 0 <= i < |end.accounts|
      ensures end.accounts[i].slot in Slots(end.accounts)
    {
    }
  }

  /** The two reasons to stop early. */
  ghost predicate IsFull(p: Progress, existingCount: nat, from: nat) {
    || existingCount + |p.accounts| >= MAX_ACCOUNTS
    || forall k :: from <= k <= MAX_ACCOUNTS ==> Decimal(k) in p.used
  }

  /** What the counts say part-way. */
  ghost predicate Counted(start: Progress, existingCount: nat, rewrite: bool, p: Progress, done: nat) {
    && |p.accounts| + p.failed <= done
    && (!p.stopped ==> |p.accounts| + p.failed == done)
    && (p.stopped ==> |p.accounts| + p.failed < done && !rewrite && IsFull(p, existingCount, start.next))
    && start.used <= p.used && start.next <= p.next
    && (!rewrite ==> forall k :: start.next <= k < p.next ==> Decimal(k) in p.used)
  }

  lemma AddIsCounted(start: Progress, existingCount: nat, p: Progress, done: nat, who: Identity, refused: bool)
    requires Counted(start, existingCount, false, p, done)
    ensures Counted(start, existingCount, false, Add(p, existingCount, who, refused), done + 1)
  {
    hide Decimal, Numeral, Accepts;
  }

  lemma RewriteIsCounted(start: Progress, existingCount: nat, p: Progress, done: nat, who: Identity, refused: bool)
    requires Counted(start, existingCount, true, p, done)
    ensures Counted(start, existingCount, true, Rewrite(p, done, who, refused), done + 1)
  {
    hide Decimal, Numeral, Accepts;
  }

  /** Everybody is accounted for: skipped, added, refused, or not reached, and some
      are not reached only when the copier was full. */
  lemma {:induction false} EverybodyIsCounted(
    start: Progress, existingCount: nat, pending: seq<Identity>, rewrite: bool, refuses: nat -> bool, done: nat)
    requires done <= |pending| && start.accounts == [] && start.failed == 0 && !start.stopped
    ensures Counted(start, existingCount, rewrite, Progressed(start, existingCount, pending, rewrite, refuses, done), done)
  {
    if done == 0 {
      hide Decimal, Numeral;
    } else {
      hide Counted, Add, Rewrite;
      EverybodyIsCounted(start, existingCount, pending, rewrite, refuses, done - 1);
      var p := Progressed(start, existingCount, pending, rewrite, refuses, done - 1);
      if rewrite {
        RewriteIsCounted(start, existingCount, p, done - 1, pending[done - 1], refuses(done - 1));
      } else {
        AddIsCounted(start, existingCount, p, done - 1, pending[done - 1], refuses(done - 1));
      }
    }
  }

  // ---- Exactly who is written ----

  /** No other account has the code. */
  ghost predicate CodeIsFree(table: map<string, string>, slot: string, code: string) {
    forall s :: s in table && s != slot ==> table[s] != code
  }

  /** Person i of a rewrite is written under number i + 1 if and only if the copier does not
      refuse and no other account has the code at that moment, whether or not the number
      was taken; and the account says whose it is. */
  lemma RewrittenExactlyWhen(start: Progress, existingCount: nat, pending: seq<Identity>, refuses: nat -> bool, i: nat)
    requires i < |pending|
    ensures var p := Progressed(start, existingCount, pending, true, refuses, i);
            var q := Progressed(start, existingCount, pending, true, refuses, i + 1);
            var who, slot := pending[i], Decimal(i + 1);
            if !refuses(i) && CodeIsFree(p.table, slot, who.code) then
              && q.accounts == p.accounts + [Account(who.email, who.code, slot)]
              && q.table == p.table[slot := who.code] && q.failed == p.failed
            else
              q.accounts == p.accounts && q.table == p.table && q.failed == p.failed + 1
  {
    hide Decimal, Numeral;
    OnePersonMore(start, existingCount, pending, true, refuses, i);
  }

  /** Every code is the copier's already, but under the number it is to have, or is new. */
  ghost predicate CodesFit(table: map<string, string>, pending: seq<Identity>) {
    && (forall i, s :: 0 <= i < |pending| && s in table && table[s] == pending[i].code ==> s == Decimal(i + 1))
    && (forall i, j :: 0 <= i < j < |pending| ==> pending[i].code != pending[j].code)
  }

  ghost predicate IsWrittenAs(a: Account, who: Identity, number: nat) {
    a == Account(who.email, who.code, Decimal(number))
  }

  /** So a rewrite that nothing refuses, with codes that are new to the copier or where they
      belong, writes everybody, in order, from number 1 on; also when it is run again. */
  lemma {:induction false} CleanRewriteWritesEverybody(
    table: map<string, string>, listing: seq<string>, pending: seq<Identity>, refuses: nat -> bool, done: nat)
    requires done <= |pending| && CodesFit(table, pending) && forall i :: 0 <= i < |pending| ==> !refuses(i)
    ensures var p := Progressed(Start(table, listing), |listing|, pending, true, refuses, done);
            && |p.accounts| == done && p.failed == 0
            && (forall i :: 0 <= i < done ==> IsWrittenAs(p.accounts[i], pending[i], i + 1))
            && (forall s :: s in p.table ==> (s in table && p.table[s] == table[s])
                                             || exists i :: 0 <= i < done && p.table[s] == pending[i].code)
  {
    hide Decimal, Numeral, Rewrite, Add;
    if done > 0 {
      CleanRewriteWritesEverybody(table, listing, pending, refuses, done - 1);
      RewrittenExactlyWhen(Start(table, listing), |listing|, pending, refuses, done - 1);
      var p := Progressed(Start(table, listing), |listing|, pending, true, refuses, done - 1);
      var q := Progressed(Start(table, listing), |listing|, pending, true, refuses, done);
      hide Progressed;
      assert CodeIsFree(p.table, Decimal(done), pending[done - 1].code);
      assert q.accounts == p.accounts + [Account(pending[done - 1].email, pending[done - 1].code, Decimal(done))];
      assert IsWrittenAs(q.accounts[done - 1], pending[done - 1], done);
      forall i | 0 <= i < done - 1
        ensures IsWrittenAs(q.accounts[i], pending[i], i + 1)
      {
        assert IsWrittenAs(p.accounts[i], pending[i], i + 1);
      }
    }
  }

  /** The numbers from 1 to 1000 as the copier writes them: a thousand different ones. */
  ghost function AllNumbers(): (all: seq<string>)
    ensures |all| == MAX_ACCOUNTS && forall k :: 0 <= k < MAX_ACCOUNTS ==> all[k] == Decimal(k + 1)
  {
    seq(MAX_ACCOUNTS, k requires 0 <= k => Decimal(k + 1))
  }

  lemma {:induction false} MembersNoMoreThanEntries(s: seq<string>)
    ensures |set x | x in s| <= |s|
  {
    if s != [] {
      MembersNoMoreThanEntries(Front(s));
      assert (set x | x in s) == (set x | x in Front(s)) + {Last(s)};
    }
  }

  /** While there are fewer than a thousand accounts, one of the numbers up to 1000 is free. */
  lemma RoomLeavesANumber(listing: seq<string>, accounts: seq<Account>)
    requires |listing| + |accounts| < MAX_ACCOUNTS
    ensures exists k: nat :: 1 <= k <= MAX_ACCOUNTS && Decimal(k) !in listing && Decimal(k) !in Slots(accounts)
  {
    hide Decimal, Numeral;
    var slots := seq(|accounts|, i requires 0 <= i < |accounts| => accounts[i].slot);
    var used := set x | x in listing + slots;
    MembersNoMoreThanEntries(listing + slots);
    if forall k: nat :: 1 <= k <= MAX_ACCOUNTS ==> Decimal(k) in listing || Decimal(k) in Slots(accounts) {
      var all := AllNumbers();
      forall x: nat, y: nat | x < y < |all|
        ensures all[x] != all[y]
      {
        NumeralOfDecimal(x + 1);
        NumeralOfDecimal(y + 1);
      }
      Query.DistinctSize(all);
      var numbers := set k | 0 <= k < |all| :: all[k];
      forall x | x in numbers
        ensures x in used
      {
        var k: nat :| k < |all| && all[k] == x;
        assert Decimal(k + 1) in listing || Decimal(k + 1) in Slots(accounts);
        if x in Slots(accounts) {
          var i :| 0 <= i < |accounts| && accounts[i].slot == x;
          assert slots[i] == x;
        }
      }
      Query.SmallerSet(numbers, used);
    }
  }

  /** Person i of an additive run is added if and only if there are fewer than a thousand
      accounts, the copier does not refuse, and no account has the code at that moment;
      under the least free number, and saying whose account it is. */
  lemma AddedExactlyWhen(table: map<string, string>, listing: seq<string>, pending: seq<Identity>, refuses: nat -> bool, i: nat)
    requires i < |pending| && ListsAccounts(listing, table) && CodesDiffer(table)
    ensures var p := Progressed(Start(table, listing), |listing|, pending, false, refuses, i);
            var q := Progressed(Start(table, listing), |listing|, pending, false, refuses, i + 1);
            var who, full := pending[i], |listing| + |p.accounts| >= MAX_ACCOUNTS;
            if !full && !refuses(i) && who.code !in p.table.Values then
              && |q.accounts| == |p.accounts| + 1 && IsLeastThen(listing, p.accounts, Last(q.accounts).slot)
              && q.accounts == p.accounts + [Account(who.email, who.code, Last(q.accounts).slot)]
              && q.table == p.table[Last(q.accounts).slot := who.code] && q.failed == p.failed
            else
              q.accounts == p.accounts && q.table == p.table && q.failed == p.failed + (if full then 0 else 1)
  {
    hide Decimal, Numeral, Recorded, CodesDiffer, ListsAccounts, FromTheBottom, Counted, IsLeastThen;
    var start := Start(table, listing);
    var p := Progressed(start, |listing|, pending, false, refuses, i);
    OnePersonMore(start, |listing|, pending, false, refuses, i);
    AdditivePromises(table, listing, pending, refuses, i);
    StoppedMeansFull(table, listing, pending, refuses, i);
    hide Progressed;
    if !p.stopped && |listing| + |p.accounts| < MAX_ACCOUNTS {
      var n := LeastFree(p.used, p.next);
      ThereIsANumber(table, listing, p, n);
      GivenIsLeast(table, listing, p, n);
      FreeNumberIsNew(table, listing, p, Decimal(n));
      SlotIsNew(table, p, Decimal(n));
    }
  }

  lemma SlotIsNew(table: map<string, string>, p: Progress, slot: string)
    requires Recorded(table, p) && slot !in table && slot !in Slots(p.accounts)
    ensures slot !in p.table
  {
  }

  /** So a run never gives up for want of a number, only for want of room. */
  lemma ThereIsANumber(table: map<string, string>, listing: seq<string>, p: Progress, n: nat)
    requires FromTheBottom(table, listing, p) && IsLeastFree(p.used, p.next, n)
    requires |listing| + |p.accounts| < MAX_ACCOUNTS
    ensures 1 <= n <= MAX_ACCOUNTS
  {
    hide Decimal, Numeral;
    RoomLeavesANumber(listing, p.accounts);
    var k: nat :| 1 <= k <= MAX_ACCOUNTS && Decimal(k) !in listing && Decimal(k) !in Slots(p.accounts);
    assert Decimal(k) !in p.used;
  }

  lemma {:induction false} StoppedMeansFull(
    table: map<string, string>, listing: seq<string>, pending: seq<Identity>, refuses: nat -> bool, done: nat)
    requires done <= |pending| && ListsAccounts(listing, table) && CodesDiffer(table)
    ensures var p := Progressed(Start(table, listing), |listing|, pending, false, refuses, done);
            p.stopped ==> |listing| + |p.accounts| >= MAX_ACCOUNTS
  {
    hide Decimal, Numeral, Accepts, Recorded, CodesDiffer, ListsAccounts, FromTheBottom;
    if done > 0 {
      StoppedMeansFull(table, listing, pending, refuses, done - 1);
      AdditivePromises(table, listing, pending, refuses, done - 1);
      var p := Progressed(Start(table, listing), |listing|, pending, false, refuses, done - 1);
      if !p.stopped && |listing| + |p.accounts| < MAX_ACCOUNTS {
        ThereIsANumber(table, listing, p, LeastFree(p.used, p.next));
      }
    }
  }

  /** Those to be written are taken in the order of the plan. */
  lemma {:induction false} PendingInOrder(a: seq<Identity>, b: seq<Identity>, seen: set<string>)
    ensures Pending(a + b, seen) == Pending(a, seen) + Pending(b, seen)
    ensures seen == {} ==> Pending(a, seen) == a
  {
    if a == [] {
      assert a + b == b;
    } else {
      assert (a + b)[1..] == a[1..] + b;
      PendingInOrder(a[1..], b, seen);
    }
  }

  /** What a caller has noted are the counts after the last person but so many, or after
      everybody. */
  lemma {:induction false} NotedAtTheLastMultiple(
    start: Progress, existingCount: nat, pending: seq<Identity>, rewrite: bool, refuses: nat -> bool, every: nat, done: nat) returns (m: nat)
    requires done <= |pending| && every > 0 && start.accounts == [] && start.failed == 0
    ensures m <= done && (m % every == 0 || m == |pending|)
    ensures forall k: nat :: m < k <= done ==> k % every != 0 && k != |pending|
    ensures var p := Progressed(start, existingCount, pending, rewrite, refuses, m);
            NotedAfter(start, existingCount, pending, rewrite, refuses, every, done) == Noted(|p.accounts|, p.failed)
  {
    hide Add, Rewrite;
    if done == 0 || done % every == 0 || done == |pending| {
      m := done;
    } else {
      m := NotedAtTheLastMultiple(start, existingCount, pending, rewrite, refuses, every, done - 1);
    }
  }

  /** An error before person `lost` ends a run unless the run had stopped by then, which it
      has exactly when the copier was full at the person before. */
  lemma BrokenExactlyWhen(
    table: map<string, string>, listing: seq<string>, pending: seq<Identity>, rewrite: bool, refuses: nat -> bool, lost: nat)
    requires ListsAccounts(listing, table) && CodesDiffer(table)
    ensures !Broken(Start(table, listing), |listing|, pending, rewrite, refuses, None)
    ensures Broken(Start(table, listing), |listing|, pending, rewrite, refuses, Some(lost)) <==>
              lost <= |pending| && (rewrite || lost == 0 ||
                |listing| + |Progressed(Start(table, listing), |listing|, pending, false, refuses, lost - 1).accounts| < MAX_ACCOUNTS)
  {
    hide Decimal, Numeral, Accepts, ListsAccounts, CodesDiffer, Progressed, FromTheBottom, Recorded;
    var start := Start(table, listing);
    NobodyYet(start, |listing|, pending, rewrite, refuses);
    if lost <= |pending| && rewrite {
      RewriteNeverStops(start, |listing|, pending, refuses, lost);
    } else if 0 < lost <= |pending| {
      StopsWhenFull(table, listing, pending, refuses, lost - 1);
    }
  }

  lemma StopsWhenFull(table: map<string, string>, listing: seq<string>, pending: seq<Identity>, refuses: nat -> bool, done: nat)
    requires done < |pending| && ListsAccounts(listing, table) && CodesDiffer(table)
    ensures Progressed(Start(table, listing), |listing|, pending, false, refuses, done + 1).stopped <==>
              |listing| + |Progressed(Start(table, listing), |listing|, pending, false, refuses, done).accounts| >= MAX_ACCOUNTS
  {
    hide Decimal, Numeral, Accepts, ListsAccounts, CodesDiffer, Progressed, FromTheBottom, Recorded;
    var start := Start(table, listing);
    var p := Progressed(start, |listing|, pending, false, refuses, done);
    StoppedMeansFull(table, listing, pending, refuses, done);
    AdditivePromises(table, listing, pending, refuses, done);
    OnePersonMore(start, |listing|, pending, false, refuses, done);
    if |listing| + |p.accounts| < MAX_ACCOUNTS {
      ThereIsANumber(table, listing, p, LeastFree(p.used, p.next));
    }
  }

  lemma {:induction false} RewriteNeverStops(start: Progress, existingCount: nat, pending: seq<Identity>, refuses: nat -> bool, done: nat)
    requires done <= |pending| && !start.stopped
    ensures !Progressed(start, existingCount, pending, true, refuses, done).stopped
  {
    hide Decimal, Numeral, Accepts;
    if done > 0 {
      RewriteNeverStops(start, existingCount, pending, refuses, done - 1);
    }
  }
}
