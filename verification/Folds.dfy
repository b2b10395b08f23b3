/** Caches built from records that may contradict each other: the MAC caches of
    apps/api/app/integrations/mosyle.py and google_workspace.py, and the aliases of
    google_workspace.py. */
module Folds {
  import opened Prelude

  // ---- MAC addresses ----

  /** A device record and the raw address it reports, "" when it reports none. */
  datatype Device = Device(serial: string, rawMac: string)

  function Upper(c: char): char {
    if 'a' <= c <= 'z' then c - 'a' + 'A' else c
  }

  /** `strip().upper().replace("-", ":")`, for the characters an address is made of. */
  function NormalizeMac(raw: string): string {
    var trimmed := Strip(raw);
    seq(|trimmed|, i requires 0 <= i < |trimmed| => if trimmed[i] == '-' then ':' else Upper(trimmed[i]))
  }

  /** Two characters that pass for one in an address: in either case, or a dash and a colon. */
  predicate SameMark(c: char, d: char) {
    c == d || (c in "-:" && d in "-:") || (IsLetter(c) && IsLetter(d) && (c as int - d as int == 32 || d as int - c as int == 32))
  }

  predicate IsLetter(c: char) {
    'a' <= c <= 'z' || 'A' <= c <= 'Z'
  }

  /** Which spellings are one address: those that agree mark by mark, space around them
      aside; and each is kept in upper case, with colons. */
  lemma SameAddressExactlyWhen(a: string, b: string)
    ensures var x, y := Strip(a), Strip(b);
            NormalizeMac(a) == NormalizeMac(b) <==> |x| == |y| && forall i :: 0 <= i < |x| ==> SameMark(x[i], y[i])
    ensures |NormalizeMac(a)| == |Strip(a)|
    ensures forall i :: 0 <= i < |Strip(a)| ==>
              SameMark(NormalizeMac(a)[i], Strip(a)[i]) && NormalizeMac(a)[i] != '-' && !('a' <= NormalizeMac(a)[i] <= 'z')
  {
    hide Strip;
    var m, n := NormalizeMac(a), NormalizeMac(b);
    if |m| == |n| {
      forall i | 0 <= i < |m|
        ensures m[i] == n[i] <==> SameMark(Strip(a)[i], Strip(b)[i])
      {
      }
    }
  }

  predicate Reports(d: Device, mac: string) {
    d.rawMac != "" && NormalizeMac(d.rawMac) == mac
  }

  /** How many records report an address. */
  function Holders(devices: seq<Device>, mac: string): nat {
    if devices == [] then 0
    else (if Reports(devices[0], mac) then 1 else 0) + Holders(devices[1..], mac)
  }

  lemma {:induction false} HoldersOfConcat(a: seq<Device>, b: seq<Device>, mac: string)
    ensures Holders(a + b, mac) == Holders(a, mac) + Holders(b, mac)
  {
    if a == [] {
      assert a + b == b;
    } else {
      assert (a + b)[1..] == a[1..] + b;
      HoldersOfConcat(a[1..], b, mac);
    }
  }

  lemma {:induction false} SomeHolder(devices: seq<Device>, mac: string)
    ensures Holders(devices, mac) > 0 <==> exists d :: d in devices && Reports(d, mac)
  {
    if devices != [] {
      SomeHolder(devices[1..], mac);
      assert devices == [devices[0]] + devices[1..];
      if Holders(devices[1..], mac) > 0 {
        var d :| d in devices[1..] && Reports(d, mac);
        assert d in devices;
      }
      if Reports(devices[0], mac) {
        assert devices[0] in devices;
      }
    }
  }

  lemma {:induction false} OneHolderOnly(devices: seq<Device>, mac: string, c: Device, d: Device)
    requires Holders(devices, mac) == 1 && c in devices && d in devices && Reports(c, mac) && Reports(d, mac)
    ensures c == d
  {
    SomeHolder(devices[1..], mac);
    assert devices == [devices[0]] + devices[1..];
    if !Reports(devices[0], mac) {
      OneHolderOnly(devices[1..], mac, c, d);
    }
  }

  /** What the cache must hold: an address that exactly one record reports, and that record. */
  ghost predicate IsMacCache(devices: seq<Device>, cache: map<string, Device>) {
    && (forall mac :: mac in cache <==> Holders(devices, mac) == 1)
    && (forall mac :: mac in cache ==> cache[mac] in devices && Reports(cache[mac], mac))
  }

  /** The fold of both `sync_devices`. */
  method CacheByMac(devices: seq<Device>) returns (cache: map<string, Device>)
    ensures IsMacCache(devices, cache)
  {
    hide Reports, NormalizeMac;
    var byMac: map<string, Device> := map[];
    var ambiguous: set<string> := {};
    for i := 0 to |devices|
      invariant forall mac :: mac in byMac <==> Holders(devices[..i], mac) >= 1
      invariant forall mac :: mac in ambiguous <==> Holders(devices[..i], mac) >= 2
      invariant forall mac :: mac in byMac ==> byMac[mac] in devices[..i] && Reports(byMac[mac], mac)
    {
      ghost var d := devices[i];
      assert devices[..i + 1] == devices[..i] + [d];
      forall mac
        ensures Holders(devices[..i + 1], mac) == Holders(devices[..i], mac) + (if Reports(d, mac) then 1 else 0)
      {
        HoldersOfConcat(devices[..i], [d], mac);
        HoldersOfOne(d, mac);
      }
      ReportsItsOwn(d);
      if devices[i].rawMac == "" {
        continue;
      }
      var mac := NormalizeMac(devices[i].rawMac);
      if mac in byMac {
        ambiguous := ambiguous + {mac};
      } else {
        byMac := byMac[mac := devices[i]];
      }
    }
    assert devices[..|devices|] == devices;
    cache := map mac | mac in byMac && mac !in ambiguous :: byMac[mac];
  }

  lemma HoldersOfOne(d: Device, mac: string)
    ensures Holders([d], mac) == if Reports(d, mac) then 1 else 0
  {
    assert [d][1..] == [];
  }

  lemma ReportsItsOwn(d: Device)
    ensures forall mac :: Reports(d, mac) <==> d.rawMac != "" && mac == NormalizeMac(d.rawMac)
  {
  }

  lemma {:induction false} HoldersIgnoreOrder(a: seq<Device>, b: seq<Device>, mac: string)
    requires multiset(a) == multiset(b)
    ensures Holders(a, mac) == Holders(b, mac)
    decreases |a|
  {
    if a == [] {
      assert b == [] by {
        assert |multiset(b)| == |b|;
      }
    } else {
      assert a[0] in multiset(b);
      var k :| 0 <= k < |b| && b[k] == a[0];
      var rest := b[..k] + b[k + 1..];
      assert b == b[..k] + [b[k]] + b[k + 1..];
      assert a == [a[0]] + a[1..];
      assert multiset(a[1..]) == multiset(a) - multiset{a[0]};
      assert multiset(rest) == multiset(b[..k]) + multiset(b[k + 1..]) == multiset(b) - multiset{a[0]};
      HoldersIgnoreOrder(a[1..], rest, mac);
      HoldersOfConcat(b[..k] + [b[k]], b[k + 1..], mac);
      HoldersOfConcat(b[..k], [b[k]], mac);
      HoldersOfConcat(b[..k], b[k + 1..], mac);
      HoldersOfOne(b[k], mac);
    }
  }

  /** The cache is the same whatever order the records come in. */
  lemma MacCacheIgnoresOrder(a: seq<Device>, b: seq<Device>, ca: map<string, Device>, cb: map<string, Device>)
    requires multiset(a) == multiset(b) && IsMacCache(a, ca) && IsMacCache(b, cb)
    ensures ca == cb
  {
    forall mac
      ensures mac in ca <==> mac in cb
      ensures mac in ca ==> ca[mac] == cb[mac]
    {
      HoldersIgnoreOrder(a, b, mac);
      if mac in ca {
        assert ca[mac] in multiset(a) && ca[mac] in b;
        OneHolderOnly(b, mac, ca[mac], cb[mac]);
      }
    }
  }

  // ---- Aliases ----

  /** One account's address and the aliases it claims. */
  datatype User = User(email: string, aliases: seq<string>)

  datatype Claim = Claim(alias: string, email: string)

  /** The claims of one account, trimmed and lower-cased; blank ones count for nothing. */
  function ClaimsOf(email: string, aliases: seq<string>, lower: string -> string): seq<Claim> {
    if aliases == [] then []
    else
      var key := lower(Strip(aliases[0]));
      (if key == "" then [] else [Claim(key, lower(email))]) + ClaimsOf(email, aliases[1..], lower)
  }

  function Claims(users: seq<User>, lower: string -> string): seq<Claim> {
    if users == [] then []
    else (if users[0].email == "" then [] else ClaimsOf(users[0].email, users[0].aliases, lower)) + Claims(users[1..], lower)
  }

  ghost predicate Agreed(claims: seq<Claim>, alias: string, email: string) {
    && (exists c :: c in claims && c.alias == alias)
    && (forall c :: c in claims && c.alias == alias ==> c.email == email)
  }

  /** What survives: an alias whose claimants agree, and that no manual row has. */
  ghost predicate IsAliasTable(claims: seq<Claim>, manual: set<string>, aliases: map<string, string>) {
    && (forall a :: a in aliases <==> a !in manual && exists email :: Agreed(claims, a, email))
    && (forall a :: a in aliases ==> Agreed(claims, a, aliases[a]))
  }

  /** The state of the fold: the first account to claim each alias, and the aliases a
      different account claimed later. */
  ghost predicate Folded(claims: seq<Claim>, byAlias: map<string, string>, ambiguous: set<string>) {
    && (forall a :: a in byAlias <==> exists c :: c in claims && c.alias == a)
    && (forall a :: a in byAlias ==> Claim(a, byAlias[a]) in claims)
    && (forall a :: a in ambiguous <==> a in byAlias && exists c :: c in claims && c.alias == a && c.email != byAlias[a])
  }

  lemma FoldOne(claims: seq<Claim>, byAlias: map<string, string>, ambiguous: set<string>, c: Claim)
    requires Folded(claims, byAlias, ambiguous)
    ensures var clash := c.alias in byAlias && byAlias[c.alias] != c.email;
            Folded(claims + [c],
                   if clash then byAlias else byAlias[c.alias := c.email],
                   if clash then ambiguous + {c.alias} else ambiguous)
  {
    var more := claims + [c];
    assert forall d :: d in more <==> d in claims || d == c;
  }

  /** `_refresh_google_sourced_aliases`, up to the rows it writes. */
  method RefreshAliases(users: seq<User>, lower: string -> string, manual: set<string>) returns (aliases: map<string, string>)
    ensures IsAliasTable(Claims(users, lower), manual, aliases)
  {
    hide Agreed, Folded;
    var byAlias, ambiguous := FoldUsers(users, lower);
    var kept := map a | a in byAlias && a !in ambiguous :: byAlias[a];
    aliases := map a | a in kept && a !in manual :: kept[a];
    FoldedMeansAgreed(Claims(users, lower), byAlias, ambiguous);
  }

  /** The outer loop: every account's aliases. */
  method FoldUsers(users: seq<User>, lower: string -> string) returns (byAlias: map<string, string>, ambiguous: set<string>)
    ensures Folded(Claims(users, lower), byAlias, ambiguous)
  {
    hide Folded, Claims, ClaimsOf;
    byAlias, ambiguous := map[], {};
    ghost var claims: seq<Claim> := [];
    NothingFolded();
    assert users[0..] == users;
    for i := 0 to |users|
      invariant Folded(claims, byAlias, ambiguous)
      invariant claims + Claims(users[i..], lower) == Claims(users, lower)
    {
      ClaimsFrom(users, i, lower);
      if users[i].email == "" {
        continue;
      }
      byAlias, ambiguous := FoldUser(users[i], lower, byAlias, ambiguous, claims);
      claims := claims + ClaimsOf(users[i].email, users[i].aliases, lower);
    }
    ClaimsOfNobody(lower);
    assert users[|users|..] == [] && claims + [] == claims;
  }

  lemma ClaimsFrom(users: seq<User>, i: nat, lower: string -> string)
    requires i < |users|
    ensures Claims(users[i..], lower)
            == (if users[i].email == "" then [] else ClaimsOf(users[i].email, users[i].aliases, lower)) + Claims(users[i + 1..], lower)
    ensures users[i].email == "" ==> Claims(users[i..], lower) == Claims(users[i + 1..], lower)
  {
    assert users[i..][0] == users[i] && users[i..][1..] == users[i + 1..];
  }

  lemma ClaimsOfNobody(lower: string -> string)
    ensures Claims([], lower) == []
  {
  }

  lemma NothingFolded()
    ensures Folded([], map[], {})
  {
  }

  /** The inner loop: one account's aliases. */
  method FoldUser(user: User, lower: string -> string, byAlias0: map<string, string>, ambiguous0: set<string>, ghost claims0: seq<Claim>)
    returns (byAlias: map<string, string>, ambiguous: set<string>)
    requires Folded(claims0, byAlias0, ambiguous0)
    ensures Folded(claims0 + ClaimsOf(user.email, user.aliases, lower), byAlias, ambiguous)
  {
    hide Folded, ClaimsOf;
    byAlias, ambiguous := byAlias0, ambiguous0;
    ghost var claims := claims0;
    assert user.aliases[0..] == user.aliases;
    for k := 0 to |user.aliases|
      invariant Folded(claims, byAlias, ambiguous)
      invariant claims + ClaimsOf(user.email, user.aliases[k..], lower) == claims0 + ClaimsOf(user.email, user.aliases, lower)
    {
      AliasesFrom(user, k, lower);
      var key := lower(Strip(user.aliases[k]));
      if key == "" {
        continue;
      }
      FoldOne(claims, byAlias, ambiguous, Claim(key, lower(user.email)));
      claims := claims + [Claim(key, lower(user.email))];
      if key in byAlias && byAlias[key] != lower(user.email) {
        ambiguous := ambiguous + {key};
      } else {
        byAlias := byAlias[key := lower(user.email)];
      }
    }
    NoAliasesLeft(user, lower);
    assert user.aliases[|user.aliases|..] == [] && claims + [] == claims;
  }

  lemma NoAliasesLeft(user: User, lower: string -> string)
    ensures ClaimsOf(user.email, [], lower) == []
  {
  }

  lemma AliasesFrom(user: User, k: nat, lower: string -> string)
    requires k < |user.aliases|
    ensures var key := lower(Strip(user.aliases[k]));
            var rest := ClaimsOf(user.email, user.aliases[k + 1..], lower);
            && (key == "" ==> ClaimsOf(user.email, user.aliases[k..], lower) == rest)
            && (key != "" ==> ClaimsOf(user.email, user.aliases[k..], lower) == [Claim(key, lower(user.email))] + rest)
  {
    assert user.aliases[k..][0] == user.aliases[k] && user.aliases[k..][1..] == user.aliases[k + 1..];
  }

  lemma FoldedMeansAgreed(claims: seq<Claim>, byAlias: map<string, string>, ambiguous: set<string>)
    requires Folded(claims, byAlias, ambiguous)
    ensures forall a :: a in byAlias && a !in ambiguous ==> Agreed(claims, a, byAlias[a])
    ensures forall a, email :: Agreed(claims, a, email) ==> a in byAlias && a !in ambiguous && byAlias[a] == email
  {
  }

  /** Which aliases survive, and whose they are, does not depend on the order of the
      accounts or of their aliases: only on which claims were made. */
  lemma AliasesIgnoreOrder(a: seq<Claim>, b: seq<Claim>, alias: string, email: string)
    requires forall c :: c in a <==> c in b
    ensures Agreed(a, alias, email) <==> Agreed(b, alias, email)
  {
    forall x: seq<Claim>, y: seq<Claim> | (x == a && y == b) || (x == b && y == a)
      ensures Agreed(x, alias, email) ==> Agreed(y, alias, email)
    {
      if Agreed(x, alias, email) {
        var c :| c in x && c.alias == alias;
        assert c in y;
      }
    }
  }

  lemma {:induction false} ClaimsAreWhoClaimsWhat(users: seq<User>, lower: string -> string, claim: Claim)
    ensures claim in Claims(users, lower) <==>
            exists u :: u in users && u.email != "" && claim in ClaimsOf(u.email, u.aliases, lower)
  {
    if users != [] {
      ClaimsAreWhoClaimsWhat(users[1..], lower, claim);
      assert users == [users[0]] + users[1..];
      if claim in Claims(users[1..], lower) {
        var u :| u in users[1..] && u.email != "" && claim in ClaimsOf(u.email, u.aliases, lower);
        assert u in users;
      }
      if users[0].email != "" && claim in ClaimsOf(users[0].email, users[0].aliases, lower) {
        assert users[0] in users;
      }
    }
  }

  /** What an account claims: its aliases, trimmed and in lower case, that are not blank. */
  lemma {:induction false} ClaimsAreTheAliases(email: string, aliases: seq<string>, lower: string -> string, claim: Claim)
    ensures claim in ClaimsOf(email, aliases, lower) <==>
              claim.email == lower(email) && claim.alias != "" && exists raw :: raw in aliases && claim.alias == lower(Strip(raw))
  {
    hide Strip;
    if aliases != [] {
      ClaimsAreTheAliases(email, aliases[1..], lower, claim);
      assert aliases == [aliases[0]] + aliases[1..];
      assert aliases[0] in aliases;
      if raw :| raw in aliases[1..] && claim.alias == lower(Strip(raw)) {
        assert raw in aliases;
      }
    }
  }

  /** Two directories with the same accounts yield the same aliases. */
  lemma DirectoryOrderDoesNotMatter(a: seq<User>, b: seq<User>, lower: string -> string, alias: string, email: string)
    requires forall u :: u in a <==> u in b
    ensures Agreed(Claims(a, lower), alias, email) <==> Agreed(Claims(b, lower), alias, email)
  {
    forall claim
      ensures claim in Claims(a, lower) <==> claim in Claims(b, lower)
    {
      ClaimsAreWhoClaimsWhat(a, lower, claim);
      ClaimsAreWhoClaimsWhat(b, lower, claim);
    }
    AliasesIgnoreOrder(Claims(a, lower), Claims(b, lower), alias, email);
  }

  // ---- Renaming whoever submitted under an alias ----

  /** A job already logged: its submitter, and what the name rests on. */
  datatype LoggedJob = LoggedJob(submitter: string, attribution: string)

  const BY_ALIAS := "alias"

  /** The aliases that are new, or that resolve to somebody else than they did. */
  function Changed(aliases: map<string, string>, before: map<string, string>): map<string, string> {
    map a | a in aliases && Found(before, a) != Some(aliases[a]) :: aliases[a]
  }

  /** An order in which the changes may be gone through. */
  ghost predicate IsOrder(order: seq<string>, changed: map<string, string>) {
    && (forall i, j :: 0 <= i < j < |order| ==> order[i] != order[j])
    && (forall a :: a in order <==> a in changed)
  }

  /** One update. */
  function RenamedBy(job: LoggedJob, alias: string, email: string, lower: string -> string): LoggedJob {
    if lower(job.submitter) == alias then LoggedJob(email, BY_ALIAS) else job
  }

  /** One job once the changes in `order` have been applied, one by one. */
  function Renamed(job: LoggedJob, order: seq<string>, changed: map<string, string>, lower: string -> string): LoggedJob
    requires forall a :: a in order ==> a in changed
  {
    if order == [] then job
    else RenamedBy(Renamed(job, Front(order), changed, lower), Last(order), changed[Last(order)], lower)
  }

  /** The updates of the jobs already logged. */
  method RenameSubmitters(jobs: seq<LoggedJob>, order: seq<string>, changed: map<string, string>, lower: string -> string)
    returns (renamed: seq<LoggedJob>)
    requires forall a :: a in order ==> a in changed
    ensures |renamed| == |jobs|
    ensures forall i :: 0 <= i < |jobs| ==> renamed[i] == Renamed(jobs[i], order, changed, lower)
  {
    renamed := jobs;
    for k := 0 to |order|
      invariant |renamed| == |jobs|
      invariant forall i :: 0 <= i < |jobs| ==> renamed[i] == Renamed(jobs[i], order[..k], changed, lower)
    {
      assert Front(order[..k + 1]) == order[..k] && Last(order[..k + 1]) == order[k];
      var alias := order[k];
      assert alias in order;
      var before, email := renamed, changed[alias];
      renamed := seq(|before|, i requires 0 <= i < |before| => RenamedBy(before[i], alias, email, lower));
    }
    assert order[..|order|] == order;
  }

  /** Going through a set of keys, each once, in some order. */
  method InSomeOrder(changed: map<string, string>) returns (order: seq<string>)
    ensures IsOrder(order, changed)
  {
    order := [];
    var left := changed.Keys;
    while left != {}
      invariant left <= changed.Keys
      invariant forall a :: a in order <==> a in changed.Keys - left
      invariant forall i, j :: 0 <= i < j < |order| ==> order[i] != order[j]
      decreases left
    {
      var a :| a in left;
      assert a !in order;
      left := left - {a};
      order := order + [a];
    }
  }

  /** All of `_refresh_google_sourced_aliases`: the new aliases, and the logged jobs with
      whoever submitted them under a changed one renamed. */
  method RefreshAndRename(
    users: seq<User>, lower: string -> string, manual: set<string>, before: map<string, string>, jobs: seq<LoggedJob>)
    returns (aliases: map<string, string>, renamed: seq<LoggedJob>, order: seq<string>)
    ensures IsAliasTable(Claims(users, lower), manual, aliases)
    ensures IsOrder(order, Changed(aliases, before)) && |renamed| == |jobs|
    ensures forall i :: 0 <= i < |jobs| ==> renamed[i] == Renamed(jobs[i], order, Changed(aliases, before), lower)
  {
    hide IsAliasTable;
    aliases := RefreshAliases(users, lower, manual);
    var changed := Changed(aliases, before);
    order := InSomeOrder(changed);
    renamed := RenameSubmitters(jobs, order, changed, lower);
  }

  /** What is agreed on is a claim's alias, and claims are in lower case. */
  lemma {:induction false} ClaimedAliasIsLower(email: string, aliases: seq<string>, lower: string -> string)
    requires forall t :: lower(lower(t)) == lower(t)
    ensures forall c :: c in ClaimsOf(email, aliases, lower) ==> lower(c.alias) == c.alias
  {
    if aliases != [] {
      ClaimedAliasIsLower(email, aliases[1..], lower);
    }
  }

  lemma ChangedAreLowerCase(users: seq<User>, lower: string -> string, manual: set<string>, aliases: map<string, string>, before: map<string, string>, a: string)
    requires forall t :: lower(lower(t)) == lower(t)
    requires IsAliasTable(Claims(users, lower), manual, aliases)
    requires a in Changed(aliases, before)
    ensures lower(a) == a
  {
    var c :| c in Claims(users, lower) && c.alias == a;
    ClaimsAreWhoClaimsWhat(users, lower, c);
    var u :| u in users && u.email != "" && c in ClaimsOf(u.email, u.aliases, lower);
    ClaimedAliasIsLower(u.email, u.aliases, lower);
  }

  /** No change leads on to another one that ends elsewhere. */
  ghost predicate NeverLeadsOn(changed: map<string, string>, lower: string -> string) {
    forall a, b :: a in changed && b in changed && a != b && lower(changed[a]) == b ==> changed[a] == changed[b]
  }

  lemma {:induction false} RenamedOnce(job: LoggedJob, order: seq<string>, changed: map<string, string>, lower: string -> string)
    requires NeverLeadsOn(changed, lower) && forall a :: a in order ==> a in changed
    requires forall i, j :: 0 <= i < j < |order| ==> order[i] != order[j]
    ensures Renamed(job, order, changed, lower)
            == if lower(job.submitter) in order then LoggedJob(changed[lower(job.submitter)], BY_ALIAS) else job
  {
    if order != [] {
      var front, last := Front(order), Last(order);
      assert order == front + [last];
      assert last !in front;
      RenamedOnce(job, front, changed, lower);
    }
  }

  lemma {:induction false} Enumerated(keys: set<string>) returns (order: seq<string>)
    ensures forall i, j :: 0 <= i < j < |order| ==> order[i] != order[j]
    ensures forall a :: a in order <==> a in keys
    decreases keys
  {
    if keys == {} {
      order := [];
    } else {
      var a :| a in keys;
      var rest := Enumerated(keys - {a});
      order := rest + [a];
    }
  }

  lemma {:induction false} UntouchedByOthers(job: LoggedJob, order: seq<string>, changed: map<string, string>, lower: string -> string)
    requires (forall a :: a in order ==> a in changed) && lower(job.submitter) !in order
    ensures Renamed(job, order, changed, lower) == job
  {
    if order != [] {
      assert order == Front(order) + [Last(order)];
      UntouchedByOthers(job, Front(order), changed, lower);
    }
  }

  lemma TwoMore(job: LoggedJob, order: seq<string>, a: string, b: string, changed: map<string, string>, lower: string -> string)
    requires (forall x :: x in order + [a, b] ==> x in changed) && a in changed && b in changed && lower(job.submitter) !in order
    ensures Renamed(job, order + [a, b], changed, lower)
            == RenamedBy(RenamedBy(job, a, changed[a], lower), b, changed[b], lower)
  {
    var one := order + [a];
    assert Front(order + [a, b]) == one && Front(one) == order;
    assert forall x :: x in one ==> x in order + [a, b];
    UntouchedByOthers(job, order, changed, lower);
  }

  /** Everybody ends up the same whatever the order. */
  ghost predicate OrdersAgree(changed: map<string, string>, lower: string -> string) {
    forall job, a, b :: IsOrder(a, changed) && IsOrder(b, changed) ==>
      Renamed(job, a, changed, lower) == Renamed(job, b, changed, lower)
  }

  /** Two changed aliases, the first of which leads on to the second. */
  lemma LeadingOnIsOrder(changed: map<string, string>, a: string, b: string) returns (first: seq<string>, second: seq<string>, rest: seq<string>)
    requires a in changed && b in changed && a != b
    ensures first == rest + [a, b] && second == rest + [b, a] && a !in rest && b !in rest
    ensures IsOrder(first, changed) && IsOrder(second, changed)
  {
    rest := Enumerated(changed.Keys - {a, b});
    first, second := rest + [a, b], rest + [b, a];
    assert forall x :: x in first <==> x in rest || x == a || x == b;
    assert forall x :: x in second <==> x in rest || x == a || x == b;
  }

  /** The order of the directory matters for jobs already logged exactly when a changed
      alias resolves to an address that is itself a changed alias of somebody else: the
      job is then renamed once or twice. */
  lemma RenamingIgnoresOrderExactlyWhen(changed: map<string, string>, lower: string -> string)
    requires forall a :: a in changed ==> lower(a) == a
    ensures OrdersAgree(changed, lower) <==> NeverLeadsOn(changed, lower)
  {
    if NeverLeadsOn(changed, lower) {
      forall job, a, b | IsOrder(a, changed) && IsOrder(b, changed)
        ensures Renamed(job, a, changed, lower) == Renamed(job, b, changed, lower)
      {
        RenamedOnce(job, a, changed, lower);
        RenamedOnce(job, b, changed, lower);
      }
    } else {
      var a, b :| a in changed && b in changed && a != b && lower(changed[a]) == b && changed[a] != changed[b];
      var first, second, rest := LeadingOnIsOrder(changed, a, b);
      var job := LoggedJob(a, BY_ALIAS);
      TwoMore(job, rest, a, b, changed, lower);
      TwoMore(job, rest, b, a, changed, lower);
      assert Renamed(job, first, changed, lower) != Renamed(job, second, changed, lower);
    }
  }

  /** The renaming of a refresh, of which that is required, ignores the order exactly then. */
  lemma RefreshIgnoresOrderExactlyWhen(
    users: seq<User>, lower: string -> string, manual: set<string>, aliases: map<string, string>, before: map<string, string>)
    requires forall t :: lower(lower(t)) == lower(t)
    requires IsAliasTable(Claims(users, lower), manual, aliases)
    ensures OrdersAgree(Changed(aliases, before), lower) <==> NeverLeadsOn(Changed(aliases, before), lower)
  {
    hide IsAliasTable, OrdersAgree, NeverLeadsOn, Changed;
    forall a | a in Changed(aliases, before)
      ensures lower(a) == a
    {
      ChangedAreLowerCase(users, lower, manual, aliases, before, a);
    }
    RenamingIgnoresOrderExactlyWhen(Changed(aliases, before), lower);
  }

  /** Which logged jobs a refresh renames: those submitted under an alias that is new or
      resolves to somebody else than before; and where no such alias leads on to another,
      exactly those, each to whom its alias resolves to. */
  lemma RenamedExactlyWhen(
    job: LoggedJob, order: seq<string>, aliases: map<string, string>, before: map<string, string>, lower: string -> string)
    requires IsOrder(order, Changed(aliases, before))
    ensures var alias, renamed := lower(job.submitter), Renamed(job, order, Changed(aliases, before), lower);
            var stands := alias !in aliases || (alias in before && before[alias] == aliases[alias]);
            && (stands ==> renamed == job)
            && (!stands && NeverLeadsOn(Changed(aliases, before), lower) ==> renamed == LoggedJob(aliases[alias], "alias"))
  {
    UntouchedExceptByItsOwn(job, order, Changed(aliases, before), lower);
    if NeverLeadsOn(Changed(aliases, before), lower) {
      RenamedOnce(job, order, Changed(aliases, before), lower);
    }
    hide Renamed, NeverLeadsOn;
  }

  lemma UntouchedExceptByItsOwn(job: LoggedJob, order: seq<string>, changed: map<string, string>, lower: string -> string)
    requires forall a :: a in order ==> a in changed
    ensures lower(job.submitter) !in order ==> Renamed(job, order, changed, lower) == job
  {
    if lower(job.submitter) !in order {
      UntouchedByOthers(job, order, changed, lower);
    }
  }
}
