/** apps/api/app/copiers/provisioning.py: who gets an account on a copier. */
module Provisioning {
  import opened Prelude
  import opened OrgUnits
  import opened KonicaBizhub
  import Query

  /** The unit of the directory user an identity belongs to, found by lower-cased email. */
  function UnitOf(who: Identity, orgUnits: map<string, string>, lower: string -> string): Option<string> {
    if lower(who.email) in orgUnits then Some(orgUnits[lower(who.email)]) else None
  }

  predicate InScope(who: Identity, orgUnits: map<string, string>, lower: string -> string,
                    includes: seq<string>, excludes: seq<string>) {
    var unit := UnitOf(who, orgUnits, lower);
    unit.Some? && OrgUnitIncluded(unit, includes, excludes)
  }

  /** How many of the identities in scope hold a code. */
  function Holders(inScope: seq<Identity>, code: string): nat {
    if inScope == [] then 0
    else Holders(inScope[..|inScope| - 1], code) + (if inScope[|inScope| - 1].code == code then 1 else 0)
  }

  function Filtered(identities: seq<Identity>, keep: Identity -> bool): seq<Identity> {
    if identities == [] then []
    else
      var last := identities[|identities| - 1];
      Filtered(identities[..|identities| - 1], keep) + (if keep(last) then [last] else [])
  }

  datatype Settings = Settings(includes: seq<string>, excludes: seq<string>, staffPath: string, autoKind: string)

  /** An identity with its type: a staff number, a PIN, a badge. */
  datatype Record = Record(who: Identity, kind: string)

  /** The query: the identities of one type, in the order of the table. */
  function OfKind(records: seq<Record>, kind: string): seq<Identity> {
    if records == [] then []
    else
      var last := records[|records| - 1];
      OfKind(records[..|records| - 1], kind) + (if last.kind == kind then [last.who] else [])
  }

  function WantedKind(identityType: Option<string>, settings: Settings): string {
    if identityType.Some? && identityType.value != "" then identityType.value else settings.autoKind
  }

  /** Whom the organisation tracks, and of those whom this copier serves. */
  function OrgIncludes(settings: Settings): seq<string> {
    OrgScope(settings.includes, settings.staffPath)
  }

  predicate Serves(devicePaths: seq<string>, settings: Settings, orgUnits: map<string, string>, lower: string -> string, who: Identity) {
    InScope(who, orgUnits, lower, DeviceScope(devicePaths, OrgIncludes(settings)), NonEmpty(settings.excludes))
  }

  /** `build_provisioning_plan` */
  method BuildProvisioningPlan(
    records: seq<Record>, identityType: Option<string>, settings: Settings, devicePaths: seq<string>,
    orgUnits: map<string, string>, lower: string -> string) returns (plan: seq<Identity>, skipped: nat)
    ensures var identities := OfKind(records, WantedKind(identityType, settings));
            var inScope := Filtered(identities, (who: Identity) => Serves(devicePaths, settings, orgUnits, lower, who));
            && plan == Filtered(inScope, (who: Identity) => Holders(inScope, who.code) == 1)
            && skipped == |Filtered(identities, (who: Identity) => UnitOf(who, orgUnits, lower).None?)|
  {
    hide DeviceScope, OrgScope, OrgUnitIncluded;
    var includes, excludes := DeviceScope(devicePaths, OrgIncludes(settings)), NonEmpty(settings.excludes);
    var identities := OfKind(records, WantedKind(identityType, settings));
    ghost var keep := (who: Identity) => Serves(devicePaths, settings, orgUnits, lower, who);
    ghost var unknown := (who: Identity) => UnitOf(who, orgUnits, lower).None?;
    var inScope: seq<Identity> := [];
    skipped := 0;
    for i := 0 to |identities|
      invariant inScope == Filtered(identities[..i], keep)
      invariant skipped == |Filtered(identities[..i], unknown)|
    {
      var who := identities[i];
      assert identities[..i + 1][..i] == identities[..i];
      if lower(who.email) !in orgUnits {
        skipped := skipped + 1;
        continue;
      }
      if !OrgUnitIncluded(Some(orgUnits[lower(who.email)]), includes, excludes) {
        continue;
      }
      inScope := inScope + [who];
    }
    assert identities[..|identities|] == identities;
    plan := SoleHolders(inScope);
  }

  /** Its last step: a code held by two people is pushed for neither. */
  method SoleHolders(inScope: seq<Identity>) returns (plan: seq<Identity>)
    ensures plan == Filtered(inScope, (who: Identity) => Holders(inScope, who.code) == 1)
  {
    var holders := CountHolders(inScope);
    plan := [];
    ghost var unique := (who: Identity) => Holders(inScope, who.code) == 1;
    for i := 0 to |inScope|
      invariant plan == Filtered(inScope[..i], unique)
    {
      assert inScope[..i + 1][..i] == inScope[..i];
      var who := inScope[i];
      if who.code in holders && holders[who.code] == 1 {
        plan := plan + [who];
      }
    }
    assert inScope[..|inScope|] == inScope;
  }

  /** Python's `Counter` over the codes. */
  method CountHolders(inScope: seq<Identity>) returns (holders: map<string, nat>)
    ensures forall code :: Holders(inScope, code) == if code in holders then holders[code] else 0
  {
    holders := map[];
    for i := 0 to |inScope|
      invariant forall code :: Holders(inScope[..i], code) == if code in holders then holders[code] else 0
    {
      assert inScope[..i + 1][..i] == inScope[..i];
      var code := inScope[i].code;
      holders := holders[code := (if code in holders then holders[code] else 0) + 1];
    }
    assert inScope[..|inScope|] == inScope;
  }

  lemma {:induction false} FilteredMembers(identities: seq<Identity>, keep: Identity -> bool)
    ensures forall who :: who in Filtered(identities, keep) <==> who in identities && keep(who)
  {
    if identities != [] {
      var n := |identities| - 1;
      FilteredMembers(identities[..n], keep);
      assert identities == identities[..n] + [identities[n]];
    }
  }

  lemma {:induction false} FilteringNeverAddsHolders(identities: seq<Identity>, keep: Identity -> bool, code: string)
    ensures Holders(Filtered(identities, keep), code) <= Holders(identities, code)
  {
    if identities != [] {
      var n := |identities| - 1;
      FilteringNeverAddsHolders(identities[..n], keep, code);
      var front := Filtered(identities[..n], keep);
      assert (front + [identities[n]])[..|front|] == front && front + [] == front;
    }
  }

  lemma {:induction false} TwoHoldersCount(identities: seq<Identity>, i: nat, j: nat)
    requires i < j < |identities| && identities[i].code == identities[j].code
    ensures Holders(identities, identities[i].code) >= 2
  {
    var n := |identities| - 1;
    if j < n {
      TwoHoldersCount(identities[..n], i, j);
    } else {
      OneHolderCounts(identities[..n], i);
    }
  }

  lemma {:induction false} OneHolderCounts(identities: seq<Identity>, i: nat)
    requires i < |identities|
    ensures Holders(identities, identities[i].code) >= 1
  {
    var n := |identities| - 1;
    if i < n {
      OneHolderCounts(identities[..n], i);
    }
  }

  /** The codes of a plan are pairwise different, everyone in it is in scope, and a
      person in scope is left out exactly when somebody else in scope has the same code:
      of two holders of one code neither is planned. */
  lemma PlannedCodesAreDistinct(identities: seq<Identity>, inScope: Identity -> bool)
    ensures var scope := Filtered(identities, inScope);
            var plan := Filtered(scope, (who: Identity) => Holders(scope, who.code) == 1);
            && (forall i, j :: 0 <= i < j < |plan| ==> plan[i].code != plan[j].code)
            && (forall who :: who in plan <==> who in identities && inScope(who) && Holders(scope, who.code) == 1)
            && (forall i, j :: 0 <= i < j < |scope| && scope[i].code == scope[j].code ==> scope[i] !in plan && scope[j] !in plan)
  {
    var scope := Filtered(identities, inScope);
    var unique := (who: Identity) => Holders(scope, who.code) == 1;
    var plan := Filtered(scope, unique);
    FilteredMembers(identities, inScope);
    FilteredMembers(scope, unique);
    forall i, j | 0 <= i < j < |plan|
      ensures plan[i].code != plan[j].code
    {
      assert plan[i] in plan;
      FilteringNeverAddsHolders(scope, unique, plan[i].code);
      if plan[i].code == plan[j].code {
        TwoHoldersCount(plan, i, j);
      }
    }
    forall i, j | 0 <= i < j < |scope| && scope[i].code == scope[j].code
      ensures scope[i] !in plan && scope[j] !in plan
    {
      TwoHoldersCount(scope, i, j);
    }
  }

  /** Nobody is planned whom the organisation does not track, unless the copier's own
      list has nothing in common with the organisation's. */
  lemma PlannedAreTracked(
    identities: seq<Identity>, settings: Settings, devicePaths: seq<string>, orgUnits: map<string, string>, lower: string -> string,
    who: Identity)
    requires !EmptyIntersection(devicePaths, OrgIncludes(settings))
    requires var scope := Filtered(identities, (p: Identity) => Serves(devicePaths, settings, orgUnits, lower, p));
             who in Filtered(scope, (p: Identity) => Holders(scope, p.code) == 1)
    ensures who in identities && InScope(who, orgUnits, lower, OrgIncludes(settings), NonEmpty(settings.excludes))
  {
    hide DeviceScope, OrgScope, OrgUnitIncluded, EmptyIntersection;
    var serves := (p: Identity) => Serves(devicePaths, settings, orgUnits, lower, p);
    var scope := Filtered(identities, serves);
    FilteredMembers(identities, serves);
    FilteredMembers(scope, (p: Identity) => Holders(scope, p.code) == 1);
    ScopeNarrows(devicePaths, OrgIncludes(settings), NonEmpty(settings.excludes), UnitOf(who, orgUnits, lower));
  }

  // ---- Exactly who is planned ----

  /** Filtering goes person by person, in order. */
  lemma {:induction false} FilteredOfConcat(a: seq<Identity>, b: seq<Identity>, keep: Identity -> bool)
    ensures Filtered(a + b, keep) == Filtered(a, keep) + Filtered(b, keep)
  {
    if b == [] {
      assert a + b == a;
    } else {
      var n := |b| - 1;
      assert (a + b)[..|a + b| - 1] == a + b[..n];
      FilteredOfConcat(a, b[..n], keep);
    }
  }

  lemma {:induction false} OfKindOfConcat(a: seq<Record>, b: seq<Record>, kind: string)
    ensures OfKind(a + b, kind) == OfKind(a, kind) + OfKind(b, kind)
  {
    if b == [] {
      assert a + b == a;
    } else {
      var n := |b| - 1;
      assert (a + b)[..|a + b| - 1] == a + b[..n];
      OfKindOfConcat(a, b[..n], kind);
    }
  }

  /** So the people of a longer table are taken in its order. */
  lemma TakenInOrder(a: seq<Record>, b: seq<Record>, kind: string, keep: Identity -> bool)
    ensures Filtered(OfKind(a + b, kind), keep) == Filtered(OfKind(a, kind), keep) + Filtered(OfKind(b, kind), keep)
  {
    hide OfKind, Filtered;
    OfKindOfConcat(a, b, kind);
    FilteredOfConcat(OfKind(a, kind), OfKind(b, kind), keep);
  }

  /** The records of one type that a condition picks out. */
  ghost function Picked(records: seq<Record>, kind: string, keep: Identity -> bool): set<nat> {
    Query.Those(|records|, (i: nat) => i < |records| && records[i].kind == kind && keep(records[i].who))
  }

  lemma OneMorePicked(records: seq<Record>, kind: string, keep: Identity -> bool)
    requires records != []
    ensures |Picked(records, kind, keep)|
            == |Picked(Front(records), kind, keep)| + (if Last(records).kind == kind && keep(Last(records).who) then 1 else 0)
  {
    var n := |records| - 1;
    var p := (i: nat) => i < |records| && records[i].kind == kind && keep(records[i].who);
    Query.OneMoreOfThose(n, p);
    assert Picked(records, kind, keep) == Query.Those(n + 1, p);
    assert Picked(Front(records), kind, keep) == Query.Those(n, p);
  }

  lemma {:induction false} PickedAreFiltered(records: seq<Record>, kind: string, keep: Identity -> bool)
    ensures |Filtered(OfKind(records, kind), keep)| == |Picked(records, kind, keep)|
  {
    if records != [] {
      var last := Last(records);
      PickedAreFiltered(Front(records), kind, keep);
      OneMorePicked(records, kind, keep);
      hide Picked;
      FilteredOfConcat(OfKind(Front(records), kind), [last.who], keep);
      assert [last.who][..0] == [] && Filtered([last.who], keep) == if keep(last.who) then [last.who] else [];
      assert OfKind(Front(records), kind) + [] == OfKind(Front(records), kind);
    }
  }

  lemma {:induction false} HoldersAreFiltered(identities: seq<Identity>, keep: Identity -> bool, code: string)
    ensures Holders(Filtered(identities, keep), code) == |Filtered(identities, (who: Identity) => keep(who) && who.code == code)|
  {
    if identities != [] {
      var n := |identities| - 1;
      HoldersAreFiltered(identities[..n], keep, code);
      var front := Filtered(identities[..n], keep);
      assert (front + [identities[n]])[..|front|] == front && front + [] == front;
    }
  }

  lemma {:induction false} OfKindMembers(records: seq<Record>, kind: string)
    ensures forall who :: who in OfKind(records, kind) <==> Record(who, kind) in records
  {
    if records != [] {
      OfKindMembers(Front(records), kind);
      assert records == Front(records) + [Last(records)];
    }
  }

  /** A record of the type wanted, of somebody whose unit is known and served by the copier. */
  predicate IsCandidate(r: Record, kind: string, settings: Settings, devicePaths: seq<string>, orgUnits: map<string, string>, lower: string -> string) {
    && r.kind == kind && lower(r.who.email) in orgUnits
    && OrgUnitIncluded(Some(orgUnits[lower(r.who.email)]),
                       DeviceScope(devicePaths, OrgScope(settings.includes, settings.staffPath)), NonEmpty(settings.excludes))
  }

  /** The type asked for, or the organisation's own when none is, or a blank one. */
  predicate IsWanted(kind: string, identityType: Option<string>, settings: Settings) {
    if identityType in {None, Some("")} then kind == settings.autoKind else identityType == Some(kind)
  }

  /** Somebody is planned if and only if one of the candidates' records is theirs, and no
      other candidate's record has its code. */
  lemma PlannedExactlyWhen(
    records: seq<Record>, identityType: Option<string>, settings: Settings, devicePaths: seq<string>,
    orgUnits: map<string, string>, lower: string -> string, kind: string, who: Identity)
    requires IsWanted(kind, identityType, settings)
    ensures var scope := Filtered(OfKind(records, WantedKind(identityType, settings)),
                                  (p: Identity) => Serves(devicePaths, settings, orgUnits, lower, p));
            who in Filtered(scope, (p: Identity) => Holders(scope, p.code) == 1) <==>
            exists i: nat ::
              && i < |records| && records[i].who == who && IsCandidate(records[i], kind, settings, devicePaths, orgUnits, lower)
              && forall j: nat :: j < |records| && j != i && IsCandidate(records[j], kind, settings, devicePaths, orgUnits, lower) ==>
                   records[j].who.code != who.code
  {
    var serves := (p: Identity) => Serves(devicePaths, settings, orgUnits, lower, p);
    PlannedArePickedOnce(records, kind, serves, who);
    PickedOnce(records, kind, serves, who);
    hide DeviceScope, OrgScope, OrgUnitIncluded, NonEmpty, Picked, Filtered, OfKind, Holders;
    forall i: nat | i < |records|
      ensures IsCandidate(records[i], kind, settings, devicePaths, orgUnits, lower) <==> Chosen(records, i, kind, serves)
    {
    }
    hide Serves, IsCandidate, Chosen;
  }

  ghost predicate Chosen(records: seq<Record>, i: nat, kind: string, keep: Identity -> bool)
    requires i < |records|
  {
    records[i].kind == kind && keep(records[i].who)
  }

  lemma PlannedArePickedOnce(records: seq<Record>, kind: string, keep: Identity -> bool, who: Identity)
    ensures var scope := Filtered(OfKind(records, kind), keep);
            who in Filtered(scope, (p: Identity) => Holders(scope, p.code) == 1) <==>
            Record(who, kind) in records && keep(who) && |Picked(records, kind, (p: Identity) => keep(p) && p.code == who.code)| == 1
  {
    var identities := OfKind(records, kind);
    var scope := Filtered(identities, keep);
    FilteredMembers(identities, keep);
    FilteredMembers(scope, (p: Identity) => Holders(scope, p.code) == 1);
    OfKindMembers(records, kind);
    HoldersAreFiltered(identities, keep, who.code);
    PickedAreFiltered(records, kind, (p: Identity) => keep(p) && p.code == who.code);
    hide Filtered, OfKind, Holders, Picked;
  }

  lemma PickedOnce(records: seq<Record>, kind: string, keep: Identity -> bool, who: Identity)
    ensures Record(who, kind) in records && keep(who) && |Picked(records, kind, (p: Identity) => keep(p) && p.code == who.code)| == 1
            <==> exists i: nat ::
                   && i < |records| && records[i].who == who && Chosen(records, i, kind, keep)
                   && forall j: nat :: j < |records| && j != i && Chosen(records, j, kind, keep) ==> records[j].who.code != who.code
  {
    var picked := Picked(records, kind, (p: Identity) => keep(p) && p.code == who.code);
    assert forall j: nat :: j in picked <==> j < |records| && Chosen(records, j, kind, keep) && records[j].who.code == who.code;
    forall i: nat | i < |records| && records[i].who == who && Chosen(records, i, kind, keep)
      ensures |picked| == 1 <==> forall j: nat :: j < |records| && j != i && Chosen(records, j, kind, keep) ==> records[j].who.code != who.code
    {
      Query.OneMember(picked, i);
    }
    hide Picked;
    if Record(who, kind) in records && keep(who) {
      var i: nat :| i < |records| && records[i] == Record(who, kind);
      assert Chosen(records, i, kind, keep);
    }
  }

  /** Those counted as skipped are the records of the type wanted whose person's unit is not
      known. */
  lemma SkippedAreUnknown(
    records: seq<Record>, identityType: Option<string>, settings: Settings, orgUnits: map<string, string>, lower: string -> string, kind: string)
    requires IsWanted(kind, identityType, settings)
    ensures |Filtered(OfKind(records, WantedKind(identityType, settings)), (p: Identity) => UnitOf(p, orgUnits, lower).None?)|
            == |set i: nat | i < |records| && records[i].kind == kind && lower(records[i].who.email) !in orgUnits|
  {
    var unknown := (p: Identity) => UnitOf(p, orgUnits, lower).None?;
    PickedAreFiltered(records, kind, unknown);
    assert Picked(records, kind, unknown) == set i: nat | i < |records| && records[i].kind == kind && lower(records[i].who.email) !in orgUnits;
  }
}