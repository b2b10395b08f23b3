/** apps/api/app/integrations/google_workspace.py and
    apps/api/app/copiers/device_admin.py: which organisational units a copier serves. */
module OrgUnits {
  import opened Prelude

  function StripSlashes(s: string): string {
    if s != "" && s[|s| - 1] == '/' then StripSlashes(s[..|s| - 1]) else s
  }

  function NormalizeOrgUnitPath(path: string): string {
    var trimmed := Strip(path);
    var rooted := if trimmed != "" && trimmed[0] == '/' then trimmed else "/" + trimmed;
    var stripped := StripSlashes(rooted);
    if stripped == "" then "/" else stripped
  }

  /** Whether a unit is the configured one or lies under it; the root contains all. */
  predicate OrgUnitMatches(path: Option<string>, configured: string) {
    path.Some? && path.value != ""
    && var target := NormalizeOrgUnitPath(configured);
       target == "/"
       || var unit := NormalizeOrgUnitPath(path.value);
          unit == target || target + "/" <= unit
  }

  predicate MatchesAny(path: Option<string>, configured: seq<string>) {
    exists i :: 0 <= i < |configured| && OrgUnitMatches(path, configured[i])
  }

  predicate OrgUnitIncluded(path: Option<string>, includes: seq<string>, excludes: seq<string>) {
    if MatchesAny(path, excludes) then false
    else includes == [] || MatchesAny(path, includes)
  }

  function NonEmpty(paths: seq<string>): seq<string> {
    if paths == [] then []
    else if paths[0] == "" then NonEmpty(paths[1..])
    else [paths[0]] + NonEmpty(paths[1..])
  }

  /** `resolve_copier_identity_org_units`: the organisation's include list, or failing
      that the one unit its staff are in. */
  function OrgScope(includes: seq<string>, staffPath: string): seq<string> {
    if NonEmpty(includes) == [] && staffPath != "" then [staffPath] else NonEmpty(includes)
  }

  function Allowed(paths: seq<string>, includes: seq<string>): seq<string> {
    if paths == [] then []
    else if MatchesAny(Some(paths[0]), includes) then [paths[0]] + Allowed(paths[1..], includes)
    else Allowed(paths[1..], includes)
  }

  /** `device_provisioning_scope`: the include list of one device (the exclude list is
      the organisation's own). */
  function DeviceScope(devicePaths: seq<string>, orgIncludes: seq<string>): seq<string> {
    var paths := NonEmpty(devicePaths);
    if paths == [] then orgIncludes
    else if orgIncludes == [] then paths
    else Allowed(paths, orgIncludes)
  }

  lemma PrefixOfPrefix(a: string, b: string, c: string)
    requires a <= b && b <= c
    ensures a <= c
  {
    assert c[..|a|] == b[..|a|];
  }

  /** Lying under is transitive, though normalizing is not idempotent. */
  lemma MatchingIsTransitive(user: Option<string>, inner: string, outer: string)
    requires OrgUnitMatches(user, inner) && OrgUnitMatches(Some(inner), outer)
    ensures OrgUnitMatches(user, outer)
  {
    var u, i, o := NormalizeOrgUnitPath(user.value), NormalizeOrgUnitPath(inner), NormalizeOrgUnitPath(outer);
    if o != "/" {
      NormalHasNoTrailingSlash(outer);
      if i == "/" {
        assert false;
      } else if u != i && i != o {
        assert o + "/" <= i && i <= i + "/";
        PrefixOfPrefix(o + "/", i, i + "/");
        PrefixOfPrefix(o + "/", i + "/", u);
      }
    }
  }

  lemma {:induction false} NoTrailingSlash(s: string)
    ensures StripSlashes(s) != "" ==> StripSlashes(s)[|StripSlashes(s)| - 1] != '/'
    ensures s != "" && s[0] == '/' && StripSlashes(s) != "" ==> StripSlashes(s)[0] == '/'
  {
    if s != "" && s[|s| - 1] == '/' {
      NoTrailingSlash(s[..|s| - 1]);
    }
  }

  lemma NormalHasNoTrailingSlash(path: string)
    ensures var n := NormalizeOrgUnitPath(path);
            n != "" && n[0] == '/' && (n != "/" ==> |n| > 1 && n[|n| - 1] != '/')
  {
    var trimmed := Strip(path);
    var rooted := if trimmed != "" && trimmed[0] == '/' then trimmed else "/" + trimmed;
    NoTrailingSlash(rooted);
  }

  // ---- Exactly whom a unit contains ----

  function Slashes(n: nat): string {
    if n == 0 then "" else Slashes(n - 1) + "/"
  }

  /** One way to write a unit: space around it, a slash before it or none, and slashes after. */
  datatype Spelling = Spelling(before: string, rooted: bool, name: string, slashes: nat, after: string) {
    function Middle(): string {
      (if rooted then "/" else "") + name + Slashes(slashes)
    }

    function Text(): string {
      before + Middle() + after
    }

    predicate IsProper() {
      && AllSpace(before) && AllSpace(after) && IsTrimmed(Middle())
      && (name != "" ==> name[|name| - 1] != '/' && (rooted || name[0] != '/'))
    }
  }

  lemma {:induction false} TrailingSlashesGo(s: string, n: nat)
    requires s != "" ==> s[|s| - 1] != '/'
    ensures StripSlashes(s + Slashes(n)) == s
  {
    if n == 0 {
      assert s + "" == s;
    } else {
      var longer := s + Slashes(n);
      assert longer[..|longer| - 1] == s + Slashes(n - 1);
      TrailingSlashesGo(s, n - 1);
    }
  }

  lemma {:induction false} OneSlashFirst(n: nat)
    ensures "/" + Slashes(n) == Slashes(n + 1)
  {
    if n > 0 {
      OneSlashFirst(n - 1);
      assert "/" + Slashes(n) == ("/" + Slashes(n - 1)) + "/";
    }
  }

  /** However it is written, a unit is normalized to its name after one slash. */
  lemma SpellingsNormalize(u: Spelling)
    requires u.IsProper()
    ensures NormalizeOrgUnitPath(u.Text()) == "/" + u.name
  {
    StripDropsTheEnds(u.before, u.Middle(), u.after);
    if u.name == "" {
      OneSlashFirst(u.slashes);
      var n := if u.rooted || u.slashes == 0 then u.slashes + 1 else u.slashes;
      var rooted := if u.rooted then u.Middle() else if u.slashes == 0 then "/" + u.Middle() else u.Middle();
      assert rooted == "" + Slashes(n);
      TrailingSlashesGo("", n);
      FirstIsSlash(n);
    } else {
      assert "/" + u.name + Slashes(u.slashes) == if u.rooted then u.Middle() else "/" + u.Middle();
      TrailingSlashesGo("/" + u.name, u.slashes);
    }
  }

  lemma {:induction false} FirstIsSlash(n: nat)
    requires n > 0
    ensures Slashes(n) != "" && Slashes(n)[0] == '/'
  {
    if n > 1 {
      FirstIsSlash(n - 1);
    }
  }

  lemma {:induction false} SlashesStripped(s: string) returns (n: nat)
    ensures s == StripSlashes(s) + Slashes(n) && (StripSlashes(s) != "" ==> StripSlashes(s)[|StripSlashes(s)| - 1] != '/')
  {
    n := 0;
    if s != "" && s[|s| - 1] == '/' {
      var k := SlashesStripped(s[..|s| - 1]);
      n := k + 1;
      assert s == s[..|s| - 1] + "/";
    }
  }

  /** Every path is some spelling of some unit. */
  lemma EveryPathIsSpelled(path: string) returns (u: Spelling)
    ensures u.IsProper() && u.Text() == path
  {
    hide Strip, StripSlashes, Slashes, AllSpace, IsTrimmed;
    var before, after := StripLeavesTheMiddle(path);
    var middle := Strip(path);
    var rooted := middle != "" && middle[0] == '/';
    var lead := if rooted then "/" else "";
    var rest := if rooted then middle[1..] else middle;
    assert middle == lead + rest;
    var n := SlashesStripped(rest);
    var name := StripSlashes(rest);
    u := Spelling(before, rooted, name, n, after);
    assert lead + rest == lead + name + Slashes(n);
    assert u.Middle() == middle;
    assert name != "" ==> name[0] == rest[0];
  }

  /** A user's unit matches a configured one, however both are written, if and only if that
      is the root, or the same, or the user's lies under it. A user without one matches none. */
  lemma MatchesExactlyWhenUnder(user: Spelling, target: Spelling)
    requires user.IsProper() && target.IsProper()
    ensures OrgUnitMatches(Some(user.Text()), target.Text()) <==>
              user.Text() != "" && (target.name == "" || user.name == target.name || target.name + "/" <= user.name)
    ensures !OrgUnitMatches(None, target.Text())
  {
    SpellingsNormalize(user);
    SpellingsNormalize(target);
    AfterOneSlash(user.name, target.name);
    hide NormalizeOrgUnitPath, Strip, Slashes, AllSpace, IsTrimmed;
  }

  lemma AfterOneSlash(a: string, b: string)
    ensures "/" + a == "/" + b <==> a == b
    ensures "/" + b + "/" <= "/" + a <==> b + "/" <= a
    ensures "/" + a == "/" <==> a == ""
  {
    var x, y := "/" + a, "/" + b;
    assert x[1..] == a && y[1..] == b;
    if y + "/" <= x {
      assert x[1..|y| + 1] == b + "/";
    }
    if b + "/" <= a {
      assert x == "/" + (b + "/") + a[|b| + 1..];
    }
  }

  /** Whom the organisation tracks: the units it lists, or, when it lists none, its staff's. */
  lemma OrgScopeExactly(includes: seq<string>, staffPath: string, p: string)
    ensures p in OrgScope(includes, staffPath) <==>
              p != "" && (p in includes || (p == staffPath && forall i :: i in includes ==> i == ""))
  {
    NonEmptyMembers(includes);
    EmptyOrSome(NonEmpty(includes));
  }

  lemma {:induction false} AllowedAreUnderTheOrg(paths: seq<string>, includes: seq<string>)
    ensures forall i :: 0 <= i < |Allowed(paths, includes)| ==> MatchesAny(Some(Allowed(paths, includes)[i]), includes)
  {
    if paths != [] {
      AllowedAreUnderTheOrg(paths[1..], includes);
    }
  }

  /** The device's list and the organisation's have nothing in common: there is some path
      on each, and none of the device's is a unit of the organisation's or under one. */
  predicate EmptyIntersection(devicePaths: seq<string>, orgIncludes: seq<string>) {
    && orgIncludes != []
    && (exists i :: 0 <= i < |devicePaths| && devicePaths[i] != "")
    && (forall i :: 0 <= i < |devicePaths| && devicePaths[i] != "" ==> !MatchesAny(Some(devicePaths[i]), orgIncludes))
  }

  lemma {:induction false} NonEmptyMembers(paths: seq<string>)
    ensures forall p :: p in NonEmpty(paths) <==> p in paths && p != ""
  {
    if paths != [] {
      NonEmptyMembers(paths[1..]);
      assert paths == [paths[0]] + paths[1..];
    }
  }

  lemma {:induction false} AllowedMembers(paths: seq<string>, includes: seq<string>)
    ensures forall p :: p in Allowed(paths, includes) <==> p in paths && MatchesAny(Some(p), includes)
  {
    hide MatchesAny;
    if paths != [] {
      AllowedMembers(paths[1..], includes);
      assert paths == [paths[0]] + paths[1..];
    }
  }

  lemma EmptyOrSome(paths: seq<string>)
    ensures paths == [] || paths[0] in paths
  {
  }

  /** That is when the device's list, intersected with the organisation's, comes out empty. */
  lemma EmptyExactlyWhenNothingInCommon(devicePaths: seq<string>, orgIncludes: seq<string>)
    ensures EmptyIntersection(devicePaths, orgIncludes)
            <==> NonEmpty(devicePaths) != [] && orgIncludes != [] && DeviceScope(devicePaths, orgIncludes) == []
  {
    hide MatchesAny, NonEmpty, Allowed;
    var paths := NonEmpty(devicePaths);
    NonEmptyMembers(devicePaths);
    AllowedMembers(paths, orgIncludes);
    EmptyOrSome(paths);
    EmptyOrSome(Allowed(paths, orgIncludes));
    assert forall i :: 0 <= i < |devicePaths| ==> devicePaths[i] in devicePaths;
    if orgIncludes != [] && paths != [] && Allowed(paths, orgIncludes) != [] {
      var p := Allowed(paths, orgIncludes)[0];
      assert p in paths && p in devicePaths && MatchesAny(Some(p), orgIncludes);
      var i :| 0 <= i < |devicePaths| && devicePaths[i] == p;
    }
    if paths != [] {
      assert paths[0] in devicePaths;
      var i :| 0 <= i < |devicePaths| && devicePaths[i] == paths[0];
    }
    forall i | 0 <= i < |devicePaths| && devicePaths[i] != "" && MatchesAny(Some(devicePaths[i]), orgIncludes)
      ensures paths != [] && Allowed(paths, orgIncludes) != []
    {
      assert devicePaths[i] in paths && devicePaths[i] in Allowed(paths, orgIncludes);
    }
  }

  /** Exactly whom a device's scope admits that the organisation's rejects: nobody,
      unless the two lists have nothing in common; then everyone outside the
      organisation's list whom no exclude removes. */
  lemma ScopeWidensExactlyWhenEmpty(devicePaths: seq<string>, orgIncludes: seq<string>, excludes: seq<string>, user: Option<string>)
    ensures OrgUnitIncluded(user, DeviceScope(devicePaths, orgIncludes), excludes) && !OrgUnitIncluded(user, orgIncludes, excludes)
            <==> EmptyIntersection(devicePaths, orgIncludes) && !MatchesAny(user, orgIncludes) && !MatchesAny(user, excludes)
  {
    var scope := DeviceScope(devicePaths, orgIncludes);
    EmptyExactlyWhenNothingInCommon(devicePaths, orgIncludes);
    hide EmptyIntersection;
    if NonEmpty(devicePaths) != [] && orgIncludes != [] && MatchesAny(user, scope) {
      var paths := NonEmpty(devicePaths);
      AllowedAreUnderTheOrg(paths, orgIncludes);
      var i :| 0 <= i < |scope| && OrgUnitMatches(user, scope[i]);
      var k :| 0 <= k < |orgIncludes| && OrgUnitMatches(Some(scope[i]), orgIncludes[k]);
      MatchingIsTransitive(user, scope[i], orgIncludes[k]);
    }
  }

  lemma MatchesAnyMember(user: Option<string>, configured: seq<string>)
    ensures MatchesAny(user, configured) <==> exists p :: p in configured && OrgUnitMatches(user, p)
  {
    hide OrgUnitMatches;
    assert forall i :: 0 <= i < |configured| ==> configured[i] in configured;
  }

  /** Exactly whom a device admits: nobody excluded, and of the others whom the organisation
      tracks if the device lists no unit; or else those under a unit it lists, as long as the
      organisation tracks that unit, or tracks everybody; or else, by the flaw, everyone. */
  lemma DeviceAdmitsExactlyWhen(devicePaths: seq<string>, orgIncludes: seq<string>, excludes: seq<string>, user: Option<string>)
    ensures var unlisted := forall p :: p in devicePaths ==> p == "";
            OrgUnitIncluded(user, DeviceScope(devicePaths, orgIncludes), excludes) <==>
              && (forall x :: x in excludes ==> !OrgUnitMatches(user, x))
              && (|| EmptyIntersection(devicePaths, orgIncludes)
                  || (unlisted && (orgIncludes == [] || exists o :: o in orgIncludes && OrgUnitMatches(user, o)))
                  || exists p :: && p in devicePaths && p != "" && OrgUnitMatches(user, p)
                                 && (orgIncludes == [] || exists o :: o in orgIncludes && OrgUnitMatches(Some(p), o)))
  {
    EmptyExactlyWhenNothingInCommon(devicePaths, orgIncludes);
    var paths := NonEmpty(devicePaths);
    NonEmptyMembers(devicePaths);
    EmptyOrSome(paths);
    AllowedMembers(paths, orgIncludes);
    MatchesAnyMember(user, excludes);
    MatchesAnyMember(user, orgIncludes);
    MatchesAnyMember(user, DeviceScope(devicePaths, orgIncludes));
    forall p {
      MatchesAnyMember(Some(p), orgIncludes);
    }
    hide EmptyIntersection, MatchesAny, OrgUnitMatches, NonEmpty, Allowed;
  }

  /** A narrowed scope only narrows: with something in common, whoever the device admits
      lies under one of its own units and one of the organisation's. */
  lemma ScopeNarrows(devicePaths: seq<string>, orgIncludes: seq<string>, excludes: seq<string>, user: Option<string>)
    requires !EmptyIntersection(devicePaths, orgIncludes)
    requires OrgUnitIncluded(user, DeviceScope(devicePaths, orgIncludes), excludes)
    ensures OrgUnitIncluded(user, orgIncludes, excludes)
  {
    ScopeWidensExactlyWhenEmpty(devicePaths, orgIncludes, excludes, user);
  }

  /** A copier scoped to a building the organisation does not track admits a student. */
  lemma UntrackedBuildingAdmitsEveryone()
    ensures !OrgUnitIncluded(Some("/Students"), ["/Staff"], [])
    ensures OrgUnitIncluded(Some("/Students"), DeviceScope(["/Annex"], ["/Staff"]), [])
  {
    assert StripRight("/Students") == "/Students" && StripRight("/Annex") == "/Annex" && StripRight("/Staff") == "/Staff";
    assert NormalizeOrgUnitPath("/Students") == "/Students";
    assert NormalizeOrgUnitPath("/Staff") == "/Staff";
    assert NormalizeOrgUnitPath("/Annex") == "/Annex";
    assert NonEmpty(["/Annex"]) == ["/Annex"] by {
      assert ["/Annex"][1..] == [];
    }
    assert "/Students"[1] == 'S' && "/Students"[3] == 'u' && "/Staff/"[3] == 'a';
    assert !OrgUnitMatches(Some("/Students"), "/Staff");
    assert "/Annex"[1] == 'A' && "/Staff/"[1] == 'S';
    assert !OrgUnitMatches(Some("/Annex"), "/Staff");
    assert Allowed(["/Annex"], ["/Staff"]) == [] by {
      assert ["/Annex"][1..] == [];
    }
  }
}
