/** apps/api/app/notifications/conditions.py: one row per active condition, one event
    per row. Each operation run on its own. Times are in seconds. */
module Conditions {
  import opened Prelude

  datatype Kind = PrinterAttention | PrinterError | TonerLow | QuotaExceeded

  datatype Settings = Settings(enabled: bool, kinds: set<Kind>, settleMinutes: int)

  predicate KindEnabled(settings: Option<Settings>, kind: Kind) {
    settings.Some? && settings.value.enabled && kind in settings.value.kinds
  }

  function Settle(settings: Option<Settings>): nat {
    if settings.Some? && settings.value.settleMinutes > 0 then 60 * settings.value.settleMinutes else 0
  }

  /** The arguments of one `observe`. */
  datatype Call = Call(kind: Kind, key: string, immediate: bool, settings: Option<Settings>, now: int)

  /** A state row. `id` is its primary key, never used twice; `bornOff` records that the
      kind was off when the row was made. */
  datatype State = State(id: nat, firstSeen: int, lastSeen: int, notified: Option<int>, bornOff: bool)

  datatype Event = Event(key: string, kind: Kind, at: int)

  function NewState(call: Call, id: nat): State {
    var on := KindEnabled(call.settings, call.kind);
    State(id, call.now, call.now, if on then None else Some(call.now), !on)
  }

  /** Whether a session that has read `state` goes on to claim it. */
  predicate Due(call: Call, state: State) {
    && state.notified.None?
    && KindEnabled(call.settings, call.kind)
    && (call.immediate || call.now - state.firstSeen >= Settle(call.settings))
  }

  // ---- One session on its own ----

  datatype Table = Table(rows: map<string, State>, nextId: nat)

  /** `observe`, when nobody else touches the table meanwhile. */
  function Observed(t: Table, call: Call): (Table, Option<Event>) {
    var created := call.key !in t.rows;
    var state := if created then NewState(call, t.nextId) else t.rows[call.key];
    var nextId := if created then t.nextId + 1 else t.nextId;
    if created && !call.immediate then
      (Table(t.rows[call.key := state], nextId), None)
    else
      var seen := state.(lastSeen := call.now);
      if Due(call, state) then
        (Table(t.rows[call.key := seen.(notified := Some(call.now))], nextId), Some(Event(call.key, call.kind, call.now)))
      else
        (Table(t.rows[call.key := seen], nextId), None)
  }

  class NotificationStore {
    var rows: map<string, State>
    var nextId: nat
    var events: seq<Event>

    constructor ()
      ensures rows == map[] && events == []
    {
      rows, nextId, events := map[], 0, [];
    }

    method Observe(call: Call) returns (raised: Option<Event>)
      modifies this
      ensures (Table(rows, nextId), raised) == Observed(Table(old(rows), old(nextId)), call)
      ensures events == if raised.Some? then old(events) + [raised.value] else old(events)
    {
      raised := None;
      ghost var before := Table(rows, nextId);
      if call.key !in rows {
        rows := rows[call.key := NewState(call, nextId)];
        nextId := nextId + 1;
        if !call.immediate {
          return;
        }
      }
      var state := rows[call.key];
      rows := rows[call.key := state.(lastSeen := call.now)];
      assert rows == before.rows[call.key := state.(lastSeen := call.now)];
      if state.notified.Some? || !KindEnabled(call.settings, call.kind) {
        return;
      }
      if !call.immediate && call.now - state.firstSeen < Settle(call.settings) {
        return;
      }
      rows := rows[call.key := rows[call.key].(notified := Some(call.now), lastSeen := call.now)];
      assert rows == before.rows[call.key := state.(lastSeen := call.now, notified := Some(call.now))];
      raised := Some(Event(call.key, call.kind, call.now));
      events := events + [raised.value];
    }

    method Clear(key: string)
      modifies this`rows
      ensures rows == old(rows) - {key}
    {
      rows := rows - {key};
    }

    /** `clear_missing`: the keys under a prefix that were not observed this pass. */
    method ClearMissing(prefix: string, stillTrue: set<string>)
      modifies this`rows
      ensures rows == map key | key in old(rows) && (Under(prefix, key) ==> key in stillTrue) :: old(rows)[key]
    {
      hide Under;
      var found := set key | key in rows && Under(prefix, key);
      ghost var before := rows;
      while found != {}
        invariant found <= set key | key in rows && Under(prefix, key)
        invariant forall key :: key in rows ==> key in before && rows[key] == before[key]
        invariant forall key :: key in before && key !in rows ==> Under(prefix, key) && key !in stillTrue
        invariant forall key :: key in rows && Under(prefix, key) && key !in stillTrue ==> key in found
        decreases found
      {
        var key :| key in found;
        found := found - {key};
        if key !in stillTrue {
          rows := rows - {key};
        }
      }
    }

    /** The loop of `_notify_printer_error`: every reason the printer gives is observed. */
    method ObserveReasons(prefix: string, reasons: seq<string>, settings: Option<Settings>, now: int) returns (active: set<string>)
      modifies this
      ensures forall key :: key in active <==> exists r :: r in reasons && key == prefix + r
      ensures forall key :: key in active ==> SeenAt(key, rows, old(rows), now)
      ensures forall key :: key !in active ==> SameAt(key, rows, old(rows))
      ensures var all := ObservedAll(Table(old(rows), old(nextId)), Sightings(prefix, reasons, settings, now));
              all.0 == Table(rows, nextId) && events == old(events) + all.1
    {
      hide Observed, SeenAt;
      active := {};
      ghost var start, calls := Table(rows, nextId), Sightings(prefix, reasons, settings, now);
      NothingSeen(start);
      assert calls[..0] == [];
      for i := 0 to |reasons|
        invariant ObservedAll(start, calls[..i]).0 == Table(rows, nextId)
        invariant events == old(events) + ObservedAll(start, calls[..i]).1
        invariant forall key :: key in active <==> exists r :: r in reasons[..i] && key == prefix + r
        invariant forall key :: key in active ==> SeenAt(key, rows, old(rows), now)
        invariant forall key :: key !in active ==> SameAt(key, rows, old(rows))
      {
        var key := prefix + reasons[i];
        assert reasons[..i + 1] == reasons[..i] + [reasons[i]];
        ghost var before := Table(rows, nextId);
        assert Front(calls[..i + 1]) == calls[..i] && Last(calls[..i + 1]) == calls[i];
        OneMoreSeen(start, calls[..i + 1]);
        OneSighting(before, Call(PrinterError, key, false, settings, now));
        var _ := Observe(Call(PrinterError, key, false, settings, now));
        SightingsAddUp(key, old(rows), before.rows, rows, active, now);
        active := active + {key};
      }
      assert reasons[..|reasons|] == reasons && calls[..|calls|] == calls;
    }

    /** `_notify_printer_error`: observe every reason the printer gives, then clear
        what it no longer gives. A condition that lasts keeps its first sighting. */
    method NotifyPrinterError(prefix: string, isError: bool, statusReasons: seq<string>, settings: Option<Settings>, now: int)
      requires Plain(prefix)
      modifies this
      ensures forall key :: prefix <= key ==>
                (key in rows <==> exists r :: r in ReportedReasons(isError, statusReasons) && key == prefix + r)
      ensures forall key :: key in rows && prefix <= key ==> SeenAt(key, rows, old(rows), now)
      ensures forall key :: !(prefix <= key) ==> SameAt(key, rows, old(rows))
      ensures events == old(events) + ObservedAll(Table(old(rows), old(nextId)),
                                                  Sightings(prefix, ReportedReasons(isError, statusReasons), settings, now)).1
    {
      hide ReportedReasons;
      var active := ObserveReasons(prefix, ReportedReasons(isError, statusReasons), settings, now);
      ghost var observed := rows;
      ClearMissing(prefix, active);
      hide Under;
      forall key
        ensures prefix <= key ==> (key in rows <==> key in active)
        ensures key in rows && prefix <= key ==> SeenAt(key, rows, old(rows), now)
        ensures !(prefix <= key) ==> SameAt(key, rows, old(rows))
      {
        PlainPrefix(prefix, key);
        assert key in active ==> SeenAt(key, observed, old(rows), now);
        assert key !in active ==> SameAt(key, observed, old(rows));
      }
    }
  }

  /** SQL's LIKE: % is any text, _ any one character, and a backslash takes the next
      character as it is. */
  predicate Like(pattern: string, s: string)
    decreases |pattern| + |s|
  {
    if pattern == "" then s == ""
    else if pattern[0] == '%' then Like(pattern[1..], s) || (s != "" && Like(pattern, s[1..]))
    else if pattern[0] == '_' then s != "" && Like(pattern[1..], s[1..])
    else if pattern[0] == '\\' && |pattern| > 1 then s != "" && s[0] == pattern[1] && Like(pattern[2..], s[1..])
    else s != "" && s[0] == pattern[0] && Like(pattern[1..], s[1..])
  }

  predicate Under(prefix: string, key: string) {
    Like(prefix + "%", key)
  }

  /** No wildcard and no escape, as in a kind and a printer's id with colons. */
  predicate Plain(prefix: string) {
    '%' !in prefix && '_' !in prefix && '\\' !in prefix
  }

  lemma {:induction false} AnythingIsLike(s: string)
    ensures Like("%", s)
    decreases |s|
  {
    if s == "" {
      assert "%"[1..] == "";
    } else {
      AnythingIsLike(s[1..]);
    }
  }

  /** A percent sign takes any stretch of the text, an underscore one character, a backslash
      the next character as it is, and everything else itself. */
  lemma {:induction false} LikeReads(rest: string, s: string, c: char)
    ensures Like("%" + rest, s) <==> exists k :: 0 <= k <= |s| && Like(rest, s[k..])
    ensures Like("_" + rest, [c] + s) <==> Like(rest, s)
    ensures Like(['\\', c] + rest, s) <==> s != "" && s[0] == c && Like(rest, s[1..])
    ensures c !in "%_\\" ==> (Like([c] + rest, s) <==> s != "" && s[0] == c && Like(rest, s[1..]))
    decreases |s|
  {
    assert ("%" + rest)[1..] == rest && ("_" + rest)[1..] == rest && ([c] + rest)[1..] == rest;
    assert (['\\', c] + rest)[2..] == rest && ([c] + s)[1..] == s && s[0..] == s;
    if s != "" {
      LikeReads(rest, s[1..], c);
      assert forall k :: 1 <= k <= |s| ==> s[k..] == s[1..][k - 1..];
      assert forall k :: 0 <= k <= |s[1..]| ==> s[1..][k..] == s[k + 1..];
    }
  }

  /** Under a prefix without wildcards are exactly the keys that begin with it. */
  lemma {:induction false} PlainPrefix(prefix: string, key: string)
    requires Plain(prefix)
    ensures Under(prefix, key) <==> prefix <= key
    decreases |prefix|
  {
    var pattern := prefix + "%";
    if prefix == "" {
      assert pattern == "%";
      AnythingIsLike(key);
    } else if key != "" && key[0] == prefix[0] {
      assert pattern[0] == prefix[0] && pattern[1..] == prefix[1..] + "%";
      PlainPrefix(prefix[1..], key[1..]);
      assert prefix == [prefix[0]] + prefix[1..] && key == [key[0]] + key[1..];
    } else {
      assert pattern[0] == prefix[0];
    }
  }

  /** A key's row after a sighting at `now`: last seen then, first seen as before if it
      was there. */
  ghost predicate SeenAt(key: string, rows: map<string, State>, before: map<string, State>, now: int) {
    && key in rows && rows[key].lastSeen == now
    && rows[key].firstSeen == (if key in before then before[key].firstSeen else now)
  }

  lemma SightingsAddUp(key: string, start: map<string, State>, before: map<string, State>, after: map<string, State>, active: set<string>, now: int)
    requires forall k :: k in active ==> SeenAt(k, before, start, now)
    requires forall k :: k !in active ==> SameAt(k, before, start)
    requires SeenAt(key, after, before, now) && forall k :: k != key ==> SameAt(k, after, before)
    ensures forall k :: k in active + {key} ==> SeenAt(k, after, start, now)
    ensures forall k :: k !in active + {key} ==> SameAt(k, after, start)
  {
    assert SameAt(key, before, start) || SeenAt(key, before, start, now);
    forall k | k in active + {key}
      ensures SeenAt(k, after, start, now)
    {
      if k != key {
        assert k in active && SeenAt(k, before, start, now) && SameAt(k, after, before);
      }
    }
    forall k | k !in active + {key}
      ensures SameAt(k, after, start)
    {
      assert k !in active && k != key && SameAt(k, before, start) && SameAt(k, after, before);
    }
  }

  /** The reasons a printer is reported for: those it gives, or just that it is in error. */
  function ReportedReasons(isError: bool, statusReasons: seq<string>): seq<string> {
    if !isError then [] else if statusReasons == [] then ["error"] else statusReasons
  }

  /** A sighting touches its own row only, and never moves the first sighting. */
  lemma OneSighting(t: Table, call: Call)
    ensures var after := Observed(t, call).0.rows;
            SeenAt(call.key, after, t.rows, call.now) && forall key :: key != call.key ==> SameAt(key, after, t.rows)
  {
    hide KindEnabled, Settle;
  }

  ghost predicate SameAt(key: string, a: map<string, State>, b: map<string, State>) {
    (key in a <==> key in b) && (key in a ==> a[key] == b[key])
  }

  /** One sighting after another, and the events they raise. */
  function ObservedAll(t: Table, calls: seq<Call>): (Table, seq<Event>) {
    if calls == [] then (t, [])
    else
      var (t', events) := ObservedAll(t, Front(calls));
      var (t'', raised) := Observed(t', Last(calls));
      (t'', if raised.Some? then events + [raised.value] else events)
  }

  lemma NothingSeen(t: Table)
    ensures ObservedAll(t, []) == (t, [])
  {
  }

  lemma OneMoreSeen(t: Table, calls: seq<Call>)
    requires calls != []
    ensures var (t', events) := ObservedAll(t, Front(calls));
            var (t'', raised) := Observed(t', Last(calls));
            ObservedAll(t, calls) == (t'', if raised.Some? then events + [raised.value] else events)
  {
  }

  /** What a poll loop reports of a printer that gives these reasons. */
  function Sightings(prefix: string, reasons: seq<string>, settings: Option<Settings>, now: int): (calls: seq<Call>)
    ensures |calls| == |reasons|
  {
    seq(|reasons|, i requires 0 <= i < |reasons| => Call(PrinterError, prefix + reasons[i], false, settings, now))
  }

  /** The passes a poll loop makes while a condition lasts, oldest first. */
  function Passes(call: Call, times: seq<int>): seq<Call> {
    seq(|times|, i requires 0 <= i < |times| => call.(now := times[i]))
  }

  function Watched(t: Table, call: Call, times: seq<int>): (Table, seq<Event>) {
    ObservedAll(t, Passes(call, times))
  }

  lemma OneMoreWatched(t: Table, call: Call, times: seq<int>)
    requires times != []
    ensures var (t', events) := Watched(t, call, Front(times));
            var (t'', raised) := Observed(t', call.(now := Last(times)));
            Watched(t, call, times) == (t'', if raised.Some? then events + [raised.value] else events)
  {
    hide Observed, ObservedAll;
    OneMoreSeen(t, Passes(call, times));
    assert Front(Passes(call, times)) == Passes(call, Front(times));
  }

  predicate FirstPastWindow(times: seq<int>, settle: int, i: int) {
    && 1 <= i < |times| && times[i] - times[0] >= settle
    && forall j :: 1 <= j < i ==> times[j] - times[0] < settle
  }

  ghost predicate OnTime(times: seq<int>, settle: int, events: seq<Event>) {
    if events == [] then forall i :: 1 <= i < |times| ==> times[i] - times[0] < settle
    else |events| == 1 && exists i :: FirstPastWindow(times, settle, i) && events[0].at == times[i]
  }

  lemma OnePassMore(times: seq<int>, settle: int, events: seq<Event>, last: int, raised: Option<Event>)
    requires times != [] && OnTime(times, settle, events)
    requires raised.Some? <==> events == [] && last - times[0] >= settle
    requires raised.Some? ==> raised.value.at == last
    ensures OnTime(times + [last], settle, if raised.Some? then events + [raised.value] else events)
  {
    var longer := times + [last];
    assert forall k :: 0 <= k < |times| ==> longer[k] == times[k];
    if raised.Some? {
      assert FirstPastWindow(longer, settle, |times|);
    } else if events != [] {
      var i :| FirstPastWindow(times, settle, i) && events[0].at == times[i];
      assert FirstPastWindow(longer, settle, i);
    }
  }

  /** A condition seen on every pass is reported once, on the first pass after the first
      sighting that finds the settle window elapsed, and not before. */
  lemma {:induction false} ReportedOnceAndOnTime(t: Table, call: Call, times: seq<int>)
    requires call.key !in t.rows && !call.immediate && KindEnabled(call.settings, call.kind) && times != []
    ensures var (t', events) := Watched(t, call, times);
            && call.key in t'.rows && t'.rows[call.key].firstSeen == times[0]
            && (t'.rows[call.key].notified.None? <==> events == [])
            && OnTime(times, Settle(call.settings), events)
  {
    var n := |times| - 1;
    OneMoreWatched(t, call, times);
    assert Front(times) == times[..n] && Last(times) == times[n];
    if n == 0 {
      NothingWatched(t, call);
    } else {
      ReportedOnceAndOnTime(t, call, times[..n]);
      var (t', events) := Watched(t, call, times[..n]);
      var (_, raised) := Observed(t', call.(now := times[n]));
      hide Watched;
      OnePassMore(times[..n], Settle(call.settings), events, times[n], raised);
      assert times[..n] + [times[n]] == times;
    }
  }

  lemma NothingWatched(t: Table, call: Call)
    ensures Watched(t, call, []) == (t, [])
  {
  }

  // ---- Exactly what one sighting does ----

  /** Notifications are on, and so is this kind. */
  ghost predicate IsOn(settings: Option<Settings>, kind: Kind) {
    exists s :: settings == Some(s) && s.enabled && kind in s.kinds
  }

  /** The condition has been known for at least the settle window. */
  predicate KnownLongEnough(row: State, settings: Option<Settings>, now: int) {
    settings.Some? && now - row.firstSeen >= 0 && now - row.firstSeen >= 60 * settings.value.settleMinutes
  }

  /** Nobody has been told of the condition: there is no row, or none that is notified. */
  predicate Untold(rows: map<string, State>, key: string) {
    key in rows ==> rows[key].notified.None?
  }

  /** A sighting raises its event if and only if its kind is on and nobody has been told,
      and either it is immediate or the condition was known before, for long enough. */
  lemma RaisedExactlyWhen(t: Table, call: Call)
    ensures var raised := Observed(t, call).1;
            && (raised.Some? <==> && IsOn(call.settings, call.kind) && Untold(t.rows, call.key)
                                  && (call.immediate || (call.key in t.rows && KnownLongEnough(t.rows[call.key], call.settings, call.now))))
            && (raised.Some? ==> raised.value == Event(call.key, call.kind, call.now))
  {
  }

  /** Whether anybody is told of the condition is noted when its event is raised, and when
      its row is made while its kind is off, and at no other time. */
  lemma NotedExactlyWhen(t: Table, call: Call)
    ensures var (after, raised) := Observed(t, call);
            && call.key in after.rows && after.rows[call.key].lastSeen == call.now
            && (call.key in t.rows ==>
                 && after.nextId == t.nextId && after.rows[call.key].id == t.rows[call.key].id
                 && after.rows[call.key].firstSeen == t.rows[call.key].firstSeen
                 && after.rows[call.key].notified == if raised.Some? then Some(call.now) else t.rows[call.key].notified)
            && (call.key !in t.rows ==>
                 && after.nextId == t.nextId + 1 && after.rows[call.key].id == t.nextId
                 && after.rows[call.key].firstSeen == call.now
                 && after.rows[call.key].notified == if raised.Some? || !IsOn(call.settings, call.kind) then Some(call.now) else None)
            && (forall key :: key != call.key ==> SameAt(key, after.rows, t.rows))
  {
  }

  /** An immediate condition is reported once, on its very first sighting, however long the
      settle window, and one that nobody was to be told of is not reported at all. */
  lemma {:induction false} ImmediateIsReportedAtOnce(t: Table, call: Call, times: seq<int>)
    requires call.immediate && times != []
    ensures var (t', events) := Watched(t, call, times);
            && events == (if IsOn(call.settings, call.kind) && Untold(t.rows, call.key) then [Event(call.key, call.kind, times[0])] else [])
            && (IsOn(call.settings, call.kind) ==> !Untold(t'.rows, call.key))
            && (!Untold(t.rows, call.key) ==> !Untold(t'.rows, call.key))
  {
    hide Observed, Watched, IsOn;
    var n := |times| - 1;
    OneMoreWatched(t, call, times);
    if n == 0 {
      NothingWatched(t, call);
      assert Front(times) == [];
      RaisedExactlyWhen(t, call.(now := times[0]));
      NotedExactlyWhen(t, call.(now := times[0]));
    } else {
      ImmediateIsReportedAtOnce(t, call, Front(times));
      var t' := Watched(t, call, Front(times)).0;
      RaisedExactlyWhen(t', call.(now := times[n]));
      NotedExactlyWhen(t', call.(now := times[n]));
    }
  }

  /** Sightings of different conditions do not get in each other's way: each raises what
      it would have raised alone. */
  lemma {:induction false} DifferentSightingsRaiseTheirOwn(t: Table, calls: seq<Call>, e: Event)
    requires forall i, j :: 0 <= i < j < |calls| ==> calls[i].key != calls[j].key
    ensures var (t', events) := ObservedAll(t, calls);
            && (e in events <==> exists i :: 0 <= i < |calls| && Observed(t, calls[i]).1 == Some(e))
            && (forall key :: (forall i :: 0 <= i < |calls| ==> calls[i].key != key) ==> SameAt(key, t'.rows, t.rows))
  {
    hide Observed, ObservedAll;
    if calls == [] {
      NothingSeen(t);
    } else {
      var n := |calls| - 1;
      OneMoreSeen(t, calls);
      DifferentSightingsRaiseTheirOwn(t, Front(calls), e);
      var (before, events) := ObservedAll(t, Front(calls));
      assert forall i :: 0 <= i < n ==> Front(calls)[i] == calls[i];
      assert SameAt(calls[n].key, before.rows, t.rows);
      RaisedExactlyWhen(before, calls[n]);
      RaisedExactlyWhen(t, calls[n]);
      assert Observed(before, calls[n]).1 == Observed(t, calls[n]).1;
      NotedExactlyWhen(before, calls[n]);
      forall key | forall i :: 0 <= i < |calls| ==> calls[i].key != key
        ensures SameAt(key, ObservedAll(t, calls).0.rows, t.rows)
      {
        assert calls[n].key != key;
        assert SameAt(key, before.rows, t.rows) && SameAt(key, Observed(before, calls[n]).0.rows, before.rows);
      }
    }
  }

  /** The event of a printer's error that was seen before, for long enough, and that nobody
      has been told of. */
  ghost predicate IsDueEvent(t: Table, key: string, settings: Option<Settings>, now: int, e: Event) {
    && IsOn(settings, PrinterError) && key in t.rows && t.rows[key].notified.None?
    && KnownLongEnough(t.rows[key], settings, now) && e == Event(key, PrinterError, now)
  }

  /** What a poll loop reports of a printer in error: each of its reasons, or just that it
      is in error. An event is raised for those of them that are due, and for no other. */
  lemma PrinterErrorsSettle(t: Table, prefix: string, isError: bool, statusReasons: seq<string>, settings: Option<Settings>, now: int, e: Event)
    requires forall i, j :: 0 <= i < j < |statusReasons| ==> statusReasons[i] != statusReasons[j]
    ensures e in ObservedAll(t, Sightings(prefix, ReportedReasons(isError, statusReasons), settings, now)).1 <==>
            exists r :: isError && (r in statusReasons || (statusReasons == [] && r == "error")) && IsDueEvent(t, prefix + r, settings, now, e)
  {
    hide Observed, ObservedAll, IsOn, KnownLongEnough;
    var reasons := ReportedReasons(isError, statusReasons);
    var calls := Sightings(prefix, reasons, settings, now);
    forall i, j | 0 <= i < j < |calls|
      ensures calls[i].key != calls[j].key
    {
      assert calls[i].key[|prefix|..] == reasons[i] && calls[j].key[|prefix|..] == reasons[j];
    }
    DifferentSightingsRaiseTheirOwn(t, calls, e);
    forall i | 0 <= i < |calls|
      ensures Observed(t, calls[i]).1 == Some(e) <==> IsDueEvent(t, prefix + reasons[i], settings, now, e)
    {
      RaisedExactlyWhen(t, calls[i]);
    }
    hide IsDueEvent;
    forall r
      ensures r in reasons <==> isError && (r in statusReasons || (statusReasons == [] && r == "error"))
    {
    }
    if r :| r in reasons && IsDueEvent(t, prefix + r, settings, now, e) {
      var i :| 0 <= i < |reasons| && reasons[i] == r;
      assert Observed(t, calls[i]).1 == Some(e);
    }
    if i :| 0 <= i < |calls| && Observed(t, calls[i]).1 == Some(e) {
      assert reasons[i] in reasons && IsDueEvent(t, prefix + reasons[i], settings, now, e);
    }
  }
}
