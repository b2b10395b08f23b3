/** apps/api/app/notifications/conditions.py: when every event keeps to the settle
    window, and a run in which one does not. */
module SettleWindow {
  import opened Prelude
  import opened Conditions
  import opened Sessions

  // ---- While the settings stay as they are ----

  /** Every session of the run has the same settings, and a key names a kind. */
  predicate Unchanging(s: Step, settings: Option<Settings>, kindOf: string -> Kind) {
    s.Begin? ==> s.call.settings == settings && s.call.kind == kindOf(s.call.key)
  }

  /** A row that was seen when its window had gone by, and by then was not notified. */
  predicate Overdue(key: string, row: State, settings: Option<Settings>, kindOf: string -> Kind) {
    && row.notified.None? && KindEnabled(settings, kindOf(key))
    && row.lastSeen - row.firstSeen >= Settle(settings)
  }

  /** The session holding the row is about to claim it. */
  predicate AboutToClaim(w: World, key: string)
    requires key in w.rows
  {
    var id := w.rows[key].id;
    id in w.locks && var n := w.locks[id];
    n in w.sessions && w.sessions[n].Claim? && w.sessions[n].call.key == key && w.sessions[n].flushed
  }

  ghost predicate CallsAgree(pc: Pc, settings: Option<Settings>, kindOf: string -> Kind) {
    pc != Done ==> pc.call.settings == settings && pc.call.kind == kindOf(pc.call.key)
  }

  ghost predicate PromptSession(pc: Pc, settings: Option<Settings>, kindOf: string -> Kind) {
    && CallsAgree(pc, settings, kindOf)
    && (pc.Flush? ==> !Overdue(pc.call.key, pc.read, settings, kindOf))
    && (pc.Claim? && !pc.call.immediate ==> pc.flushed)
  }

  /** No committed row is overdue: whoever sees one claims it before committing. */
  ghost predicate Prompt(w: World, settings: Option<Settings>, kindOf: string -> Kind) {
    && (forall k :: k in w.committed ==> !Overdue(k, w.committed[k], settings, kindOf))
    && (forall k :: k in w.rows && Overdue(k, w.rows[k], settings, kindOf) ==> AboutToClaim(w, k))
    && (forall n :: n in w.sessions ==> PromptSession(w.sessions[n], settings, kindOf))
    && (forall i :: 0 <= i < |w.raised| && !w.raised[i].call.immediate ==> w.raised[i].flushed)
  }

  /** What a session finds under a key is not overdue, unless it is about to claim it. */
  lemma FoundIsNotOverdue(w: World, n: nat, key: string, settings: Option<Settings>, kindOf: string -> Kind)
    requires Prompt(w, settings, kindOf) && n in w.sessions && !w.sessions[n].Claim? && Visible(w, n, key).Some?
    ensures !Overdue(key, Visible(w, n, key).value, settings, kindOf)
  {
    hide Overdue;
  }

  /** A session writes the one row it is about, which is then not overdue, or claimed next. */
  lemma WritingKeepsPrompt(w: World, n: nat, key: string, row: State, pc: Pc, w': World, settings: Option<Settings>, kindOf: string -> Kind)
    requires Prompt(w, settings, kindOf)
    requires n in w.sessions && w.sessions[n] != Done && w.sessions[n].call.key == key && PromptSession(pc, settings, kindOf)
    requires forall k :: k in w.rows && k != key ==> w.rows[k].id != row.id
    requires w'.rows == w.rows[key := row] && w'.locks == w.locks[row.id := n] && w'.committed == w.committed
    requires w'.sessions == w.sessions[n := pc] && w'.raised == w.raised
    requires !Overdue(key, row, settings, kindOf) || (pc.Claim? && pc.call.key == key && pc.flushed)
    ensures Prompt(w', settings, kindOf)
  {
    hide Overdue, PromptSession;
    forall k | k in w'.rows && Overdue(k, w'.rows[k], settings, kindOf)
      ensures AboutToClaim(w', k)
    {
      if k != key {
        assert AboutToClaim(w, k);
      }
    }
  }

  lemma InsertKeepsPrompt(w: World, n: nat, call: Call, brief: int, settings: Option<Settings>, kindOf: string -> Kind)
    requires Inv(w, brief) && Prompt(w, settings, kindOf) && Settle(settings) > 0
    requires n in w.sessions && w.sessions[n] == Insert(call) && call.key !in w.rows
    ensures Prompt(Advanced(w, n), settings, kindOf)
  {
    hide KindEnabled, Settle, Versions, Prompt, SessionInv, RaisedInv, Faithful;
    assert CallsAgree(w.sessions[n], settings, kindOf) by { PromptSessions(w, n, settings, kindOf); }
    var w' := Advanced(w, n);
    WritingKeepsPrompt(w, n, call.key, NewState(call, w.nextId), w'.sessions[n], w', settings, kindOf);
  }

  lemma PromptSessions(w: World, n: nat, settings: Option<Settings>, kindOf: string -> Kind)
    requires Prompt(w, settings, kindOf) && n in w.sessions
    ensures PromptSession(w.sessions[n], settings, kindOf)
  {
  }

  lemma FlushKeepsPrompt(w: World, n: nat, call: Call, read: State, due: bool, brief: int, settings: Option<Settings>, kindOf: string -> Kind)
    requires Inv(w, brief) && Prompt(w, settings, kindOf)
    requires n in w.sessions && w.sessions[n] == Flush(call, read, due) && Free(w, read.id, n)
    requires read.lastSeen != call.now && call.key in w.rows && w.rows[call.key].id == read.id
    ensures Prompt(Advanced(w, n), settings, kindOf)
  {
    hide KindEnabled, Settle, Versions, Prompt, RaisedInv, Faithful;
    PromptSessions(w, n, settings, kindOf);
    assert SessionInv(w, n, brief);
    var w' := Advanced(w, n);
    WritingKeepsPrompt(w, n, call.key, w.rows[call.key].(lastSeen := call.now), w'.sessions[n], w', settings, kindOf);
  }

  lemma ClaimKeepsPrompt(w: World, n: nat, call: Call, read: State, flushed: bool, brief: int, settings: Option<Settings>, kindOf: string -> Kind)
    requires Inv(w, brief) && Prompt(w, settings, kindOf)
    requires n in w.sessions && w.sessions[n] == Claim(call, read, flushed) && Marks(w, n, call) && Free(w, w.rows[call.key].id, n)
    ensures Prompt(Advanced(w, n), settings, kindOf)
  {
    hide KindEnabled, Settle, Due, Versions, Prompt, SessionInv, RaisedInv, Faithful;
    PromptSessions(w, n, settings, kindOf);
    var row := w.rows[call.key].(notified := Some(call.now), lastSeen := call.now);
    var w' := Advanced(w, n);
    var silent := w'.(raised := w.raised);
    WritingKeepsPrompt(w, n, call.key, row, Done, silent, settings, kindOf);
    RaisingKeepsPrompt(silent, w', Raised(call, w.rows[call.key], read, flushed), settings, kindOf);
  }

  lemma RaisingKeepsPrompt(w: World, w': World, r: Raised, settings: Option<Settings>, kindOf: string -> Kind)
    requires Prompt(w, settings, kindOf) && w' == w.(raised := w.raised + [r]) && (r.call.immediate || r.flushed)
    ensures Prompt(w', settings, kindOf)
  {
    hide Overdue, PromptSession;
    forall k | k in w'.rows && Overdue(k, w'.rows[k], settings, kindOf)
      ensures AboutToClaim(w', k)
    {
      assert AboutToClaim(w, k);
    }
  }

  /** A claim that marks nothing leaves no overdue row behind. */
  lemma IdleClaimIsNotOverdue(w: World, n: nat, brief: int, settings: Option<Settings>, kindOf: string -> Kind)
    requires Inv(w, brief) && Prompt(w, settings, kindOf)
    requires n in w.sessions && w.sessions[n].Claim? && !Marks(w, n, w.sessions[n].call)
    ensures forall k :: k in w.rows && Overdue(k, w.rows[k], settings, kindOf) ==> w.locks[w.rows[k].id] != n
  {
    hide KindEnabled, Settle, Due, Versions;
    forall k | k in w.rows && Overdue(k, w.rows[k], settings, kindOf)
      ensures w.locks[w.rows[k].id] != n
    {
      assert AboutToClaim(w, k);
    }
  }

  lemma AdvanceKeepsPrompt(w: World, n: nat, brief: int, settings: Option<Settings>, kindOf: string -> Kind)
    requires Inv(w, brief) && Prompt(w, settings, kindOf) && Settle(settings) > 0 && Enabled(w, Advance(n), brief)
    ensures Prompt(Advanced(w, n), settings, kindOf)
  {
    hide KindEnabled, Settle, Versions, RaisedInv, Faithful, DistinctIds;
    assert SessionInv(w, n, brief) && PromptSession(w.sessions[n], settings, kindOf);
    var pc := w.sessions[n];
    if pc.Insert? && pc.call.key !in w.rows {
      InsertKeepsPrompt(w, n, pc.call, brief, settings, kindOf);
    } else if pc.Flush? && pc.read.lastSeen != pc.call.now && pc.call.key in w.rows && w.rows[pc.call.key].id == pc.read.id {
      FlushKeepsPrompt(w, n, pc.call, pc.read, pc.due, brief, settings, kindOf);
    } else if pc.Claim? && Marks(w, n, pc.call) {
      MarkedIsFree(w, n, pc.call, brief);
      ClaimKeepsPrompt(w, n, pc.call, pc.read, pc.flushed, brief, settings, kindOf);
    } else {
      var next := Advanced(w, n).sessions[n];
      if next.Flush? {
        FoundIsNotOverdue(w, n, pc.call.key, settings, kindOf);
      }
      IdleStepKeepsPrompt(w, n, next, brief, settings, kindOf);
    }
  }

  lemma MarkedIsFree(w: World, n: nat, call: Call, brief: int)
    requires Inv(w, brief) && Marks(w, n, call) && Free(w, Visible(w, n, call.key).value.id, n)
    ensures Free(w, w.rows[call.key].id, n)
  {
    assert Versions(w, call.key);
  }

  lemma IdleStepKeepsPrompt(w: World, n: nat, next: Pc, brief: int, settings: Option<Settings>, kindOf: string -> Kind)
    requires Inv(w, brief) && Prompt(w, settings, kindOf) && n in w.sessions && PromptSession(next, settings, kindOf)
    requires w.sessions[n].Claim? ==> !Marks(w, n, w.sessions[n].call)
    ensures Prompt(Moved(w, n, next), settings, kindOf)
  {
    hide Overdue, PromptSession, RowsInv, RaisedInv, SessionInv, Faithful;
    if w.sessions[n].Claim? {
      IdleClaimIsNotOverdue(w, n, brief, settings, kindOf);
    }
    var w' := Moved(w, n, next);
    forall k | k in w'.rows && Overdue(k, w'.rows[k], settings, kindOf)
      ensures AboutToClaim(w', k)
    {
      assert AboutToClaim(w, k);
    }
  }

  lemma CommitKeepsPrompt(w: World, n: nat, settings: Option<Settings>, kindOf: string -> Kind)
    requires Prompt(w, settings, kindOf) && n in w.sessions && w.sessions[n] == Done
    ensures Prompt(Committed(w, n), settings, kindOf)
  {
    hide Overdue, PromptSession;
    var w' := Committed(w, n);
    forall k | k in w'.rows && Overdue(k, w'.rows[k], settings, kindOf)
      ensures AboutToClaim(w', k)
    {
      assert AboutToClaim(w, k);
    }
  }

  lemma StepKeepsPrompt(w: World, s: Step, brief: int, settings: Option<Settings>, kindOf: string -> Kind)
    requires Inv(w, brief) && Prompt(w, settings, kindOf) && Settle(settings) > 0
    requires Enabled(w, s, brief) && Unchanging(s, settings, kindOf)
    ensures Prompt(Apply(w, s), settings, kindOf)
  {
    hide Inv, Overdue, Advanced, Committed, Settle;
    match s {
      case Begin(n, call) =>
        assert PromptSession(Select(call), settings, kindOf);
      case Advance(n) => AdvanceKeepsPrompt(w, n, brief, settings, kindOf);
      case Commit(n) => CommitKeepsPrompt(w, n, settings, kindOf);
      case ClearKey(key) =>
      case Tick(now) =>
    }
  }

  lemma {:induction false} RunKeepsPrompt(w: World, steps: seq<Step>, brief: int, settings: Option<Settings>, kindOf: string -> Kind)
    requires Inv(w, brief) && Prompt(w, settings, kindOf) && Settle(settings) > 0 && Runs(w, steps, brief)
    requires forall i :: 0 <= i < |steps| ==> Unchanging(steps[i], settings, kindOf)
    ensures Prompt(After(w, steps), settings, kindOf)
    decreases |steps|
  {
    hide Inv, Prompt, Enabled, Apply, Settle, Unchanging;
    if steps != [] {
      StepKeepsPrompt(w, steps[0], brief, settings, kindOf);
      StepKeepsInv(w, steps[0], brief);
      RunKeepsPrompt(Apply(w, steps[0]), steps[1..], brief, settings, kindOf);
    }
  }

  /** While nobody changes the settings, and the window is not zero, every event that is
      not immediate keeps to the window, under any interleaving. */
  lemma SettledWhileSettingsStand(steps: seq<Step>, brief: int, settings: Option<Settings>, kindOf: string -> Kind, i: nat)
    requires Runs(EMPTY, steps, brief) && Settle(settings) > 0
    requires forall k :: 0 <= k < |steps| ==> Unchanging(steps[k], settings, kindOf)
    requires i < |After(EMPTY, steps).raised| && !After(EMPTY, steps).raised[i].call.immediate
    ensures After(EMPTY, steps).raised[i].flushed && Settled(After(EMPTY, steps).raised[i])
  {
    RunKeepsPrompt(EMPTY, steps, brief, settings, kindOf);
    FlushedEventsAreSettled(steps, brief, i);
  }

  // ---- A run in which they change ----

  lemma {:induction false} RunsInTwo(w: World, a: seq<Step>, b: seq<Step>, brief: int)
    requires Runs(w, a, brief) && Runs(After(w, a), b, brief)
    ensures Runs(w, a + b, brief) && After(w, a + b) == After(After(w, a), b)
    decreases |a|
  {
    if a == [] {
      assert a + b == b;
    } else {
      assert (a + b)[0] == a[0] && (a + b)[1..] == a[1..] + b;
      RunsInTwo(Apply(w, a[0]), a[1..], b, brief);
    }
  }

  lemma OneStepMore(start: World, done: seq<Step>, w: World, s: Step, brief: int)
    requires Runs(start, done, brief) && After(start, done) == w && Enabled(w, s, brief)
    ensures Runs(start, done + [s], brief) && After(start, done + [s]) == Apply(w, s)
  {
    assert [s][1..] == [];
    RunsInTwo(start, done, [s], brief);
  }

  /** A jam reported under a settle window of some minutes. */
  function Jam(now: int, minutes: int): Call {
    Call(PrinterError, "jam", false, Some(Settings(true, {PrinterError}, minutes)), now)
  }

  function JamRow(id: nat, first: int, last: int): State {
    State(id, first, last, None, false)
  }

  /** All is committed and nobody holds anything. */
  function Quiet(row: State, nextId: nat, sessions: map<nat, Pc>, clock: int): World {
    World(map["jam" := row], map["jam" := row], nextId, [], sessions, map[], clock)
  }

  /** The jam is first seen at 0, and ten minutes go by. */
  lemma SeenAtZero() returns (steps: seq<Step>)
    ensures Runs(EMPTY, steps, 60) && After(EMPTY, steps) == Quiet(JamRow(0, 0, 0), 1, map[], 600)
  {
    var call, row := Jam(0, 10), JamRow(0, 0, 0);
    OneStepMore(EMPTY, [], EMPTY, Begin(0, call), 60);
    steps := [] + [Begin(0, call)];
    var w1 := EMPTY.(sessions := map[0 := Select(call)]);
    OneStepMore(EMPTY, steps, w1, Advance(0), 60);
    steps := steps + [Advance(0)];
    var w2 := EMPTY.(sessions := map[0 := Insert(call)]);
    OneStepMore(EMPTY, steps, w2, Advance(0), 60);
    steps := steps + [Advance(0)];
    var w3 := World(map["jam" := row], map[], 1, [], map[0 := Done], map[0 := 0], 0);
    assert Apply(w2, Advance(0)) == w3;
    OneStepMore(EMPTY, steps, w3, Commit(0), 60);
    steps := steps + [Commit(0)];
    var w4 := Quiet(row, 1, map[], 0);
    assert Apply(w3, Commit(0)) == w4;
    OneStepMore(EMPTY, steps, w4, Tick(600), 60);
    steps := steps + [Tick(600)];
  }

  /** A session under a window of twenty minutes sees it at 600, and leaves it unclaimed. */
  lemma SeenAgainUnclaimed(before: seq<Step>) returns (steps: seq<Step>)
    requires Runs(EMPTY, before, 60) && After(EMPTY, before) == Quiet(JamRow(0, 0, 0), 1, map[], 600)
    ensures Runs(EMPTY, steps, 60) && After(EMPTY, steps) == Quiet(JamRow(0, 0, 600), 1, map[], 600)
  {
    var call, row, again := Jam(600, 20), JamRow(0, 0, 0), JamRow(0, 0, 600);
    var w0 := Quiet(row, 1, map[], 600);
    OneStepMore(EMPTY, before, w0, Begin(1, call), 60);
    steps := before + [Begin(1, call)];
    var w1 := Quiet(row, 1, map[1 := Select(call)], 600);
    OneStepMore(EMPTY, steps, w1, Advance(1), 60);
    steps := steps + [Advance(1)];
    var w2 := Quiet(row, 1, map[1 := Flush(call, row, false)], 600);
    assert Apply(w1, Advance(1)) == w2;
    OneStepMore(EMPTY, steps, w2, Advance(1), 60);
    steps := steps + [Advance(1)];
    var w3 := World(map["jam" := again], map["jam" := row], 1, [], map[1 := Done], map[0 := 1], 600);
    assert Apply(w2, Advance(1)) == w3;
    OneStepMore(EMPTY, steps, w3, Commit(1), 60);
    steps := steps + [Commit(1)];
    assert Apply(w3, Commit(1)) == Quiet(again, 1, map[], 600);
  }

  /** The window is put back to ten minutes. A session of the same instant reads the row,
      finds it due and has nothing to flush. */
  lemma ReadAndDue(before: seq<Step>) returns (steps: seq<Step>)
    requires Runs(EMPTY, before, 60) && After(EMPTY, before) == Quiet(JamRow(0, 0, 600), 1, map[], 600)
    ensures Runs(EMPTY, steps, 60)
    ensures After(EMPTY, steps) == Quiet(JamRow(0, 0, 600), 1, map[2 := Claim(Jam(600, 10), JamRow(0, 0, 600), false)], 600)
  {
    var call, row := Jam(600, 10), JamRow(0, 0, 600);
    var w0 := Quiet(row, 1, map[], 600);
    OneStepMore(EMPTY, before, w0, Begin(2, call), 60);
    steps := before + [Begin(2, call)];
    var w1 := Quiet(row, 1, map[2 := Select(call)], 600);
    OneStepMore(EMPTY, steps, w1, Advance(2), 60);
    steps := steps + [Advance(2)];
    var w2 := Quiet(row, 1, map[2 := Flush(call, row, true)], 600);
    assert Apply(w1, Advance(2)) == w2;
    OneStepMore(EMPTY, steps, w2, Advance(2), 60);
    steps := steps + [Advance(2)];
    assert Apply(w2, Advance(2)) == Quiet(row, 1, map[2 := Claim(call, row, false)], 600);
  }

  /** Meanwhile the jam is cleared. */
  lemma Cleared(before: seq<Step>, claim: Pc) returns (steps: seq<Step>)
    requires Runs(EMPTY, before, 60) && After(EMPTY, before) == Quiet(JamRow(0, 0, 600), 1, map[2 := claim], 600)
    ensures Runs(EMPTY, steps, 60) && After(EMPTY, steps) == World(map[], map[], 1, [], map[2 := claim], map[], 600)
  {
    var w0 := Quiet(JamRow(0, 0, 600), 1, map[2 := claim], 600);
    OneStepMore(EMPTY, before, w0, ClearKey("jam"), 60);
    steps := before + [ClearKey("jam")];
    assert Apply(w0, ClearKey("jam")) == World(map[], map[], 1, [], map[2 := claim], map[], 600);
  }

  /** It comes back, and that is committed. */
  lemma Back(before: seq<Step>, claim: Pc) returns (steps: seq<Step>)
    requires Runs(EMPTY, before, 60) && After(EMPTY, before) == World(map[], map[], 1, [], map[2 := claim], map[], 600)
    ensures Runs(EMPTY, steps, 60) && After(EMPTY, steps) == Quiet(JamRow(1, 600, 600), 2, map[2 := claim], 600)
  {
    hide Runs, After;
    var call, back := Jam(600, 10), JamRow(1, 600, 600);
    var w1 := World(map[], map[], 1, [], map[2 := claim], map[], 600);
    OneStepMore(EMPTY, before, w1, Begin(3, call), 60);
    steps := before + [Begin(3, call)];
    var w2 := w1.(sessions := map[2 := claim, 3 := Select(call)]);
    assert Apply(w1, Begin(3, call)) == w2;
    OneStepMore(EMPTY, steps, w2, Advance(3), 60);
    steps := steps + [Advance(3)];
    var w3 := w1.(sessions := map[2 := claim, 3 := Insert(call)]);
    assert Apply(w2, Advance(3)) == w3;
    OneStepMore(EMPTY, steps, w3, Advance(3), 60);
    steps := steps + [Advance(3)];
    var w4 := World(map["jam" := back], map[], 2, [], map[2 := claim, 3 := Done], map[1 := 3], 600);
    assert Apply(w3, Advance(3)) == w4;
    OneStepMore(EMPTY, steps, w4, Commit(3), 60);
    steps := steps + [Commit(3)];
    BackCommitted(w4, back, claim);
  }

  lemma BackCommitted(w: World, back: State, claim: Pc)
    requires w == World(map["jam" := back], map[], 2, [], map[2 := claim, 3 := Done], map[1 := 3], 600) && back.id == 1
    ensures Apply(w, Commit(3)) == Quiet(back, 2, map[2 := claim], 600)
  {
    var w' := Apply(w, Commit(3));
    assert w'.committed == map["jam" := back];
    assert w'.sessions == map[2 := claim];
    assert w'.locks == map[];
  }

  /** So the settle window can be jumped: the new row is marked at the age of zero. */
  lemma EarlyEventAfterRecurrence() returns (steps: seq<Step>)
    ensures Runs(EMPTY, steps, 60) && |After(EMPTY, steps).raised| == 1
    ensures var r := After(EMPTY, steps).raised[0];
            !r.call.immediate && Settle(r.call.settings) == 600 && !r.flushed && r.marked.id != r.read.id && !Settled(r)
  {
    steps := SeenAtZero();
    steps := SeenAgainUnclaimed(steps);
    steps := ReadAndDue(steps);
    var call, read, back := Jam(600, 10), JamRow(0, 0, 600), JamRow(1, 600, 600);
    steps := Cleared(steps, Claim(call, read, false));
    steps := Back(steps, Claim(call, read, false));
    var w := Quiet(back, 2, map[2 := Claim(call, read, false)], 600);
    OneStepMore(EMPTY, steps, w, Advance(2), 60);
    steps := steps + [Advance(2)];
    assert Apply(w, Advance(2)).raised == [Raised(call, back, read, false)];
  }
}
