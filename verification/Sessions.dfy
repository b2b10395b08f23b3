/** apps/api/app/notifications/conditions.py: any number of database sessions running
    `observe` statement by statement, with clears in between. */
module Sessions {
  import opened Prelude
  import opened Conditions

  /** Where a session stands inside `observe`. The flush writes `last_seen_at` to the
      row that was read, by primary key, before the claim runs or the session commits;
      it is skipped when the value would not change. */
  datatype Pc =
    | Select(call: Call)
    | Insert(call: Call)
    | Reselect(call: Call)
    | Flush(call: Call, read: State, due: bool)
    | Claim(call: Call, read: State, flushed: bool)
    | Done

  /** An event, with the row its claim marked and the row its session had read. */
  datatype Raised = Raised(call: Call, marked: State, read: State, flushed: bool)

  /** `rows` is the newest version of every row, `committed` what sessions that did not
      write it see. A row is locked by the session that wrote its newest version, until
      that session commits. */
  datatype World = World(
    rows: map<string, State>, committed: map<string, State>, nextId: nat, raised: seq<Raised>,
    sessions: map<nat, Pc>, locks: map<nat, nat>, clock: int)

  datatype Step =
    | Begin(session: nat, call: Call)
    | Advance(session: nat)
    | Commit(session: nat)
    | ClearKey(key: string)  // in a transaction of its own
    | Tick(now: int)

  predicate Free(w: World, row: nat, session: nat) {
    row in w.locks ==> w.locks[row] == session
  }

  predicate Wrote(w: World, session: nat, key: string) {
    key in w.rows && w.rows[key].id in w.locks && w.locks[w.rows[key].id] == session
  }

  /** The row a session finds under a key: its own version, or else what is committed. */
  function Visible(w: World, session: nat, key: string): Option<State> {
    if Wrote(w, session, key) then Some(w.rows[key]) else Found(w.committed, key)
  }

  /** A statement waits while the row it would write, or an uncommitted row with the key
      it would insert, is locked by another session. An insert comes within `brief` of
      the session's own reading of the clock. */
  ghost predicate Enabled(w: World, s: Step, brief: int) {
    match s
    case Begin(n, call) => n !in w.sessions && call.now <= w.clock
    case Advance(n) =>
      n in w.sessions && (match w.sessions[n]
        case Insert(call) => w.clock - call.now < brief && (call.key in w.rows ==> call.key in w.committed || Free(w, w.rows[call.key].id, n))
        case Flush(call, read, _) => Free(w, read.id, n)
        case Claim(call, _, _) => Visible(w, n, call.key).Some? ==> Free(w, Visible(w, n, call.key).value.id, n)
        case Done => false
        case _ => true)
    case Commit(n) => n in w.sessions && w.sessions[n] == Done
    case ClearKey(key) => key in w.committed ==> w.committed[key].id !in w.locks
    case Tick(now) => w.clock <= now
  }

  function AfterReading(call: Call, read: State): Pc {
    Flush(call, read, Due(call, read))
  }

  function Moved(w: World, n: nat, pc: Pc): World {
    w.(sessions := w.sessions[n := pc])
  }

  /** Session `n` writes a row, and holds it. */
  function Written(w: World, n: nat, key: string, row: State): World {
    w.(rows := w.rows[key := row], locks := w.locks[row.id := n])
  }

  function Advanced(w: World, n: nat): World
    requires n in w.sessions
  {
    match w.sessions[n]
    case Select(call) =>
      var found := Visible(w, n, call.key);
      Moved(w, n, if found.Some? then AfterReading(call, found.value) else Insert(call))
    case Insert(call) =>
      if call.key in w.rows then Moved(w, n, Done)
      else
        Moved(Written(w, n, call.key, NewState(call, w.nextId)).(nextId := w.nextId + 1), n,
              if call.immediate then Reselect(call) else Done)
    case Reselect(call) =>
      var found := Visible(w, n, call.key);
      Moved(w, n, if found.Some? then AfterReading(call, found.value) else Done)
    case Flush(call, read, due) =>
      if read.lastSeen == call.now then Moved(w, n, if due then Claim(call, read, false) else Done)
      else if call.key in w.rows && w.rows[call.key].id == read.id then
        Moved(Written(w, n, call.key, w.rows[call.key].(lastSeen := call.now)), n, if due then Claim(call, read, true) else Done)
      else Moved(w, n, Done)
    case Claim(call, read, flushed) =>
      if Visible(w, n, call.key).Some? && call.key in w.rows && w.rows[call.key].notified.None? then
        Moved(Written(w, n, call.key, w.rows[call.key].(notified := Some(call.now), lastSeen := call.now)), n, Done)
        .(raised := w.raised + [Raised(call, w.rows[call.key], read, flushed)])
      else Moved(w, n, Done)
    case Done => w
  }

  function Committed(w: World, n: nat): World {
    w.(committed := map key | key in w.rows && (Wrote(w, n, key) || key in w.committed)
                      :: if Wrote(w, n, key) then w.rows[key] else w.committed[key],
       sessions := w.sessions - {n},
       locks := map row | row in w.locks && w.locks[row] != n :: w.locks[row])
  }

  function Apply(w: World, s: Step): World {
    match s
    case Begin(n, call) => Moved(w, n, Select(call))
    case Advance(n) => if n in w.sessions then Advanced(w, n) else w
    case Commit(n) => Committed(w, n)
    case ClearKey(key) => if key in w.committed then w.(rows := w.rows - {key}, committed := w.committed - {key}) else w
    case Tick(now) => w.(clock := now)
  }

  ghost predicate Runs(w: World, steps: seq<Step>, brief: int)
    decreases |steps|
  {
    steps == [] || (Enabled(w, steps[0], brief) && Runs(Apply(w, steps[0]), steps[1..], brief))
  }

  function After(w: World, steps: seq<Step>): World
    decreases |steps|
  {
    if steps == [] then w else After(Apply(w, steps[0]), steps[1..])
  }

  const EMPTY := World(map[], map[], 0, [], map[], map[], 0)

  /** A session left alone: its statements one after another, then its commit. */
  function Alone(w: World, n: nat, call: Call): World {
    Apply(Driven(Apply(w, Begin(n, call)), n, 5), Commit(n))
  }

  function Driven(w: World, n: nat, statements: nat): World
    decreases statements
  {
    if statements == 0 then w else Driven(Apply(w, Advance(n)), n, statements - 1)
  }

  lemma {:induction false} DoneStaysDone(w: World, n: nat, statements: nat)
    requires w.sessions == map[n := Done]
    ensures Driven(w, n, statements) == w
    decreases statements
  {
    if statements > 0 {
      DoneStaysDone(w, n, statements - 1);
    }
  }

  ghost predicate DistinctIds(rows: map<string, State>, nextId: nat) {
    && (forall k :: k in rows ==> rows[k].id < nextId)
    && (forall k, l :: k in rows && l in rows && rows[k].id == rows[l].id ==> k == l)
  }

  /** Only session `n` is about, and only the row under `key` is not committed. */
  ghost predicate OnlyWrote(w: World, n: nat, key: string) {
    && DistinctIds(w.rows, w.nextId)
    && (forall l :: l in w.locks ==> w.locks[l] == n && key in w.rows && w.rows[key].id == l)
    && (forall k :: k in w.committed ==> k in w.rows && (k != key ==> w.committed[k] == w.rows[k]))
    && (forall k :: k in w.rows && k != key ==> k in w.committed && w.rows[k].id !in w.locks)
    && (key in w.rows && w.rows[key].id !in w.locks ==> key in w.committed && w.committed[key] == w.rows[key])
  }

  lemma WritingKeepsOnly(w: World, n: nat, key: string, row: State, w': World)
    requires OnlyWrote(w, n, key) && key in w.rows && row.id == w.rows[key].id
    requires w'.rows == w.rows[key := row] && w'.locks == w.locks[row.id := n]
    requires w'.committed == w.committed && w'.nextId == w.nextId
    ensures OnlyWrote(w', n, key)
  {
  }

  lemma SameRowsKeepOnly(w: World, n: nat, key: string, w': World)
    requires OnlyWrote(w, n, key)
    requires w'.rows == w.rows && w'.locks == w.locks && w'.committed == w.committed && w'.nextId == w.nextId
    ensures OnlyWrote(w', n, key)
  {
  }

  lemma OwnRowIsVisible(w: World, n: nat, key: string)
    requires OnlyWrote(w, n, key) && key in w.rows
    ensures Visible(w, n, key) == Some(w.rows[key])
  {
  }

  /** From its reading of a row on, a session left alone does what `observe` does. */
  lemma AloneFromReading(w: World, n: nat, call: Call, statements: nat)
    requires call.key in w.rows && OnlyWrote(w, n, call.key) && statements >= 2
    requires w.sessions == map[n := AfterReading(call, w.rows[call.key])]
    ensures var read := w.rows[call.key];
            var seen := read.(lastSeen := call.now);
            var end := Driven(w, n, statements);
            && end.sessions == map[n := Done] && OnlyWrote(end, n, call.key)
            && end.nextId == w.nextId
            && end.rows == w.rows[call.key := if Due(call, read) then seen.(notified := Some(call.now)) else seen]
            && |end.raised| == |w.raised| + (if Due(call, read) then 1 else 0)
  {
    hide Driven, OnlyWrote, Settle, KindEnabled;
    var read := w.rows[call.key];
    var w1 := Apply(w, Advance(n));
    var w2 := Apply(w1, Advance(n));
    OneStatementMore(w, n, statements);
    OneStatementMore(w1, n, statements - 1);
    AloneFlush(w, n, call);
    hide Apply;
    if Due(call, read) {
      AloneClaim(w1, n, call, read, read.lastSeen != call.now);
    } else {
      AloneDone(w1, n);
    }
    DoneStaysDone(w2, n, statements - 2);
  }

  lemma AloneDone(w: World, n: nat)
    requires w.sessions == map[n := Done]
    ensures Apply(w, Advance(n)) == w
  {
  }

  lemma AloneFlush(w: World, n: nat, call: Call)
    requires call.key in w.rows && OnlyWrote(w, n, call.key)
    requires w.sessions == map[n := AfterReading(call, w.rows[call.key])]
    ensures var read := w.rows[call.key];
            var w1 := Apply(w, Advance(n));
            && w1.rows == w.rows[call.key := read.(lastSeen := call.now)] && OnlyWrote(w1, n, call.key)
            && w1.nextId == w.nextId && w1.raised == w.raised
            && w1.sessions == map[n := if Due(call, read) then Claim(call, read, read.lastSeen != call.now) else Done]
  {
    hide Due, OnlyWrote;
    var read := w.rows[call.key];
    var w1 := Apply(w, Advance(n));
    if read.lastSeen == call.now {
      assert read.(lastSeen := call.now) == read && w.rows[call.key := read] == w.rows;
      SameRowsKeepOnly(w, n, call.key, w1);
    } else {
      WritingKeepsOnly(w, n, call.key, read.(lastSeen := call.now), w1);
    }
  }

  lemma AloneClaim(w: World, n: nat, call: Call, read: State, flushed: bool)
    requires call.key in w.rows && w.rows[call.key].notified.None? && OnlyWrote(w, n, call.key)
    requires w.sessions == map[n := Claim(call, read, flushed)]
    ensures var w1 := Apply(w, Advance(n));
            && w1.rows == w.rows[call.key := w.rows[call.key].(notified := Some(call.now), lastSeen := call.now)]
            && OnlyWrote(w1, n, call.key) && w1.nextId == w.nextId && |w1.raised| == |w.raised| + 1
            && w1.sessions == map[n := Done]
  {
    hide OnlyWrote;
    OwnRowIsVisible(w, n, call.key);
    WritingKeepsOnly(w, n, call.key, w.rows[call.key].(notified := Some(call.now), lastSeen := call.now), Apply(w, Advance(n)));
  }

  /** The commit publishes what the session wrote. */
  lemma AloneCommit(w: World, n: nat, key: string)
    requires OnlyWrote(w, n, key) && w.sessions == map[n := Done]
    ensures var w1 := Apply(w, Commit(n));
            && w1.rows == w1.committed == w.rows && w1.sessions == map[] && w1.locks == map[]
            && w1.nextId == w.nextId && w1.raised == w.raised
  {
    var w1 := Apply(w, Commit(n));
    assert w1.committed == w.rows;
    assert w1.sessions == map[];
  }

  /** The statements of one undisturbed session add up to `observe`. */
  lemma AloneIsObserve(w: World, n: nat, call: Call)
    requires w.sessions == map[] && w.locks == map[] && w.committed == w.rows && DistinctIds(w.rows, w.nextId)
    ensures var (t, raised) := Observed(Table(w.rows, w.nextId), call);
            var w' := Alone(w, n, call);
            && w'.rows == w'.committed == t.rows && w'.nextId == t.nextId && w'.sessions == map[] && w'.locks == map[]
            && |w'.raised| == |w.raised| + (if raised.Some? then 1 else 0)
  {
    hide Due, Driven, OnlyWrote, DistinctIds;
    var w0 := Apply(w, Begin(n, call));
    var w1 := Apply(w0, Advance(n));
    OneStatementMore(w0, n, 5);
    NothingWritten(w1, n, call.key);
    if call.key in w.rows {
      OwnRowIsVisible(w0, n, call.key) by { NothingWritten(w0, n, call.key); }
      hide Apply, Advanced;
      AloneFromReading(w1, n, call, 4);
    } else {
      assert w1.sessions == map[n := Insert(call)];
      AloneNew(w, w1, n, call);
    }
    AloneCommit(Driven(w0, n, 5), n, call.key);
  }

  lemma AloneNew(w: World, w1: World, n: nat, call: Call)
    requires w1 == w.(sessions := map[n := Insert(call)])
    requires w.locks == map[] && w.committed == w.rows && DistinctIds(w.rows, w.nextId) && call.key !in w.rows
    ensures var (t, raised) := Observed(Table(w.rows, w.nextId), call);
            var end := Driven(w1, n, 4);
            && end.rows == t.rows && end.nextId == t.nextId && end.sessions == map[n := Done] && OnlyWrote(end, n, call.key)
            && |end.raised| == |w.raised| + (if raised.Some? then 1 else 0)
  {
    hide Due, Driven, OnlyWrote, DistinctIds, Settle, KindEnabled;
    var w2 := Apply(w1, Advance(n));
    OneStatementMore(w1, n, 4);
    AloneInsert(w1, n, call);
    if call.immediate {
      var w3 := Apply(w2, Advance(n));
      OneStatementMore(w2, n, 3);
      OwnRowIsVisible(w2, n, call.key);
      SameRowsKeepOnly(w2, n, call.key, w3);
      assert w3.sessions == map[n := AfterReading(call, NewState(call, w.nextId))];
      hide Apply, Advanced, NewState;
      AloneFromReading(w3, n, call, 2);
    } else {
      hide Apply, Advanced;
      DoneStaysDone(w2, n, 3);
    }
  }

  lemma OneStatementMore(w: World, n: nat, statements: nat)
    requires statements > 0
    ensures Driven(w, n, statements) == Driven(Apply(w, Advance(n)), n, statements - 1)
  {
  }

  lemma NothingWritten(w: World, n: nat, key: string)
    requires w.locks == map[] && w.committed == w.rows && DistinctIds(w.rows, w.nextId)
    ensures OnlyWrote(w, n, key)
  {
  }

  lemma AloneInsert(w: World, n: nat, call: Call)
    requires w.sessions == map[n := Insert(call)] && w.locks == map[] && w.committed == w.rows && call.key !in w.rows
    requires DistinctIds(w.rows, w.nextId)
    ensures var w1 := Apply(w, Advance(n));
            && w1.rows == w.rows[call.key := NewState(call, w.nextId)] && w1.nextId == w.nextId + 1 && w1.raised == w.raised
            && w1.sessions == map[n := if call.immediate then Reselect(call) else Done]
            && Wrote(w1, n, call.key) && OnlyWrote(w1, n, call.key)
  {
  }

  // ---- What every interleaving keeps ----

  /** The committed version of a row against its newest. */
  ghost predicate Versions(w: World, k: string)
    requires k in w.rows
  {
    if k in w.committed then
      && w.committed[k].id == w.rows[k].id && w.committed[k].firstSeen == w.rows[k].firstSeen
      && (w.committed[k].notified.Some? ==> w.rows[k].notified.Some?)
      && (w.rows[k].id !in w.locks ==> w.rows[k] == w.committed[k])
    else w.rows[k].id in w.locks
  }

  ghost predicate RowsInv(w: World) {
    && DistinctIds(w.rows, w.nextId)
    && (forall k :: k in w.rows && w.rows[k].bornOff ==> w.rows[k].notified.Some?)
    && (forall k :: k in w.committed ==> k in w.rows)
    && (forall k :: k in w.rows ==> Versions(w, k))
  }

  ghost predicate RaisedInv(w: World) {
    && (forall i :: 0 <= i < |w.raised| ==> w.raised[i].marked.id < w.nextId && !w.raised[i].marked.bornOff)
    && (forall i, k :: 0 <= i < |w.raised| && k in w.rows && w.rows[k].id == w.raised[i].marked.id ==> w.rows[k].notified.Some?)
    && (forall i, j :: 0 <= i < j < |w.raised| ==> w.raised[i].marked.id != w.raised[j].marked.id)
  }

  /** What a session that has read a row knows of the row now under its key: either it
      is the one it read, or it is a newer one. */
  ghost predicate Remembers(w: World, call: Call, read: State, brief: int) {
    && call.now <= w.clock && read.id < w.nextId
    && (call.key in w.rows ==>
         (if w.rows[call.key].id == read.id
          then w.rows[call.key].firstSeen == read.firstSeen && (read.notified.Some? ==> w.rows[call.key].notified.Some?)
          else call.now - w.rows[call.key].firstSeen < brief))
  }

  ghost predicate SessionInv(w: World, n: nat, brief: int)
    requires n in w.sessions
  {
    match w.sessions[n]
    case Select(call) => call.now <= w.clock
    case Insert(call) => call.now <= w.clock
    case Reselect(call) => call.now <= w.clock
    case Flush(call, read, due) => Remembers(w, call, read, brief) && due == Due(call, read)
    case Claim(call, read, flushed) =>
      && Due(call, read) && Remembers(w, call, read, brief)
      && (flushed ==> Wrote(w, n, call.key) && w.rows[call.key].id == read.id)
    case Done => true
  }

  /** How an event stands to the two rows. */
  ghost predicate Faithful(r: Raised, brief: int) {
    && Due(r.call, r.read)
    && (r.flushed ==> r.marked.id == r.read.id)
    && (if r.marked.id == r.read.id then r.marked.firstSeen == r.read.firstSeen
        else r.call.now - r.marked.firstSeen < brief)
  }

  ghost predicate Inv(w: World, brief: int) {
    && RowsInv(w) && RaisedInv(w)
    && (forall n :: n in w.sessions ==> SessionInv(w, n, brief))
    && (forall i :: 0 <= i < |w.raised| ==> Faithful(w.raised[i], brief))
  }

  /** A session moved on without touching a row. */
  lemma MovingOnKeepsInv(w: World, n: nat, pc: Pc, brief: int)
    requires Inv(w, brief) && SessionInv(Moved(w, n, pc), n, brief)
    ensures Inv(Moved(w, n, pc), brief)
  {
    hide RowsInv, RaisedInv, Faithful, Due;
    var w' := Moved(w, n, pc);
    SameRowsSameInv(w, w');
    forall m | m in w'.sessions
      ensures SessionInv(w', m, brief)
    {
      assert m != n ==> SessionInv(w, m, brief);
    }
  }

  lemma SameRowsSameInv(w: World, w': World)
    requires w'.rows == w.rows && w'.committed == w.committed && w'.locks == w.locks
    requires w'.nextId == w.nextId && w'.raised == w.raised
    ensures RowsInv(w) ==> RowsInv(w')
    ensures RaisedInv(w) ==> RaisedInv(w')
  {
    assert RowsInv(w) ==> forall k :: k in w'.rows ==> (Versions(w, k) <==> Versions(w', k));
  }

  /** The row a session finds is one it can remember. */
  lemma ReadingIsRemembered(w: World, n: nat, call: Call, brief: int)
    requires RowsInv(w) && call.now <= w.clock && Visible(w, n, call.key).Some?
    ensures Remembers(w, call, Visible(w, n, call.key).value, brief)
  {
    assert call.key in w.rows && Versions(w, call.key);
  }

  /** A write to the row that is under a key already. */
  lemma WritingKeepsRows(w: World, n: nat, key: string, row: State)
    requires RowsInv(w) && key in w.rows && row.id == w.rows[key].id && row.firstSeen == w.rows[key].firstSeen
    requires row.bornOff == w.rows[key].bornOff && (w.rows[key].notified.Some? ==> row.notified.Some?)
    ensures RowsInv(Written(w, n, key, row))
  {
    var w' := Written(w, n, key, row);
    forall k | k in w'.rows
      ensures Versions(w', k)
    {
      assert Versions(w, k);
    }
  }

  lemma InsertingKeepsRows(w: World, n: nat, key: string, row: State)
    requires RowsInv(w) && key !in w.rows && row.id == w.nextId && (row.bornOff ==> row.notified.Some?)
    ensures RowsInv(Written(w, n, key, row).(nextId := w.nextId + 1))
  {
    var w' := Written(w, n, key, row).(nextId := w.nextId + 1);
    forall k | k in w'.rows
      ensures Versions(w', k)
    {
      assert k != key ==> Versions(w, k);
    }
  }

  /** Another session's standing survives a write to a row it has not locked. */
  lemma WritingKeepsSession(w: World, n: nat, key: string, row: State, m: nat, brief: int)
    requires RowsInv(w) && m in w.sessions && m != n && SessionInv(w, m, brief)
    requires key in w.rows && row.id == w.rows[key].id && row.firstSeen == w.rows[key].firstSeen
    requires (w.rows[key].notified.Some? ==> row.notified.Some?) && Free(w, row.id, n)
    ensures SessionInv(Written(w, n, key, row), m, brief)
  {
    hide Due;
  }

  lemma InsertingKeepsSession(w: World, n: nat, key: string, row: State, m: nat, brief: int)
    requires RowsInv(w) && m in w.sessions && m != n && SessionInv(w, m, brief)
    requires key !in w.rows && row.id == w.nextId && w.clock - row.firstSeen < brief
    ensures SessionInv(Written(w, n, key, row).(nextId := w.nextId + 1), m, brief)
  {
    hide Due;
  }

  lemma InsertKeepsInv(w: World, n: nat, call: Call, brief: int)
    requires Inv(w, brief) && n in w.sessions && w.sessions[n] == Insert(call) && call.key !in w.rows
    requires w.clock - call.now < brief
    ensures Inv(Advanced(w, n), brief)
  {
    hide Faithful, RowsInv, SessionInv, DistinctIds;
    var w' := Advanced(w, n);
    var row := NewState(call, w.nextId);
    var written := Written(w, n, call.key, row).(nextId := w.nextId + 1);
    InsertingKeepsRows(w, n, call.key, row);
    SameRowsSameInv(written, w');
    InsertingKeepsRaised(w, n, call.key, row);
    forall m | m in w'.sessions
      ensures SessionInv(w', m, brief)
    {
      if m != n {
        InsertingKeepsSession(w, n, call.key, row, m, brief);
        SameStanding(written, w', m, brief);
      } else {
        InsertedStands(w, w', n, call, brief);
      }
    }
  }

  lemma InsertedStands(w: World, w': World, n: nat, call: Call, brief: int)
    requires n in w.sessions && w.sessions[n] == Insert(call) && SessionInv(w, n, brief) && w'.clock == w.clock
    requires n in w'.sessions && (w'.sessions[n] == Done || w'.sessions[n] == Reselect(call))
    ensures SessionInv(w', n, brief)
  {
  }

  lemma InsertingKeepsRaised(w: World, n: nat, key: string, row: State)
    requires RaisedInv(w) && key !in w.rows && row.id == w.nextId
    ensures RaisedInv(Written(w, n, key, row).(nextId := w.nextId + 1))
  {
  }

  lemma SameStanding(w: World, w': World, m: nat, brief: int)
    requires w'.rows == w.rows && w'.locks == w.locks && w'.nextId == w.nextId && w'.clock == w.clock
    requires m in w.sessions && m in w'.sessions && w'.sessions[m] == w.sessions[m] && SessionInv(w, m, brief)
    ensures SessionInv(w', m, brief)
  {
    hide Due;
  }

  lemma FlushKeepsInv(w: World, n: nat, call: Call, read: State, due: bool, brief: int)
    requires Inv(w, brief) && n in w.sessions && w.sessions[n] == Flush(call, read, due) && Free(w, read.id, n)
    requires read.lastSeen != call.now && call.key in w.rows && w.rows[call.key].id == read.id
    ensures Inv(Advanced(w, n), brief)
  {
    hide Faithful, RowsInv, SessionInv, RaisedInv, Due;
    var w' := Advanced(w, n);
    var row := w.rows[call.key].(lastSeen := call.now);
    var written := Written(w, n, call.key, row);
    WritingKeepsRows(w, n, call.key, row);
    SameRowsSameInv(written, w');
    WritingKeepsRaised(w, n, call.key, row);
    forall m | m in w'.sessions
      ensures SessionInv(w', m, brief)
    {
      if m != n {
        WritingKeepsSession(w, n, call.key, row, m, brief);
        SameStanding(written, w', m, brief);
      } else {
        FlushedStands(w, n, call, read, due, brief);
      }
    }
  }

  lemma FlushedStands(w: World, n: nat, call: Call, read: State, due: bool, brief: int)
    requires n in w.sessions && w.sessions[n] == Flush(call, read, due) && SessionInv(w, n, brief)
    requires read.lastSeen != call.now && call.key in w.rows && w.rows[call.key].id == read.id
    ensures SessionInv(Advanced(w, n), n, brief)
  {
    hide Due;
  }

  lemma WritingKeepsRaised(w: World, n: nat, key: string, row: State)
    requires RaisedInv(w) && key in w.rows && row.id == w.rows[key].id && (w.rows[key].notified.Some? ==> row.notified.Some?)
    ensures RaisedInv(Written(w, n, key, row))
  {
  }

  predicate Marks(w: World, n: nat, call: Call) {
    Visible(w, n, call.key).Some? && call.key in w.rows && w.rows[call.key].notified.None?
  }

  lemma ClaimKeepsInv(w: World, n: nat, call: Call, read: State, flushed: bool, brief: int)
    requires Inv(w, brief) && n in w.sessions && w.sessions[n] == Claim(call, read, flushed) && Marks(w, n, call)
    requires Free(w, w.rows[call.key].id, n)
    ensures Inv(Advanced(w, n), brief)
  {
    hide RowsInv, SessionInv, RaisedInv, Due, Faithful;
    var w' := Advanced(w, n);
    var row := w.rows[call.key].(notified := Some(call.now), lastSeen := call.now);
    var written := Written(w, n, call.key, row);
    WritingKeepsRows(w, n, call.key, row);
    var silent := w'.(raised := w.raised);
    SameRowsSameInv(written, silent);
    RaisingKeepsRows(silent, w');
    ClaimedRaises(w, n, call, read, flushed);
    forall m | m in w'.sessions
      ensures SessionInv(w', m, brief)
    {
      if m != n {
        WritingKeepsSession(w, n, call.key, row, m, brief);
        SameStanding(written, w', m, brief);
      } else {
        DoneStands(w', n, brief);
      }
    }
    var r := Raised(call, w.rows[call.key], read, flushed);
    ClaimIsFaithful(w, n, call, read, flushed, brief);
    assert forall i :: 0 <= i < |w'.raised| ==> w'.raised[i] == if i < |w.raised| then w.raised[i] else r;
  }

  lemma RaisingKeepsRows(w: World, w': World)
    requires RowsInv(w) && w' == w.(raised := w'.raised)
    ensures RowsInv(w')
  {
    assert forall k :: k in w'.rows ==> (Versions(w, k) <==> Versions(w', k));
  }

  lemma DoneStands(w: World, n: nat, brief: int)
    requires n in w.sessions && w.sessions[n] == Done
    ensures SessionInv(w, n, brief)
  {
  }

  lemma ClaimedRaises(w: World, n: nat, call: Call, read: State, flushed: bool)
    requires RowsInv(w) && RaisedInv(w) && n in w.sessions && w.sessions[n] == Claim(call, read, flushed) && Marks(w, n, call)
    ensures RaisedInv(Advanced(w, n))
  {
    var w' := Advanced(w, n);
    var r := Raised(call, w.rows[call.key], read, flushed);
    assert forall i :: 0 <= i < |w'.raised| ==> w'.raised[i] == if i < |w.raised| then w.raised[i] else r;
  }

  lemma ClaimIsFaithful(w: World, n: nat, call: Call, read: State, flushed: bool, brief: int)
    requires n in w.sessions && w.sessions[n] == Claim(call, read, flushed) && SessionInv(w, n, brief) && call.key in w.rows
    ensures Faithful(Raised(call, w.rows[call.key], read, flushed), brief)
  {
    hide Due;
  }

  lemma AdvanceKeepsInv(w: World, n: nat, brief: int)
    requires Inv(w, brief) && Enabled(w, Advance(n), brief)
    ensures Inv(Advanced(w, n), brief)
  {
    hide RaisedInv, Faithful, Due, DistinctIds;
    assert SessionInv(w, n, brief);
    var pc := w.sessions[n];
    if pc.Insert? && pc.call.key !in w.rows {
      InsertKeepsInv(w, n, pc.call, brief);
    } else if pc.Flush? && pc.read.lastSeen != pc.call.now && pc.call.key in w.rows && w.rows[pc.call.key].id == pc.read.id {
      FlushKeepsInv(w, n, pc.call, pc.read, pc.due, brief);
    } else if pc.Claim? && Marks(w, n, pc.call) {
      assert Versions(w, pc.call.key);
      ClaimKeepsInv(w, n, pc.call, pc.read, pc.flushed, brief);
    } else {
      var next := Advanced(w, n).sessions[n];
      if next.Flush? {
        ReadingIsRemembered(w, n, pc.call, brief);
      }
      assert SessionInv(Moved(w, n, next), n, brief);
      MovingOnKeepsInv(w, n, next, brief);
    }
  }

  lemma CommitKeepsInv(w: World, n: nat, brief: int)
    requires Inv(w, brief) && Enabled(w, Commit(n), brief)
    ensures Inv(Apply(w, Commit(n)), brief)
  {
    hide Faithful, Due, DistinctIds;
    var w' := Apply(w, Commit(n));
    forall k | k in w'.rows
      ensures Versions(w', k)
    {
      assert Versions(w, k);
    }
    forall m | m in w'.sessions
      ensures SessionInv(w', m, brief)
    {
      assert SessionInv(w, m, brief);
    }
  }

  lemma ClearingKeepsRows(w: World, key: string)
    requires RowsInv(w) && key in w.committed && w.committed[key].id !in w.locks
    ensures RowsInv(w.(rows := w.rows - {key}, committed := w.committed - {key}))
    ensures w.rows[key].id !in w.locks
  {
    var w' := w.(rows := w.rows - {key}, committed := w.committed - {key});
    assert Versions(w, key);
    forall k | k in w'.rows
      ensures Versions(w', k)
    {
      assert Versions(w, k);
    }
  }

  lemma ClearingKeepsRaised(w: World, key: string)
    requires RaisedInv(w)
    ensures RaisedInv(w.(rows := w.rows - {key}, committed := w.committed - {key}))
  {
  }

  lemma ClearingKeepsSession(w: World, key: string, m: nat, brief: int)
    requires m in w.sessions && SessionInv(w, m, brief) && key in w.rows && w.rows[key].id !in w.locks
    ensures SessionInv(w.(rows := w.rows - {key}, committed := w.committed - {key}), m, brief)
  {
    hide Due;
  }

  lemma ClearKeepsInv(w: World, key: string, brief: int)
    requires Inv(w, brief) && Enabled(w, ClearKey(key), brief)
    ensures Inv(Apply(w, ClearKey(key)), brief)
  {
    hide Faithful, SessionInv, RaisedInv, DistinctIds, Versions;
    var w' := Apply(w, ClearKey(key));
    if key in w.committed {
      ClearingKeepsRows(w, key);
      hide RowsInv;
      ClearingKeepsRaised(w, key);
      forall m | m in w'.sessions
        ensures SessionInv(w', m, brief)
      {
        ClearingKeepsSession(w, key, m, brief);
      }
    }
  }

  lemma TickKeepsInv(w: World, now: int, brief: int)
    requires Inv(w, brief) && Enabled(w, Tick(now), brief)
    ensures Inv(Apply(w, Tick(now)), brief)
  {
    hide RowsInv, RaisedInv, Faithful, Due;
    var w' := Apply(w, Tick(now));
    SameRowsSameInv(w, w');
    forall m | m in w'.sessions
      ensures SessionInv(w', m, brief)
    {
      assert SessionInv(w, m, brief);
    }
  }

  lemma StepKeepsInv(w: World, s: Step, brief: int)
    requires Inv(w, brief) && Enabled(w, s, brief)
    ensures Inv(Apply(w, s), brief)
  {
    hide Inv, Advanced, Committed;
    match s {
      case Begin(n, call) => BeginKeepsInv(w, n, call, brief);
      case Advance(n) => AdvanceKeepsInv(w, n, brief);
      case Commit(n) => CommitKeepsInv(w, n, brief);
      case ClearKey(key) => ClearKeepsInv(w, key, brief);
      case Tick(now) => TickKeepsInv(w, now, brief);
    }
  }

  lemma BeginKeepsInv(w: World, n: nat, call: Call, brief: int)
    requires Inv(w, brief) && call.now <= w.clock
    ensures Inv(Moved(w, n, Select(call)), brief)
  {
    hide RowsInv, RaisedInv, Faithful;
    MovingOnKeepsInv(w, n, Select(call), brief);
  }

  lemma {:induction false} RunKeepsInv(w: World, steps: seq<Step>, brief: int)
    requires Inv(w, brief) && Runs(w, steps, brief)
    ensures Inv(After(w, steps), brief)
    decreases |steps|
  {
    hide Inv, Enabled, Apply;
    if steps != [] {
      StepKeepsInv(w, steps[0], brief);
      RunKeepsInv(Apply(w, steps[0]), steps[1..], brief);
    }
  }

  // ---- Main results ----

  /** In any interleaving no state row raises a second event, and a row made while its
      kind was off raises none. */
  lemma OneEventPerRow(steps: seq<Step>, brief: int, i: nat, j: nat)
    requires Runs(EMPTY, steps, brief) && i < |After(EMPTY, steps).raised| && j < |After(EMPTY, steps).raised|
    ensures var raised := After(EMPTY, steps).raised;
            && (raised[i].marked.id == raised[j].marked.id ==> i == j)
            && !raised[i].marked.bornOff
  {
    RunKeepsInv(EMPTY, steps, brief);
  }

  predicate Settled(r: Raised) {
    r.call.now - r.marked.firstSeen >= Settle(r.call.settings)
  }

  /** An event that is not immediate comes no sooner than the settle window after the
      first sighting of its row, provided its session's own sighting was flushed. */
  lemma FlushedEventsAreSettled(steps: seq<Step>, brief: int, i: nat)
    requires Runs(EMPTY, steps, brief) && i < |After(EMPTY, steps).raised|
    requires var r := After(EMPTY, steps).raised[i]; !r.call.immediate && r.flushed
    ensures Settled(After(EMPTY, steps).raised[i])
  {
    RunKeepsInv(EMPTY, steps, brief);
    assert Faithful(After(EMPTY, steps).raised[i], brief);
  }

  /** Exactly which events keep to the window, when sessions insert within it: those
      whose claim marked the very row the session had read. The claim asks by key, so a
      row cleared and made anew in between is marked in its place. */
  lemma SettledExactlyWhenSameRow(steps: seq<Step>, brief: int, i: nat)
    requires Runs(EMPTY, steps, brief) && i < |After(EMPTY, steps).raised|
    requires var r := After(EMPTY, steps).raised[i]; !r.call.immediate && brief <= Settle(r.call.settings)
    ensures var r := After(EMPTY, steps).raised[i];
            Settled(r) <==> r.marked.id == r.read.id
  {
    RunKeepsInv(EMPTY, steps, brief);
    assert Faithful(After(EMPTY, steps).raised[i], brief);
  }
}
