/** apps/api/app/printers/job_reconcile.py: resolving rows left saying "forwarding"
    from the print server's own record of the job. A row's id is its position in
    the table; times are in seconds. */
module JobReconcile {
  import opened Prelude
  import Query

  const STUCK_AFTER := 30 * 60
  const UNRESOLVABLE_AFTER := 2 * 60 * 60

  // Job states of section 5.3.7 of RFC 8011.
  const PENDING := 3
  const PENDING_HELD := 4
  const PROCESSING := 5
  const PROCESSING_STOPPED := 6
  const CANCELED := 7
  const ABORTED := 8
  const COMPLETED := 9

  datatype Status = Received | Held | Forwarding | Forwarded | Failed | Cancelled

  datatype Message = Superseded(cupsId: Option<int>) | Aborted(reason: Option<string>)
                   | CancelledAtServer | OutcomeUnknown | Other(text: string)

  /** How a job came out, besides its pages. */
  datatype Media = Media(color: Option<string>, duplex: Option<bool>, paper: Option<string>)

  const UNKNOWN := Media(None, None, None)

  datatype Job = Job(
    printer: int, cupsId: Option<int>, createdAt: int, status: Status, pageCount: Option<int>, media: Media,
    supersededBy: Option<nat>, message: Option<Message>, completedAt: Option<int>)

  datatype Outcome = Outcome(state: Option<int>, reason: Option<string>, pageCount: Option<int>, media: Media) {
    predicate InFlight() {
      state.Some? && state.value in {PENDING, PENDING_HELD, PROCESSING, PROCESSING_STOPPED}
    }
  }

  /** What a sweep consults: cupsd's reply for each (printer, job id), None when it would
      not answer; and whether a printer can print colour, None when that is not known. */
  datatype Lookup = Lookup(answer: (int, int) -> Option<Outcome>, colour: int -> Option<bool>)

  /** `recorded_color_mode`: CUPS says what was asked for, so a printer known to have no
      colour printed it in grey. */
  function RecordedColor(supported: Option<bool>, reported: Option<string>): Option<string> {
    if reported == Some("color") && supported == Some(false) then Some("monochrome") else reported
  }

  function RecordedMedia(supported: Option<bool>, media: Media): Media {
    media.(color := RecordedColor(supported, media.color))
  }

  datatype SweepResult = SweepResult(resolved: nat, leftInFlight: nat, unresolvableKept: nat, unasked: nat)

  function CreatedAt(rows: seq<Job>): seq<int> {
    seq(|rows|, i requires 0 <= i < |rows| => rows[i].createdAt)
  }

  predicate IsStuck(job: Job, now: int) {
    job.status == Forwarding && job.createdAt < now - STUCK_AFTER
  }

  function StuckRows(rows: seq<Job>, now: int): set<nat> {
    set i: nat | i < |rows| && IsStuck(rows[i], now)
  }

  function Candidates(rows: seq<Job>, now: int, limit: nat): (c: seq<nat>)
    ensures forall k :: 0 <= k < |c| ==> c[k] < |rows| && IsStuck(rows[c[k]], now)
  {
    Query.TakeOldest(CreatedAt(rows), StuckRows(rows, now), limit)
  }

  predicate IsAttempt(job: Job, printer: int, cupsId: int) {
    job.printer == printer && job.cupsId == Some(cupsId)
  }

  /** The row of the last attempt at a CUPS job, whatever its status. */
  function LatestAttempt(rows: seq<Job>, printer: int, cupsId: int): (latest: Option<nat>)
    ensures latest.Some? ==> latest.value < |rows| && IsAttempt(rows[latest.value], printer, cupsId)
  {
    if rows == [] then None
    else
      var n := |rows| - 1;
      var best := LatestAttempt(rows[..n], printer, cupsId);
      if IsAttempt(rows[n], printer, cupsId) && (best.None? || rows[n].createdAt > rows[best.value].createdAt)
      then Some(n) else best
  }

  lemma {:induction false} LatestIsNewest(rows: seq<Job>, printer: int, cupsId: int, i: nat)
    requires i < |rows| && IsAttempt(rows[i], printer, cupsId)
    ensures var latest := LatestAttempt(rows, printer, cupsId);
            latest.Some? && rows[i].createdAt <= rows[latest.value].createdAt
  {
    var n := |rows| - 1;
    if i < n {
      LatestIsNewest(rows[..n], printer, cupsId, i);
    } else if LatestAttempt(rows[..n], printer, cupsId).Some? {
      assert LatestAttempt(rows, printer, cupsId).Some?;
    }
  }

  /** The later attempt a row has to give way to, if there is one. */
  function SupersededBy(rows: seq<Job>, i: nat): Option<nat>
    requires i < |rows|
  {
    if rows[i].cupsId.None? then None
    else
      var winner := LatestAttempt(rows, rows[i].printer, rows[i].cupsId.value);
      if winner == Some(i) then None else winner
  }

  /** The first pass of `_superseding_job_ids`: over the table, for the pairs wanted. */
  method LatestAttempts(rows: seq<Job>, pairs: set<(int, int)>) returns (latest: map<(int, int), nat>)
    ensures forall key :: key in pairs ==> LatestAttempt(rows, key.0, key.1) == Found(latest, key)
  {
    latest := map[];
    for n := 0 to |rows|
      invariant forall key :: key in pairs ==> LatestAttempt(rows[..n], key.0, key.1) == Found(latest, key)
    {
      assert rows[..n + 1][..n] == rows[..n];
      if rows[n].cupsId.Some? {
        var key := (rows[n].printer, rows[n].cupsId.value);
        assert key in pairs ==> LatestAttempt(rows[..n], key.0, key.1) == Found(latest, key);
        if key in pairs && (key !in latest || rows[n].createdAt > rows[latest[key]].createdAt) {
          latest := latest[key := n];
        }
      }
    }
    assert rows[..|rows|] == rows;
  }

  /** `_superseding_job_ids`: then over the candidates. */
  method SupersedingJobIds(rows: seq<Job>, candidates: seq<nat>) returns (superseded: map<nat, nat>)
    requires forall k :: 0 <= k < |candidates| ==> candidates[k] < |rows|
    ensures forall k :: 0 <= k < |candidates| ==>
              SupersededBy(rows, candidates[k]) == Found(superseded, candidates[k])
  {
    var pairs := set k | 0 <= k < |candidates| && rows[candidates[k]].cupsId.Some?
      :: (rows[candidates[k]].printer, rows[candidates[k]].cupsId.value);
    var latest := LatestAttempts(rows, pairs);
    superseded := map[];
    hide LatestAttempt;
    for k := 0 to |candidates|
      invariant forall i :: i in superseded ==> i < |rows| && SupersededBy(rows, i) == Some(superseded[i])
      invariant forall j :: 0 <= j < k ==> SupersededBy(rows, candidates[j]) == Found(superseded, candidates[j])
    {
      var i := candidates[k];
      if rows[i].cupsId.Some? {
        var key := (rows[i].printer, rows[i].cupsId.value);
        assert key in pairs;
        if key in latest && latest[key] != i {
          superseded := superseded[i := latest[key]];
        }
      }
    }
  }

  /** `_resolve`: cupsd's verdict on one row, or None to leave it as it is. */
  function Resolve(job: Job, outcome: Outcome, now: int, supported: Option<bool>): Option<Job> {
    if outcome.InFlight() then None
    else if outcome.state == Some(COMPLETED) then
      Some(job.(status := Forwarded, message := None, pageCount := outcome.pageCount,
                media := RecordedMedia(supported, outcome.media), completedAt := Some(now)))
    else if outcome.state == Some(ABORTED) then
      Some(job.(status := Failed, message := Some(Aborted(outcome.reason)), completedAt := Some(now)))
    else if outcome.state == Some(CANCELED) then
      Some(job.(status := Cancelled, message := Some(CancelledAtServer), completedAt := Some(now)))
    else if outcome.state.None? && now - job.createdAt >= UNRESOLVABLE_AFTER then
      Some(job.(status := Cancelled, message := Some(OutcomeUnknown), completedAt := Some(now)))
    else None
  }

  function Answer(job: Job, ask: Lookup): Option<Outcome> {
    if job.cupsId.None? then Some(Outcome(None, None, None, UNKNOWN)) else ask.answer(job.printer, job.cupsId.value)
  }

  /** What one sweep makes of one of its candidates. */
  function Swept(rows: seq<Job>, i: nat, now: int, ask: Lookup): Job
    requires i < |rows|
  {
    var job, winner := rows[i], SupersededBy(rows, i);
    if winner.Some? then
      job.(status := Cancelled, supersededBy := winner, message := Some(Superseded(job.cupsId)), completedAt := Some(now))
    else if Answer(job, ask).None? then job
    else
      var verdict := Resolve(job, Answer(job, ask).value, now, ask.colour(job.printer));
      if verdict.Some? then verdict.value else job
  }

  datatype Fate = Resolved | LeftInFlight | Kept | Unasked

  /** How the sweep reports one of its candidates. */
  function FateOf(rows: seq<Job>, i: nat, now: int, ask: Lookup): Fate
    requires i < |rows|
  {
    if SupersededBy(rows, i).Some? then Resolved
    else
      var answer := Answer(rows[i], ask);
      if answer.None? then Unasked
      else if Resolve(rows[i], answer.value, now, ask.colour(rows[i].printer)).Some? then Resolved
      else if answer.value.state.None? then Kept
      else LeftInFlight
  }

  function Counting(result: SweepResult, fate: Fate): SweepResult {
    match fate
    case Resolved => result.(resolved := result.resolved + 1)
    case LeftInFlight => result.(leftInFlight := result.leftInFlight + 1)
    case Kept => result.(unresolvableKept := result.unresolvableKept + 1)
    case Unasked => result.(unasked := result.unasked + 1)
  }

  /** The sweep's report on the first `done` of its candidates. */
  function Tally(rows: seq<Job>, candidates: seq<nat>, done: nat, now: int, ask: Lookup): (t: SweepResult)
    requires done <= |candidates| && forall k :: 0 <= k < |candidates| ==> candidates[k] < |rows|
    ensures t.resolved + t.leftInFlight + t.unresolvableKept + t.unasked == done
  {
    if done == 0 then SweepResult(0, 0, 0, 0)
    else Counting(Tally(rows, candidates, done - 1, now, ask), FateOf(rows, candidates[done - 1], now, ask))
  }

  function SweptIf(rows: seq<Job>, candidates: seq<nat>, i: nat, now: int, ask: Lookup): Job
    requires i < |rows|
  {
    if i in candidates then Swept(rows, i, now, ask) else rows[i]
  }

  function Sweep(rows: seq<Job>, now: int, limit: nat, ask: Lookup): (after: seq<Job>)
    ensures |after| == |rows|
  {
    var candidates := Candidates(rows, now, limit);
    seq(|rows|, i requires 0 <= i < |rows| => SweptIf(rows, candidates, i, now, ask))
  }

  /** A sweep takes the oldest stuck rows, each once, and leaves only newer ones. */
  lemma CandidatesAreTheOldest(rows: seq<Job>, now: int, limit: nat)
    ensures Query.IsOldestBatch(CreatedAt(rows), StuckRows(rows, now), limit, Candidates(rows, now, limit))
  {
    Query.TakeOldestTakesTheOldest(CreatedAt(rows), StuckRows(rows, now), limit);
  }

  class JobTable {
    var rows: seq<Job>

    constructor (rows: seq<Job>)
      ensures this.rows == rows
    {
      this.rows := rows;
    }

    method ReconcileStuckJobs(now: int, limit: nat, ask: Lookup) returns (result: SweepResult)
      modifies this
      ensures rows == Sweep(old(rows), now, limit, ask)
      ensures var candidates := Candidates(old(rows), now, limit);
              result == Tally(old(rows), candidates, |candidates|, now, ask)
      ensures result.resolved == |Changed(old(rows), rows)|
    {
      var candidates := Candidates(rows, now, limit);
      ghost var before := rows;
      result := SweepResult(0, 0, 0, 0);
      NothingSwept(rows, candidates, now, limit, ask);
      hide Sweep, CreatedAt, StuckRows, Changed, SweptSoFar;
      var superseded := SupersedingJobIds(rows, candidates);
      for k := 0 to |candidates|
        invariant Halfway(before, rows, candidates, k, result, now, ask)
      {
        hide Halfway, Swept, FateOf, Candidates, SupersededBy;
        var i := candidates[k];
        ghost var previous, counted := rows, result;
        NotYetSwept(before, rows, candidates, k, result, now, ask);
        var outcome;
        rows, outcome := Settle(i, Found(superseded, i), now, ask, before);
        match outcome {
          case Resolved => result := result.(resolved := result.resolved + 1);
          case LeftInFlight => result := result.(leftInFlight := result.leftInFlight + 1);
          case Kept => result := result.(unresolvableKept := result.unresolvableKept + 1);
          case Unasked => result := result.(unasked := result.unasked + 1);
        }
        OneFurther(before, previous, rows, candidates, k, counted, result, outcome, now, ask);
      }
      AllSwept(before, rows, now, limit, result, ask);
    }

    /** The body of the sweep's loop: what happens to one candidate. */
    method Settle(i: nat, winner: Option<nat>, now: int, ask: Lookup, ghost before: seq<Job>) returns (after: seq<Job>, outcome: Fate)
      requires i < |rows| == |before| && rows[i] == before[i] && rows[i].status == Forwarding
      requires SupersededBy(before, i) == winner
      ensures |after| == |rows| && after == rows[i := after[i]]
      ensures after[i] == Swept(before, i, now, ask) && outcome == FateOf(before, i, now, ask)
      ensures outcome == Resolved <==> after[i] != rows[i]
    {
      after := rows;
      var job := rows[i];
      if winner.Some? {
        after := rows[i := job.(status := Cancelled, supersededBy := winner,
                               message := Some(Superseded(job.cupsId)), completedAt := Some(now))];
        return after, Resolved;
      }
      var answer := if job.cupsId.None? then Some(Outcome(None, None, None, UNKNOWN)) else ask.answer(job.printer, job.cupsId.value);
      if answer.None? {
        return after, Unasked;
      }
      var verdict := Resolve(job, answer.value, now, ask.colour(job.printer));
      if verdict.Some? {
        after := rows[i := verdict.value];
        outcome := Resolved;
      } else if answer.value.state.None? {
        outcome := Kept;
      } else {
        outcome := LeftInFlight;
      }
    }
  }

  /** The first `k` candidates done, and counted. */
  ghost predicate Halfway(before: seq<Job>, rows: seq<Job>, candidates: seq<nat>, k: nat, result: SweepResult, now: int, ask: Lookup)
    requires k <= |candidates| && forall j :: 0 <= j < |candidates| ==> candidates[j] < |before|
  {
    && SweptSoFar(before, rows, candidates[..k], now, ask)
    && result == Tally(before, candidates, k, now, ask)
    && result.resolved == |Changed(before, rows)|
  }

  lemma NotYetSwept(before: seq<Job>, rows: seq<Job>, candidates: seq<nat>, k: nat, result: SweepResult, now: int, ask: Lookup)
    requires k < |candidates| && forall j :: 0 <= j < |candidates| ==> candidates[j] < |before|
    requires forall i, j :: 0 <= i < j < |candidates| ==> candidates[i] != candidates[j]
    requires Halfway(before, rows, candidates, k, result, now, ask)
    ensures |rows| == |before| && rows[candidates[k]] == before[candidates[k]]
  {
    assert candidates[k] !in candidates[..k];
  }

  lemma NothingSwept(rows: seq<Job>, candidates: seq<nat>, now: int, limit: nat, ask: Lookup)
    requires candidates == Candidates(rows, now, limit)
    ensures Halfway(rows, rows, candidates, 0, SweepResult(0, 0, 0, 0), now, ask)
    ensures forall i, j :: 0 <= i < j < |candidates| ==> candidates[i] != candidates[j]
  {
    CandidatesAreTheOldest(rows, now, limit);
    assert Changed(rows, rows) == {};
  }

  lemma AllSwept(before: seq<Job>, rows: seq<Job>, now: int, limit: nat, result: SweepResult, ask: Lookup)
    requires var candidates := Candidates(before, now, limit);
             Halfway(before, rows, candidates, |candidates|, result, now, ask)
    ensures rows == Sweep(before, now, limit, ask)
  {
    hide Swept, Candidates;
    var candidates := Candidates(before, now, limit);
    assert candidates[..|candidates|] == candidates;
  }

  lemma OneFurther(before: seq<Job>, previous: seq<Job>, after: seq<Job>, candidates: seq<nat>, k: nat,
                   counted: SweepResult, result: SweepResult, outcome: Fate, now: int, ask: Lookup)
    requires k < |candidates| && forall j :: 0 <= j < |candidates| ==> candidates[j] < |before|
    requires Halfway(before, previous, candidates, k, counted, now, ask)
    requires var i := candidates[k];
             && |after| == |previous| && after == previous[i := after[i]] && previous[i] == before[i]
             && after[i] == Swept(before, i, now, ask) && outcome == FateOf(before, i, now, ask)
             && (outcome == Resolved <==> after[i] != previous[i])
    requires result == Counting(counted, outcome)
    ensures Halfway(before, after, candidates, k + 1, result, now, ask)
  {
    hide Swept, FateOf;
    SweptOneMore(before, previous, after, candidates, k, now, ask);
    ChangedGrows(before, previous, after, candidates[k]);
  }

  ghost predicate SweptSoFar(before: seq<Job>, rows: seq<Job>, done: seq<nat>, now: int, ask: Lookup) {
    |rows| == |before| && forall i :: 0 <= i < |rows| ==> rows[i] == SweptIf(before, done, i, now, ask)
  }

  lemma SweptOneMore(before: seq<Job>, previous: seq<Job>, after: seq<Job>, candidates: seq<nat>, k: nat, now: int, ask: Lookup)
    requires k < |candidates| && candidates[k] < |before|
    requires SweptSoFar(before, previous, candidates[..k], now, ask)
    requires var i := candidates[k];
             |after| == |previous| && after == previous[i := after[i]] && after[i] == Swept(before, i, now, ask)
    ensures SweptSoFar(before, after, candidates[..k + 1], now, ask)
  {
    assert candidates[..k + 1] == candidates[..k] + [candidates[k]];
    forall i | 0 <= i < |after|
      ensures after[i] == SweptIf(before, candidates[..k + 1], i, now, ask)
    {
      if i != candidates[k] {
        assert after[i] == previous[i];
      }
    }
  }

  ghost function Changed(before: seq<Job>, after: seq<Job>): set<nat>
    requires |before| == |after|
  {
    set i: nat | i < |before| && before[i] != after[i]
  }

  lemma ChangedGrows(before: seq<Job>, previous: seq<Job>, after: seq<Job>, i: nat)
    requires |before| == |previous| && i < |before| && previous[i] == before[i]
    requires |after| == |previous| && after == previous[i := after[i]]
    ensures |Changed(before, after)| == |Changed(before, previous)| + (if after[i] != previous[i] then 1 else 0)
  {
    if after[i] != previous[i] {
      assert Changed(before, after) == Changed(before, previous) + {i};
    } else {
      assert after == previous;
    }
  }

  // ---- The server, the print server and the sweeps together ----

  datatype Cups = InFlight | Done(outcome: Outcome)

  /** `taken` holds the rows whose page count was copied from cupsd's record, `reported`
      those that the backend, or a person, closed. */
  datatype World = World(rows: seq<Job>, cups: map<(int, int), Cups>, taken: set<nat>, reported: set<nat>, clock: int)

  datatype Step =
    | Attempt(printer: int, cupsId: int, at: int)              // the backend starts, or is started again
    | Untracked(printer: int, at: int)                         // a row with no CUPS job id
    | Finish(printer: int, cupsId: int, outcome: Outcome)      // cupsd is done with the job
    | Report(row: nat, status: Status, pageCount: Option<int>, media: Media) // the backend, or a person, closes a row
    | Reconcile(now: int, limit: nat, ask: Lookup)

  ghost predicate Honest(cups: map<(int, int), Cups>, ask: Lookup) {
    forall p, c :: ask.answer(p, c).Some? && ask.answer(p, c).value.state.Some? ==>
      && (p, c) in cups
      && (match cups[(p, c)] case InFlight => ask.answer(p, c).value.InFlight() case Done(o) => ask.answer(p, c).value == o)
  }

  ghost predicate Enabled(w: World, s: Step) {
    match s
    case Attempt(p, c, at) => at > w.clock && ((p, c) in w.cups ==> w.cups[(p, c)].InFlight?)
    case Untracked(p, at) => at > w.clock
    case Finish(p, c, o) => (p, c) in w.cups && w.cups[(p, c)].InFlight? && o.state.Some? && CANCELED <= o.state.value <= COMPLETED
    case Report(i, status, _, _) => i < |w.rows| && w.rows[i].status == Forwarding && status != Forwarding
    case Reconcile(now, _, ask) => now >= w.clock && Honest(w.cups, ask)
  }

  function TakenBy(rows: seq<Job>, now: int, limit: nat, ask: Lookup): set<nat> {
    set i: nat | i < |rows| && i in Candidates(rows, now, limit) && SupersededBy(rows, i).None?
                 && Answer(rows[i], ask).Some? && Answer(rows[i], ask).value.state == Some(COMPLETED)
  }

  function NewJob(printer: int, cupsId: Option<int>, at: int): Job {
    Job(printer, cupsId, at, Forwarding, None, UNKNOWN, None, None, None)
  }

  ghost function Apply(w: World, s: Step): World
    requires Enabled(w, s)
  {
    match s
    case Attempt(p, c, at) => w.(rows := w.rows + [NewJob(p, Some(c), at)], cups := w.cups[(p, c) := InFlight], clock := at)
    case Untracked(p, at) => w.(rows := w.rows + [NewJob(p, None, at)], clock := at)
    case Finish(p, c, o) => w.(cups := w.cups[(p, c) := Done(o)])
    case Report(i, status, pages, media) =>
      w.(rows := w.rows[i := w.rows[i].(status := status, pageCount := pages, media := media)], reported := w.reported + {i})
    case Reconcile(now, limit, ask) =>
      w.(rows := Sweep(w.rows, now, limit, ask), taken := w.taken + TakenBy(w.rows, now, limit, ask), clock := now)
  }

  ghost predicate Runs(w: World, steps: seq<Step>)
    decreases |steps|
  {
    steps == [] || (Enabled(w, steps[0]) && Runs(Apply(w, steps[0]), steps[1..]))
  }

  ghost function After(w: World, steps: seq<Step>): World
    requires Runs(w, steps)
    decreases |steps|
  {
    if steps == [] then w else After(Apply(w, steps[0]), steps[1..])
  }

  const EMPTY := World([], map[], {}, {}, 0)

  ghost predicate InOrder(rows: seq<Job>) {
    forall i, j :: 0 <= i < j < |rows| ==> rows[i].createdAt < rows[j].createdAt
  }

  /** Supersede pointers lead to a strictly later attempt at the same job. */
  ghost predicate PointsForward(rows: seq<Job>, i: nat)
    requires i < |rows|
  {
    rows[i].supersededBy.Some? ==>
      && i < rows[i].supersededBy.value < |rows|
      && rows[i].createdAt < rows[rows[i].supersededBy.value].createdAt
      && rows[i].cupsId.Some?
      && IsAttempt(rows[rows[i].supersededBy.value], rows[i].printer, rows[i].cupsId.value)
  }

  ghost predicate PointersGoForward(rows: seq<Job>) {
    forall i {:trigger PointsForward(rows, i)} :: 0 <= i < |rows| ==> PointsForward(rows, i)
  }

  ghost predicate TakenIsFinal(w: World, i: nat) {
    && i < |w.rows| && w.rows[i].status == Forwarded && w.rows[i].cupsId.Some?
    && var key := (w.rows[i].printer, w.rows[i].cupsId.value);
    && key in w.cups && w.cups[key].Done? && w.cups[key].outcome.state == Some(COMPLETED)
    && w.rows[i].pageCount == w.cups[key].outcome.pageCount
    && w.rows[i].media.duplex == w.cups[key].outcome.media.duplex && w.rows[i].media.paper == w.cups[key].outcome.media.paper
    && LatestAttempt(w.rows, key.0, key.1) == Some(i)
  }

  ghost predicate Inv(w: World) {
    && InOrder(w.rows)
    && (forall i :: 0 <= i < |w.rows| ==> w.rows[i].createdAt <= w.clock)
    && PointersGoForward(w.rows)
    && (forall i :: i in w.taken ==> TakenIsFinal(w, i))
  }

  /** Which attempt is latest depends on who was created when, not on how they fared. */
  lemma {:induction false} LatestIgnoresStatus(a: seq<Job>, b: seq<Job>, printer: int, cupsId: int)
    requires |a| == |b|
    requires forall i :: 0 <= i < |a| ==>
               a[i].printer == b[i].printer && a[i].cupsId == b[i].cupsId && a[i].createdAt == b[i].createdAt
    ensures LatestAttempt(a, printer, cupsId) == LatestAttempt(b, printer, cupsId)
  {
    if a != [] {
      LatestIgnoresStatus(a[..|a| - 1], b[..|b| - 1], printer, cupsId);
    }
  }

  lemma SweepKeepsIdentity(rows: seq<Job>, now: int, limit: nat, ask: Lookup)
    ensures var after := Sweep(rows, now, limit, ask);
            && |after| == |rows|
            && (forall i :: 0 <= i < |rows| ==>
                 after[i].printer == rows[i].printer && after[i].cupsId == rows[i].cupsId && after[i].createdAt == rows[i].createdAt)
            && (forall i :: 0 <= i < |rows| && rows[i].status != Forwarding ==> after[i] == rows[i])
  {
  }

  lemma AppendKeepsInv(w: World, job: Job, w': World)
    requires Inv(w) && w'.rows == w.rows + [job] && w'.taken == w.taken && job.createdAt > w.clock && w'.clock == job.createdAt
    requires job.supersededBy.None?
    requires forall key :: key in w.cups && w.cups[key].Done? ==>
               key in w'.cups && w'.cups[key] == w.cups[key] && !IsAttempt(job, key.0, key.1)
    ensures Inv(w')
  {
    assert w'.rows[..|w.rows|] == w.rows;
    forall i | 0 <= i < |w'.rows|
      ensures PointsForward(w'.rows, i)
    {
      assert i < |w.rows| ==> PointsForward(w.rows, i);
    }
    forall i | i in w'.taken
      ensures TakenIsFinal(w', i)
    {
      assert TakenIsFinal(w, i);
    }
  }

  lemma SweepPointsForward(rows: seq<Job>, now: int, limit: nat, ask: Lookup)
    requires InOrder(rows) && PointersGoForward(rows)
    ensures PointersGoForward(Sweep(rows, now, limit, ask))
  {
    var after := Sweep(rows, now, limit, ask);
    SweepKeepsIdentity(rows, now, limit, ask);
    forall i | 0 <= i < |after|
      ensures PointsForward(after, i)
    {
      assert PointsForward(rows, i);
      if after[i].supersededBy != rows[i].supersededBy {
        assert SupersededBy(rows, i) == after[i].supersededBy;
        LatestIsNewest(rows, rows[i].printer, rows[i].cupsId.value, i);
      }
    }
  }

  lemma SettledStaysFinal(w: World, w': World, i: nat)
    requires TakenIsFinal(w, i) && w'.cups == w.cups && |w'.rows| == |w.rows| && w'.rows[i] == w.rows[i]
    requires forall j :: 0 <= j < |w.rows| ==>
               w.rows[j].printer == w'.rows[j].printer && w.rows[j].cupsId == w'.rows[j].cupsId && w.rows[j].createdAt == w'.rows[j].createdAt
    ensures TakenIsFinal(w', i)
  {
    LatestIgnoresStatus(w.rows, w'.rows, w.rows[i].printer, w.rows[i].cupsId.value);
  }

  lemma TakingIsFinal(w: World, now: int, limit: nat, ask: Lookup, i: nat)
    requires Honest(w.cups, ask) && i in TakenBy(w.rows, now, limit, ask)
    ensures TakenIsFinal(Apply(w.(clock := now), Reconcile(now, limit, ask)), i)
  {
    var w' := Apply(w.(clock := now), Reconcile(now, limit, ask));
    SweepKeepsIdentity(w.rows, now, limit, ask);
    var p, c := w.rows[i].printer, w.rows[i].cupsId.value;
    LatestIgnoresStatus(w.rows, w'.rows, p, c);
    LatestIsNewest(w.rows, p, c, i);
    assert w'.rows[i] == Swept(w.rows, i, now, ask);
    assert ask.answer(p, c).Some? && ask.answer(p, c).value.state == Some(COMPLETED);
  }

  lemma SweepKeepsInv(w: World, now: int, limit: nat, ask: Lookup)
    requires Inv(w) && Enabled(w, Reconcile(now, limit, ask))
    ensures Inv(Apply(w, Reconcile(now, limit, ask)))
  {
    var w' := Apply(w, Reconcile(now, limit, ask));
    SweepKeepsIdentity(w.rows, now, limit, ask);
    assert PointersGoForward(w'.rows) by {
      SweepPointsForward(w.rows, now, limit, ask);
    }
    forall i | i in w'.taken
      ensures TakenIsFinal(w', i)
    {
      if i in w.taken {
        SettledStaysFinal(w, w', i);
      } else {
        TakingIsFinal(w, now, limit, ask, i);
      }
    }
  }

  lemma FinishingAnotherKeepsFinal(w: World, w': World, key: (int, int), i: nat)
    requires TakenIsFinal(w, i) && w'.rows == w.rows
    requires key in w.cups && w.cups[key].InFlight? && forall k :: k in w.cups && k != key ==> k in w'.cups && w'.cups[k] == w.cups[k]
    ensures TakenIsFinal(w', i)
  {
  }

  lemma FinishKeepsInv(w: World, p: int, c: int, o: Outcome)
    requires Inv(w) && Enabled(w, Finish(p, c, o))
    ensures Inv(Apply(w, Finish(p, c, o)))
  {
    var w' := Apply(w, Finish(p, c, o));
    forall i | i in w'.taken
      ensures TakenIsFinal(w', i)
    {
      FinishingAnotherKeepsFinal(w, w', (p, c), i);
    }
  }

  lemma ReportKeepsInv(w: World, i: nat, status: Status, pages: Option<int>, media: Media)
    requires Inv(w) && Enabled(w, Report(i, status, pages, media))
    ensures Inv(Apply(w, Report(i, status, pages, media)))
  {
    var w' := Apply(w, Report(i, status, pages, media));
    assert forall j :: 0 <= j < |w.rows| && j != i ==> w'.rows[j] == w.rows[j];
    forall j | 0 <= j < |w'.rows|
      ensures PointsForward(w'.rows, j)
    {
      assert PointsForward(w.rows, j);
    }
    forall j | j in w'.taken
      ensures TakenIsFinal(w', j)
    {
      assert TakenIsFinal(w, j);
      SettledStaysFinal(w, w', j);
    }
  }

  lemma StepKeepsInv(w: World, s: Step)
    requires Inv(w) && Enabled(w, s)
    ensures Inv(Apply(w, s))
  {
    match s {
      case Attempt(p, c, at) => AppendKeepsInv(w, NewJob(p, Some(c), at), Apply(w, s));
      case Untracked(p, at) => AppendKeepsInv(w, NewJob(p, None, at), Apply(w, s));
      case Finish(p, c, o) => FinishKeepsInv(w, p, c, o);
      case Report(i, status, pages, media) => ReportKeepsInv(w, i, status, pages, media);
      case Reconcile(now, limit, ask) => SweepKeepsInv(w, now, limit, ask);
    }
  }

  lemma {:induction false} RunKeepsInv(w: World, steps: seq<Step>)
    requires Inv(w) && Runs(w, steps)
    ensures Inv(After(w, steps))
    decreases |steps|
  {
    if steps != [] {
      StepKeepsInv(w, steps[0]);
      RunKeepsInv(Apply(w, steps[0]), steps[1..]);
    }
  }

  // ---- Main results ----

  /** However often a job was restarted and swept, one row at most carries its pages. */
  lemma OneRowTakesThePages(steps: seq<Step>, i: nat, j: nat)
    requires Runs(EMPTY, steps)
    requires var w := After(EMPTY, steps);
             && i in w.taken && j in w.taken && i < |w.rows| && j < |w.rows|
             && w.rows[i].printer == w.rows[j].printer && w.rows[i].cupsId == w.rows[j].cupsId
    ensures i == j
  {
    RunKeepsInv(EMPTY, steps);
    var w := After(EMPTY, steps);
    assert TakenIsFinal(w, i) && TakenIsFinal(w, j);
  }

  /** Following supersede pointers ends, at a row of the same job that nothing supersedes. */
  function FollowPointers(rows: seq<Job>, i: nat): (end: nat)
    requires i < |rows| && PointersGoForward(rows)
    ensures i <= end < |rows| && rows[end].supersededBy.None?
    ensures rows[end].printer == rows[i].printer && rows[end].cupsId == rows[i].cupsId
    decreases |rows| - i
  {
    assert PointsForward(rows, i);
    if rows[i].supersededBy.None? then i else FollowPointers(rows, rows[i].supersededBy.value)
  }

  lemma PointersGoForwardInEveryRun(steps: seq<Step>)
    requires Runs(EMPTY, steps)
    ensures PointersGoForward(After(EMPTY, steps).rows)
  {
    RunKeepsInv(EMPTY, steps);
  }

  /** Once a row has left "forwarding", nothing in this protocol touches it again. */
  lemma {:induction false} SettledRowsAreNeverTouched(w: World, steps: seq<Step>, i: nat)
    requires Runs(w, steps) && i < |w.rows| && w.rows[i].status != Forwarding
    ensures i < |After(w, steps).rows| && After(w, steps).rows[i] == w.rows[i]
    decreases |steps|
  {
    if steps != [] {
      var s := steps[0];
      if s.Reconcile? {
        SweepKeepsIdentity(w.rows, s.now, s.limit, s.ask);
      }
      SettledRowsAreNeverTouched(Apply(w, s), steps[1..], i);
    }
  }

  // ---- What a closed row says ----

  /** cupsd is done with the row's job, in that state. */
  predicate FinishedAs(w: World, job: Job, state: int) {
    job.cupsId.Some? && var key := (job.printer, job.cupsId.value);
    key in w.cups && w.cups[key].Done? && w.cups[key].outcome.state == Some(state)
  }

  predicate AsPrinted(job: Job, outcome: Outcome) {
    && job.pageCount == outcome.pageCount
    && job.media.duplex == outcome.media.duplex && job.media.paper == outcome.media.paper
    && (job.media.color == outcome.media.color || (outcome.media.color == Some("color") && job.media.color == Some("monochrome")))
  }

  /** A row nobody has closed yet. */
  predicate Open(job: Job) {
    job.status == Forwarding && job.pageCount.None? && job.media == UNKNOWN && job.supersededBy.None? && job.completedAt.None?
  }

  /** What a row closed by a sweep says, against what became of its job. */
  predicate TellsTheTruth(w: World, job: Job) {
    && job.completedAt.Some? && job.completedAt.value <= w.clock
    && (job.status != Forwarded ==> job.pageCount.None? && job.media == UNKNOWN)
    && (match job.status
        case Forwarded => FinishedAs(w, job, COMPLETED) && AsPrinted(job, w.cups[(job.printer, job.cupsId.value)].outcome)
        case Failed => FinishedAs(w, job, ABORTED)
                       && job.message == Some(Aborted(w.cups[(job.printer, job.cupsId.value)].outcome.reason))
        case Cancelled =>
          || (job.supersededBy.Some? && job.message == Some(Superseded(job.cupsId)))
          || (FinishedAs(w, job, CANCELED) && job.message == Some(CancelledAtServer))
          || (job.createdAt + UNRESOLVABLE_AFTER <= job.completedAt.value && job.message == Some(OutcomeUnknown))
        case _ => false)
  }

  ghost predicate Truthful(w: World) {
    && (forall i :: i in w.reported ==> i < |w.rows| && w.rows[i].status != Forwarding)
    && forall i :: 0 <= i < |w.rows| && i !in w.reported ==> Open(w.rows[i]) || TellsTheTruth(w, w.rows[i])
  }

  lemma TruthStands(w: World, w': World, job: Job)
    requires TellsTheTruth(w, job) && w.clock <= w'.clock
    requires forall key :: key in w.cups && w.cups[key].Done? ==> key in w'.cups && w'.cups[key] == w.cups[key]
    ensures TellsTheTruth(w', job)
  {
  }

  lemma SweptTellsTheTruth(w: World, now: int, limit: nat, ask: Lookup, i: nat)
    requires Enabled(w, Reconcile(now, limit, ask)) && i < |w.rows| && Open(w.rows[i])
    ensures var w' := Apply(w, Reconcile(now, limit, ask));
            Open(w'.rows[i]) || TellsTheTruth(w', w'.rows[i])
  {
    hide Candidates;
    var job := w.rows[i];
    if job.cupsId.Some? {
      var p, c := job.printer, job.cupsId.value;
      assert ask.answer(p, c).Some? && ask.answer(p, c).value.state.Some? ==> (p, c) in w.cups;
    }
  }

  lemma StepStaysTruthful(w: World, s: Step)
    requires Truthful(w) && Enabled(w, s)
    ensures Truthful(Apply(w, s))
  {
    hide TellsTheTruth;
    var w' := Apply(w, s);
    if s.Reconcile? {
      SweepKeepsIdentity(w.rows, s.now, s.limit, s.ask);
    }
    assert forall i :: 0 <= i < |w.rows| && !s.Reconcile? && i !in w'.reported ==> w'.rows[i] == w.rows[i];
    forall i | 0 <= i < |w'.rows| && i !in w'.reported
      ensures Open(w'.rows[i]) || TellsTheTruth(w', w'.rows[i])
    {
      if i < |w.rows| {
        if s.Reconcile? && Open(w.rows[i]) {
          SweptTellsTheTruth(w, s.now, s.limit, s.ask, i);
        } else if TellsTheTruth(w, w.rows[i]) {
          ClosedIsNotForwarding(w, w.rows[i]);
          TruthStands(w, w', w.rows[i]);
        }
      }
    }
  }

  lemma ClosedIsNotForwarding(w: World, job: Job)
    requires TellsTheTruth(w, job)
    ensures job.status != Forwarding
  {
  }

  lemma {:induction false} RunStaysTruthful(w: World, steps: seq<Step>)
    requires Truthful(w) && Runs(w, steps)
    ensures Truthful(After(w, steps))
    decreases |steps|
  {
    hide Truthful, Enabled, Apply;
    if steps != [] {
      StepStaysTruthful(w, steps[0]);
      RunStaysTruthful(Apply(w, steps[0]), steps[1..]);
    }
  }

  /** In every reachable state a row is untouched, or was closed by the backend or a
      person, or says of its job what cupsd's final record of it says; that a later
      attempt took its place; or, two hours on, that nobody knows. Only the row of a
      completed job has pages. */
  lemma ClosedRowsTellTheTruth(steps: seq<Step>, i: nat)
    requires Runs(EMPTY, steps) && i < |After(EMPTY, steps).rows|
    ensures var w := After(EMPTY, steps);
            i in w.reported || Open(w.rows[i]) || TellsTheTruth(w, w.rows[i])
  {
    RunStaysTruthful(EMPTY, steps);
  }

  // ---- While the job is in flight ----

  /** Nothing but sweeps, and other jobs' business; and whenever a sweep's question about
      this job is answered, the answer has a state. */
  predicate LeavesAlone(s: Step, printer: int, cupsId: int, i: nat) {
    match s
    case Attempt(p, c, _) => (p, c) != (printer, cupsId)
    case Finish(p, c, _) => (p, c) != (printer, cupsId)
    case Report(row, _, _, _) => row != i
    case Reconcile(_, _, ask) => ask.answer(printer, cupsId).Some? ==> ask.answer(printer, cupsId).value.state.Some?
    case Untracked(_, _) => true
  }

  predicate IsInFlight(w: World, printer: int, cupsId: int, i: nat) {
    && i < |w.rows| && IsAttempt(w.rows[i], printer, cupsId)
    && (printer, cupsId) in w.cups && w.cups[(printer, cupsId)].InFlight?
    && LatestAttempt(w.rows, printer, cupsId) == Some(i)
  }

  lemma LatestOfAppend(rows: seq<Job>, job: Job, printer: int, cupsId: int)
    requires !IsAttempt(job, printer, cupsId)
    ensures LatestAttempt(rows + [job], printer, cupsId) == LatestAttempt(rows, printer, cupsId)
  {
    assert (rows + [job])[..|rows|] == rows;
  }

  /** Rows that gained nothing at this job leave its latest attempt where it was. */
  lemma StillInFlight(w: World, w': World, printer: int, cupsId: int, i: nat)
    requires IsInFlight(w, printer, cupsId, i) && |w.rows| <= |w'.rows| && SameJobs(w.rows, w'.rows[..|w.rows|])
    requires |w'.rows| == |w.rows| || (|w'.rows| == |w.rows| + 1 && !IsAttempt(w'.rows[|w.rows|], printer, cupsId))
    requires (printer, cupsId) in w'.cups && w'.cups[(printer, cupsId)].InFlight?
    ensures IsInFlight(w', printer, cupsId, i)
  {
    LatestIgnoresStatus(w.rows, w'.rows[..|w.rows|], printer, cupsId);
    if |w'.rows| == |w.rows| {
      assert w'.rows[..|w.rows|] == w'.rows;
    } else {
      LatestOfAppend(w'.rows[..|w.rows|], w'.rows[|w.rows|], printer, cupsId);
      assert w'.rows == w'.rows[..|w.rows|] + [w'.rows[|w.rows|]];
    }
  }

  lemma SweepLeavesInFlight(w: World, now: int, limit: nat, ask: Lookup, printer: int, cupsId: int, i: nat)
    requires IsInFlight(w, printer, cupsId, i) && Honest(w.cups, ask)
    requires ask.answer(printer, cupsId).Some? ==> ask.answer(printer, cupsId).value.state.Some?
    ensures Sweep(w.rows, now, limit, ask)[i] == w.rows[i]
  {
    hide Candidates;
  }

  lemma StepLeavesInFlight(w: World, s: Step, printer: int, cupsId: int, i: nat)
    requires IsInFlight(w, printer, cupsId, i) && Enabled(w, s) && LeavesAlone(s, printer, cupsId, i)
    ensures IsInFlight(Apply(w, s), printer, cupsId, i) && Apply(w, s).rows[i] == w.rows[i]
  {
    hide LatestAttempt, Sweep;
    var w' := Apply(w, s);
    if s.Reconcile? {
      SweepKeepsIdentity(w.rows, s.now, s.limit, s.ask);
      SweepLeavesInFlight(w, s.now, s.limit, s.ask, printer, cupsId, i);
    }
    StillInFlight(w, w', printer, cupsId, i);
  }

  /** While cupsd has the job in flight and answers with its state, the latest attempt
      stays as it is through any number of sweeps, however old it grows. */
  lemma {:induction false} InFlightIsLeftAlone(w: World, steps: seq<Step>, printer: int, cupsId: int, i: nat)
    requires IsInFlight(w, printer, cupsId, i) && Runs(w, steps)
    requires forall k :: 0 <= k < |steps| ==> LeavesAlone(steps[k], printer, cupsId, i)
    ensures IsInFlight(After(w, steps), printer, cupsId, i) && After(w, steps).rows[i] == w.rows[i]
    decreases |steps|
  {
    hide IsInFlight, LeavesAlone, Enabled, Apply;
    if steps != [] {
      StepLeavesInFlight(w, steps[0], printer, cupsId, i);
      InFlightIsLeftAlone(Apply(w, steps[0]), steps[1..], printer, cupsId, i);
    }
  }

  // ---- How long a row waits ----

  /** When a sweep was made, and what cupsd answered it. */
  datatype Round = Round(now: int, ask: Lookup)

  /** One sweep after another. */
  function Sweeps(rows: seq<Job>, rounds: seq<Round>, limit: nat): (after: seq<Job>)
    ensures |after| == |rows|
    decreases |rounds|
  {
    if rounds == [] then rows else Sweeps(Sweep(rows, rounds[0].now, limit, rounds[0].ask), rounds[1..], limit)
  }

  /** What cupsd says when asked about a row: nothing is known of one without a job id. */
  ghost predicate IsTold(job: Job, ask: Lookup, state: Option<int>) {
    if job.cupsId.None? then state == None
    else exists o :: ask.answer(job.printer, job.cupsId.value) == Some(o) && o.state == state
  }

  /** Another row is a later attempt at the same CUPS job; of two made at one moment, the
      one stored first passes for the later. */
  ghost predicate ComesLater(rows: seq<Job>, j: nat, i: nat)
    requires i < |rows| && j < |rows|
  {
    && j != i && rows[i].cupsId.Some? && rows[j].cupsId == rows[i].cupsId && rows[j].printer == rows[i].printer
    && (rows[j].createdAt > rows[i].createdAt || (rows[j].createdAt == rows[i].createdAt && j < i))
  }

  ghost predicate GaveWay(rows: seq<Job>, i: nat)
    requires i < |rows|
  {
    exists j: nat :: j < |rows| && ComesLater(rows, j, i)
  }

  /** A sweep that asks about a row learns that its job was cancelled, aborted or
      completed, or that it gave way. */
  ghost predicate IsOver(rows: seq<Job>, i: nat, ask: Lookup)
    requires i < |rows|
  {
    GaveWay(rows, i) || exists state :: state in {CANCELED, ABORTED, COMPLETED} && IsTold(rows[i], ask, Some(state))
  }

  /** What a sweep that gets to a row needs to close it: its job is over, or nobody knows
      what became of it and it is two hours old. */
  ghost predicate Closes(rows: seq<Job>, i: nat, now: int, ask: Lookup)
    requires i < |rows|
  {
    IsOver(rows, i, ask) || (IsTold(rows[i], ask, None) && now - rows[i].createdAt >= UNRESOLVABLE_AFTER)
  }

  /** The row a superseded one points at is the last of the attempts at its job. */
  lemma {:induction false} LatestComesLast(rows: seq<Job>, printer: int, cupsId: int)
    ensures var latest := LatestAttempt(rows, printer, cupsId);
            && (latest.None? <==> forall j :: 0 <= j < |rows| ==> !IsAttempt(rows[j], printer, cupsId))
            && (latest.Some? ==> forall j: nat :: j < |rows| && IsAttempt(rows[j], printer, cupsId) && j != latest.value ==>
                 ComesLater(rows, latest.value, j) && !ComesLater(rows, j, latest.value))
  {
    if rows != [] {
      var n := |rows| - 1;
      LatestComesLast(rows[..n], printer, cupsId);
      var before := LatestAttempt(rows[..n], printer, cupsId);
      forall j: nat, k: nat | j < n && k < n
        ensures ComesLater(rows[..n], j, k) <==> ComesLater(rows, j, k)
      {
      }
    }
  }

  lemma SupersededExactlyWhen(rows: seq<Job>, i: nat)
    requires i < |rows|
    ensures SupersededBy(rows, i).Some? <==> GaveWay(rows, i)
    ensures SupersededBy(rows, i).Some? ==>
              var j := SupersededBy(rows, i).value;
              j < |rows| && ComesLater(rows, j, i) && !GaveWay(rows, j)
  {
    if rows[i].cupsId.Some? {
      var p, c := rows[i].printer, rows[i].cupsId.value;
      LatestComesLast(rows, p, c);
      hide LatestAttempt;
      var latest := LatestAttempt(rows, p, c);
      forall j: nat | j < |rows|
        ensures ComesLater(rows, j, i) ==> IsAttempt(rows[j], p, c)
        ensures ComesLater(rows, j, latest.value) ==> IsAttempt(rows[j], p, c)
      {
      }
    }
  }

  /** What becomes of an open row that a sweep gets to. */
  lemma SweptClosesExactlyWhen(rows: seq<Job>, i: nat, now: int, ask: Lookup)
    requires i < |rows| && rows[i].status == Forwarding
    ensures Swept(rows, i, now, ask).status != Forwarding <==> Closes(rows, i, now, ask)
    ensures !Closes(rows, i, now, ask) ==> Swept(rows, i, now, ask) == rows[i]
  {
    SupersededExactlyWhen(rows, i);
    hide SupersededBy, GaveWay;
    var answer := Answer(rows[i], ask);
    if answer.Some? {
      assert IsTold(rows[i], ask, answer.value.state);
      assert answer.value.state.Some? ==> IsTold(rows[i], ask, Some(answer.value.state.value));
    }
    forall state | IsTold(rows[i], ask, state)
      ensures answer.Some? && answer.value.state == state
    {
    }
  }

  /** The rows still forwarding that were created before row `i`. */
  function Older(rows: seq<Job>, i: nat): set<nat>
    requires i < |rows|
  {
    set j: nat | j < i && rows[j].status == Forwarding
  }

  /** Those of them that a sweep would leave as they are. */
  ghost function Blocking(rows: seq<Job>, i: nat, now: int, ask: Lookup): set<nat>
    requires i < |rows|
  {
    set j: nat | j < i && rows[j].status == Forwarding && !Closes(rows, j, now, ask)
  }

  ghost predicate SameJobs(a: seq<Job>, b: seq<Job>) {
    |a| == |b| && forall i :: 0 <= i < |a| ==>
      a[i].printer == b[i].printer && a[i].cupsId == b[i].cupsId && a[i].createdAt == b[i].createdAt
  }

  /** What a sweep makes of an untouched row does not depend on how the others fared. */
  lemma StillCloses(rows: seq<Job>, later: seq<Job>, i: nat, now: int, ask: Lookup)
    requires SameJobs(rows, later) && i < |rows| && later[i] == rows[i]
    ensures Closes(rows, i, now, ask) <==> Closes(later, i, now, ask)
  {
    hide IsTold;
    assert forall j: nat :: j < |rows| ==> (ComesLater(rows, j, i) <==> ComesLater(later, j, i));
  }

  /** A sweep that passes a stuck row over spent itself on older ones. */
  lemma PassedOver(rows: seq<Job>, i: nat, now: int, limit: nat)
    requires InOrder(rows) && i < |rows| && IsStuck(rows[i], now) && i !in Candidates(rows, now, limit)
    ensures var taken := Candidates(rows, now, limit);
            && |taken| == limit && forall k :: 0 <= k < |taken| ==> taken[k] in Older(rows, i)
  {
    var taken, pool := Candidates(rows, now, limit), StuckRows(rows, now);
    CandidatesAreTheOldest(rows, now, limit);
    assert i in pool;
    if |taken| < limit {
      AllTaken(pool, taken);
    }
    forall k | 0 <= k < |taken|
      ensures taken[k] in Older(rows, i)
    {
      assert CreatedAt(rows)[taken[k]] <= CreatedAt(rows)[i];
      assert taken[k] in taken;
      assert rows[taken[k]].createdAt <= rows[i].createdAt;
    }
  }

  /** As many different members as the pool has are all of them. */
  lemma AllTaken(pool: set<nat>, taken: seq<nat>)
    requires |taken| == |pool| && forall k :: 0 <= k < |taken| ==> taken[k] in pool
    requires forall x, y :: 0 <= x < y < |taken| ==> taken[x] != taken[y]
    ensures forall i :: i in pool ==> i in taken
  {
    Query.DistinctSize(taken);
    var members := set k | 0 <= k < |taken| :: taken[k];
    assert members <= pool;
    if i :| i in pool && i !in taken {
      assert i !in members;
      assert members <= pool - {i};
      Query.SmallerSet(members, pool - {i});
    }
  }

  /** A sweep that reaches a row has reached every older one. */
  lemma Reached(rows: seq<Job>, i: nat, now: int, limit: nat)
    requires InOrder(rows) && i < |rows| && IsStuck(rows[i], now) && i in Candidates(rows, now, limit)
    ensures |Older(rows, i)| < limit
  {
    var taken, pool := Candidates(rows, now, limit), StuckRows(rows, now);
    CandidatesAreTheOldest(rows, now, limit);
    Query.DistinctSize(taken);
    var members := set k | 0 <= k < |taken| :: taken[k];
    forall j | j in Older(rows, i)
      ensures j in members - {i}
    {
      assert j in pool && CreatedAt(rows)[j] < CreatedAt(rows)[i];
      var k :| 0 <= k < |taken| && taken[k] == i;
      assert j in taken;
      var m :| 0 <= m < |taken| && taken[m] == j;
      assert j in members;
    }
    assert i in members;
    Query.SmallerSet(Older(rows, i), members - {i});
  }

  /** The candidates as a set: as many, since none is taken twice. */
  lemma TakenSet(rows: seq<Job>, now: int, limit: nat) returns (members: set<nat>)
    ensures forall j: nat :: j in members <==> j in Candidates(rows, now, limit)
    ensures |members| == |Candidates(rows, now, limit)|
  {
    var taken := Candidates(rows, now, limit);
    CandidatesAreTheOldest(rows, now, limit);
    Query.DistinctSize(taken);
    members := set k | 0 <= k < |taken| :: taken[k];
  }

  /** What a sweep that passes row `i` over does to the queue ahead of it. */
  lemma QueueMoves(rows: seq<Job>, i: nat, now: int, limit: nat, ask: Lookup)
    requires InOrder(rows) && i < |rows| && IsStuck(rows[i], now) && i !in Candidates(rows, now, limit)
    ensures |Older(Sweep(rows, now, limit, ask), i)| <= |Older(rows, i)| - (limit - |Blocking(rows, i, now, ask)|)
  {
    hide Closes, Candidates, Sweep, InOrder;
    var after := Sweep(rows, now, limit, ask);
    PassedOver(rows, i, now, limit);
    var members := TakenSet(rows, now, limit);
    var older, blocking := Older(rows, i), Blocking(rows, i, now, ask);
    forall j: nat | j < i && after[j].status == Forwarding
      ensures j in older - (members - blocking)
    {
      StaysForwarding(rows, j, now, limit, ask);
    }
    Query.Without(older, members, blocking);
    Query.SmallerSet(Older(after, i), older - (members - blocking));
  }

  lemma StaysForwarding(rows: seq<Job>, j: nat, now: int, limit: nat, ask: Lookup)
    requires j < |rows| && Sweep(rows, now, limit, ask)[j].status == Forwarding
    ensures rows[j].status == Forwarding && Sweep(rows, now, limit, ask)[j] == rows[j]
    ensures j in Candidates(rows, now, limit) ==> !Closes(rows, j, now, ask)
  {
    SweptClosesExactlyWhen(rows, j, now, ask);
    hide Closes;
  }

  /** Nor do sweeps ever put more in a row's way than the evidence does. */
  lemma BlockingShrinks(rows: seq<Job>, i: nat, round: Round, limit: nat, later: Round)
    requires i < |rows|
    ensures Blocking(Sweep(rows, round.now, limit, round.ask), i, later.now, later.ask) <= Blocking(rows, i, later.now, later.ask)
  {
    hide Closes, Candidates, Sweep;
    var after := Sweep(rows, round.now, limit, round.ask);
    SweepKeepsIdentity(rows, round.now, limit, round.ask);
    forall j | j in Blocking(after, i, later.now, later.ask)
      ensures j in Blocking(rows, i, later.now, later.ask)
    {
      StaysForwarding(rows, j, round.now, limit, round.ask);
      StillCloses(rows, after, j, later.now, later.ask);
    }
  }

  lemma ReachedExactlyWhen(rows: seq<Job>, i: nat, now: int, limit: nat)
    requires InOrder(rows) && i < |rows| && IsStuck(rows[i], now)
    ensures i in Candidates(rows, now, limit) <==> |Older(rows, i)| < limit
  {
    hide Candidates, InOrder;
    if i in Candidates(rows, now, limit) {
      Reached(rows, i, now, limit);
    } else {
      PassedOver(rows, i, now, limit);
      var members := TakenSet(rows, now, limit);
      Query.SmallerSet(members, Older(rows, i));
    }
  }

  /** Exactly when a sweep closes a row: when it is stuck, fewer older ones are open than
      a sweep takes, and what the sweep is told of it closes it. */
  lemma SweepClosesExactlyWhen(rows: seq<Job>, i: nat, now: int, limit: nat, ask: Lookup)
    requires InOrder(rows) && i < |rows| && rows[i].status == Forwarding
    ensures var row := Sweep(rows, now, limit, ask)[i];
            && (row.status != Forwarding <==>
                 now - rows[i].createdAt > STUCK_AFTER && |Older(rows, i)| < limit && Closes(rows, i, now, ask))
            && (row.status == Forwarding ==> row == rows[i])
  {
    SweptClosesExactlyWhen(rows, i, now, ask);
    hide InOrder, Older, Closes;
    if IsStuck(rows[i], now) {
      ReachedExactlyWhen(rows, i, now, limit);
    }
  }

  /** What a sweep leaves of a row it gets to, case by case: the states are those of
      section 5.3.7 of RFC 8011, 7 for canceled, 8 for aborted and 9 for completed. */
  lemma WhatClosedRowsSay(rows: seq<Job>, i: nat, now: int, limit: nat, ask: Lookup, outcome: Outcome)
    requires i in Candidates(rows, now, limit)
    ensures var job, row := rows[i], Sweep(rows, now, limit, ask)[i];
            && (GaveWay(rows, i) ==> exists j: nat ::
                 && j < |rows| && ComesLater(rows, j, i) && !GaveWay(rows, j)
                 && row == job.(status := Cancelled, supersededBy := Some(j), message := Some(Superseded(job.cupsId)), completedAt := Some(now)))
            && (!GaveWay(rows, i) && job.cupsId.Some? && ask.answer(job.printer, job.cupsId.value) == Some(outcome) ==>
                 && (outcome.state == Some(9) ==>
                      && row == job.(status := Forwarded, message := None, pageCount := outcome.pageCount, media := row.media, completedAt := Some(now))
                      && row.media.duplex == outcome.media.duplex && row.media.paper == outcome.media.paper
                      && row.media.color == if ask.colour(job.printer) == Some(false) && outcome.media.color == Some("color")
                                            then Some("monochrome") else outcome.media.color)
                 && (outcome.state == Some(8) ==>
                      row == job.(status := Failed, message := Some(Aborted(outcome.reason)), completedAt := Some(now)))
                 && (outcome.state == Some(7) ==>
                      row == job.(status := Cancelled, message := Some(CancelledAtServer), completedAt := Some(now))))
            && (!GaveWay(rows, i) && IsTold(job, ask, None) && Closes(rows, i, now, ask) ==>
                 row == job.(status := Cancelled, message := Some(OutcomeUnknown), completedAt := Some(now)))
            && (!Closes(rows, i, now, ask) ==> row == job)
  {
    SupersededExactlyWhen(rows, i);
    SweptClosesExactlyWhen(rows, i, now, ask);
    hide SupersededBy, GaveWay, ComesLater, Candidates;
    assert outcome.state == Some(9) ==> outcome.state == Some(COMPLETED);
  }

  /** How a sweep reports an open row that it gets to. */
  lemma ReportedExactlyAs(rows: seq<Job>, i: nat, now: int, ask: Lookup)
    requires i < |rows| && rows[i].status == Forwarding
    ensures var fate := FateOf(rows, i, now, ask);
            && (fate == Resolved <==> Closes(rows, i, now, ask))
            && (fate == Unasked <==> !GaveWay(rows, i) && forall state :: !IsTold(rows[i], ask, state))
            && (fate == Kept <==> !Closes(rows, i, now, ask) && IsTold(rows[i], ask, None))
            && (fate == LeftInFlight <==> !Closes(rows, i, now, ask) && exists state: int :: IsTold(rows[i], ask, Some(state)))
  {
    SupersededExactlyWhen(rows, i);
    SweptClosesExactlyWhen(rows, i, now, ask);
    hide SupersededBy, GaveWay;
    var answer := Answer(rows[i], ask);
    if answer.Some? {
      assert IsTold(rows[i], ask, answer.value.state);
      assert answer.value.state.Some? ==> IsTold(rows[i], ask, Some(answer.value.state.value));
    }
    forall state | IsTold(rows[i], ask, state)
      ensures answer.Some? && answer.value.state == state
    {
    }
  }

  /** The candidates among the first `done` that are reported so. */
  ghost function Reported(rows: seq<Job>, candidates: seq<nat>, done: nat, now: int, ask: Lookup, fate: Fate): set<nat> {
    Query.Those(done, (k: nat) => k < |candidates| && candidates[k] < |rows| && FateOf(rows, candidates[k], now, ask) == fate)
  }

  /** Each count is that of the candidates it is about. */
  lemma {:induction false} CountsAreOfCandidates(rows: seq<Job>, candidates: seq<nat>, done: nat, now: int, ask: Lookup)
    requires done <= |candidates| && forall k :: 0 <= k < |candidates| ==> candidates[k] < |rows|
    ensures var t := Tally(rows, candidates, done, now, ask);
            && t.resolved == |Reported(rows, candidates, done, now, ask, Resolved)|
            && t.leftInFlight == |Reported(rows, candidates, done, now, ask, LeftInFlight)|
            && t.unresolvableKept == |Reported(rows, candidates, done, now, ask, Kept)|
            && t.unasked == |Reported(rows, candidates, done, now, ask, Unasked)|
  {
    hide FateOf;
    if done > 0 {
      CountsAreOfCandidates(rows, candidates, done - 1, now, ask);
      OneMoreReported(rows, candidates, done - 1, now, ask, Resolved);
      OneMoreReported(rows, candidates, done - 1, now, ask, LeftInFlight);
      OneMoreReported(rows, candidates, done - 1, now, ask, Kept);
      OneMoreReported(rows, candidates, done - 1, now, ask, Unasked);
      hide Reported;
    }
  }

  lemma OneMoreReported(rows: seq<Job>, candidates: seq<nat>, done: nat, now: int, ask: Lookup, fate: Fate)
    requires done < |candidates| && candidates[done] < |rows|
    ensures |Reported(rows, candidates, done + 1, now, ask, fate)|
            == |Reported(rows, candidates, done, now, ask, fate)| + (if FateOf(rows, candidates[done], now, ask) == fate then 1 else 0)
  {
    hide FateOf;
    var p := (k: nat) => k < |candidates| && candidates[k] < |rows| && FateOf(rows, candidates[k], now, ask) == fate;
    Query.OneMoreOfThose(done, p);
    assert Query.Those(done, p) == Reported(rows, candidates, done, now, ask, fate);
    assert Query.Those(done + 1, p) == Reported(rows, candidates, done + 1, now, ask, fate);
  }

  /** A step closes a row: somebody reports its end, or a sweep gets to it and is told. */
  ghost predicate ClosesRow(w: World, s: Step, i: nat)
    requires i < |w.rows|
  {
    match s
    case Report(row, _, _, _) => row == i
    case Reconcile(now, limit, ask) =>
      now - w.rows[i].createdAt > STUCK_AFTER && |Older(w.rows, i)| < limit && Closes(w.rows, i, now, ask)
    case _ => false
  }

  ghost predicate NeverCloses(w: World, steps: seq<Step>, i: nat)
    requires i < |w.rows| && Runs(w, steps)
    decreases |steps|
  {
    steps == []
    || (!ClosesRow(w, steps[0], i) && |w.rows| <= |Apply(w, steps[0]).rows| && NeverCloses(Apply(w, steps[0]), steps[1..], i))
  }

  lemma StepClosesExactlyWhen(w: World, s: Step, i: nat)
    requires Inv(w) && Enabled(w, s) && i < |w.rows| && w.rows[i].status == Forwarding
    ensures |w.rows| <= |Apply(w, s).rows|
    ensures Apply(w, s).rows[i].status != Forwarding <==> ClosesRow(w, s, i)
  {
    hide Older, Closes, Sweep;
    if s.Reconcile? {
      SweepClosesExactlyWhen(w.rows, i, s.now, s.limit, s.ask);
    }
  }

  /** In any run, whatever cupsd answers each of its sweeps, an open row is still open at
      the end if and only if no step closed it. */
  lemma {:induction false} OpenExactlyWhenNeverClosed(w: World, steps: seq<Step>, i: nat)
    requires Inv(w) && Runs(w, steps) && i < |w.rows| && w.rows[i].status == Forwarding
    ensures i < |After(w, steps).rows|
    ensures After(w, steps).rows[i].status == Forwarding <==> NeverCloses(w, steps, i)
    decreases |steps|
  {
    hide Inv, Enabled, Apply, ClosesRow;
    if steps != [] {
      var w' := Apply(w, steps[0]);
      StepKeepsInv(w, steps[0]);
      StepClosesExactlyWhen(w, steps[0], i);
      if w'.rows[i].status == Forwarding {
        OpenExactlyWhenNeverClosed(w', steps[1..], i);
      } else {
        SettledRowsAreNeverTouched(w', steps[1..], i);
      }
    }
  }

  predicate Later(rounds: seq<Round>) {
    forall i, j :: 0 <= i <= j < |rounds| ==> rounds[i].now <= rounds[j].now
  }

  /** By how much the queue ahead of a row moves on, as long as the row is passed over. */
  ghost function WorkedOff(rows: seq<Job>, rounds: seq<Round>, limit: nat, i: nat): int
    requires i < |rows|
    decreases |rounds|
  {
    if rounds == [] then 0
    else
      var r := rounds[0];
      limit - |Blocking(rows, i, r.now, r.ask)| + WorkedOff(Sweep(rows, r.now, limit, r.ask), rounds[1..], limit, i)
  }

  /** Every sweep would close the row if it got to it. */
  ghost predicate Ready(rows: seq<Job>, rounds: seq<Round>, i: nat)
    requires i < |rows|
  {
    forall k :: 0 <= k < |rounds| ==> Closes(rows, i, rounds[k].now, rounds[k].ask)
  }

  lemma StillReady(rows: seq<Job>, rounds: seq<Round>, limit: nat, i: nat)
    requires i < |rows| && rounds != [] && Ready(rows, rounds, i) && Sweep(rows, rounds[0].now, limit, rounds[0].ask)[i] == rows[i]
    ensures Ready(Sweep(rows, rounds[0].now, limit, rounds[0].ask), rounds[1..], i)
  {
    hide Closes, Sweep;
    var after := Sweep(rows, rounds[0].now, limit, rounds[0].ask);
    SweepKeepsIdentity(rows, rounds[0].now, limit, rounds[0].ask);
    forall k | 0 <= k < |rounds[1..]|
      ensures Closes(after, i, rounds[1..][k].now, rounds[1..][k].ask)
    {
      StillCloses(rows, after, i, rounds[k + 1].now, rounds[k + 1].ask);
    }
  }

  /** A row that is ready to close is closed once the sweeps have worked off enough of the
      queue ahead of it, whatever cupsd answers each of them about the others. */
  lemma {:induction false} ReadyRowIsClosed(rows: seq<Job>, rounds: seq<Round>, limit: nat, i: nat)
    requires InOrder(rows) && i < |rows| && rounds != [] && Later(rounds)
    requires IsStuck(rows[i], rounds[0].now) && Ready(rows, rounds, i)
    requires |Older(rows, i)| < limit + WorkedOff(rows, rounds[..|rounds| - 1], limit, i)
    ensures Sweeps(rows, rounds, limit)[i].status != Forwarding
    decreases |rounds|
  {
    hide Closes, Candidates, Older, Blocking, Sweep;
    var r, rest := rounds[0], rounds[1..];
    var after := Sweep(rows, r.now, limit, r.ask);
    SweepKeepsIdentity(rows, r.now, limit, r.ask);
    SweepClosesExactlyWhen(rows, i, r.now, limit, r.ask);
    if |Older(rows, i)| < limit {
      ClosedStaysClosed(after, rest, limit, i);
    } else {
      assert rest != [];
      ReachedExactlyWhen(rows, i, r.now, limit);
      QueueMoves(rows, i, r.now, limit, r.ask);
      StillReady(rows, rounds, limit, i);
      assert rounds[..|rounds| - 1][0] == r && rounds[..|rounds| - 1][1..] == rest[..|rest| - 1];
      ReadyRowIsClosed(after, rest, limit, i);
    }
  }

  lemma {:induction false} ClosedStaysClosed(rows: seq<Job>, rounds: seq<Round>, limit: nat, i: nat)
    requires i < |rows| && rows[i].status != Forwarding
    ensures Sweeps(rows, rounds, limit)[i] == rows[i]
    decreases |rounds|
  {
    hide Sweep;
    if rounds != [] {
      SweepKeepsIdentity(rows, rounds[0].now, limit, rounds[0].ask);
      ClosedStaysClosed(Sweep(rows, rounds[0].now, limit, rounds[0].ask), rounds[1..], limit, i);
    }
  }

  /** No sweep leaves more than `blocking` rows in the row's way as they are. */
  ghost predicate AtMostBlock(rows: seq<Job>, rounds: seq<Round>, i: nat, blocking: nat)
    requires i < |rows|
  {
    forall k :: 0 <= k < |rounds| ==> |Blocking(rows, i, rounds[k].now, rounds[k].ask)| <= blocking
  }

  lemma StillAtMostBlock(rows: seq<Job>, rounds: seq<Round>, limit: nat, i: nat, blocking: nat)
    requires i < |rows| && rounds != [] && AtMostBlock(rows, rounds, i, blocking)
    ensures AtMostBlock(Sweep(rows, rounds[0].now, limit, rounds[0].ask), rounds[1..], i, blocking)
  {
    hide Blocking, Sweep;
    var r, rest := rounds[0], rounds[1..];
    var after := Sweep(rows, r.now, limit, r.ask);
    forall k | 0 <= k < |rest|
      ensures |Blocking(after, i, rest[k].now, rest[k].ask)| <= blocking
    {
      assert rest[k] == rounds[k + 1];
      BlockingShrinks(rows, i, r, limit, rest[k]);
      Query.SmallerSet(Blocking(after, i, rest[k].now, rest[k].ask), Blocking(rows, i, rest[k].now, rest[k].ask));
    }
  }

  lemma OneRoundMore(n: nat, x: int)
    ensures (n + 1) * x == x + n * x
  {
  }

  lemma {:induction false} WorkedOffAtLeast(rows: seq<Job>, rounds: seq<Round>, limit: nat, i: nat, blocking: nat)
    requires i < |rows| && AtMostBlock(rows, rounds, i, blocking)
    ensures WorkedOff(rows, rounds, limit, i) >= |rounds| * (limit - blocking)
    decreases |rounds|
  {
    if rounds != [] {
      var r, rest := rounds[0], rounds[1..];
      assert |Blocking(rows, i, r.now, r.ask)| <= blocking;
      hide Blocking, Sweep, AtMostBlock;
      StillAtMostBlock(rows, rounds, limit, i, blocking);
      WorkedOffAtLeast(Sweep(rows, r.now, limit, r.ask), rest, limit, i, blocking);
      OneRoundMore(|rest|, limit - blocking);
    }
  }

  /** So a ready row with n older ones, of which no sweep leaves more than `blocking` as
      they are, is closed within k sweeps as soon as n < limit + (k - 1)(limit - blocking). */
  lemma ReadyRowIsClosedWithin(rows: seq<Job>, rounds: seq<Round>, limit: nat, i: nat, blocking: nat)
    requires InOrder(rows) && i < |rows| && rounds != [] && Later(rounds)
    requires IsStuck(rows[i], rounds[0].now) && Ready(rows, rounds, i) && AtMostBlock(rows, rounds, i, blocking)
    requires |Older(rows, i)| < limit + (|rounds| - 1) * (limit - blocking)
    ensures Sweeps(rows, rounds, limit)[i].status != Forwarding
  {
    hide Blocking, Closes, Older, Sweeps;
    WorkedOffAtLeast(rows, rounds[..|rounds| - 1], limit, i, blocking);
    ReadyRowIsClosed(rows, rounds, limit, i);
  }

  /** Where every older job is over too, a row whose job is over waits for ceil((n + 1) /
      limit) sweeps at most, behind n older ones. */
  lemma FinishedRowIsClosed(rows: seq<Job>, rounds: seq<Round>, limit: nat, i: nat)
    requires InOrder(rows) && i < |rows| && rounds != [] && Later(rounds) && IsStuck(rows[i], rounds[0].now)
    requires forall j, k :: 0 <= j <= i && rows[j].status == Forwarding && 0 <= k < |rounds| ==> IsOver(rows, j, rounds[k].ask)
    requires |Older(rows, i)| < |rounds| * limit
    ensures Sweeps(rows, rounds, limit)[i].status != Forwarding
  {
    forall k, j | 0 <= k < |rounds| && 0 <= j <= i && rows[j].status == Forwarding
      ensures Closes(rows, j, rounds[k].now, rounds[k].ask)
    {
      OverMeansClosed(rows, j, rounds[k].now, rounds[k].ask);
    }
    hide Closes, IsOver, Sweeps, Older;
    forall k | 0 <= k < |rounds|
      ensures |Blocking(rows, i, rounds[k].now, rounds[k].ask)| <= 0
    {
      assert Blocking(rows, i, rounds[k].now, rounds[k].ask) == {};
    }
    assert |rounds| * limit == limit + (|rounds| - 1) * limit;
    ReadyRowIsClosedWithin(rows, rounds, limit, i, 0);
  }

  lemma OverMeansClosed(rows: seq<Job>, i: nat, now: int, ask: Lookup)
    requires i < |rows| && IsOver(rows, i, ask)
    ensures Closes(rows, i, now, ask)
  {
  }

  /** But as many rows ahead of it as a sweep takes, none of which any sweep is told to
      close, keep it waiting for ever: every sweep takes them again. */
  lemma {:induction false} BlockedRowStarves(rows: seq<Job>, rounds: seq<Round>, limit: nat, i: nat, stay: set<nat>)
    requires InOrder(rows) && i < |rows| && rounds != [] && Later(rounds) && IsStuck(rows[i], rounds[0].now)
    requires |stay| >= limit && forall k :: 0 <= k < |rounds| ==> stay <= Blocking(rows, i, rounds[k].now, rounds[k].ask)
    ensures Sweeps(rows, rounds, limit)[i] == rows[i]
    decreases |rounds|
  {
    hide Closes, Candidates, Blocking, Sweep;
    var r, rest := rounds[0], rounds[1..];
    var after := Sweep(rows, r.now, limit, r.ask);
    SweepKeepsIdentity(rows, r.now, limit, r.ask);
    BlockingAreOlder(rows, i, r.now, r.ask);
    Query.SmallerSet(stay, Older(rows, i));
    SweepClosesExactlyWhen(rows, i, r.now, limit, r.ask);
    if rest != [] {
      forall k | 0 <= k < |rest|
        ensures stay <= Blocking(after, i, rest[k].now, rest[k].ask)
      {
        assert rest[k] == rounds[k + 1];
        BlockingStays(rows, i, r, limit, rest[k], stay);
      }
      BlockedRowStarves(after, rest, limit, i, stay);
    }
  }

  lemma BlockingAreOlder(rows: seq<Job>, i: nat, now: int, ask: Lookup)
    requires i < |rows|
    ensures Blocking(rows, i, now, ask) <= Older(rows, i)
  {
  }

  lemma BlockingStays(rows: seq<Job>, i: nat, round: Round, limit: nat, later: Round, stay: set<nat>)
    requires i < |rows|
    requires stay <= Blocking(rows, i, round.now, round.ask) && stay <= Blocking(rows, i, later.now, later.ask)
    ensures stay <= Blocking(Sweep(rows, round.now, limit, round.ask), i, later.now, later.ask)
  {
    hide Candidates, Closes, Sweep;
    var after := Sweep(rows, round.now, limit, round.ask);
    SweepKeepsIdentity(rows, round.now, limit, round.ask);
    forall j | j in stay
      ensures j in Blocking(after, i, later.now, later.ask)
    {
      assert j in Blocking(rows, i, round.now, round.ask) && j in Blocking(rows, i, later.now, later.ask);
      LeftAsItWas(rows, j, round.now, limit, round.ask);
      StillCloses(rows, after, j, later.now, later.ask);
    }
  }

  lemma LeftAsItWas(rows: seq<Job>, j: nat, now: int, limit: nat, ask: Lookup)
    requires j < |rows| && rows[j].status == Forwarding && !Closes(rows, j, now, ask)
    ensures Sweep(rows, now, limit, ask)[j] == rows[j]
  {
    SweptClosesExactlyWhen(rows, j, now, ask);
    hide Closes;
  }

  /** So, given enough sweeps that agree on which rows they leave as they are, whatever
      else cupsd answers them, a ready row is closed if and only if those are fewer than
      one sweep takes. */
  lemma ClosedExactlyWhenNotBlocked(rows: seq<Job>, rounds: seq<Round>, limit: nat, i: nat, stay: set<nat>)
    requires InOrder(rows) && i < |rows| && rounds != [] && Later(rounds)
    requires IsStuck(rows[i], rounds[0].now) && Ready(rows, rounds, i) && |Older(rows, i)| < |rounds|
    requires forall k :: 0 <= k < |rounds| ==> Blocking(rows, i, rounds[k].now, rounds[k].ask) == stay
    ensures Sweeps(rows, rounds, limit)[i].status != Forwarding <==> |stay| < limit
  {
    hide Closes, Older, Blocking;
    if |stay| < limit {
      AtLeastOnceEach(|rounds| - 1, limit - |stay|);
      ReadyRowIsClosedWithin(rows, rounds, limit, i, |stay|);
    } else {
      BlockedRowStarves(rows, rounds, limit, i, stay);
    }
  }

  lemma AtLeastOnceEach(n: nat, x: nat)
    requires x > 0
    ensures n <= n * x
  {
  }
}
