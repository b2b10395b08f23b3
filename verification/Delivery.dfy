/** apps/api/app/notifications/delivery.py: an outbox with capped attempts, stored
    backoff and bounded batches. Times are in seconds. */
module Delivery {
  import opened Prelude
  import Query

  const MAX_DELIVERY_ATTEMPTS := 8
  const BACKOFF_BASE_SECONDS := 60
  const BACKOFF_CAP_SECONDS := 60 * 60
  const BATCH_LIMIT := 20

  function Power2(n: nat): (p: nat)
    ensures p >= 1
  {
    if n == 0 then 1 else 2 * Power2(n - 1)
  }

  function BackoffDelay(attempts: int): int {
    Min(BACKOFF_BASE_SECONDS * Power2(if attempts - 1 > 0 then attempts - 1 else 0), BACKOFF_CAP_SECONDS)
  }

  /** The delay starts at a minute, doubles with each attempt until the cap of an hour,
      and never shrinks. */
  lemma BackoffDoublesToTheCap(attempts: int)
    ensures BackoffDelay(attempts) <= BackoffDelay(attempts + 1) <= BACKOFF_CAP_SECONDS
    ensures attempts <= 1 ==> BackoffDelay(attempts) == BACKOFF_BASE_SECONDS
    ensures 1 <= attempts <= 5 ==> BackoffDelay(attempts + 1) == 2 * BackoffDelay(attempts)
    ensures attempts >= 7 ==> BackoffDelay(attempts) == BACKOFF_CAP_SECONDS
  {
    assert Power2(1) == 2 && Power2(2) == 4 && Power2(3) == 8 && Power2(4) == 16 && Power2(5) == 32;
    if attempts >= 7 {
      PowerGrows(6, attempts - 1);
      assert Power2(6) == 64;
    }
  }

  lemma {:induction false} PowerGrows(a: nat, b: nat)
    requires a <= b
    ensures Power2(a) <= Power2(b)
  {
    if a < b {
      PowerGrows(a, b - 1);
    }
  }

  datatype Outcome = Accepted | Retryable | Permanent

  datatype Event = Event(createdAt: int, attempts: nat, next: Option<int>, delivered: Option<int>)

  predicate IsDue(e: Event, now: int) {
    e.delivered.None? && e.attempts < MAX_DELIVERY_ATTEMPTS && e.next.Some? && e.next.value <= now
  }

  function DueEvents(events: seq<Event>, now: int): set<nat> {
    set i: nat | i < |events| && IsDue(events[i], now)
  }

  function CreatedAt(events: seq<Event>): seq<int> {
    seq(|events|, i requires 0 <= i < |events| => events[i].createdAt)
  }

  function Batch(events: seq<Event>, now: int): (batch: seq<nat>)
    ensures forall k :: 0 <= k < |batch| ==> batch[k] < |events| && IsDue(events[batch[k]], now)
  {
    Query.TakeOldest(CreatedAt(events), DueEvents(events, now), BATCH_LIMIT)
  }

  predicate AllAccepted(outcomes: seq<Outcome>) {
    forall c :: 0 <= c < |outcomes| ==> outcomes[c] == Accepted
  }

  /** What one attempt makes of an event, given every channel's answer. */
  function Attempted(e: Event, outcomes: seq<Outcome>, now: int): Event {
    var tried := e.(attempts := e.attempts + 1);
    if AllAccepted(outcomes) then tried.(delivered := Some(now))
    else if Retryable !in outcomes then tried.(attempts := MAX_DELIVERY_ATTEMPTS, next := None)
    else tried.(next := Some(now + BackoffDelay(tried.attempts)))
  }

  /** The answer of each enabled channel for each event sent in a pass. */
  type Answers = (int, int) -> Outcome

  function OutcomesFor(channels: nat, answer: Answers, i: nat): seq<Outcome> {
    seq(channels, c => answer(i, c))
  }

  function PassOne(e: Event, i: nat, batch: seq<nat>, channels: nat, answer: Answers, now: int): Event {
    if i in batch then Attempted(e, OutcomesFor(channels, answer, i), now) else e
  }

  function Pass(events: seq<Event>, now: int, enabled: bool, channels: nat, answer: Answers): (after: seq<Event>)
    ensures |after| == |events|
  {
    if !enabled || channels == 0 then events
    else
      var batch := Batch(events, now);
      seq(|events|, i requires 0 <= i < |events| => PassOne(events[i], i, batch, channels, answer, now))
  }

  class Outbox {
    var events: seq<Event>

    constructor (events: seq<Event>)
      ensures this.events == events
    {
      this.events := events;
    }

    /** `deliver_pending` */
    method DeliverPending(now: int, enabled: bool, channels: nat, answer: Answers) returns (delivered: nat)
      modifies this
      ensures events == Pass(old(events), now, enabled, channels, answer)
      ensures delivered == |NewlyDelivered(old(events), events)|
    {
      ghost var before := events;
      delivered := 0;
      assert NewlyDelivered(before, before) == {};
      if !enabled || channels == 0 {
        return;
      }
      var due := Batch(events, now);
      Query.TakeOldestTakesTheOldest(CreatedAt(events), DueEvents(events, now), BATCH_LIMIT);
      for k := 0 to |due|
        invariant PassedSoFar(before, events, due[..k], channels, answer, now)
        invariant delivered == |NewlyDelivered(before, events)|
      {
        var i := due[k];
        assert i !in due[..k];
        ghost var previous := events;
        var event, arrived := Send(events[i], i, channels, answer, now);
        events := events[i := event];
        PassedOneMore(before, previous, events, due, k, channels, answer, now);
        NewlyDeliveredGrows(before, previous, events, i);
        if arrived {
          delivered := delivered + 1;
        }
      }
      assert due[..|due|] == due;
      assert events == Pass(before, now, enabled, channels, answer);
    }

    /** One event offered to every channel. */
    static method Send(e: Event, i: nat, channels: nat, answer: Answers, now: int) returns (event: Event, arrived: bool)
      requires IsDue(e, now) && channels > 0
      ensures event == Attempted(e, OutcomesFor(channels, answer, i), now)
      ensures arrived <==> event.delivered.Some?
    {
      event := e.(attempts := e.attempts + 1);
      var errors, retryable := false, false;
      for c := 0 to channels
        invariant errors <==> !AllAccepted(OutcomesFor(channels, answer, i)[..c])
        invariant retryable <==> Retryable in OutcomesFor(channels, answer, i)[..c]
      {
        assert OutcomesFor(channels, answer, i)[..c + 1] == OutcomesFor(channels, answer, i)[..c] + [answer(i, c)];
        OneAnswerMore(OutcomesFor(channels, answer, i)[..c], answer(i, c));
        match answer(i, c) {
          case Accepted =>
          case Retryable => errors, retryable := true, true;
          case Permanent => errors := true;
        }
      }
      assert OutcomesFor(channels, answer, i)[..channels] == OutcomesFor(channels, answer, i);
      if errors {
        if !retryable {
          event := event.(attempts := MAX_DELIVERY_ATTEMPTS, next := None);
        } else {
          event := event.(next := Some(now + BackoffDelay(event.attempts)));
        }
      } else {
        event := event.(delivered := Some(now));
      }
      arrived := !errors;
    }
  }

  lemma OneAnswerMore(outcomes: seq<Outcome>, last: Outcome)
    ensures AllAccepted(outcomes + [last]) <==> AllAccepted(outcomes) && last == Accepted
  {
    var more := outcomes + [last];
    assert more[|outcomes|] == last;
    assert forall c :: 0 <= c < |outcomes| ==> more[c] == outcomes[c];
  }

  ghost predicate PassedSoFar(before: seq<Event>, events: seq<Event>, done: seq<nat>, channels: nat, answer: Answers, now: int) {
    |events| == |before| && forall i :: 0 <= i < |events| ==> events[i] == PassOne(before[i], i, done, channels, answer, now)
  }

  ghost function NewlyDelivered(before: seq<Event>, after: seq<Event>): set<nat>
    requires |before| == |after|
  {
    set i: nat | i < |before| && before[i].delivered.None? && after[i].delivered.Some?
  }

  lemma PassedOneMore(before: seq<Event>, previous: seq<Event>, after: seq<Event>, due: seq<nat>, k: nat,
                      channels: nat, answer: Answers, now: int)
    requires k < |due| && due[k] < |before| && due[k] !in due[..k]
    requires PassedSoFar(before, previous, due[..k], channels, answer, now)
    requires after == previous[due[k] := Attempted(before[due[k]], OutcomesFor(channels, answer, due[k]), now)]
    ensures PassedSoFar(before, after, due[..k + 1], channels, answer, now)
  {
    assert due[..k + 1] == due[..k] + [due[k]];
  }

  lemma NewlyDeliveredGrows(before: seq<Event>, previous: seq<Event>, after: seq<Event>, i: nat)
    requires |before| == |previous| && i < |before| && previous[i] == before[i] && before[i].delivered.None?
    requires |after| == |previous| && after == previous[i := after[i]]
    ensures |NewlyDelivered(before, after)| == |NewlyDelivered(before, previous)| + (if after[i].delivered.Some? then 1 else 0)
  {
    if after[i].delivered.Some? {
      assert NewlyDelivered(before, after) == NewlyDelivered(before, previous) + {i};
    } else {
      assert NewlyDelivered(before, after) == NewlyDelivered(before, previous);
    }
  }

  // ---- Whole runs ----

  /** One attempt: when, and what each enabled channel answered. */
  datatype Try = Try(at: int, outcomes: seq<Outcome>)

  /** The outbox beside everything that was ever sent for each event. */
  datatype World = World(events: seq<Event>, tries: seq<seq<Try>>, clock: int)

  datatype Step =
    | Raise(now: int)
    | Deliver(now: int, enabled: bool, channels: nat, answer: Answers)

  predicate Enabled(w: World, s: Step) {
    w.clock <= s.now
  }

  function TriesAfter(w: World, s: Step, i: nat): seq<Try>
    requires s.Deliver? && i < |w.events| == |w.tries|
  {
    if s.enabled && s.channels > 0 && i in Batch(w.events, s.now)
    then w.tries[i] + [Try(s.now, OutcomesFor(s.channels, s.answer, i))]
    else w.tries[i]
  }

  function Apply(w: World, s: Step): World
    requires |w.events| == |w.tries|
  {
    match s
    case Raise(now) => World(w.events + [Event(now, 0, Some(now), None)], w.tries + [[]], now)
    case Deliver(now, enabled, channels, answer) =>
      World(Pass(w.events, now, enabled, channels, answer),
            seq(|w.tries|, i requires 0 <= i < |w.tries| => TriesAfter(w, s, i)), now)
  }

  ghost predicate Runs(w: World, steps: seq<Step>)
    requires |w.events| == |w.tries|
    decreases |steps|
  {
    steps == [] || (Enabled(w, steps[0]) && Runs(Apply(w, steps[0]), steps[1..]))
  }

  function After(w: World, steps: seq<Step>): (w': World)
    requires |w.events| == |w.tries|
    ensures |w'.events| == |w'.tries|
    decreases |steps|
  {
    if steps == [] then w else After(Apply(w, steps[0]), steps[1..])
  }

  /** Some channel refused it for good, and none may be asked again. */
  predicate GivenUp(outcomes: seq<Outcome>) {
    Permanent in outcomes && Retryable !in outcomes
  }

  /** Every enabled channel, and there was one, took the event at that moment. */
  predicate IsDelivery(t: Try, at: int) {
    t.outcomes != [] && Retryable !in t.outcomes && Permanent !in t.outcomes && t.at == at
  }

  /** How an event and its attempts stand to each other, whatever happened. */
  ghost predicate Consistent(e: Event, tries: seq<Try>) {
    && |tries| <= e.attempts <= MAX_DELIVERY_ATTEMPTS
    // Each attempt waited out the backoff of the one before it.
    && (forall k :: 0 < k < |tries| ==> tries[k].at >= tries[k - 1].at + BackoffDelay(k))
    // Only the last attempt can have been accepted everywhere, and then it is the delivery.
    && (forall k :: 0 <= k < |tries| - 1 ==> Retryable in tries[k].outcomes)
    && (e.delivered.Some? ==> tries != [] && IsDelivery(tries[|tries| - 1], e.delivered.value))
    && (e.delivered.None? ==>
         if tries == [] then e.attempts == 0 && e.next == Some(e.createdAt)
         else if GivenUp(tries[|tries| - 1].outcomes) then e.attempts == MAX_DELIVERY_ATTEMPTS && e.next == None
         else && Retryable in tries[|tries| - 1].outcomes && e.attempts == |tries|
              && e.next == Some(tries[|tries| - 1].at + BackoffDelay(|tries|)))
  }

  ghost predicate Inv(w: World) {
    |w.events| == |w.tries| && forall i :: 0 <= i < |w.events| ==> Consistent(w.events[i], w.tries[i])
  }

  lemma AttemptKeepsConsistent(e: Event, tries: seq<Try>, outcomes: seq<Outcome>, now: int)
    requires Consistent(e, tries) && IsDue(e, now) && outcomes != []
    ensures Consistent(Attempted(e, outcomes, now), tries + [Try(now, outcomes)])
  {
    hide BackoffDelay;
    var more := tries + [Try(now, outcomes)];
    assert forall k :: 0 <= k < |tries| ==> more[k] == tries[k];
    assert more[|more| - 1] == Try(now, outcomes);
  }

  lemma StepKeepsInv(w: World, s: Step)
    requires Inv(w) && Enabled(w, s)
    ensures Inv(Apply(w, s))
  {
    hide Consistent, Attempted, Batch, IsDue;
    var w' := Apply(w, s);
    match s {
      case Raise(now) =>
        assert Consistent(Event(now, 0, Some(now), None), []) by {
          NewEventIsConsistent(now);
        }
      case Deliver(now, enabled, channels, answer) =>
        forall i | 0 <= i < |w'.events|
          ensures Consistent(w'.events[i], w'.tries[i])
        {
          assert Consistent(w.events[i], w.tries[i]);
          if enabled && channels > 0 && i in Batch(w.events, now) {
            AttemptKeepsConsistent(w.events[i], w.tries[i], OutcomesFor(channels, answer, i), now);
          }
        }
    }
  }

  lemma NewEventIsConsistent(now: int)
    ensures Consistent(Event(now, 0, Some(now), None), [])
  {
  }

  lemma {:induction false} RunKeepsInv(w: World, steps: seq<Step>)
    requires Inv(w) && Runs(w, steps)
    ensures Inv(After(w, steps))
    decreases |steps|
  {
    hide Consistent, Apply;
    if steps != [] {
      StepKeepsInv(w, steps[0]);
      RunKeepsInv(Apply(w, steps[0]), steps[1..]);
    }
  }

  const EMPTY := World([], [], 0)

  // ---- Main results ----

  /** Over any passes and answers: at most eight attempts, each after the backoff of the
      last; an event counts as delivered when one attempt was accepted by every enabled
      channel, and that attempt was its last. */
  lemma EveryEventIsConsistent(steps: seq<Step>, i: nat)
    requires Runs(EMPTY, steps) && i < |After(EMPTY, steps).events|
    ensures var w := After(EMPTY, steps);
            Consistent(w.events[i], w.tries[i])
  {
    RunKeepsInv(EMPTY, steps);
  }

  /** Attempts never fall, and an event that was delivered or given up is left as it is. */
  lemma {:induction false} AttemptsOnlyGrow(w: World, steps: seq<Step>, i: nat)
    requires Inv(w) && Runs(w, steps) && i < |w.events|
    ensures var w' := After(w, steps);
            && i < |w'.events| && w.events[i].attempts <= w'.events[i].attempts
            && ((w.events[i].delivered.Some? || w.events[i].attempts == MAX_DELIVERY_ATTEMPTS) ==>
                 w'.events[i] == w.events[i] && w'.tries[i] == w.tries[i])
    decreases |steps|
  {
    if steps != [] {
      StepKeepsInv(w, steps[0]);
      var w1 := Apply(w, steps[0]);
      assert Consistent(w.events[i], w.tries[i]);
      AttemptsOnlyGrow(w1, steps[1..], i);
    }
  }

  /** `k` passes in a row with every channel up. */
  function Drained(events: seq<Event>, times: seq<int>, channels: nat): (after: seq<Event>)
    ensures |after| == |events|
  {
    if times == [] then events
    else Pass(Drained(events, times[..|times| - 1], channels), times[|times| - 1], true, channels, (i, c) => Accepted)
  }

  /** The events a pass can still hope to deliver. */
  function Waiting(events: seq<Event>): set<nat> {
    set i: nat | i < |events| && events[i].delivered.None? && events[i].attempts < MAX_DELIVERY_ATTEMPTS && events[i].next.Some?
  }

  lemma OnePassDelivers(events: seq<Event>, now: int, channels: nat)
    requires channels > 0 && DueEvents(events, now) == Waiting(events)
    ensures var after := Pass(events, now, true, channels, (i, c) => Accepted);
            var batch := Batch(events, now);
            && |Waiting(after)| == |Waiting(events)| - |batch|
            && |batch| == Min(BATCH_LIMIT, |Waiting(events)|)
            && Waiting(after) <= Waiting(events)
            && (forall i :: i in Waiting(after) ==> after[i] == events[i])
  {
    var batch := Batch(events, now);
    var taken := set k | 0 <= k < |batch| :: batch[k];
    Query.TakeOldestTakesTheOldest(CreatedAt(events), DueEvents(events, now), BATCH_LIMIT);
    Query.DistinctSize(batch);
    WaitingAfterPass(events, now, channels, taken);
    assert taken <= Waiting(events) by {
      assert taken <= DueEvents(events, now);
    }
    hide Waiting, Pass, DueEvents;
    assert |Waiting(events) - taken| == |Waiting(events)| - |taken|;
  }

  lemma WaitingAfterPass(events: seq<Event>, now: int, channels: nat, taken: set<nat>)
    requires channels > 0 && forall i :: i in taken <==> i in Batch(events, now)
    ensures var after := Pass(events, now, true, channels, (i, c) => Accepted);
            && Waiting(after) == Waiting(events) - taken
            && (forall i :: i in Waiting(after) ==> after[i] == events[i])
  {
    hide Attempted, Batch;
    var after := Pass(events, now, true, channels, (i, c) => Accepted);
    var batch := Batch(events, now);
    forall i: nat | i < |events|
      ensures i in taken ==> after[i].delivered.Some?
      ensures i !in taken ==> after[i] == events[i]
    {
      AcceptedIsDelivered(events[i], i, batch, channels, now);
    }
  }

  lemma AcceptedIsDelivered(e: Event, i: nat, batch: seq<nat>, channels: nat, now: int)
    ensures var after := PassOne(e, i, batch, channels, (i, c) => Accepted, now);
            if i in batch then after.delivered.Some? else after == e
  {
    assert AllAccepted(OutcomesFor(channels, (i, c) => Accepted, i));
  }

  lemma WaitingAreDue(events: seq<Event>, now: int)
    requires forall i :: i in Waiting(events) ==> events[i].next.value <= now
    ensures DueEvents(events, now) == Waiting(events)
  {
  }

  /** With every channel up, a backlog of n waiting events drains in ceil(n/20) passes
      and in no fewer. */
  lemma {:induction false} BacklogDrains(events: seq<Event>, times: seq<int>, channels: nat)
    requires channels > 0
    requires forall k, i :: 0 <= k < |times| && i in Waiting(events) ==> events[i].next.value <= times[k]
    ensures var after := Drained(events, times, channels);
            && |Waiting(after)| == (if |Waiting(events)| <= BATCH_LIMIT * |times| then 0 else |Waiting(events)| - BATCH_LIMIT * |times|)
            && Waiting(after) <= Waiting(events)
            && (forall i :: i in Waiting(after) ==> after[i] == events[i])
            && (Waiting(after) == {} <==> (|Waiting(events)| + BATCH_LIMIT - 1) / BATCH_LIMIT <= |times|)
  {
    if times != [] {
      var n := |times| - 1;
      BacklogDrains(events, times[..n], channels);
      var middle := Drained(events, times[..n], channels);
      hide Pass, Batch, DueEvents;
      WaitingAreDue(middle, times[n]);
      hide Waiting;
      OnePassDelivers(middle, times[n], channels);
    }
  }

  /** What a pass leaves for later is no older than what it takes. */
  lemma OldestFirst(events: seq<Event>, now: int)
    ensures Query.IsOldestBatch(CreatedAt(events), DueEvents(events, now), BATCH_LIMIT, Batch(events, now))
  {
    Query.TakeOldestTakesTheOldest(CreatedAt(events), DueEvents(events, now), BATCH_LIMIT);
  }
}
