/** apps/api/app/core/rate_limit.py: a pruned table of failures that must answer
    as if it had never forgotten one. Time is a real number that never goes back
    (`time.monotonic`); the rounding of floating point is not modelled. */
module RateLimit {
  import Query

  const SWEEP_INTERVAL_SECONDS := 60.0

  /** The failures that are still evidence at time `now`. */
  function Recent(ats: seq<real>, now: real, window: real): seq<real> {
    if ats == [] then []
    else if now - ats[0] < window then [ats[0]] + Recent(ats[1..], now, window)
    else Recent(ats[1..], now, window)
  }

  function Get(table: map<string, seq<real>>, key: string): seq<real> {
    if key in table then table[key] else []
  }

  lemma {:induction false} RecentOfAppend(a: seq<real>, b: seq<real>, now: real, window: real)
    ensures Recent(a + b, now, window) == Recent(a, now, window) + Recent(b, now, window)
  {
    if a == [] {
      assert a + b == b;
    } else {
      assert (a + b)[1..] == a[1..] + b;
      RecentOfAppend(a[1..], b, now, window);
    }
  }

  /** Forgetting what is stale now loses nothing that could matter later. */
  lemma {:induction false} RecentOfRecent(ats: seq<real>, earlier: real, now: real, window: real)
    requires earlier <= now
    ensures Recent(Recent(ats, earlier, window), now, window) == Recent(ats, now, window)
  {
    if ats != [] {
      RecentOfRecent(ats[1..], earlier, now, window);
      var rest := Recent(ats[1..], earlier, window);
      if now - ats[0] < window || earlier - ats[0] < window {
        assert ([ats[0]] + rest)[1..] == rest;
      }
    }
  }

  lemma {:induction false} RecentMembers(ats: seq<real>, now: real, window: real)
    ensures forall at :: at in Recent(ats, now, window) <==> at in ats && now - at < window
  {
    if ats != [] {
      RecentMembers(ats[1..], now, window);
      assert ats == [ats[0]] + ats[1..];
    }
  }

  /** How many failures are still evidence: those younger than the window, each counted. */
  lemma {:induction false} RecentAreTheYoung(ats: seq<real>, now: real, window: real)
    ensures |Recent(ats, now, window)| == |Query.Those(|ats|, (i: nat) => i < |ats| && now - ats[i] < window)|
  {
    if ats != [] {
      var n := |ats| - 1;
      RecentAreTheYoung(ats[..n], now, window);
      assert ats == ats[..n] + [ats[n]];
      RecentOfAppend(ats[..n], [ats[n]], now, window);
      assert [ats[n]][1..] == [];
      Query.OneMoreOfThose(n, (i: nat) => i < |ats| && now - ats[i] < window);
      assert Query.Those(n, (i: nat) => i < |ats| && now - ats[i] < window)
             == Query.Those(n, (i: nat) => i < |ats[..n]| && now - ats[..n][i] < window);
    }
  }

  lemma RecentAgreesLater(a: seq<real>, b: seq<real>, earlier: real, now: real, window: real)
    requires earlier <= now && Recent(a, earlier, window) == Recent(b, earlier, window)
    ensures Recent(a, now, window) == Recent(b, now, window)
  {
    RecentOfRecent(a, earlier, now, window);
    RecentOfRecent(b, earlier, now, window);
  }

  class RateLimiter {
    const maxFailures: int
    const windowSeconds: real
    var failures: map<string, seq<real>>
    var lastSweep: real

    /** Every failure of a key since its last success, never pruned. */
    ghost var log: map<string, seq<real>>
    /** The last reading of the clock. */
    ghost var clock: real

    ghost predicate Valid()
      reads this
    {
      && lastSweep <= clock
      && (forall key, i :: key in log && 0 <= i < |log[key]| ==> log[key][i] <= clock)
      && forall key :: Recent(Get(failures, key), clock, windowSeconds)
                    == Recent(Get(log, key), clock, windowSeconds)
    }

    constructor (maxFailures: int, windowSeconds: real, now: real)
      ensures Valid() && log == map[] && clock == now
      ensures this.maxFailures == maxFailures && this.windowSeconds == windowSeconds
    {
      this.maxFailures := maxFailures;
      this.windowSeconds := windowSeconds;
      failures, lastSweep, log, clock := map[], now, map[], now;
    }

    /** Whether the unpruned log holds enough recent failures to refuse. */
    ghost predicate MustRefuse(key: string, now: real)
      reads this
    {
      |Recent(Get(log, key), now, windowSeconds)| >= maxFailures
    }

    method Check(key: string, now: real) returns (raised: bool)
      requires Valid() && clock <= now
      modifies this
      ensures Valid() && clock == now && log == old(log)
      ensures raised <==> MustRefuse(key, now)
      // The key is remembered exactly while it is evidence of something.
      ensures key in failures <==> Recent(Get(log, key), now, windowSeconds) != []
      // What is still remembered is never more than was logged or remembered before.
      ensures failures.Keys <= old(failures).Keys + {key}
      // When the sweep was due, nobody stale is left in the table.
      ensures now - old(lastSweep) >= SWEEP_INTERVAL_SECONDS ==>
                forall k :: k in failures ==> Recent(Get(log, k), now, windowSeconds) != []
    {
      Sweep(now);
      var recent := RecentOf(Get(failures, key), now);
      ghost var before := Get(failures, key);
      RecentOfRecent(before, now, now, windowSeconds);
      if recent != [] {
        failures := failures[key := recent];
      } else {
        failures := failures - {key};
      }
      raised := |recent| >= maxFailures;
    }

    /** The comprehension of `check`. */
    method RecentOf(ats: seq<real>, now: real) returns (recent: seq<real>)
      ensures recent == Recent(ats, now, windowSeconds)
    {
      recent := [];
      for i := 0 to |ats|
        invariant recent == Recent(ats[..i], now, windowSeconds)
      {
        assert ats[..i + 1] == ats[..i] + [ats[i]];
        RecentOfAppend(ats[..i], [ats[i]], now, windowSeconds);
        if now - ats[i] < windowSeconds {
          recent := recent + [ats[i]];
        }
      }
      assert ats[..|ats|] == ats;
    }

    /** Drops the keys whose failures have all aged out; does nothing until a
        minute has passed since the last time it did. */
    method Sweep(now: real)
      requires Valid() && clock <= now
      modifies this
      ensures Valid() && clock == now && log == old(log)
      ensures forall k :: k in failures ==> k in old(failures) && failures[k] == old(failures)[k]
      ensures forall k :: k in old(failures) && k !in failures ==> Recent(old(failures)[k], now, windowSeconds) == []
      ensures now - old(lastSweep) >= SWEEP_INTERVAL_SECONDS ==>
                forall k :: k in failures ==> Recent(failures[k], now, windowSeconds) != []
      ensures lastSweep == if now - old(lastSweep) < SWEEP_INTERVAL_SECONDS then old(lastSweep) else now
    {
      forall k {
        RecentAgreesLater(Get(failures, k), Get(log, k), clock, now, windowSeconds);
      }
      clock := now;
      if now - lastSweep < SWEEP_INTERVAL_SECONDS {
        return;
      }
      lastSweep := now;
      var cutoff := now - windowSeconds;
      forall k | k in failures {
        RecentMembers(failures[k], now, windowSeconds);
      }
      var kept := map k | k in failures && exists at :: at in failures[k] && at > cutoff :: failures[k];
      forall k | k in failures
        ensures k in kept <==> Recent(failures[k], now, windowSeconds) != []
      {
        var recent := Recent(failures[k], now, windowSeconds);
        if k in kept {
          var at :| at in failures[k] && at > cutoff;
          assert at in recent;
        }
        if recent != [] {
          assert recent[0] in recent;
        }
      }
      failures := kept;
    }

    method RecordFailure(key: string, now: real)
      requires Valid() && clock <= now
      modifies this
      ensures Valid() && clock == now
      ensures log == old(log)[key := Get(old(log), key) + [now]]
      ensures failures == old(failures)[key := Get(old(failures), key) + [now]]
      ensures lastSweep == old(lastSweep)
    {
      forall k {
        RecentAgreesLater(Get(failures, k), Get(log, k), clock, now, windowSeconds);
      }
      RecentOfAppend(Get(failures, key), [now], now, windowSeconds);
      RecentOfAppend(Get(log, key), [now], now, windowSeconds);
      log := log[key := Get(log, key) + [now]];
      failures := failures[key := Get(failures, key) + [now]];
      clock := now;
      assert forall k :: k != key ==> Get(failures, k) == Get(old(failures), k) && Get(log, k) == Get(old(log), k);
    }

    method RecordSuccess(key: string)
      requires Valid()
      modifies this
      ensures Valid() && clock == old(clock)
      ensures Get(log, key) == [] && log == old(log) - {key}
      ensures failures == old(failures) - {key} && lastSweep == old(lastSweep)
    {
      failures := failures - {key};
      log := log - {key};
      assert forall k :: k != key ==> Get(failures, k) == Get(old(failures), k) && Get(log, k) == Get(old(log), k);
    }
  }

  // ---- What the check buys ----

  /** How many failures fall in the half-open stretch [from, from + window). */
  function Within(log: seq<real>, from: real, window: real): nat {
    if log == [] then 0
    else (if from <= log[|log| - 1] < from + window then 1 else 0) + Within(log[..|log| - 1], from, window)
  }

  lemma {:induction false} WithinIsRecent(log: seq<real>, from: real, now: real, window: real)
    requires now < from + window
    ensures Within(log, from, window) <= |Recent(log, now, window)|
  {
    if log != [] {
      var n := |log| - 1;
      assert log == log[..n] + [log[n]];
      RecentOfAppend(log[..n], [log[n]], now, window);
      WithinIsRecent(log[..n], from, now, window);
    }
  }

  /** The guesses at one key. A caller checks first and looks the answer up, and only
      then records how it went: `inFlight` guesses have passed their check and have not
      come back. `log` is what the limiter holds against the key, unpruned. */
  datatype Guessing = Guessing(log: seq<real>, inFlight: nat, clock: real)

  datatype Step =
    | Try(now: real)      // a check, which passes or is refused
    | Fail(now: real)     // a guess in flight was wrong
    | Succeed(now: real)  // a guess in flight was right
    | Abandon(now: real)  // a guess in flight never came back

  const NO_GUESSES := Guessing([], 0, 0.0)

  predicate Enabled(g: Guessing, s: Step) {
    g.clock <= s.now && (s.Try? || g.inFlight > 0)
  }

  predicate Passes(g: Guessing, now: real, max: int, window: real) {
    |Recent(g.log, now, window)| < max
  }

  /** A try passes if and only if fewer than `max` failures since the last success are
      younger than the window. So one who waits a window out always passes. */
  lemma PassesExactlyWhen(g: Guessing, now: real, max: int, window: real)
    ensures Passes(g, now, max, window) <==> |set i: nat | i < |g.log| && now - g.log[i] < window| < max
    ensures max > 0 && (forall i :: 0 <= i < |g.log| ==> now - g.log[i] >= window) ==> Passes(g, now, max, window)
  {
    RecentAreTheYoung(g.log, now, window);
    var young := set i: nat | i < |g.log| && now - g.log[i] < window;
    assert young == Query.Those(|g.log|, (i: nat) => i < |g.log| && now - g.log[i] < window);
    if forall i :: 0 <= i < |g.log| ==> now - g.log[i] >= window {
      assert young == {};
    }
  }

  function Apply(g: Guessing, s: Step, max: int, window: real): Guessing
    requires Enabled(g, s)
  {
    match s
    case Try(now) => Guessing(g.log, g.inFlight + (if Passes(g, now, max, window) then 1 else 0), now)
    case Fail(now) => Guessing(g.log + [now], g.inFlight - 1, now)
    case Succeed(now) => Guessing([], g.inFlight - 1, now)
    case Abandon(now) => Guessing(g.log, g.inFlight - 1, now)
  }

  predicate Runs(g: Guessing, steps: seq<Step>, max: int, window: real)
    decreases |steps|
  {
    steps == [] || (Enabled(g, steps[0]) && Runs(Apply(g, steps[0], max, window), steps[1..], max, window))
  }

  function After(g: Guessing, steps: seq<Step>, max: int, window: real): Guessing
    requires Runs(g, steps, max, window)
    decreases |steps|
  {
    if steps == [] then g else After(Apply(g, steps[0], max, window), steps[1..], max, window)
  }

  /** The most guesses that were ever in flight together. */
  function Peak(g: Guessing, steps: seq<Step>, max: int, window: real): nat
    requires Runs(g, steps, max, window)
    decreases |steps|
  {
    if steps == [] then g.inFlight
    else
      var rest := Peak(Apply(g, steps[0], max, window), steps[1..], max, window);
      if rest > g.inFlight then rest else g.inFlight
  }

  /** No stretch holds more than the bound, and one that is still open leaves room for
      the guesses in flight. */
  ghost predicate Bounded(g: Guessing, bound: int, window: real) {
    forall from :: Within(g.log, from, window) + (if g.clock < from + window then g.inFlight else 0) <= bound
  }

  lemma TryStaysBounded(g: Guessing, now: real, max: int, window: real, k: nat)
    requires Bounded(g, max - 1 + k, window) && g.clock <= now
    requires Apply(g, Try(now), max, window).inFlight <= k
    ensures Bounded(Apply(g, Try(now), max, window), max - 1 + k, window)
  {
    var g' := Apply(g, Try(now), max, window);
    forall from
      ensures Within(g'.log, from, window) + (if g'.clock < from + window then g'.inFlight else 0) <= max - 1 + k
    {
      assert Within(g.log, from, window) + (if g.clock < from + window then g.inFlight else 0) <= max - 1 + k;
      if now < from + window {
        WithinIsRecent(g.log, from, now, window);
      }
    }
  }

  lemma StepStaysBounded(g: Guessing, s: Step, max: int, window: real, k: nat)
    requires Enabled(g, s) && Bounded(g, max - 1 + k, window)
    requires Apply(g, s, max, window).inFlight <= k
    ensures Bounded(Apply(g, s, max, window), max - 1 + k, window)
  {
    var g' := Apply(g, s, max, window);
    if s.Try? {
      TryStaysBounded(g, s.now, max, window, k);
    } else {
      forall from
        ensures Within(g'.log, from, window) + (if g'.clock < from + window then g'.inFlight else 0) <= max - 1 + k
      {
        assert Within(g.log, from, window) + (if g.clock < from + window then g.inFlight else 0) <= max - 1 + k;
        assert s.Fail? ==> g'.log[..|g'.log| - 1] == g.log;
      }
    }
  }

  lemma {:induction false} RunStaysBounded(g: Guessing, steps: seq<Step>, max: int, window: real, k: nat)
    requires Runs(g, steps, max, window) && Peak(g, steps, max, window) <= k && Bounded(g, max - 1 + k, window)
    ensures Bounded(After(g, steps, max, window), max - 1 + k, window)
    decreases |steps|
  {
    if steps != [] {
      var g' := Apply(g, steps[0], max, window);
      assert g'.inFlight <= Peak(g', steps[1..], max, window);
      StepStaysBounded(g, steps[0], max, window, k);
      RunStaysBounded(g', steps[1..], max, window, k);
    }
  }

  /** Checked guessing is slow guessing. With never more than `k` guesses in flight, no
      stretch of the window's length, wherever it starts, holds more than max - 1 + k
      failures without a success between them: one guess at a time never exceeds `max`. */
  lemma NoWindowHoldsMore(steps: seq<Step>, max: nat, window: real, k: nat, from: real)
    requires Runs(NO_GUESSES, steps, max, window) && Peak(NO_GUESSES, steps, max, window) <= k && max + k > 0
    ensures Within(After(NO_GUESSES, steps, max, window).log, from, window) <= max - 1 + k
  {
    RunStaysBounded(NO_GUESSES, steps, max, window, k);
    assert Bounded(After(NO_GUESSES, steps, max, window), max - 1 + k, window);
  }

  // ---- The bound is reached ----

  lemma {:induction false} RunsInTwo(g: Guessing, a: seq<Step>, b: seq<Step>, max: int, window: real)
    requires Runs(g, a, max, window) && Runs(After(g, a, max, window), b, max, window)
    ensures Runs(g, a + b, max, window)
    ensures After(g, a + b, max, window) == After(After(g, a, max, window), b, max, window)
    ensures Peak(g, a + b, max, window) == (var p, q := Peak(g, a, max, window), Peak(After(g, a, max, window), b, max, window);
                                            if p > q then p else q)
    decreases |a|
  {
    if a == [] {
      assert a + b == b;
      FlightIsInThePeak(g, b, max, window);
    } else {
      assert (a + b)[0] == a[0] && (a + b)[1..] == a[1..] + b;
      RunsInTwo(Apply(g, a[0], max, window), a[1..], b, max, window);
    }
  }

  lemma FlightIsInThePeak(g: Guessing, steps: seq<Step>, max: int, window: real)
    requires Runs(g, steps, max, window)
    ensures g.inFlight <= Peak(g, steps, max, window)
  {
  }

  /** The same step over and over. */
  function Repeated(s: Step, n: nat): seq<Step> {
    if n == 0 then [] else [s] + Repeated(s, n - 1)
  }

  /** `n` failures on record, all at time zero. */
  function Zeros(n: nat): seq<real> {
    seq(n, _ => 0.0)
  }

  lemma {:induction false} ZerosCount(n: nat, window: real)
    requires window > 0.0
    ensures |Recent(Zeros(n), 0.0, window)| == n && Within(Zeros(n), 0.0, window) == n
  {
    if n > 0 {
      assert Zeros(n)[1..] == Zeros(n - 1) && Zeros(n)[..n - 1] == Zeros(n - 1);
      ZerosCount(n - 1, window);
    }
  }

  lemma {:induction false} TriesPass(failed: nat, inFlight: nat, n: nat, max: int, window: real)
    requires window > 0.0 && failed < max
    ensures var g, steps := Guessing(Zeros(failed), inFlight, 0.0), Repeated(Try(0.0), n);
            && Runs(g, steps, max, window) && After(g, steps, max, window) == g.(inFlight := inFlight + n)
            && Peak(g, steps, max, window) == inFlight + n
    decreases n
  {
    if n > 0 {
      ZerosCount(failed, window);
      TriesPass(failed, inFlight + 1, n - 1, max, window);
      assert Repeated(Try(0.0), n)[1..] == Repeated(Try(0.0), n - 1);
    }
  }

  lemma {:induction false} FailuresLand(failed: nat, n: nat, max: int, window: real)
    ensures var g, steps := Guessing(Zeros(failed), n, 0.0), Repeated(Fail(0.0), n);
            && Runs(g, steps, max, window) && After(g, steps, max, window) == Guessing(Zeros(failed + n), 0, 0.0)
            && Peak(g, steps, max, window) == n
    decreases n
  {
    if n > 0 {
      assert Zeros(failed) + [0.0] == Zeros(failed + 1);
      FailuresLand(failed + 1, n - 1, max, window);
      assert Repeated(Fail(0.0), n)[1..] == Repeated(Fail(0.0), n - 1);
    }
  }

  /** `n` guesses one at a time, each failing before the next is tried. */
  lemma {:induction false} OneAtATime(n: nat, max: int, window: real) returns (steps: seq<Step>)
    requires window > 0.0 && n < max
    ensures Runs(NO_GUESSES, steps, max, window) && After(NO_GUESSES, steps, max, window) == Guessing(Zeros(n), 0, 0.0)
    ensures Peak(NO_GUESSES, steps, max, window) <= 1
  {
    if n == 0 {
      steps := [];
    } else {
      steps := OneAtATime(n - 1, max, window);
      steps := Together(steps, n - 1, 1, max, window);
    }
  }

  /** `k` guesses that are all tried before any of them fails. */
  lemma Together(before: seq<Step>, failed: nat, k: nat, max: int, window: real) returns (steps: seq<Step>)
    requires window > 0.0 && failed < max && Runs(NO_GUESSES, before, max, window)
    requires After(NO_GUESSES, before, max, window) == Guessing(Zeros(failed), 0, 0.0)
    ensures Runs(NO_GUESSES, steps, max, window) && After(NO_GUESSES, steps, max, window) == Guessing(Zeros(failed + k), 0, 0.0)
    ensures Peak(NO_GUESSES, steps, max, window) == (var p := Peak(NO_GUESSES, before, max, window); if p > k then p else k)
  {
    hide Runs, After, Peak, Repeated, Zeros;
    TriesPass(failed, 0, k, max, window);
    FailuresLand(failed, k, max, window);
    RunsInTwo(NO_GUESSES, before, Repeated(Try(0.0), k), max, window);
    RunsInTwo(NO_GUESSES, before + Repeated(Try(0.0), k), Repeated(Fail(0.0), k), max, window);
    steps := before + Repeated(Try(0.0), k) + Repeated(Fail(0.0), k);
  }

  /** The bound is exact: whatever the limits, `k` guesses in flight together can put
      max - 1 + k failures into one window. */
  lemma OverlappingGuessesReachTheBound(max: nat, window: real, k: nat) returns (steps: seq<Step>)
    requires max > 0 && window > 0.0 && k > 0
    ensures Runs(NO_GUESSES, steps, max, window) && Peak(NO_GUESSES, steps, max, window) == k
    ensures Within(After(NO_GUESSES, steps, max, window).log, 0.0, window) == max - 1 + k
  {
    steps := OneAtATime(max - 1, max, window);
    steps := Together(steps, max - 1, k, max, window);
    ZerosCount(max - 1 + k, window);
  }

  /** No run with at most `k` guesses in flight puts more than `max` failures in a window. */
  ghost predicate KeepsToTheLimit(max: nat, window: real, k: nat) {
    forall steps, from :: Runs(NO_GUESSES, steps, max, window) && Peak(NO_GUESSES, steps, max, window) <= k ==>
      Within(After(NO_GUESSES, steps, max, window).log, from, window) <= max
  }

  /** The limit on failures is kept by every run if and only if guesses never overlap. */
  lemma LimitKeptExactlyWithoutOverlap(max: nat, window: real, k: nat)
    requires max > 0 && window > 0.0
    ensures KeepsToTheLimit(max, window, k) <==> k <= 1
  {
    if k <= 1 {
      forall steps, from | Runs(NO_GUESSES, steps, max, window) && Peak(NO_GUESSES, steps, max, window) <= k
        ensures Within(After(NO_GUESSES, steps, max, window).log, from, window) <= max
      {
        NoWindowHoldsMore(steps, max, window, k, from);
      }
    } else {
      var steps := OverlappingGuessesReachTheBound(max, window, k);
      assert Within(After(NO_GUESSES, steps, max, window).log, 0.0, window) > max;
    }
  }

  /** The limiter takes the steps of the model: its unpruned log is the model's, and a
      try is refused exactly when the model says so. */
  method Perform(limiter: RateLimiter, key: string, s: Step, ghost g: Guessing) returns (refused: bool)
    requires limiter.Valid() && Get(limiter.log, key) == g.log && limiter.clock <= s.now && Enabled(g, s)
    modifies limiter
    ensures limiter.Valid()
    ensures Get(limiter.log, key) == Apply(g, s, limiter.maxFailures, limiter.windowSeconds).log
    ensures refused <==> s.Try? && !Passes(g, s.now, limiter.maxFailures, limiter.windowSeconds)
    ensures forall k :: k != key ==> Get(limiter.log, k) == Get(old(limiter.log), k)
  {
    refused := false;
    match s {
      case Try(now) => refused := limiter.Check(key, now);
      case Fail(now) => limiter.RecordFailure(key, now);
      case Succeed(now) => limiter.RecordSuccess(key);
      case Abandon(now) =>
    }
  }
}
