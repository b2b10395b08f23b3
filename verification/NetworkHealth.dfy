/** apps/api/app/printers/network_health.py: a probe log that forgets all but the last
    hour, and a verdict read off what is left. Times are in seconds. */
module NetworkHealth {
  import opened Prelude

  const WINDOW := 3600
  const MISS_THRESHOLD := 3
  const MIN_SUCCESSES := 1
  const SLOW_PROBE_SECONDS := 2.0
  const FAST_PROBE_SECONDS := 1.0

  /** A stored entry; one that cannot be read back counts for nothing. */
  datatype Entry = Probe(at: int, answered: bool, seconds: Option<real>) | Malformed

  predicate Since(e: Entry, cutoff: int) {
    e.Probe? && e.at >= cutoff
  }

  function Pruned(log: seq<Entry>, cutoff: int): seq<Entry> {
    if log == [] then []
    else if Since(log[0], cutoff) then [log[0]] + Pruned(log[1..], cutoff)
    else Pruned(log[1..], cutoff)
  }

  lemma {:induction false} PrunedOfConcat(a: seq<Entry>, b: seq<Entry>, cutoff: int)
    ensures Pruned(a + b, cutoff) == Pruned(a, cutoff) + Pruned(b, cutoff)
  {
    if a == [] {
      assert a + b == b;
    } else {
      assert (a + b)[1..] == a[1..] + b;
      PrunedOfConcat(a[1..], b, cutoff);
    }
  }

  lemma {:induction false} PrunedTwice(log: seq<Entry>, earlier: int, later: int)
    requires earlier <= later
    ensures Pruned(Pruned(log, earlier), later) == Pruned(log, later)
  {
    if log != [] {
      PrunedTwice(log[1..], earlier, later);
      var rest := Pruned(log[1..], earlier);
      assert ([log[0]] + rest)[1..] == rest;
    }
  }

  // ---- Entries as they are stored ----

  datatype Json = Null | Bool(b: bool) | Number(r: real) | Text(s: string)

  /** A stored entry: its time, None when there is none that can be parsed; whether it was
      answered; and how long it took, null in entries written before that was kept. An
      entry too short to have the first two is None. */
  datatype Stored = Stored(at: Option<int>, answered: Json, seconds: Json)

  type Log = seq<Option<Stored>>

  predicate Truthy(j: Json) {
    match j
    case Null => false
    case Bool(b) => b
    case Number(r) => r != 0.0
    case Text(t) => t != ""
  }

  /** `_as_seconds`: `parse` reads a number from a text, or fails. */
  function AsSeconds(j: Json, parse: string -> Option<real>): Option<real> {
    match j
    case Null => None
    case Bool(b) => Some(if b then 1.0 else 0.0)
    case Number(r) => Some(r)
    case Text(t) => parse(t)
  }

  function Read(e: Option<Stored>, parse: string -> Option<real>): Entry {
    if e.None? || e.value.at.None? then Malformed
    else Probe(e.value.at.value, Truthy(e.value.answered), AsSeconds(e.value.seconds, parse))
  }

  function ReadAll(log: Log, parse: string -> Option<real>): seq<Entry> {
    seq(|log|, i requires 0 <= i < |log| => Read(log[i], parse))
  }

  /** What is written back for an entry that was kept. */
  function Write(e: Entry): Option<Stored> {
    match e
    case Malformed => None
    case Probe(at, answered, seconds) =>
      Some(Stored(Some(at), Bool(answered), if seconds.Some? then Number(seconds.value) else Null))
  }

  function WriteAll(entries: seq<Entry>): Log {
    seq(|entries|, i requires 0 <= i < |entries| => Write(entries[i]))
  }

  /** A log that was written reads back as it was, so nothing is coerced twice. */
  lemma WrittenReadsBack(entries: seq<Entry>, parse: string -> Option<real>)
    ensures ReadAll(WriteAll(entries), parse) == entries
  {
    forall i | 0 <= i < |entries|
      ensures Read(Write(entries[i]), parse) == entries[i]
    {
    }
  }

  method Prune(stored: Log, cutoff: int, parse: string -> Option<real>) returns (kept: seq<Entry>)
    ensures kept == Pruned(ReadAll(stored, parse), cutoff)
  {
    kept := [];
    ghost var log := ReadAll(stored, parse);
    for i := 0 to |stored|
      invariant kept == Pruned(log[..i], cutoff)
    {
      assert log[..i + 1] == log[..i] + [log[i]];
      PrunedOfConcat(log[..i], [log[i]], cutoff);
      assert [log[i]][1..] == [];
      if stored[i].None? || stored[i].value.at.None? {
        continue;
      }
      var at := stored[i].value.at.value;
      if at >= cutoff {
        kept := kept + [Probe(at, Truthy(stored[i].value.answered), AsSeconds(stored[i].value.seconds, parse))];
      }
    }
    assert log[..|log|] == log;
  }

  datatype NetworkFlap = NetworkFlap(misses: nat, slow: nat, probes: nat) {
    function Affected(): nat {
      misses + slow
    }

    function LossPercent(): nat {
      if probes == 0 then 0 else RoundedQuotient(100 * Affected(), probes)
    }
  }

  /** Python's `round` of a quotient: to the nearest integer, a half to the even one. */
  function RoundedQuotient(n: nat, d: nat): nat
    requires d > 0
  {
    var q, r := n / d, n % d;
    if 2 * r < d || (2 * r == d && q % 2 == 0) then q else q + 1
  }

  predicate Missed(e: Entry) {
    e.Probe? && !e.answered
  }

  predicate Quick(e: Entry) {
    e.Probe? && e.answered && e.seconds.Some? && e.seconds.value < FAST_PROBE_SECONDS
  }

  predicate Slow(e: Entry) {
    e.Probe? && e.answered && e.seconds.Some? && e.seconds.value >= SLOW_PROBE_SECONDS
  }

  function Count(history: seq<Entry>, p: Entry -> bool): nat {
    if history == [] then 0 else (if p(history[0]) then 1 else 0) + Count(history[1..], p)
  }

  function Verdict(history: seq<Entry>): Option<NetworkFlap> {
    var misses := Count(history, Missed);
    var successes := |history| - misses;
    var normallyQuick := exists i :: 0 <= i < |history| && Quick(history[i]);
    var slow := if normallyQuick then Count(history, Slow) else 0;
    if misses + slow < MISS_THRESHOLD || successes < MIN_SUCCESSES then None
    else Some(NetworkFlap(misses, slow, |history|))
  }

  /** `observe` */
  method Observe(stored: Log, answered: bool, seconds: Option<real>, now: int, parse: string -> Option<real>)
    returns (log: Log, flap: Option<NetworkFlap>)
    ensures var history := Observed(ReadAll(stored, parse), Probe(now, answered, seconds));
            log == WriteAll(history) && flap == Verdict(history)
  {
    var history := Prune(stored, now - WINDOW, parse);
    history := history + [Probe(now, answered, seconds)];
    log := WriteAll(history);
    flap := Verdict(history);
  }

  function Observed(log: seq<Entry>, probe: Entry): seq<Entry>
    requires probe.Probe?
  {
    Pruned(log, probe.at - WINDOW) + [probe]
  }

  // ---- Runs of probes ----

  /** The log after each probe in turn was observed. */
  function Kept(log: seq<Entry>, probes: seq<Entry>): seq<Entry>
    requires forall i :: 0 <= i < |probes| ==> probes[i].Probe?
  {
    if probes == [] then log
    else
      var last := probes[|probes| - 1];
      Observed(Kept(log, probes[..|probes| - 1]), last)
  }

  lemma {:induction false} PrunedMembers(log: seq<Entry>, cutoff: int)
    ensures forall e :: e in Pruned(log, cutoff) <==> e in log && e.Probe? && e.at >= cutoff
  {
    if log != [] {
      PrunedMembers(log[1..], cutoff);
      assert log == [log[0]] + log[1..];
    }
  }

  /** Whatever the log held at first, after any run of probes it is the whole history,
      never forgotten, restricted to the last hour; so is the verdict. */
  lemma {:induction false} StoredLogIsTheLastHour(log: seq<Entry>, probes: seq<Entry>)
    requires probes != [] && forall i :: 0 <= i < |probes| ==> probes[i].Probe?
    requires forall i, j :: 0 <= i < j < |probes| ==> probes[i].at <= probes[j].at
    ensures var lastHour := Pruned(log + probes, probes[|probes| - 1].at - WINDOW);
            Kept(log, probes) == lastHour && Verdict(Kept(log, probes)) == Verdict(lastHour)
  {
    var n := |probes| - 1;
    var last := probes[n];
    var cutoff := last.at - WINDOW;
    assert log + probes == (log + probes[..n]) + [last];
    PrunedOfConcat(log + probes[..n], [last], cutoff);
    assert Pruned([last], cutoff) == [last];
    if n > 0 {
      StoredLogIsTheLastHour(log, probes[..n]);
      PrunedTwice(log + probes[..n], probes[n - 1].at - WINDOW, cutoff);
    } else {
      assert log + probes[..0] == log;
    }
  }

  /** So it holds those probes of an hour and less, and no other entry. */
  lemma KeptAreAnHourOld(log: seq<Entry>, probes: seq<Entry>, e: Entry)
    requires probes != [] && forall i :: 0 <= i < |probes| ==> probes[i].Probe?
    requires forall i, j :: 0 <= i < j < |probes| ==> probes[i].at <= probes[j].at
    ensures e in Kept(log, probes) <==> e in log + probes && e.Probe? && probes[|probes| - 1].at - e.at <= WINDOW
  {
    StoredLogIsTheLastHour(log, probes);
    PrunedMembers(log + probes, probes[|probes| - 1].at - WINDOW);
  }

  /** The same of what is stored: written, read and written again with every probe, it
      holds the last hour of all there ever was. */
  lemma {:induction false} StoredAgainAndAgain(stored: Log, probes: seq<Entry>, parse: string -> Option<real>)
    requires forall i :: 0 <= i < |probes| ==> probes[i].Probe?
    ensures probes != [] ==> Resaved(stored, probes, parse) == WriteAll(Kept(ReadAll(stored, parse), probes))
  {
    if |probes| > 1 {
      StoredAgainAndAgain(stored, probes[..|probes| - 1], parse);
      WrittenReadsBack(Kept(ReadAll(stored, parse), probes[..|probes| - 1]), parse);
    } else if probes != [] {
      assert probes[..0] == [];
    }
  }

  function Resaved(stored: Log, probes: seq<Entry>, parse: string -> Option<real>): Log
    requires forall i :: 0 <= i < |probes| ==> probes[i].Probe?
  {
    if probes == [] then stored
    else WriteAll(Observed(ReadAll(Resaved(stored, probes[..|probes| - 1], parse), parse), probes[|probes| - 1]))
  }

  lemma {:induction false} CountsAreDisjoint(history: seq<Entry>)
    ensures Count(history, Missed) + Count(history, Slow) <= |history|
    ensures Count(history, Missed) < |history| ==> exists i :: 0 <= i < |history| && !Missed(history[i])
    ensures Count(history, Missed) == |history| ==> forall i :: 0 <= i < |history| ==> Missed(history[i])
  {
    if history != [] {
      CountsAreDisjoint(history[1..]);
      if Count(history[1..], Missed) < |history[1..]| {
        var i :| 0 <= i < |history[1..]| && !Missed(history[1..][i]);
        assert !Missed(history[i + 1]);
      }
      assert Count(history, Missed) < |history| ==> !Missed(history[0]) || Count(history[1..], Missed) < |history[1..]|;
    }
  }

  lemma QuotientInRange(n: nat, d: nat)
    requires d > 0 && n <= 100 * d
    ensures RoundedQuotient(n, d) <= 100
  {
    var q, r := n / d, n % d;
    assert n == q * d + r;
    AtMost(q, 100, d, r);
  }

  lemma AtMost(q: nat, bound: nat, d: nat, r: nat)
    requires d > 0 && q * d + r <= bound * d
    ensures q <= bound && (q == bound ==> r == 0)
  {
    if q > bound {
      MulGrows(bound + 1, q, d);
    }
  }

  lemma MulGrows(a: nat, b: nat, d: nat)
    requires a <= b
    ensures a * d <= b * d
  {
  }

  /** A flap is only ever reported of a printer that answered at least once; missed and
      slow probes are counted apart; and the loss is a percentage. */
  lemma FlapIsEvidence(history: seq<Entry>)
    requires Verdict(history).Some?
    ensures var flap := Verdict(history).value;
            && flap.misses == Count(history, Missed)
            && flap.slow == (if exists i :: 0 <= i < |history| && Quick(history[i]) then Count(history, Slow) else 0)
            && flap.Affected() <= flap.probes == |history|
            && flap.Affected() >= MISS_THRESHOLD
            && 0 <= flap.LossPercent() <= 100
            && (exists i :: 0 <= i < |history| && !Missed(history[i]))
            && (flap.slow > 0 ==> exists i :: 0 <= i < |history| && Quick(history[i]))
  {
    CountsAreDisjoint(history);
    var flap := Verdict(history).value;
    QuotientInRange(100 * flap.Affected(), flap.probes);
  }

  // ---- Exactly when a flap is reported ----

  /** Probes that nothing answered. */
  ghost function Misses(history: seq<Entry>): set<nat> {
    set i: nat | i < |history| && history[i].Probe? && !history[i].answered
  }

  /** Answered probes that took so long, or longer. */
  ghost function AnsweredAfter(history: seq<Entry>, seconds: real): set<nat> {
    set i: nat | i < |history| && history[i].Probe? && history[i].answered && history[i].seconds.Some?
                 && history[i].seconds.value >= seconds
  }

  ghost function Where(history: seq<Entry>, p: Entry -> bool): set<nat> {
    set i: nat | i < |history| && p(history[i])
  }

  lemma {:induction false} CountIsOfPositions(history: seq<Entry>, p: Entry -> bool)
    ensures Count(history, p) == |Where(history, p)|
  {
    if history != [] {
      CountIsOfPositions(history[1..], p);
      OneMoreWhere(history, p);
    }
  }

  lemma OneMoreWhere(history: seq<Entry>, p: Entry -> bool)
    requires history != []
    ensures |Where(history, p)| == |Where(history[1..], p)| + (if p(history[0]) then 1 else 0)
  {
    var rest, all := Where(history[1..], p), Where(history, p);
    var later := all - {0};
    forall i: nat
      ensures i in later <==> i > 0 && i - 1 in rest
    {
      assert 0 < i < |history| ==> history[i] == history[1..][i - 1];
    }
    MovedAsMany(rest, later);
    assert 0 in all <==> p(history[0]);
  }

  lemma {:induction false} MovedAsMany(a: set<nat>, b: set<nat>)
    requires forall i: nat :: i in b <==> i > 0 && i - 1 in a
    ensures |a| == |b|
    decreases a
  {
    if a == {} {
      assert b == {};
    } else {
      var i :| i in a;
      MovedAsMany(a - {i}, b - {i + 1});
    }
  }

  /** A flap is reported if and only if some probe succeeded and at least three were missed
      or slow: slow at two seconds or more, which counts only beside a probe under one
      second. And then it says how many there were of each, out of how many. */
  lemma FlapExactlyWhen(history: seq<Entry>)
    ensures var misses := Misses(history);
            var slow := if exists i :: 0 <= i < |history| && Quick(history[i]) then AnsweredAfter(history, 2.0) else {};
            && (Verdict(history).Some? <==> |misses| + |slow| >= 3 && exists i: nat :: i < |history| && i !in misses)
            && (Verdict(history).Some? ==> Verdict(history).value == NetworkFlap(|misses|, |slow|, |history|))
            && (forall e :: Quick(e) <==> e.Probe? && e.answered && e.seconds.Some? && e.seconds.value < 1.0)
  {
    CountIsOfPositions(history, Missed);
    CountIsOfPositions(history, Slow);
    CountsAreDisjoint(history);
    assert Misses(history) == Where(history, Missed) && AnsweredAfter(history, 2.0) == Where(history, Slow);
    if i: nat :| i < |history| && i !in Misses(history) {
      assert !Missed(history[i]);
    }
    if i :| 0 <= i < |history| && !Missed(history[i]) {
      assert i !in Misses(history);
    }
  }

  lemma RoundsToTheNearest(n: nat, d: nat)
    requires d > 0
    ensures var r: int := RoundedQuotient(n, d);
            && 2 * n - d <= 2 * r * d <= 2 * n + d
            && (2 * r * d == 2 * n - d || 2 * r * d == 2 * n + d ==> r % 2 == 0)
  {
    var q, rest := n / d, n % d;
    assert n == q * d + rest;
    assert (q + 1) * d == q * d + d;
  }

  /** The loss is the affected share of the probes in percent, rounded to the nearest whole
      number, and a half to the even one. */
  lemma LossIsRounded(flap: NetworkFlap)
    ensures var loss: int, share := flap.LossPercent(), 200 * (flap.misses + flap.slow);
            && (flap.probes == 0 ==> loss == 0)
            && (flap.probes > 0 ==> share - flap.probes <= 2 * loss * flap.probes <= share + flap.probes)
            && (flap.probes > 0 && 2 * loss * flap.probes in {share - flap.probes, share + flap.probes} ==> loss % 2 == 0)
  {
    if flap.probes > 0 {
      RoundsToTheNearest(100 * flap.Affected(), flap.probes);
    }
  }

  /** What a stored value counts for: Python's idea of truth, and of a number. */
  lemma ReadsAsPythonDoes(j: Json, parse: string -> Option<real>)
    ensures Truthy(j) <==> j !in {Null, Bool(false), Number(0.0), Text("")}
    ensures AsSeconds(j, parse).None? <==> j == Null || exists t :: j == Text(t) && parse(t).None?
    ensures forall s :: AsSeconds(j, parse) == Some(s) <==>
              j == Number(s) || (j == Bool(true) && s == 1.0) || (j == Bool(false) && s == 0.0)
              || exists t :: j == Text(t) && parse(t) == Some(s)
  {
  }
}