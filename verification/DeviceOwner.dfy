/** apps/api/app/copiers/device_owner.py: a whole device's copies given to one named
    person, by the difference of two meter readings and a watermark. */
module DeviceOwner {
  import opened Prelude

  /** One reading of the printer's meter; the copy count may be missing. */
  datatype Reading = Reading(at: int, copies: Option<int>)

  datatype Usage = Usage(owner: string, pages: int, start: int, end: int, meterFrom: int, meterTo: int)

  datatype Result =
    | NoOwner | TracksAccounts | NoPrinter | PrinterGone | SnmpOff | NotMeasured | NoReadings
    | Nothing
    | Baselined(meterReset: bool)
    | Attributed(pages: int)

  /** What the run looks at before it looks at the meter. */
  datatype Setup = Setup(autoPollCounters: bool, hasAccountReadings: bool, printerLinked: bool,
                         printerExists: bool, snmpEnabled: bool, measured: bool)

  /** The newest reading with a copy count, at or before a time if one is given. */
  function LatestReading(readings: seq<Reading>, before: Option<int>): (latest: Option<Reading>)
    ensures latest.Some? ==> latest.value.copies.Some?
  {
    if readings == [] then None
    else
      var r := readings[|readings| - 1];
      if r.copies.Some? && (before.None? || r.at <= before.value) then Some(r)
      else LatestReading(readings[..|readings| - 1], before)
  }

  function EarliestReadingAfter(readings: seq<Reading>, after: int): (earliest: Option<Reading>)
    ensures earliest.Some? ==> earliest.value.copies.Some?
  {
    if readings == [] then None
    else if readings[0].copies.Some? && readings[0].at > after then Some(readings[0])
    else EarliestReadingAfter(readings[1..], after)
  }

  ghost predicate Ascending(readings: seq<Reading>) {
    forall i, j :: 0 <= i < j < |readings| ==> readings[i].at < readings[j].at
  }

  predicate Counts(r: Reading, after: Option<int>, through: Option<int>) {
    r.copies.Some? && (after.None? || r.at > after.value) && (through.None? || r.at <= through.value)
  }

  /** The answer is the last of the readings that qualify, if any does. */
  ghost predicate IsLatest(readings: seq<Reading>, before: Option<int>, latest: Option<Reading>) {
    && (latest.None? <==> forall r :: r in readings ==> !Counts(r, None, before))
    && (latest.Some? ==> latest.value in readings && Counts(latest.value, None, before))
    && (latest.Some? ==> forall r :: r in readings && Counts(r, None, before) ==> r.at <= latest.value.at)
  }

  lemma {:induction false} LatestIsLatest(readings: seq<Reading>, before: Option<int>)
    requires Ascending(readings)
    ensures IsLatest(readings, before, LatestReading(readings, before))
  {
    if readings != [] {
      var n := |readings| - 1;
      var earlier, last := readings[..n], readings[n];
      LatestIsLatest(earlier, before);
      EarlierAndLast(readings);
      hide Ascending;
      if !Counts(last, None, before) {
        assert LatestReading(readings, before) == LatestReading(earlier, before);
      }
    }
  }

  lemma EarlierAndLast(readings: seq<Reading>)
    requires Ascending(readings) && readings != []
    ensures var n := |readings| - 1;
            && (forall r :: r in readings <==> r in readings[..n] || r == readings[n])
            && (forall r :: r in readings[..n] ==> r.at < readings[n].at)
  {
    var n := |readings| - 1;
    assert readings == readings[..n] + [readings[n]];
  }

  lemma {:induction false} EarliestIsEarliest(readings: seq<Reading>, after: int)
    requires Ascending(readings)
    ensures var earliest := EarliestReadingAfter(readings, after);
            && (earliest.None? <==> forall i :: 0 <= i < |readings| ==> !Counts(readings[i], Some(after), None))
            && (earliest.Some? ==> earliest.value in readings && Counts(earliest.value, Some(after), None))
            && (earliest.Some? ==> forall i :: 0 <= i < |readings| && Counts(readings[i], Some(after), None) ==> earliest.value.at <= readings[i].at)
  {
    if readings != [] {
      EarliestIsEarliest(readings[1..], after);
      assert readings == [readings[0]] + readings[1..];
    }
  }

  /** The reading a run subtracts from: the one at the watermark, or when that has been
      purged the oldest that survives after it. */
  function BaseReading(readings: seq<Reading>, watermark: int): Option<Reading> {
    var atWatermark := LatestReading(readings, Some(watermark));
    if atWatermark.Some? then atWatermark else EarliestReadingAfter(readings, watermark)
  }

  datatype Attribution = Attribution(through: Option<int>, row: Option<Usage>, result: Result)

  /** The part of the run that reads the meter. */
  function Attribute(owner: string, through: Option<int>, readings: seq<Reading>): Attribution {
    var latest := LatestReading(readings, None);
    if latest.None? then Attribution(through, None, NoReadings)
    else if through.None? then Attribution(Some(latest.value.at), None, Baselined(false))
    else
      var base := BaseReading(readings, through.value);
      if base.None? || base.value.at >= latest.value.at || base.value.copies.None? || latest.value.copies.None? then
        Attribution(through, None, Nothing)
      else
        var delta := latest.value.copies.value - base.value.copies.value;
        if delta < 0 then Attribution(Some(latest.value.at), None, Baselined(true))
        else if delta == 0 then Attribution(Some(latest.value.at), None, Nothing)
        else Attribution(Some(latest.value.at),
                         Some(Usage(owner, delta, base.value.at, latest.value.at, base.value.copies.value, latest.value.copies.value)),
                         Attributed(delta))
  }

  function StandsDown(owner: Option<string>, s: Setup): Option<Result> {
    if owner.None? then Some(NoOwner)
    else if s.autoPollCounters || s.hasAccountReadings then Some(TracksAccounts)
    else if !s.printerLinked then Some(NoPrinter)
    else if !s.printerExists then Some(PrinterGone)
    else if !s.snmpEnabled then Some(SnmpOff)
    else if !s.measured then Some(NotMeasured)
    else None
  }

  class MfpDevice {
    var owner: Option<string>
    var through: Option<int>
    var usage: seq<Usage>

    constructor ()
      ensures owner == None && through == None && usage == []
    {
      owner, through, usage := None, None, [];
    }

    /** `attribute_device_copies` */
    method AttributeDeviceCopies(setup: Setup, readings: seq<Reading>) returns (result: Result)
      requires Ascending(readings)
      modifies this`through, this`usage
      ensures StandsDown(owner, setup).Some? ==>
                through == old(through) && usage == old(usage) && Some(result) == StandsDown(owner, setup)
      ensures StandsDown(owner, setup).None? ==>
                var a := Attribute(owner.value, old(through), readings);
                through == a.through && result == a.result
                && usage == old(usage) + (if a.row.Some? then [a.row.value] else [])
    {
      if owner.None? {
        return NoOwner;
      }
      if setup.autoPollCounters || setup.hasAccountReadings {
        return TracksAccounts;
      }
      if !setup.printerLinked {
        return NoPrinter;
      }
      if !setup.printerExists {
        return PrinterGone;
      }
      if !setup.snmpEnabled {
        return SnmpOff;
      }
      if !setup.measured {
        return NotMeasured;
      }
      var latest := LatestReading(readings, None);
      if latest.None? {
        return NoReadings;
      }
      if through.None? {
        through := Some(latest.value.at);
        return Baselined(false);
      }
      var base := LatestReading(readings, through);
      if base.None? {
        base := EarliestReadingAfter(readings, through.value);
      }
      if base.None? || base.value.at >= latest.value.at {
        return Nothing;
      }
      var delta := latest.value.copies.value - base.value.copies.value;
      through := Some(latest.value.at);
      if delta < 0 {
        return Baselined(true);
      }
      if delta == 0 {
        return Nothing;
      }
      usage := usage + [Usage(owner.value, delta, base.value.at, latest.value.at, base.value.copies.value, latest.value.copies.value)];
      result := Attributed(delta);
    }

    /** Naming a different owner, or clearing the owner, restarts the watermark. */
    method NameOwner(name: Option<string>)
      modifies this`owner, this`through
      ensures owner == name
      ensures through == if name == old(owner) then old(through) else None
    {
      if name != owner {
        through := None;
      }
      owner := name;
    }
  }

  // ---- The copier, the printer it is linked to, that meter and its history ----

  /** How things stood when a reading was taken: the pages really copied by then, and by
      how much swaps had shifted the meter against them. */
  datatype Moment = Moment(copied: int, shift: int)

  /** A printer with whatever history it has. */
  datatype Printer = Printer(readings: seq<Reading>, moments: map<int, Moment>, copied: int, shift: int)

  /** The readings, the moments, the copies and the shift are those of the printer the
      copier is linked to. `mark` is the last watermark ever set. The present owner's counting began with the
      reading at `began`, and that owner's rows begin at `stint`; `purged` tells whether
      readings have been deleted since. */
  datatype World = World(
    readings: seq<Reading>, moments: map<int, Moment>, copied: int, shift: int,
    owner: Option<string>, through: Option<int>, usage: seq<Usage>,
    mark: Option<int>, began: int, stint: nat, purged: bool, clock: int)

  function Meter(w: World): int {
    w.copied + w.shift
  }

  datatype Step =
    | Copy(pages: nat)
    | Swap(meter: int)
    | Read(at: int, reported: bool)
    | Purge(cutoff: int)
    | Name(owner: Option<string>)
    | Relink(to: Printer)
    | Run(setup: Setup)

  /** Readings come at increasing times, and tell the truth on every printer. */
  ghost predicate Enabled(w: World, s: Step) {
    match s
    case Read(at, _) => w.clock < at
    case Relink(to) => HistoryInv(Linked(w, to))
    case _ => true
  }

  function Linked(w: World, to: Printer): World {
    w.(readings := to.readings, moments := to.moments, copied := to.copied, shift := to.shift)
  }

  /** A new meter starts no higher than the old one stood. */
  predicate Lowers(w: World, s: Step) {
    s.Swap? ==> s.meter <= Meter(w)
  }

  function Kept(readings: seq<Reading>, cutoff: int): seq<Reading> {
    if readings == [] then []
    else if readings[0].at < cutoff then Kept(readings[1..], cutoff)
    else [readings[0]] + Kept(readings[1..], cutoff)
  }

  function Ran(w: World, setup: Setup): World {
    if StandsDown(w.owner, setup).Some? then w
    else
      var a := Attribute(w.owner.value, w.through, w.readings);
      if w.through.None? && a.through.Some? then
        w.(through := a.through, mark := a.through, began := a.through.value, stint := |w.usage|, purged := false)
      else
        w.(through := a.through, mark := if a.through.Some? then a.through else w.mark,
           usage := w.usage + (if a.row.Some? then [a.row.value] else []))
  }

  function Apply(w: World, s: Step): World {
    match s
    case Copy(pages) => w.(copied := w.copied + pages)
    case Swap(meter) => w.(shift := meter - w.copied)
    case Read(at, reported) =>
      w.(readings := w.readings + [Reading(at, if reported then Some(Meter(w)) else None)],
         moments := w.moments[at := Moment(w.copied, w.shift)], clock := at)
    case Purge(cutoff) => w.(readings := Kept(w.readings, cutoff), purged := true)
    case Name(owner) => w.(owner := owner, through := if owner == w.owner then w.through else None)
    case Relink(to) => Linked(w, to)
    case Run(setup) => Ran(w, setup)
  }

  ghost predicate Runs(w: World, steps: seq<Step>)
    decreases |steps|
  {
    steps == [] || (Enabled(w, steps[0]) && Runs(Apply(w, steps[0]), steps[1..]))
  }

  /** The copier stays linked to one printer. */
  predicate Stays(steps: seq<Step>) {
    forall i :: 0 <= i < |steps| ==> !steps[i].Relink?
  }

  /** Every swap of the run lowers the meter, or leaves it where it was. */
  ghost predicate SwapsLower(w: World, steps: seq<Step>)
    decreases |steps|
  {
    steps == [] || (Lowers(w, steps[0]) && SwapsLower(Apply(w, steps[0]), steps[1..]))
  }

  function After(w: World, steps: seq<Step>): World
    decreases |steps|
  {
    if steps == [] then w else After(Apply(w, steps[0]), steps[1..])
  }

  function Pages(usage: seq<Usage>): int {
    if usage == [] then 0 else Pages(usage[..|usage| - 1]) + usage[|usage| - 1].pages
  }

  // ---- What every step keeps ----

  ghost predicate IsTruthful(r: Reading, moments: map<int, Moment>) {
    r.at in moments && (r.copies.Some? ==> r.copies.value == moments[r.at].copied + moments[r.at].shift)
  }

  /** Every stored reading is what the meter showed at its moment. */
  ghost predicate HistoryInv(w: World) {
    && w.copied >= 0
    && Ascending(w.readings)
    && (forall r :: r in w.readings ==> r.at <= w.clock && IsTruthful(r, w.moments))
    && (forall t :: t in w.moments ==> t <= w.clock && 0 <= w.moments[t].copied <= w.copied)
    && (forall t, u :: t in w.moments && u in w.moments && t <= u ==> w.moments[t].copied <= w.moments[u].copied)
  }

  /** With swaps that only lower it, the meter only falls behind the copies. */
  ghost predicate FallsBehind(w: World) {
    && (forall t :: t in w.moments ==> w.shift <= w.moments[t].shift)
    && (forall t, u :: t in w.moments && u in w.moments && t <= u ==> w.moments[u].shift <= w.moments[t].shift)
  }

  ghost predicate Survives(readings: seq<Reading>, t: int) {
    exists r :: r in readings && r.at == t && r.copies.Some?
  }

  ghost predicate NoneUpTo(readings: seq<Reading>, t: int) {
    forall r :: r in readings && r.copies.Some? ==> r.at > t
  }

  /** The reading at the last watermark is still there, or nothing up to it is. */
  ghost predicate MarkInv(w: World) {
    && (w.through.Some? ==> w.mark == w.through)
    && (w.mark.None? ==> w.usage == [] && w.stint == 0)
    && (w.mark.Some? ==> w.mark.value in w.moments && w.began in w.moments && w.began <= w.mark.value)
    && (w.mark.Some? ==> Survives(w.readings, w.mark.value) || NoneUpTo(w.readings, w.mark.value))
    && (w.through.Some? && !w.purged ==> Survives(w.readings, w.mark.value))
  }

  ghost predicate UsageInSequence(usage: seq<Usage>, through: int) {
    && (forall i :: 0 <= i < |usage| ==> usage[i].start < usage[i].end <= through && usage[i].pages > 0)
    && (forall i, j :: 0 <= i < j < |usage| ==> usage[i].end <= usage[j].start)
  }

  ghost predicate PeriodsInv(w: World) {
    w.stint <= |w.usage| && (w.mark.Some? ==> UsageInSequence(w.usage, w.mark.value))
  }

  /** What has been given out, against what had been copied at the last watermark. */
  ghost predicate PagesInv(w: World) {
    w.stint <= |w.usage| && (w.mark.Some? && w.mark.value in w.moments && w.began in w.moments ==>
      && Pages(w.usage) <= w.moments[w.mark.value].copied
      && Pages(w.usage[w.stint..]) <= w.moments[w.mark.value].copied - w.moments[w.began].copied
      && (w.through.Some? && !w.purged && w.moments[w.mark.value].shift == w.moments[w.began].shift ==>
           Pages(w.usage[w.stint..]) == w.moments[w.mark.value].copied - w.moments[w.began].copied))
  }

  lemma PagesOfAppend(usage: seq<Usage>, row: Usage, from: nat)
    requires from <= |usage|
    ensures Pages((usage + [row])[from..]) == Pages(usage[from..]) + row.pages
  {
    var rest := (usage + [row])[from..];
    assert rest[..|rest| - 1] == usage[from..];
  }

  lemma {:induction false} KeptIsWhatIsNew(readings: seq<Reading>, cutoff: int)
    requires Ascending(readings)
    ensures forall r :: r in Kept(readings, cutoff) <==> r in readings && r.at >= cutoff
    ensures Ascending(Kept(readings, cutoff))
  {
    if readings != [] {
      KeptIsWhatIsNew(readings[1..], cutoff);
      assert readings == [readings[0]] + readings[1..];
      assert forall r :: r in readings[1..] ==> readings[0].at < r.at;
      FirstStaysFirst(readings[0], Kept(readings[1..], cutoff));
    }
  }

  lemma FirstStaysFirst(first: Reading, rest: seq<Reading>)
    requires Ascending(rest) && forall r :: r in rest ==> first.at < r.at
    ensures Ascending([first] + rest)
  {
    assert forall i :: 0 <= i < |rest| ==> rest[i] in rest;
  }

  lemma MembersByIndex(readings: seq<Reading>)
    ensures forall r :: r in readings <==> exists i :: 0 <= i < |readings| && readings[i] == r
  {
  }

  /** The base of a run is never before the watermark, and is the reading at the
      watermark as long as that survives. */
  lemma BaseIsAtTheMark(w: World)
    requires HistoryInv(w) && MarkInv(w) && w.through.Some?
    ensures var base := BaseReading(w.readings, w.through.value);
            && (base.Some? ==> base.value in w.readings && base.value.copies.Some? && base.value.at >= w.through.value)
            && (Survives(w.readings, w.through.value) ==> base.Some? && base.value.at == w.through.value)
  {
    LatestIsLatest(w.readings, w.through);
    EarliestIsEarliest(w.readings, w.through.value);
    MembersByIndex(w.readings);
  }

  /** The newest reading is never before the last watermark. */
  lemma LatestIsPastTheMark(w: World)
    requires HistoryInv(w) && MarkInv(w) && LatestReading(w.readings, None).Some?
    ensures var latest := LatestReading(w.readings, None).value;
            && latest in w.readings && latest.copies.Some?
            && (w.mark.Some? ==> w.mark.value <= latest.at)
            && Survives(w.readings, latest.at)
  {
    LatestIsLatest(w.readings, None);
    MembersByIndex(w.readings);
  }

  /** What a run does, in terms of the readings it used. */
  ghost predicate RunFrom(w: World, w': World, base: Reading, latest: Reading)
    requires base.copies.Some? && latest.copies.Some?
  {
    var delta := latest.copies.value - base.copies.value;
    && w' == w.(through := w'.through, mark := w'.mark, usage := w'.usage)
    && w'.mark == w'.through == Some(latest.at)
    && (if delta <= 0 then w'.usage == w.usage
        else exists row :: w'.usage == w.usage + [row] && row.pages == delta && row.start == base.at && row.end == latest.at)
  }

  lemma RunsFromBase(w: World, setup: Setup)
    requires HistoryInv(w) && (w.through.Some? ==> w.mark == w.through)
    ensures var w' := Ran(w, setup);
            || w' == w
            || (w.through.None? && LatestReading(w.readings, None).Some?
                && var at := LatestReading(w.readings, None).value.at;
                   w' == w.(through := Some(at), mark := Some(at), began := at, stint := |w.usage|, purged := false))
            || (w.through.Some? && BaseReading(w.readings, w.through.value).Some? && LatestReading(w.readings, None).Some?
                && var base, latest := BaseReading(w.readings, w.through.value).value, LatestReading(w.readings, None).value;
                   base.copies.Some? && latest.copies.Some? && base.at < latest.at && RunFrom(w, w', base, latest))
  {
    hide LatestReading, EarliestReadingAfter, HistoryInv, Survives, NoneUpTo, BaseReading;
    if StandsDown(w.owner, setup).None? && LatestReading(w.readings, None).Some? && w.through.Some? {
      var a := Attribute(w.owner.value, w.through, w.readings);
      if a.row.Some? {
        assert Ran(w, setup).usage == w.usage + [a.row.value];
      } else {
        assert Ran(w, setup).usage == w.usage;
      }
    }
  }

  lemma RunKeepsHistory(w: World, setup: Setup)
    requires HistoryInv(w) && MarkInv(w) && PeriodsInv(w)
    ensures HistoryInv(Ran(w, setup)) && MarkInv(Ran(w, setup)) && PeriodsInv(Ran(w, setup))
  {
    hide Ran, LatestReading, BaseReading, Survives, NoneUpTo, Ascending;
    RunsFromBase(w, setup);
    if LatestReading(w.readings, None).Some? {
      LatestIsPastTheMark(w);
    }
    if w.through.Some? {
      BaseIsAtTheMark(w);
    }
  }

  lemma RunKeepsPages(w: World, setup: Setup)
    requires HistoryInv(w) && MarkInv(w) && PagesInv(w) && FallsBehind(w)
    ensures PagesInv(Ran(w, setup))
  {
    hide Ran, LatestReading, BaseReading, Survives, NoneUpTo, Ascending;
    var w' := Ran(w, setup);
    RunsFromBase(w, setup);
    if LatestReading(w.readings, None).Some? {
      LatestIsPastTheMark(w);
      var latest := LatestReading(w.readings, None).value;
      assert IsTruthful(latest, w.moments);
      if w' != w && w.through.None? {
        assert w'.usage[w'.stint..] == [];
      } else if w' != w {
        BaseIsAtTheMark(w);
        var base := BaseReading(w.readings, w.through.value).value;
        assert IsTruthful(base, w.moments);
        if w'.usage != w.usage {
          var row :| w'.usage == w.usage + [row] && row.pages == latest.copies.value - base.copies.value;
          PagesOfAppend(w.usage, row, 0);
          PagesOfAppend(w.usage, row, w.stint);
          assert w.usage[0..] == w.usage && (w.usage + [row])[0..] == w'.usage;
        }
      }
    }
  }

  lemma PurgeKeepsInv(w: World, cutoff: int)
    requires HistoryInv(w) && MarkInv(w)
    ensures HistoryInv(Apply(w, Purge(cutoff))) && MarkInv(Apply(w, Purge(cutoff)))
  {
    hide Ascending;
    KeptIsWhatIsNew(w.readings, cutoff);
  }

  lemma ReadKeepsHistory(w: World, at: int, reported: bool)
    requires HistoryInv(w) && w.clock < at
    ensures HistoryInv(Apply(w, Read(at, reported)))
  {
    var w' := Apply(w, Read(at, reported));
    var r := Reading(at, if reported then Some(Meter(w)) else None);
    assert forall i :: 0 <= i < |w.readings| ==> w.readings[i] in w.readings && w'.readings[i] == w.readings[i];
    assert Ascending(w'.readings);
    forall q | q in w'.readings
      ensures q.at <= w'.clock && IsTruthful(q, w'.moments)
    {
      assert q == r || q in w.readings;
    }
  }

  lemma SurvivalOfAppend(readings: seq<Reading>, r: Reading, t: int)
    requires t < r.at
    ensures Survives(readings, t) ==> Survives(readings + [r], t)
    ensures NoneUpTo(readings, t) ==> NoneUpTo(readings + [r], t)
  {
    if Survives(readings, t) {
      var q :| q in readings && q.at == t && q.copies.Some?;
      assert q in readings + [r];
    }
  }

  lemma ReadKeepsInv(w: World, at: int, reported: bool)
    requires HistoryInv(w) && MarkInv(w) && w.clock < at
    ensures HistoryInv(Apply(w, Read(at, reported))) && MarkInv(Apply(w, Read(at, reported)))
  {
    hide Survives, NoneUpTo, Ascending, IsTruthful;
    ReadKeepsHistory(w, at, reported);
    if w.mark.Some? {
      SurvivalOfAppend(w.readings, Reading(at, if reported then Some(Meter(w)) else None), w.mark.value);
    }
  }

  lemma StepKeepsInv(w: World, s: Step)
    requires HistoryInv(w) && MarkInv(w) && PeriodsInv(w) && Enabled(w, s) && !s.Relink?
    ensures HistoryInv(Apply(w, s)) && MarkInv(Apply(w, s)) && PeriodsInv(Apply(w, s))
  {
    match s {
      case Run(setup) => RunKeepsHistory(w, setup);
      case Purge(cutoff) => PurgeKeepsInv(w, cutoff);
      case Read(at, reported) => ReadKeepsInv(w, at, reported);
      case Copy(pages) =>
      case Swap(meter) =>
      case Name(owner) =>
    }
  }

  lemma StepKeepsPages(w: World, s: Step)
    requires HistoryInv(w) && MarkInv(w) && PagesInv(w) && FallsBehind(w) && Enabled(w, s) && Lowers(w, s) && !s.Relink?
    ensures PagesInv(Apply(w, s)) && FallsBehind(Apply(w, s))
  {
    hide Survives, NoneUpTo, Ascending;
    match s {
      case Run(setup) =>
        RunKeepsPages(w, setup);
        RunsFromBase(w, setup);
      case Purge(cutoff) =>
      case Read(at, reported) =>
        assert w.mark.Some? ==> w.mark.value <= w.clock && w.began <= w.clock;
      case Copy(pages) =>
      case Swap(meter) =>
      case Name(owner) =>
    }
  }

  lemma {:induction false} RunKeepsInv(w: World, steps: seq<Step>)
    requires HistoryInv(w) && MarkInv(w) && PeriodsInv(w) && Runs(w, steps) && Stays(steps)
    ensures HistoryInv(After(w, steps)) && MarkInv(After(w, steps)) && PeriodsInv(After(w, steps))
    ensures PagesInv(w) && FallsBehind(w) && SwapsLower(w, steps) ==> PagesInv(After(w, steps))
    decreases |steps|
  {
    hide HistoryInv, MarkInv, PeriodsInv, PagesInv, FallsBehind, Enabled, Apply, Lowers;
    if steps != [] {
      StepKeepsInv(w, steps[0]);
      if PagesInv(w) && FallsBehind(w) && SwapsLower(w, steps) {
        StepKeepsPages(w, steps[0]);
      }
      RunKeepsInv(Apply(w, steps[0]), steps[1..]);
    }
  }

  /** A device just linked: nothing read, nobody named. */
  function NewDevice(meter: int): World {
    World([], map[], 0, meter, None, None, [], None, 0, 0, false, 0)
  }

  // ---- Main results ----

  /** Whatever is read, purged, renamed and run, with swaps that do not raise the meter:
      all owners together are given no more than was copied, the present owner no more
      than was copied since the first reading of that owner's counting, and exactly what
      was copied from there to the watermark when nothing was swapped or purged. */
  lemma OwnersGetNoMoreThanWasCopied(meter: int, steps: seq<Step>)
    requires Runs(NewDevice(meter), steps) && Stays(steps) && SwapsLower(NewDevice(meter), steps)
    ensures var w := After(NewDevice(meter), steps);
            && Pages(w.usage) <= w.copied && w.stint <= |w.usage|
            && (w.through.Some? ==>
                 && w.through.value in w.moments && w.began in w.moments
                 && Pages(w.usage[w.stint..]) <= w.moments[w.through.value].copied - w.moments[w.began].copied
                 && (!w.purged && w.moments[w.through.value].shift == w.moments[w.began].shift ==>
                      Pages(w.usage[w.stint..]) == w.moments[w.through.value].copied - w.moments[w.began].copied))
  {
    RunKeepsInv(NewDevice(meter), steps);
  }

  /** No two rows, of whatever owner, cover the same time. */
  lemma OwnerPeriodsNeverOverlap(meter: int, steps: seq<Step>, i: nat, j: nat)
    requires Runs(NewDevice(meter), steps) && Stays(steps) && i < j < |After(NewDevice(meter), steps).usage|
    ensures After(NewDevice(meter), steps).usage[i].end <= After(NewDevice(meter), steps).usage[j].start
  {
    RunKeepsInv(NewDevice(meter), steps);
  }

  /** On one printer the watermark only moves forward, even across a purge of everything
      behind it or a change of owner. */
  lemma WatermarkNeverMovesBack(meter: int, steps: seq<Step>, setup: Setup)
    requires Runs(NewDevice(meter), steps) && Stays(steps)
    ensures var w := After(NewDevice(meter), steps);
            w.mark.Some? ==> Ran(w, setup).mark.Some? && w.mark.value <= Ran(w, setup).mark.value
  {
    RunKeepsInv(NewDevice(meter), steps);
    var w := After(NewDevice(meter), steps);
    RunsFromBase(w, setup);
    if LatestReading(w.readings, None).Some? {
      LatestIsPastTheMark(w);
    }
  }

  // ---- Exactly what a run does ----

  /** What has to hold for a run to look at the meter at all: somebody owns the copier, its
      copies are not already counted by account, and its printer measures them. */
  predicate LooksAtTheMeter(owner: Option<string>, s: Setup) {
    owner != None && s.printerLinked && s.printerExists && s.snmpEnabled && s.measured && !s.autoPollCounters && !s.hasAccountReadings
  }

  /** A run stands down exactly when one of those is missing, and names the first. */
  lemma StandsDownExactlyWhen(owner: Option<string>, s: Setup)
    ensures StandsDown(owner, s).None? <==> LooksAtTheMeter(owner, s)
    ensures StandsDown(owner, s) == Some(NoOwner) <==> owner == None
    ensures StandsDown(owner, s) == Some(TracksAccounts) <==> owner != None && (s.autoPollCounters || s.hasAccountReadings)
    ensures StandsDown(owner, s) in {Some(NoPrinter), Some(PrinterGone), Some(SnmpOff), Some(NotMeasured)}
            <==> owner != None && !s.autoPollCounters && !s.hasAccountReadings && !LooksAtTheMeter(owner, s)
    ensures StandsDown(owner, s) == Some(NoPrinter) ==> !s.printerLinked
    ensures StandsDown(owner, s) == Some(PrinterGone) ==> s.printerLinked && !s.printerExists
    ensures StandsDown(owner, s) == Some(SnmpOff) ==> s.printerLinked && s.printerExists && !s.snmpEnabled
    ensures StandsDown(owner, s) == Some(NotMeasured) ==> s.printerLinked && s.printerExists && s.snmpEnabled && !s.measured
  {
  }

  ghost predicate IsNewest(readings: seq<Reading>, newest: Reading) {
    && newest in readings && newest.copies.Some?
    && forall r :: r in readings && r.copies.Some? ==> r.at <= newest.at
  }

  /** The last reading up to the watermark, or the first of all when none is left up to it. */
  ghost predicate IsBase(readings: seq<Reading>, through: int, base: Reading) {
    && base in readings && base.copies.Some?
    && (forall r :: r in readings && r.copies.Some? && r.at <= through ==> r.at <= base.at <= through)
    && (base.at > through ==> forall r :: r in readings && r.copies.Some? ==> base.at <= r.at)
  }

  lemma AtOneTimeOneReading(readings: seq<Reading>, a: Reading, b: Reading)
    requires Ascending(readings) && a in readings && b in readings && a.at == b.at
    ensures a == b
  {
  }

  lemma NewestIsLatest(readings: seq<Reading>, newest: Reading)
    requires Ascending(readings) && IsNewest(readings, newest)
    ensures LatestReading(readings, None) == Some(newest)
  {
    LatestIsLatest(readings, None);
    hide LatestReading;
    assert Counts(newest, None, None);
    AtOneTimeOneReading(readings, LatestReading(readings, None).value, newest);
  }

  lemma BaseIsTheBase(readings: seq<Reading>, through: int, base: Reading)
    requires Ascending(readings) && IsBase(readings, through, base)
    ensures BaseReading(readings, through) == Some(base)
  {
    LatestIsLatest(readings, Some(through));
    EarliestIsEarliest(readings, through);
    MembersByIndex(readings);
    hide LatestReading, EarliestReadingAfter;
    assert base.at <= through ==> Counts(base, None, Some(through));
    assert base.at > through ==> Counts(base, Some(through), None);
    AtOneTimeOneReading(readings, BaseReading(readings, through).value, base);
  }

  /** The first run for an owner sets the watermark at the newest reading and gives nothing. */
  lemma FirstRunSetsTheMark(w: World, setup: Setup, newest: Reading)
    requires Ascending(w.readings) && LooksAtTheMeter(w.owner, setup) && w.through.None? && IsNewest(w.readings, newest)
    ensures Ran(w, setup).through == Some(newest.at) && Ran(w, setup).usage == w.usage
    ensures Attribute(w.owner.value, w.through, w.readings).result == Baselined(false)
  {
    hide LatestReading, BaseReading;
    NewestIsLatest(w.readings, newest);
  }

  /** Every later run gives the owner what the meter gained from the base to the newest
      reading, if it gained anything, and moves the watermark if there was anything to read. */
  lemma RunGivesWhatTheMeterGained(w: World, setup: Setup, base: Reading, newest: Reading)
    requires Ascending(w.readings) && LooksAtTheMeter(w.owner, setup) && w.through.Some?
    requires IsBase(w.readings, w.through.value, base) && IsNewest(w.readings, newest)
    ensures var w', result := Ran(w, setup), Attribute(w.owner.value, w.through, w.readings).result;
            var gained := newest.copies.value - base.copies.value;
            && w'.through == (if base.at < newest.at then Some(newest.at) else w.through)
            && w'.usage == w.usage + (if base.at < newest.at && gained > 0
                                      then [Usage(w.owner.value, gained, base.at, newest.at, base.copies.value, newest.copies.value)] else [])
            && (forall pages :: result == Attributed(pages) <==> base.at < newest.at && pages == gained > 0)
            && (result == Baselined(true) <==> base.at < newest.at && gained < 0)
            && (result == Nothing <==> base.at >= newest.at || gained == 0)
  {
    hide LatestReading, BaseReading;
    NewestIsLatest(w.readings, newest);
    BaseIsTheBase(w.readings, w.through.value, base);
  }

  /** Exactly when a run changes anything: when it looks at the meter, and finds a reading
      with a copy count, for a new owner, or one past the watermark with another before it. */
  lemma RunChangesExactlyWhen(w: World, setup: Setup)
    requires Ascending(w.readings)
    ensures Ran(w, setup).through != w.through || Ran(w, setup).usage != w.usage
            <==> LooksAtTheMeter(w.owner, setup)
                 && exists r, s :: r in w.readings && s in w.readings && r.copies.Some? && s.copies.Some?
                                   && (w.through.None? || (r.at < s.at && w.through.value < s.at))
  {
    LatestIsLatest(w.readings, None);
    hide LatestReading, BaseReading, Ascending;
    var newest := LatestReading(w.readings, None);
    if LooksAtTheMeter(w.owner, setup) && newest.Some? {
      assert IsNewest(w.readings, newest.value);
      if w.through.None? {
        FirstRunSetsTheMark(w, setup, newest.value);
      } else {
        var base := SomeBase(w.readings, w.through.value, newest.value);
        RunGivesWhatTheMeterGained(w, setup, base, newest.value);
        hide Ran, Attribute;
      }
    } else {
      forall r | r in w.readings && r.copies.Some?
        ensures newest.Some?
      {
        assert Counts(r, None, None);
      }
    }
  }

  lemma SomeBase(readings: seq<Reading>, through: int, newest: Reading) returns (base: Reading)
    requires Ascending(readings) && IsNewest(readings, newest)
    ensures IsBase(readings, through, base)
  {
    LatestIsLatest(readings, Some(through));
    EarliestIsEarliest(readings, through);
    MembersByIndex(readings);
    hide LatestReading, EarliestReadingAfter, Ascending;
    assert newest.at > through ==> Counts(newest, Some(through), None);
    assert newest.at <= through ==> Counts(newest, None, Some(through));
    base := BaseReading(readings, through).value;
  }

  // ---- A copier that is moved from printer to printer ----

  /** What survives a move: the rows of the present owner's counting follow one another
      by their ends, up to the watermark, wherever they begin. */
  ghost predicate StintInv(w: World) {
    && w.stint <= |w.usage|
    && (w.through.Some? ==> w.mark == w.through && EndsAscend(w.usage[w.stint..], w.through.value))
  }

  ghost predicate EndsAscend(usage: seq<Usage>, through: int) {
    && (forall i :: 0 <= i < |usage| ==> usage[i].start < usage[i].end <= through)
    && (forall i, j :: 0 <= i < j < |usage| ==> usage[i].end < usage[j].end)
  }

  lemma EndsStillAscend(usage: seq<Usage>, row: Usage, through: int)
    requires EndsAscend(usage, through) && row.start < row.end && through < row.end
    ensures EndsAscend(usage + [row], row.end)
  {
    var more := usage + [row];
    assert forall i :: 0 <= i < |more| ==> more[i] == if i < |usage| then usage[i] else row;
  }

  /** The base and the newest reading are both of the printer now linked, and when the
      base is not the newest the newest is past the watermark. */
  lemma BaseAndLatest(w: World)
    requires HistoryInv(w) && LatestReading(w.readings, None).Some?
    ensures var latest := LatestReading(w.readings, None).value;
            && latest in w.readings && latest.copies.Some?
            && (w.through.Some? && BaseReading(w.readings, w.through.value).Some? ==>
                 var base := BaseReading(w.readings, w.through.value).value;
                 && base in w.readings && base.copies.Some?
                 && (base.at < latest.at ==> w.through.value < latest.at))
  {
    LatestIsLatest(w.readings, None);
    MembersByIndex(w.readings);
    if w.through.Some? {
      LatestIsLatest(w.readings, w.through);
      EarliestIsEarliest(w.readings, w.through.value);
    }
  }

  lemma RunKeepsStint(w: World, setup: Setup)
    requires HistoryInv(w) && StintInv(w)
    ensures HistoryInv(Ran(w, setup)) && StintInv(Ran(w, setup))
  {
    hide Ran, LatestReading, BaseReading, Ascending, EndsAscend;
    var w' := Ran(w, setup);
    RunsFromBase(w, setup);
    if w' != w {
      BaseAndLatest(w);
      if w.through.None? {
        assert w'.usage[w'.stint..] == [];
        NothingEnds(w'.through.value);
      } else {
        var base, latest := BaseReading(w.readings, w.through.value).value, LatestReading(w.readings, None).value;
        if w'.usage != w.usage {
          var row :| w'.usage == w.usage + [row] && row.start == base.at && row.end == latest.at;
          assert w'.usage[w.stint..] == w.usage[w.stint..] + [row];
          EndsStillAscend(w.usage[w.stint..], row, w.through.value);
        } else {
          LaterWatermark(w.usage[w.stint..], w.through.value, latest.at);
        }
      }
    }
  }

  lemma NothingEnds(through: int)
    ensures EndsAscend([], through)
  {
  }

  lemma LaterWatermark(usage: seq<Usage>, through: int, later: int)
    requires EndsAscend(usage, through) && through <= later
    ensures EndsAscend(usage, later)
  {
  }

  lemma StepKeepsStint(w: World, s: Step)
    requires HistoryInv(w) && StintInv(w) && Enabled(w, s)
    ensures HistoryInv(Apply(w, s)) && StintInv(Apply(w, s))
  {
    hide EndsAscend, Ascending;
    match s {
      case Run(setup) => RunKeepsStint(w, setup);
      case Purge(cutoff) => KeptIsWhatIsNew(w.readings, cutoff);
      case Read(at, reported) => ReadKeepsHistory(w, at, reported);
      case _ =>
    }
  }

  lemma {:induction false} RunKeepsStints(w: World, steps: seq<Step>)
    requires HistoryInv(w) && StintInv(w) && Runs(w, steps)
    ensures HistoryInv(After(w, steps)) && StintInv(After(w, steps))
    decreases |steps|
  {
    hide HistoryInv, StintInv, Enabled, Apply;
    if steps != [] {
      StepKeepsStint(w, steps[0]);
      RunKeepsStints(Apply(w, steps[0]), steps[1..]);
    }
  }

  lemma EveryRunKeepsStints(meter: int, steps: seq<Step>)
    requires Runs(NewDevice(meter), steps)
    ensures HistoryInv(After(NewDevice(meter), steps)) && StintInv(After(NewDevice(meter), steps))
  {
    RunKeepsStints(NewDevice(meter), steps);
  }

  /** Moves included, a run takes the watermark back if and only if it is the first of a
      newly named owner and the printer now linked was last read before the old one. */
  lemma WatermarkMovesBackExactlyWhen(meter: int, steps: seq<Step>, setup: Setup)
    requires Runs(NewDevice(meter), steps) && After(NewDevice(meter), steps).mark.Some?
    ensures var w := After(NewDevice(meter), steps);
            && Ran(w, setup).mark.Some?
            && (Ran(w, setup).mark.value < w.mark.value <==>
                 && w.through.None? && StandsDown(w.owner, setup).None?
                 && LatestReading(w.readings, None).Some? && LatestReading(w.readings, None).value.at < w.mark.value)
  {
    hide LatestReading, BaseReading, EndsAscend, Ascending;
    EveryRunKeepsStints(meter, steps);
    var w := After(NewDevice(meter), steps);
    RunsFromBase(w, setup);
    if LatestReading(w.readings, None).Some? {
      BaseAndLatest(w);
    }
  }

  predicate Overlap(a: Usage, b: Usage) {
    a.start < b.end && b.start < a.end
  }

  /** Some row from `stint` on overlaps `row`. */
  ghost predicate OverlapsSome(usage: seq<Usage>, stint: nat, row: Usage) {
    exists i :: stint <= i < |usage| && Overlap(usage[i], row)
  }

  /** Moves included, a new row overlaps an earlier one of the same owner's counting if
      and only if the printer now linked was read before the last of those rows ended,
      and not again up to the watermark. */
  lemma OverlapExactlyWhenBaseIsOlder(meter: int, steps: seq<Step>, setup: Setup)
    requires Runs(NewDevice(meter), steps)
    requires var w := After(NewDevice(meter), steps); |Ran(w, setup).usage| > |w.usage|
    ensures var w := After(NewDevice(meter), steps);
            && w.through.Some?
            && (OverlapsSome(w.usage, w.stint, Ran(w, setup).usage[|w.usage|]) <==>
                 w.stint < |w.usage| && OnlyReadBefore(w.readings, w.usage[|w.usage| - 1].end, w.through.value))
  {
    hide Ran, Ascending, LatestReading, BaseReading, OverlapsSome, OnlyReadBefore, EndsAscend;
    EveryRunKeepsStints(meter, steps);
    var w := After(NewDevice(meter), steps);
    RunsFromBase(w, setup);
    BaseAndLatest(w);
    OverlapOfBase(w.readings, w.usage, w.stint, Ran(w, setup).usage[|w.usage|], w.through.value);
  }

  /** Some reading with a copy count is after `start`. */
  ghost predicate ReadAfter(readings: seq<Reading>, start: int) {
    exists r :: r in readings && r.copies.Some? && r.at > start
  }

  /** Moves and changes of owner included, a new row overlaps any given earlier one, of
      whatever owner, if and only if the printer now linked was read after that one began,
      and before it ended, but not between its end and the watermark. */
  lemma OverlapExactlyWhen(meter: int, steps: seq<Step>, setup: Setup, i: nat)
    requires Runs(NewDevice(meter), steps) && i < |After(NewDevice(meter), steps).usage|
    requires var w := After(NewDevice(meter), steps); |Ran(w, setup).usage| > |w.usage|
    ensures var w := After(NewDevice(meter), steps);
            && w.through.Some?
            && (Overlap(w.usage[i], Ran(w, setup).usage[|w.usage|]) <==>
                 ReadAfter(w.readings, w.usage[i].start) && OnlyReadBefore(w.readings, w.usage[i].end, w.through.value))
  {
    hide Ran, Ascending, LatestReading, BaseReading, OnlyReadBefore, ReadAfter, EndsAscend;
    EveryRunKeepsStints(meter, steps);
    var w := After(NewDevice(meter), steps);
    RunsFromBase(w, setup);
    BaseAndLatest(w);
    BaseIsOlder(w.readings, w.usage[i].end, w.through.value);
    LatestIsAfter(w.readings, w.usage[i].start);
  }

  lemma LatestIsAfter(readings: seq<Reading>, start: int)
    requires Ascending(readings) && LatestReading(readings, None).Some?
    ensures LatestReading(readings, None).value.at > start <==> ReadAfter(readings, start)
  {
    LatestIsLatest(readings, None);
    hide Ascending, LatestReading;
  }

  lemma OverlapOfBase(readings: seq<Reading>, usage: seq<Usage>, stint: nat, row: Usage, through: int)
    requires Ascending(readings) && stint <= |usage| && EndsAscend(usage[stint..], through) && through < row.end
    requires BaseReading(readings, through).Some? && BaseReading(readings, through).value.at == row.start
    ensures OverlapsSome(usage, stint, row) <==>
              stint < |usage| && OnlyReadBefore(readings, usage[|usage| - 1].end, through)
  {
    hide Ascending, BaseReading, OnlyReadBefore;
    var rows := usage[stint..];
    if stint < |usage| {
      assert rows[|rows| - 1] == usage[|usage| - 1];
      OverlapsTheLast(rows, row, through);
      BaseIsOlder(readings, usage[|usage| - 1].end, through);
      assert forall i :: stint <= i < |usage| ==> usage[i] == rows[i - stint];
      assert forall i :: 0 <= i < |rows| ==> rows[i] == usage[i + stint];
    }
  }

  lemma OverlapsTheLast(rows: seq<Usage>, row: Usage, through: int)
    requires rows != [] && EndsAscend(rows, through) && through < row.end
    ensures rows[|rows| - 1].end <= through
    ensures (exists i :: 0 <= i < |rows| && Overlap(rows[i], row)) <==> row.start < rows[|rows| - 1].end
  {
    var n := |rows| - 1;
    assert forall i :: 0 <= i < |rows| ==> rows[i].end <= rows[n].end;
    if row.start < rows[n].end {
      assert Overlap(rows[n], row);
    }
  }

  /** Some reading with a copy count is before `end`, and none from there to `through`. */
  ghost predicate OnlyReadBefore(readings: seq<Reading>, end: int, through: int) {
    && (exists r :: r in readings && r.copies.Some? && r.at < end)
    && (forall r :: r in readings && r.copies.Some? ==> !(end <= r.at <= through))
  }

  lemma BaseIsOlder(readings: seq<Reading>, end: int, through: int)
    requires Ascending(readings) && BaseReading(readings, through).Some?
    ensures BaseReading(readings, through).value.at < end <==> OnlyReadBefore(readings, end, through)
  {
    LatestIsLatest(readings, Some(through));
    EarliestIsEarliest(readings, through);
    MembersByIndex(readings);
  }

  /** In any run, moves and raising swaps included, a new row gives out the copies made
      between its two readings, on the printer now linked, plus the net shift of that
      meter between them. So it overstates them exactly when the swaps in between raised
      the meter, whose new owner is then charged for pages the old machine never made. */
  lemma OverstatedExactlyWhenRaised(meter: int, steps: seq<Step>, setup: Setup)
    requires Runs(NewDevice(meter), steps)
    requires var w := After(NewDevice(meter), steps); |Ran(w, setup).usage| > |w.usage|
    ensures var w := After(NewDevice(meter), steps);
            var row := Ran(w, setup).usage[|w.usage|];
            && row.start in w.moments && row.end in w.moments && row.start < row.end
            && var from, to := w.moments[row.start], w.moments[row.end];
            && row.pages == (to.copied - from.copied) + (to.shift - from.shift)
            && (row.pages > to.copied - from.copied <==> to.shift > from.shift)
  {
    hide Ran, Ascending, LatestReading, BaseReading, EndsAscend;
    EveryRunKeepsStints(meter, steps);
    var w := After(NewDevice(meter), steps);
    RunsFromBase(w, setup);
    BaseAndLatest(w);
    assert IsTruthful(LatestReading(w.readings, None).value, w.moments);
    assert IsTruthful(BaseReading(w.readings, w.through.value).value, w.moments);
  }

  /** A meter that reads lower than its base was really swapped for a lower one. */
  lemma ResetMeansSwapped(meter: int, steps: seq<Step>, setup: Setup)
    requires Runs(NewDevice(meter), steps)
    requires var w := After(NewDevice(meter), steps);
             w.through.Some? && StandsDown(w.owner, setup).None?
             && Attribute(w.owner.value, w.through, w.readings).result == Baselined(true)
    ensures var w := After(NewDevice(meter), steps);
            exists t, u :: t in w.moments && u in w.moments && t < u && w.moments[u].shift < w.moments[t].shift
  {
    hide Ascending, LatestReading, BaseReading, EndsAscend;
    EveryRunKeepsStints(meter, steps);
    var w := After(NewDevice(meter), steps);
    BaseAndLatest(w);
    var base, latest := BaseReading(w.readings, w.through.value).value, LatestReading(w.readings, None).value;
    assert IsTruthful(latest, w.moments) && IsTruthful(base, w.moments);
    assert w.moments[base.at].copied <= w.moments[latest.at].copied;
  }

  // ---- Two runs that go wrong ----

  lemma {:induction false} RunsInTwo(w: World, a: seq<Step>, b: seq<Step>)
    requires Runs(w, a) && Runs(After(w, a), b)
    ensures Runs(w, a + b) && After(w, a + b) == After(After(w, a), b)
    decreases |a|
  {
    if a == [] {
      assert a + b == b;
    } else {
      assert (a + b)[0] == a[0] && (a + b)[1..] == a[1..] + b;
      RunsInTwo(Apply(w, a[0]), a[1..], b);
    }
  }

  lemma OneStepMore(start: World, done: seq<Step>, w: World, s: Step, next: World)
    requires Runs(start, done) && After(start, done) == w && Enabled(w, s) && Apply(w, s) == next
    ensures Runs(start, done + [s]) && After(start, done + [s]) == next
  {
    assert [s][1..] == [];
    RunsInTwo(start, done, [s]);
  }

  const READY := Setup(false, false, true, true, true, true)

  /** The newest of two readings, and the newer of them at the older one's time. */
  lemma TwoReadings(was: Reading, now: Reading, through: int)
    requires was.copies.Some? && now.copies.Some? && was.at <= through < now.at
    ensures LatestReading([was, now], None) == Some(now) && BaseReading([was, now], through) == Some(was)
  {
    assert [was, now][..1] == [was];
    assert LatestReading([was], Some(through)) == Some(was);
  }

  lemma OneReading(now: Reading)
    requires now.copies.Some?
    ensures LatestReading([now], None) == Some(now)
  {
  }

  /** A run that gives out what two readings differ by. */
  lemma RunBetween(w: World, owner: string, was: Reading, now: Reading)
    requires w.owner == Some(owner) && w.readings == [was, now] && w.through.Some? && was.at <= w.through.value < now.at
    requires was.copies.Some? && now.copies.Some? && was.copies.value < now.copies.value
    ensures var row := Usage(owner, now.copies.value - was.copies.value, was.at, now.at, was.copies.value, now.copies.value);
            Ran(w, READY) == w.(through := Some(now.at), mark := Some(now.at), usage := w.usage + [row])
  {
    hide LatestReading, BaseReading;
    TwoReadings(was, now, w.through.value);
  }

  /** A copier given an owner at time 1, its meter standing at zero. */
  function Owned(): World {
    World([Reading(1, Some(0))], map[1 := Moment(0, 0)], 0, 0, Some("owner"), Some(1), [], Some(1), 1, 0, false, 1)
  }

  lemma OwnedAtOne() returns (steps: seq<Step>)
    ensures Runs(NewDevice(0), steps) && After(NewDevice(0), steps) == Owned()
  {
    hide Runs, After, Ran, LatestReading;
    var w0 := NewDevice(0);
    var w1 := w0.(owner := Some("owner"));
    NothingDone(w0);
    OneStepMore(w0, [], w0, Name(Some("owner")), w1);
    steps := [] + [Name(Some("owner"))];
    var w2 := w1.(readings := [Reading(1, Some(0))], moments := map[1 := Moment(0, 0)], clock := 1);
    OneStepMore(w0, steps, w1, Read(1, true), w2);
    steps := steps + [Read(1, true)];
    FirstRun(w2);
    OneStepMore(w0, steps, w2, Run(READY), Owned());
    steps := steps + [Run(READY)];
  }

  lemma NothingDone(w: World)
    ensures Runs(w, []) && After(w, []) == w
  {
  }

  lemma FirstRun(w: World)
    requires w == Owned().(through := None, mark := None, began := 0)
    ensures Ran(w, READY) == Owned()
  {
    OneReading(Reading(1, Some(0)));
  }

  /** The old machine is swapped for one whose meter stands at 500: its owner, who copied
      nothing, is given 500 pages. */
  lemma RaisingSwapIsBilled() returns (steps: seq<Step>)
    ensures Runs(NewDevice(0), steps)
    ensures var w := After(NewDevice(0), steps);
            w.copied == 0 && |Ran(w, READY).usage| == 1 && Ran(w, READY).usage[0].pages == 500
  {
    hide Runs, After, Ran;
    steps := OwnedAtOne();
    steps := ThenSwapped(steps, Owned());
  }

  lemma ThenSwapped(before: seq<Step>, w: World) returns (steps: seq<Step>)
    requires Runs(NewDevice(0), before) && After(NewDevice(0), before) == w
    requires w.owner == Some("owner") && w.through == Some(1) && w.clock == 1 && w.usage == [] && w.copied == 0
    requires w.readings == [Reading(1, Some(0))]
    ensures Runs(NewDevice(0), steps)
    ensures var end := After(NewDevice(0), steps);
            end.copied == 0 && |Ran(end, READY).usage| == 1 && Ran(end, READY).usage[0].pages == 500
  {
    hide Runs, After, Ran;
    var w0 := NewDevice(0);
    var w1 := Apply(w, Swap(500));
    OneStepMore(w0, before, w, Swap(500), w1);
    steps := before + [Swap(500)];
    var w2 := Apply(w1, Read(2, true));
    OneStepMore(w0, steps, w1, Read(2, true), w2);
    steps := steps + [Read(2, true)];
    var was, now := Reading(1, Some(0)), Reading(2, Some(500));
    assert w2.readings == [was, now];
    RunBetween(w2, "owner", was, now);
  }

  /** Ten copies up to time 10 are given out. Then the copier is linked to a printer last
      read at time 5, and read there again at 12: the next row begins at 5. */
  lemma MovedCopierOverlaps() returns (steps: seq<Step>)
    ensures Runs(NewDevice(0), steps)
    ensures var w := After(NewDevice(0), steps);
            var usage := Ran(w, READY).usage;
            |w.usage| == 1 && |usage| == 2 && usage[0].end == 10 && usage[1].start == 5 && Overlap(usage[0], usage[1])
  {
    hide Runs, After, Ran;
    steps := OwnedAtOne();
    var w0, w1 := NewDevice(0), Owned();
    var w2 := w1.(copied := 10);
    OneStepMore(w0, steps, w1, Copy(10), w2);
    steps := steps + [Copy(10)];
    var was, now := Reading(1, Some(0)), Reading(10, Some(10));
    var w3 := w2.(readings := [was, now], moments := map[1 := Moment(0, 0), 10 := Moment(10, 0)], clock := 10);
    OneStepMore(w0, steps, w2, Read(10, true), w3);
    steps := steps + [Read(10, true)];
    var row := Usage("owner", 10, 1, 10, 0, 10);
    var w4 := w3.(through := Some(10), mark := Some(10), usage := [] + [row]);
    RunBetween(w3, "owner", was, now);
    OneStepMore(w0, steps, w3, Run(READY), w4);
    steps := steps + [Run(READY)];
    steps := ThenMoved(steps, w4, row);
  }

  lemma ThenMoved(before: seq<Step>, w: World, row: Usage) returns (steps: seq<Step>)
    requires Runs(NewDevice(0), before) && After(NewDevice(0), before) == w
    requires w.owner == Some("owner") && w.through == w.mark == Some(10) && w.clock == 10 && w.usage == [row]
    ensures Runs(NewDevice(0), steps) && After(NewDevice(0), steps).usage == [row]
    ensures Ran(After(NewDevice(0), steps), READY).usage == [row, Usage("owner", 30, 5, 12, 100, 130)]
  {
    hide Runs, After, Ran;
    var w0 := NewDevice(0);
    var other, now := Reading(5, Some(100)), Reading(12, Some(130));
    var to := Printer([other], map[5 := Moment(100, 0)], 100, 0);
    var w1 := Linked(w, to);
    OneStepMore(w0, before, w, Relink(to), w1);
    steps := before + [Relink(to)];
    var w2 := w1.(copied := 130);
    OneStepMore(w0, steps, w1, Copy(30), w2);
    steps := steps + [Copy(30)];
    var w3 := w2.(readings := [other, now], moments := map[5 := Moment(100, 0), 12 := Moment(130, 0)], clock := 12);
    OneStepMore(w0, steps, w2, Read(12, true), w3);
    steps := steps + [Read(12, true)];
    RunBetween(w3, "owner", other, now);
    assert [row] + [Usage("owner", 30, 5, 12, 100, 130)] == [row, Usage("owner", 30, 5, 12, 100, 130)];
  }
}
