/** The cycle record and the health marker over the life of a deployment
    (cmd/pg-autodump/main.go, and the end of `Orchestrator.Run` in internal/dump/dump.go):
    boots, completed and cancelled cycles, drains and stops, one server process at a time. */
module Lifecycle {
  import opened Results

  datatype RunRecord = RunRecord(time: int, ok: bool)

  /** What a boot meets: whether the preflight passes, the interval (not positive when
      triggers are external), the clock, and whether the record file opens for writing.
      `ahead` is the library's answer for a record from the future, left open here. */
  datatype Boot = Boot(preflightOk: bool, interval: int, now: int, writable: bool, ahead: nat)

  /** `landed` tells whether a verdict's record could be written. */
  datatype Event =
    | Booted(boot: Boot)
    | Completed(time: int, ok: bool, landed: bool)
    | Cancelled
    | DrainBegun
    | Stopped

  /** The record as read at boot, absent when it is unknown, and the delay until the first
      tick: zero means the startup dump is due. */
  datatype Startup = Startup(last: Option<RunRecord>, remaining: nat)

  /** The library's rule: zero, unless a success is younger than the interval. */
  function Remaining(last: Option<RunRecord>, b: Boot): nat {
    if last.None? || !last.value.ok then 0
    else if last.value.time > b.now then b.ahead
    else if b.now - last.value.time >= b.interval then 0
    else b.interval - (b.now - last.value.time)
  }

  /** A record counts only while a replacement can land. */
  function Trusted(record: Option<RunRecord>, b: Boot): Option<RunRecord> {
    if b.writable then record else None
  }

  /** The record on disk: the last verdict that landed. */
  function RecordOf(r0: Option<RunRecord>, log: seq<Event>): Option<RunRecord> {
    if log == [] then r0 else
    var e := log[|log| - 1];
    if e.Completed? && e.landed then Some(RunRecord(e.time, e.ok)) else RecordOf(r0, log[..|log| - 1])
  }

  /** A process that has begun its drain takes no verdict into its health any more. */
  function Draining(log: seq<Event>): bool {
    if log == [] then false else
    var e := log[|log| - 1];
    !e.Booted? && (e.DrainBegun? || Draining(log[..|log| - 1]))
  }

  /** A boot is healthy when its preflight passes and, with a timer, no startup dump is due;
      without one, when no failure is on record. */
  function HealthyBoot(record: Option<RunRecord>, b: Boot): bool {
    var known := Trusted(record, b);
    b.preflightOk && if b.interval > 0 then Remaining(known, b) > 0 else known.None? || known.value.ok
  }

  /** With a timer, a boot dumps at once unless the record it trusts says otherwise. */
  predicate StartupDumpDue(record: Option<RunRecord>, b: Boot) {
    b.interval > 0 && Remaining(Trusted(record, b), b) == 0
  }

  /** When the timer first ticks after a boot whose startup dump, if due, takes `took`: after
      the remaining delay, or one interval after the startup dump. */
  function FirstTick(record: Option<RunRecord>, b: Boot, took: nat): Option<int> {
    if b.interval <= 0 then None
    else if StartupDumpDue(record, b) then Some(b.now + took + b.interval)
    else Some(b.now + Remaining(Trusted(record, b), b))
  }

  /** The marker the health check reads. */
  function MarkerOf(r0: Option<RunRecord>, log: seq<Event>): bool {
    if log == [] then false else
    var before := log[..|log| - 1];
    match log[|log| - 1]
    case Booted(b) => HealthyBoot(RecordOf(r0, before), b)
    case Completed(_, ok, _) => if Draining(before) then MarkerOf(r0, before) else ok
    case Cancelled => MarkerOf(r0, before)
    case DrainBegun => false
    case Stopped => false
  }

  /** What one more event does. */
  lemma OneMore(r0: Option<RunRecord>, log: seq<Event>, e: Event)
    ensures RecordOf(r0, log + [e])
         == if e.Completed? && e.landed then Some(RunRecord(e.time, e.ok)) else RecordOf(r0, log)
    ensures Draining(log + [e]) <==> !e.Booted? && (e.DrainBegun? || Draining(log))
    ensures e.Booted? ==> MarkerOf(r0, log + [e]) == HealthyBoot(RecordOf(r0, log), e.boot)
    ensures e.Completed? ==> MarkerOf(r0, log + [e]) == if Draining(log) then MarkerOf(r0, log) else e.ok
    ensures e.Cancelled? ==> MarkerOf(r0, log + [e]) == MarkerOf(r0, log)
    ensures e.DrainBegun? || e.Stopped? ==> !MarkerOf(r0, log + [e])
  {
    assert (log + [e])[..|log + [e]| - 1] == log;
  }

  class Server {
    ghost const r0: Option<RunRecord>
    ghost var log: seq<Event>
    /** On disk, it outlives the process. */
    var record: Option<RunRecord>
    var marker: bool
    var latched: bool
    var startup: Startup

    ghost predicate Valid()
      reads this
    {
      record == RecordOf(r0, log) && marker == MarkerOf(r0, log) && latched == Draining(log)
    }

    constructor (r0: Option<RunRecord>)
      ensures Valid() && log == [] && this.r0 == r0
    {
      this.r0, record, log := r0, r0, [];
      marker, latched, startup := false, false, Startup(None, 0);
    }

    method ReadStartupRecord(b: Boot) returns (rec: Startup)
      ensures rec.last == Trusted(record, b)
      ensures rec.remaining == if b.interval > 0 then Remaining(Trusted(record, b), b) else 0
    {
      rec := Startup(record, 0);
      if rec.last.Some? {
        if !b.writable {
          return Startup(None, 0);
        }
      }
      if b.interval > 0 {
        rec := rec.(remaining := Remaining(rec.last, b));
      }
    }

    /** Writes the boot verdict and hands the reading to the timer: the startup dump runs when
        it is due and no shutdown has come, and takes `took`; then the ticks start. */
    method BootUp(b: Boot, shutdown: bool, took: nat)
      returns (healthy: bool, startupDump: bool, firstTick: Option<int>)
      requires Valid()
      modifies this
      ensures Valid() && log == old(log) + [Booted(b)]
      ensures healthy == marker && record == old(record)
      ensures startupDump <==> StartupDumpDue(record, b) && !shutdown
      ensures firstTick == if shutdown then None else FirstTick(record, b, took)
    {
      hide RecordOf, MarkerOf, Draining;
      OneMore(r0, log, Booted(b));
      startup := ReadStartupRecord(b);
      if !b.preflightOk {
        healthy := false;
      } else if b.interval > 0 {
        healthy := startup.remaining > 0;
      } else {
        healthy := startup.last.None? || startup.last.value.ok;
      }
      marker, latched := healthy, false;
      log := log + [Booted(b)];
      startupDump, firstTick := false, None;
      if b.interval > 0 {
        var clock := b.now;
        if startup.remaining == 0 && !shutdown {
          startupDump := true;
          clock := clock + took;
        }
        if !shutdown {
          firstTick := Some(clock + if startup.remaining > 0 then startup.remaining else b.interval);
        }
      }
    }

    /** The end of a cycle: a cancelled one has no verdict. */
    method EndCycle(cancelled: bool, time: int, ok: bool, landed: bool)
      requires Valid()
      modifies this
      ensures Valid() && log == old(log) + [if cancelled then Cancelled else Completed(time, ok, landed)]
      ensures cancelled ==> record == old(record) && marker == old(marker)
      ensures !cancelled && landed ==> record == Some(RunRecord(time, ok))
      ensures !cancelled && !old(latched) ==> marker == ok
    {
      hide RecordOf, MarkerOf, Draining;
      OneMore(r0, log, if cancelled then Cancelled else Completed(time, ok, landed));
      if cancelled {
        log := log + [Cancelled];
        return;
      }
      if landed {
        record := Some(RunRecord(time, ok));
      }
      if !latched {
        marker := ok;
      }
      log := log + [Completed(time, ok, landed)];
    }

    method BeginDrain()
      requires Valid()
      modifies this
      ensures Valid() && log == old(log) + [DrainBegun] && record == old(record) && !marker && latched
    {
      hide RecordOf, MarkerOf, Draining;
      OneMore(r0, log, DrainBegun);
      marker, latched := false, true;
      log := log + [DrainBegun];
    }

    /** An orderly end of the process cleans the marker up. */
    method Stop()
      requires Valid()
      modifies this
      ensures Valid() && log == old(log) + [Stopped] && record == old(record) && !marker
    {
      hide RecordOf, MarkerOf, Draining;
      OneMore(r0, log, Stopped);
      marker := false;
      log := log + [Stopped];
    }
  }

  // Over runs.

  predicate Landed(e: Event) {
    e.Completed? && e.landed
  }

  /** The record is the verdict of the last uncancelled cycle whose write landed, and the
      inherited one exactly when there was none. */
  lemma {:induction false} RecordIsLastVerdict(r0: Option<RunRecord>, log: seq<Event>, k: nat)
    requires k <= |log|
    requires forall m :: k <= m < |log| ==> !Landed(log[m])
    ensures k == 0 ==> RecordOf(r0, log) == r0
    ensures k > 0 && Landed(log[k - 1]) ==> RecordOf(r0, log) == Some(RunRecord(log[k - 1].time, log[k - 1].ok))
  {
    if k < |log| {
      var before := log[..|log| - 1];
      assert forall m :: k <= m < |before| ==> before[m] == log[m];
      RecordIsLastVerdict(r0, before, k);
    }
  }

  predicate Succeeds(e: Event) {
    e.Completed? && e.ok
  }

  /** A record from `time` still holds the startup dump back at this boot. */
  predicate Young(time: int, b: Boot) {
    if time > b.now then b.ahead > 0 else b.now - time < b.interval
  }

  /** Events that land no verdict leave the record alone. */
  lemma {:induction false} RecordKept(r0: Option<RunRecord>, log: seq<Event>, more: seq<Event>)
    requires forall m :: 0 <= m < |more| ==> !Landed(more[m])
    ensures RecordOf(r0, log + more) == RecordOf(r0, log)
  {
    if more == [] {
      assert log + more == log;
    } else {
      assert (log + more)[..|log + more| - 1] == log + more[..|more| - 1];
      RecordKept(r0, log, more[..|more| - 1]);
    }
  }

  predicate AnyLanded(more: seq<Event>) {
    exists m :: 0 <= m < |more| && Landed(more[m])
  }

  lemma LandedLast(more: seq<Event>, e: Event)
    ensures AnyLanded(more + [e]) <==> AnyLanded(more) || Landed(e)
    ensures AnyLanded([e] + more) <==> AnyLanded(more) || Landed(e)
  {
    assert (more + [e])[|more|] == e && ([e] + more)[0] == e;
    assert forall m :: 0 <= m < |more| ==> (more + [e])[m] == more[m] && ([e] + more)[m + 1] == more[m];
  }

  /** While no cycle succeeds, the record is the earlier one until a failure lands, and a
      failure from then on. */
  lemma {:induction false} RecordSince(r0: Option<RunRecord>, log: seq<Event>, more: seq<Event>)
    requires forall m :: 0 <= m < |more| ==> !Succeeds(more[m])
    ensures if AnyLanded(more) then RecordOf(r0, log + more).Some? && !RecordOf(r0, log + more).value.ok
            else RecordOf(r0, log + more) == RecordOf(r0, log)
  {
    hide RecordOf, AnyLanded;
    if more == [] {
      assert log + more == log;
      NoneLanded();
    } else {
      var before, e := more[..|more| - 1], more[|more| - 1];
      assert more == before + [e] && log + more == log + before + [e];
      RecordSince(r0, log, before);
      LandedLast(before, e);
      OneMore(r0, log + before, e);
    }
  }

  lemma NoneLanded()
    ensures !AnyLanded([])
  {
  }

  /** Whether a boot is healthy although no cycle has succeeded since the record was `prior`.
      `landed` tells whether a failure has been recorded since. With a timer the boot must trust a
      young success that no failure has replaced; without one, the record must be unreadable, or
      must still not be a failure. */
  predicate Clears(prior: Option<RunRecord>, landed: bool, b: Boot) {
    && b.preflightOk
    && if b.interval > 0
       then b.writable && !landed && prior.Some? && prior.value.ok && Young(prior.value.time, b)
       else !b.writable || (!landed && (prior.None? || prior.value.ok))
  }

  /** While no cycle succeeds, however many cycles fail, recorded or not, and whatever else
      lies in between, a boot is healthy if and only if it clears. */
  lemma BootAfterFailure(r0: Option<RunRecord>, log: seq<Event>, more: seq<Event>, b: Boot)
    requires forall m :: 0 <= m < |more| ==> !Succeeds(more[m])
    ensures MarkerOf(r0, log + more + [Booted(b)]) <==> Clears(RecordOf(r0, log), AnyLanded(more), b)
  {
    hide MarkerOf, RecordOf, AnyLanded;
    RecordSince(r0, log, more);
    OneMore(r0, log + more, Booted(b));
  }

  lemma {:induction false} DrainingIsDown(r0: Option<RunRecord>, log: seq<Event>)
    ensures Draining(log) ==> !MarkerOf(r0, log)
  {
    if log != [] {
      DrainingIsDown(r0, log[..|log| - 1]);
    }
  }

  /** Event m is a boot that clears, and only cancelled cycles have followed it. */
  ghost predicate ClearedAt(prior: Option<RunRecord>, landed: bool, more: seq<Event>, m: nat) {
    && m < |more| && more[m].Booted?
    && Clears(prior, landed || AnyLanded(more[..m]), more[m].boot)
    && forall k :: m < k < |more| ==> more[k].Cancelled?
  }

  /** After a failed cycle, recorded or not, and until a cycle succeeds, the deployment is healthy
      if and only if its last event but for cancelled cycles is a boot that clears: further
      failures, drains, stops and every other boot leave it unhealthy. */
  lemma {:induction false} UnhealthyUntilSuccess(
    r0: Option<RunRecord>, log: seq<Event>, time: int, landed: bool, more: seq<Event>)
    requires forall m :: 0 <= m < |more| ==> !Succeeds(more[m])
    ensures MarkerOf(r0, log + ([Completed(time, false, landed)] + more))
            <==> exists m :: ClearedAt(RecordOf(r0, log), landed, more, m)
  {
    hide MarkerOf, RecordOf, AnyLanded, Clears;
    var failed := Completed(time, false, landed);
    if more == [] {
      assert [failed] + more == [failed];
      DrainingIsDown(r0, log);
      OneMore(r0, log, failed);
    } else {
      var before, e := more[..|more| - 1], more[|more| - 1];
      UnhealthyUntilSuccess(r0, log, time, landed, before);
      LastDecides(r0, log, time, landed, more);
      assert more == before + [e];
      ClearedLater(RecordOf(r0, log), landed, before, e);
    }
  }

  ghost predicate DrainAt(log: seq<Event>, k: nat) {
    k < |log| && log[k].DrainBegun? && forall m :: k < m < |log| ==> !log[m].Booted?
  }

  /** Whether a drain has begun since the last boot. */
  ghost predicate DrainedSince(log: seq<Event>) {
    exists k: nat :: DrainAt(log, k)
  }

  lemma DrainLater(before: seq<Event>, e: Event)
    ensures DrainedSince(before + [e]) <==> !e.Booted? && (e.DrainBegun? || DrainedSince(before))
  {
    var log := before + [e];
    assert log[|before|] == e;
    forall k: nat | k < |before|
      ensures DrainAt(log, k) <==> !e.Booted? && DrainAt(before, k)
    {
      assert forall m :: 0 <= m < |before| ==> log[m] == before[m];
      assert DrainAt(log, k) ==> !log[|before|].Booted?;
    }
    assert e.DrainBegun? ==> DrainAt(log, |before|);
    hide DrainAt;
    assert forall k: nat :: DrainAt(log, k) ==> k < |log| by {
      DrainAtBound(log);
    }
    if DrainedSince(log) {
      var k: nat :| DrainAt(log, k);
      LastDrain(before, e, k);
    }
  }

  lemma DrainAtBound(log: seq<Event>)
    ensures forall k: nat :: DrainAt(log, k) ==> k < |log|
  {
  }

  lemma LastDrain(before: seq<Event>, e: Event, k: nat)
    requires DrainAt(before + [e], k)
    ensures k == |before| ==> e.DrainBegun?
    ensures k <= |before|
  {
  }

  lemma {:induction false} DrainingIff(log: seq<Event>)
    ensures Draining(log) <==> DrainedSince(log)
  {
    hide DrainedSince;
    if log == [] {
      NeverDrained();
    } else {
      var before, e := log[..|log| - 1], log[|log| - 1];
      DrainingIff(before);
      DrainLater(before, e);
      assert log == before + [e];
    }
  }

  lemma NeverDrained()
    ensures !DrainedSince([])
  {
  }

  /** Event m puts the marker up: a fully successful cycle of a process that is not draining, or
      a boot that trusts what is on record; and only cancelled cycles have followed. */
  ghost predicate RaisedAt(r0: Option<RunRecord>, log: seq<Event>, m: nat) {
    && m < |log|
    && match log[m]
       case Completed(_, ok, _) => ok && !DrainedSince(log[..m])
       case Booted(b) => Clears(RecordOf(r0, log[..m]), false, b)
       case _ => false
  }

  ghost predicate OnlyCancelledAfter(log: seq<Event>, m: nat) {
    forall k :: m < k < |log| ==> log[k].Cancelled?
  }

  lemma LastRaises(r0: Option<RunRecord>, log: seq<Event>)
    requires log != []
    ensures MarkerOf(r0, log) <==>
              || RaisedAt(r0, log, |log| - 1)
              || (log[|log| - 1].Cancelled? && MarkerOf(r0, log[..|log| - 1]))
  {
    hide RecordOf, DrainedSince;
    var before := log[..|log| - 1];
    DrainingIff(before);
    DrainingIsDown(r0, before);
  }

  /** The marker, exactly: it is up if and only if some event put it up and only cancelled cycles
      have followed. */
  lemma {:induction false} MarkerIff(r0: Option<RunRecord>, log: seq<Event>)
    ensures MarkerOf(r0, log) <==> exists m: nat :: RaisedAt(r0, log, m) && OnlyCancelledAfter(log, m)
  {
    if log != [] {
      var before, e := log[..|log| - 1], log[|log| - 1];
      MarkerIff(r0, before);
      LastRaises(r0, log);
      hide MarkerOf, RecordOf, DrainedSince, Clears;
      assert forall m :: 0 <= m < |before| ==> before[m] == log[m] && before[..m] == log[..m];
      if m: nat :| RaisedAt(r0, before, m) && OnlyCancelledAfter(before, m) && e.Cancelled? {
        assert RaisedAt(r0, log, m) && OnlyCancelledAfter(log, m);
      }
      if m: nat :| RaisedAt(r0, log, m) && OnlyCancelledAfter(log, m) && m < |before| {
        assert log[|before|].Cancelled?;
        assert RaisedAt(r0, before, m) && OnlyCancelledAfter(before, m);
      }
      assert RaisedAt(r0, log, |log| - 1) ==> OnlyCancelledAfter(log, |log| - 1);
    }
  }

  /** How the last event moves the marker. */
  lemma LastDecides(r0: Option<RunRecord>, log: seq<Event>, time: int, landed: bool, more: seq<Event>)
    requires more != [] && forall m :: 0 <= m < |more| ==> !Succeeds(more[m])
    ensures var before, e := more[..|more| - 1], more[|more| - 1];
            MarkerOf(r0, log + ([Completed(time, false, landed)] + more)) <==>
              if e.Booted? then Clears(RecordOf(r0, log), landed || AnyLanded(before), e.boot)
              else e.Cancelled? && MarkerOf(r0, log + ([Completed(time, false, landed)] + before))
  {
    hide MarkerOf, RecordOf, AnyLanded, Clears;
    var before, e := more[..|more| - 1], more[|more| - 1];
    var since := [Completed(time, false, landed)] + before;
    assert log + ([Completed(time, false, landed)] + more) == log + since + [e];
    OneMore(r0, log + since, e);
    DrainingIsDown(r0, log + since);
    LandedLast(before, Completed(time, false, landed));
    if e.Booted? {
      BootAfterFailure(r0, log, since, e.boot);
    }
  }

  lemma ClearedLater(prior: Option<RunRecord>, landed: bool, before: seq<Event>, e: Event)
    ensures (exists m :: ClearedAt(prior, landed, before + [e], m)) <==>
              if e.Booted? then Clears(prior, landed || AnyLanded(before), e.boot)
              else e.Cancelled? && exists m :: ClearedAt(prior, landed, before, m)
  {
    hide AnyLanded, Clears;
    var more := before + [e];
    assert more[..|before|] == before && more[|before|] == e;
    assert forall m :: 0 <= m < |before| ==> more[..m] == before[..m] && more[m] == before[m];
    if e.Booted? && Clears(prior, landed || AnyLanded(before), e.boot) {
      assert ClearedAt(prior, landed, more, |before|);
    }
    forall m: nat | m < |before|
      ensures ClearedAt(prior, landed, more, m) <==> e.Cancelled? && ClearedAt(prior, landed, before, m)
    {
      assert more[..m] == before[..m] && more[m] == before[m];
      assert ClearedAt(prior, landed, more, m) ==> more[|before|].Cancelled?;
    }
  }

  /** Inputs on which a restart clears a failure, all with external triggers: the record cannot
      be rewritten; the failure was never recorded, and nothing or an older success was. */
  lemma RestartCanForget()
    ensures var failed := [Completed(0, false, true)];
            !MarkerOf(None, failed) && MarkerOf(None, failed + [Booted(Boot(true, 0, 1, false, 0))])
    ensures var lost := [Completed(1, false, false)];
            !MarkerOf(None, lost) && MarkerOf(None, lost + [Booted(Boot(true, 0, 2, true, 0))])
    ensures var lost := [Completed(0, true, true), Completed(1, false, false)];
            !MarkerOf(None, lost) && MarkerOf(None, lost + [Booted(Boot(true, 0, 2, true, 0))])
  {
    hide MarkerOf, RecordOf;
    OneFailure(0, true);
    OneFailure(1, false);
    RecordsOf(0);
  }

  lemma OneFailure(time: int, landed: bool)
    ensures var log := [Completed(time, false, landed)];
            && !MarkerOf(None, log)
            && RecordOf(None, log) == (if landed then Some(RunRecord(time, false)) else None)
            && (forall b: Boot :: MarkerOf(None, log + [Booted(b)]) == HealthyBoot(RecordOf(None, log), b))
  {
    var log := [Completed(time, false, landed)];
    assert log == [] + [Completed(time, false, landed)];
    OneMore(None, [], Completed(time, false, landed));
    forall b: Boot
      ensures MarkerOf(None, log + [Booted(b)]) == HealthyBoot(RecordOf(None, log), b)
    {
      OneMore(None, log, Booted(b));
    }
  }

  predicate Timed(e: Event) {
    e.Booted? ==> e.boot.interval > 0
  }

  predicate WriteLands(e: Event) {
    e.Completed? ==> e.landed
  }

  /** With a timer and landing writes, a healthy marker means that the last cycle that
      reached a verdict succeeded fully, in whichever process it ran. */
  lemma {:induction false} HealthyMeansLastSucceeded(r0: Option<RunRecord>, log: seq<Event>)
    requires forall m :: 0 <= m < |log| ==> Timed(log[m]) && WriteLands(log[m])
    requires MarkerOf(r0, log)
    ensures RecordOf(r0, log).Some? && RecordOf(r0, log).value.ok && !Draining(log)
  {
    var before, e := log[..|log| - 1], log[|log| - 1];
    assert forall m :: 0 <= m < |before| ==> before[m] == log[m];
    assert Timed(e) && WriteLands(e);
    if MarkerOf(r0, before) {
      HealthyMeansLastSucceeded(r0, before);
    }
  }

  /** After a cycle whose verdict was lost, at whatever boot before the next verdict lands, the
      startup dump is due if and only if there is a timer and the boot does not trust an older
      record of a success that is still young. */
  lemma DueAfterLostVerdict(
    r0: Option<RunRecord>, log: seq<Event>, time: int, ok: bool, more: seq<Event>, b: Boot)
    requires forall m :: 0 <= m < |more| ==> !Landed(more[m])
    ensures var prior := RecordOf(r0, log);
            StartupDumpDue(RecordOf(r0, log + ([Completed(time, ok, false)] + more)), b)
            <==> b.interval > 0
                 && !(b.writable && prior.Some? && prior.value.ok && Young(prior.value.time, b))
  {
    RecordKept(r0, log, [Completed(time, ok, false)] + more);
  }

  /** Inputs on which a lost verdict brings no startup dump: an older young success, the same
      from a future clock, and external triggers. In the first two the boot is healthy too. */
  lemma LostVerdict()
    ensures var young := [Completed(0, true, true), Completed(1, false, false)];
            && !MarkerOf(None, young)
            && MarkerOf(None, young + [Booted(Boot(true, 10, 2, true, 0))])
            && !StartupDumpDue(RecordOf(None, young), Boot(true, 10, 2, true, 0))
    ensures var ahead := [Completed(5, true, true), Completed(1, false, false)];
            && MarkerOf(None, ahead + [Booted(Boot(true, 10, 2, true, 7))])
            && !StartupDumpDue(RecordOf(None, ahead), Boot(true, 10, 2, true, 7))
    ensures !StartupDumpDue(RecordOf(None, [Completed(1, false, false)]), Boot(true, 0, 2, true, 0))
  {
    hide MarkerOf, RecordOf;
    RecordsOf(0);
    RecordsOf(5);
    NoRecord();
  }

  lemma RecordsOf(time: int)
    ensures var log := [Completed(time, true, true), Completed(1, false, false)];
            && RecordOf(None, log) == Some(RunRecord(time, true)) && !MarkerOf(None, log)
            && forall b: Boot :: MarkerOf(None, log + [Booted(b)]) == HealthyBoot(Some(RunRecord(time, true)), b)
  {
    hide RecordOf, MarkerOf;
    var first := [Completed(time, true, true)];
    assert first == [] + [Completed(time, true, true)];
    OneMore(None, [], Completed(time, true, true));
    OneMore(None, first, Completed(1, false, false));
    NotDraining(time);
    assert first + [Completed(1, false, false)] == [Completed(time, true, true), Completed(1, false, false)];
    forall b: Boot
      ensures MarkerOf(None, first + [Completed(1, false, false)] + [Booted(b)])
           == HealthyBoot(Some(RunRecord(time, true)), b)
    {
      OneMore(None, first + [Completed(1, false, false)], Booted(b));
    }
  }

  lemma NotDraining(time: int)
    ensures !Draining([Completed(time, true, true)])
  {
    assert [Completed(time, true, true)][..0] == [];
  }

  lemma NoRecord()
    ensures RecordOf(None, [Completed(1, false, false)]) == None
  {
    assert [Completed(1, false, false)][..0] == [];
  }

  /** In timer mode a boot with a passing preflight is either healthy, with its first tick
      still ahead, or has its startup dump due: no unhealthy boot waits for a tick. */
  lemma UnhealthyBootDumps(r0: Option<RunRecord>, log: seq<Event>, b: Boot)
    requires b.interval > 0 && b.preflightOk
    ensures !MarkerOf(r0, log + [Booted(b)]) <==> StartupDumpDue(RecordOf(r0, log), b)
  {
    OneMore(r0, log, Booted(b));
  }

  /** The last success a boot can know of: the one at `time` if it was recorded. */
  function Known(prior: Option<RunRecord>, time: int, landed: bool): Option<RunRecord> {
    if landed then Some(RunRecord(time, true)) else prior
  }

  /** The first tick is one interval after `time`: when the boot trusts a young success, the
      record's tick must fall there, and otherwise the startup dump must have taken no time
      since. */
  predicate KeepsTick(known: Option<RunRecord>, time: int, b: Boot, took: nat) {
    if b.writable && known.Some? && known.value.ok && Young(known.value.time, b) then
      if known.value.time > b.now then b.now + b.ahead == time + b.interval else known.value.time == time
    else b.now + took == time
  }

  /** What restarts do to the cadence, exactly. After a success at `time`, recorded or not, and
      whatever follows without landing another verdict, a boot less than one interval later
      dumps at once if and only if it trusts no young success, and keeps the tick under the
      condition above. When the success was recorded, that comes down to a record that can be
      rewritten. */
  lemma RestartsKeepCadence(
    r0: Option<RunRecord>, log: seq<Event>, time: int, landed: bool, more: seq<Event>, b: Boot, took: nat)
    requires forall m :: 0 <= m < |more| ==> !Landed(more[m])
    requires time <= b.now < time + b.interval
    ensures var record := RecordOf(r0, log + [Completed(time, true, landed)] + more);
            var known := Known(RecordOf(r0, log), time, landed);
            && (StartupDumpDue(record, b)
                <==> !(b.writable && known.Some? && known.value.ok && Young(known.value.time, b)))
            && (FirstTick(record, b, took) == Some(time + b.interval) <==> KeepsTick(known, time, b, took))
            && (landed ==> (StartupDumpDue(record, b) <==> !b.writable))
            && (landed ==> (KeepsTick(known, time, b, took) <==> b.writable || b.now + took == time))
  {
    hide RecordOf;
    RecordKept(r0, log + [Completed(time, true, landed)], more);
    OneMore(r0, log, Completed(time, true, landed));
  }

  /** Inputs: two units after a success, with an interval of ten, a boot that cannot rewrite the
      record, or whose success was never recorded, dumps at once and ticks first at 12 or later,
      instead of at 10. */
  lemma RestartCanMoveCadence(took: nat)
    ensures var record, b := RecordOf(None, [Completed(0, true, true)]), Boot(true, 10, 2, false, 0);
            StartupDumpDue(record, b) && FirstTick(record, b, took) == Some(12 + took)
    ensures var record, b := RecordOf(None, [Completed(0, true, false)]), Boot(true, 10, 2, true, 0);
            StartupDumpDue(record, b) && FirstTick(record, b, took) == Some(12 + took)
  {
    assert [Completed(0, true, true)][..0] == [] && [Completed(0, true, false)][..0] == [];
  }

  /** Once a drain has begun the marker stays down until the next boot, whatever completes. */
  lemma {:induction false} DrainLatches(r0: Option<RunRecord>, log: seq<Event>, more: seq<Event>)
    requires forall m :: 0 <= m < |more| ==> !more[m].Booted?
    ensures Draining(log + [DrainBegun] + more) && !MarkerOf(r0, log + [DrainBegun] + more)
  {
    var all := log + [DrainBegun] + more;
    if more == [] {
      assert all == log + [DrainBegun];
    } else {
      assert all[..|all| - 1] == log + [DrainBegun] + more[..|more| - 1];
      assert !all[|all| - 1].Booted?;
      DrainLatches(r0, log, more[..|more| - 1]);
    }
  }
}
