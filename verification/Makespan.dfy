/** How long the pool takes: internal/dump/pool.go with a clock.

    Job j runs for `durations[j]`. Time stands still while the dispatcher or an unwinding
    worker can move, so a free permit is used at once; it passes only while every possible
    event is a running dump's return or a cancellation. */
module Makespan {
  import opened Results
  import opened Pool
  import Arith

  datatype Timing = Timing(config: Config, durations: seq<nat>, bound: nat)

  datatype Timed = Timed(pool: State, clock: nat, start: map<nat, nat>)

  datatype TimedEvent = Do(event: Event) | Tick(amount: nat)

  ghost predicate ValidTiming(t: Timing) {
    && t.config.permits >= 1
    && |t.durations| == |t.config.targets|
    && forall j :: 0 <= j < |t.durations| ==> t.durations[j] <= t.bound
  }

  /** Nothing can happen without time passing, except a running dump's return or a cancel. */
  ghost predicate Quiet(c: Config, s: State) {
    forall e: Event :: Enabled(c, s, e) ==> e.Cancel? || e.Finish?
  }

  /** When the dump of job j ends. */
  function EndOf(t: Timing, s: Timed, j: nat): nat
    requires j < |t.durations| && j in s.start
  {
    s.start[j] + t.durations[j]
  }

  ghost predicate Possible(t: Timing, s: Timed, e: TimedEvent)
    requires ValidTiming(t)
  {
    match e
    case Do(Finish(j, r)) =>
      Enabled(t.config, s.pool, Finish(j, r)) && j < |t.durations| && j in s.start && s.clock == EndOf(t, s, j)
    case Do(other) => Enabled(t.config, s.pool, other)
    case Tick(d) =>
      && d > 0 && s.pool.pc != Returned && Quiet(t.config, s.pool)
      && forall j :: j in Executing(s.pool) && j < |t.durations| && j in s.start ==> s.clock + d <= EndOf(t, s, j)
  }

  ghost function Advance(t: Timing, s: Timed, e: TimedEvent): Timed
    requires ValidTiming(t) && Possible(t, s, e)
  {
    match e
    case Do(Launch) => Timed(Apply(t.config, s.pool, Launch), s.clock, s.start[s.pool.next := s.clock])
    case Do(other) => s.(pool := Apply(t.config, s.pool, other))
    case Tick(d) => s.(clock := s.clock + d)
  }

  ghost function TimedExec(t: Timing, events: seq<TimedEvent>): Option<Timed>
    requires ValidTiming(t)
  {
    if events == [] then Some(Timed(Init(t.config), 0, map[])) else
    match TimedExec(t, events[..|events| - 1])
    case None => None
    case Some(s) =>
      var e := events[|events| - 1];
      if Possible(t, s, e) then Some(Advance(t, s, e)) else None
  }

  /** The number of the wave job j falls in when n run at a time. */
  function Wave(j: nat, n: nat): nat
    requires n >= 1
  {
    j / n
  }

  /** ceil(count / n). */
  function Waves(count: nat, n: nat): nat
    requires n >= 1
  {
    Wave(count + n - 1, n)
  }

  /** Every started job started by its wave. */
  ghost predicate StartsOnTime(t: Timing, s: Timed)
    requires ValidTiming(t)
  {
    && (forall j :: j in s.start <==> 0 <= j < s.pool.next)
    && (forall j :: j in s.start ==> s.start[j] <= s.clock && s.start[j] <= Wave(j, t.config.permits) * t.bound)
  }

  /** No executing job is past its end. */
  ghost predicate RunningOnTime(t: Timing, s: Timed) {
    forall j :: j in Executing(s.pool) ==> j in s.start && j < |t.durations| && s.clock <= EndOf(t, s, j)
  }

  /** The dispatcher is not late for the next job. */
  ghost predicate NextOnTime(t: Timing, s: Timed)
    requires ValidTiming(t)
  {
    s.pool.pc.Checking? || s.pool.pc.Selecting? || s.pool.pc.Launching? ==>
      s.clock <= Wave(s.pool.next, t.config.permits) * t.bound
  }

  ghost predicate TimedInv(t: Timing, s: Timed)
    requires ValidTiming(t)
  {
    && Inv(t.config, s.pool)
    && StartsOnTime(t, s) && RunningOnTime(t, s) && NextOnTime(t, s)
    && s.clock <= Waves(|t.durations|, t.config.permits) * t.bound
  }

  lemma WaveMono(a: nat, b: nat, n: nat, d: nat)
    requires a <= b && n >= 1
    ensures Wave(a, n) * d <= Wave(b, n) * d
  {
    Arith.DivMono(a, b, n);
    Arith.MulMono(Wave(a, n), Wave(b, n), d);
  }

  lemma WaveStep(j: nat, n: nat, d: nat)
    requires n >= 1
    ensures Wave(j + n, n) * d == Wave(j, n) * d + d
  {
    Arith.DivStep(j, n);
    assert (Wave(j, n) + 1) * d == Wave(j, n) * d + d;
  }

  /** A job started by its wave and at least n places before `next` ends by the wave of `next`. */
  lemma EndsByWave(start: nat, duration: nat, j: nat, next: nat, n: nat, d: nat)
    requires n >= 1 && j + n <= next && duration <= d && start <= Wave(j, n) * d
    ensures start + duration <= Wave(next, n) * d
  {
    WaveStep(j, n, d);
    WaveMono(j + n, next, n, d);
  }

  /** While time may pass the dispatcher is stuck on a full semaphore or waiting for
      workers, and every live worker is inside its dump. */
  lemma QuietShape(c: Config, s: State)
    requires Inv(c, s) && Quiet(c, s) && s.pc != Returned
    ensures forall j :: j in s.live ==> j in Executing(s)
    ensures (s.pc == Selecting && |s.held| == c.permits && s.held <= s.live) || (s.pc == Draining && s.live != {})
  {
    forall j | j in s.live
      ensures j in Executing(s)
    {
      assert !Enabled(c, s, Release(j)) && !Enabled(c, s, Exit(j));
    }
    assert !Enabled(c, s, Check) && !Enabled(c, s, Launch) && !Enabled(c, s, SelectPermit) && !Enabled(c, s, Return);
  }

  /** n jobs with indices below `next` hold all n permits, so one of them was started at
      least n places before `next`. */
  lemma OldHolder(held: set<nat>, next: nat, n: nat) returns (j: nat)
    requires |held| == n && n >= 1
    requires forall k :: k in held ==> k < next
    ensures j in held && j + n <= next
  {
    if forall k :: k in held ==> k + n > next {
      var lo := if next + 1 >= n then next + 1 - n else 0;
      RangeCardinality(held, lo, next);
      assert false;
    }
    j :| j in held && j + n <= next;
  }

  lemma TickKeepsInv(t: Timing, s: Timed, d: nat)
    requires ValidTiming(t) && TimedInv(t, s) && Possible(t, s, Tick(d))
    ensures TimedInv(t, Advance(t, s, Tick(d)))
  {
    hide Wave;
    var n, next := t.config.permits, s.pool.next;
    var last := |t.durations| + n - 1;
    QuietShape(t.config, s.pool);
    var j: nat;
    if s.pool.pc == Selecting {
      j := OldHolder(s.pool.held, next, n);
      EndsByWave(s.start[j], t.durations[j], j, next, n, t.bound);
      WaveMono(next, last, n, t.bound);
    } else {
      j :| j in s.pool.live;
    }
    EndsByWave(s.start[j], t.durations[j], j, last, n, t.bound);
  }

  lemma LaunchKeepsTimed(t: Timing, s: Timed)
    requires ValidTiming(t) && TimedInv(t, s) && Possible(t, s, Do(Launch))
    requires Inv(t.config, Apply(t.config, s.pool, Launch))
    ensures TimedInv(t, Advance(t, s, Do(Launch)))
  {
    hide Wave, Quiet, Inv, Executing, RunningOnTime;
    WaveMono(s.pool.next, s.pool.next + 1, t.config.permits, t.bound);
    LaunchRunsOnTime(t, s);
  }

  lemma LaunchRunsOnTime(t: Timing, s: Timed)
    requires ValidTiming(t) && TimedInv(t, s) && Possible(t, s, Do(Launch))
    ensures RunningOnTime(t, Advance(t, s, Do(Launch)))
  {
    LaunchingNext(t.config, s.pool);
    hide Wave, Quiet, Inv, StartsOnTime, NextOnTime;
    var after := Advance(t, s, Do(Launch));
    forall j | j in Executing(after.pool)
      ensures j in after.start && j < |t.durations| && after.clock <= EndOf(t, after, j)
    {
      assert j == s.pool.next || j in Executing(s.pool);
    }
  }

  lemma LaunchingNext(c: Config, s: State)
    requires Inv(c, s) && s.pc == Launching
    ensures s.next < |c.targets| && s.next !in s.live && s.next !in s.written
  {
  }

  /** The events that start no dump; those that end one take it off the running. */
  lemma OtherKeepsTimed(t: Timing, s: Timed, e: Event)
    requires ValidTiming(t) && TimedInv(t, s) && Possible(t, s, Do(e)) && !e.Launch?
    requires Inv(t.config, Apply(t.config, s.pool, e))
    ensures TimedInv(t, Advance(t, s, Do(e)))
  {
    hide Wave, Quiet, Inv, CountsUp, SkippedResult;
    var after := Advance(t, s, Do(e));
    assert after.start == s.start && after.clock == s.clock && after.pool.next == s.pool.next;
    assert Executing(after.pool) <= Executing(s.pool);
  }

  lemma DoKeepsInv(t: Timing, s: Timed, e: Event)
    requires ValidTiming(t) && TimedInv(t, s) && Possible(t, s, Do(e))
    ensures TimedInv(t, Advance(t, s, Do(e)))
  {
    hide Wave, Quiet, Inv, Executing, Advance;
    StepKeepsInv(t.config, s.pool, e);
    if e.Launch? {
      LaunchKeepsTimed(t, s);
    } else {
      OtherKeepsTimed(t, s, e);
    }
  }

  lemma {:induction false} ReachableTimedInv(t: Timing, events: seq<TimedEvent>)
    requires ValidTiming(t) && TimedExec(t, events).Some?
    ensures TimedInv(t, TimedExec(t, events).value)
  {
    if events != [] {
      ReachableTimedInv(t, events[..|events| - 1]);
      var s := TimedExec(t, events[..|events| - 1]).value;
      match events[|events| - 1]
      case Do(e) => DoKeepsInv(t, s, e);
      case Tick(d) => TickKeepsInv(t, s, d);
    }
  }

  /** List scheduling: whatever the durations up to `bound`, and whether or not the run is
      cancelled on the way, job j starts by floor(j/n) * bound and the clock never passes
      ceil(count/n) * bound. */
  lemma MakespanBound(t: Timing, events: seq<TimedEvent>)
    requires ValidTiming(t) && TimedExec(t, events).Some?
    ensures var s := TimedExec(t, events).value;
            && s.clock <= Waves(|t.durations|, t.config.permits) * t.bound
            && forall j :: j in s.start ==> s.start[j] <= Wave(j, t.config.permits) * t.bound
  {
    ReachableTimedInv(t, events);
  }

  /** The clock is never stuck: a run that has not returned can always take an event other
      than a cancellation, or let time pass. */
  lemma TimeMovesOn(t: Timing, events: seq<TimedEvent>)
    requires ValidTiming(t) && TimedExec(t, events).Some?
    requires TimedExec(t, events).value.pool.pc != Returned
    ensures exists e: TimedEvent :: e != Do(Cancel) && Possible(t, TimedExec(t, events).value, e)
  {
    ReachableTimedInv(t, events);
    var s := TimedExec(t, events).value;
    if !Quiet(t.config, s.pool) {
      var e: Event :| Enabled(t.config, s.pool, e) && !e.Cancel? && !e.Finish?;
      assert Possible(t, s, Do(e));
    } else if j: nat :| j in Executing(s.pool) && s.clock == EndOf(t, s, j) {
      assert Possible(t, s, Do(Finish(j, SkippedResult(t.config.targets[j]))));
    } else {
      assert Possible(t, s, Tick(1));
    }
  }

  /** Job j starts no earlier than its wave when every duration is at least `floor`. */
  ghost predicate StartsAbove(t: Timing, s: Timed, floor: nat)
    requires ValidTiming(t)
  {
    forall j :: j in s.start ==> Wave(j, t.config.permits) * floor <= s.start[j]
  }

  /** A finished dump's end lies in the past. */
  ghost predicate EndedInPast(t: Timing, s: Timed) {
    forall j :: j in s.pool.written ==> j in s.start && j < |t.durations| && EndOf(t, s, j) <= s.clock
  }

  ghost predicate FloorInv(t: Timing, s: Timed, floor: nat)
    requires ValidTiming(t)
  {
    TimedInv(t, s) && StartsAbove(t, s, floor) && EndedInPast(t, s)
  }

  /** When the dispatcher holds a permit for `next`, at most n - 1 earlier dumps are still
      running, so one of the n jobs before `next` has finished. */
  lemma RecentlyFinished(c: Config, s: State) returns (j: nat)
    requires Inv(c, s) && s.pc == Launching && c.permits >= 1 && s.next >= c.permits
    ensures j in s.written && s.next <= j + c.permits
  {
    var n := c.permits;
    if forall k :: s.next - n <= k < s.next ==> k !in s.written {
      var recent := set k: nat | s.next - n <= k < s.next && k in s.held;
      forall k: nat | s.next - n <= k < s.next
        ensures k in recent
      {
        assert k !in s.written;
      }
      ExactRange(recent, s.next - n, s.next);
      Arith.SubsetCardinality(recent + {s.next}, s.held);
      assert false;
    }
    j :| s.next - n <= j < s.next && j in s.written;
  }

  lemma {:induction false} ExactRange(a: set<nat>, lo: nat, hi: nat)
    requires lo <= hi
    requires forall x :: x in a <==> lo <= x < hi
    ensures |a| == hi - lo
    decreases hi - lo
  {
    if lo < hi {
      ExactRange(a - {hi - 1}, lo, hi - 1);
    }
  }

  lemma FirstWave(j: nat, n: nat)
    requires j < n
    ensures Wave(j, n) == 0
  {
    Arith.DivIs(j, n, 0, j);
  }

  lemma LaunchKeepsFloor(t: Timing, s: Timed, floor: nat)
    requires ValidTiming(t) && FloorInv(t, s, floor) && s.pool.pc == Launching
    requires forall j :: 0 <= j < |t.durations| ==> floor <= t.durations[j]
    ensures Wave(s.pool.next, t.config.permits) * floor <= s.clock
  {
    hide Wave, Inv, Executing, Quiet;
    var n, next := t.config.permits, s.pool.next;
    if next >= n {
      var j := RecentlyFinished(t.config, s.pool);
      WaveStep(j, n, floor);
      WaveMono(next, j + n, n, floor);
      assert floor <= t.durations[j];
    } else {
      FirstWave(next, n);
    }
  }

  lemma NoWaves(n: nat)
    requires n >= 1
    ensures Waves(0, n) == 0
  {
    Arith.DivIs(n - 1, n, 0, n - 1);
  }

  lemma StartsStayAbove(t: Timing, s: Timed, e: TimedEvent, floor: nat)
    requires ValidTiming(t) && StartsAbove(t, s, floor) && Possible(t, s, e)
    requires e == Do(Launch) ==> Wave(s.pool.next, t.config.permits) * floor <= s.clock
    ensures StartsAbove(t, Advance(t, s, e), floor)
  {
    hide Wave, Quiet, Executing, Inv;
  }

  lemma WrittenHaveEnded(t: Timing, s: Timed, e: TimedEvent)
    requires ValidTiming(t) && Bookkeeping(t.config, s.pool) && EndedInPast(t, s) && Possible(t, s, e)
    ensures EndedInPast(t, Advance(t, s, e))
  {
    hide Quiet, Executing;
    match e
    case Tick(_) =>
    case Do(p) => WrittenHaveEndedThen(t, s, p);
  }

  lemma WrittenHaveEndedThen(t: Timing, s: Timed, e: Event)
    requires ValidTiming(t) && Bookkeeping(t.config, s.pool) && EndedInPast(t, s) && Possible(t, s, Do(e))
    ensures EndedInPast(t, Advance(t, s, Do(e)))
  {
    hide Quiet, Executing, SkippedResult;
    match e
    case Launch => assert s.pool.next !in s.pool.written;
    case Finish(j, _) =>
    case _ =>
  }

  lemma StepKeepsFloor(t: Timing, s: Timed, e: TimedEvent, floor: nat)
    requires ValidTiming(t) && FloorInv(t, s, floor) && Possible(t, s, e)
    requires TimedInv(t, Advance(t, s, e))
    requires forall j :: 0 <= j < |t.durations| ==> floor <= t.durations[j]
    ensures FloorInv(t, Advance(t, s, e), floor)
  {
    hide Wave, Quiet;
    if e == Do(Launch) {
      LaunchKeepsFloor(t, s, floor);
    }
    StartsStayAbove(t, s, e, floor);
    WrittenHaveEnded(t, s, e);
    hide Advance, TimedInv, Possible;
  }

  lemma {:induction false} ReachableFloorInv(t: Timing, events: seq<TimedEvent>, floor: nat)
    requires ValidTiming(t) && TimedExec(t, events).Some?
    requires forall j :: 0 <= j < |t.durations| ==> floor <= t.durations[j]
    ensures FloorInv(t, TimedExec(t, events).value, floor)
  {
    ReachableTimedInv(t, events);
    if events != [] {
      ReachableFloorInv(t, events[..|events| - 1], floor);
      StepKeepsFloor(t, TimedExec(t, events[..|events| - 1]).value, events[|events| - 1], floor);
    }
  }

  /** The bound is attained: when every dump takes exactly `bound` and nobody cancels, the
      pool returns at ceil(count/n) * bound on the dot. */
  lemma MakespanIsTight(t: Timing, events: seq<TimedEvent>)
    requires ValidTiming(t) && TimedExec(t, events).Some?
    requires forall j :: 0 <= j < |t.durations| ==> t.durations[j] == t.bound
    requires TimedExec(t, events).value.pool.pc == Returned && !TimedExec(t, events).value.pool.cancelled
    ensures TimedExec(t, events).value.clock == Waves(|t.durations|, t.config.permits) * t.bound
  {
    hide TimedExec, Wave, Quiet;
    ReachableFloorInv(t, events, t.bound);
    var s, n, count := TimedExec(t, events).value, t.config.permits, |t.durations|;
    if count == 0 {
      NoWaves(n);
    } else {
      assert count - 1 in s.pool.written;
      WaveStep(count - 1, n, t.bound);
    }
  }
}
