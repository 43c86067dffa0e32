/** The time bounds of cmd/pg-autodump/main.go and the lower bounds internal/config puts
    under them. A duration is a number of nanoseconds in a signed 64-bit integer. */
module Runtime {
  import Arith
  import Makespan

  const MAX_INT64: int := 0x7FFF_FFFF_FFFF_FFFF
  const TWO_TO_THE_64: int := 0x1_0000_0000_0000_0000

  const SECOND: int := 1_000_000_000
  const PROBE_TIMEOUT_CAP: int := 10 * SECOND
  const CYCLE_SLACK: int := 30 * SECOND
  const MIN_DUMP_TIMEOUT: int := 10 * SECOND
  const DEFAULT_DUMP_TIMEOUT: int := 300 * SECOND
  const CYCLE_QUEUE_CAPACITY: int := 1

  predicate Int64(x: int) {
    -MAX_INT64 - 1 <= x <= MAX_INT64
  }

  /** The value a 64-bit register holds after an operation whose exact result is x. */
  function Wrap64(x: int): (r: int)
    ensures Int64(r)
    ensures Int64(x) ==> r == x
  {
    (x + MAX_INT64 + 1) % TWO_TO_THE_64 - MAX_INT64 - 1
  }

  /** Integer division that truncates toward zero. */
  function TruncDiv(a: int, b: int): int
    requires b > 0
  {
    if a >= 0 then a / b else -((-a) / b)
  }

  function Min(a: int, b: int): int { if a <= b then a else b }

  function Max(a: int, b: int): int { if a >= b then a else b }

  /** `specs` is the number of configured databases. */
  datatype Config = Config(dumpTimeout: int, concurrency: int, specs: nat)

  function ScaleSaturating(d: int, n: int): int {
    if d <= 0 || n <= 0 then 0
    else if d > MAX_INT64 / n then MAX_INT64
    else Wrap64(d * n)
  }

  function AddSaturating(a: int, b: int): int {
    if a > Wrap64(MAX_INT64 - b) then MAX_INT64 else Wrap64(a + b)
  }

  function DumpTime(cfg: Config): int {
    var concurrency := Max(cfg.concurrency, 1);
    var waves := if cfg.specs > 0 then TruncDiv(Wrap64(Wrap64(cfg.specs + concurrency) - 1), concurrency) else 1;
    var perDB := AddSaturating(cfg.dumpTimeout, Min(PROBE_TIMEOUT_CAP, cfg.dumpTimeout));
    ScaleSaturating(perDB, waves)
  }

  function CycleRuntime(cfg: Config): int {
    AddSaturating(DumpTime(cfg), CYCLE_SLACK)
  }

  function TriggerTimeout(cfg: Config): int {
    AddSaturating(CycleRuntime(cfg), ScaleSaturating(DumpTime(cfg), CYCLE_QUEUE_CAPACITY))
  }

  // What configuration loading guarantees.

  /** An integer setting: not parseable, not present, or a 64-bit value. */
  datatype Setting = Malformed | Unset | Value(value: int)

  function LoadDumpTimeout(s: Setting): int {
    match s
    case Malformed => DEFAULT_DUMP_TIMEOUT
    case Unset => DEFAULT_DUMP_TIMEOUT
    case Value(secs) =>
      if secs <= 0 then DEFAULT_DUMP_TIMEOUT
      else if Wrap64(secs * SECOND) < MIN_DUMP_TIMEOUT then MIN_DUMP_TIMEOUT
      else Wrap64(secs * SECOND)
  }

  function LoadPositiveInt(s: Setting, default: int): int {
    match s
    case Malformed => default
    case Unset => default
    case Value(n) => if n < 1 then default else n
  }

  /** Every configuration that loading can return. */
  ghost predicate Loaded(cfg: Config) {
    && MIN_DUMP_TIMEOUT <= cfg.dumpTimeout <= MAX_INT64
    && 1 <= cfg.concurrency <= MAX_INT64
    && cfg.specs <= MAX_INT64
  }

  lemma LoadingGivesLoaded(timeout: Setting, concurrency: Setting, specs: nat)
    requires timeout.Value? ==> Int64(timeout.value)
    requires concurrency.Value? ==> Int64(concurrency.value)
    requires specs <= MAX_INT64
    ensures Loaded(Config(LoadDumpTimeout(timeout), LoadPositiveInt(concurrency, 2), specs))
  {
  }

  /** What loading makes of the settings: a timeout that is missing, malformed or not positive
      is 300 seconds, one that fits 64 bits is taken but for the minimum of ten seconds, and a
      positive concurrency is taken as it is, any other is two. */
  lemma LoadingIs(timeout: Setting, concurrency: Setting)
    ensures !timeout.Value? || timeout.value <= 0 ==> LoadDumpTimeout(timeout) == 300_000_000_000
    ensures timeout.Value? && 0 < timeout.value < 10 ==> LoadDumpTimeout(timeout) == 10_000_000_000
    ensures timeout.Value? && 10 <= timeout.value <= 9_223_372_036 ==>
      LoadDumpTimeout(timeout) == timeout.value * 1_000_000_000
    ensures LoadPositiveInt(concurrency, 2)
         == if concurrency.Value? && concurrency.value >= 1 then concurrency.value else 2
  {
  }

  /** An accepted number of seconds is honoured exactly while its nanoseconds fit 64 bits;
      beyond that the product wraps before it is compared with the minimum. */
  lemma TimeoutHonoured(secs: int)
    requires 10 <= secs <= MAX_INT64
    ensures LoadDumpTimeout(Value(secs)) == secs * SECOND <==> secs * SECOND <= MAX_INT64
  {
  }

  /** The smallest timeout that is not honoured: its nanoseconds wrap to a negative number, and
      the minimum is loaded instead. */
  lemma SmallestLostTimeout()
    ensures LoadDumpTimeout(Value(9_223_372_037)) == MIN_DUMP_TIMEOUT != 9_223_372_037 * SECOND
    ensures forall secs :: 10 <= secs < 9_223_372_037 ==> LoadDumpTimeout(Value(secs)) == secs * SECOND
  {
  }

  // The exact bounds.

  function PerDatabase(cfg: Config): int {
    cfg.dumpTimeout + Min(PROBE_TIMEOUT_CAP, cfg.dumpTimeout)
  }

  /** One wave at least, otherwise ceil(specs / concurrency). */
  function ExactWaves(cfg: Config): int {
    if cfg.specs == 0 then 1 else (cfg.specs + Max(cfg.concurrency, 1) - 1) / Max(cfg.concurrency, 1)
  }

  function ExactDumpTime(cfg: Config): int {
    PerDatabase(cfg) * ExactWaves(cfg)
  }

  /** The rounding term of the wave count fits 64 bits. */
  predicate WavesFit(cfg: Config) {
    cfg.specs == 0 || cfg.specs + Max(cfg.concurrency, 1) - 1 <= MAX_INT64
  }

  lemma AddIsExact(a: int, b: int)
    requires 0 <= a <= MAX_INT64 && 0 <= b <= MAX_INT64
    ensures AddSaturating(a, b) == Min(MAX_INT64, a + b)
  {
  }

  lemma ScaleIsExact(d: int, n: int)
    requires 0 < d <= MAX_INT64 && 0 < n <= MAX_INT64
    ensures ScaleSaturating(d, n) == Min(MAX_INT64, d * n)
  {
    var q := MAX_INT64 / n;
    assert MAX_INT64 == n * q + MAX_INT64 % n;
    if d > q {
      Arith.MulMono(q + 1, d, n);
    } else {
      Arith.MulMono(d, q, n);
      Arith.MulMono(0, d, n);
    }
  }

  lemma ExactWavesPositive(cfg: Config)
    requires Loaded(cfg)
    ensures 1 <= ExactWaves(cfg)
    ensures WavesFit(cfg) ==> ExactWaves(cfg) <= MAX_INT64
  {
    if cfg.specs > 0 {
      var c := cfg.concurrency;
      Arith.DivMono(c, cfg.specs + c - 1, c);
      Arith.DivIs(c, c, 1, 0);
      if WavesFit(cfg) {
        Arith.DivAntitone(cfg.specs + c - 1, 1, c);
      }
    }
  }

  /** The saturated product of a saturated factor is the saturated exact product. */
  lemma ScaleAfterSaturation(exact: int, n: int)
    requires exact > 0 && 0 < n <= MAX_INT64
    ensures ScaleSaturating(Min(MAX_INT64, exact), n) == Min(MAX_INT64, exact * n)
  {
    ScaleIsExact(Min(MAX_INT64, exact), n);
    Arith.MulMono(1, n, Min(MAX_INT64, exact));
    Arith.MulMono(MAX_INT64, Max(MAX_INT64, exact), n);
  }

  /** When the rounding term overflows the wave count comes out non-positive. */
  lemma OverflowGivesZero(cfg: Config)
    requires Loaded(cfg) && !WavesFit(cfg)
    ensures DumpTime(cfg) == 0
  {
    var c := cfg.concurrency;
    var wrapped := Wrap64(Wrap64(cfg.specs + c) - 1);
    assert wrapped == cfg.specs + c - 1 - TWO_TO_THE_64;
    assert wrapped < 0;
    Arith.DivMono(0, -wrapped, c);
    Arith.DivIs(0, c, 0, 0);
  }

  /** The modelled dump time is the exact bound, saturated, if and only if the plain
      addition in the wave count does not overflow. */
  lemma DumpTimeExact(cfg: Config)
    requires Loaded(cfg)
    ensures DumpTime(cfg) == Min(MAX_INT64, ExactDumpTime(cfg)) <==> WavesFit(cfg)
    ensures 0 < ExactDumpTime(cfg)
  {
    hide DumpTime, PerDatabase, ExactWaves, WavesFit;
    ExactWavesPositive(cfg);
    PerDatabasePositive(cfg);
    Arith.MulMono(1, ExactWaves(cfg), PerDatabase(cfg));
    if WavesFit(cfg) {
      FittingDumpTime(cfg);
    } else {
      OverflowGivesZero(cfg);
    }
  }

  lemma PerDatabasePositive(cfg: Config)
    requires Loaded(cfg)
    ensures PerDatabase(cfg) > 0
  {
  }

  /** When the rounding term fits, nothing wraps on the way to the wave count. */
  lemma FittingDumpTime(cfg: Config)
    requires Loaded(cfg) && WavesFit(cfg)
    ensures DumpTime(cfg) == Min(MAX_INT64, ExactDumpTime(cfg))
  {
    hide ScaleSaturating, AddSaturating, Wrap64;
    ExactWavesPositive(cfg);
    PerDatabasePositive(cfg);
    AddIsExact(cfg.dumpTimeout, Min(PROBE_TIMEOUT_CAP, cfg.dumpTimeout));
    if cfg.specs > 0 {
      WavesDoNotWrap(cfg.specs, cfg.concurrency);
    }
    ScaleAfterSaturation(PerDatabase(cfg), ExactWaves(cfg));
  }

  /** The sum may pass the largest integer by one and come back. */
  lemma WavesDoNotWrap(specs: int, c: int)
    requires specs > 0 && c >= 1 && specs + c - 1 <= MAX_INT64
    ensures Wrap64(Wrap64(specs + c) - 1) == specs + c - 1
  {
  }

  /** Two databases with the largest concurrency: the bound collapses to zero. */
  lemma OverflowExample()
    ensures Loaded(Config(DEFAULT_DUMP_TIMEOUT, MAX_INT64, 2))
    ensures DumpTime(Config(DEFAULT_DUMP_TIMEOUT, MAX_INT64, 2)) == 0
    ensures ExactDumpTime(Config(DEFAULT_DUMP_TIMEOUT, MAX_INT64, 2)) == 310 * SECOND
  {
    var cfg := Config(DEFAULT_DUMP_TIMEOUT, MAX_INT64, 2);
    OverflowGivesZero(cfg);
    Arith.DivIs(MAX_INT64 + 1, MAX_INT64, 1, 1);
  }

  /** Both composed bounds are the exact ones, saturated, under the same condition. */
  lemma ComposedBoundsExact(cfg: Config)
    requires Loaded(cfg)
    ensures CycleRuntime(cfg) == Min(MAX_INT64, ExactDumpTime(cfg) + CYCLE_SLACK) <==> WavesFit(cfg)
    ensures (TriggerTimeout(cfg) == Min(MAX_INT64, (1 + CYCLE_QUEUE_CAPACITY) * ExactDumpTime(cfg) + CYCLE_SLACK))
            <==> WavesFit(cfg)
    ensures CYCLE_SLACK <= CycleRuntime(cfg) <= TriggerTimeout(cfg)
  {
    DumpTimeExact(cfg);
    if !WavesFit(cfg) {
      OverflowGivesZero(cfg);
    }
    AddIsExact(DumpTime(cfg), CYCLE_SLACK);
    if DumpTime(cfg) > 0 {
      ScaleIsExact(DumpTime(cfg), CYCLE_QUEUE_CAPACITY);
    }
    AddIsExact(CycleRuntime(cfg), DumpTime(cfg));
  }

  lemma FittingBoundsMonotone(small: Config, large: Config)
    requires Loaded(small) && Loaded(large) && WavesFit(small) && WavesFit(large)
    requires small.specs <= large.specs && small.dumpTimeout <= large.dumpTimeout
    requires small.concurrency >= large.concurrency
    ensures 0 < DumpTime(small) <= DumpTime(large)
    ensures CycleRuntime(small) <= CycleRuntime(large)
    ensures TriggerTimeout(small) <= TriggerTimeout(large)
  {
    WavesMonotone(small, large);
    ExactWavesPositive(small);
    Arith.MulMono(PerDatabase(small), PerDatabase(large), ExactWaves(small));
    Arith.MulMono(ExactWaves(small), ExactWaves(large), PerDatabase(large));
    DumpTimeExact(small);
    DumpTimeExact(large);
    ComposedBoundsExact(small);
    ComposedBoundsExact(large);
  }

  /** Overflow leaves only the slack, which every fitting bound exceeds. */
  lemma OverflowLeavesSlack(cfg: Config)
    requires Loaded(cfg)
    ensures !WavesFit(cfg) ==> DumpTime(cfg) == 0 && CycleRuntime(cfg) == TriggerTimeout(cfg) == CYCLE_SLACK
    ensures WavesFit(cfg) ==> DumpTime(cfg) > 0 && CycleRuntime(cfg) > CYCLE_SLACK && TriggerTimeout(cfg) > CYCLE_SLACK
  {
    DumpTimeExact(cfg);
    ComposedBoundsExact(cfg);
    if !WavesFit(cfg) {
      OverflowGivesZero(cfg);
    }
  }

  /** More databases, a longer timeout or fewer permits never shorten a bound, if and only if
      they do not push the rounding term over 64 bits when it did fit before. */
  lemma BoundsMonotone(small: Config, large: Config)
    requires Loaded(small) && Loaded(large)
    requires small.specs <= large.specs && small.dumpTimeout <= large.dumpTimeout
    requires small.concurrency >= large.concurrency
    ensures DumpTime(small) <= DumpTime(large) <==> WavesFit(large) || !WavesFit(small)
    ensures CycleRuntime(small) <= CycleRuntime(large) <==> WavesFit(large) || !WavesFit(small)
    ensures TriggerTimeout(small) <= TriggerTimeout(large) <==> WavesFit(large) || !WavesFit(small)
  {
    hide DumpTime, CycleRuntime, TriggerTimeout;
    OverflowLeavesSlack(small);
    OverflowLeavesSlack(large);
    if WavesFit(small) && WavesFit(large) {
      FittingBoundsMonotone(small, large);
    }
  }

  /** The input: under the largest concurrency a second database takes the bound from 310
      seconds to nothing. */
  lemma SecondDatabaseShortens()
    ensures var one := Config(DEFAULT_DUMP_TIMEOUT, MAX_INT64, 1);
            Loaded(one) && Loaded(one.(specs := 2))
            && DumpTime(one) == 310 * SECOND && DumpTime(one.(specs := 2)) == 0
  {
    var one := Config(DEFAULT_DUMP_TIMEOUT, MAX_INT64, 1);
    OverflowExample();
    DumpTimeExact(one);
    Arith.DivIs(MAX_INT64, MAX_INT64, 1, 0);
  }

  lemma WavesMonotone(small: Config, large: Config)
    requires Loaded(small) && Loaded(large)
    requires small.specs <= large.specs && small.concurrency >= large.concurrency
    ensures ExactWaves(small) <= ExactWaves(large)
  {
    ExactWavesPositive(large);
    if small.specs > 0 {
      CeilAntitone(small.specs, large.concurrency, small.concurrency);
      var c := large.concurrency;
      Arith.DivMono(small.specs + c - 1, large.specs + c - 1, c);
    }
  }

  /** ceil(a / n) == (a - 1) / n + 1, which falls as n grows. */
  lemma CeilAntitone(a: int, m: int, n: int)
    requires a >= 1 && 1 <= m <= n
    ensures (a + n - 1) / n <= (a + m - 1) / m
  {
    Arith.DivStep(a - 1, m);
    Arith.DivStep(a - 1, n);
    Arith.DivAntitone(a - 1, m, n);
  }

  /** One database under the defaults: 310 seconds of dumping, 340 for the cycle, and 650 for a
      trigger that waits out a queued cycle as well. */
  lemma OneDatabase()
    ensures var cfg := Config(300_000_000_000, 2, 1);
            && DumpTime(cfg) == 310_000_000_000
            && CycleRuntime(cfg) == 340_000_000_000
            && TriggerTimeout(cfg) == 650_000_000_000
  {
  }

  // The bound and the pool.

  /** The permits the orchestrator gives the pool for `valid` dispatchable databases. */
  function Clamp(v: int, lo: int, hi: int): int {
    Min(hi, Max(lo, v))
  }

  /** A cycle's pool, which runs only the valid databases under clamped permits, never
      outlasts the exact bound for the whole configuration, nor, while the rounding term fits
      64 bits, the dump time the program bills for it. */
  lemma PoolFitsDumpTime(cfg: Config, t: Makespan.Timing, events: seq<Makespan.TimedEvent>)
    requires Loaded(cfg)
    requires 1 <= |t.config.targets| <= cfg.specs
    requires t.config.permits == Clamp(cfg.concurrency, 1, |t.config.targets|)
    requires t.bound == PerDatabase(cfg) && |t.durations| == |t.config.targets|
    requires forall j :: 0 <= j < |t.durations| ==> t.durations[j] <= t.bound
    requires Makespan.TimedExec(t, events).Some?
    ensures Makespan.TimedExec(t, events).value.clock <= ExactDumpTime(cfg)
    ensures WavesFit(cfg) ==>
      Makespan.TimedExec(t, events).value.clock <= DumpTime(cfg) || DumpTime(cfg) == MAX_INT64
  {
    Makespan.MakespanBound(t, events);
    ClampedWaves(cfg, |t.config.targets|);
    Arith.MulMono(Makespan.Waves(|t.durations|, t.config.permits), ExactWaves(cfg), t.bound);
    DumpTimeExact(cfg);
  }

  lemma ClampedWaves(cfg: Config, valid: nat)
    requires Loaded(cfg) && 1 <= valid <= cfg.specs
    ensures Makespan.Waves(valid, Clamp(cfg.concurrency, 1, valid)) <= ExactWaves(cfg)
  {
    var n := Clamp(cfg.concurrency, 1, valid);
    if n == valid {
      Arith.DivIs(valid + n - 1, n, 1, n - 1);
      ExactWavesPositive(cfg);
    } else {
      Arith.DivMono(valid + n - 1, cfg.specs + n - 1, n);
    }
  }
}
