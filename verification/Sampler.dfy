/**
 The resource sampler of internal/metrics/sampler.go: at every tick it records the counters and the
 rates since the previous tick. Times are nanoseconds; floating point is modelled by reals.
 */
module Sampler {

  datatype Sample = Sample(tMillis: int, rssBytes: int, cpuPct: real, inFlight: int, bytesCum: int, gbps: real)

  /** What the loop reads when the ticker fires. */
  datatype Tick = Tick(now: int, cpu: int, rss: int, bytes: int, inFlight: int)

  const NANOS_PER_SECOND := 1_000_000_000
  const NANOS_PER_MILLI := 1_000_000

  function Seconds(d: int): real {
    d as real / NANOS_PER_SECOND as real
  }

  /** Duration.Milliseconds truncates toward zero. */
  function Milliseconds(d: int): int {
    if d >= 0 then d / NANOS_PER_MILLI else -(-d / NANOS_PER_MILLI)
  }

  /** Bits per nanosecond for delta bytes in an interval of d nanoseconds; 0 for an interval of no length. */
  function Gbps(delta: int, d: int): real {
    var dt := Seconds(d);
    if dt > 0.0 then delta as real * 8.0 / dt / 1e9 else 0.0
  }

  /** CPU time per wall time in percent of all cores; 0 for an interval of no length. */
  function CpuPct(cpu: int, d: int, cores: int): real
    requires cores >= 1
  {
    var dt := Seconds(d);
    if dt > 0.0 then Seconds(cpu) / dt / cores as real * 100.0 else 0.0
  }

  /** The CPU seconds that a load amounts to over d nanoseconds. */
  function CpuSecondsAt(cpuPct: real, d: int, cores: int): real {
    cpuPct / 100.0 * cores as real * Seconds(d)
  }

  /** The bytes that a rate amounts to over d nanoseconds. */
  function BytesAt(gbps: real, d: int): real {
    gbps * Seconds(d) * 1e9 / 8.0
  }

  /** The sample taken at tick t when the previous one was at tick p. */
  function Observe(start: int, cores: int, p: Tick, t: Tick): Sample
    requires cores >= 1
  {
    var d := t.now - p.now;
    Sample(Milliseconds(t.now - start), t.rss, CpuPct(t.cpu - p.cpu, d, cores), t.inFlight, t.bytes, Gbps(t.bytes - p.bytes, d))
  }

  /** The tick before tick k; before the first one, what the loop read when it started. */
  function Previous(first: Tick, ticks: seq<Tick>, k: nat): Tick
    requires k <= |ticks|
  {
    if k == 0 then first else ticks[k - 1]
  }

  /** All samples of a run that started by reading `first`. */
  function Samples(cores: int, first: Tick, ticks: seq<Tick>): (samples: seq<Sample>)
    requires cores >= 1
    ensures |samples| == |ticks|
  {
    seq(|ticks|, k requires 0 <= k < |ticks| => Observe(first.now, cores, Previous(first, ticks, k), ticks[k]))
  }

  class Sampler {
    var samples: seq<Sample>

    constructor ()
      ensures samples == []
    {
      samples := [];
    }

    /** The sampling goroutine over the ticks it receives before it is stopped. */
    method Loop(numCPU: int, first: Tick, ticks: seq<Tick>)
      modifies this
      ensures samples == old(samples) + Samples(if numCPU < 1 then 1 else numCPU, first, ticks)
    {
      var cores := numCPU;
      if cores < 1 {
        cores := 1;
      }
      var prevT, prevCPU, prevBytes := first.now, first.cpu, first.bytes;
      ghost var all := Samples(cores, first, ticks);
      for k := 0 to |ticks|
        invariant var p := Previous(first, ticks, k); prevT == p.now && prevCPU == p.cpu && prevBytes == p.bytes
        invariant samples == old(samples) + all[..k]
      {
        var t := ticks[k];
        var dt := Seconds(t.now - prevT);
        var cpuPct, gbps := 0.0, 0.0;
        if dt > 0.0 {
          cpuPct := Seconds(t.cpu - prevCPU) / dt / cores as real * 100.0;
          gbps := (t.bytes - prevBytes) as real * 8.0 / dt / 1e9;
        }
        assert cpuPct == CpuPct(t.cpu - prevCPU, t.now - prevT, cores) && gbps == Gbps(t.bytes - prevBytes, t.now - prevT);
        samples := samples + [Sample(Milliseconds(t.now - first.now), t.rss, cpuPct, t.inFlight, t.bytes, gbps)];
        prevT, prevCPU, prevBytes := t.now, t.cpu, t.bytes;
        assert all[..k + 1] == all[..k] + [all[k]];
      }
    }
  }

  // ---------------------------------------------------------------- what a sample says

  lemma GbpsIsBitsPerNano(delta: int, d: int)
    requires d > 0
    ensures Gbps(delta, d) * d as real == 8.0 * delta as real
  {
    var dt := Seconds(d);
    assert dt * 1_000_000_000.0 == d as real;
    var q := delta as real * 8.0 / dt;
    assert q * dt == delta as real * 8.0;
    var g := q / 1e9;
    assert g * 1e9 == q;
    assert g * d as real == g * 1e9 * dt;
  }

  lemma CpuPctIsShare(cpu: int, d: int, cores: int)
    requires d > 0 && cores >= 1
    ensures CpuPct(cpu, d, cores) * d as real * cores as real == 100.0 * cpu as real
  {
    var dt, c := Seconds(d), cores as real;
    assert dt * 1_000_000_000.0 == d as real;
    var a := Seconds(cpu) / dt;
    assert a * dt == Seconds(cpu);
    assert Seconds(cpu) * 1_000_000_000.0 == cpu as real;
    var b := a / c;
    assert b * c == a;
    assert b * 100.0 * d as real * c == 100.0 * (b * c) * d as real;
    assert a * d as real == a * dt * 1_000_000_000.0;
  }

  /**
   Every sample in nanoseconds and bytes: the readings are those of its tick; the throughput is 8 bits for
   every byte, per nanosecond, and the load is the CPU time in percent of what all cores have, both over
   the interval since the tick before; the time is that since the start in whole milliseconds.
   */
  lemma SampleIsExact(cores: int, first: Tick, ticks: seq<Tick>, k: nat)
    requires cores >= 1 && k < |ticks|
    ensures var s, t, p := Samples(cores, first, ticks)[k], ticks[k], if k == 0 then first else ticks[k - 1];
            var d := t.now - p.now;
            && s.rssBytes == t.rss && s.inFlight == t.inFlight && s.bytesCum == t.bytes
            && (d > 0 ==> s.gbps * d as real == 8.0 * (t.bytes - p.bytes) as real)
            && (d > 0 ==> s.cpuPct * d as real * cores as real == 100.0 * (t.cpu - p.cpu) as real)
            && (d <= 0 ==> s.gbps == 0.0 && s.cpuPct == 0.0)
            && (t.now >= first.now ==> s.tMillis * 1_000_000 <= t.now - first.now < (s.tMillis + 1) * 1_000_000)
  {
    var t, p := ticks[k], Previous(first, ticks, k);
    assert Samples(cores, first, ticks)[k] == Observe(first.now, cores, p, t);
    if t.now > p.now {
      GbpsIsBitsPerNano(t.bytes - p.bytes, t.now - p.now);
      CpuPctIsShare(t.cpu - p.cpu, t.now - p.now, cores);
    }
  }

  // ---------------------------------------------------------------- nothing is lost between samples

  /** The bytes a reader of the time series gets by integrating the throughput over the first k intervals. */
  function Integrated(cores: int, first: Tick, ticks: seq<Tick>, k: nat): real
    requires cores >= 1 && k <= |ticks|
  {
    if k == 0 then 0.0
    else
      Integrated(cores, first, ticks, k - 1)
      + BytesAt(Samples(cores, first, ticks)[k - 1].gbps, ticks[k - 1].now - Previous(first, ticks, k - 1).now)
  }

  /** The bytes that moved in intervals of no length, to which no rate can be given. */
  function Unrated(first: Tick, ticks: seq<Tick>, k: nat): int
    requires k <= |ticks|
  {
    if k == 0 then 0
    else
      var p, t := Previous(first, ticks, k - 1), ticks[k - 1];
      Unrated(first, ticks, k - 1) + if t.now <= p.now then t.bytes - p.bytes else 0
  }

  lemma RateTimesTime(delta: int, d: int)
    ensures BytesAt(Gbps(delta, d), d) == if d > 0 then delta as real else 0.0
  {
    var dt := Seconds(d);
    if d > 0 {
      var q := delta as real * 8.0 / dt;
      assert q * dt == delta as real * 8.0;
      assert q / 1e9 * dt == q * dt / 1e9;
    }
  }

  /**
   The throughput series integrates back to the byte counter: over the first k intervals it accounts
   for the whole growth of BytesCum, except what moved in intervals of no length.
   */
  lemma {:induction false} ThroughputIntegrates(cores: int, first: Tick, ticks: seq<Tick>, k: nat)
    requires cores >= 1 && k <= |ticks|
    ensures Integrated(cores, first, ticks, k) + Unrated(first, ticks, k) as real
            == (Previous(first, ticks, k).bytes - first.bytes) as real
  {
    if k > 0 {
      ThroughputIntegrates(cores, first, ticks, k - 1);
      var p, t := Previous(first, ticks, k - 1), ticks[k - 1];
      RateTimesTime(t.bytes - p.bytes, t.now - p.now);
      assert Samples(cores, first, ticks)[k - 1].gbps == Gbps(t.bytes - p.bytes, t.now - p.now);
    }
  }

  lemma LastBytes(cores: int, first: Tick, ticks: seq<Tick>)
    requires cores >= 1 && ticks != []
    ensures Samples(cores, first, ticks)[|ticks| - 1].bytesCum == Previous(first, ticks, |ticks|).bytes
  {}

  /** Among the first k intervals, none of no length moved a byte. */
  predicate NoneUnrated(first: Tick, ticks: seq<Tick>, k: nat)
    requires k <= |ticks|
  {
    forall j :: 0 <= j < k && ticks[j].now <= Previous(first, ticks, j).now ==> ticks[j].bytes == Previous(first, ticks, j).bytes
  }

  lemma {:induction false} UnratedExactlyIf(first: Tick, ticks: seq<Tick>, k: nat)
    requires Growing(first, ticks) && k <= |ticks|
    ensures Unrated(first, ticks, k) >= 0
    ensures Unrated(first, ticks, k) == 0 <==> NoneUnrated(first, ticks, k)
  {
    if k > 0 {
      UnratedExactlyIf(first, ticks, k - 1);
      assert NoneUnrated(first, ticks, k) ==> NoneUnrated(first, ticks, k - 1);
      assert Previous(first, ticks, k - 1).bytes <= ticks[k - 1].bytes;
    }
  }

  /**
   For a counter that only grows, the series integrates to the last BytesCum minus the value at the start
   if and only if no interval of no length moved a byte; otherwise it accounts for less.
   */
  lemma SeriesIsExactExactlyIf(cores: int, first: Tick, ticks: seq<Tick>)
    requires cores >= 1 && ticks != [] && Growing(first, ticks)
    ensures var grown := (Samples(cores, first, ticks)[|ticks| - 1].bytesCum - first.bytes) as real;
            && Integrated(cores, first, ticks, |ticks|) <= grown
            && (Integrated(cores, first, ticks, |ticks|) == grown <==> NoneUnrated(first, ticks, |ticks|))
  {
    LastBytes(cores, first, ticks);
    ThroughputIntegrates(cores, first, ticks, |ticks|);
    UnratedExactlyIf(first, ticks, |ticks|);
  }

  /** Two ticks with one time stamp: the bytes seen first by the second of them are in no rate. */
  lemma SeriesMayLoseBytes(cores: int, bytes: int)
    requires cores >= 1 && bytes > 0
    ensures var first, ticks := Tick(0, 0, 0, 0, 0), [Tick(1, 0, 0, 0, 1), Tick(1, 0, 0, bytes, 1)];
            Integrated(cores, first, ticks, 2) == 0.0 && Samples(cores, first, ticks)[1].bytesCum == bytes
  {
    var first, ticks := Tick(0, 0, 0, 0, 0), [Tick(1, 0, 0, 0, 1), Tick(1, 0, 0, bytes, 1)];
    ThroughputIntegrates(cores, first, ticks, 2);
    assert Unrated(first, ticks, 1) == 0;
    assert Unrated(first, ticks, 2) == bytes;
  }

  predicate StrictlyOrdered(first: Tick, ticks: seq<Tick>) {
    forall k :: 0 <= k < |ticks| ==> Previous(first, ticks, k).now < ticks[k].now
  }

  /** With ticks at distinct times the series loses nothing: it integrates to the last BytesCum minus the value at the start. */
  lemma SeriesIsExact(cores: int, first: Tick, ticks: seq<Tick>)
    requires cores >= 1 && ticks != [] && StrictlyOrdered(first, ticks)
    ensures Integrated(cores, first, ticks, |ticks|)
            == (Samples(cores, first, ticks)[|ticks| - 1].bytesCum - first.bytes) as real
  {
    LastBytes(cores, first, ticks);
    NothingUnrated(first, ticks, |ticks|);
    ThroughputIntegrates(cores, first, ticks, |ticks|);
  }

  lemma {:induction false} NothingUnrated(first: Tick, ticks: seq<Tick>, k: nat)
    requires StrictlyOrdered(first, ticks) && k <= |ticks|
    ensures Unrated(first, ticks, k) == 0
  {
    if k > 0 {
      NothingUnrated(first, ticks, k - 1);
    }
  }

  lemma LoadTimesTime(cpu: int, d: int, cores: int)
    requires d > 0 && cores >= 1
    ensures CpuSecondsAt(CpuPct(cpu, d, cores), d, cores) == Seconds(cpu)
  {
    var dt, c := Seconds(d), cores as real;
    var q := Seconds(cpu) / dt;
    var load := q / c;
    assert load * c == q;
    assert q * dt == Seconds(cpu);
    assert load * 100.0 / 100.0 == load;
  }

  /** The CPU seconds that the load of sample k stands for. */
  function LoadOf(cores: int, first: Tick, ticks: seq<Tick>, k: nat): real
    requires cores >= 1 && k < |ticks|
  {
    CpuSecondsAt(Samples(cores, first, ticks)[k].cpuPct, ticks[k].now - Previous(first, ticks, k).now, cores)
  }

  /** Every sample's load stands for exactly the CPU time used in its interval, whatever the number of cores. */
  lemma LoadIsExact(cores: int, first: Tick, ticks: seq<Tick>, k: nat)
    requires cores >= 1 && k < |ticks| && Previous(first, ticks, k).now < ticks[k].now
    ensures LoadOf(cores, first, ticks, k) == Seconds(ticks[k].cpu - Previous(first, ticks, k).cpu)
  {
    var p, t := Previous(first, ticks, k), ticks[k];
    LoadTimesTime(t.cpu - p.cpu, t.now - p.now, cores);
    assert Samples(cores, first, ticks)[k] == Observe(first.now, cores, p, t);
  }

  /** The CPU seconds a reader of the time series gets by adding up the load of the first k samples. */
  function CpuIntegrated(cores: int, first: Tick, ticks: seq<Tick>, k: nat): real
    requires cores >= 1 && k <= |ticks|
  {
    if k == 0 then 0.0 else CpuIntegrated(cores, first, ticks, k - 1) + LoadOf(cores, first, ticks, k - 1)
  }

  /** With ticks at distinct times the load series adds up to the CPU time used since the start, whatever the number of cores. */
  lemma {:induction false} LoadIntegrates(cores: int, first: Tick, ticks: seq<Tick>, k: nat)
    requires cores >= 1 && k <= |ticks| && StrictlyOrdered(first, ticks)
    ensures CpuIntegrated(cores, first, ticks, k) == Seconds(Previous(first, ticks, k).cpu - first.cpu)
  {
    if k > 0 {
      LoadIntegrates(cores, first, ticks, k - 1);
      LoadIsExact(cores, first, ticks, k - 1);
    }
  }

  // ---------------------------------------------------------------- what the samples of a run look like

  predicate Ordered(first: Tick, ticks: seq<Tick>) {
    forall k :: 0 <= k < |ticks| ==> Previous(first, ticks, k).now <= ticks[k].now
  }

  /** The counters only grow. */
  predicate Growing(first: Tick, ticks: seq<Tick>) {
    forall k :: 0 <= k < |ticks| ==>
      Previous(first, ticks, k).bytes <= ticks[k].bytes && Previous(first, ticks, k).cpu <= ticks[k].cpu
  }

  predicate TimesOrdered(samples: seq<Sample>) {
    && (samples != [] ==> 0 <= samples[0].tMillis)
    && forall k :: 0 < k < |samples| ==> samples[k - 1].tMillis <= samples[k].tMillis
  }

  lemma {:induction false} NoEarlierThanFirst(first: Tick, ticks: seq<Tick>, k: nat)
    requires Ordered(first, ticks) && k <= |ticks|
    ensures first.now <= Previous(first, ticks, k).now
  {
    if k > 0 {
      NoEarlierThanFirst(first, ticks, k - 1);
    }
  }

  /** Ticks in order give sample times in order, from 0 on, and growing counters give rates that are not negative. */
  lemma SamplesAreWellFormed(cores: int, first: Tick, ticks: seq<Tick>)
    requires cores >= 1 && Ordered(first, ticks)
    ensures TimesOrdered(Samples(cores, first, ticks))
    ensures Growing(first, ticks) ==>
              forall k :: 0 <= k < |ticks| ==> Samples(cores, first, ticks)[k].gbps >= 0.0 && Samples(cores, first, ticks)[k].cpuPct >= 0.0
  {
    var samples := Samples(cores, first, ticks);
    forall k | 0 <= k < |ticks| ensures k == 0 ==> 0 <= samples[k].tMillis {
      NoEarlierThanFirst(first, ticks, k + 1);
    }
    forall k | 0 < k < |ticks| ensures samples[k - 1].tMillis <= samples[k].tMillis {
      NoEarlierThanFirst(first, ticks, k);
      NoEarlierThanFirst(first, ticks, k + 1);
      MillisecondsOrdered(ticks[k - 1].now - first.now, ticks[k].now - first.now);
    }
    if Growing(first, ticks) {
      forall k | 0 <= k < |ticks| ensures samples[k].gbps >= 0.0 && samples[k].cpuPct >= 0.0 {
        RatesNotNegative(first.now, cores, Previous(first, ticks, k), ticks[k]);
      }
    }
  }

  lemma MillisecondsOrdered(a: int, b: int)
    requires 0 <= a <= b
    ensures Milliseconds(a) <= Milliseconds(b)
  {}

  lemma RatesNotNegative(start: int, cores: int, p: Tick, t: Tick)
    requires cores >= 1 && p.bytes <= t.bytes && p.cpu <= t.cpu
    ensures Observe(start, cores, p, t).gbps >= 0.0 && Observe(start, cores, p, t).cpuPct >= 0.0
  {
    var dt := Seconds(t.now - p.now);
    if dt > 0.0 {
      var cpu := Seconds(t.cpu - p.cpu);
      assert cpu / dt >= 0.0;
      assert (cpu / dt) / cores as real >= 0.0;
      assert (t.bytes - p.bytes) as real * 8.0 / dt >= 0.0;
    }
  }
}
