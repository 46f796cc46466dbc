/** The loop of cmd/tmbench/main.go, run, that puts the samples of consecutive phases on one time axis. */
module Timeline {
  import opened Sampler

  function Shifted(samples: seq<Sample>, offset: int): (shifted: seq<Sample>)
    ensures |shifted| == |samples|
  {
    seq(|samples|, k requires 0 <= k < |samples| => samples[k].(tMillis := samples[k].tMillis + offset))
  }

  /** Where the next phase begins: one sampling interval after the last sample so far. */
  function NextOffset(all: seq<Sample>, interval: int): int {
    if all == [] then 0 else all[|all| - 1].tMillis + interval
  }

  /** The first k phases on one axis. */
  function Joined(phases: seq<seq<Sample>>, interval: int, k: nat): seq<Sample>
    requires k <= |phases|
  {
    if k == 0 then []
    else
      var all := Joined(phases, interval, k - 1);
      all + Shifted(phases[k - 1], NextOffset(all, interval))
  }

  /** The accumulation loop, given what each phase returned and the sampling interval in milliseconds. */
  method Concatenate(phases: seq<seq<Sample>>, interval: int) returns (allSamples: seq<Sample>)
    ensures allSamples == Joined(phases, interval, |phases|)
  {
    allSamples := [];
    var tOffset := 0;
    for k := 0 to |phases|
      invariant allSamples == Joined(phases, interval, k)
      invariant tOffset == NextOffset(allSamples, interval)
    {
      var samples := phases[k];
      ghost var before := allSamples;
      ghost var shifted := Shifted(samples, tOffset);
      for j := 0 to |samples|
        invariant allSamples == before + shifted[..j]
      {
        var s := samples[j];
        s := s.(tMillis := s.tMillis + tOffset);
        allSamples := allSamples + [s];
        assert shifted[..j + 1] == shifted[..j] + [shifted[j]];
      }
      if |samples| > 0 {
        tOffset := allSamples[|allSamples| - 1].tMillis + interval;
      }
    }
  }

  /** Phases whose own times are in order stay in order on the joint axis. */
  lemma {:induction false} JoinedInOrder(phases: seq<seq<Sample>>, interval: int, k: nat)
    requires interval >= 0 && k <= |phases|
    requires forall p :: 0 <= p < |phases| ==> TimesOrdered(phases[p])
    ensures TimesOrdered(Joined(phases, interval, k))
  {
    if k > 0 {
      JoinedInOrder(phases, interval, k - 1);
      var all := Joined(phases, interval, k - 1);
      NoEarlierThanZero(all);
      var next := Shifted(phases[k - 1], NextOffset(all, interval));
      var joined := all + next;
      forall j | 0 < j < |joined| ensures joined[j - 1].tMillis <= joined[j].tMillis {
        if j < |all| {
          assert joined[j] == all[j] && joined[j - 1] == all[j - 1];
        } else if j > |all| {
          assert phases[k - 1][j - |all| - 1].tMillis <= phases[k - 1][j - |all|].tMillis;
        }
      }
    }
  }

  lemma {:induction false} NoEarlierThanZero(samples: seq<Sample>)
    requires TimesOrdered(samples)
    ensures forall k :: 0 <= k < |samples| ==> 0 <= samples[k].tMillis <= samples[|samples| - 1].tMillis
  {
    if |samples| > 1 {
      var last := |samples| - 1;
      assert samples[last - 1].tMillis <= samples[last].tMillis;
      forall k | 0 < k < last ensures samples[..last][k - 1].tMillis <= samples[..last][k].tMillis {
        assert samples[k - 1].tMillis <= samples[k].tMillis;
      }
      NoEarlierThanZero(samples[..last]);
      forall k | 0 <= k < |samples| ensures 0 <= samples[k].tMillis <= samples[last].tMillis {
        if k < last {
          assert samples[..last][k] == samples[k];
        }
      }
    }
  }

  /** The same sample up to its place on the time axis. */
  predicate SameReading(a: Sample, b: Sample) {
    a == b.(tMillis := a.tMillis)
  }

  function Count(phases: seq<seq<Sample>>, k: nat): nat
    requires k <= |phases|
  {
    if k == 0 then 0 else Count(phases, k - 1) + |phases[k - 1]|
  }

  /** Later phases are appended: they leave the axis so far as it is. */
  lemma {:induction false} JoinedExtends(phases: seq<seq<Sample>>, interval: int, p: nat, k: nat)
    requires p <= k <= |phases|
    ensures Joined(phases, interval, p) <= Joined(phases, interval, k)
    decreases k
  {
    if p < k {
      JoinedExtends(phases, interval, p, k - 1);
    }
  }

  /** Sample j of phase p on the joint axis. */
  predicate PlacedAt(all: seq<Sample>, at: int, phase: seq<Sample>, j: nat, interval: int)
    requires j < |phase| && 0 <= at && at + |phase| <= |all|
  {
    && SameReading(all[at + j], phase[j])
    && all[at + j].tMillis - all[at].tMillis == phase[j].tMillis - phase[0].tMillis
    && (at > 0 ==> all[at].tMillis == all[at - 1].tMillis + interval + phase[0].tMillis)
    && (at == 0 ==> all[0].tMillis == phase[0].tMillis)
  }

  lemma AppendedIsPlaced(before: seq<Sample>, phase: seq<Sample>, interval: int, all: seq<Sample>, j: nat)
    requires before + Shifted(phase, NextOffset(before, interval)) <= all && j < |phase|
    ensures PlacedAt(all, |before|, phase, j, interval)
  {
    var at, offset := |before|, NextOffset(before, interval);
    var shifted := Shifted(phase, offset);
    var part := before + shifted;
    assert all[at] == part[at] == shifted[0] && all[at + j] == part[at + j] == shifted[j];
    if at > 0 {
      assert all[at - 1] == part[at - 1] == before[at - 1];
    }
  }

  /**
   Every sample of every phase is on the joint axis, at its place and with its readings unchanged; the
   spacing inside a phase is kept, a phase starts one interval after the last sample before it, and the
   first one at its own time.
   */
  lemma JoinedKeepsEverySample(phases: seq<seq<Sample>>, interval: int, p: nat, j: nat)
    requires p < |phases| && j < |phases[p]|
    ensures var all := Joined(phases, interval, |phases|);
            && |all| == Count(phases, |phases|)
            && Count(phases, p) + |phases[p]| <= |all|
            && PlacedAt(all, Count(phases, p), phases[p], j, interval)
  {
    JoinedLength(phases, interval, p);
    JoinedLength(phases, interval, p + 1);
    JoinedLength(phases, interval, |phases|);
    JoinedExtends(phases, interval, p + 1, |phases|);
    AppendedIsPlaced(Joined(phases, interval, p), phases[p], interval, Joined(phases, interval, |phases|), j);
  }

  lemma {:induction false} JoinedLength(phases: seq<seq<Sample>>, interval: int, k: nat)
    requires k <= |phases|
    ensures |Joined(phases, interval, k)| == Count(phases, k)
  {
    if k > 0 {
      JoinedLength(phases, interval, k - 1);
    }
  }
}
