/** The client's estimate of the server clock (offset and delay as in section 8 of RFC 5905,
    then a rounded moving average) and the playback position corrected by it. */
module ClockSync {
  import opened PlaybackModel

  datatype Sample = Sample(clientSend: real, serverReceive: real, serverSend: real, clientReceive: real)

  datatype Estimate = Estimate(rttMs: real, clockOffsetMs: real)

  function Rtt(s: Sample): real {
    s.clientReceive - s.clientSend - (s.serverSend - s.serverReceive)
  }

  function Offset(s: Sample): real {
    (s.serverReceive - s.clientSend + (s.serverSend - s.clientReceive)) / 2.0
  }

  // Half-way values round up.
  function Round(x: real): real {
    (x + 0.5).Floor as real
  }

  function UpdateClockSample(previous: Option<Estimate>, s: Sample): Estimate {
    if previous.None? then Estimate(Rtt(s), Offset(s))
    else Estimate(Round(previous.value.rttMs * 0.7 + Rtt(s) * 0.3),
                  Round(previous.value.clockOffsetMs * 0.7 + Offset(s) * 0.3))
  }

  function Updates(samples: seq<Sample>): Option<Estimate>
    decreases |samples|
  {
    if samples == [] then None
    else Some(UpdateClockSample(Updates(samples[..|samples| - 1]), samples[|samples| - 1]))
  }

  /** The sample of a server clock running `offset` ahead, with the given delays each way. */
  predicate Measures(s: Sample, offset: real, there: real, back: real) {
    && there >= 0.0 && back >= 0.0
    && s.serverReceive == s.clientSend + there + offset
    && s.clientReceive == s.serverSend - offset + back
  }

  /** A sample measures the round trip exactly and the offset to within half of it. */
  lemma SampleErrsByHalfRtt(s: Sample, offset: real, there: real, back: real)
    requires Measures(s, offset, there, back)
    ensures Rtt(s) == there + back
    ensures Offset(s) - offset == (there - back) / 2.0
    ensures Abs(Offset(s) - offset) <= Rtt(s) / 2.0
  {
  }

  lemma RoundIsNear(x: real)
    ensures -0.5 <= Round(x) - x <= 0.5
  {
  }

  /** If every sample errs by at most e, the stored offset errs by at most e and five thirds of a
      millisecond, after any number of rounded updates. */
  lemma {:induction false} StoredOffsetError(samples: seq<Sample>, offset: real, e: real)
    requires samples != []
    requires forall i :: 0 <= i < |samples| ==> Abs(Offset(samples[i]) - offset) <= e
    ensures Abs(Updates(samples).value.clockOffsetMs - offset) <= e + 5.0 / 3.0
    decreases |samples|
  {
    var front, last := samples[..|samples| - 1], samples[|samples| - 1];
    if front == [] {
    } else {
      StoredOffsetError(front, offset, e);
      RoundIsNear(Updates(front).value.clockOffsetMs * 0.7 + Offset(last) * 0.3);
    }
  }

  function Power(base: real, n: nat): real {
    if n == 0 then 1.0 else base * Power(base, n - 1)
  }

  lemma OneMoreSample(former: real, sample: real, target: real, e: real, left: real)
    requires Abs(former - target) <= e + 5.0 / 3.0 + left && Abs(sample - target) <= e
    ensures Abs(Round(former * 0.7 + sample * 0.3) - target) <= e + 5.0 / 3.0 + 0.7 * left
  {
    RoundIsNear(former * 0.7 + sample * 0.3);
  }

  lemma NothingFollowed(distance: real, e: real)
    requires e >= 0.0
    ensures Abs(distance) <= e + 5.0 / 3.0 + Power(0.7, 0) * Abs(distance)
  {
    assert Power(0.7, 0) == 1.0;
  }

  lemma Shrinks(left: real, distance: real)
    ensures (0.7 * left) * distance == 0.7 * (left * distance)
  {
  }

  lemma SomeEstimate(samples: seq<Sample>)
    ensures Updates(samples).Some? <==> samples != []
  {
  }

  lemma LastSample(before: seq<Sample>, samples: seq<Sample>)
    requires before != [] && samples != []
    ensures var front, last := samples[..|samples| - 1], samples[|samples| - 1];
            && Updates(before + front).Some? && Updates(before).Some?
            && Updates(before + samples) == Some(UpdateClockSample(Updates(before + front), last))
            && Power(0.7, |samples|) == 0.7 * Power(0.7, |front|)
  {
    hide UpdateClockSample;
    assert (before + samples)[..|before + samples| - 1] == before + samples[..|samples| - 1];
  }

  /** The estimate follows its samples: whatever it was, after n further samples that lie within e of a
      value, it lies within e and five thirds of a millisecond of it, plus what is left of the old
      distance, which shrinks by three tenths with each sample. This holds of offset and round trip. */
  lemma {:induction false} EstimateFollowsSamples(before: seq<Sample>, samples: seq<Sample>, offset: real, rtt: real, e: real)
    requires before != [] && e >= 0.0
    requires forall i :: 0 <= i < |samples| ==> Abs(Offset(samples[i]) - offset) <= e && Abs(Rtt(samples[i]) - rtt) <= e
    ensures var former, latest, left := Updates(before).value, Updates(before + samples).value, Power(0.7, |samples|);
            && Abs(latest.clockOffsetMs - offset) <= e + 5.0 / 3.0 + left * Abs(former.clockOffsetMs - offset)
            && Abs(latest.rttMs - rtt) <= e + 5.0 / 3.0 + left * Abs(former.rttMs - rtt)
    decreases |samples|
  {
    hide Round, Offset, Rtt, Abs, Updates, Power;
    SomeEstimate(before);
    var start := Updates(before).value;
    if samples == [] {
      assert before + samples == before;
      NothingFollowed(start.clockOffsetMs - offset, e);
      NothingFollowed(start.rttMs - rtt, e);
    } else {
      var front, last := samples[..|samples| - 1], samples[|samples| - 1];
      EstimateFollowsSamples(before, front, offset, rtt, e);
      LastSample(before, samples);
      var middle := Updates(before + front).value;
      var left := Power(0.7, |front|);
      OneMoreSample(middle.clockOffsetMs, Offset(last), offset, e, left * Abs(start.clockOffsetMs - offset));
      OneMoreSample(middle.rttMs, Rtt(last), rtt, e, left * Abs(start.rttMs - rtt));
      Shrinks(left, Abs(start.clockOffsetMs - offset));
      Shrinks(left, Abs(start.rttMs - rtt));
    }
  }

  /** The first sample is taken as it is. */
  lemma FirstSampleIsTaken(s: Sample)
    ensures Updates([s]) == Some(Estimate(Rtt(s), Offset(s)))
  {
    assert [s][..0] == [];
  }

  /** With non-negative one-way delays and round trips of at most r, the stored offset errs by at most
      r / 2 + 5 / 3 milliseconds. */
  lemma OffsetErrorFromRtt(samples: seq<Sample>, offset: real, there: seq<real>, back: seq<real>, r: real)
    requires samples != [] && |there| == |samples| && |back| == |samples|
    requires forall i :: 0 <= i < |samples| ==> Measures(samples[i], offset, there[i], back[i]) && Rtt(samples[i]) <= r
    ensures Abs(Updates(samples).value.clockOffsetMs - offset) <= r / 2.0 + 5.0 / 3.0
  {
    forall i | 0 <= i < |samples| ensures Abs(Offset(samples[i]) - offset) <= r / 2.0 {
      SampleErrsByHalfRtt(samples[i], offset, there[i], back[i]);
    }
    StoredOffsetError(samples, offset, r / 2.0);
  }

  function ElapsedMs(playback: Playback, serverNow: real): real {
    var elapsed := serverNow - playback.serverTime as real;
    if elapsed > 0.0 then elapsed else 0.0
  }

  /** The position the client shows at its own clock reading `now`. */
  function CompensatedPosition(playback: Playback, clockOffsetMs: Option<real>, now: real): real {
    if clockOffsetMs.None? || playback.playState != Playing then playback.position
    else playback.position + ElapsedMs(playback, now + clockOffsetMs.value) / 1000.0 * playback.playbackRate
  }

  lemma Scaled(x: real, bound: real, rate: real)
    requires rate >= 0.0 && Abs(x) <= bound
    ensures Abs(x * rate) <= bound * rate
  {
    assert (bound - x) * rate >= 0.0 && (bound + x) * rate >= 0.0;
  }

  /** An offset error of at most e milliseconds shows as at most e / 1000 seconds times the rate. */
  lemma PositionError(playback: Playback, estimated: real, actual: real, now: real, e: real)
    requires Abs(estimated - actual) <= e && playback.playbackRate >= 0.0
    ensures Abs(CompensatedPosition(playback, Some(estimated), now) - CompensatedPosition(playback, Some(actual), now))
            <= e / 1000.0 * playback.playbackRate
  {
    if playback.playState == Playing {
      var a, b := ElapsedMs(playback, now + estimated) / 1000.0, ElapsedMs(playback, now + actual) / 1000.0;
      var rate := playback.playbackRate;
      assert a * rate - b * rate == (a - b) * rate;
      assert Abs(a - b) <= e / 1000.0;
      Scaled(a - b, e / 1000.0, rate);
    } else {
      assert e / 1000.0 * playback.playbackRate >= 0.0;
    }
  }

  /** With the exact offset and a usable rate, the client shows the server's own projection. */
  lemma ExactOffsetMatchesServer(playback: Playback, offset: int, now: int)
    requires playback.playbackRate > 0.0
    ensures CompensatedPosition(playback, Some(offset as real), now as real) == Project(playback, now + offset)
  {
    assert ElapsedMs(playback, now as real + offset as real) == Max0(now + offset - playback.serverTime) as real;
  }

  /** Without an estimate, and while nothing plays, the client shows the position it was sent. */
  lemma ShownAsSent(playback: Playback, clockOffsetMs: Option<real>, now: real)
    ensures clockOffsetMs.None? || playback.playState != Playing ==>
              CompensatedPosition(playback, clockOffsetMs, now) == playback.position
  {
  }
}
