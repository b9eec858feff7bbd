/** The rising-edge RPM counter of the voltage boards: a single ring of samples read from one
    channel, and a scan that counts upward crossings of a fixed threshold. */
module Voltage {
  import opened Hat
  import Rings

  /** The level a sample must cross, from strictly below to strictly above, to count as an edge. */
  const Threshold: real := 0.2

  /** Revolutions per minute reported for each counted edge. */
  const RpmPerEdge: nat := 10

  /** Index `i` of `s` closes a rising edge: the sample before it is below the threshold and the
      sample at it is above it, both strictly. */
  predicate RisingAt(s: seq<real>, i: int)
    requires 1 <= i < |s|
  {
    s[i - 1] < Threshold && s[i] > Threshold
  }

  /** Number of rising edges in `s`, counting the pairs (i - 1, i) for i from 1 to |s| - 1 in
      storage order. */
  function EdgeCount(s: seq<real>): (c: nat)
    ensures c < |s| || c == 0
  {
    if |s| < 2 then 0 else EdgeCount(s[..|s| - 1]) + (if RisingAt(s, |s| - 1) then 1 else 0)
  }

  /** The indices at which a rising edge ends. */
  function EdgeIndices(s: seq<real>): set<int>
  {
    set i | 1 <= i < |s| && RisingAt(s, i)
  }

  /** The count is the number of indices at which an edge ends. */
  lemma {:induction false} EdgeCountIsCardinality(s: seq<real>)
    ensures EdgeCount(s) == |EdgeIndices(s)|
  {
    if |s| < 2 {
      assert EdgeIndices(s) == {};
    } else {
      var front := s[..|s| - 1];
      EdgeCountIsCardinality(front);
      forall i | 1 <= i < |front| ensures RisingAt(front, i) == RisingAt(s, i) {
      }
      if RisingAt(s, |s| - 1) {
        assert EdgeIndices(s) == EdgeIndices(front) + {|s| - 1};
      } else {
        assert EdgeIndices(s) == EdgeIndices(front);
      }
    }
  }

  /** No two neighbouring indices both end an edge: an edge needs its left sample below the
      threshold, and the sample that ends an edge is above it. */
  lemma NoAdjacentEdges(s: seq<real>, i: int)
    requires 1 <= i && i + 1 < |s| && RisingAt(s, i)
    ensures !RisingAt(s, i + 1)
  {
  }

  /** Consequently at most every other index ends an edge. */
  lemma {:induction false} EdgeCountBound(s: seq<real>)
    ensures EdgeCount(s) <= |s| / 2
  {
    if |s| >= 2 {
      var front := s[..|s| - 1];
      EdgeCountBound(front);
      if RisingAt(s, |s| - 1) && |s| >= 3 {
        var front2 := front[..|front| - 1];
        assert !RisingAt(front, |front| - 1);
        EdgeCountBound(front2);
      }
    }
  }

  /** A buffer whose every sample is at or below the threshold has no rising edge. */
  lemma {:induction false} NoEdgesAtOrBelow(s: seq<real>)
    requires forall i :: 0 <= i < |s| ==> s[i] <= Threshold
    ensures EdgeCount(s) == 0
  {
    if |s| >= 2 {
      NoEdgesAtOrBelow(s[..|s| - 1]);
    }
  }

  /** A buffer whose every sample is at or above the threshold has no rising edge. */
  lemma {:induction false} NoEdgesAtOrAbove(s: seq<real>)
    requires forall i :: 0 <= i < |s| ==> s[i] >= Threshold
    ensures EdgeCount(s) == 0
  {
    if |s| >= 2 {
      NoEdgesAtOrAbove(s[..|s| - 1]);
    }
  }

  /** A sample exactly at the threshold takes part in no edge, on either side. */
  lemma ThresholdSampleInNoEdge(s: seq<real>, i: int)
    requires 0 <= i < |s| && s[i] == Threshold
    ensures i !in EdgeIndices(s) && i + 1 !in EdgeIndices(s)
  {
    if i >= 1 {
      assert !RisingAt(s, i);
    }
    if i + 1 < |s| {
      assert !RisingAt(s, i + 1);
    }
  }

  /** Two edges in six samples: 0.0 to 0.3 and 0.1 to 0.25. */
  lemma TwoEdgeExample()
    ensures EdgeCount([0.0, 0.0, 0.3, 0.3, 0.1, 0.25]) == 2
  {
    var s6 := [0.0, 0.0, 0.3, 0.3, 0.1, 0.25];
    var s5, s4, s3, s2 := s6[..5], s6[..4], s6[..3], s6[..2];
    assert s5[..4] == s4 && s4[..3] == s3 && s3[..2] == s2;
    assert s2[..1] == [0.0];
    assert EdgeCount(s2) == 0;
    assert RisingAt(s3, 2);
    assert EdgeCount(s3) == 1;
    assert EdgeCount(s5) == 1;
    assert RisingAt(s6, 5);
  }

  /** A pair that touches the threshold without crossing it counts nothing. */
  lemma ThresholdExamples()
    ensures EdgeCount([Threshold, Threshold]) == 0
    ensures EdgeCount([0.0, Threshold]) == 0
  {
  }

  /** The sample history of the voltage module: the array `sample_values` and its cursor
      `sample_index`, both static storage that starts zeroed. */
  class SampleHistory {
    var samples: array<real>
    var index: int

    /** The cursor is an `int8_t`, so the history has at most 127 samples, and it always
        designates a slot. */
    ghost predicate Valid()
      reads this
    {
      1 <= samples.Length <= 127 && 0 <= index < samples.Length
    }

    /** The history as a ring value. */
    ghost function View(): (r: Rings.Ring)
      reads this, samples
      requires Valid()
      ensures Rings.Valid(r)
    {
      Rings.Ring(samples[..], index)
    }

    /** Zeroed storage for `sampleCount` samples, the cursor at slot 0. */
    constructor (sampleCount: nat)
      requires 1 <= sampleCount <= 127
      ensures Valid() && fresh(samples)
      ensures View() == Rings.Zero(sampleCount)
    {
      samples := new real[sampleCount](_ => 0.0);
      index := 0;
    }

    /** Read one sample: open the board, read the channel, and store the value at the cursor.
        A failed call returns its code and leaves the history as it was. */
    method ReadSample(open: Status, read: Reading) returns (code: int)
      requires Valid()
      modifies this`index, samples
      ensures Valid() && samples == old(samples)
      ensures Failed(open.code) ==> code == ReturnCode(open.code) && View() == old(View())
      ensures !Failed(open.code) && Failed(read.code) ==>
                code == ReturnCode(read.code) && View() == old(View())
      ensures !Failed(open.code) && !Failed(read.code) ==>
                code == 0 && View() == Rings.Write(old(View()), read.value)
    {
      if Failed(open.code) {
        return ReturnCode(open.code);
      }
      if Failed(read.code) {
        return ReturnCode(read.code);
      }
      samples[index] := read.value;
      index := index + 1;
      if index >= samples.Length {
        index := 0;
      }
      code := 0;
    }

    /** The RPM: ten times the number of rising edges in the history, scanned in storage order
        whatever the cursor. Fits an `int16_t` because the history has at most 127 samples. */
    method GetRpm() returns (rpm: int)
      requires Valid()
      ensures rpm == RpmPerEdge * EdgeCount(samples[..])
      ensures 0 <= rpm <= RpmPerEdge * (samples.Length / 2) <= 630
    {
      var freq := 0;
      var i := 1;
      while i < samples.Length
        invariant 1 <= i <= samples.Length
        invariant freq == EdgeCount(samples[..i])
      {
        assert samples[..i + 1][..i] == samples[..i];
        if samples[i - 1] < Threshold && samples[i] > Threshold {
          freq := freq + 1;
        }
        i := i + 1;
      }
      assert samples[..] == samples[..samples.Length];
      EdgeCountBound(samples[..]);
      rpm := freq * RpmPerEdge;
    }
  }
}
