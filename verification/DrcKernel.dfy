/** One compressor kernel (dsp/drc_kernel.c, portable loops): the ring behind the look-ahead queue. */
module DrcKernel {
  import opened DrcGains
  import opened LookAhead

  const MAX_PRE_DELAY_FRAMES := 1024
  const DEFAULT_PRE_DELAY_FRAMES := 256

  /** An index into the ring, masked with MAX_PRE_DELAY_FRAMES_MASK. */
  function Masked(i: nat): (w: nat)
    requires i < 2048
    ensures w == i % 1024 && w < 1024
  {
    if i < 1024 then i else i - 1024
  }

  /** The place inside a division after n more frames, masked with DIVISION_FRAMES_MASK. */
  function Turn(offset: nat, n: nat): (r: nat)
    requires offset + n <= 32
    ensures r == (offset + n) % 32
  {
    if offset + n == 32 then 0 else offset + n
  }

  /** The d samples from the read index on: what is still to leave, oldest first. */
  function RingQueue(ring: seq<real>, read: nat, d: nat): (q: seq<real>)
    requires |ring| == 1024 && read < 1024 && d <= 1024
    ensures |q| == d
  {
    seq(d, k requires 0 <= k < d => ring[Masked(read + k)])
  }

  /** Storing a chunk at the write end and removing one at the read end moves the queue by the chunk. */
  lemma RingMoves(ring: seq<real>, ring': seq<real>, read: nat, d: nat, chunk: seq<real>)
    requires |ring| == |ring'| == 1024 && read < 1024 && d <= 1024
    requires |chunk| <= d && |chunk| + d <= 1024
    requires var write := Masked(read + d);
             && write + |chunk| <= 1024
             && ring' == ring[..write] + chunk + ring[write + |chunk|..]
    ensures RingQueue(ring', Masked(read + |chunk|), d) == RingQueue(ring, read, d)[|chunk|..] + chunk
  {
    var write, c := Masked(read + d), |chunk|;
    var q' := RingQueue(ring', Masked(read + c), d);
    var expected := RingQueue(ring, read, d)[c..] + chunk;
    forall k | 0 <= k < d ensures q'[k] == expected[k] {
      var at := Masked(Masked(read + c) + k);
      assert q'[k] == ring'[at];
      if k < d - c {
        assert at == Masked(read + (c + k));
        assert expected[k] == ring[at];
      } else {
        assert at == write + (k - (d - c));
        assert expected[k] == chunk[k - (d - c)];
      }
    }
  }

  /** A stretch of the ring that does not wrap, as part of the queue. */
  lemma RingStretch(ring: seq<real>, read: nat, d: nat, n: nat)
    requires |ring| == 1024 && read < 1024 && n <= d <= 1024 && read + n <= 1024
    ensures RingQueue(ring, read, d)[..n] == ring[read..read + n]
  {
    var q := RingQueue(ring, read, d);
    forall k | 0 <= k < n ensures q[..n][k] == ring[read..read + n][k] {
      assert Masked(read + k) == read + k;
    }
  }

  /** A chunk stored beside a stretch leaves the stretch as it was. */
  lemma StretchKept(ring: seq<real>, write: nat, chunk: seq<real>, read: nat)
    requires write + |chunk| <= |ring| && read + |chunk| <= |ring|
    requires read + |chunk| <= write || write + |chunk| <= read
    ensures (ring[..write] + chunk + ring[write + |chunk|..])[read..read + |chunk|] == ring[read..read + |chunk|]
  {
    var n := |chunk|;
    var ring' := ring[..write] + chunk + ring[write + n..];
    var p, q := ring'[read..read + n], ring[read..read + n];
    forall k | 0 <= k < n ensures p[k] == q[k] {
      assert ring'[read + k] == ring[read + k];
    }
  }

  lemma ZeroRing(ring: seq<real>, read: nat, d: nat)
    requires |ring| == 1024 && read < 1024 && d <= 1024 && forall i :: 0 <= i < 1024 ==> ring[i] == 0.0
    ensures RingQueue(ring, read, d) == Zeros(d)
  {
    forall k | 0 <= k < d ensures RingQueue(ring, read, d)[k] == Zeros(d)[k] {
      assert ring[Masked(read + k)] == 0.0;
    }
  }

  /** The 32 entries ending at the write index are the newest of the queue. */
  lemma RingNewest(ring: seq<real>, read: nat, d: nat)
    requires |ring| == 1024 && read < 1024 && 32 <= d <= 1024
    requires Masked(read + d) % 32 == 0
    ensures var write := Masked(read + d);
            var from := if write == 0 then 1024 - 32 else write - 32;
            RingQueue(ring, read, d)[d - 32..] == ring[from..from + 32]
  {
    var write := Masked(read + d);
    var from := if write == 0 then 1024 - 32 else write - 32;
    assert write == 0 || write >= 32;
    var q := RingQueue(ring, read, d)[d - 32..];
    forall j | 0 <= j < 32 ensures q[j] == ring[from..from + 32][j] {
      assert Masked(read + (d - 32 + j)) == from + j;
    }
  }

  lemma SliceOfAll(a: array<real>, lo: nat, hi: nat)
    requires lo <= hi <= a.Length
    ensures a[..][lo..hi] == a[lo..hi]
  {
  }

  /** The first n frames of the division at start, scaled. */
  function ScaledTo(t: Tuning, c: Control, ring: seq<real>, start: nat, n: nat): (r: seq<real>)
    ensures |r| == |ring|
  {
    seq(|ring|, i requires 0 <= i < |ring| =>
      if start <= i < start + n then ring[i] * TotalGain(t, c, i - start) else ring[i])
  }

  lemma ScaledMeans(t: Tuning, c: Control, ring: seq<real>, start: nat)
    requires start + 32 <= |ring|
    ensures forall i :: start <= i < start + 32 ==>
              ScaledTo(t, c, ring, start, 32)[i] ==
              ring[i] * (t.masterLinearGain * t.warpSin(GainAfter(c, i - start + 1)))
  {
    hide TotalGain, GainAfter;
    forall i | start <= i < start + 32
      ensures ScaledTo(t, c, ring, start, 32)[i] ==
              ring[i] * (t.masterLinearGain * t.warpSin(GainAfter(c, i - start + 1)))
    {
      GainOfSample(t, c, i - start);
    }
  }

  /** Scaling the division at the read index scales the front of the queue. */
  lemma RingScales(t: Tuning, c: Control, ring: seq<real>, read: nat, d: nat)
    requires |ring| == 1024 && read + 32 <= 1024 && 32 <= d <= 1024 - 32
    ensures RingQueue(ScaledTo(t, c, ring, read, 32), read, d) == ScaleFront(t, c, RingQueue(ring, read, d))
  {
    hide TotalGain;
    var q := RingQueue(ScaledTo(t, c, ring, read, 32), read, d);
    forall k | 0 <= k < d ensures q[k] == ScaleFront(t, c, RingQueue(ring, read, d))[k] {
      var at := Masked(read + k);
      assert read <= at < read + 32 <==> k < 32;
      assert k < 32 ==> at - read == k;
    }
  }

  /** One sample at one lane's gain: total_gain times the sample. */
  function Amplified(t: Tuning, x: real, gain: real): real {
    x * (t.masterLinearGain * t.warpSin(gain))
  }

  lemma AmplifiedIs(t: Tuning, x: real, gain: real, totalGain: real, y: real)
    requires totalGain == t.masterLinearGain * t.warpSin(gain) && y == x * totalGain
    ensures y == Amplified(t, x, gain)
  {
  }

  /** The first j of four lanes applied to the frames from at on. */
  ghost predicate Applied(t: Tuning, gains: seq<real>, at: nat, j: nat, ring: seq<real>, ring': seq<real>)
    requires j <= |gains|
  {
    && |ring'| == |ring|
    && forall k :: 0 <= k < |ring| ==>
         ring'[k] == if at <= k < at + j then Amplified(t, ring[k], gains[k - at]) else ring[k]
  }

  lemma NothingApplied(t: Tuning, gains: seq<real>, at: nat, ring: seq<real>)
    ensures Applied(t, gains, at, 0, ring, ring)
  {
  }

  lemma LaneApplied(t: Tuning, gains: seq<real>, at: nat, j: nat, ring: seq<real>, mid: seq<real>, ring': seq<real>)
    requires j < |gains| && at + j < |ring| && Applied(t, gains, at, j, ring, mid)
    requires ring' == mid[at + j := Amplified(t, mid[at + j], gains[j])]
    ensures Applied(t, gains, at, j + 1, ring, ring')
  {
  }

  /** memcpy between two different buffers. */
  method Copy(dst: array<real>, to: nat, src: array<real>, from: nat, n: nat)
    requires dst != src && to + n <= dst.Length && from + n <= src.Length
    modifies dst
    ensures dst[..] == old(dst[..to]) + src[from..from + n] + old(dst[to + n..])
  {
    ghost var start, rest := dst[..], src[from..from + n];
    for k := 0 to n
      invariant dst[..to] == start[..to] && dst[to + k..] == start[to + k..]
      invariant dst[to..to + k] == rest[..k]
    {
      dst[to + k] := src[from + k];
      assert dst[to..to + k + 1] == dst[to..to + k] + [src[from + k]];
      assert rest[..k + 1] == rest[..k] + [rest[k]];
    }
    assert dst[..] == dst[..to] + dst[to..to + n] + dst[to + n..];
  }

  /** One channel of a chunk: the input goes to the write index of the ring, then the samples at the
      read index take its place. The two ring ranges do not wrap and do not meet. */
  method Exchange(ring: array<real>, read: nat, d: nat, data: array<real>, at: nat, n: nat)
    requires ring != data && ring.Length == 1024 && read < 1024
    requires n <= d && n + d <= 1024 && read + n <= 1024 && Masked(read + d) + n <= 1024
    requires at + n <= data.Length
    modifies ring, data
    ensures Rotated(old(data[..]), data[..], at, n, RingQueue(old(ring[..]), read, d),
                    RingQueue(ring[..], Masked(read + n), d))
  {
    ghost var before, start, write := ring[..], data[..], Masked(read + d);
    ghost var chunk := start[at..at + n];
    assert chunk == data[at..at + n];
    Copy(ring, Masked(read + d), data, at, n);
    assert ring[..] == before[..write] + chunk + before[write + n..];
    RingMoves(before, ring[..], read, d, chunk);
    StretchKept(before, write, chunk, read);
    RingStretch(before, read, d, n);
    assert ring[read..read + n] == ring[..][read..read + n];
    Copy(data, at, ring, read, n);
    assert data[..] == start[..at] + RingQueue(before, read, d)[..n] + start[at + n..];
  }

  /** struct drc_kernel. */
  class Band {
    const tuning: Tuning
    const left: array<real>
    const right: array<real>
    var enabled: bool
    var processed: bool
    var lastPreDelayFrames: nat
    var readIndex: nat
    var writeIndex: nat
    var control: Control

    /** The look-ahead is a whole number of divisions, at least one, and the write index runs ahead of the
        read index by exactly that much. */
    ghost predicate Valid()
      reads this
    {
      && left != right && left.Length == right.Length == MAX_PRE_DELAY_FRAMES
      && 32 <= lastPreDelayFrames <= 992 && lastPreDelayFrames % 32 == 0
      && readIndex < 1024 && writeIndex == Masked(readIndex + lastPreDelayFrames)
    }

    /** The kernel as a look-ahead queue. */
    ghost function State(): (s: Kernel)
      requires Valid()
      reads this, left, right
      ensures Proper(s) && |s.left| == lastPreDelayFrames
    {
      Kernel(RingQueue(left[..], readIndex, lastPreDelayFrames),
             RingQueue(right[..], readIndex, lastPreDelayFrames), readIndex % 32, control)
    }

    /** Both indices stand at the same place of their divisions. */
    lemma SamePlace()
      requires Valid()
      ensures State().offset == writeIndex % 32
    {
      FragmentFits(readIndex, lastPreDelayFrames, 0);
    }

    /** dk_init. */
    constructor (tuning: Tuning)
      ensures Valid() && fresh(left) && fresh(right) && !enabled && !processed && this.tuning == tuning
      ensures State() == AtStart(DEFAULT_PRE_DELAY_FRAMES)
    {
      this.tuning := tuning;
      left := new real[MAX_PRE_DELAY_FRAMES](_ => 0.0);
      right := new real[MAX_PRE_DELAY_FRAMES](_ => 0.0);
      enabled, processed := false, false;
      lastPreDelayFrames := DEFAULT_PRE_DELAY_FRAMES;
      readIndex, writeIndex := 0, DEFAULT_PRE_DELAY_FRAMES;
      control := INITIAL_CONTROL;
      new;
      ZeroRing(left[..], 0, DEFAULT_PRE_DELAY_FRAMES);
      ZeroRing(right[..], 0, DEFAULT_PRE_DELAY_FRAMES);
    }

    /** dk_set_enabled. */
    method SetEnabled(on: bool)
      modifies this`enabled
      ensures enabled == on
    {
      enabled := on;
    }

    /** set_pre_delay_time; requested is pre_delay_time * sample_rate truncated to an unsigned. */
    method SetPreDelay(requested: nat)
      requires Valid()
      modifies this`lastPreDelayFrames, this`readIndex, this`writeIndex, left, right
      ensures Valid()
      ensures LookAheadFor(requested, lastPreDelayFrames)
      ensures State() == if lastPreDelayFrames == old(lastPreDelayFrames) then old(State())
                         else AtStart(lastPreDelayFrames).(control := control)
    {
      var frames := if requested < 1023 then requested else 1023;
      frames := frames - frames % 32;
      frames := if frames > 32 then frames else 32;
      if lastPreDelayFrames != frames {
        lastPreDelayFrames := frames;
        forall i | 0 <= i < 1024 {
          left[i] := 0.0;
        }
        forall i | 0 <= i < 1024 {
          right[i] := 0.0;
        }
        readIndex := 0;
        writeIndex := frames;
        ZeroRing(left[..], 0, frames);
        ZeroRing(right[..], 0, frames);
      }
    }

    /** dk_process_delay_only: what leaves is what was queued, then the input itself. */
    method ProcessDelayOnly(data0: array<real>, data1: array<real>, count: nat)
      requires Valid() && count <= data0.Length && count <= data1.Length
      requires data0 != data1 && {data0, data1} !! {left, right}
      modifies this`readIndex, this`writeIndex, left, right, data0, data1
      ensures Valid()
      ensures Conserved(old(data0[..]), data0[..], count, old(State()).left, State().left)
      ensures Conserved(old(data1[..]), data1[..], count, old(State()).right, State().right)
      ensures State().control == old(State()).control
    {
      hide RingQueue, Masked, State, Conserved, Rotated;
      ghost var start0, start1, s := data0[..], data1[..], State();
      ConservedAtFirst(start0, s.left);
      ConservedAtFirst(start1, s.right);
      var i := 0;
      while i < count
        invariant 0 <= i <= count && Valid()
        invariant Conserved(start0, data0[..], i, s.left, State().left)
        invariant Conserved(start1, data1[..], i, s.right, State().right)
        invariant State().control == s.control
      {
        var small := if readIndex < writeIndex then readIndex else writeIndex;
        var large := if readIndex < writeIndex then writeIndex else readIndex;
        var chunk := if large - small < 1024 - large then large - small else 1024 - large;
        chunk := if chunk < count - i then chunk else count - i;
        ChunkFits(readIndex, lastPreDelayFrames, chunk);
        ghost var all0, all1, here := data0[..], data1[..], State();
        MoveChunk(data0, data1, i, chunk);
        ConservedAfter(start0, all0, data0[..], i, chunk, s.left, here.left, State().left);
        ConservedAfter(start1, all1, data1[..], i, chunk, s.right, here.right, State().right);
        i := i + chunk;
      }
    }

    /** The copies of one chunk or fragment, both channels, and the index updates. */
    method MoveChunk(data0: array<real>, data1: array<real>, at: nat, n: nat)
      requires Valid() && at + n <= data0.Length && at + n <= data1.Length
      requires data0 != data1 && {data0, data1} !! {left, right}
      requires n <= lastPreDelayFrames && n + lastPreDelayFrames <= 1024
      requires readIndex + n <= 1024 && writeIndex + n <= 1024
      modifies this`readIndex, this`writeIndex, left, right, data0, data1
      ensures Valid() && readIndex == Masked(old(readIndex) + n)
      ensures Rotated(old(data0[..]), data0[..], at, n, old(State()).left, State().left)
      ensures Rotated(old(data1[..]), data1[..], at, n, old(State()).right, State().right)
      ensures State().control == old(State()).control
    {
      hide RingQueue, Rotated;
      Exchange(left, readIndex, lastPreDelayFrames, data0, at, n);
      Exchange(right, readIndex, lastPreDelayFrames, data1, at, n);
      writeIndex := Masked(writeIndex + n);
      readIndex := Masked(readIndex + n);
    }

    /** The division that ends at the write index holds the newest 32 frames of the queues. */
    lemma NewestDivision(start: nat)
      requires Valid() && readIndex % 32 == 0
      requires start == if writeIndex == 0 then 1024 - 32 else writeIndex - 32
      ensures start + 32 <= 1024
      ensures State().left[lastPreDelayFrames - 32..] == left[start..start + 32]
      ensures State().right[lastPreDelayFrames - 32..] == right[start..start + 32]
    {
      hide RingQueue, Masked;
      SamePlace();
      assert start + 32 <= 1024 by {
        assert writeIndex == 0 || writeIndex >= 32;
      }
      RingNewest(left[..], readIndex, lastPreDelayFrames);
      RingNewest(right[..], readIndex, lastPreDelayFrames);
      SliceOfAll(left, start, start + 32);
      SliceOfAll(right, start, start + 32);
    }

    /** dk_update_detector_average: reads the division that ends at the write index. */
    method UpdateDetectorAverage()
      requires Valid() && readIndex % 32 == 0
      modifies this`control
      ensures control == old(control).(detectorAverage :=
                Detector(tuning, old(control).detectorAverage, old(State()).left[lastPreDelayFrames - 32..],
                         old(State()).right[lastPreDelayFrames - 32..]))
    {
      hide RingQueue, DetectorStep, Detector, State;
      var start := if writeIndex == 0 then 1024 - 32 else writeIndex - 32;
      NewestDivision(start);
      var average := Detect(start);
      control := control.(detectorAverage := average);
    }

    /** Its loop, over 32 frames that do not wrap. */
    method Detect(start: nat) returns (average: real)
      requires Valid() && start + 32 <= 1024
      ensures average == Detector(tuning, control.detectorAverage, left[start..start + 32], right[start..start + 32])
    {
      hide DetectorStep;
      ghost var ls, rs := left[start..start + 32], right[start..start + 32];
      average := control.detectorAverage;
      for i := 0 to 32
        invariant average == Detector(tuning, control.detectorAverage, ls[..i], rs[..i])
      {
        assert ls[..i + 1][..i] == ls[..i] && rs[..i + 1][..i] == rs[..i];
        average := DetectorStep(tuning, average, left[start + i], right[start + i]);
      }
      assert ls[..32] == ls && rs[..32] == rs;
    }

    /** The body of the inner loops of dk_compress_output: four frames, one gain from each lane. */
    method ApplyLanes(at: nat, gains: seq<real>)
      requires Valid() && |gains| == 4 && at + 4 <= 1024
      modifies left, right
      ensures Applied(tuning, gains, at, 4, old(left[..]), left[..])
      ensures Applied(tuning, gains, at, 4, old(right[..]), right[..])
    {
      hide Applied, Amplified;
      NothingApplied(tuning, gains, at, left[..]);
      NothingApplied(tuning, gains, at, right[..]);
      for j := 0 to 4
        invariant Applied(tuning, gains, at, j, old(left[..]), left[..])
        invariant Applied(tuning, gains, at, j, old(right[..]), right[..])
      {
        ghost var l, r := left[..], right[..];
        var totalGain := tuning.masterLinearGain * tuning.warpSin(gains[j]);
        var x, y := left[at + j] * totalGain, right[at + j] * totalGain;
        AmplifiedIs(tuning, left[at + j], gains[j], totalGain, x);
        AmplifiedIs(tuning, right[at + j], gains[j], totalGain, y);
        left[at + j] := x;
        right[at + j] := y;
        assert left[..] == l[at + j := x] && right[..] == r[at + j := y];
        LaneApplied(tuning, gains, at, j, old(left[..]), l, left[..]);
        LaneApplied(tuning, gains, at, j, old(right[..]), r, right[..]);
      }
    }

    /** The loops of dk_compress_output: four gain lanes, each advanced by the fourth power of the rate. */
    method ScaleLanes(start: nat)
      requires Valid() && start + 32 <= 1024
      modifies this`control, left, right
      ensures left[..] == ScaledTo(tuning, old(control), old(left[..]), start, 32)
      ensures right[..] == ScaledTo(tuning, old(control), old(right[..]), start, 32)
      ensures control == Compressed(old(control))
    {
      hide Lanes, Next, ScaledTo, Times, PreWarp, Applied;
      ghost var c := control;
      ghost var l0, r0 := left[..], right[..];
      var g, r, base := LaneStart(control), LaneRate(control), LaneBase(control);
      var x := [Times(g, r), Times(Times(g, r), r), Times(Times(Times(g, r), r), r),
                Times(Times(Times(Times(g, r), r), r), r)];
      FirstLanes(c, x);
      NothingScaled(tuning, c, l0, start);
      NothingScaled(tuning, c, r0, start);
      var i := 0;
      while true
        invariant 0 <= i < 8 && |x| == 4 && control == c && Lanes(c, x, i)
        invariant left[..] == ScaledTo(tuning, c, l0, start, 4 * i)
        invariant right[..] == ScaledTo(tuning, c, r0, start, 4 * i)
        decreases 8 - i
      {
        var gains := [x[0] + base, x[1] + base, x[2] + base, x[3] + base];
        LanesGains(c, x, i, gains);
        ghost var l1, r1 := left[..], right[..];
        ApplyLanes(start + 4 * i, gains);
        GroupScaled(tuning, c, l0, l1, left[..], start, i, gains);
        GroupScaled(tuning, c, r0, r1, right[..], start, i, gains);
        i := i + 1;
        if i == 8 {
          break;
        }
        NextLanes(c, x, i - 1);
        x := Next(control, x);
      }
      control := control.(compressorGain := x[3] + base);
    }

    /** The division at start is scaled, sample by sample, and the gain reached is stored. */
    method CompressLanes(start: nat)
      requires Valid() && start + 32 <= 1024
      modifies this`control, left, right
      ensures left[..] == ScaledTo(tuning, old(control), old(left[..]), start, 32)
      ensures right[..] == ScaledTo(tuning, old(control), old(right[..]), start, 32)
      ensures control == Compressed(old(control)) == old(control).(compressorGain := GainAfter(old(control), 32))
      ensures forall i :: start <= i < start + 32 ==>
                var gain := tuning.masterLinearGain * tuning.warpSin(GainAfter(old(control), i - start + 1));
                left[i] == old(left[i]) * gain && right[i] == old(right[i]) * gain
    {
      hide ScaledTo, Compressed, GainAfter;
      ScaledMeans(tuning, control, left[..], start);
      ScaledMeans(tuning, control, right[..], start);
      StoredGain(control);
      ScaleLanes(start);
      assert forall i :: start <= i < start + 32 ==> left[i] == left[..][i] && right[i] == right[..][i];
    }

    /** dk_compress_output. */
    method CompressOutput()
      requires Valid() && readIndex + 32 <= 1024
      modifies this`control, left, right
      ensures Valid()
      ensures State() == Compress(tuning, old(State()))
    {
      hide RingQueue, ScaledTo, ScaleFront, Compressed;
      RingScales(tuning, control, left[..], readIndex, lastPreDelayFrames);
      RingScales(tuning, control, right[..], readIndex, lastPreDelayFrames);
      CompressLanes(readIndex);
    }

    /** dk_process_one_division. */
    method ProcessOneDivision()
      requires Valid() && readIndex % 32 == 0
      modifies this`control, left, right
      ensures Valid()
      ensures State() == Division(tuning, old(State()))
    {
      hide RingQueue, Detector, Envelope, Compress;
      UpdateDetectorAverage();
      control := Envelope(tuning, control);
      CompressOutput();
    }

    /** One turn of the loop of dk_process: dk_copy_fragment, for a fragment inside one division, and
        the processing of the division if that completes it. */
    method Fragment(data0: array<real>, data1: array<real>, at: nat, n: nat)
      requires Valid() && at + n <= data0.Length && at + n <= data1.Length && 0 < n
      requires data0 != data1 && {data0, data1} !! {left, right}
      requires State().offset + n <= 32
      modifies this`readIndex, this`writeIndex, this`control, left, right, data0, data1
      ensures Valid() && State().offset == Turn(old(State()).offset, n)
      ensures Pushed(tuning, old(State()), State(), old(data0[..]), data0[..], old(data1[..]), data1[..], at, n)
    {
      hide RingQueue, Rotated, Pushed, Division;
      ghost var s, start0, start1 := State(), data0[..], data1[..];
      FragmentFits(readIndex, lastPreDelayFrames, n);
      hide Masked;
      MoveChunk(data0, data1, at, n);
      ghost var moved := State();
      if readIndex % 32 == 0 {
        ProcessOneDivision();
      }
      RotatedIsPushed(tuning, s, moved, start0, data0[..], start1, data1[..], at, n);
    }

    /** dk_process. A disabled kernel is a pure delay; an enabled one pushes every frame through the
        look-ahead queue, whatever the block size. */
    method Process(data0: array<real>, data1: array<real>, count: nat)
      requires Valid() && count <= data0.Length && count <= data1.Length
      requires data0 != data1 && {data0, data1} !! {left, right}
      requires enabled && !processed ==> readIndex % 32 == 0
      modifies this, left, right, data0, data1
      ensures Valid() && lastPreDelayFrames == old(lastPreDelayFrames) && enabled == old(enabled)
      ensures processed == (old(processed) || enabled)
      ensures !enabled ==>
                && Conserved(old(data0[..]), data0[..], count, old(State()).left, State().left)
                && Conserved(old(data1[..]), data1[..], count, old(State()).right, State().right)
                && State().control == old(State()).control
      ensures enabled ==>
                Pushed(tuning, if old(processed) then old(State()) else Prime(tuning, old(State())), State(),
                       old(data0[..]), data0[..], old(data1[..]), data1[..], 0, count)
    {
      hide RingQueue, Conserved, Pushed, Compress, Envelope, PushAll;
      if !enabled {
        ProcessDelayOnly(data0, data1, count);
        return;
      }
      if !processed {
        control := Envelope(tuning, control);
        CompressOutput();
        processed := true;
      }
      ProcessEnabled(data0, data1, count);
    }

    /** The loop of dk_process: fragments that end at division boundaries. */
    method ProcessEnabled(data0: array<real>, data1: array<real>, count: nat)
      requires Valid() && count <= data0.Length && count <= data1.Length
      requires data0 != data1 && {data0, data1} !! {left, right}
      modifies this`readIndex, this`writeIndex, this`control, left, right, data0, data1
      ensures Valid()
      ensures Pushed(tuning, old(State()), State(), old(data0[..]), data0[..], old(data1[..]), data1[..], 0, count)
    {
      hide RingQueue, State, Pushed, Masked, Turn, Proper;
      ghost var start0, start1, s := data0[..], data1[..], State();
      var i := 0;
      var offset := writeIndex % 32;
      SamePlace();
      PushedAtFirst(tuning, s, start0, start1);
      while i < count
        invariant 0 <= i <= count && Valid()
        invariant offset == State().offset < 32
        invariant Pushed(tuning, s, State(), start0, data0[..], start1, data1[..], 0, i)
      {
        var fragment := if 32 - offset < count - i then 32 - offset else count - i;
        ghost var here, all0, all1 := State(), data0[..], data1[..];
        Fragment(data0, data1, i, fragment);
        PushedAfter(tuning, s, here, State(), start0, all0, data0[..], start1, all1, data1[..], i, fragment);
        i := i + fragment;
        offset := Turn(offset, fragment);
      }
    }
  }

  /** What one chunk does to a channel: n samples from the queue replace n input samples, which join it. */
  ghost predicate Rotated(data: seq<real>, data': seq<real>, at: nat, n: nat, q: seq<real>, q': seq<real>) {
    && |data'| == |data| && at + n <= |data| && n <= |q|
    && data'[..at + n] == data[..at] + q[..n] && data'[at + n..] == data[at + n..]
    && q' == q[n..] + data[at..at + n]
  }

  /** Nothing is lost, repeated or reordered: the first count samples of the buffer that leave, followed
      by what is queued now, are what was queued, followed by what came in. */
  ghost predicate Conserved(data: seq<real>, data': seq<real>, count: nat, q: seq<real>, q': seq<real>) {
    && |data'| == |data| && count <= |data| && |q'| == |q|
    && data'[..count] + q' == q + data[..count] && data'[count..] == data[count..]
  }

  lemma ConservedAtFirst(data: seq<real>, q: seq<real>)
    ensures Conserved(data, data, 0, q, q)
  {
  }

  lemma ConservedAfter(data: seq<real>, data1: seq<real>, data2: seq<real>, i: nat, n: nat,
                       q: seq<real>, q1: seq<real>, q2: seq<real>)
    requires Conserved(data, data1, i, q, q1) && Rotated(data1, data2, i, n, q1, q2)
    ensures Conserved(data, data2, i + n, q, q2)
  {
    SameStretch(data1, data, i, i + n, |data|);
    assert data[..|data|] == data;
    var chunk, out := data[i..i + n], data1[..i];
    assert data[..i + n] == data[..i] + chunk;
    Regroup(out, q1, n, chunk);
    assert (q + data[..i]) + chunk == q + (data[..i] + chunk);
  }

  lemma Regroup(a: seq<real>, q: seq<real>, n: nat, b: seq<real>)
    requires n <= |q|
    ensures (a + q[..n]) + (q[n..] + b) == (a + q) + b
  {
  }

  /** Samples at to at + n of both channels went through the look-ahead queue. */
  ghost predicate Pushed(t: Tuning, s: Kernel, s': Kernel, ls: seq<real>, ls': seq<real>, rs: seq<real>, rs': seq<real>,
                         at: nat, n: nat) {
    && Proper(s) && |ls'| == |ls| && |rs'| == |rs| && at + n <= |ls| && at + n <= |rs|
    && (s', ls'[at..at + n], rs'[at..at + n]) == PushAll(t, s, ls[at..at + n], rs[at..at + n])
    && ls'[..at] == ls[..at] && rs'[..at] == rs[..at]
    && ls'[at + n..] == ls[at + n..] && rs'[at + n..] == rs[at + n..]
  }

  lemma PushedAtFirst(t: Tuning, s: Kernel, ls: seq<real>, rs: seq<real>)
    requires Proper(s)
    ensures Pushed(t, s, s, ls, ls, rs, rs, 0, 0)
  {
    PushNothing(t, s);
  }

  lemma PushedAfter(t: Tuning, s: Kernel, s1: Kernel, s2: Kernel, ls: seq<real>, ls1: seq<real>, ls2: seq<real>,
                    rs: seq<real>, rs1: seq<real>, rs2: seq<real>, i: nat, n: nat)
    requires Pushed(t, s, s1, ls, ls1, rs, rs1, 0, i) && Pushed(t, s1, s2, ls1, ls2, rs1, rs2, i, n)
    ensures Pushed(t, s, s2, ls, ls2, rs, rs2, 0, i + n)
  {
    hide PushAll;
    PushAllSplit(t, s, ls[..i], rs[..i], ls[i..i + n], rs[i..i + n]);
    Glue(ls, ls1, ls2, i, n);
    Glue(rs, rs1, rs2, i, n);
  }

  lemma Glue(a: seq<real>, a1: seq<real>, a2: seq<real>, i: nat, n: nat)
    requires |a| == |a1| == |a2| && i + n <= |a|
    requires a1[i..] == a[i..] && a2[..i] == a1[..i] && a2[i + n..] == a1[i + n..]
    ensures a[..i] + a[i..i + n] == a[0..i + n] && a1[i..i + n] == a[i..i + n]
    ensures a1[0..i] == a2[..i] && a[..i] == a[0..i]
    ensures a1[0..i] + a2[i..i + n] == a2[0..i + n] && a2[i + n..] == a[i + n..]
  {
    SameStretch(a1, a, i, i + n, |a|);
    assert a[..|a|] == a;
  }

  /** A chunk moved inside a division, with the division processed if it is complete, is a push. */
  lemma RotatedIsPushed(t: Tuning, s: Kernel, moved: Kernel, ls: seq<real>, ls': seq<real>,
                        rs: seq<real>, rs': seq<real>, at: nat, n: nat)
    requires Proper(s) && 0 < n && s.offset + n <= 32
    requires Rotated(ls, ls', at, n, s.left, moved.left) && Rotated(rs, rs', at, n, s.right, moved.right)
    requires moved.control == s.control && moved.offset == Turn(s.offset, n)
    ensures Pushed(t, s, if moved.offset == 0 then Division(t, moved) else moved, ls, ls', rs, rs', at, n)
  {
    hide Division, PushAll;
    PushFragment(t, s, ls[at..at + n], rs[at..at + n]);
    RotatedParts(ls, ls', at, n, s.left, moved.left);
    RotatedParts(rs, rs', at, n, s.right, moved.right);
    assert moved == Moved(s, ls[at..at + n], rs[at..at + n]).(offset := moved.offset);
  }

  lemma RotatedParts(data: seq<real>, data': seq<real>, at: nat, n: nat, q: seq<real>, q': seq<real>)
    requires Rotated(data, data', at, n, q, q')
    ensures data'[at..at + n] == q[..n] && data'[..at] == data[..at]
  {
    assert data'[at..at + n] == data'[..at + n][at..] && data'[..at] == data'[..at + n][..at];
  }

  /** Buffers that agree from i on agree on any stretch after i. */
  lemma SameStretch(a: seq<real>, b: seq<real>, i: nat, j: nat, count: nat)
    requires |a| == |b| && i <= j <= count <= |a| && a[i..] == b[i..]
    ensures a[i..j] == b[..count][i..j] && a[j..] == b[j..]
  {
    assert a[i..j] == a[i..][..j - i] && b[..count][i..j] == b[i..][..j - i];
    assert a[j..] == a[i..][j - i..] && b[j..] == b[i..][j - i..];
  }

  /** A chunk no longer than the distance between the indices, nor than what is left of the ring behind
      the larger one, fits: it does not wrap, and reading and writing do not meet. */
  lemma ChunkFits(read: nat, d: nat, chunk: nat)
    requires read < 1024 && 32 <= d <= 992
    requires var write := Masked(read + d);
             && chunk <= (if read < write then write - read else read - write)
             && chunk <= 1024 - (if read < write then write else read)
    ensures chunk <= d && chunk + d <= 1024 && read + chunk <= 1024 && Masked(read + d) + chunk <= 1024
    ensures Masked(Masked(read + d) + chunk) == Masked(Masked(read + chunk) + d)
    ensures Masked(read + d) != read
  {
  }

  /** A fragment inside a division never crosses the end of the ring, at either index. */
  lemma FragmentFits(read: nat, d: nat, n: nat)
    requires read < 1024 && 32 <= d <= 992 && d % 32 == 0 && read % 32 + n <= 32
    ensures read + n <= 1024 && Masked(read + d) + n <= 1024
    ensures Masked(Masked(read + d) + n) == Masked(Masked(read + n) + d)
    ensures Masked(read + n) % 32 == Turn(read % 32, n)
    ensures Masked(read + d) % 32 == read % 32
  {
    var block, blocks, offset := read / 32, d / 32, read % 32;
    InDivision(block, offset);
    InDivision(block + blocks, offset);
    if offset + n < 32 {
      InDivision(block, offset + n);
      InDivision(block + blocks, offset + n);
    } else {
      InDivision(block + 1, 0);
      InDivision(block + blocks + 1, 0);
    }
  }

  /** The place of a position within its division, before and after the mask. */
  lemma InDivision(block: nat, offset: nat)
    requires block < 64 && offset < 32
    ensures Masked(32 * block + offset) == if block < 32 then 32 * block + offset else 32 * (block - 32) + offset
    ensures Masked(32 * block + offset) % 32 == offset
  {
  }

  /** The look-ahead for a request: the most whole divisions within it, but at least one and at most 31. */
  ghost predicate LookAheadFor(requested: nat, d: nat) {
    32 <= d <= 992 && d % 32 == 0 && (d <= requested || d == 32) && (requested < d + 32 || d == 992)
  }

  /** Two delays that set_pre_delay_time may give for one request are the same: bands with equal requests
      stay aligned. */
  lemma BandsAligned(requested: nat, d: nat, e: nat)
    requires LookAheadFor(requested, d) && LookAheadFor(requested, e)
    ensures d == e
  {
    var i, j := d / 32, e / 32;
    assert d == 32 * i && e == 32 * j;
  }

  /** Where the lanes start, what they are multiplied by, and what is added to them. */
  function LaneStart(c: Control): real {
    if c.envelopeRate < 1.0 then c.compressorGain - c.scaledDesiredGain else c.compressorGain
  }

  function LaneRate(c: Control): real {
    if c.envelopeRate < 1.0 then 1.0 - c.envelopeRate else c.envelopeRate
  }

  function LaneBase(c: Control): real {
    if c.envelopeRate < 1.0 then c.scaledDesiredGain else 0.0
  }

  /** The lanes of the next group of four. */
  function Next(c: Control, x: seq<real>): (y: seq<real>)
    requires |x| == 4
    ensures |y| == 4
  {
    var r4 := Fourth(LaneRate(c));
    if c.envelopeRate < 1.0 then [Times(x[0], r4), Times(x[1], r4), Times(x[2], r4), Times(x[3], r4)]
    else [Min(1.0, Times(x[0], r4)), Min(1.0, Times(x[1], r4)), Min(1.0, Times(x[2], r4)), Min(1.0, Times(x[3], r4))]
  }

  /** The lanes hold the gains of samples 4i to 4i + 3. */
  ghost predicate Lanes(c: Control, x: seq<real>, i: nat) {
    && |x| == 4
    && forall j :: 0 <= j < 4 ==>
         && PreWarp(c, 4 * i + j) == x[j] + LaneBase(c)
         && (c.envelopeRate < 1.0 ==> x[j] == Times(LaneStart(c), Pow(LaneRate(c), 4 * i + j + 1)))
  }

  lemma FirstLanes(c: Control, x: seq<real>)
    requires var g, r := LaneStart(c), LaneRate(c);
             x == [Times(g, r), Times(Times(g, r), r), Times(Times(Times(g, r), r), r),
                   Times(Times(Times(Times(g, r), r), r), r)]
    ensures Lanes(c, x, 0)
  {
    hide Times;
    var g, r := LaneStart(c), LaneRate(c);
    TimesOne(r);
    assert Pow(r, 1) == Times(Pow(r, 0), r) == r;
    assert Pow(r, 2) == Times(r, r);
    assert Pow(r, 3) == Times(Times(r, r), r);
    assert Pow(r, 4) == Times(Times(Times(r, r), r), r);
    TimesAssociates(g, r, r);
    TimesAssociates(g, Times(r, r), r);
    TimesAssociates(g, Times(Times(r, r), r), r);
    hide Pow;
    forall j | 0 <= j < 4
      ensures x[j] == Times(g, Pow(r, j + 1)) && PreWarp(c, j) == x[j] + LaneBase(c)
    {
    }
  }

  lemma NextLanes(c: Control, x: seq<real>, i: nat)
    requires Lanes(c, x, i)
    ensures Lanes(c, Next(c, x), i + 1)
  {
    hide Times, Fourth, Pow;
    var g, r, y := LaneStart(c), LaneRate(c), Next(c, x);
    forall j | 0 <= j < 4
      ensures && PreWarp(c, 4 * (i + 1) + j) == y[j] + LaneBase(c)
              && (c.envelopeRate < 1.0 ==> y[j] == Times(g, Pow(r, 4 * (i + 1) + j + 1)))
    {
      PowPlusFour(r, 4 * i + j + 1);
      TimesAssociates(g, Pow(r, 4 * i + j + 1), Fourth(r));
      assert PreWarp(c, 4 * i + j) == x[j] + LaneBase(c);
    }
  }

  lemma LanesGains(c: Control, x: seq<real>, i: nat, gains: seq<real>)
    requires Lanes(c, x, i) && |gains| == 4
    requires forall j :: 0 <= j < 4 ==> gains[j] == x[j] + LaneBase(c)
    ensures forall j :: 0 <= j < 4 ==> PreWarp(c, 4 * i + j) == gains[j]
  {
    hide PreWarp;
  }

  lemma NothingScaled(t: Tuning, c: Control, ring: seq<real>, start: nat)
    ensures ScaledTo(t, c, ring, start, 0) == ring
  {
  }

  /** Four more frames of a division scaled. */
  lemma GroupScaled(t: Tuning, c: Control, ring0: seq<real>, ring1: seq<real>, ring2: seq<real>,
                    start: nat, i: nat, gains: seq<real>)
    requires |gains| == 4 && forall j :: 0 <= j < 4 ==> PreWarp(c, 4 * i + j) == gains[j]
    requires ring1 == ScaledTo(t, c, ring0, start, 4 * i) && Applied(t, gains, start + 4 * i, 4, ring1, ring2)
    ensures ring2 == ScaledTo(t, c, ring0, start, 4 * (i + 1))
  {
    hide PreWarp, Amplified, TotalGain;
    var at := start + 4 * i;
    forall k | 0 <= k < |ring2| ensures ring2[k] == ScaledTo(t, c, ring0, start, 4 * (i + 1))[k] {
      if at <= k < at + 4 {
        LaneGain(t, c, ring0[k], k - start, gains[k - at]);
      }
    }
  }

  lemma LaneGain(t: Tuning, c: Control, x: real, k: nat, gain: real)
    requires PreWarp(c, k) == gain
    ensures Amplified(t, x, gain) == x * TotalGain(t, c, k)
  {
    hide PreWarp;
  }
}
