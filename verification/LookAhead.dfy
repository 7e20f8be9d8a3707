/** The look-ahead of one compressor band (dsp/drc_kernel.c), as a queue that takes one frame and gives
    one frame, and what a whole stream through it looks like. */
module LookAhead {
  import opened DrcGains
  import Biquads

  /** The division a position belongs to, and its place inside. */
  function DivisionOf(p: nat): (k: nat)
    ensures 32 * k <= p < 32 * k + 32
  {
    p / 32
  }

  function PlaceOf(p: nat): (j: nat)
    ensures j < 32 && p == 32 * DivisionOf(p) + j
  {
    p % 32
  }

  // ----- the look-ahead queue, sample by sample -----

  /** A kernel seen from outside: the delayed samples of both channels, the place within the current
      division, the control fields. */
  datatype Kernel = Kernel(left: seq<real>, right: seq<real>, offset: nat, control: Control)

  ghost predicate Proper(s: Kernel) {
    |s.left| == |s.right| && |s.left| >= 32 && s.offset < 32
  }

  function ScaleFront(t: Tuning, c: Control, q: seq<real>): (r: seq<real>)
    ensures |r| == |q|
  {
    seq(|q|, i requires 0 <= i < |q| => if i < 32 then q[i] * TotalGain(t, c, i) else q[i])
  }

  /** Scale the next output division and remember the gain reached (dk_compress_output). */
  function Compress(t: Tuning, s: Kernel): (s': Kernel)
    ensures |s'.left| == |s.left| && |s'.right| == |s.right| && s'.offset == s.offset
  {
    Kernel(ScaleFront(t, s.control, s.left), ScaleFront(t, s.control, s.right), s.offset, Compressed(s.control))
  }

  /** The control fields that follow from the 32 newest frames. */
  function Updated(t: Tuning, c: Control, ls: seq<real>, rs: seq<real>): Control
    requires |ls| == |rs|
  {
    Envelope(t, c.(detectorAverage := Detector(t, c.detectorAverage, ls, rs)))
  }

  /** dk_process_one_division. */
  function Division(t: Tuning, s: Kernel): (s': Kernel)
    requires |s.left| == |s.right| && |s.left| >= 32
    ensures |s'.left| == |s.left| && |s'.right| == |s.right| && s'.offset == s.offset
  {
    var n := |s.left| - 32;
    Compress(t, s.(control := Updated(t, s.control, s.left[n..], s.right[n..])))
  }

  /** The first call: an envelope for the division about to leave. */
  function Prime(t: Tuning, s: Kernel): Kernel {
    Compress(t, s.(control := Envelope(t, s.control)))
  }

  /** One frame in; the oldest frame of the queue comes out. */
  function Push(t: Tuning, s: Kernel, l: real, r: real): (s': Kernel)
    requires |s.left| == |s.right| && |s.left| >= 32 && s.offset < 32
    ensures Proper(s') && |s'.left| == |s.left|
  {
    var moved := s.(left := s.left[1..] + [l], right := s.right[1..] + [r]);
    if s.offset + 1 == 32 then Division(t, moved.(offset := 0))
    else moved.(offset := s.offset + 1)
  }

  /** A block of frames; the result holds the new state and the frames that came out. */
  function PushAll(t: Tuning, s: Kernel, ls: seq<real>, rs: seq<real>): (res: (Kernel, seq<real>, seq<real>))
    requires |s.left| == |s.right| && |s.left| >= 32 && s.offset < 32
    requires |ls| == |rs|
    ensures Proper(res.0) && |res.0.left| == |s.left| && |res.1| == |res.2| == |ls|
  {
    if ls == [] then (s, [], []) else
      var n := |ls| - 1;
      var (s', ol, orr) := PushAll(t, s, ls[..n], rs[..n]);
      (Push(t, s', ls[n], rs[n]), ol + [s'.left[0]], orr + [s'.right[0]])
  }

  /** Processing a + b in one call is processing a, then b. */
  lemma {:induction false} PushAllSplit(t: Tuning, s: Kernel, al: seq<real>, ar: seq<real>,
                                        bl: seq<real>, br: seq<real>)
    requires Proper(s) && |al| == |ar| && |bl| == |br|
    ensures var (s', ol, orr) := PushAll(t, s, al, ar);
            var (s'', pl, pr) := PushAll(t, s', bl, br);
            PushAll(t, s, al + bl, ar + br) == (s'', ol + pl, orr + pr)
    decreases |bl|
  {
    hide Push;
    var (s', ol, orr) := PushAll(t, s, al, ar);
    if bl == [] {
      assert al + bl == al && ar + br == ar && ol + [] == ol && orr + [] == orr;
    } else {
      var n := |bl| - 1;
      PushAllSplit(t, s, al, ar, bl[..n], br[..n]);
      assert (al + bl)[..|al| + n] == al + bl[..n] && (ar + br)[..|ar| + n] == ar + br[..n];
      var (s1, pl, pr) := PushAll(t, s', bl[..n], br[..n]);
      assert ol + (pl + [s1.left[0]]) == (ol + pl) + [s1.left[0]];
      assert orr + (pr + [s1.right[0]]) == (orr + pr) + [s1.right[0]];
    }
  }

  /** The queue after n frames have entered and n have left, no division processed. */
  function Moved(s: Kernel, ls: seq<real>, rs: seq<real>): (s': Kernel)
    requires |ls| == |rs| <= |s.left| == |s.right|
    ensures |s'.left| == |s.left| && |s'.right| == |s.right|
  {
    var n := |ls|;
    Kernel(s.left[n..] + ls, s.right[n..] + rs, s.offset + n, s.control)
  }

  lemma PushSnoc(t: Tuning, s: Kernel, ls: seq<real>, rs: seq<real>, l: real, r: real)
    requires Proper(s) && |ls| == |rs|
    ensures var (s', ol, orr) := PushAll(t, s, ls, rs);
            PushAll(t, s, ls + [l], rs + [r]) == (Push(t, s', l, r), ol + [s'.left[0]], orr + [s'.right[0]])
  {
    hide Push;
    assert (ls + [l])[..|ls|] == ls && (rs + [r])[..|rs|] == rs;
  }

  lemma PushNothing(t: Tuning, s: Kernel)
    requires Proper(s)
    ensures PushAll(t, s, [], []) == (s, [], [])
  {
  }

  lemma MovedSnoc(s: Kernel, ls: seq<real>, rs: seq<real>, l: real, r: real)
    requires |ls| == |rs| < |s.left| == |s.right|
    ensures var m, m' := Moved(s, ls, rs), Moved(s, ls + [l], rs + [r]);
            && m'.left == m.left[1..] + [l] && m'.right == m.right[1..] + [r]
            && s.left[..|ls|] + [m.left[0]] == s.left[..|ls| + 1]
            && s.right[..|ls|] + [m.right[0]] == s.right[..|ls| + 1]
  {
  }

  /** Frames that do not complete a division only move the queue. */
  lemma {:induction false} PushInside(t: Tuning, s: Kernel, ls: seq<real>, rs: seq<real>)
    requires Proper(s) && |ls| == |rs| && s.offset + |ls| < 32
    ensures PushAll(t, s, ls, rs) == (Moved(s, ls, rs), s.left[..|ls|], s.right[..|ls|])
    decreases |ls|
  {
    hide Division, PushAll;
    var n := |ls| - 1;
    if n < 0 {
      PushNothing(t, s);
      assert s.left[0..] + [] == s.left && s.right[0..] + [] == s.right;
    } else {
      PushInside(t, s, ls[..n], rs[..n]);
      PushSnoc(t, s, ls[..n], rs[..n], ls[n], rs[n]);
      MovedSnoc(s, ls[..n], rs[..n], ls[n], rs[n]);
      assert ls == ls[..n] + [ls[n]] && rs == rs[..n] + [rs[n]];
    }
  }

  /** A fragment that ends where the division ends, or before. */
  lemma PushFragment(t: Tuning, s: Kernel, ls: seq<real>, rs: seq<real>)
    requires Proper(s) && |ls| == |rs| && 0 < |ls| && s.offset + |ls| <= 32
    ensures PushAll(t, s, ls, rs) ==
            (if s.offset + |ls| == 32 then Division(t, Moved(s, ls, rs).(offset := 0)) else Moved(s, ls, rs),
             s.left[..|ls|], s.right[..|ls|])
  {
    hide Division, PushAll;
    if s.offset + |ls| < 32 {
      PushInside(t, s, ls, rs);
    } else {
      var n := |ls| - 1;
      PushInside(t, s, ls[..n], rs[..n]);
      PushSnoc(t, s, ls[..n], rs[..n], ls[n], rs[n]);
      MovedSnoc(s, ls[..n], rs[..n], ls[n], rs[n]);
      assert ls == ls[..n] + [ls[n]] && rs == rs[..n] + [rs[n]];
    }
  }

  // ----- what a stream looks like -----

  function Zeros(n: nat): seq<real> {
    seq(n, _ => 0.0)
  }

  function AtStart(d: nat): Kernel {
    Kernel(Zeros(d), Zeros(d), 0, INITIAL_CONTROL)
  }

  /** The input d samples ago, zero before the stream began. */
  function Delayed(xs: seq<real>, d: nat, p: nat): real
    requires p < |xs| + d
  {
    if p < d then 0.0 else xs[p - d]
  }

  /** The control fields output division k is scaled with: they follow from input divisions 0 to k - 1. */
  function DivisionControl(t: Tuning, ls: seq<real>, rs: seq<real>, k: nat): Control
    requires |ls| == |rs| && 32 * k <= |ls|
  {
    if k == 0 then Envelope(t, INITIAL_CONTROL) else
      var from, to := 32 * (k - 1), 32 * k;
      Updated(t, Compressed(DivisionControl(t, ls, rs, k - 1)), ls[from..to], rs[from..to])
  }

  /** From division to division: the gain goes on where the last division ended, at first from 1; the detector has
      seen the last input division, and its level, warped, is the new target. */
  lemma ControlOfDivision(t: Tuning, ls: seq<real>, rs: seq<real>, k: nat)
    requires |ls| == |rs| && 32 * k <= |ls|
    ensures var c := DivisionControl(t, ls, rs, k);
            && c.scaledDesiredGain == t.warpAsin(c.detectorAverage)
            && (k == 0 ==> c.compressorGain == 1.0 && c.detectorAverage == 0.0)
            && (k > 0 ==>
                  var b := DivisionControl(t, ls, rs, k - 1);
                  var from, to := 32 * (k - 1), 32 * k;
                  && c.compressorGain == GainAfter(b, 32)
                  && c.detectorAverage == Detector(t, b.detectorAverage, ls[from..to], rs[from..to]))
  {
    hide Compressed, Envelope, Detector, GainAfter;
    if k == 0 {
      EnvelopeMeans(t, INITIAL_CONTROL);
    } else {
      var from, to := 32 * (k - 1), 32 * k;
      var b := DivisionControl(t, ls, rs, k - 1);
      StoredGain(b);
      EnvelopeMeans(t, Compressed(b).(detectorAverage :=
        Detector(t, Compressed(b).detectorAverage, ls[from..to], rs[from..to])));
    }
  }

  lemma {:induction false} DivisionControlPrefix(t: Tuning, ls: seq<real>, rs: seq<real>, n: nat, k: nat)
    requires |ls| == |rs| && n <= |ls| && 32 * k <= n
    ensures DivisionControl(t, ls[..n], rs[..n], k) == DivisionControl(t, ls, rs, k)
    decreases k
  {
    hide Updated, Compressed, Envelope;
    if k > 0 {
      DivisionControlPrefix(t, ls, rs, n, k - 1);
      var from, to := 32 * (k - 1), 32 * k;
      assert ls[..n][from..to] == ls[from..to] && rs[..n][from..to] == rs[from..to];
    }
  }

  /** The gain output position p leaves with. */
  function GainAt(t: Tuning, ls: seq<real>, rs: seq<real>, p: nat): real
    requires |ls| == |rs| && 32 * DivisionOf(p) <= |ls|
  {
    TotalGain(t, DivisionControl(t, ls, rs, DivisionOf(p)), PlaceOf(p))
  }

  /** A queue in step with a stream: position p = n + i holds the sample of d frames ago, already scaled
      with the gain of its division if the division has been reached, and untouched otherwise. */
  ghost predicate QueueInStep(t: Tuning, q: seq<real>, xs: seq<real>, ls: seq<real>, rs: seq<real>) {
    && |xs| == |ls| == |rs|
    && forall i :: 0 <= i < |q| ==>
         var p := |xs| + i;
         q[i] == if DivisionOf(p) <= DivisionOf(|xs|) then Delayed(xs, |q|, p) * GainAt(t, ls, rs, p)
                 else Delayed(xs, |q|, p)
  }

  ghost predicate StreamInStep(t: Tuning, s: Kernel, ls: seq<real>, rs: seq<real>) {
    && |ls| == |rs| && Proper(s)
    && s.offset == PlaceOf(|ls|)
    && s.control == Compressed(DivisionControl(t, ls, rs, DivisionOf(|ls|)))
    && QueueInStep(t, s.left, ls, ls, rs)
    && QueueInStep(t, s.right, rs, ls, rs)
  }

  lemma PrimeInStep(t: Tuning, d: nat)
    requires d >= 32
    ensures StreamInStep(t, Prime(t, AtStart(d)), [], [])
  {
    hide Envelope, TotalGain, Compressed;
  }

  /** The queue after a frame has entered, before the control fields change. */
  lemma QueueMoves(t: Tuning, q: seq<real>, xs: seq<real>, ls: seq<real>, rs: seq<real>, x: real, l: real, r: real)
    requires |q| >= 32 && QueueInStep(t, q, xs, ls, rs)
    ensures var n := |xs|;
            var q' := q[1..] + [x];
            forall i :: 0 <= i < |q'| ==>
              var p := n + 1 + i;
              q'[i] == if DivisionOf(p) <= DivisionOf(n)
                       then Delayed(xs + [x], |q|, p) * GainAt(t, ls + [l], rs + [r], p)
                       else Delayed(xs + [x], |q|, p)
  {
    hide DivisionControl, TotalGain;
    var n := |xs|;
    var q' := q[1..] + [x];
    forall i | 0 <= i < |q'|
      ensures var p := n + 1 + i;
              q'[i] == if DivisionOf(p) <= DivisionOf(n)
                       then Delayed(xs + [x], |q|, p) * GainAt(t, ls + [l], rs + [r], p)
                       else Delayed(xs + [x], |q|, p)
    {
      var p := n + 1 + i;
      if i + 1 < |q| {
        assert q'[i] == q[i + 1];
        if DivisionOf(p) <= DivisionOf(n) {
          DivisionControlPrefix(t, ls + [l], rs + [r], n, DivisionOf(p));
          assert (ls + [l])[..n] == ls && (rs + [r])[..n] == rs;
        }
      }
    }
  }

  /** Completing a division scales exactly the next 32 samples, which nothing has scaled before. */
  lemma QueueScales(t: Tuning, q: seq<real>, xs: seq<real>, ls: seq<real>, rs: seq<real>, k: nat)
    requires |xs| == |ls| == |rs| == 32 * k && |q| >= 32
    requires forall i :: 0 <= i < |q| ==> q[i] == Delayed(xs, |q|, |xs| + i)
    ensures QueueInStep(t, ScaleFront(t, DivisionControl(t, ls, rs, k), q), xs, ls, rs)
  {
    hide DivisionControl, TotalGain;
    var c := DivisionControl(t, ls, rs, k);
    var q' := ScaleFront(t, c, q);
    forall i | 0 <= i < |q'|
      ensures var p := |xs| + i;
              q'[i] == if DivisionOf(p) <= DivisionOf(|xs|)
                       then Delayed(xs, |q'|, p) * GainAt(t, ls, rs, p) else Delayed(xs, |q'|, p)
    {
      var p := |xs| + i;
      assert DivisionOf(p) <= DivisionOf(|xs|) <==> i < 32;
      if i < 32 {
        assert DivisionOf(p) == k && PlaceOf(p) == i;
      }
    }
  }

  lemma PushInStep(t: Tuning, s: Kernel, ls: seq<real>, rs: seq<real>, l: real, r: real)
    requires StreamInStep(t, s, ls, rs)
    ensures StreamInStep(t, Push(t, s, l, r), ls + [l], rs + [r])
  {
    hide Detector, Envelope, TotalGain, Compressed, DivisionControl, Division, Delayed;
    var n := |ls|;
    var k := DivisionOf(n);
    QueueMoves(t, s.left, ls, ls, rs, l, l, r);
    QueueMoves(t, s.right, rs, ls, rs, r, l, r);
    if s.offset + 1 < 32 {
      assert DivisionOf(n + 1) == k && PlaceOf(n + 1) == s.offset + 1;
      DivisionControlPrefix(t, ls + [l], rs + [r], n, k);
      assert (ls + [l])[..n] == ls && (rs + [r])[..n] == rs;
    } else {
      var moved := s.(left := s.left[1..] + [l], right := s.right[1..] + [r], offset := 0);
      CompletesInStep(t, moved, ls + [l], rs + [r], k);
    }
  }

  /** The 32nd frame of a division: the queue holds the plain delayed input, and processing the division
      brings it in step again. */
  lemma CompletesInStep(t: Tuning, s: Kernel, ls: seq<real>, rs: seq<real>, k: nat)
    requires |ls| == |rs| == 32 * (k + 1) && Proper(s) && s.offset == 0
    requires s.control == Compressed(DivisionControl(t, ls[..|ls| - 1], rs[..|rs| - 1], k))
    requires forall i :: 0 <= i < |s.left| ==>
               (DivisionOf(|ls| + i) <= k || s.left[i] == Delayed(ls, |s.left|, |ls| + i))
    requires forall i :: 0 <= i < |s.right| ==>
               (DivisionOf(|rs| + i) <= k || s.right[i] == Delayed(rs, |s.right|, |rs| + i))
    ensures StreamInStep(t, Division(t, s), ls, rs)
  {
    hide Detector, Envelope, TotalGain, Compressed;
    NewestFrames(s.left, ls, 32 * k, k);
    NewestFrames(s.right, rs, 32 * k, k);
    DivisionControlPrefix(t, ls, rs, |ls| - 1, k);
    var c := DivisionControl(t, ls, rs, k + 1);
    assert ls[32 * k..32 * (k + 1)] == ls[32 * k..] && rs[32 * k..32 * (k + 1)] == rs[32 * k..];
    assert s.control == Compressed(DivisionControl(t, ls, rs, k));
    assert c == Updated(t, s.control, s.left[|s.left| - 32..], s.right[|s.right| - 32..]);
    QueueScales(t, s.left, ls, ls, rs, k + 1);
    QueueScales(t, s.right, rs, ls, rs, k + 1);
    hide Updated, DivisionControl;
    assert PlaceOf(|ls|) == 0 && DivisionOf(|ls|) == k + 1;
  }

  /** When a division completes, the 32 newest queue entries are exactly the last 32 input samples. */
  lemma NewestFrames(q: seq<real>, xs: seq<real>, from: nat, k: nat)
    requires |q| >= 32 && from == 32 * k && |xs| == from + 32
    requires forall i :: 0 <= i < |q| ==>
               (DivisionOf(|xs| + i) <= k || q[i] == Delayed(xs, |q|, |xs| + i))
    ensures q[|q| - 32..] == xs[from..]
  {
    var newest := q[|q| - 32..];
    forall j | 0 <= j < 32 ensures newest[j] == xs[from..][j] {
      var i := |q| - 32 + j;
      assert DivisionOf(|xs| + i) > k;
      assert q[i] == Delayed(xs, |q|, |xs| + i);
    }
  }

  lemma NextOut(t: Tuning, s: Kernel, ls: seq<real>, rs: seq<real>)
    requires StreamInStep(t, s, ls, rs)
    ensures s.left[0] == Delayed(ls, |s.left|, |ls|) * GainAt(t, ls, rs, |ls|)
    ensures s.right[0] == Delayed(rs, |s.right|, |rs|) * GainAt(t, ls, rs, |rs|)
  {
    hide GainAt, Delayed;
  }

  /** The samples that have left are those of d frames ago, each scaled once. */
  ghost predicate OutputInStep(t: Tuning, d: nat, out: seq<real>, xs: seq<real>, ls: seq<real>, rs: seq<real>) {
    && |out| == |xs| == |ls| == |rs|
    && forall p :: 0 <= p < |out| ==> out[p] == Delayed(xs, d, p) * GainAt(t, ls, rs, p)
  }

  lemma OutputExtends(t: Tuning, d: nat, out: seq<real>, xs: seq<real>, ls: seq<real>, rs: seq<real>,
                      o: real, x: real, l: real, r: real)
    requires OutputInStep(t, d, out, xs, ls, rs) && d > 0
    requires o == Delayed(xs, d, |xs|) * GainAt(t, ls, rs, |ls|)
    ensures OutputInStep(t, d, out + [o], xs + [x], ls + [l], rs + [r])
  {
    hide TotalGain, DivisionControl;
    var n := |xs|;
    var ls', rs' := ls + [l], rs + [r];
    forall p | 0 <= p <= n ensures (out + [o])[p] == Delayed(xs + [x], d, p) * GainAt(t, ls', rs', p) {
      DivisionControlPrefix(t, ls', rs', n, DivisionOf(p));
      assert ls'[..n] == ls && rs'[..n] == rs;
    }
  }

  /** The enabled kernel from its start: every sample that leaves is the input of d frames ago, scaled
      once, with the gain of its own 32-frame division. */
  lemma {:induction false} EnabledOutput(t: Tuning, d: nat, ls: seq<real>, rs: seq<real>)
    requires d >= 32 && |ls| == |rs|
    ensures var (s, ol, orr) := PushAll(t, Prime(t, AtStart(d)), ls, rs);
            && |s.left| == d && StreamInStep(t, s, ls, rs)
            && OutputInStep(t, d, ol, ls, ls, rs) && OutputInStep(t, d, orr, rs, ls, rs)
    decreases |ls|
  {
    hide Push, PushAll, StreamInStep, Prime;
    if ls == [] {
      PrimeInStep(t, d);
      PrimeProper(t, d);
      PushNothing(t, Prime(t, AtStart(d)));
    } else {
      var n := |ls| - 1;
      var ls0, rs0, l, r := ls[..n], rs[..n], ls[n], rs[n];
      assert ls == ls0 + [l] && rs == rs0 + [r];
      EnabledOutput(t, d, ls0, rs0);
      PrimeProper(t, d);
      var (s0, ol0, or0) := PushAll(t, Prime(t, AtStart(d)), ls0, rs0);
      PushInStep(t, s0, ls0, rs0, l, r);
      PushSnoc(t, Prime(t, AtStart(d)), ls0, rs0, l, r);
      NextOut(t, s0, ls0, rs0);
      hide OutputInStep;
      OutputExtends(t, d, ol0, ls0, ls0, rs0, s0.left[0], l, l, r);
      OutputExtends(t, d, or0, rs0, ls0, rs0, s0.right[0], r, l, r);
    }
  }

  lemma PrimeProper(t: Tuning, d: nat)
    requires d >= 32
    ensures Proper(Prime(t, AtStart(d))) && |Prime(t, AtStart(d)).left| == d
  {
  }

  /** Blocks of both channels one after the other. */
  function PushBlocks(t: Tuning, s: Kernel, ls: seq<seq<real>>, rs: seq<seq<real>>)
      : (res: (Kernel, seq<seq<real>>, seq<seq<real>>))
    requires |s.left| == |s.right| && |s.left| >= 32 && s.offset < 32
    requires |ls| == |rs| && forall k :: 0 <= k < |ls| ==> |ls[k]| == |rs[k]|
    ensures Proper(res.0) && |res.0.left| == |s.left| && |res.1| == |res.2| == |ls|
  {
    if ls == [] then (s, [], []) else
      var n := |ls| - 1;
      var (s', ol, orr) := PushBlocks(t, s, ls[..n], rs[..n]);
      var (s'', pl, pr) := PushAll(t, s', ls[n], rs[n]);
      (s'', ol + [pl], orr + [pr])
  }

  /** Any cut into blocks is the uncut run. */
  lemma {:induction false} PushBlocksIsPushAll(t: Tuning, s: Kernel, ls: seq<seq<real>>, rs: seq<seq<real>>)
    requires Proper(s) && |ls| == |rs| && forall k :: 0 <= k < |ls| ==> |ls[k]| == |rs[k]|
    ensures |Biquads.Concat(ls)| == |Biquads.Concat(rs)|
    ensures var (s', ol, orr) := PushBlocks(t, s, ls, rs);
            PushAll(t, s, Biquads.Concat(ls), Biquads.Concat(rs)) == (s', Biquads.Concat(ol), Biquads.Concat(orr))
    decreases |ls|
  {
    hide PushAll;
    if ls == [] {
      PushNothing(t, s);
    } else {
      var n := |ls| - 1;
      PushBlocksIsPushAll(t, s, ls[..n], rs[..n]);
      var (s', ol, orr) := PushBlocks(t, s, ls[..n], rs[..n]);
      var (s'', pl, pr) := PushAll(t, s', ls[n], rs[n]);
      PushAllSplit(t, s, Biquads.Concat(ls[..n]), Biquads.Concat(rs[..n]), ls[n], rs[n]);
      assert (ol + [pl])[..n] == ol && (orr + [pr])[..n] == orr;
    }
  }

  /** The enabled kernel over any sequence of blocks. */
  lemma EnabledStream(t: Tuning, d: nat, ls: seq<seq<real>>, rs: seq<seq<real>>)
    requires d >= 32 && |ls| == |rs| && forall k :: 0 <= k < |ls| ==> |ls[k]| == |rs[k]|
    ensures var (s, ol, orr) := PushBlocks(t, Prime(t, AtStart(d)), ls, rs);
            var xl, xr := Biquads.Concat(ls), Biquads.Concat(rs);
            && OutputInStep(t, d, Biquads.Concat(ol), xl, xl, xr)
            && OutputInStep(t, d, Biquads.Concat(orr), xr, xl, xr)
  {
    hide PushAll, PushBlocks, OutputInStep, Prime;
    PrimeProper(t, d);
    PushBlocksIsPushAll(t, Prime(t, AtStart(d)), ls, rs);
    EnabledOutput(t, d, Biquads.Concat(ls), Biquads.Concat(rs));
  }

  /** A disabled kernel from its start: the output is the input delayed by d, and nothing else. */
  lemma DisabledOutput(d: nat, q: seq<real>, out: seq<real>, xs: seq<real>)
    requires |q| == d && |out| == |xs| && out + q == Zeros(d) + xs
    ensures forall p :: 0 <= p < |xs| ==> out[p] == Delayed(xs, d, p)
  {
    forall p | 0 <= p < |xs| ensures out[p] == Delayed(xs, d, p) {
      assert out[p] == (out + q)[p] == (Zeros(d) + xs)[p];
    }
  }

  /** Blocks of a disabled kernel one after the other: block sizes are irrelevant. */
  lemma DelayComposes(q0: seq<real>, q1: seq<real>, q2: seq<real>,
                      x1: seq<real>, o1: seq<real>, x2: seq<real>, o2: seq<real>)
    requires o1 + q1 == q0 + x1 && o2 + q2 == q1 + x2
    ensures (o1 + o2) + q2 == q0 + (x1 + x2)
  {
    assert (o1 + o2) + q2 == o1 + (o2 + q2);
    assert o1 + (q1 + x2) == (o1 + q1) + x2;
  }
}
