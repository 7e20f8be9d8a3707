/** The gain computation of one compressor band (dsp/drc_kernel.c): level detector, envelope, and the
    32 gains of one division. */
module DrcGains {
  import opened Options

  const NEG_TWO_DB := 0.7943282347242815
  const DIVISION_FRAMES := 32

  /** The transcendental parts of a kernel: the compression curve, the detector's release rates, the
      sine warp and its inverse, the level difference in dB, the envelope rates. */
  datatype Tuning = Tuning(
    volumeGain: real -> real,
    satReleaseRateAtNegTwoDb: real,
    satReleaseRate: real -> real,
    warpSin: real -> real,
    warpAsin: real -> real,
    differenceDb: (real, real) -> real,
    attackRate: real -> real,
    releaseRate: real -> real,
    masterLinearGain: real)

  /** The control fields: maxAttackDiffDb is None for minus infinity. */
  datatype Control = Control(detectorAverage: real, compressorGain: real, maxAttackDiffDb: Option<real>,
                             envelopeRate: real, scaledDesiredGain: real)

  const INITIAL_CONTROL := Control(0.0, 1.0, None, 0.0, 0.0)

  function Min(a: real, b: real): real { if a < b then a else b }

  function Max(a: real, b: real): real { if a > b then a else b }

  function Abs(a: real): real { if a < 0.0 then -a else a }

  // ----- detector and envelope -----

  /** One frame of dk_update_detector_average. */
  function DetectorStep(t: Tuning, average: real, l: real, r: real): real {
    var gain := t.volumeGain(Max(Abs(l), Abs(r)));
    var next :=
      if gain > average then
        if gain > NEG_TWO_DB then average + (gain - average) * t.satReleaseRateAtNegTwoDb
        else average + (gain - average) * t.satReleaseRate(gain)
      else gain;
    Min(next, 1.0)
  }

  function Detector(t: Tuning, average: real, ls: seq<real>, rs: seq<real>): real
    requires |ls| == |rs|
  {
    if ls == [] then average else
      var n := |ls| - 1;
      DetectorStep(t, Detector(t, average, ls[..n], rs[..n]), ls[n], rs[n])
  }

  /** dk_update_envelope. */
  function Envelope(t: Tuning, c: Control): Control {
    var target := t.warpAsin(c.detectorAverage);
    var diff := t.differenceDb(c.compressorGain, target);
    if target > c.compressorGain then
      var x := 0.25 * (Min(0.0, Max(-12.0, diff)) + 12.0);
      c.(maxAttackDiffDb := None, envelopeRate := t.releaseRate(x), scaledDesiredGain := target)
    else
      var most := if c.maxAttackDiffDb.Some? then Max(c.maxAttackDiffDb.value, diff) else diff;
      c.(maxAttackDiffDb := Some(most), envelopeRate := t.attackRate(Max(0.5, most)), scaledDesiredGain := target)
  }

  /** The detector follows the louder channel, whichever it is and whatever its sign. */
  lemma DetectorFollowsLouder(t: Tuning, average: real, l: real, r: real)
    ensures DetectorStep(t, average, l, r) == DetectorStep(t, average, r, l) == DetectorStep(t, average, -l, r)
    ensures Abs(r) <= Abs(l) ==> DetectorStep(t, average, l, r) == DetectorStep(t, average, l, 0.0)
  {
    assert Max(Abs(l), Abs(r)) == Max(Abs(r), Abs(l)) == Max(Abs(-l), Abs(r));
  }

  /** It takes a lower gain at once. It approaches a higher one at the rate for -2 dB if the gain is above that
      level, and at the gain's own rate otherwise, and never exceeds 1. */
  lemma DetectorRates(t: Tuning, average: real, x: real, gain: real)
    requires x >= 0.0 && gain == t.volumeGain(x)
    ensures var next := DetectorStep(t, average, x, 0.0);
            && (gain <= average ==> next == if gain < 1.0 then gain else 1.0)
            && (gain > average && gain > 0.7943282347242815 ==>
                  var y := average + (gain - average) * t.satReleaseRateAtNegTwoDb;
                  next == if y < 1.0 then y else 1.0)
            && (gain > average && gain <= 0.7943282347242815 ==>
                  var y := average + (gain - average) * t.satReleaseRate(gain);
                  next == if y < 1.0 then y else 1.0)
  {
    assert Max(Abs(x), Abs(0.0)) == x;
  }

  /** Release exactly when the wanted gain is above the current one. It forgets the attack and takes its rate from
      the difference: 0 for 12 dB or more, 3 for none, evenly in between. An attack takes it from the largest
      difference since the last release, at least half a dB. */
  lemma EnvelopeMeans(t: Tuning, c: Control)
    ensures var c' := Envelope(t, c);
            var target := t.warpAsin(c.detectorAverage);
            var diff := t.differenceDb(c.compressorGain, target);
            && c'.scaledDesiredGain == target
            && c'.detectorAverage == c.detectorAverage && c'.compressorGain == c.compressorGain
            && (c'.maxAttackDiffDb == None <==> target > c.compressorGain)
            && (target > c.compressorGain ==>
                  exists x: real :: c'.envelopeRate == t.releaseRate(x) && 0.0 <= x <= 3.0
                                    && (diff <= -12.0 ==> x == 0.0) && (diff >= 0.0 ==> x == 3.0)
                                    && (-12.0 <= diff <= 0.0 ==> 4.0 * x == diff + 12.0))
            && (target <= c.compressorGain ==>
                  var most := c'.maxAttackDiffDb.value;
                  && most >= diff && (c.maxAttackDiffDb.Some? ==> most >= c.maxAttackDiffDb.value)
                  && (most == diff || c.maxAttackDiffDb == Some(most))
                  && c'.envelopeRate == t.attackRate(if most <= 0.5 then 0.5 else most))
  {
    var target := t.warpAsin(c.detectorAverage);
    if target > c.compressorGain {
      var x := 0.25 * (Min(0.0, Max(-12.0, t.differenceDb(c.compressorGain, target))) + 12.0);
      assert Envelope(t, c).envelopeRate == t.releaseRate(x);
    }
  }

  // ----- gains of one division -----

  /** Multiplication under a name of its own, so that proofs about order can treat it as a symbol. */
  function Times(a: real, b: real): real {
    a * b
  }

  lemma TimesPositive(a: real, b: real)
    requires a > 0.0 && b > 0.0
    ensures Times(a, b) > 0.0
  {
  }

  lemma TimesOrder(a: real, b: real, f: real)
    requires a < b && f > 0.0
    ensures Times(a, f) < Times(b, f)
  {
    var u := b - a;
    TimesPositive(u, f);
    assert u * f > 0.0;
    assert u * f == b * f - a * f;
  }

  lemma TimesNegates(a: real, b: real)
    ensures Times(a, -b) == -Times(a, b)
  {
  }

  lemma TimesOne(b: real)
    ensures Times(1.0, b) == b
  {
  }

  lemma TimesAssociates(a: real, b: real, c: real)
    ensures Times(Times(a, b), c) == Times(a, Times(b, c))
  {
  }

  function Pow(r: real, n: nat): real {
    if n == 0 then 1.0 else Times(Pow(r, n - 1), r)
  }

  function Fourth(r: real): real {
    Times(Times(Times(r, r), r), r)
  }

  /** The release lanes: each multiplied by r^4 from one group of four samples to the next, and clamped. */
  function ReleaseLane(c: real, r: real, k: nat): real {
    if k < 4 then Times(c, Pow(r, k + 1)) else Min(1.0, Times(ReleaseLane(c, r, k - 4), Fourth(r)))
  }

  /** The gain of sample k of a division before the sine warp. */
  function PreWarp(c: Control, k: nat): real {
    if c.envelopeRate < 1.0 then
      Times(c.compressorGain - c.scaledDesiredGain, Pow(1.0 - c.envelopeRate, k + 1)) + c.scaledDesiredGain
    else ReleaseLane(c.compressorGain, c.envelopeRate, k)
  }

  function TotalGain(t: Tuning, c: Control, k: nat): real {
    t.masterLinearGain * t.warpSin(PreWarp(c, k))
  }

  /** The gain stored at the end of a division. */
  function Compressed(c: Control): Control {
    c.(compressorGain := PreWarp(c, DIVISION_FRAMES - 1))
  }

  lemma PowPlusFour(r: real, n: nat)
    ensures Pow(r, n + 4) == Times(Pow(r, n), Fourth(r))
  {
    hide Times;
    var p := Pow(r, n);
    assert Pow(r, n + 1) == Times(p, r);
    assert Pow(r, n + 2) == Times(Times(p, r), r);
    assert Pow(r, n + 3) == Times(Times(Times(p, r), r), r);
    TimesAssociates(p, r, r);
    TimesAssociates(p, Times(r, r), r);
    TimesAssociates(p, Times(Times(r, r), r), r);
  }

  /** The per-sample recurrence the attack branch stands for. */
  function Approach(g: real, rate: real, target: real, n: nat): real {
    if n == 0 then g else Nudge(Approach(g, rate, target, n - 1), rate, target)
  }

  function Nudge(g: real, rate: real, target: real): real {
    g + Times(rate, target - g)
  }

  /** The attack gains are the per-sample exponential approach to the target. */
  lemma {:induction false} AttackIsApproach(c: Control, k: nat)
    requires c.envelopeRate < 1.0
    ensures PreWarp(c, k) == Approach(c.compressorGain, c.envelopeRate, c.scaledDesiredGain, k + 1)
    decreases k
  {
    hide Nudge, Times;
    var d, r := c.compressorGain - c.scaledDesiredGain, 1.0 - c.envelopeRate;
    var before := Approach(c.compressorGain, c.envelopeRate, c.scaledDesiredGain, k);
    assert Pow(r, k + 1) == Times(Pow(r, k), r);
    if k == 0 {
      TimesIdentity(d);
    } else {
      AttackIsApproach(c, k - 1);
    }
    assert Times(d, Pow(r, k)) + c.scaledDesiredGain == before;
    NudgeShrinks(d, Pow(r, k), c.envelopeRate, c.scaledDesiredGain);
    assert Approach(c.compressorGain, c.envelopeRate, c.scaledDesiredGain, k + 1) ==
           Nudge(before, c.envelopeRate, c.scaledDesiredGain);
  }

  lemma TimesIdentity(a: real)
    ensures Times(a, 1.0) == a
  {
  }

  /** One step of the recurrence multiplies the distance to the target by 1 - rate. */
  lemma NudgeShrinks(d: real, q: real, rate: real, target: real)
    ensures Nudge(Times(d, q) + target, rate, target) == Times(d, Times(q, 1.0 - rate)) + target
  {
    var e := d * q;
    assert d * (q * (1.0 - rate)) == e * (1.0 - rate) == e - e * rate;
    assert rate * (target - (e + target)) == -(rate * e);
  }

  /** For a rate strictly between 0 and 1 the approach moves towards the target at every sample and
      never passes it. */
  lemma {:induction false} ApproachMonotone(g: real, rate: real, target: real, n: nat)
    requires 0.0 < rate < 1.0
    ensures var a, b := Approach(g, rate, target, n), Approach(g, rate, target, n + 1);
            && (g > target ==> g >= a > b > target)
            && (g < target ==> g <= a < b < target)
            && (g == target ==> a == b == target)
    decreases n
  {
    hide Nudge;
    if n > 0 {
      ApproachMonotone(g, rate, target, n - 1);
    }
    Contract(Approach(g, rate, target, n), rate, target);
  }

  lemma Contract(a: real, rate: real, target: real)
    requires 0.0 < rate < 1.0
    ensures var b := Nudge(a, rate, target);
            (a > target ==> a > b > target) && (a < target ==> a < b < target) && (a == target ==> b == a)
  {
    var d := target - a;
    if d != 0.0 {
      hide Times;
      var e := if d > 0.0 then d else -d;
      TimesPositive(rate, e);
      TimesOrder(rate, 1.0, e);
      TimesOne(e);
      TimesNegates(rate, d);
    }
  }

  /** For rates of at least 1 clamping a lane once per group is clamping the exponential itself; the
      first group is not clamped. */
  lemma {:induction false} ReleaseClosedForm(c: real, r: real, k: nat)
    requires r >= 1.0
    ensures ReleaseLane(c, r, k) == if k < 4 then Times(c, Pow(r, k + 1)) else Min(1.0, Times(c, Pow(r, k + 1)))
    decreases k
  {
    if k >= 4 {
      hide Times, Fourth, Pow;
      ReleaseClosedForm(c, r, k - 4);
      PowPlusFour(r, k - 3);
      TimesAssociates(c, Pow(r, k - 3), Fourth(r));
      FourthGrows(r);
      ClampStep(Times(c, Pow(r, k - 3)), Fourth(r));
    }
  }

  /** Growth by a factor of at least 1 commutes with the clamp at 1. */
  lemma ClampStep(e: real, f: real)
    requires f >= 1.0
    ensures Min(1.0, Times(Min(1.0, e), f)) == Min(1.0, Times(e, f))
  {
    if e > 1.0 {
      hide Times;
      TimesOrder(1.0, e, f);
      TimesOne(f);
    }
  }

  lemma FourthGrows(r: real)
    requires r >= 1.0
    ensures Fourth(r) >= 1.0
  {
    hide Times;
    TimesGrows(r, r);
    TimesGrows(Times(r, r), r);
    TimesGrows(Times(Times(r, r), r), r);
  }

  lemma TimesGrows(a: real, b: real)
    requires a >= 1.0 && b >= 1.0
    ensures Times(a, b) >= 1.0
  {
    hide Times;
    TimesOne(b);
    if a > 1.0 {
      TimesOrder(1.0, a, b);
    }
  }

  // ----- what the gains are, in closed form -----

  /** The gain after n samples of a division: the recurrence, or the clamped exponential, whose first group of
      four is not clamped. */
  function GainAfter(c: Control, n: nat): real {
    if c.envelopeRate < 1.0 then Approach(c.compressorGain, c.envelopeRate, c.scaledDesiredGain, n)
    else if n <= 4 then Times(c.compressorGain, Pow(c.envelopeRate, n))
    else Min(1.0, Times(c.compressorGain, Pow(c.envelopeRate, n)))
  }

  /** Sample k is scaled by the master gain times the warped gain after k + 1 samples. */
  lemma GainOfSample(t: Tuning, c: Control, k: nat)
    ensures PreWarp(c, k) == GainAfter(c, k + 1)
    ensures TotalGain(t, c, k) == t.masterLinearGain * t.warpSin(GainAfter(c, k + 1))
  {
    hide Pow, Times, Approach;
    if c.envelopeRate < 1.0 {
      AttackIsApproach(c, k);
    } else {
      ReleaseClosedForm(c.compressorGain, c.envelopeRate, k);
    }
  }

  /** What a division stores is the gain after its 32 samples, and nothing else changes. */
  lemma StoredGain(c: Control)
    ensures Compressed(c) == c.(compressorGain := GainAfter(c, 32))
  {
    hide GainAfter, PreWarp;
    GainOfSample(Tuning(x => x, 0.0, x => x, x => x, x => x, (x, y) => x, x => x, x => x, 0.0), c, 31);
  }

  lemma {:induction false} ApproachGoesOn(g: real, rate: real, target: real, m: nat, n: nat)
    ensures Approach(Approach(g, rate, target, m), rate, target, n) == Approach(g, rate, target, m + n)
    decreases n
  {
    hide Nudge;
    if n > 0 {
      ApproachGoesOn(g, rate, target, m, n - 1);
    }
  }

  /** While the envelope stays in attack, the gains of the next division go on where the last one ended. */
  lemma AttackGoesOn(c: Control, k: nat)
    requires c.envelopeRate < 1.0
    ensures PreWarp(Compressed(c), k) == Approach(c.compressorGain, c.envelopeRate, c.scaledDesiredGain, 33 + k)
  {
    hide Approach, PreWarp, Compressed;
    StoredGain(c);
    AttackIsApproach(Compressed(c), k);
    ApproachGoesOn(c.compressorGain, c.envelopeRate, c.scaledDesiredGain, 32, k + 1);
  }

  /** In release the stored gain never exceeds 1, and growth goes on from it. */
  lemma ReleaseGoesOn(c: Control, k: nat)
    requires c.envelopeRate >= 1.0
    ensures var stored := Compressed(c).compressorGain;
            && stored <= 1.0
            && (k < 4 ==> PreWarp(Compressed(c), k) == Times(stored, Pow(c.envelopeRate, k + 1)))
            && (k >= 4 ==> PreWarp(Compressed(c), k) == Min(1.0, Times(stored, Pow(c.envelopeRate, k + 1))))
  {
    hide Pow, Times, PreWarp, Compressed;
    StoredGain(c);
    GainOfSample(Tuning(x => x, 0.0, x => x, x => x, x => x, (x, y) => x, x => x, x => x, 0.0), Compressed(c), k);
  }
}
