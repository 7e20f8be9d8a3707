/** Packet loss concealment for mSBC (plc/cras_plc.c): lost frames are replaced by samples from the history
    of what was played, and the first good frame is blended with the continuation of the replacement.
    Samples are scaled over the reals; the quality of the match is a parameter. */
module Plc {
  const FRAME := 120
  const WINDOW := 256
  const TEMPLATE := 64
  const HISTORY := 375
  const RECONVERGENCE := 36
  const OVERLAP := 16
  const BUFFER := 547

  type Sample = x: int | -32768 <= x < 32768 witness 0

  /** f_to_s16: clamped, then truncated toward zero. */
  function ToS16(x: real): (s: Sample)
    ensures -32768.0 <= x <= 32767.0 ==> -1.0 < s as real - x < 1.0
    ensures 0.0 <= x <= 32767.0 ==> 0.0 <= s as real <= x
    ensures -32768.0 <= x <= 0.0 ==> x <= s as real <= 0.0
    ensures (x > 32767.0 ==> s == 32767) && (x < -32768.0 ==> s == -32768)
  {
    if x > 32767.0 then 32767
    else if x < -32768.0 then -32768
    else if x >= 0.0 then x.Floor
    else -((-x).Floor)
  }

  function Scaled(scaler: real, x: Sample): Sample {
    ToS16(scaler * x as real)
  }

  /** Conversion keeps the order. */
  lemma ToS16Keeps(x: real, y: real)
    requires x <= y
    ensures ToS16(x) <= ToS16(y)
  {
    assert x.Floor <= y.Floor && (-y).Floor <= (-x).Floor;
  }

  lemma SampleStays(a: Sample)
    ensures Scaled(1.0, a) == ToS16(a as real) == a
  {
    assert 1.0 * a as real == a as real;
  }

  /** The weight of the fading-out signal. */
  const RCOS: seq<real> := [
    0.99148655, 0.96623611, 0.92510857, 0.86950446, 0.80131732, 0.72286918, 0.63683150, 0.54613418,
    0.45386582, 0.36316850, 0.27713082, 0.19868268, 0.13049554, 0.07489143, 0.03376389, 0.00851345
  ]

  lemma WeightsAddUp(i: nat)
    requires i < OVERLAP
    ensures |RCOS| == OVERLAP && RCOS[i] + RCOS[15 - i] == 1.0 && 0.0 < RCOS[i] < 1.0
    ensures i < 15 ==> RCOS[i] > RCOS[i + 1]
    ensures RCOS[0] >= 0.99 && (i < 8 <==> RCOS[i] > 0.5)
  {
  }

  function Product(a: real, b: real): real {
    a * b
  }

  function Mix(down: real, d: real, w: real, up: real, a: real, v: real): real {
    down * d * w + up * a * v
  }

  /** One sample of overlap_add. */
  function Blend(i: nat, down: real, d: Sample, up: real, a: Sample): Sample
    requires i < 16
  {
    ToS16(Mix(down, d as real, RCOS[i], up, a as real, RCOS[15 - i]))
  }

  /** With weights that add up to 1 a mix lies between its two scaled values, as far from the first as the
      other's weight says. */
  lemma MixIsBetween(s: real, d: real, w: real, u: real, a: real, v: real)
    requires w + v == 1.0 && 0.0 < w < 1.0
    ensures var x, y, m := Product(s, d), Product(u, a), Mix(s, d, w, u, a, v);
            && m - x == Product(y - x, v) && y - m == Product(y - x, w)
            && (x <= y ==> x <= m <= y) && (y <= x ==> y <= m <= x)
  {
    var x, y, m := Product(s, d), Product(u, a), Mix(s, d, w, u, a, v);
    assert m == x * w + y * v;
    assert x * w + y * v == x * (w + v) + (y - x) * v;
    assert x * w + y * v == y * (w + v) - (y - x) * w;
    if x <= y {
      NonNegative(y - x, v);
      NonNegative(y - x, w);
    } else {
      NonNegative(x - y, v);
      NonNegative(x - y, w);
      assert (y - x) * v == -((x - y) * v) && (y - x) * w == -((x - y) * w);
    }
  }

  lemma NonNegative(a: real, b: real)
    requires a >= 0.0 && b >= 0.0
    ensures a * b >= 0.0
  {
  }

  lemma LessWeight(g: real, w: real, v: real)
    requires w <= v
    ensures g >= 0.0 ==> Product(g, w) <= Product(g, v)
    ensures g <= 0.0 ==> Product(g, w) >= Product(g, v)
  {
    if g >= 0.0 {
      NonNegative(g, v - w);
      assert g * v == g * w + g * (v - w);
    } else {
      NonNegative(-g, v - w);
      assert g * v == g * w - (-g) * (v - w);
    }
  }

  /** A blend never overshoots: it lies between its two samples, each at its own scale. At full scale a sample
      blended with itself is unchanged. */
  lemma BlendIsBetween(i: nat, down: real, d: Sample, up: real, a: Sample)
    requires i < OVERLAP
    ensures Product(down, d as real) <= Product(up, a as real) ==>
              Scaled(down, d) <= Blend(i, down, d, up, a) <= Scaled(up, a)
    ensures Product(up, a as real) <= Product(down, d as real) ==>
              Scaled(up, a) <= Blend(i, down, d, up, a) <= Scaled(down, d)
    ensures down == 1.0 ==> Scaled(down, d) == d
    ensures up == 1.0 ==> Scaled(up, a) == a
  {
    hide Mix, ToS16;
    WeightsAddUp(i);
    MixIsBetween(down, d as real, RCOS[i], up, a as real, RCOS[15 - i]);
    var x, y := down * d as real, up * a as real;
    var m := Mix(down, d as real, RCOS[i], up, a as real, RCOS[15 - i]);
    SampleStays(d);
    SampleStays(a);
    if x <= y {
      ToS16Keeps(x, m);
      ToS16Keeps(m, y);
    } else {
      ToS16Keeps(y, m);
      ToS16Keeps(m, x);
    }
  }

  /** From one sample to the next a blend moves away from the fading signal and towards the other one. */
  lemma BlendMovesOver(i: nat, down: real, d: Sample, up: real, a: Sample)
    requires i + 1 < OVERLAP
    ensures Product(down, d as real) <= Product(up, a as real) ==>
              Blend(i, down, d, up, a) <= Blend(i + 1, down, d, up, a)
    ensures Product(up, a as real) <= Product(down, d as real) ==>
              Blend(i + 1, down, d, up, a) <= Blend(i, down, d, up, a)
  {
    hide Mix, ToS16;
    WeightsAddUp(i);
    WeightsAddUp(i + 1);
    var x, y := Product(down, d as real), Product(up, a as real);
    var m := Mix(down, d as real, RCOS[i], up, a as real, RCOS[15 - i]);
    var n := Mix(down, d as real, RCOS[i + 1], up, a as real, RCOS[14 - i]);
    MixIsBetween(down, d as real, RCOS[i], up, a as real, RCOS[15 - i]);
    MixIsBetween(down, d as real, RCOS[i + 1], up, a as real, RCOS[14 - i]);
    LessWeight(y - x, RCOS[15 - i], RCOS[14 - i]);
    if x <= y {
      ToS16Keeps(m, n);
    }
    if y <= x {
      ToS16Keeps(n, m);
    }
  }

  /** How far two numbers are apart. */
  function Gap(x: real, y: real): real {
    if x <= y then y - x else x - y
  }

  /** A blend b starts at the fading signal's value x and ends at the other one's, y, up to a hundredth of their
      distance and the one that truncation costs. In the first half it is nearer to x, in the second half to y. */
  ghost predicate MovesOver(i: nat, x: real, y: real, b: Sample) {
    && (i == 0 ==> Gap(b as real, x) < 0.01 * Gap(x, y) + 1.0)
    && (i == 15 ==> Gap(b as real, y) < 0.01 * Gap(x, y) + 1.0)
    && (i < 8 ==> Gap(b as real, x) < Gap(b as real, y) + 2.0)
    && (i >= 8 ==> Gap(b as real, y) < Gap(b as real, x) + 2.0)
  }

  predicate InRange(x: real) {
    -32768.0 <= x <= 32767.0
  }

  lemma BlendEnds(i: nat, down: real, d: Sample, up: real, a: Sample)
    requires i < OVERLAP && InRange(Product(down, d as real)) && InRange(Product(up, a as real))
    ensures MovesOver(i, Product(down, d as real), Product(up, a as real), Blend(i, down, d, up, a))
  {
    hide Mix, ToS16;
    var x, y := Product(down, d as real), Product(up, a as real);
    WeightsAddUp(i);
    WeightsAddUp(15 - i);
    MixIsBetween(down, d as real, RCOS[i], up, a as real, RCOS[15 - i]);
    LessWeight(y - x, 0.99, RCOS[0]);
    LessWeight(y - x, RCOS[15], 0.01);
    if i < 8 {
      LessWeight(y - x, RCOS[15 - i], RCOS[i]);
    } else {
      LessWeight(y - x, RCOS[i], RCOS[15 - i]);
    }
  }

  lemma MixWithSilence(s: real, d: real, w: real, u: real, v: real)
    ensures Mix(s, d, w, u, 0.0, v) == s * d * w
  {
    assert u * 0.0 == 0.0 && 0.0 * v == 0.0;
  }

  /** Against silence a blend is the other sample, scaled and weighted. */
  lemma BlendWithSilence(i: nat, down: real, d: Sample, up: real, a: Sample)
    requires i < OVERLAP
    ensures Blend(i, down, d, up, 0) == ToS16(down * d as real * RCOS[i])
    ensures Blend(i, down, 0, up, a) == ToS16(up * a as real * RCOS[15 - i])
  {
    hide ToS16;
    assert |RCOS| == 16 by { WeightsAddUp(i); }
    var w, v := RCOS[i], RCOS[15 - i];
    MixWithSilence(down, d as real, w, up, v);
    MixWithSilence(up, a as real, v, down, w);
    assert Mix(down, 0.0, w, up, a as real, v) == Mix(up, a as real, v, down, 0.0, w);
  }

  /** overlap_add on values. */
  function Faded(down: real, d: seq<Sample>, up: real, a: seq<Sample>): (s: seq<Sample>)
    requires |d| == |a| == 16
    ensures |s| == 16
  {
    seq(16, i requires 0 <= i < 16 => Blend(i, down, d[i], up, a[i]))
  }

  // ----- memory moves -----

  /** memmove within one buffer. */
  method Move(a: array<Sample>, to: nat, from: nat, n: nat)
    requires to + n <= a.Length && from + n <= a.Length
    modifies a
    ensures a[..] == old(a[..to]) + old(a[from..from + n]) + old(a[to + n..])
  {
    var moved := a[from..from + n];
    forall i | 0 <= i < n {
      a[to + i] := moved[i];
    }
  }

  /** memcpy, or memmove between buffers that may be the same. */
  method Copy(a: array<Sample>, to: nat, b: array<Sample>, from: nat, n: nat)
    requires to + n <= a.Length && from + n <= b.Length
    modifies a
    ensures a[..] == old(a[..to]) + old(b[from..from + n]) + old(a[to + n..])
  {
    var moved := b[from..from + n];
    forall i | 0 <= i < n {
      a[to + i] := moved[i];
    }
  }

  /** overlap_add. A source may lie in the output buffer, apart from the output or exactly under it. */
  method OverlapAdd(out: array<Sample>, at: nat, down: real, desc: array<Sample>, dAt: nat, up: real,
                    asc: array<Sample>, aAt: nat)
    requires at + OVERLAP <= out.Length && dAt + OVERLAP <= desc.Length && aAt + OVERLAP <= asc.Length
    requires desc == out ==> dAt == at || dAt + OVERLAP <= at || at + OVERLAP <= dAt
    requires asc == out ==> aAt == at || aAt + OVERLAP <= at || at + OVERLAP <= aAt
    modifies out
    ensures out[..] == old(out[..at]) + Faded(down, old(desc[dAt..dAt + 16]), up, old(asc[aAt..aAt + 16]))
                       + old(out[at + 16..])
  {
    hide Blend;
    ghost var d, a := desc[dAt..dAt + 16], asc[aAt..aAt + 16];
    for i := 0 to OVERLAP
      invariant forall k :: 0 <= k < out.Length && !(at <= k < at + i) ==> out[k] == old(out[k])
      invariant forall k :: 0 <= k < i ==> out[at + k] == Blend(k, down, d[k], up, a[k])
    {
      assert desc[dAt + i] == d[i] && asc[aAt + i] == a[i];
      out[at + i] := Blend(i, down, desc[dAt + i], up, asc[aAt + i]);
    }
  }

  // ----- finding a replacement -----

  datatype Float = NotANumber | Number(value: real)

  predicate Above(a: Float, b: real) {
    a.Number? && a.value > b
  }

  /** The smallest normal float, 2^-126. */
  const FLT_MIN: real := 1.0 / 85070591730234615865843651857942052864.0

  function Times(a: int, b: int): int {
    a * b
  }

  function Dot(x: seq<Sample>, y: seq<Sample>): int
    requires |x| == |y|
  {
    if x == [] then 0 else Dot(x[..|x| - 1], y[..|y| - 1]) + Times(x[|x| - 1], y[|y| - 1])
  }

  lemma DotSnoc(x: seq<Sample>, y: seq<Sample>, n: nat)
    requires n < |x| == |y|
    ensures Dot(x[..n + 1], y[..n + 1]) == Dot(x[..n], y[..n]) + Times(x[n], y[n])
  {
    assert x[..n + 1][..n] == x[..n] && y[..n + 1][..n] == y[..n];
  }

  /** Sum over root of product, as floats divide; normalised stands for the quotient when the product is not
      zero. */
  function Quotient(sum: int, x2: int, y2: int, normalised: (real, real) -> real): Float {
    var product := x2 as real * y2 as real;
    if product == 0.0 then NotANumber else Number(normalised(sum as real, product))
  }

  function Correlation(x: seq<Sample>, y: seq<Sample>, normalised: (real, real) -> real): Float
    requires |x| == |y|
  {
    Quotient(Dot(x, y), Dot(x, x), Dot(y, y), normalised)
  }

  ghost predicate Silent(x: seq<Sample>) {
    forall i :: 0 <= i < |x| ==> x[i] == 0
  }

  lemma {:induction false} DotZero(x: seq<Sample>)
    ensures Dot(x, x) >= 0 && (Dot(x, x) == 0 <==> Silent(x))
  {
    if x != [] {
      var n := |x| - 1;
      DotZero(x[..n]);
      assert Times(x[n], x[n]) >= 0 && (Times(x[n], x[n]) == 0 <==> x[n] == 0);
      assert Silent(x) <==> Silent(x[..n]) && x[n] == 0;
    }
  }

  lemma {:induction false} DotSymmetric(x: seq<Sample>, y: seq<Sample>)
    requires |x| == |y|
    ensures Dot(x, y) == Dot(y, x)
  {
    if x != [] {
      DotSymmetric(x[..|x| - 1], y[..|x| - 1]);
    }
  }

  /** There is no correlation exactly when one of the two is silent, and it is the same either way round. */
  lemma CorrelationMeans(x: seq<Sample>, y: seq<Sample>, normalised: (real, real) -> real)
    requires |x| == |y|
    ensures Correlation(x, y, normalised).NotANumber? <==> Silent(x) || Silent(y)
    ensures Correlation(x, y, normalised) == Correlation(y, x, normalised)
  {
    hide Dot;
    DotZero(x);
    DotZero(y);
    DotSymmetric(x, y);
    var p, q := Dot(x, x) as real, Dot(y, y) as real;
    assert p * q == q * p;
    if p != 0.0 && q != 0.0 {
      assert p * q != 0.0;
    }
  }

  method CrossCorrelation(x: seq<Sample>, y: seq<Sample>, normalised: (real, real) -> real) returns (c: Float)
    requires |x| == |y| == TEMPLATE
    ensures c == Correlation(x, y, normalised)
  {
    hide Times;
    var sum, x2, y2 := 0, 0, 0;
    for i := 0 to TEMPLATE
      invariant sum == Dot(x[..i], y[..i]) && x2 == Dot(x[..i], x[..i]) && y2 == Dot(y[..i], y[..i])
    {
      DotSnoc(x, y, i);
      DotSnoc(x, x, i);
      DotSnoc(y, y, i);
      sum, x2, y2 := sum + Times(x[i], y[i]), x2 + Times(x[i], x[i]), y2 + Times(y[i], y[i]);
    }
    assert x[..TEMPLATE] == x && y[..TEMPLATE] == y;
    return Quotient(sum, x2, y2, normalised);
  }

  /** How well the template, the last samples of the history, matches at index i. */
  function Match(hist: seq<Sample>, i: nat, normalised: (real, real) -> real): Float
    requires HISTORY <= |hist| && i < WINDOW
  {
    Correlation(hist[HISTORY - TEMPLATE..HISTORY], hist[i..i + TEMPLATE], normalised)
  }

  /** The first of the best matches, or 0 if nothing matches. */
  ghost predicate IsBestMatch(hist: seq<Sample>, best: nat, normalised: (real, real) -> real)
    requires HISTORY <= |hist| && best < WINDOW
  {
    if exists i :: 0 <= i < WINDOW && Above(Match(hist, i, normalised), FLT_MIN) then
      var m := Match(hist, best, normalised);
      && Above(m, FLT_MIN)
      && (forall i :: 0 <= i < WINDOW ==> !Above(Match(hist, i, normalised), m.value))
      && (forall i :: 0 <= i < best && Match(hist, i, normalised).Number? ==>
            Match(hist, i, normalised).value < m.value)
    else best == 0
  }

  /** pattern_match. */
  method PatternMatch(hist: seq<Sample>, normalised: (real, real) -> real) returns (best: nat)
    requires HISTORY <= |hist|
    ensures best < WINDOW && IsBestMatch(hist, best, normalised)
  {
    hide Correlation;
    best := 0;
    var maximum := FLT_MIN;
    for i := 0 to WINDOW
      invariant best < WINDOW && maximum >= FLT_MIN
      invariant forall j :: 0 <= j < i ==> !Above(Match(hist, j, normalised), maximum)
      invariant maximum == FLT_MIN ==> best == 0
      invariant maximum > FLT_MIN ==>
                  && best < i && Match(hist, best, normalised) == Number(maximum)
                  && forall j :: 0 <= j < best && Match(hist, j, normalised).Number? ==>
                       Match(hist, j, normalised).value < maximum
    {
      var c := CrossCorrelation(hist[HISTORY - TEMPLATE..HISTORY], hist[i..i + TEMPLATE], normalised);
      assert c == Match(hist, i, normalised);
      if Above(c, maximum) {
        best, maximum := i, c.value;
      }
    }
  }

  function Loudness(x: seq<Sample>): nat {
    if x == [] then 0 else Loudness(x[..|x| - 1]) + Magnitude(x[|x| - 1])
  }

  function Magnitude(x: int): nat {
    if x < 0 then -x else x
  }

  /** The ratio of the amplitudes, kept between 0.75 and 1.2. */
  function Scale(x: seq<Sample>, y: seq<Sample>): (r: real)
    ensures 0.75 <= r <= 1.2
  {
    if Loudness(y) == 0 then 1.2
    else
      var ratio := Loudness(x) as real / Loudness(y) as real;
      if ratio > 1.2 then 1.2 else if ratio < 0.75 then 0.75 else ratio
  }

  /** Among all scales between 0.75 and 1.2, this one brings the loudness of y nearest to that of x. */
  lemma ScaleIsBest(x: seq<Sample>, y: seq<Sample>, r: real)
    requires 0.75 <= r <= 1.2
    ensures var a, b := Loudness(x) as real, Loudness(y) as real;
            Gap(a, Product(Scale(x, y), b)) <= Gap(a, Product(r, b))
  {
    hide Loudness;
    var a, b, s := Loudness(x) as real, Loudness(y) as real, Scale(x, y);
    if b > 0.0 {
      var q := a / b;
      assert Product(q, b) == a;
      Ordered(q, r, b);
      Ordered(q, s, b);
      Ordered(r, s, b);
    }
  }

  lemma Ordered(p: real, q: real, b: real)
    requires b >= 0.0
    ensures p <= q ==> Product(p, b) <= Product(q, b)
    ensures q <= p ==> Product(q, b) <= Product(p, b)
  {
    if p <= q {
      LessWeight(b, p, q);
    } else {
      LessWeight(b, q, p);
    }
  }

  /** amplitude_match. */
  method AmplitudeMatch(x: seq<Sample>, y: seq<Sample>) returns (scaler: real)
    requires |x| == |y| == FRAME
    ensures scaler == Scale(x, y)
  {
    var sumX, sumY := 0, 0;
    for i := 0 to FRAME
      invariant sumX == Loudness(x[..i]) && sumY == Loudness(y[..i])
    {
      assert x[..i + 1][..i] == x[..i] && y[..i + 1][..i] == y[..i];
      sumX, sumY := sumX + Magnitude(x[i]), sumY + Magnitude(y[i]);
    }
    assert x[..FRAME] == x && y[..FRAME] == y;
    if sumY == 0 {
      return 1.2;
    }
    scaler := sumX as real / sumY as real;
    if scaler > 1.2 {
      scaler := 1.2;
    } else if scaler < 0.75 {
      scaler := 0.75;
    }
  }

  // ----- what the handlers compute -----

  /** The last samples played, zeros before the start. */
  function Recent(emitted: seq<Sample>): (r: seq<Sample>)
    ensures |r| == 375
  {
    if |emitted| >= 375 then emitted[|emitted| - 375..] else seq(375 - |emitted|, _ => 0) + emitted
  }

  lemma RecentMoves(emitted: seq<Sample>, out: seq<Sample>)
    requires |out| == 120
    ensures Recent(emitted + out) == Recent(emitted)[120..] + out
  {
  }

  /** The frame played for a good frame: itself, or, after a loss, the continuation of the replacement
      blended into it. */
  function GoodOutput(afterLoss: bool, ahead: seq<Sample>, input: seq<Sample>): (out: seq<Sample>)
    requires |ahead| == 52 && |input| == 120
    ensures |out| == 120
  {
    if !afterLoss then input
    else ahead[..36] + Faded(1.0, ahead[36..], 1.0, input[36..52]) + input[52..]
  }

  /** Sample out blends d into a: it lies between the two, nearer to d in the first half of the overlap and nearer
      to a in the second, up to the one that truncation costs. */
  predicate Blends(i: nat, d: Sample, a: Sample, out: Sample) {
    && (if d <= a then d <= out <= a else a <= out <= d)
    && (i < 8 ==> Magnitude(out - d) <= Magnitude(out - a) + 1)
    && (i >= 8 ==> Magnitude(out - a) <= Magnitude(out - d) + 1)
    && (i == 0 ==> 100 * Magnitude(out - d) < Magnitude(a - d) + 100)
    && (i == 15 ==> 100 * Magnitude(out - a) < Magnitude(a - d) + 100)
  }

  lemma FullScaleBlends(i: nat, d: Sample, a: Sample)
    requires i < OVERLAP
    ensures Blends(i, d, a, Blend(i, 1.0, d, 1.0, a))
  {
    hide Blend, ToS16;
    var out := Blend(i, 1.0, d, 1.0, a);
    BlendIsBetween(i, 1.0, d, 1.0, a);
    BlendEnds(i, 1.0, d, 1.0, a);
    assert Product(1.0, d as real) == d as real && Product(1.0, a as real) == a as real;
    assert Gap(out as real, d as real) == Magnitude(out - d) as real;
    assert Gap(out as real, a as real) == Magnitude(out - a) as real;
    assert Gap(d as real, a as real) == Magnitude(a - d) as real;
  }

  /** The first good frame after a loss starts exactly as the replacement would have continued, ends exactly
      as received, and moves over from the one to the other where they overlap. */
  lemma GoodFrameBlends(ahead: seq<Sample>, input: seq<Sample>)
    requires |ahead| == 52 && |input| == 120
    ensures var out := GoodOutput(true, ahead, input);
            && out[..36] == ahead[..36] && out[52..] == input[52..]
            && forall k :: 36 <= k < 52 ==> Blends(k - 36, ahead[k], input[k], out[k])
  {
    hide Blend;
    var out := GoodOutput(true, ahead, input);
    forall k | 36 <= k < 52 ensures Blends(k - 36, ahead[k], input[k], out[k]) {
      assert out[k] == Blend(k - 36, 1.0, ahead[36..][k - 36], 1.0, input[36..52][k - 36]);
      FullScaleBlends(k - 36, ahead[k], input[k]);
    }
  }

  /** The buffer b built for the first lost frame: after a fade, each sample is the scaled sample 375 - lag
      earlier, which may itself be a replacement; behind the frame come the fade back to the original scale
      and 36 plain samples. */
  ghost predicate Substitute(b: seq<Sample>, recent: seq<Sample>, zero: seq<Sample>, lag: nat, scaler: real)
    requires |b| == 547 && |recent| == 375 && |zero| == 120 && 64 <= lag <= 319
  {
    && b[..375] == recent
    && b[375..391] == Faded(1.0, zero[..16], scaler, recent[lag..lag + 16])
    && (forall k :: 391 <= k < 495 ==> b[k] == Scaled(scaler, b[k - (375 - lag)]))
    && b[495..511] == Faded(scaler, b[lag + 120..lag + 136], 1.0, b[lag + 120..lag + 136])
    && b[511..] == b[lag + 136..lag + 172]
  }

  /** The replacement fades in from the decoder's zero frame to the scaled history, repeats the history at that
      scale within one, and fades back to the original scale, wherever the scaled sample is in range. */
  lemma SubstituteFades(b: seq<Sample>, recent: seq<Sample>, zero: seq<Sample>, lag: nat, scaler: real)
    requires |b| == 547 && |recent| == 375 && |zero| == 120 && 64 <= lag <= 319
    requires Substitute(b, recent, zero, lag, scaler)
    ensures forall k :: 375 <= k < 391 && InRange(Product(scaler, recent[k - 375 + lag] as real)) ==>
              MovesOver(k - 375, zero[k - 375] as real, Product(scaler, recent[k - 375 + lag] as real), b[k])
    ensures forall k :: 391 <= k < 495 && InRange(Product(scaler, b[k - (375 - lag)] as real)) ==>
              Gap(b[k] as real, Product(scaler, b[k - (375 - lag)] as real)) < 1.0
    ensures forall k :: 495 <= k < 511 && InRange(Product(scaler, b[k - (375 - lag)] as real)) ==>
              MovesOver(k - 495, Product(scaler, b[k - (375 - lag)] as real), b[k - (375 - lag)] as real, b[k])
  {
    hide MovesOver, Blend, ToS16, Product, InRange;
    forall k | 375 <= k < 391 && InRange(Product(scaler, recent[k - 375 + lag] as real))
      ensures MovesOver(k - 375, zero[k - 375] as real, Product(scaler, recent[k - 375 + lag] as real), b[k])
    {
      assert b[k] == b[375..391][k - 375];
      FullScale(zero[k - 375]);
      BlendEnds(k - 375, 1.0, zero[k - 375], scaler, recent[k - 375 + lag]);
    }
    forall k | 391 <= k < 495 && InRange(Product(scaler, b[k - (375 - lag)] as real))
      ensures Gap(b[k] as real, Product(scaler, b[k - (375 - lag)] as real)) < 1.0
    {
      ScaledMeans(scaler, b[k - (375 - lag)]);
    }
    forall k | 495 <= k < 511 && InRange(Product(scaler, b[k - (375 - lag)] as real))
      ensures MovesOver(k - 495, Product(scaler, b[k - (375 - lag)] as real), b[k - (375 - lag)] as real, b[k])
    {
      assert b[k] == b[495..511][k - 495] && b[k - (375 - lag)] == b[lag + 120..lag + 136][k - 495];
      FullScale(b[k - (375 - lag)]);
      BlendEnds(k - 495, scaler, b[k - (375 - lag)], 1.0, b[k - (375 - lag)]);
    }
  }

  lemma FullScale(a: Sample)
    ensures Product(1.0, a as real) == a as real && InRange(a as real)
  {
  }

  lemma ScaledMeans(scaler: real, a: Sample)
    requires InRange(Product(scaler, a as real))
    ensures Gap(Scaled(scaler, a) as real, Product(scaler, a as real)) < 1.0
  {
  }

  /** These equations determine the buffer, although it is built from itself. */
  lemma SubstituteIsUnique(b: seq<Sample>, c: seq<Sample>, recent: seq<Sample>, zero: seq<Sample>, lag: nat,
                           scaler: real)
    requires |b| == |c| == 547 && |recent| == 375 && |zero| == 120 && 64 <= lag <= 319
    requires Substitute(b, recent, zero, lag, scaler) && Substitute(c, recent, zero, lag, scaler)
    ensures b == c
  {
    SameUpTo(b, c, recent, zero, lag, scaler, 495);
    assert b[lag + 120..lag + 136] == c[lag + 120..lag + 136] && b[lag + 136..lag + 172] == c[lag + 136..lag + 172];
    assert b == b[..495] + b[495..511] + b[511..] && c == c[..495] + c[495..511] + c[511..];
  }

  lemma {:induction false} SameUpTo(b: seq<Sample>, c: seq<Sample>, recent: seq<Sample>, zero: seq<Sample>, lag: nat,
                                    scaler: real, n: nat)
    requires |b| == |c| == 547 && |recent| == 375 && |zero| == 120 && 64 <= lag <= 319
    requires Substitute(b, recent, zero, lag, scaler) && Substitute(c, recent, zero, lag, scaler) && 391 <= n <= 495
    ensures b[..n] == c[..n]
    decreases n
  {
    hide Scaled, Faded;
    if n == 391 {
      assert b[..391] == b[..375] + b[375..391] && c[..391] == c[..375] + c[375..391];
    } else {
      SameUpTo(b, c, recent, zero, lag, scaler, n - 1);
      var k := n - 1 - (375 - lag);
      assert b[k] == b[..n - 1][k] == c[k];
      assert b[n - 1] == Scaled(scaler, b[k]) && c[n - 1] == Scaled(scaler, c[k]);
      assert b[n - 1] == c[n - 1];
      assert b[..n] == b[..n - 1] + [b[n - 1]] && c[..n] == c[..n - 1] + [c[n - 1]];
    }
  }

  // ----- repeated losses -----

  /** The whole buffer after a lost frame: what was played, what was to come, and, because the shift leaves
      the end alone, the end of the frame and what was to come once more. */
  function AfterLoss(recent: seq<Sample>, ahead: seq<Sample>): (b: seq<Sample>)
    requires |recent| == 375 && |ahead| == 52
    ensures |b| == 547
  {
    recent + ahead + recent[307..] + ahead
  }

  /** The frame played for a further lost frame. */
  function RepeatOutput(recent: seq<Sample>, ahead: seq<Sample>, lag: nat): (out: seq<Sample>)
    requires |recent| == 375 && |ahead| == 52 && 64 <= lag <= 319
    ensures |out| == 120
  {
    AfterLoss(recent, ahead)[lag..lag + 120]
  }

  /** The frame repeats what was played 375 - lag samples earlier, the samples prepared ahead counting as
      played, and then itself. */
  ghost predicate Periodic(recent: seq<Sample>, ahead: seq<Sample>, lag: nat, out: seq<Sample>)
    requires |recent| == 375 && |ahead| == 52 && |out| == 120 && 64 <= lag <= 319
  {
    forall k :: 0 <= k < 120 ==>
      out[k] == if lag + k < 375 then recent[lag + k]
                else if lag + k < 427 then ahead[lag + k - 375]
                else out[lag + k - 375]
  }

  /** A further lost frame goes on with the period for every history exactly when the lag is at most 307.
      Beyond that its last samples come from the end of the buffer, which the shift did not move. */
  lemma RepeatIsPeriodicIff(lag: nat)
    requires 64 <= lag <= 319
    ensures (forall recent: seq<Sample>, ahead: seq<Sample> :: |recent| == 375 && |ahead| == 52 ==>
               Periodic(recent, ahead, lag, RepeatOutput(recent, ahead, lag))) <==> lag <= 307
  {
    if lag > 307 {
      var recent: seq<Sample> := seq(375, i => if i == 307 then 1 else 0);
      var ahead: seq<Sample> := seq(52, _ => 0);
      var out := RepeatOutput(recent, ahead, lag);
      var k := 427 - lag;
      assert out[k] == recent[307] == 1 && out[lag + k - 375] == recent[lag + 52] == 0;
      assert !Periodic(recent, ahead, lag, out);
    }
  }

  // ----- the state -----

  /** struct cras_msbc_plc. The ghosts are everything played since the start and, during a loss, the samples
      prepared for after it. */
  class MsbcPlc {
    const hist: array<Sample>
    var bestLag: nat
    var handledBadFrames: nat
    const zeroFrame: array<Sample>
    ghost var emitted: seq<Sample>
    ghost var ahead: seq<Sample>

    /** The history is what was played last; during a loss the rest of the buffer is known too. */
    ghost predicate Valid()
      reads this, hist
    {
      && hist.Length == BUFFER && zeroFrame.Length == FRAME && hist != zeroFrame && |ahead| == 52
      && hist[..375] == Recent(emitted)
      && (handledBadFrames > 0 ==> 64 <= bestLag <= 319 && hist[..] == AfterLoss(Recent(emitted), ahead))
    }

    constructor ()
      ensures Valid() && emitted == [] && handledBadFrames == 0 && fresh(hist) && fresh(zeroFrame)
      ensures hist[..] == seq(BUFFER, _ => 0)
    {
      hist := new Sample[BUFFER](_ => 0);
      zeroFrame := new Sample[FRAME](_ => 0);
      bestLag, handledBadFrames := 0, 0;
      emitted, ahead := [], seq(52, _ => 0);
    }

    /** The first good frame after a loss. The input may be the output buffer. */
    method Reconverge(input: array<Sample>, output: array<Sample>)
      requires hist.Length == BUFFER && input.Length == output.Length == FRAME && input != hist && output != hist
      modifies output
      ensures output[..] == GoodOutput(true, hist[375..427], old(input[..]))
    {
      hide Blend, Faded;
      ghost var received, before, h := input[..], output[..], hist[..];
      Copy(output, 0, hist, HISTORY, RECONVERGENCE);
      ghost var first := output[..];
      assert first[36..] == before[36..];
      assert first[36..][..16] == first[36..52] && before[36..][..16] == before[36..52];
      assert first[36..][16..] == first[52..120] && before[36..][16..] == before[52..120];
      assert input[36..52] == received[36..52];
      OverlapAdd(output, RECONVERGENCE, 1.0, hist, HISTORY + RECONVERGENCE, 1.0, input, RECONVERGENCE);
      ghost var second := output[..];
      assert second[52..120] == first[52..120];
      assert input[52..120] == received[52..120];
      Copy(output, RECONVERGENCE + OVERLAP, input, RECONVERGENCE + OVERLAP, FRAME - RECONVERGENCE - OVERLAP);
      Pieced(h, received, before, first, second, output[..]);
      assert h[375..427] == hist[375..427];
    }

    /** cras_msbc_plc_handle_good_frames. */
    method HandleGoodFrames(input: array<Sample>, output: array<Sample>)
      requires Valid() && input.Length == output.Length == FRAME
      requires input != hist && output != hist && output != zeroFrame
      modifies this`handledBadFrames, this`emitted, hist, output
      ensures Valid() && handledBadFrames == 0 && emitted == old(emitted) + output[..]
      ensures output[..] == GoodOutput(old(handledBadFrames) > 0, ahead, old(input[..]))
      ensures old(handledBadFrames) == 0 ==> output[..] == old(input[..])
      ensures hist[375..] == old(hist[375..])
    {
      hide Blend, Faded, Recent;
      if handledBadFrames == 0 {
        Copy(output, 0, input, 0, FRAME);
      } else {
        assert hist[375..427] == hist[..][375..427] == ahead;
        Reconverge(input, output);
        handledBadFrames := 0;
      }
      ghost var h := hist[..];
      assert h[..375] == hist[..375] && h[375..] == hist[375..];
      Move(hist, 0, FRAME, HISTORY - FRAME);
      ghost var g := hist[..];
      Copy(hist, HISTORY - FRAME, output, 0, FRAME);
      Shifted(h, g, hist[..], output[..]);
      assert hist[..][375..] == hist[375..];
      RecentMoves(emitted, output[..]);
      emitted := emitted + output[..];
    }

    /** The loop over the middle of the frame: samples are read that were written just before. */
    method ScaleHistory(scaler: real)
      requires hist.Length == BUFFER && 64 <= bestLag <= 319
      modifies hist
      ensures hist[..391] == old(hist[..391])
      ensures forall k :: 391 <= k < 495 ==> hist[k] == Scaled(scaler, hist[k - (375 - bestLag)])
    {
      hide Scaled;
      for i := OVERLAP to FRAME
        invariant hist[..391] == old(hist[..391])
        invariant forall k :: 391 <= k < 375 + i ==> hist[k] == Scaled(scaler, hist[k - (375 - bestLag)])
      {
        label Before:
        hist[HISTORY + i] := Scaled(scaler, hist[bestLag + i]);
        assert forall k :: 0 <= k < 375 + i ==> hist[k] == old@Before(hist[k]);
        assert 375 + i - (375 - bestLag) == bestLag + i;
      }
    }

    /** The replacement for the first lost frame, built in place behind the history. */
    method Construct(scaler: real)
      requires hist.Length == BUFFER && zeroFrame.Length == FRAME && hist != zeroFrame && 64 <= bestLag <= 319
      modifies hist
      ensures Substitute(hist[..], old(hist[..375]), zeroFrame[..], bestLag, scaler)
    {
      hide Blend, Scaled, Faded, Substitute;
      ghost var recent, lag := hist[..375], bestLag;
      assert recent[lag..lag + 16] == hist[lag..lag + 16];
      OverlapAdd(hist, HISTORY, 1.0, zeroFrame, 0, scaler, hist, bestLag);
      assert hist[..391] == recent + Faded(1.0, zeroFrame[..16], scaler, recent[lag..lag + 16]);
      ScaleHistory(scaler);
      ghost var framed := hist[..];
      OverlapAdd(hist, HISTORY + FRAME, scaler, hist, bestLag + FRAME, 1.0, hist, bestLag + FRAME);
      ghost var b := hist[..];
      Move(hist, HISTORY + FRAME + OVERLAP, bestLag + FRAME + OVERLAP, RECONVERGENCE);
      Finished(framed, b, hist[..], recent, zeroFrame[..], lag, scaler);
    }

    /** The buffer for a lost frame: built for the first one, copied within the buffer for further ones. */
    method Replace(normalised: (real, real) -> real)
      requires Valid()
      modifies this`bestLag, hist
      ensures 64 <= bestLag <= 319 && hist[..375] == old(hist[..375])
      ensures handledBadFrames == 0 ==>
                && IsBestMatch(old(hist[..375]), bestLag - 64, normalised)
                && Substitute(hist[..], old(hist[..375]), zeroFrame[..], bestLag,
                              Scale(old(hist[255..375]), old(hist[..])[bestLag..bestLag + 120]))
      ensures handledBadFrames > 0 ==>
                bestLag == old(bestLag) && hist[375..] == old(hist[..])[bestLag..bestLag + 172]
    {
      hide Substitute, IsBestMatch, Scale;
      if handledBadFrames == 0 {
        var best := PatternMatch(hist[..HISTORY], normalised);
        bestLag := best + TEMPLATE;
        var scaler := AmplitudeMatch(hist[HISTORY - FRAME..HISTORY], hist[bestLag..bestLag + FRAME]);
        assert hist[bestLag..bestLag + FRAME] == old(hist[..])[bestLag..bestLag + 120];
        Construct(scaler);
        SubstituteStarts(hist[..], old(hist[..375]), zeroFrame[..], bestLag, scaler);
        assert hist[..375] == hist[..][..375];
      } else {
        Move(hist, HISTORY, bestLag, FRAME + RECONVERGENCE + OVERLAP);
      }
    }

    /** cras_msbc_plc_handle_bad_frames. The decoder leaves some zero frame. The frame played is the middle of
        the buffer built; what follows it is ready for the next good frame. */
    method HandleBadFrames(decoded: seq<Sample>, output: array<Sample>, normalised: (real, real) -> real)
        returns (ghost buffer: seq<Sample>)
      requires Valid() && |decoded| == output.Length == FRAME && output != hist && output != zeroFrame
      modifies this`bestLag, this`handledBadFrames, this`emitted, this`ahead, hist, zeroFrame, output
      ensures Valid() && handledBadFrames == old(handledBadFrames) + 1 && emitted == old(emitted) + output[..]
      ensures |buffer| == 547 && output[..] == buffer[375..495] && ahead == buffer[495..]
      ensures var recent := Recent(old(emitted));
              if old(handledBadFrames) == 0 then
                && 64 <= bestLag <= 319 && IsBestMatch(recent, bestLag - 64, normalised)
                && Substitute(buffer, recent, decoded, bestLag,
                              Scale(recent[255..], old(hist[..])[bestLag..bestLag + 120]))
              else
                && bestLag == old(bestLag) && output[..] == RepeatOutput(recent, old(ahead), bestLag)
                && ahead == AfterLoss(recent, old(ahead))[bestLag + 120..bestLag + 172]
    {
      hide Substitute, IsBestMatch, Scale, Recent;
      forall i | 0 <= i < FRAME {
        zeroFrame[i] := decoded[i];
      }
      assert zeroFrame[..] == decoded;
      ghost var was := hist[..];
      assert was == old(hist[..]) && hist[..375] == Recent(emitted);
      assert hist[255..375] == hist[..375][255..];
      Replace(normalised);
      buffer := hist[..];
      Copied(buffer, was, bestLag);
      assert buffer[..375] == hist[..375] && buffer[375..] == hist[375..];
      handledBadFrames := handledBadFrames + 1;
      Play(output);
      ahead := buffer[495..];
    }

    /** The frame behind the history is played, and the buffer shifted. */
    method Play(output: array<Sample>)
      requires hist.Length == BUFFER && output.Length == FRAME && output != hist && hist[..375] == Recent(emitted)
      modifies this`emitted, hist, output
      ensures emitted == old(emitted) + output[..] && output[..] == old(hist[..])[375..495]
      ensures hist[..] == AfterLoss(Recent(emitted), old(hist[..])[495..]) && hist[..375] == Recent(emitted)
    {
      hide Recent, AfterLoss;
      ghost var b := hist[..];
      Copy(output, 0, hist, HISTORY, FRAME);
      assert output[..] == b[375..495];
      assert b[..375] == hist[..375];
      Move(hist, 0, FRAME, HISTORY + RECONVERGENCE + OVERLAP);
      RecentMoves(emitted, output[..]);
      LeftAfterLoss(b, Recent(emitted), output[..], hist[..]);
      emitted := emitted + output[..];
      assert hist[..375] == hist[..][..375];
    }
  }

  /** The three steps of building the first good frame. */
  lemma Pieced(h: seq<Sample>, input: seq<Sample>, before: seq<Sample>, first: seq<Sample>, second: seq<Sample>,
               out: seq<Sample>)
    requires |h| == 547 && |input| == |before| == 120
    requires first == before[..0] + h[375..411] + before[36..]
    requires second == first[..36] + Faded(1.0, h[411..427], 1.0, input[36..52]) + first[52..]
    requires out == second[..52] + input[52..120] + second[120..]
    ensures out == GoodOutput(true, h[375..427], input)
  {
    hide Faded;
    var ahead := h[375..427];
    assert ahead[..36] == h[375..411] && ahead[36..] == h[411..427];
    assert second[..52] == ahead[..36] + Faded(1.0, ahead[36..], 1.0, input[36..52]);
  }

  lemma Copied(b: seq<Sample>, was: seq<Sample>, lag: nat)
    requires |b| == |was| == 547 && lag <= 319
    ensures b[375..] == was[lag..lag + 172] ==>
              b[375..495] == was[lag..lag + 120] && b[495..] == was[lag + 120..lag + 172]
  {
    assert b[375..][..120] == b[375..495] && b[375..][120..] == b[495..];
    assert was[lag..lag + 172][..120] == was[lag..lag + 120];
    assert was[lag..lag + 172][120..] == was[lag + 120..lag + 172];
  }

  lemma SubstituteStarts(b: seq<Sample>, recent: seq<Sample>, zero: seq<Sample>, lag: nat, scaler: real)
    requires |b| == 547 && |recent| == 375 && |zero| == 120 && 64 <= lag <= 319
    requires Substitute(b, recent, zero, lag, scaler)
    ensures b[..375] == recent
  {
  }

  /** The last two steps of building the buffer. */
  lemma Finished(framed: seq<Sample>, b: seq<Sample>, c: seq<Sample>, recent: seq<Sample>, zero: seq<Sample>, lag: nat,
                 scaler: real)
    requires |framed| == 547 && |recent| == 375 && |zero| == 120 && 64 <= lag <= 319
    requires framed[..391] == recent + Faded(1.0, zero[..16], scaler, recent[lag..lag + 16])
    requires forall k :: 391 <= k < 495 ==> framed[k] == Scaled(scaler, framed[k - (375 - lag)])
    requires var tail := framed[lag + 120..lag + 136];
             b == framed[..495] + Faded(scaler, tail, 1.0, tail) + framed[511..]
    requires c == b[..511] + b[lag + 136..lag + 172] + b[547..]
    ensures Substitute(c, recent, zero, lag, scaler)
  {
    hide Faded, Scaled;
    assert c[..495] == framed[..495];
    assert c[..391] == framed[..391];
    assert c[..375] == c[..391][..375] && c[375..391] == c[..391][375..];
    forall k | 391 <= k < 495 ensures c[k] == Scaled(scaler, c[k - (375 - lag)]) {
      assert c[k] == framed[k] && c[k - (375 - lag)] == framed[k - (375 - lag)];
    }
    assert c[lag + 120..lag + 136] == framed[lag + 120..lag + 136];
    assert c[lag + 136..lag + 172] == b[lag + 136..lag + 172];
  }

  /** What the shift of handle_bad_frames leaves: 427 samples move, the last 120 stay. */
  lemma LeftAfterLoss(b: seq<Sample>, recent: seq<Sample>, out: seq<Sample>, f: seq<Sample>)
    requires |b| == 547 && |recent| == 375 && b[..375] == recent && out == b[375..495]
    requires f == b[..0] + b[120..547] + b[427..]
    ensures f == AfterLoss(recent[120..] + out, b[495..])
    ensures f[..375] == recent[120..] + out
  {
    assert recent[120..] + out == b[120..495];
    assert b[120..547] == b[120..495] + b[495..];
    assert b[427..] == b[427..495] + b[495..];
    assert b[120..495][307..] == b[427..495];
  }

  /** What the shift and the copy of handle_good_frames leave in front. */
  lemma Shifted(h: seq<Sample>, g: seq<Sample>, f: seq<Sample>, out: seq<Sample>)
    requires |h| == 547 && |out| == 120
    requires g == h[..0] + h[120..375] + h[255..] && f == g[..255] + out[0..120] + g[375..]
    ensures f[..375] == h[..375][120..] + out && f[375..] == h[375..]
  {
  }

  // ----- when the amplitude depends on the history alone -----

  lemma {:induction false} LoudnessAppend(a: seq<Sample>, b: seq<Sample>)
    ensures Loudness(a + b) == Loudness(a) + Loudness(b)
    decreases |b|
  {
    if b == [] {
      assert a + b == a;
    } else {
      LoudnessAppend(a, b[..|b| - 1]);
      assert (a + b)[..|a + b| - 1] == a + b[..|b| - 1];
    }
  }

  lemma {:induction false} SilenceIsQuiet(s: seq<Sample>)
    requires forall i :: 0 <= i < |s| ==> s[i] == 0
    ensures Loudness(s) == 0
    decreases |s|
  {
    if s != [] {
      SilenceIsQuiet(s[..|s| - 1]);
    }
  }

  /** A single sample in silence. */
  lemma PulseLoudness(s: seq<Sample>, k: nat)
    requires k < |s| && forall i :: 0 <= i < |s| && i != k ==> s[i] == 0
    ensures Loudness(s) == Magnitude(s[k])
  {
    SilenceIsQuiet(s[..k]);
    SilenceIsQuiet(s[k + 1..]);
    LoudnessAppend(s[..k] + [s[k]], s[k + 1..]);
    assert (s[..k] + [s[k]])[..k] == s[..k];
    assert s[..k] + [s[k]] + s[k + 1..] == s;
  }

  lemma PulsesDiffer(h: seq<Sample>, g: seq<Sample>, lag: nat)
    requires |h| == |g| == 547 && 255 < lag <= 319
    requires forall i :: 0 <= i < 547 ==> h[i] == if i == 255 then 100 else 0
    requires forall i :: 0 <= i < 547 ==> g[i] == if i == 255 then 100 else if i == 375 then 200 else 0
    ensures h[..375] == g[..375]
    ensures Scale(h[255..375], h[lag..lag + 120]) != Scale(g[255..375], g[lag..lag + 120])
  {
    hide Scale, Loudness;
    var recent, quiet, loud := h[255..375], h[lag..lag + 120], g[lag..lag + 120];
    assert recent == g[255..375];
    PulseLoudness(recent, 0);
    SilenceIsQuiet(quiet);
    PulseLoudness(loud, 375 - lag);
    ScaleOfPulses(recent, quiet, loud);
  }

  lemma ScaleOfPulses(recent: seq<Sample>, quiet: seq<Sample>, loud: seq<Sample>)
    requires Loudness(recent) == 100 && Loudness(quiet) == 0 && Loudness(loud) == 200
    ensures Scale(recent, quiet) != Scale(recent, loud)
  {
  }

  lemma Within(h: seq<Sample>, lag: nat)
    requires |h| == 547 && lag <= 255
    ensures h[255..375] == h[..375][255..] && h[lag..lag + 120] == h[..375][lag..lag + 120]
  {
  }

  /** The scale for the first lost frame is determined by the history exactly when the lag is at most 255.
      Beyond that amplitude_match also reads what an earlier loss left behind the history. */
  lemma ScaleFromHistoryIff(lag: nat)
    requires 64 <= lag <= 319
    ensures (forall h: seq<Sample>, g: seq<Sample> :: |h| == |g| == 547 && h[..375] == g[..375] ==>
               Scale(h[255..375], h[lag..lag + 120]) == Scale(g[255..375], g[lag..lag + 120])) <==> lag <= 255
  {
    if lag <= 255 {
      forall h: seq<Sample>, g: seq<Sample> | |h| == |g| == 547 && h[..375] == g[..375]
        ensures Scale(h[255..375], h[lag..lag + 120]) == Scale(g[255..375], g[lag..lag + 120])
      {
        Within(h, lag);
        Within(g, lag);
      }
    } else {
      var h: seq<Sample> := seq(547, i => if i == 255 then 100 else 0);
      var g: seq<Sample> := seq(547, i => if i == 255 then 100 else if i == 375 then 200 else 0);
      PulsesDiffer(h, g, lag);
    }
  }

  // ----- a run that breaks the period -----

  /** normalised(s, p) is s divided by the square root of p. */
  ghost predicate IsRootQuotient(normalised: (real, real) -> real) {
    forall s: real, p: real :: p > 0.0 ==>
      normalised(s, p) * normalised(s, p) * p == s * s && normalised(s, p) * s >= 0.0
  }

  /** A good frame of two pulses 60 samples apart. */
  function Pulses(): (f: seq<Sample>)
    ensures |f| == 120
  {
    seq(120, i => if i == 53 || i == 113 then 1000 else 0)
  }

  function PulseHistory(): (h: seq<Sample>)
    ensures |h| == 375
  {
    seq(375, i => if i == 308 || i == 368 then 1000 else 0)
  }

  lemma {:induction false} DotSilence(x: seq<Sample>, y: seq<Sample>)
    requires |x| == |y| && forall i :: 0 <= i < |x| ==> x[i] == 0
    ensures Dot(x, y) == 0
    decreases |x|
  {
    if x != [] {
      DotSilence(x[..|x| - 1], y[..|y| - 1]);
    }
  }

  /** A single sample picks one product. */
  lemma {:induction false} DotPulse(x: seq<Sample>, y: seq<Sample>, k: nat)
    requires k < |x| == |y| && forall i :: 0 <= i < |x| && i != k ==> x[i] == 0
    ensures Dot(x, y) == Times(x[k], y[k])
    decreases |x|
  {
    var n := |x| - 1;
    if k == n {
      DotSilence(x[..n], y[..n]);
    } else {
      DotPulse(x[..n], y[..n], k);
    }
  }

  lemma {:induction false} DotSquares(x: seq<Sample>)
    ensures Dot(x, x) >= 0
    decreases |x|
  {
    if x != [] {
      DotSquares(x[..|x| - 1]);
    }
  }

  /** With these pulses in the history only index 251 matches. */
  lemma PulseMatch(i: nat, normalised: (real, real) -> real)
    requires IsRootQuotient(normalised) && i < WINDOW
    ensures Above(Match(PulseHistory(), i, normalised), FLT_MIN) <==> i == 251
  {
    hide Times;
    var h := PulseHistory();
    var t, w := h[HISTORY - TEMPLATE..HISTORY], h[i..i + TEMPLATE];
    DotPulse(t, t, 57);
    DotPulse(t, w, 57);
    Thousand();
    if i == 251 {
      DotPulse(w, w, 57);
      RootOfMillion(normalised);
    } else {
      assert w[57] == 0;
      DotSquares(w);
      NoCorrelation(normalised, Dot(w, w));
    }
  }

  lemma Thousand()
    ensures Times(1000, 1000) == 1000000 && Times(1000, 0) == 0
  {
  }

  lemma BelowOne(q: real)
    requires q >= 0.0
    ensures q < 1.0 ==> q * q < 1.0
  {
    if q < 1.0 {
      assert q * q <= q;
    }
  }

  lemma RootOfMillion(normalised: (real, real) -> real)
    requires IsRootQuotient(normalised)
    ensures Above(Quotient(1000000, 1000000, 1000000, normalised), FLT_MIN)
  {
    var q := normalised(1000000.0, 1000000000000.0);
    assert q * q * 1000000000000.0 == 1000000.0 * 1000000.0 && q * 1000000.0 >= 0.0;
    assert q * q == 1.0;
    assert q >= 0.0;
    BelowOne(q);
  }

  lemma NoCorrelation(normalised: (real, real) -> real, y2: nat)
    requires IsRootQuotient(normalised)
    ensures !Above(Quotient(0, 1000000, y2, normalised), FLT_MIN)
  {
    var p := 1000000 as real * y2 as real;
    if y2 > 0 {
      var q := normalised(0.0, p);
      assert p > 0.0 && q * q * p == 0.0;
      if q > 0.0 {
        assert q * q > 0.0;
        assert (q * q) * p > 0.0;
      }
    }
  }

  lemma PulseBest(best: nat, normalised: (real, real) -> real)
    requires IsRootQuotient(normalised) && best < WINDOW && IsBestMatch(PulseHistory(), best, normalised)
    ensures best == 251
  {
    hide Match, PulseHistory;
    PulseMatch(251, normalised);
    PulseMatch(best, normalised);
  }

  /** The scale for that history when the rest of the buffer is still silent. */
  lemma PulseScale(h: seq<Sample>)
    requires |h| == 547 && h[..375] == PulseHistory() && h[375..] == seq(172, _ => 0)
    ensures Scale(h[255..375], h[315..435]) == 1.2
  {
    var x, y := h[255..375], h[315..435];
    assert forall i :: 0 <= i < 375 ==> h[i] == h[..375][i];
    assert forall i :: 375 <= i < 547 ==> h[i] == h[375..][i - 375] == 0;
    assert x == PulseHistory()[255..];
    PulsesLoudness();
    PulseLoudness(y, 53);
  }

  lemma PulsesLoudness()
    ensures Loudness(PulseHistory()[255..]) == 2000
  {
    var x := PulseHistory()[255..];
    PulseLoudness(x[..100], 53);
    PulseLoudness(x[100..], 13);
    LoudnessAppend(x[..100], x[100..]);
    assert x[..100] + x[100..] == x;
  }

  /** The replacement replays the pulse a little louder each time round, so the end of the second lost frame,
      which replays an earlier round, does not fit. */
  lemma PulsesBreakPeriod(b: seq<Sample>, decoded: seq<Sample>)
    requires |b| == 547 && |decoded| == 120 && Substitute(b, PulseHistory(), decoded, 315, 1.2)
    ensures var recent, ahead := b[120..495], b[495..];
            !Periodic(recent, ahead, 315, RepeatOutput(recent, ahead, 315))
  {
    assert b[368] == b[..375][368] == 1000;
    assert b[428] == Scaled(1.2, b[428 - (375 - 315)]) == 1200;
    assert b[488] == Scaled(1.2, b[488 - (375 - 315)]) == 1440;
    var recent, ahead := b[120..495], b[495..];
    var out := RepeatOutput(recent, ahead, 315);
    assert out[113] == recent[308] == 1200 && out[315 + 113 - 375] == recent[368] == 1440;
  }

  /** Three calls that lead there from the start: the good frame, and two lost ones. */
  method LongLag(decoded0: seq<Sample>, decoded1: seq<Sample>, normalised: (real, real) -> real)
    returns (plc: MsbcPlc, output: array<Sample>, ghost recent: seq<Sample>, ghost ahead: seq<Sample>)
    requires IsRootQuotient(normalised) && |decoded0| == |decoded1| == FRAME
    ensures plc.Valid() && plc.bestLag == 315 && |recent| == 375 && |ahead| == 52 && output.Length == FRAME
    ensures output[..] == RepeatOutput(recent, ahead, 315) && !Periodic(recent, ahead, 315, output[..])
  {
    hide Substitute, IsBestMatch, Scale, Periodic, RepeatOutput, AfterLoss, Recent, IsRootQuotient, PulseHistory;
    hide Pulses;
    plc := new MsbcPlc();
    var frame := Pulses();
    var input := new Sample[FRAME](i requires 0 <= i < FRAME => frame[i]);
    output := new Sample[FRAME](_ => 0);
    assert input[..] == Pulses();
    assert plc.hist[375..] == plc.hist[..][375..] == seq(172, _ => 0);
    plc.HandleGoodFrames(input, output);
    assert [] + output[..] == Pulses();
    PulsesAreRecent();
    ghost var h := plc.hist[..];
    assert h[..375] == plc.hist[..375] == PulseHistory() && h[375..] == plc.hist[375..];
    ghost var b := plc.HandleBadFrames(decoded0, output, normalised);
    PulseBest(plc.bestLag - 64, normalised);
    PulseScale(h);
    assert h[255..375] == PulseHistory()[255..];
    PulsesBreakPeriod(b, decoded0);
    RecentMoves(Pulses(), output[..]);
    BufferIsRecent(b, PulseHistory(), decoded0, output[..]);
    recent, ahead := Recent(plc.emitted), plc.ahead;
    var _ := plc.HandleBadFrames(decoded1, output, normalised);
  }

  lemma PulsesAreRecent()
    ensures Recent(Pulses()) == PulseHistory()
  {
  }

  lemma BufferIsRecent(b: seq<Sample>, recent: seq<Sample>, decoded: seq<Sample>, out: seq<Sample>)
    requires |b| == 547 && |recent| == 375 && |decoded| == 120 && out == b[375..495]
    requires Substitute(b, recent, decoded, 315, 1.2)
    ensures recent[120..] + out == b[120..495]
  {
    assert b[..375] == recent;
  }

  // ----- two runs with one history -----

  /** Two samples bound the loudness from below. */
  lemma LoudnessAtLeast(s: seq<Sample>, i: nat, j: nat)
    requires i < j < |s|
    ensures Loudness(s) >= Magnitude(s[i]) + Magnitude(s[j])
  {
    LoudnessOfOne(s[..j], i);
    LoudnessOfOne(s[j..], 0);
    LoudnessAppend(s[..j], s[j..]);
    assert s[..j] + s[j..] == s;
  }

  lemma LoudnessOfOne(s: seq<Sample>, i: nat)
    requires i < |s|
    ensures Loudness(s) >= Magnitude(s[i])
  {
    LoudnessAppend(s[..i] + [s[i]], s[i + 1..]);
    assert (s[..i] + [s[i]])[..i] == s[..i];
    assert s[..i] + [s[i]] + s[i + 1..] == s;
  }

  /** The same pulses, with a replaced pulse left behind the history: the scale is below 1. */
  lemma QuieterScale(h: seq<Sample>)
    requires |h| == 547 && h[..375] == PulseHistory() && h[428] == 1200
    ensures Scale(PulseHistory()[255..], h[315..435]) < 1.0
  {
    PulsesLoudness();
    assert h[368] == h[..375][368] == 1000;
    var y := h[315..435];
    LoudnessAtLeast(y, 53, 113);
    assert y[53] == 1000 && y[113] == 1200;
    RatioBelow(2000.0, Loudness(y) as real);
  }

  lemma RatioBelow(a: real, b: real)
    requires 0.0 < a < b
    ensures a / b < 1.0
  {
    assert a / b * b == a;
    FactorBelow(a / b, a, b);
  }

  lemma FactorBelow(q: real, a: real, b: real)
    requires 0.0 < a < b && q * b == a
    ensures q < 1.0
  {
    AtLeastAll(q, b);
  }

  lemma AtLeastAll(q: real, b: real)
    requires b > 0.0
    ensures q >= 1.0 ==> q * b >= b
  {
    if q >= 1.0 {
      NonNegative(q - 1.0, b);
      assert q * b == (q - 1.0) * b + b;
    }
  }

  /** The replacement of the last pulse is that pulse, scaled. */
  lemma ReplacedPulse(b: seq<Sample>, decoded: seq<Sample>, scaler: real)
    requires |b| == 547 && |decoded| == 120 && Substitute(b, PulseHistory(), decoded, 315, scaler)
    ensures b[428] == Scaled(scaler, 1000)
  {
    assert b[368] == b[..375][368] == 1000;
    assert b[428] == Scaled(scaler, b[428 - (375 - 315)]);
  }

  lemma ScaledPulses(scaler: real)
    requires 0.0 <= scaler < 1.0
    ensures Scaled(scaler, 1000) <= 1000 && Scaled(1.2, 1000) == 1200
  {
  }

  /** A good frame of pulses after two frames of silence. */
  method PlayPulses(plc: MsbcPlc, output: array<Sample>)
    requires plc.Valid() && output.Length == FRAME && plc.handledBadFrames == 0
    requires output != plc.hist && output != plc.zeroFrame
    requires Recent(plc.emitted)[120..] == seq(255, _ => 0)
    modifies plc, plc.hist, output
    ensures plc.Valid() && plc.handledBadFrames == 0 && Recent(plc.emitted) == PulseHistory()
    ensures plc.hist[375..] == old(plc.hist[375..])
  {
    hide Recent, PulseHistory, Pulses, AfterLoss;
    var frame := Pulses();
    var input := new Sample[FRAME](i requires 0 <= i < FRAME => frame[i]);
    assert input[..] == Pulses();
    RecentMoves(plc.emitted, Pulses());
    PulsesEnd();
    plc.HandleGoodFrames(input, output);
  }

  lemma PulsesEnd()
    ensures seq(255, _ => 0) + Pulses() == PulseHistory()
  {
  }

  /** Three good frames of silence. */
  method PlaySilence(plc: MsbcPlc, output: array<Sample>)
    requires plc.Valid() && output.Length == FRAME && output != plc.hist && output != plc.zeroFrame
    modifies plc, plc.hist, output
    ensures plc.Valid() && plc.handledBadFrames == 0 && Recent(plc.emitted)[120..] == seq(255, _ => 0)
    ensures plc.hist[375..] == old(plc.hist[375..])
  {
    hide Recent, AfterLoss, GoodOutput;
    var input := new Sample[FRAME](_ => 0);
    ghost var e := plc.emitted;
    SilenceComesThrough(plc.handledBadFrames > 0, plc.ahead, input[..]);
    SilenceComesThrough(false, plc.ahead, input[..]);
    plc.HandleGoodFrames(input, output);
    ghost var first := output[..];
    plc.HandleGoodFrames(input, output);
    ghost var second := output[..];
    plc.HandleGoodFrames(input, output);
    ghost var third := output[..];
    RecentMoves(e, first);
    RecentMoves(e + first, second);
    RecentMoves(e + first + second, third);
    SilentEnough(Recent(e), first, second, third);
  }

  lemma SilenceComesThrough(afterLoss: bool, ahead: seq<Sample>, input: seq<Sample>)
    requires |ahead| == 52 && input == seq(120, _ => 0)
    ensures var out := GoodOutput(afterLoss, ahead, input);
            (forall k :: 52 <= k < 120 ==> out[k] == 0) && (!afterLoss ==> forall k :: 0 <= k < 120 ==> out[k] == 0)
  {
    hide Faded;
  }

  lemma SilentEnough(r: seq<Sample>, first: seq<Sample>, second: seq<Sample>, third: seq<Sample>)
    requires |r| == 375 && |first| == |second| == |third| == 120
    requires forall k :: 52 <= k < 120 ==> first[k] == 0
    requires forall k :: 0 <= k < 120 ==> second[k] == 0 && third[k] == 0
    ensures (((r[120..] + first)[120..] + second)[120..] + third)[120..] == seq(255, _ => 0)
  {
    var one := r[120..] + first;
    var two := one[120..] + second;
    var three := two[120..] + third;
    assert forall k :: 187 <= k < 255 ==> one[120..][k] == one[120 + k] == first[k - 135];
    assert forall k :: 67 <= k < 375 ==> two[k] == 0 || k < 187;
    forall k | 0 <= k < 255 ensures three[120..][k] == 0 {
      assert three[120..][k] == three[120 + k];
    }
  }

  /** The first frame lost after the pulses: the lag is 315, and the replaced pulse shows the scale, also in what
      is left behind the history. */
  method LosePulses(plc: MsbcPlc, output: array<Sample>, decoded: seq<Sample>, normalised: (real, real) -> real)
    requires plc.Valid() && output.Length == |decoded| == FRAME && output != plc.hist && output != plc.zeroFrame
    requires plc.handledBadFrames == 0 && Recent(plc.emitted) == PulseHistory() && IsRootQuotient(normalised)
    modifies plc, plc.hist, plc.zeroFrame, output
    ensures plc.Valid() && plc.bestLag == 315 && plc.handledBadFrames == 1
    ensures plc.emitted == old(plc.emitted) + output[..]
    ensures output[53] == plc.hist[428] ==
            Scaled(Scale(PulseHistory()[255..], old(plc.hist[..])[315..435]), 1000)
  {
    hide Substitute, IsBestMatch, Scale, AfterLoss, Recent, IsRootQuotient, PulseHistory, Scaled;
    ghost var e := plc.emitted;
    ghost var h := plc.hist[..];
    ghost var b := plc.HandleBadFrames(decoded, output, normalised);
    PulseBest(plc.bestLag - 64, normalised);
    ReplacedPulse(b, decoded, Scale(PulseHistory()[255..], h[315..435]));
    RecentMoves(e, output[..]);
    assert output[..][53] == b[375..495][53] == b[428];
    LeftBehind(Recent(e), output[..], plc.ahead);
    assert plc.hist[..][428] == plc.hist[428];
  }

  lemma LeftBehind(recent: seq<Sample>, out: seq<Sample>, ahead: seq<Sample>)
    requires |recent| == 375 && |out| == 120 && |ahead| == 52
    ensures AfterLoss(recent[120..] + out, ahead)[428] == out[53]
  {
  }

  /** Two runs that have played the same last 375 samples and get the same lost frame play different
      replacements. The second run has lost a frame before: what is left of it behind the history is read by
      amplitude_match at lag 315. */
  method OneHistoryTwoReplacements(earlier: seq<Sample>, decoded: seq<Sample>, normalised: (real, real) -> real)
    returns (a: MsbcPlc, b: MsbcPlc, outA: array<Sample>, outB: array<Sample>,
             ghost playedA: seq<Sample>, ghost playedB: seq<Sample>)
    requires IsRootQuotient(normalised) && |earlier| == |decoded| == FRAME
    ensures a.Valid() && b.Valid() && a.bestLag == b.bestLag == 315 && a.handledBadFrames == b.handledBadFrames == 1
    ensures a.emitted == playedA + outA[..] && b.emitted == playedB + outB[..] && Recent(playedA) == Recent(playedB)
    ensures outA[..] != outB[..]
  {
    hide AfterLoss, Recent, IsRootQuotient, PulseHistory, Scale, Scaled;
    a, outA := NewWithPulses();
    b, outB := NewWithPulses();
    ghost var h := b.hist[..];
    PulseScale(h);
    LosePulses(b, outB, earlier, normalised);
    ScaledPulses(0.75);
    assert b.hist[428] == 1200;
    ghost var rest := b.hist[375..];
    PlaySilence(b, outB);
    PlayPulses(b, outB);
    assert b.hist[428] == b.hist[375..][53] == rest[53] == 1200;
    ghost var g := b.hist[..];
    assert g[..375] == b.hist[..375];
    QuieterScale(g);
    playedA, playedB := a.emitted, b.emitted;
    ghost var f := a.hist[..];
    PulseScale(f);
    LosePulses(a, outA, decoded, normalised);
    LosePulses(b, outB, decoded, normalised);
    ScaledPulses(Scale(PulseHistory()[255..], g[315..435]));
    assert outA[53] == 1200 && outB[53] <= 1000;
    assert outA[..][53] != outB[..][53];
  }

  /** A new handler that has played the pulses. */
  method NewWithPulses() returns (plc: MsbcPlc, output: array<Sample>)
    ensures fresh(plc) && fresh(plc.hist) && fresh(plc.zeroFrame) && fresh(output) && output.Length == FRAME
    ensures output != plc.hist && output != plc.zeroFrame
    ensures plc.Valid() && plc.handledBadFrames == 0 && Recent(plc.emitted) == PulseHistory()
    ensures plc.hist[..][..375] == PulseHistory() && plc.hist[..][375..] == seq(172, _ => 0)
  {
    hide AfterLoss, Recent, PulseHistory;
    plc := new MsbcPlc();
    output := new Sample[FRAME](_ => 0);
    assert plc.hist[375..] == plc.hist[..][375..] == seq(172, _ => 0);
    NothingPlayed();
    PlayPulses(plc, output);
    assert plc.hist[..][375..] == plc.hist[375..] && plc.hist[..][..375] == plc.hist[..375];
  }

  lemma NothingPlayed()
    ensures Recent([])[120..] == seq(255, _ => 0)
  {
  }
}
