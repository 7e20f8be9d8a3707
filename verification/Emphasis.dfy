/** The emphasis and de-emphasis filters of the compressor (dsp/drc.c): pairs of sections that undo
    each other exactly, although all emphasis stages run before the first de-emphasis stage. */
module Emphasis {
  import opened Biquads
  import opened Eq2

  /** Sample n of a signal that is zero outside its block. */
  function At(s: seq<real>, n: int): real {
    if 0 <= n < |s| then s[n] else 0.0
  }

  /** The recursive and the feed-forward side of a section's difference equation. */
  function Back(c: Coeffs, y0: real, y1: real, y2: real): real {
    y0 + c.a1 * y1 + c.a2 * y2
  }

  function Forward(c: Coeffs, x0: real, x1: real, x2: real): real {
    c.b0 * x0 + c.b1 * x1 + c.b2 * x2
  }

  /** The difference equation of section c at time n, as a relation between input and output. */
  ghost predicate SolvesAt(c: Coeffs, xs: seq<real>, ys: seq<real>, n: int) {
    Back(c, At(ys, n), At(ys, n - 1), At(ys, n - 2)) == Forward(c, At(xs, n), At(xs, n - 1), At(xs, n - 2))
  }

  ghost predicate Solves(c: Coeffs, xs: seq<real>, ys: seq<real>) {
    && |ys| == |xs|
    && forall n :: n < |xs| ==> SolvesAt(c, xs, ys, n)
  }

  /** A section started at rest solves its difference equation at every time. */
  lemma {:induction false} FilterSolves(c: Coeffs, xs: seq<real>)
    ensures var (q, ys) := Filter(Fresh(c), xs);
            var n := |xs|;
            Solves(c, xs, ys) &&
            q.h == History(At(xs, n - 1), At(xs, n - 2), At(ys, n - 1), At(ys, n - 2))
    decreases |xs|
  {
    var (q, ys) := Filter(Fresh(c), xs);
    var n := |xs| - 1;
    if xs == [] {
      forall k | k < 0 ensures SolvesAt(c, xs, ys, k) {
        Silent(c, xs, ys, k);
      }
    } else {
      var front := xs[..n];
      FilterSolves(c, front);
      var (q0, ys0) := Filter(Fresh(c), front);
      forall k | k <= n ensures SolvesAt(c, xs, ys, k) {
        if k < n {
          assert SolvesAt(c, front, ys0, k);
        } else {
          assert ys[n] == Tap(c, xs[n], q0.h);
        }
      }
    }
  }

  lemma Silent(c: Coeffs, xs: seq<real>, ys: seq<real>, n: int)
    requires n < 0
    ensures SolvesAt(c, xs, ys, n)
  {
  }

  /** The fourth-order left-hand side of two sections in series; it does not depend on their order. */
  function Series(c: Coeffs, d: Coeffs, z0: real, z1: real, z2: real, z3: real, z4: real): real {
    z0 + (c.a1 + d.a1) * z1 + (c.a2 + c.a1 * d.a1 + d.a2) * z2 + (c.a1 * d.a2 + c.a2 * d.a1) * z3 + (c.a2 * d.a2) * z4
  }

  function Feed(c: Coeffs, d: Coeffs, x0: real, x1: real, x2: real, x3: real, x4: real): real {
    (c.b0 * d.b0) * x0 + (c.b0 * d.b1 + c.b1 * d.b0) * x1 + (c.b0 * d.b2 + c.b1 * d.b1 + c.b2 * d.b0) * x2 +
    (c.b1 * d.b2 + c.b2 * d.b1) * x3 + (c.b2 * d.b2) * x4
  }

  /** Eliminating the signal between two sections in series. */
  lemma Eliminate(c: Coeffs, d: Coeffs, xs: seq<real>, ys: seq<real>, zs: seq<real>, n: int)
    requires Solves(c, xs, ys) && Solves(d, ys, zs) && n < |xs|
    ensures Series(c, d, At(zs, n), At(zs, n - 1), At(zs, n - 2), At(zs, n - 3), At(zs, n - 4)) ==
            Feed(c, d, At(xs, n), At(xs, n - 1), At(xs, n - 2), At(xs, n - 3), At(xs, n - 4))
  {
    hide Back, Forward, Series, Feed;
    var x0, x1, x2, x3, x4 := At(xs, n), At(xs, n - 1), At(xs, n - 2), At(xs, n - 3), At(xs, n - 4);
    var y0, y1, y2, y3, y4 := At(ys, n), At(ys, n - 1), At(ys, n - 2), At(ys, n - 3), At(ys, n - 4);
    var z0, z1, z2, z3, z4 := At(zs, n), At(zs, n - 1), At(zs, n - 2), At(zs, n - 3), At(zs, n - 4);
    assert SolvesAt(c, xs, ys, n) && SolvesAt(c, xs, ys, n - 1) && SolvesAt(c, xs, ys, n - 2);
    assert SolvesAt(d, ys, zs, n) && SolvesAt(d, ys, zs, n - 1) && SolvesAt(d, ys, zs, n - 2);
    SeriesFactors(c, d, z0, z1, z2, z3, z4);
    SidesCommute(c, d, y0, y1, y2, y3, y4);
    FeedFactors(c, d, x0, x1, x2, x3, x4);
  }

  lemma SeriesFactors(c: Coeffs, d: Coeffs, z0: real, z1: real, z2: real, z3: real, z4: real)
    ensures Series(c, d, z0, z1, z2, z3, z4) == Back(c, Back(d, z0, z1, z2), Back(d, z1, z2, z3), Back(d, z2, z3, z4))
  {
  }

  lemma FeedFactors(c: Coeffs, d: Coeffs, x0: real, x1: real, x2: real, x3: real, x4: real)
    ensures Feed(c, d, x0, x1, x2, x3, x4) ==
            Forward(d, Forward(c, x0, x1, x2), Forward(c, x1, x2, x3), Forward(c, x2, x3, x4))
  {
  }

  /** The recursive side of one section and the feed-forward side of another commute. */
  lemma SidesCommute(c: Coeffs, d: Coeffs, y0: real, y1: real, y2: real, y3: real, y4: real)
    ensures Back(c, Forward(d, y0, y1, y2), Forward(d, y1, y2, y3), Forward(d, y2, y3, y4)) ==
            Forward(d, Back(c, y0, y1, y2), Back(c, y1, y2, y3), Back(c, y2, y3, y4))
  {
    hide Back, Forward, Cross;
    BackOfForward(c, d, y0, y1, y2, y3, y4);
    ForwardOfBack(c, d, y0, y1, y2, y3, y4);
  }

  function Cross(c: Coeffs, d: Coeffs, y0: real, y1: real, y2: real, y3: real, y4: real): real {
    d.b0 * y0 + (d.b1 + c.a1 * d.b0) * y1 + (d.b2 + c.a1 * d.b1 + c.a2 * d.b0) * y2
    + (c.a1 * d.b2 + c.a2 * d.b1) * y3 + (c.a2 * d.b2) * y4
  }

  lemma BackOfForward(c: Coeffs, d: Coeffs, y0: real, y1: real, y2: real, y3: real, y4: real)
    ensures Back(c, Forward(d, y0, y1, y2), Forward(d, y1, y2, y3), Forward(d, y2, y3, y4)) ==
            Cross(c, d, y0, y1, y2, y3, y4)
  {
  }

  lemma ForwardOfBack(c: Coeffs, d: Coeffs, y0: real, y1: real, y2: real, y3: real, y4: real)
    ensures Forward(d, Back(c, y0, y1, y2), Back(c, y1, y2, y3), Back(c, y2, y3, y4)) ==
            Cross(c, d, y0, y1, y2, y3, y4)
  {
  }

  lemma SeriesSymmetric(c: Coeffs, d: Coeffs, z0: real, z1: real, z2: real, z3: real, z4: real)
    ensures Series(c, d, z0, z1, z2, z3, z4) == Series(d, c, z0, z1, z2, z3, z4)
    ensures Feed(c, d, z0, z1, z2, z3, z4) == Feed(d, c, z0, z1, z2, z3, z4)
  {
  }

  /** Sections started at rest commute. */
  lemma FiltersCommute(c: Coeffs, d: Coeffs, xs: seq<real>)
    ensures Filter(Fresh(d), Filter(Fresh(c), xs).1).1 == Filter(Fresh(c), Filter(Fresh(d), xs).1).1
  {
    var ys, us := Filter(Fresh(c), xs).1, Filter(Fresh(d), xs).1;
    FilterSolves(c, xs);
    FilterSolves(d, xs);
    FilterSolves(d, ys);
    FilterSolves(c, us);
    SolutionsAgree(c, d, xs, ys, Filter(Fresh(d), ys).1, us, Filter(Fresh(c), us).1, |xs|);
  }

  lemma {:induction false} SolutionsAgree(c: Coeffs, d: Coeffs, xs: seq<real>, ys: seq<real>, zs: seq<real>,
                                          us: seq<real>, ws: seq<real>, n: nat)
    requires Solves(c, xs, ys) && Solves(d, ys, zs)
    requires Solves(d, xs, us) && Solves(c, us, ws)
    requires n <= |xs|
    ensures zs[..n] == ws[..n]
    decreases n
  {
    if n > 0 {
      SolutionsAgree(c, d, xs, ys, zs, us, ws, n - 1);
      var k := n - 1;
      assert forall i :: i < k ==> At(zs, i) == At(zs[..k], i) == At(ws[..k], i) == At(ws, i);
      Eliminate(c, d, xs, ys, zs, k);
      Eliminate(d, c, xs, us, ws, k);
      SeriesSymmetric(c, d, At(ws, k), At(ws, k - 1), At(ws, k - 2), At(ws, k - 3), At(ws, k - 4));
      SeriesSymmetric(c, d, At(xs, k), At(xs, k - 1), At(xs, k - 2), At(xs, k - 3), At(xs, k - 4));
      assert zs[k] == ws[k];
      assert zs[..n] == zs[..k] + [zs[k]] && ws[..n] == ws[..k] + [ws[k]];
    }
  }

  function AtRest(cs: seq<Coeffs>): (qs: seq<Biquad>)
    ensures |qs| == |cs|
  {
    seq(|cs|, i requires 0 <= i < |cs| => Fresh(cs[i]))
  }

  lemma AtRestSnoc(cs: seq<Coeffs>)
    requires cs != []
    ensures AtRest(cs) == AtRest(cs[..|cs| - 1]) + [Fresh(cs[|cs| - 1])]
  {
  }

  /** A section started at rest commutes with a whole chain started at rest. */
  lemma {:induction false} FilterCommutesWithChain(c: Coeffs, ds: seq<Coeffs>, xs: seq<real>)
    ensures Filter(Fresh(c), Chain(AtRest(ds), xs).1).1 == Chain(AtRest(ds), Filter(Fresh(c), xs).1).1
    decreases |ds|
  {
    if ds != [] {
      var front, d := ds[..|ds| - 1], ds[|ds| - 1];
      AtRestSnoc(ds);
      FilterCommutesWithChain(c, front, xs);
      FiltersCommute(d, c, Chain(AtRest(front), xs).1);
      ChainSnocStage(AtRest(front), Fresh(d), xs);
      ChainSnocStage(AtRest(front), Fresh(d), Filter(Fresh(c), xs).1);
    }
  }

  /** Of two pairs of a zero and a pole, the zeros are roots of the section's numerator and the poles of its
      denominator, and a constant passes unchanged: 0 dB at 0 Hz. */
  ghost predicate HasRoots(c: Coeffs, first: (real, real), second: (real, real)) {
    && IsZero(c, first.0) && IsZero(c, second.0) && IsPole(c, first.1) && IsPole(c, second.1)
    && c.b1 == -c.b0 * (first.0 + second.0) && c.a1 == -(first.1 + second.1)
    && c.b0 + c.b1 + c.b2 == 1.0 + c.a1 + c.a2
  }

  ghost predicate IsZero(c: Coeffs, z: real) {
    c.b0 * (z * z) + c.b1 * z + c.b2 == 0.0
  }

  ghost predicate IsPole(c: Coeffs, p: real) {
    p * p + c.a1 * p + c.a2 == 0.0
  }

  lemma RootOfProduct(u: real, v: real)
    ensures u * u + -(u + v) * u + u * v == 0.0 && v * v + -(u + v) * v + u * v == 0.0
  {
  }

  lemma ScaledRoots(alpha: real, b1: real, b2: real, z: real, e: Coeffs)
    requires z * z + b1 * z + b2 == 0.0
    requires e.b0 == alpha && e.b1 == b1 * alpha && e.b2 == b2 * alpha
    ensures IsZero(e, z)
  {
    assert e.b1 * z == alpha * (b1 * z);
    assert e.b0 * (z * z) + e.b1 * z + e.b2 == alpha * (z * z + b1 * z + b2);
  }

  lemma UnitGain(alpha: real, t: real, s: real, e: Coeffs, b1: real, b2: real)
    requires t != 0.0 && alpha == s / t && t == 1.0 + b1 + b2 && s == 1.0 + e.a1 + e.a2
    requires e.b0 == 1.0 * alpha && e.b1 == b1 * alpha && e.b2 == b2 * alpha
    ensures e.b0 + e.b1 + e.b2 == 1.0 + e.a1 + e.a2
  {
    assert alpha * t == s;
    assert e.b0 + e.b1 + e.b2 == alpha * (1.0 + b1 + b2);
  }

  /** The two sections emphasis_stage_pair_biquads builds from two zeros and two poles. */
  function StagePair(z1: real, p1: real, z2: real, p2: real): (r: (Coeffs, Coeffs))
    requires z1 != 1.0 && z2 != 1.0 && p1 != 1.0 && p2 != 1.0
    ensures Inverse(r.0, r.1) && HasRoots(r.0, (z1, p1), (z2, p2))
  {
    var b0, b1, b2 := 1.0, -(z1 + z2), z1 * z2;
    var a0, a1, a2 := 1.0, -(p1 + p2), p1 * p2;
    RootOfProduct(z1, z2);
    RootOfProduct(p1, p2);
    SumNonzero(z1, z2);
    SumNonzero(p1, p2);
    var alpha := (a0 + a1 + a2) / (b0 + b1 + b2);
    var beta := (b0 + b1 + b2) / (a0 + a1 + a2);
    Reciprocal(a0 + a1 + a2, b0 + b1 + b2);
    var e := Coeffs(b0 * alpha, b1 * alpha, b2 * alpha, a1, a2);
    var d := Coeffs(a0 * beta, a1 * beta, a2 * beta, b1, b2);
    ScaledInverse(alpha, beta, e, d);
    ScaledRoots(alpha, b1, b2, z1, e);
    ScaledRoots(alpha, b1, b2, z2, e);
    UnitGain(alpha, b0 + b1 + b2, a0 + a1 + a2, e, b1, b2);
    (e, d)
  }

  /** With zeros above their poles, as emphasis_stage_roots makes them, a stage lifts the first sample of a signal:
      its emphasis is on what changes, not on what stays. */
  lemma LiftsOnset(c: Coeffs, first: (real, real), second: (real, real))
    requires HasRoots(c, first, second)
    requires 0.0 <= first.1 < first.0 < 1.0 && 0.0 <= second.1 < second.0 < 1.0
    ensures c.b0 > 1.0 && Output(Fresh(c), 1.0) == c.b0
  {
    var u1, u2, v1, v2 := 1.0 - first.0, 1.0 - second.0, 1.0 - first.1, 1.0 - second.1;
    SumOfRoots(c.b0, c.b1, c.b2, first.0, second.0);
    SumOfRoots(1.0, c.a1, c.a2, first.1, second.1);
    Larger(u1, v1, u2, v2);
    FactorAbove(c.b0, u1 * u2, v1 * v2);
  }

  /** The coefficient sum of a quadratic, from its roots. */
  lemma SumOfRoots(k: real, b: real, c: real, u: real, v: real)
    requires k * (u * u) + b * u + c == 0.0 && b == -k * (u + v)
    ensures k + b + c == k * ((1.0 - u) * (1.0 - v))
  {
    assert b * u == -(k * (u * u)) - k * (u * v);
    assert (1.0 - u) * (1.0 - v) == 1.0 - (u + v) + u * v;
    assert k * ((1.0 - u) * (1.0 - v)) == k + -k * (u + v) + k * (u * v);
  }

  lemma Larger(u1: real, v1: real, u2: real, v2: real)
    requires 0.0 < u1 < v1 && 0.0 < u2 < v2
    ensures 0.0 < u1 * u2 < v1 * v2
  {
    Positive(u1, u2);
    Positive(v1 - u1, v2);
    Positive(u1, v2 - u2);
    assert v1 * v2 == u1 * u2 + (v1 - u1) * v2 + u1 * (v2 - u2);
  }

  lemma Positive(a: real, b: real)
    requires a > 0.0 && b > 0.0
    ensures a * b > 0.0
  {
  }

  lemma FactorAbove(b: real, u: real, v: real)
    requires 0.0 < u < v && b * u == v
    ensures b > 1.0
  {
    AtMostOne(b, u);
  }

  lemma AtMostOne(b: real, u: real)
    requires u > 0.0
    ensures b <= 1.0 ==> b * u <= u
  {
    if b < 1.0 {
      Positive(1.0 - b, u);
      assert b * u == u - (1.0 - b) * u;
    }
  }

  /** The coefficient sum of two roots vanishes only when one of them is 1. */
  lemma SumNonzero(r1: real, r2: real)
    requires r1 != 1.0 && r2 != 1.0
    ensures 1.0 + -(r1 + r2) + r1 * r2 != 0.0
  {
    var u, v := 1.0 - r1, 1.0 - r2;
    assert 1.0 + -(r1 + r2) + r1 * r2 == u * v;
  }

  lemma Reciprocal(s: real, t: real)
    requires s != 0.0 && t != 0.0
    ensures (s / t) * (t / s) == 1.0
  {
    var u, v := s / t, t / s;
    assert u * t == s && v * s == t;
    assert (u * v) * s == u * (v * s) == u * t;
    assert ((u * v) - 1.0) * s == 0.0;
  }

  /** d's poles are e's zeros and the other way round, and the gains cancel. */
  ghost predicate Inverse(e: Coeffs, d: Coeffs) {
    && d.b0 * e.b0 == 1.0
    && d.b0 * e.b1 == d.a1 && d.b0 * e.b2 == d.a2
    && d.b1 == d.b0 * e.a1 && d.b2 == d.b0 * e.a2
  }

  lemma ScaledInverse(alpha: real, beta: real, e: Coeffs, d: Coeffs)
    requires alpha * beta == 1.0
    requires e.b0 == alpha && e.b1 == d.a1 * alpha && e.b2 == d.a2 * alpha
    requires d.b0 == beta && d.b1 == e.a1 * beta && d.b2 == e.a2 * beta
    ensures Inverse(e, d)
  {
    assert d.b0 * e.b1 == d.a1 * (alpha * beta);
    assert d.b0 * e.b2 == d.a2 * (alpha * beta);
  }

  /** One de-emphasis stage right after its emphasis stage gives the input back. */
  lemma {:induction false} StageInverse(e: Coeffs, d: Coeffs, xs: seq<real>)
    requires Inverse(e, d)
    ensures var (q, ys) := Filter(Fresh(e), xs);
            var (r, zs) := Filter(Fresh(d), ys);
            zs == xs && r.h == History(q.h.y1, q.h.y2, q.h.x1, q.h.x2)
    decreases |xs|
  {
    if xs != [] {
      var front, x := xs[..|xs| - 1], xs[|xs| - 1];
      StageInverse(e, d, front);
      var (q, ys) := Filter(Fresh(e), front);
      var r := Filter(Fresh(d), ys).0;
      FilterSnoc(Fresh(d), ys, Output(q, x));
      TapInverse(e, d, x, q.h);
      assert front + [x] == xs;
    }
  }

  lemma TapInverse(e: Coeffs, d: Coeffs, x: real, h: History)
    requires Inverse(e, d)
    ensures Tap(d, Tap(e, x, h), History(h.y1, h.y2, h.x1, h.x2)) == x
  {
    var y := Tap(e, x, h);
    calc {
      d.b0 * y;
      (d.b0 * e.b0) * x + (d.b0 * e.b1) * h.x1 + (d.b0 * e.b2) * h.x2 - (d.b0 * e.a1) * h.y1 - (d.b0 * e.a2) * h.y2;
      x + d.a1 * h.x1 + d.a2 * h.x2 - d.b1 * h.y1 - d.b2 * h.y2;
    }
  }

  ghost predicate Inverses(es: seq<Coeffs>, ds: seq<Coeffs>) {
    |es| == |ds| && forall i :: 0 <= i < |es| ==> Inverse(es[i], ds[i])
  }

  /** De-emphasis undoes emphasis: for chains of stages that are inverse one by one, all of the first
      followed by all of the second is the identity on every signal. */
  lemma {:induction false} ChainInverse(es: seq<Coeffs>, ds: seq<Coeffs>, xs: seq<real>)
    requires Inverses(es, ds)
    ensures Chain(AtRest(ds), Chain(AtRest(es), xs).1).1 == xs
    decreases |es|
  {
    if es != [] {
      var n := |es| - 1;
      var es0, ds0, e, d := es[..n], ds[..n], es[n], ds[n];
      AtRestSnoc(es);
      AtRestSnoc(ds);
      var mid := Chain(AtRest(es0), xs).1;
      ChainSnocStage(AtRest(es0), Fresh(e), xs);
      ChainSnocStage(AtRest(ds0), Fresh(d), Filter(Fresh(e), mid).1);
      FilterCommutesWithChain(e, ds0, mid);
      ChainInverse(es0, ds0, xs);
      StageInverse(e, d, xs);
    }
  }

  /** The same for a stream cut into blocks of any sizes, each block emphasised and de-emphasised in
      turn with the histories of the earlier blocks: every block comes back. */
  lemma DeemphasisUndoesEmphasis(es: seq<Coeffs>, ds: seq<Coeffs>, blocks: seq<seq<real>>)
    requires Inverses(es, ds)
    ensures ChainBlocks(AtRest(ds), ChainBlocks(AtRest(es), blocks).1).1 == blocks
  {
    var mids := ChainBlocks(AtRest(es), blocks).1;
    var outs := ChainBlocks(AtRest(ds), mids).1;
    ChainBlocksIsChain(AtRest(es), blocks);
    ChainBlocksIsChain(AtRest(ds), mids);
    ChainInverse(es, ds, Concat(blocks));
    ConcatInjective(outs, blocks);
  }

  /** Both channels of an equaliser hold the stages cs, at rest. */
  ghost predicate Holds(eq: Equaliser2, cs: seq<Coeffs>)
    reads eq, eq.biquad
  {
    eq.Valid() && eq.Stages(0) == AtRest(cs) && eq.Stages(1) == AtRest(cs)
  }

  lemma NothingHeld(eq: Equaliser2)
    requires eq.Valid() && eq.Stages(0) == [] && eq.Stages(1) == []
    ensures Holds(eq, [])
  {
  }

  /** The inner loop of init_emphasis_eq: one stage, for both channels. */
  method AppendStage(eq: Equaliser2, c: Coeffs, ghost cs: seq<Coeffs>)
    requires Holds(eq, cs) && |cs| < MAX_BIQUADS_PER_EQ2
    modifies eq, eq.biquad
    ensures Holds(eq, cs + [c])
  {
    AtRestSnoc(cs + [c]);
    assert (cs + [c])[..|cs|] == cs;
    for j := 0 to 2
      invariant eq.Valid()
      invariant eq.Stages(0) == AtRest(if j > 0 then cs + [c] else cs)
      invariant eq.Stages(1) == AtRest(if j > 1 then cs + [c] else cs)
    {
      var rc := eq.AppendDirect(j, Fresh(c));
      assert rc == 0;
    }
  }

  /** The frequencies of the four stages init_emphasis_eq designs. */
  function Frequencies(anchor: real, stageRatio: real): (f: seq<real>)
    requires stageRatio != 0.0
    ensures |f| == 4
  {
    SquareNonzero(stageRatio);
    var second := anchor / (stageRatio * stageRatio);
    [anchor, anchor / stageRatio, second, second / stageRatio]
  }

  lemma SquareNonzero(r: real)
    requires r != 0.0
    ensures r * r != 0.0
  {
  }

  /** No root of these stages is 1. The exponential of emphasis_stage_roots is 1 only at frequency 0. */
  ghost predicate RootsApart(roots: real -> (real, real), fs: seq<real>) {
    forall i :: 0 <= i < |fs| ==> roots(fs[i]).0 != 1.0 && roots(fs[i]).1 != 1.0
  }

  /** The stages are those for the anchor frequency and for the next three, each lower by the stage ratio; the
      zeros are the first roots and the poles the second ones. */
  ghost predicate Emphasises(es: seq<Coeffs>, roots: real -> (real, real), anchor: real, stageRatio: real)
    requires stageRatio != 0.0
  {
    && |es| == 2
    && HasRoots(es[0], roots(anchor), roots(anchor / stageRatio))
    && HasRoots(es[1], roots(anchor / stageRatio / stageRatio), roots(anchor / stageRatio / stageRatio / stageRatio))
  }

  lemma FrequenciesFall(anchor: real, stageRatio: real)
    requires stageRatio != 0.0
    ensures Frequencies(anchor, stageRatio) ==
            [anchor, anchor / stageRatio, anchor / stageRatio / stageRatio,
             anchor / stageRatio / stageRatio / stageRatio]
  {
    hide Frequencies;
    SquareNonzero(stageRatio);
    FrequenciesAre(anchor, stageRatio);
    TwiceIsSquare(anchor, stageRatio);
  }

  lemma ProductNonzero(a: real, b: real, w: real)
    requires w == a * b && a != 0.0 && b != 0.0
    ensures w != 0.0
  {
    assert w * (1.0 / b) == a * (b * (1.0 / b)) == a;
  }

  lemma TwiceIsSquare(a: real, r: real)
    requires r != 0.0 && r * r != 0.0
    ensures a / r / r == a / (r * r)
  {
    var w := r * r;
    ProductNonzero(r, r, w);
    var t := a / r;
    var u := t / r;
    assert u * r == t && t * r == a;
    assert u * w == (u * r) * r;
    QuotientIs(a, u, w);
  }

  lemma QuotientIs(a: real, q: real, w: real)
    requires w != 0.0 && q * w == a
    ensures a / w == q
  {
    var v := a / w;
    assert v * w == a;
    assert (q - v) * w == q * w - v * w;
    NoFactor(q - v, w);
  }

  lemma NoFactor(x: real, w: real)
    requires w != 0.0 && x * w == 0.0
    ensures x == 0.0
  {
    assert (x * w) * (1.0 / w) == x * (w * (1.0 / w)) == x;
  }

  lemma FrequenciesAre(anchor: real, stageRatio: real)
    requires stageRatio != 0.0 && stageRatio * stageRatio != 0.0
    ensures var fs, second := Frequencies(anchor, stageRatio), anchor / (stageRatio * stageRatio);
            fs[0] == anchor && fs[1] == anchor / stageRatio && fs[2] == second && fs[3] == second / stageRatio
  {
  }

  /** init_emphasis_eq. The roots of a stage come from emphasis_stage_roots, an exponential of the
      frequency that is a parameter here. */
  method InitEmphasisEq(roots: real -> (real, real), anchor: real, stageRatio: real)
    returns (emphasis: Equaliser2, deemphasis: Equaliser2, ghost es: seq<Coeffs>, ghost ds: seq<Coeffs>)
    requires stageRatio != 0.0 && RootsApart(roots, Frequencies(anchor, stageRatio))
    ensures fresh(emphasis) && fresh(emphasis.biquad) && fresh(deemphasis) && fresh(deemphasis.biquad)
    ensures emphasis != deemphasis && emphasis.biquad != deemphasis.biquad
    ensures |es| == 2 && Inverses(es, ds) && Holds(emphasis, es) && Holds(deemphasis, ds)
    ensures Emphasises(es, roots, anchor, stageRatio)
  {
    hide StagePair, Inverse, Holds, RootsApart, HasRoots, Frequencies;
    FrequenciesFall(anchor, stageRatio);
    emphasis := new Equaliser2();
    deemphasis := new Equaliser2();
    es, ds := [], [];
    NothingHeld(emphasis);
    NothingHeld(deemphasis);
    SquareNonzero(stageRatio);
    FrequenciesAre(anchor, stageRatio);
    ghost var fs := Frequencies(anchor, stageRatio);
    var f := anchor;
    for i := 0 to 2
      invariant |es| == |ds| == i && Inverses(es, ds)
      invariant Holds(emphasis, es) && Holds(deemphasis, ds)
      invariant i == 0 ==> f == anchor
      invariant i == 1 ==> f == fs[2] && HasRoots(es[0], roots(fs[0]), roots(fs[1]))
      invariant i == 2 ==> HasRoots(es[0], roots(fs[0]), roots(fs[1])) && HasRoots(es[1], roots(fs[2]), roots(fs[3]))
      modifies emphasis, emphasis.biquad, deemphasis, deemphasis.biquad
    {
      RootsAt(roots, fs, 2 * i);
      RootsAt(roots, fs, 2 * i + 1);
      var (z1, p1) := roots(f);
      var (z2, p2) := roots(f / stageRatio);
      var (e, d) := StagePair(z1, p1, z2, p2);
      AppendStage(emphasis, e, es);
      AppendStage(deemphasis, d, ds);
      es, ds := es + [e], ds + [d];
      f := f / (stageRatio * stageRatio);
    }
  }

  lemma RootsAt(roots: real -> (real, real), fs: seq<real>, i: nat)
    requires RootsApart(roots, fs) && i < |fs|
    ensures roots(fs[i]).0 != 1.0 && roots(fs[i]).1 != 1.0
  {
  }
}
