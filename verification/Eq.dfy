/** The mono equaliser (dsp/eq.c): the prototype loop eq_process1 and the loop eq_process that runs
    two stages at a time and never stores the second stage's input history. */
module Eq {
  import opened Biquads

  const MAX_BIQUADS_PER_EQ := 10

  /** Two stages fused: the second stage's input history is read from the first one's output history. */
  function FusedOutput(q: Biquad, r: Biquad, y: real): real {
    Tap(r.c, y, History(q.h.y1, q.h.y2, r.h.y1, r.h.y2))
  }

  function FusedAdvance(r: Biquad, z: real): Biquad {
    r.(h := r.h.(y1 := z, y2 := r.h.y1))
  }

  function FusedPair(q: Biquad, r: Biquad, xs: seq<real>): (res: (Biquad, Biquad, seq<real>))
    ensures |res.2| == |xs|
  {
    if xs == [] then (q, r, []) else
      var (q', r', zs) := FusedPair(q, r, xs[..|xs| - 1]);
      var x := xs[|xs| - 1];
      var y := Output(q', x);
      var z := FusedOutput(q', r', y);
      (Advance(q', x, y), FusedAdvance(r', z), zs + [z])
  }

  /** What eq_process computes: pairs of stages fused, a last odd stage alone. */
  function FusedChain(qs: seq<Biquad>, xs: seq<real>): (res: (seq<Biquad>, seq<real>))
    ensures |res.0| == |qs| && |res.1| == |xs|
  {
    var n := |qs|;
    if n == 0 then ([], xs)
    else if n % 2 == 1 then
      var (front, ys) := FusedChain(qs[..n - 1], xs);
      var (q, zs) := Filter(qs[n - 1], ys);
      (front + [q], zs)
    else
      var (front, ys) := FusedChain(qs[..n - 2], xs);
      var (q, r, zs) := FusedPair(qs[n - 2], qs[n - 1], ys);
      (front + [q, r], zs)
  }

  lemma FusedNothing(xs: seq<real>)
    ensures FusedChain([], xs) == Chain([], xs) == ([], xs)
  {
  }

  lemma FusedSnocOne(qs: seq<Biquad>, q: Biquad, xs: seq<real>)
    requires |qs| % 2 == 0
    ensures var (front, ys) := FusedChain(qs, xs);
            var (q', zs) := Filter(q, ys);
            FusedChain(qs + [q], xs) == (front + [q'], zs)
  {
    hide Filter;
    assert (qs + [q])[..|qs|] == qs;
  }

  lemma FusedSnocPair(qs: seq<Biquad>, q: Biquad, r: Biquad, xs: seq<real>)
    requires |qs| % 2 == 0
    ensures var (front, ys) := FusedChain(qs, xs);
            var (q', r', zs) := FusedPair(q, r, ys);
            FusedChain(qs + [q, r], xs) == (front + [q', r'], zs)
  {
    hide Filter, FusedPair;
    var all := qs + [q, r];
    var n := |all|;
    assert all[..n - 2] == qs && all[n - 2] == q && all[n - 1] == r;
  }

  /** A fused pair q, r stands for the two sections q, r': r' has r's coefficients and output history,
      and its input history is q's output history. */
  ghost predicate StandsFor(q: Biquad, r: Biquad, r': Biquad) {
    r' == r.(h := History(q.h.y1, q.h.y2, r.h.y1, r.h.y2))
  }

  /** The fused equaliser fs and the prototype ps are in step. */
  ghost predicate InStep(fs: seq<Biquad>, ps: seq<Biquad>) {
    var n := |fs|;
    && |ps| == n
    && if n == 0 then true
       else if n % 2 == 1 then InStep(fs[..n - 1], ps[..n - 1]) && fs[n - 1] == ps[n - 1]
       else
         && InStep(fs[..n - 2], ps[..n - 2])
         && fs[n - 2] == ps[n - 2] && StandsFor(fs[n - 2], fs[n - 1], ps[n - 1])
  }

  /** Loop fusion for one pair. */
  lemma {:induction false} FusedPairIsTwoStages(q: Biquad, r: Biquad, r': Biquad, xs: seq<real>)
    requires StandsFor(q, r, r')
    ensures var (q1, ys) := Filter(q, xs);
            var (r1', zs) := Filter(r', ys);
            var (q2, r2, ws) := FusedPair(q, r, xs);
            q1 == q2 && zs == ws && StandsFor(q2, r2, r1')
    decreases |xs|
  {
    if xs != [] {
      var front, x := xs[..|xs| - 1], xs[|xs| - 1];
      FusedPairIsTwoStages(q, r, r', front);
      var (q1, ys) := Filter(q, front);
      FilterSnoc(r', ys, Output(q1, x));
    }
  }

  /** The fused loop and the prototype give the same samples and stay in step. */
  lemma {:induction false} FusedIsPrototype(fs: seq<Biquad>, ps: seq<Biquad>, xs: seq<real>)
    requires InStep(fs, ps)
    ensures FusedChain(fs, xs).1 == Chain(ps, xs).1
    ensures InStep(FusedChain(fs, xs).0, Chain(ps, xs).0)
    decreases |fs|
  {
    hide FusedChain, Chain, Filter, FusedPair, Tap, StandsFor;
    var n := |fs|;
    if n == 0 {
      FusedNothing(xs);
    } else if n % 2 == 1 {
      var f0, p0, q := fs[..n - 1], ps[..n - 1], fs[n - 1];
      FusedIsPrototype(f0, p0, xs);
      assert fs == f0 + [q] && ps == p0 + [q];
      FusedSnocOne(f0, q, xs);
      ChainSnocStage(p0, q, xs);
      InStepSnocOne(FusedChain(f0, xs).0, Chain(p0, xs).0, Filter(q, Chain(p0, xs).1).0);
    } else {
      var f0, p0, q, r, r' := fs[..n - 2], ps[..n - 2], fs[n - 2], fs[n - 1], ps[n - 1];
      FusedIsPrototype(f0, p0, xs);
      assert fs == f0 + [q, r] && ps == p0 + [q] + [r'];
      var (_, ys) := Chain(p0, xs);
      FusedPairIsTwoStages(q, r, r', ys);
      FusedSnocPair(f0, q, r, xs);
      ChainSnocStage(p0, q, xs);
      ChainSnocStage(p0 + [q], r', xs);
      InStepSnocPair(FusedChain(f0, xs).0, Chain(p0, xs).0, FusedPair(q, r, ys).0, FusedPair(q, r, ys).1,
                     Filter(r', Filter(q, ys).1).0);
    }
  }

  lemma InStepSnocOne(fs: seq<Biquad>, ps: seq<Biquad>, q: Biquad)
    requires InStep(fs, ps) && |fs| % 2 == 0
    ensures InStep(fs + [q], ps + [q])
  {
    assert (fs + [q])[..|fs|] == fs && (ps + [q])[..|ps|] == ps;
  }

  lemma InStepSnocPair(fs: seq<Biquad>, ps: seq<Biquad>, q: Biquad, r: Biquad, r': Biquad)
    requires InStep(fs, ps) && |fs| % 2 == 0 && StandsFor(q, r, r')
    ensures InStep(fs + [q, r], ps + [q] + [r'])
  {
    hide StandsFor;
    assert (fs + [q, r])[..|fs|] == fs && (ps + [q] + [r'])[..|ps|] == ps;
  }

  lemma {:induction false} AtRestInStep(qs: seq<Biquad>)
    requires forall i :: 0 <= i < |qs| ==> qs[i].h == ZERO_HISTORY
    ensures InStep(qs, qs)
    decreases |qs|
  {
    var n := |qs|;
    if n > 0 {
      AtRestInStep(qs[..if n % 2 == 1 then n - 1 else n - 2]);
    }
  }

  /** Blocks through the fused loop, histories carried over. */
  function FusedBlocks(qs: seq<Biquad>, blocks: seq<seq<real>>): (r: (seq<Biquad>, seq<seq<real>>))
    ensures |r.0| == |qs| && |r.1| == |blocks|
  {
    if blocks == [] then (qs, []) else
      var (qs', outs) := FusedBlocks(qs, blocks[..|blocks| - 1]);
      var (qs'', out) := FusedChain(qs', blocks[|blocks| - 1]);
      (qs'', outs + [out])
  }

  lemma {:induction false} FusedBlocksInStep(fs: seq<Biquad>, ps: seq<Biquad>, blocks: seq<seq<real>>)
    requires InStep(fs, ps)
    ensures FusedBlocks(fs, blocks).1 == ChainBlocks(ps, blocks).1
    ensures InStep(FusedBlocks(fs, blocks).0, ChainBlocks(ps, blocks).0)
    decreases |blocks|
  {
    if blocks != [] {
      var n := |blocks| - 1;
      FusedBlocksInStep(fs, ps, blocks[..n]);
      FusedIsPrototype(FusedBlocks(fs, blocks[..n]).0, ChainBlocks(ps, blocks[..n]).0, blocks[n]);
    }
  }

  /** From zero history, over any sequence of buffers, eq_process gives the samples of eq_process1,
      and they are those of the sample-by-sample cascade over the joined signal. */
  lemma FusedEqualiserIsCascade(qs: seq<Biquad>, blocks: seq<seq<real>>)
    requires forall i :: 0 <= i < |qs| ==> qs[i].h == ZERO_HISTORY
    ensures FusedBlocks(qs, blocks).1 == ChainBlocks(qs, blocks).1
    ensures Concat(FusedBlocks(qs, blocks).1) == Cascade(qs, Concat(blocks)).1
  {
    AtRestInStep(qs);
    FusedBlocksInStep(qs, qs, blocks);
    ChainBlocksIsChain(qs, blocks);
    ChainIsCascade(qs, Concat(blocks));
  }

  /** The pair can stand in for the two sections just when the output history of q explains, through
      r's feed-forward taps, all that r's own input history would contribute. */
  ghost predicate HistoriesAgree(q: Biquad, r: Biquad) {
    && Feed(r.c, q.h.y1, q.h.y2) == Feed(r.c, r.h.x1, r.h.x2)
    && FeedLast(r.c, q.h.y1) == FeedLast(r.c, r.h.x1)
  }

  /** What two past inputs contribute to the next output, and what the older one contributes. */
  function Feed(c: Coeffs, x1: real, x2: real): real {
    c.b1 * x1 + FeedLast(c, x2)
  }

  function FeedLast(c: Coeffs, x2: real): real {
    c.b2 * x2
  }

  lemma FeedAfterOne(c: Coeffs, y: real, u: real, v: real)
    requires FeedLast(c, u) == FeedLast(c, v)
    ensures Feed(c, y, u) == Feed(c, y, v)
  {
  }

  ghost predicate PairExact(q: Biquad, r: Biquad) {
    forall xs: seq<real> :: FusedPair(q, r, xs).2 == Filter(r, Filter(q, xs).1).1
  }

  /** Exactly when fusing two sections of arbitrary history is sound. A section appended after samples
      have been processed can fail the condition, which is why all appends come first. */
  lemma FusionSoundIff(q: Biquad, r: Biquad)
    ensures PairExact(q, r) <==> HistoriesAgree(q, r)
  {
    if HistoriesAgree(q, r) {
      forall xs: seq<real> ensures FusedPair(q, r, xs).2 == Filter(r, Filter(q, xs).1).1 {
        AgreementSuffices(q, r, xs);
      }
    }
    if PairExact(q, r) {
      FirstTwoSamples(q, r, 0.0, 0.0);
    }
  }

  /** A section appended after a buffer has been processed: for a first section that has filtered the single
      sample 1, the pair is wrong as soon as the new section feeds past inputs forward. */
  lemma MidStreamAppendIff(c: Coeffs, d: Coeffs)
    ensures PairExact(Filter(Fresh(c), [1.0]).0, Fresh(d)) <==> c.b0 == 0.0 || (d.b1 == 0.0 && d.b2 == 0.0)
  {
    var q := Filter(Fresh(c), [1.0]).0;
    FilterSnoc(Fresh(c), [], 1.0);
    assert [] + [1.0] == [1.0];
    assert q.h == History(1.0, 0.0, c.b0, 0.0);
    FusionSoundIff(q, Fresh(d));
    hide PairExact;
    assert HistoriesAgree(q, Fresh(d)) <==> d.b1 * c.b0 == 0.0 && d.b2 * c.b0 == 0.0;
    ZeroProduct(d.b1, c.b0);
    ZeroProduct(d.b2, c.b0);
  }

  lemma ZeroProduct(a: real, b: real)
    ensures a * b == 0.0 <==> a == 0.0 || b == 0.0
  {
    if a != 0.0 && b != 0.0 {
      assert (a * b) * (1.0 / b) == a * (b * (1.0 / b)) == a;
    }
  }

  lemma {:induction false} AgreementSuffices(q: Biquad, r: Biquad, xs: seq<real>)
    requires HistoriesAgree(q, r)
    ensures var (q1, ys) := Filter(q, xs);
            var (r1, zs) := Filter(r, ys);
            var (q2, r2, ws) := FusedPair(q, r, xs);
            && q1 == q2 && zs == ws && r1.c == r2.c == r.c
            && r1.h.y1 == r2.h.y1 && r1.h.y2 == r2.h.y2
            && (|xs| == 0 ==> r1 == r && q1 == q)
            && (|xs| >= 1 ==> r1.h.x1 == q1.h.y1)
            && (|xs| == 1 ==> r1.h.x2 == r.h.x1 && q1.h.y2 == q.h.y1)
            && (|xs| >= 2 ==> r1.h.x2 == q1.h.y2)
    decreases |xs|
  {
    hide Tap, Feed, FeedLast;
    if xs != [] {
      var front, x := xs[..|xs| - 1], xs[|xs| - 1];
      AgreementSuffices(q, r, front);
      var (q1, ys) := Filter(q, front);
      var (r1, _) := Filter(r, ys);
      var (_, r2, _) := FusedPair(q, r, front);
      var y := Output(q1, x);
      FilterSnoc(r, ys, y);
      FeedAfterOne(r.c, q1.h.y1, q.h.y1, r.h.x1);
      SameTap(r.c, y, r1.h, History(q1.h.y1, q1.h.y2, r2.h.y1, r2.h.y2));
    }
  }

  /** Two input histories that feed forward the same amount give the same output. */
  lemma SameTap(c: Coeffs, y: real, h: History, g: History)
    requires Feed(c, h.x1, h.x2) == Feed(c, g.x1, g.x2)
    requires h.y1 == g.y1 && h.y2 == g.y2
    ensures Tap(c, y, h) == Tap(c, y, g)
  {
  }

  lemma TapTellsFeed(c: Coeffs, y: real, h: History, g: History)
    requires h.y1 == g.y1 && h.y2 == g.y2 && Tap(c, y, h) == Tap(c, y, g)
    ensures Feed(c, h.x1, h.x2) == Feed(c, g.x1, g.x2)
  {
  }

  lemma FeedTellsLast(c: Coeffs, y: real, u: real, v: real)
    requires Feed(c, y, u) == Feed(c, y, v)
    ensures FeedLast(c, u) == FeedLast(c, v)
  {
  }

  lemma FusedPairSnoc(q: Biquad, r: Biquad, xs: seq<real>, x: real)
    ensures var (q', r', zs) := FusedPair(q, r, xs);
            var y := Output(q', x);
            var z := FusedOutput(q', r', y);
            FusedPair(q, r, xs + [x]) == (Advance(q', x, y), FusedAdvance(r', z), zs + [z])
  {
    hide Output, FusedOutput;
    assert (xs + [x])[..|xs|] == xs;
  }

  /** Any two samples tell whether the histories agree: what they contribute does not depend on the input. */
  lemma FirstTwoSamples(q: Biquad, r: Biquad, u: real, v: real)
    requires FusedPair(q, r, [u, v]).2 == Filter(r, Filter(q, [u, v]).1).1
    ensures HistoriesAgree(q, r)
  {
    hide Tap, Feed, FeedLast, Filter, FusedPair;
    assert [] + [u] == [u] && [u] + [v] == [u, v];
    FilterNothing(q);
    FilterNothing(r);
    FilterSnoc(q, [], u);
    FilterSnoc(q, [u], v);
    FusedNoSamples(q, r);
    FusedPairSnoc(q, r, [], u);
    FusedPairSnoc(q, r, [u], v);
    var y1 := Output(q, u);
    var q1 := Advance(q, u, y1);
    var y2 := Output(q1, v);
    assert [] + [y1] == [y1] && Filter(q, [u, v]).1 == [y1] + [y2];
    FilterSnoc(r, [], y1);
    FilterSnoc(r, [y1], y2);
    var z1 := Output(r, y1);
    var r1 := Advance(r, y1, z1);
    assert [] + [z1] == [z1] && Filter(r, [y1]) == (r1, [z1]);
    assert Filter(r, [y1] + [y2]).1 == [z1] + [Output(r1, y2)];
    assert FusedPair(q, r, [u, v]).2[0] == FusedOutput(q, r, y1) == z1;
    TapTellsFeed(r.c, y1, r.h, History(q.h.y1, q.h.y2, r.h.y1, r.h.y2));
    assert FusedPair(q, r, [u, v]).2[1] == FusedOutput(q1, FusedAdvance(r, z1), y2) == Output(r1, y2);
    TapTellsFeed(r.c, y2, r1.h, History(y1, q.h.y1, z1, r.h.y1));
    FeedTellsLast(r.c, y1, q.h.y1, r.h.x1);
  }

  lemma FusedNoSamples(q: Biquad, r: Biquad)
    ensures FusedPair(q, r, []) == (q, r, [])
  {
  }

  // ----- chains of any length -----

  /** Both loops give the same samples on every buffer. */
  ghost predicate LoopsAgree(qs: seq<Biquad>) {
    forall xs: seq<real> :: FusedChain(qs, xs).1 == Chain(qs, xs).1
  }

  lemma LoopsAgreeOn(qs: seq<Biquad>, xs: seq<real>)
    requires LoopsAgree(qs)
    ensures FusedChain(qs, xs).1 == Chain(qs, xs).1
  {
    hide FusedChain, Chain;
  }

  /** In every pair that eq_process fuses the histories agree. */
  ghost predicate PairsAgree(qs: seq<Biquad>) {
    forall i {:trigger qs[2 * i]} :: 0 <= i && 2 * i + 1 < |qs| ==> HistoriesAgree(qs[2 * i], qs[2 * i + 1])
  }

  /** Then both loops give the same samples, for any number of stages of any history. */
  lemma {:induction false} AgreeingPairsFuse(qs: seq<Biquad>, xs: seq<real>)
    requires PairsAgree(qs)
    ensures FusedChain(qs, xs).1 == Chain(qs, xs).1
    decreases |qs|
  {
    hide HistoriesAgree, Filter, FusedPair;
    var n := |qs|;
    if n == 0 {
    } else if n % 2 == 1 {
      AgreeingPairsFuse(qs[..n - 1], xs);
    } else {
      AgreeingPairsFuse(qs[..n - 2], xs);
      LastPair(qs, xs);
      assert qs[2 * (n / 2 - 1)] == qs[n - 2];
      AgreementSuffices(qs[n - 2], qs[n - 1], Chain(qs[..n - 2], xs).1);
    }
  }

  /** An even number of stages, seen as a front and a last pair. */
  lemma LastPair(qs: seq<Biquad>, xs: seq<real>)
    requires |qs| >= 2 && |qs| % 2 == 0
    ensures var n := |qs|;
            && FusedChain(qs, xs).1 == FusedPair(qs[n - 2], qs[n - 1], FusedChain(qs[..n - 2], xs).1).2
            && Chain(qs, xs).1 == Filter(qs[n - 1], Filter(qs[n - 2], Chain(qs[..n - 2], xs).1).1).1
  {
    hide Filter, FusedPair;
    var n := |qs|;
    assert qs[..n - 1][..n - 2] == qs[..n - 2];
  }

  /** If all pairs but the last agree, both loops give the same samples on every buffer exactly when the last
      pair agrees too. */
  lemma LastPairIff(qs: seq<Biquad>)
    requires |qs| >= 2 && |qs| % 2 == 0 && PairsAgree(qs[..|qs| - 2])
    ensures LoopsAgree(qs) <==> HistoriesAgree(qs[|qs| - 2], qs[|qs| - 1])
  {
    hide HistoriesAgree, Filter, FusedPair, FusedChain, Chain, PairsAgree;
    if HistoriesAgree(qs[|qs| - 2], qs[|qs| - 1]) {
      forall xs: seq<real> ensures FusedChain(qs, xs).1 == Chain(qs, xs).1 {
        LastPair(qs, xs);
        AgreeingPairsFuse(qs[..|qs| - 2], xs);
        AgreementSuffices(qs[|qs| - 2], qs[|qs| - 1], Chain(qs[..|qs| - 2], xs).1);
      }
    }
    if LoopsAgree(qs) {
      LoopsAgreeOn(qs, [0.0, 0.0]);
      LastPairTells(qs);
    }
  }

  lemma LastPairTells(qs: seq<Biquad>)
    requires |qs| >= 2 && |qs| % 2 == 0 && PairsAgree(qs[..|qs| - 2])
    requires FusedChain(qs, [0.0, 0.0]).1 == Chain(qs, [0.0, 0.0]).1
    ensures HistoriesAgree(qs[|qs| - 2], qs[|qs| - 1])
  {
    hide HistoriesAgree, Filter, FusedPair, FusedChain, Chain, PairsAgree;
    var xs := [0.0, 0.0];
    LastPair(qs, xs);
    AgreeingPairsFuse(qs[..|qs| - 2], xs);
    var ys := Chain(qs[..|qs| - 2], xs).1;
    assert ys == [ys[0], ys[1]];
    FirstTwoSamples(qs[|qs| - 2], qs[|qs| - 1], ys[0], ys[1]);
  }

  /** A disagreement in an earlier pair can be hidden by later stages, here by sections that give silence. */
  lemma SilenceHides(q: Biquad, r: Biquad, xs: seq<real>)
    ensures var z := Fresh(Coeffs(0.0, 0.0, 0.0, 0.0, 0.0));
            FusedChain([q, r, z, z], xs).1 == Chain([q, r, z, z], xs).1
  {
    hide Filter, FusedPair;
    var z := Fresh(Coeffs(0.0, 0.0, 0.0, 0.0, 0.0));
    var qs := [q, r, z, z];
    LastPair(qs, xs);
    var ys, zs := FusedChain(qs[..2], xs).1, Chain(qs[..2], xs).1;
    SilentPair(z, ys);
    SilentPair(z, zs);
    SilentFilter(z, Filter(z, zs).1);
  }

  lemma {:induction false} SilentFilter(z: Biquad, xs: seq<real>)
    requires z.c == Coeffs(0.0, 0.0, 0.0, 0.0, 0.0)
    ensures Filter(z, xs).1 == seq(|xs|, _ => 0.0)
    decreases |xs|
  {
    if xs != [] {
      SilentFilter(z, xs[..|xs| - 1]);
    }
  }

  lemma {:induction false} SilentPair(z: Biquad, xs: seq<real>)
    requires z.c == Coeffs(0.0, 0.0, 0.0, 0.0, 0.0)
    ensures FusedPair(z, z, xs).2 == seq(|xs|, _ => 0.0)
    ensures FusedPair(z, z, xs).1.c == z.c
    decreases |xs|
  {
    if xs != [] {
      SilentPair(z, xs[..|xs| - 1]);
    }
  }

  /** struct eq. */
  class Equaliser {
    var n: nat
    const biquad: array<Biquad>

    ghost predicate Valid()
      reads this
    {
      biquad.Length == MAX_BIQUADS_PER_EQ && n <= MAX_BIQUADS_PER_EQ
    }

    ghost function Stages(): seq<Biquad>
      requires Valid()
      reads this, biquad
    {
      biquad[..n]
    }

    constructor ()
      ensures Valid() && fresh(biquad)
      ensures Stages() == []
    {
      n := 0;
      biquad := new Biquad[MAX_BIQUADS_PER_EQ](_ => Biquad(Coeffs(0.0, 0.0, 0.0, 0.0, 0.0), ZERO_HISTORY));
    }

    /** eq_append_biquad_direct. */
    method AppendDirect(q: Biquad) returns (rc: int)
      requires Valid()
      modifies this`n, biquad
      ensures Valid()
      ensures rc == if old(n) < MAX_BIQUADS_PER_EQ then 0 else -1
      ensures Stages() == if rc == 0 then old(Stages()) + [q] else old(Stages())
    {
      if n >= MAX_BIQUADS_PER_EQ {
        return -1;
      }
      biquad[n] := q;
      n := n + 1;
      return 0;
    }

    /** eq_process1, the prototype. */
    method Process1(data: array<real>, count: nat)
      requires Valid() && count <= data.Length && data != biquad as object
      modifies biquad, data
      ensures Valid()
      ensures var (qs, ys) := Chain(old(Stages()), old(data[..count]));
              Stages() == qs && data[..count] == ys
      ensures data[count..] == old(data[count..]) && biquad[n..] == old(biquad[n..])
    {
      hide Chain, Filter;
      ghost var s, xs := old(Stages()), old(data[..count]);
      FusedNothing(xs);
      for i := 0 to n
        invariant (biquad[..i], data[..count]) == Chain(s[..i], xs)
        invariant biquad[i..] == old(biquad[i..])
        invariant data[count..] == old(data[count..])
      {
        assert biquad[i] == s[i] by {
          assert biquad[i..][0] == old(biquad[i..])[0];
        }
        assert s[..i + 1] == s[..i] + [s[i]];
        ChainSnocStage(s[..i], s[i], xs);
        FilterInPlace(i, data, count);
        assert biquad[..i + 1] == biquad[..i] + [biquad[i]];
      }
      assert s[..n] == s;
    }

    /** The inner loop both process functions share: section i over data, in place. */
    method FilterInPlace(i: nat, data: array<real>, count: nat)
      requires Valid() && i < n && count <= data.Length && data != biquad as object
      modifies biquad, data
      ensures (biquad[i], data[..count]) == Filter(old(biquad[i]), old(data[..count]))
      ensures biquad[..i] == old(biquad[..i]) && biquad[i + 1..] == old(biquad[i + 1..])
      ensures data[count..] == old(data[count..])
    {
      ghost var xs := data[..count];
      var q := biquad[i];
      var x1, x2, y1, y2 := q.h.x1, q.h.x2, q.h.y1, q.h.y2;
      for j := 0 to count
        invariant Filter(q, xs[..j]) == (Biquad(q.c, History(x1, x2, y1, y2)), data[..j])
        invariant data[j..] == old(data[j..])
        invariant biquad[..] == old(biquad[..])
      {
        var x := data[j];
        assert data[j..][0] == old(data[j..])[0] == xs[j];
        assert xs[..j + 1] == xs[..j] + [x];
        FilterSnoc(q, xs[..j], x);
        var y := Tap(q.c, x, History(x1, x2, y1, y2));
        ghost var before, rest := data[..j], data[j..];
        data[j] := y;
        assert data[..j + 1] == before + [y];
        assert data[j + 1..] == rest[1..];
        x2, x1, y2, y1 := x1, x, y1, y;
      }
      assert xs[..count] == xs;
      biquad[i] := Biquad(q.c, History(x1, x2, y1, y2));
    }

    /** The two-stage inner loop of eq_process: section i + 1 gets only its output history back. */
    method FilterPairInPlace(i: nat, data: array<real>, count: nat)
      requires Valid() && i + 1 < n && count <= data.Length && data != biquad as object
      modifies biquad, data
      ensures (biquad[i], biquad[i + 1], data[..count]) ==
              FusedPair(old(biquad[i]), old(biquad[i + 1]), old(data[..count]))
      ensures biquad[..i] == old(biquad[..i]) && biquad[i + 2..] == old(biquad[i + 2..])
      ensures data[count..] == old(data[count..])
    {
      ghost var xs := data[..count];
      var q, r := biquad[i], biquad[i + 1];
      var x1, x2, y1, y2 := q.h.x1, q.h.x2, q.h.y1, q.h.y2;
      var z1, z2 := r.h.y1, r.h.y2;
      for j := 0 to count
        invariant FusedPair(q, r, xs[..j]) ==
                  (Biquad(q.c, History(x1, x2, y1, y2)), Biquad(r.c, History(r.h.x1, r.h.x2, z1, z2)), data[..j])
        invariant data[j..] == old(data[j..])
        invariant biquad[..] == old(biquad[..])
      {
        var x := data[j];
        assert data[j..][0] == old(data[j..])[0] == xs[j];
        assert xs[..j + 1][..j] == xs[..j];
        var y := Tap(q.c, x, History(x1, x2, y1, y2));
        var z := Tap(r.c, y, History(y1, y2, z1, z2));
        ghost var before, rest := data[..j], data[j..];
        data[j] := z;
        assert data[..j + 1] == before + [z];
        assert data[j + 1..] == rest[1..];
        x2, x1, y2, y1, z2, z1 := x1, x, y1, y, z1, z;
      }
      assert xs[..count] == xs;
      biquad[i] := Biquad(q.c, History(x1, x2, y1, y2));
      biquad[i + 1] := Biquad(r.c, History(r.h.x1, r.h.x2, z1, z2));
    }

    /** eq_process, the loop in use. */
    method Process(data: array<real>, count: nat)
      requires Valid() && count <= data.Length && data != biquad as object
      modifies biquad, data
      ensures Valid()
      ensures var (qs, ys) := FusedChain(old(Stages()), old(data[..count]));
              Stages() == qs && data[..count] == ys
      ensures data[count..] == old(data[count..]) && biquad[n..] == old(biquad[n..])
    {
      hide FusedChain, Filter, FusedPair;
      ghost var s, xs := old(Stages()), old(data[..count]);
      FusedNothing(xs);
      var i := 0;
      while i < n
        invariant 0 <= i <= n && (i % 2 == 0 || i == n)
        invariant (biquad[..i], data[..count]) == FusedChain(s[..i], xs)
        invariant biquad[i..] == old(biquad[..])[i..]
        invariant data[count..] == old(data[count..])
      {
        StagesLeft(biquad[..], old(biquad[..]), i, n);
        if i + 1 == n {
          FusedSnocOne(s[..i], s[i], xs);
          FilterInPlace(i, data, count);
          assert biquad[..i + 1] == biquad[..i] + [biquad[i]];
          assert s[..i + 1] == s[..i] + [s[i]];
          i := i + 1;
        } else {
          FusedSnocPair(s[..i], s[i], s[i + 1], xs);
          FilterPairInPlace(i, data, count);
          assert biquad[..i + 2] == biquad[..i] + [biquad[i], biquad[i + 1]];
          assert s[..i + 2] == s[..i] + [s[i], s[i + 1]];
          i := i + 2;
        }
      }
      assert s[..n] == s;
    }
  }

  /** Calls that lead there: append, process one sample, append again. By MidStreamAppendIff and FusionSoundIff
      eq_process and eq_process1 then part ways on some buffer, unless the condition holds. */
  method AppendInMidStream(c: Coeffs, d: Coeffs) returns (eq: Equaliser)
    ensures fresh(eq) && eq.Valid() && eq.Stages() == [Filter(Fresh(c), [1.0]).0, Fresh(d)]
    ensures LoopsAgree(eq.Stages()) <==> c.b0 == 0.0 || (d.b1 == 0.0 && d.b2 == 0.0)
  {
    hide Filter, FusedChain, Chain, LoopsAgree;
    eq := new Equaliser();
    var _ := eq.AppendDirect(Fresh(c));
    var data := new real[1](_ => 1.0);
    assert data[..1] == [1.0];
    assert eq.Stages() == [Fresh(c)];
    OneStage(Fresh(c), [1.0]);
    eq.Process(data, 1);
    var _ := eq.AppendDirect(Fresh(d));
    var q := Filter(Fresh(c), [1.0]).0;
    assert eq.Stages() == [q, Fresh(d)];
    MidStreamAppendIff(c, d);
    PairChains(q, Fresh(d));
  }

  lemma OneStage(q: Biquad, xs: seq<real>)
    ensures FusedChain([q], xs) == ([Filter(q, xs).0], Filter(q, xs).1)
  {
    FusedSnocOne([], q, xs);
    FusedNothing(xs);
    assert [] + [q] == [q] && [] + [Filter(q, xs).0] == [Filter(q, xs).0];
  }

  lemma TwoStages(q: Biquad, r: Biquad, xs: seq<real>)
    ensures FusedChain([q, r], xs).1 == FusedPair(q, r, xs).2
    ensures Chain([q, r], xs).1 == Filter(r, Filter(q, xs).1).1
  {
    hide FusedChain, Chain, Filter, FusedPair;
    FusedNothing(xs);
    FusedSnocPair([], q, r, xs);
    ChainSnocStage([], q, xs);
    ChainSnocStage([q], r, xs);
    assert [] + [q, r] == [q, r] && [] + [q] == [q] && [q] + [r] == [q, r];
  }

  /** Two stages: the loops agree on every buffer exactly when the pair is exact. */
  lemma PairChains(q: Biquad, r: Biquad)
    ensures LoopsAgree([q, r]) <==> PairExact(q, r)
  {
    hide FusedChain, Chain, Filter, FusedPair;
    if PairExact(q, r) {
      forall xs: seq<real> ensures FusedChain([q, r], xs).1 == Chain([q, r], xs).1 {
        TwoStages(q, r, xs);
      }
    } else {
      var xs: seq<real> :| FusedPair(q, r, xs).2 != Filter(r, Filter(q, xs).1).1;
      TwoStages(q, r, xs);
    }
  }

  lemma StagesLeft(a: seq<Biquad>, b: seq<Biquad>, i: nat, n: nat)
    requires |a| == |b| && i < n <= |a| && a[i..] == b[i..]
    ensures a[i] == b[..n][i] && a[i + 1..] == b[i + 1..]
    ensures i + 1 < n ==> a[i + 1] == b[..n][i + 1] && a[i + 2..] == b[i + 2..]
  {
    assert a[i] == a[i..][0] && a[i + 1..] == a[i..][1..] && b[i + 1..] == b[i..][1..];
    if i + 1 < n {
      assert a[i + 1] == a[i..][1] && a[i + 2..] == a[i..][2..] && b[i + 2..] == b[i..][2..];
    }
  }
}
