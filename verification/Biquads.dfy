/** Second-order filter sections (dsp/biquad.h): one section, a chain of sections, and the laws of
    the chain: it may be run stage by stage or sample by sample, in one block or in several. */
module Biquads {

  datatype Coeffs = Coeffs(b0: real, b1: real, b2: real, a1: real, a2: real)

  datatype History = History(x1: real, x2: real, y1: real, y2: real)

  datatype Biquad = Biquad(c: Coeffs, h: History)

  const ZERO_HISTORY := History(0.0, 0.0, 0.0, 0.0)

  /** The coefficients biquad_set starts from: output equals input whatever the history. */
  const IDENTITY := Coeffs(1.0, 0.0, 0.0, 0.0, 0.0)

  function Fresh(c: Coeffs): Biquad {
    Biquad(c, ZERO_HISTORY)
  }

  /** The difference equation of a section. */
  function Tap(c: Coeffs, x: real, h: History): real {
    c.b0 * x + c.b1 * h.x1 + c.b2 * h.x2 - c.a1 * h.y1 - c.a2 * h.y2
  }

  function Output(q: Biquad, x: real): real {
    Tap(q.c, x, q.h)
  }

  function Advance(q: Biquad, x: real, y: real): Biquad {
    q.(h := History(x, q.h.x1, y, q.h.y1))
  }

  /** One section over a block of samples. */
  function Filter(q: Biquad, xs: seq<real>): (r: (Biquad, seq<real>))
    ensures |r.1| == |xs|
    ensures r.0.c == q.c
  {
    if xs == [] then (q, []) else
      var (q', ys) := Filter(q, xs[..|xs| - 1]);
      var x := xs[|xs| - 1];
      var y := Output(q', x);
      (Advance(q', x, y), ys + [y])
  }

  /** A chain run stage by stage: every stage filters the whole block before the next one starts. */
  function Chain(qs: seq<Biquad>, xs: seq<real>): (r: (seq<Biquad>, seq<real>))
    ensures |r.0| == |qs| && |r.1| == |xs|
  {
    if qs == [] then ([], xs) else
      var (qs', ys) := Chain(qs[..|qs| - 1], xs);
      var (q', zs) := Filter(qs[|qs| - 1], ys);
      (qs' + [q'], zs)
  }

  /** One sample through all the stages of a chain. */
  function CascadeStep(qs: seq<Biquad>, x: real): (r: (seq<Biquad>, real))
    ensures |r.0| == |qs|
  {
    if qs == [] then ([], x) else
      var (qs', y) := CascadeStep(qs[..|qs| - 1], x);
      var q := qs[|qs| - 1];
      var z := Output(q, y);
      (qs' + [Advance(q, y, z)], z)
  }

  /** A chain run sample by sample. */
  function Cascade(qs: seq<Biquad>, xs: seq<real>): (r: (seq<Biquad>, seq<real>))
    ensures |r.0| == |qs| && |r.1| == |xs|
  {
    if xs == [] then (qs, []) else
      var (qs', ys) := Cascade(qs, xs[..|xs| - 1]);
      var (qs'', y) := CascadeStep(qs', xs[|xs| - 1]);
      (qs'', ys + [y])
  }

  lemma FilterSnoc(q: Biquad, xs: seq<real>, x: real)
    ensures var (q', ys) := Filter(q, xs);
            var y := Output(q', x);
            Filter(q, xs + [x]) == (Advance(q', x, y), ys + [y])
  {
    assert (xs + [x])[..|xs|] == xs;
  }

  lemma FilterExtend(q: Biquad, xs: seq<real>, j: nat)
    requires j < |xs|
    ensures var (q', ys) := Filter(q, xs[..j]);
            var y := Output(q', xs[j]);
            Filter(q, xs[..j + 1]) == (Advance(q', xs[j], y), ys + [y])
  {
    assert xs[..j + 1] == xs[..j] + [xs[j]];
    FilterSnoc(q, xs[..j], xs[j]);
  }

  lemma FilterNothing(q: Biquad)
    ensures Filter(q, []) == (q, [])
  {
  }

  lemma ChainSnocStage(qs: seq<Biquad>, q: Biquad, xs: seq<real>)
    ensures var (qs', ys) := Chain(qs, xs);
            var (q', zs) := Filter(q, ys);
            Chain(qs + [q], xs) == (qs' + [q'], zs)
  {
    assert (qs + [q])[..|qs|] == qs;
  }

  /** One more sample through a chain is one more cascade step. */
  lemma {:induction false} ChainSnocSample(qs: seq<Biquad>, xs: seq<real>, x: real)
    ensures var (qs', ys) := Chain(qs, xs);
            var (qs'', y) := CascadeStep(qs', x);
            Chain(qs, xs + [x]) == (qs'', ys + [y])
    decreases |qs|
  {
    if qs != [] {
      var front, q := qs[..|qs| - 1], qs[|qs| - 1];
      ChainSnocSample(front, xs, x);
      var (front', ys) := Chain(front, xs);
      var (_, y) := CascadeStep(front', x);
      FilterSnoc(q, ys, y);
      assert Chain(qs, xs).0[..|front|] == front';
    }
  }

  /** Loop interchange: stage by stage and sample by sample give the same samples and histories. */
  lemma {:induction false} ChainIsCascade(qs: seq<Biquad>, xs: seq<real>)
    ensures Chain(qs, xs) == Cascade(qs, xs)
    decreases |xs|
  {
    if xs == [] {
      ChainOfNothing(qs);
    } else {
      var front, x := xs[..|xs| - 1], xs[|xs| - 1];
      ChainIsCascade(qs, front);
      ChainSnocSample(qs, front, x);
      assert front + [x] == xs;
    }
  }

  lemma {:induction false} ChainOfNothing(qs: seq<Biquad>)
    ensures Chain(qs, []) == (qs, [])
    decreases |qs|
  {
    if qs != [] {
      ChainOfNothing(qs[..|qs| - 1]);
      assert qs[..|qs| - 1] + [qs[|qs| - 1]] == qs;
    }
  }

  /** Block sizes are irrelevant: filtering a + b is filtering a, then b with the histories left by a. */
  lemma {:induction false} CascadeSplit(qs: seq<Biquad>, a: seq<real>, b: seq<real>)
    ensures var (qs', ys) := Cascade(qs, a);
            var (qs'', zs) := Cascade(qs', b);
            Cascade(qs, a + b) == (qs'', ys + zs)
    decreases |b|
  {
    if b == [] {
      assert a + b == a;
      assert Cascade(qs, a).1 + [] == Cascade(qs, a).1;
    } else {
      var front, x := b[..|b| - 1], b[|b| - 1];
      CascadeSplit(qs, a, front);
      assert (a + b)[..|a + b| - 1] == a + front;
      var (qs', ys) := Cascade(qs, a);
      var (qs1, zs1) := Cascade(qs', front);
      var (qs2, z) := CascadeStep(qs1, x);
      assert (ys + zs1) + [z] == ys + (zs1 + [z]);
    }
  }

  lemma ChainSplit(qs: seq<Biquad>, a: seq<real>, b: seq<real>)
    ensures var (qs', ys) := Chain(qs, a);
            var (qs'', zs) := Chain(qs', b);
            Chain(qs, a + b) == (qs'', ys + zs)
  {
    ChainIsCascade(qs, a);
    ChainIsCascade(Chain(qs, a).0, b);
    ChainIsCascade(qs, a + b);
    CascadeSplit(qs, a, b);
  }

  function Concat(blocks: seq<seq<real>>): seq<real> {
    if blocks == [] then [] else Concat(blocks[..|blocks| - 1]) + blocks[|blocks| - 1]
  }

  /** A chain fed block after block; the histories carry over. */
  function ChainBlocks(qs: seq<Biquad>, blocks: seq<seq<real>>): (r: (seq<Biquad>, seq<seq<real>>))
    ensures |r.0| == |qs| && |r.1| == |blocks|
    ensures forall k :: 0 <= k < |blocks| ==> |r.1[k]| == |blocks[k]|
  {
    if blocks == [] then (qs, []) else
      var (qs', outs) := ChainBlocks(qs, blocks[..|blocks| - 1]);
      var (qs'', out) := Chain(qs', blocks[|blocks| - 1]);
      (qs'', outs + [out])
  }

  /** Any split of a signal into blocks gives the samples and histories of the unsplit run. */
  lemma {:induction false} ChainBlocksIsChain(qs: seq<Biquad>, blocks: seq<seq<real>>)
    ensures var (qs', outs) := ChainBlocks(qs, blocks);
            Chain(qs, Concat(blocks)) == (qs', Concat(outs))
    decreases |blocks|
  {
    if blocks == [] {
      ChainOfNothing(qs);
    } else {
      var front, last := blocks[..|blocks| - 1], blocks[|blocks| - 1];
      ChainBlocksIsChain(qs, front);
      ChainSplit(qs, Concat(front), last);
      var (qs', outs) := ChainBlocks(qs, front);
      var out := Chain(qs', last).1;
      assert (outs + [out])[..|outs|] == outs;
    }
  }

  /** Equal totals cut at the same places are equal block by block. */
  lemma {:induction false} ConcatInjective(a: seq<seq<real>>, b: seq<seq<real>>)
    requires |a| == |b|
    requires forall k :: 0 <= k < |a| ==> |a[k]| == |b[k]|
    requires Concat(a) == Concat(b)
    ensures a == b
    decreases |a|
  {
    if a != [] {
      var n := |a| - 1;
      assert |a[n]| == |b[n]|;
      var ca, cb := Concat(a[..n]), Concat(b[..n]);
      assert ca + a[n] == cb + b[n];
      assert |ca| == |cb|;
      assert ca == (ca + a[n])[..|ca|] == (cb + b[n])[..|cb|] == cb;
      assert a[n] == (ca + a[n])[|ca|..] == (cb + b[n])[|cb|..] == b[n];
      ConcatInjective(a[..n], b[..n]);
      assert a == a[..n] + [a[n]] && b == b[..n] + [b[n]];
    }
  }

  // ----- sums of signals -----

  function Sum(a: seq<real>, b: seq<real>): (r: seq<real>)
    requires |a| == |b|
    ensures |r| == |a|
  {
    seq(|a|, i requires 0 <= i < |a| => a[i] + b[i])
  }

  lemma SumSnoc(a: seq<real>, b: seq<real>, x: real, y: real)
    requires |a| == |b|
    ensures Sum(a + [x], b + [y]) == Sum(a, b) + [x + y]
  {
  }

  lemma SumAppend(a: seq<real>, b: seq<real>, c: seq<real>, d: seq<real>)
    requires |a| == |b| && |c| == |d|
    ensures Sum(a + c, b + d) == Sum(a, b) + Sum(c, d)
  {
  }

  /** Stores one output sample. */
  method Put(data: array<real>, i: nat, z: real)
    requires i < data.Length
    modifies data
    ensures data[..i + 1] == old(data[..i]) + [z]
    ensures data[i + 1..] == old(data[i..])[1..]
    ensures data[i + 1..] == old(data[i + 1..])
  {
    data[i] := z;
  }
}
