/** The multi-band compressor as a whole (dsp/drc.c): emphasis, crossover, three kernels, band sum,
    de-emphasis, and what comes out of them over any blocks. With the kernels disabled the de-emphasis cancels
    the emphasis although crossover, delays and band sum stand between them: the delayed band sum remains. */
module Drc {
  import opened Biquads
  import opened Emphasis
  import opened DrcGains
  import opened DrcKernel
  import opened Eq2
  import opened LookAhead
  import Crossover

  const DRC_PROCESS_MAX_FRAMES := 2048

  // ----- filters at rest are linear and time-invariant -----

  /** A signal delayed by d samples, as far as it has come out. */
  function Shift(d: nat, xs: seq<real>): (s: seq<real>)
    ensures |s| == |xs|
  {
    (Zeros(d) + xs)[..|xs|]
  }

  lemma ShiftOfSum(d: nat, a: seq<real>, b: seq<real>)
    requires |a| == |b|
    ensures Shift(d, Sum(a, b)) == Sum(Shift(d, a), Shift(d, b))
  {
  }

  function Plus(h: History, g: History): History {
    History(h.x1 + g.x1, h.x2 + g.x2, h.y1 + g.y1, h.y2 + g.y2)
  }

  lemma TapPlus(c: Coeffs, x: real, y: real, h: History, g: History)
    ensures Tap(c, x + y, Plus(h, g)) == Tap(c, x, h) + Tap(c, y, g)
  {
  }

  /** A section adds: signals and histories alike. */
  lemma {:induction false} FilterIsLinear(c: Coeffs, h: History, g: History, xs: seq<real>, ys: seq<real>)
    requires |xs| == |ys|
    ensures var (q, us) := Filter(Biquad(c, h), xs);
            var (r, vs) := Filter(Biquad(c, g), ys);
            Filter(Biquad(c, Plus(h, g)), Sum(xs, ys)) == (Biquad(c, Plus(q.h, r.h)), Sum(us, vs))
    decreases |xs|
  {
    hide Tap;
    if xs != [] {
      var n := |xs| - 1;
      FilterIsLinear(c, h, g, xs[..n], ys[..n]);
      var (q, us) := Filter(Biquad(c, h), xs[..n]);
      var (r, vs) := Filter(Biquad(c, g), ys[..n]);
      assert Sum(xs, ys)[..n] == Sum(xs[..n], ys[..n]);
      assert Sum(xs, ys)[n] == xs[n] + ys[n];
      TapPlus(c, xs[n], ys[n], q.h, r.h);
      assert Sum(us + [Output(q, xs[n])], vs + [Output(r, ys[n])]) ==
             Sum(us, vs) + [Output(q, xs[n]) + Output(r, ys[n])];
    }
  }

  lemma {:induction false} ChainIsLinear(cs: seq<Coeffs>, xs: seq<real>, ys: seq<real>)
    requires |xs| == |ys|
    ensures Chain(AtRest(cs), Sum(xs, ys)).1 == Sum(Chain(AtRest(cs), xs).1, Chain(AtRest(cs), ys).1)
    decreases |cs|
  {
    hide Filter, Sum;
    if cs != [] {
      var front, c := cs[..|cs| - 1], cs[|cs| - 1];
      AtRestSnoc(cs);
      ChainIsLinear(front, xs, ys);
      ChainSnocStage(AtRest(front), Fresh(c), xs);
      ChainSnocStage(AtRest(front), Fresh(c), ys);
      ChainSnocStage(AtRest(front), Fresh(c), Sum(xs, ys));
      FilterIsLinear(c, ZERO_HISTORY, ZERO_HISTORY, Chain(AtRest(front), xs).1, Chain(AtRest(front), ys).1);
      assert Plus(ZERO_HISTORY, ZERO_HISTORY) == ZERO_HISTORY;
    }
  }

  lemma {:induction false} FilterOfSilence(c: Coeffs, n: nat)
    ensures Filter(Fresh(c), Zeros(n)) == (Fresh(c), Zeros(n))
    decreases n
  {
    if n > 0 {
      FilterOfSilence(c, n - 1);
      assert Zeros(n)[..n - 1] == Zeros(n - 1) && Zeros(n) == Zeros(n - 1) + [0.0];
      FilterSnoc(Fresh(c), Zeros(n - 1), 0.0);
    }
  }

  lemma {:induction false} ChainOfSilence(cs: seq<Coeffs>, n: nat)
    ensures Chain(AtRest(cs), Zeros(n)) == (AtRest(cs), Zeros(n))
    decreases |cs|
  {
    hide Filter;
    if cs != [] {
      var front, c := cs[..|cs| - 1], cs[|cs| - 1];
      AtRestSnoc(cs);
      ChainOfSilence(front, n);
      ChainSnocStage(AtRest(front), Fresh(c), Zeros(n));
      FilterOfSilence(c, n);
    }
  }

  /** A chain at rest commutes with a delay. */
  lemma ChainOfShift(cs: seq<Coeffs>, d: nat, xs: seq<real>)
    ensures Chain(AtRest(cs), Shift(d, xs)).1 == Shift(d, Chain(AtRest(cs), xs).1)
  {
    hide Chain, Filter;
    var all, qs := Zeros(d) + xs, AtRest(cs);
    ChainOfSilence(cs, d);
    ChainSplit(qs, Zeros(d), xs);
    ChainSplit(qs, all[..|xs|], all[|xs|..]);
    assert all[..|xs|] + all[|xs|..] == all;
  }

  /** Chains at rest commute. */
  lemma {:induction false} ChainsCommute(cs: seq<Coeffs>, ds: seq<Coeffs>, xs: seq<real>)
    ensures Chain(AtRest(cs), Chain(AtRest(ds), xs).1).1 == Chain(AtRest(ds), Chain(AtRest(cs), xs).1).1
    decreases |cs|
  {
    hide Filter;
    if cs != [] {
      var front, c := cs[..|cs| - 1], cs[|cs| - 1];
      AtRestSnoc(cs);
      ChainsCommute(front, ds, xs);
      FilterCommutesWithChain(c, ds, Chain(AtRest(front), xs).1);
      ChainSnocStage(AtRest(front), Fresh(c), xs);
      ChainSnocStage(AtRest(front), Fresh(c), Chain(AtRest(ds), xs).1);
    }
  }

  // ----- the crossover at rest -----

  function Twice(c: Coeffs): seq<Coeffs> {
    [c, c]
  }

  lemma Rest4IsChain(c: Coeffs, xs: seq<real>)
    ensures Crossover.Lr4Filter(Crossover.Rest4(c), xs).1 == Chain(AtRest(Twice(c)), xs).1
  {
    Crossover.Lr4IsBiquadTwice(Crossover.Rest4(c), xs);
    assert Crossover.Sections(Crossover.Rest4(c)) == AtRest(Twice(c));
  }

  /** Two fourth-order sections in series. */
  function Branch(a: Coeffs, b: Coeffs, xs: seq<real>): (ys: seq<real>)
    ensures |ys| == |xs|
  {
    Chain(AtRest(Twice(b)), Chain(AtRest(Twice(a)), xs).1).1
  }

  /** The three bands of a crossover at rest, added up: low, middle, high. */
  function BandSum(f: Crossover.Filters, xs: seq<real>): (ys: seq<real>)
    requires |f.lp| == |f.hp| == 3
    ensures |ys| == |xs|
  {
    Sum(Sum(Branch(f.lp[0], f.lp[1], xs), Branch(f.lp[0], f.hp[1], xs)),
        Sum(Branch(f.hp[0], f.lp[2], xs), Branch(f.hp[0], f.hp[2], xs)))
  }

  lemma BandsAreBranches(f: Crossover.Filters, xs: seq<real>)
    requires |f.lp| == |f.hp| == 3
    ensures var (_, low, mid, high) := Crossover.Bands(Crossover.AtRest(f), xs);
            && low == Sum(Branch(f.lp[0], f.lp[1], xs), Branch(f.lp[0], f.hp[1], xs))
            && mid == Branch(f.hp[0], f.lp[2], xs) && high == Branch(f.hp[0], f.hp[2], xs)
  {
    hide Crossover.Lr4Filter, Chain, AtRest;
    Rest4IsChain(f.lp[0], xs);
    Rest4IsChain(f.hp[0], xs);
    var l, h := Chain(AtRest(Twice(f.lp[0])), xs).1, Chain(AtRest(Twice(f.hp[0])), xs).1;
    Rest4IsChain(f.lp[1], l);
    Rest4IsChain(f.hp[1], l);
    Rest4IsChain(f.lp[2], h);
    Rest4IsChain(f.hp[2], h);
  }

  /** De-emphasis passes through a branch and meets its emphasis. */
  lemma BranchCancels(es: seq<Coeffs>, ds: seq<Coeffs>, a: Coeffs, b: Coeffs, xs: seq<real>)
    requires Inverses(es, ds)
    ensures Chain(AtRest(ds), Branch(a, b, Chain(AtRest(es), xs).1)).1 == Branch(a, b, xs)
  {
    hide Chain, AtRest, Inverses;
    var e := Chain(AtRest(es), xs).1;
    ChainsCommute(ds, Twice(b), Chain(AtRest(Twice(a)), e).1);
    ChainsCommute(ds, Twice(a), e);
    ChainInverse(es, ds, xs);
  }

  /** Emphasis and de-emphasis cancel around the crossover and the band sum. */
  lemma EmphasisCancels(es: seq<Coeffs>, ds: seq<Coeffs>, f: Crossover.Filters, xs: seq<real>)
    requires Inverses(es, ds) && |f.lp| == |f.hp| == 3
    ensures Chain(AtRest(ds), BandSum(f, Chain(AtRest(es), xs).1)).1 == BandSum(f, xs)
  {
    hide Chain, AtRest, Inverses, Branch, Sum;
    var e := Chain(AtRest(es), xs).1;
    var b0, b1 := Branch(f.lp[0], f.lp[1], e), Branch(f.lp[0], f.hp[1], e);
    var b2, b3 := Branch(f.hp[0], f.lp[2], e), Branch(f.hp[0], f.hp[2], e);
    ChainIsLinear(ds, Sum(b0, b1), Sum(b2, b3));
    ChainIsLinear(ds, b0, b1);
    ChainIsLinear(ds, b2, b3);
    BranchCancels(es, ds, f.lp[0], f.lp[1], xs);
    BranchCancels(es, ds, f.lp[0], f.hp[1], xs);
    BranchCancels(es, ds, f.hp[0], f.lp[2], xs);
    BranchCancels(es, ds, f.hp[0], f.hp[2], xs);
  }

  // ----- one channel with disabled kernels -----

  /** Everything drc_process keeps for one channel: two equalisers, the crossover, three queues. */
  datatype Channel = Channel(em: seq<Biquad>, xo: Crossover.State, low: seq<real>, mid: seq<real>, high: seq<real>,
                             de: seq<Biquad>)

  function DelayStep(q: seq<real>, xs: seq<real>): (r: (seq<real>, seq<real>))
    ensures |r.0| == |q| && |r.1| == |xs|
  {
    ((q + xs)[|xs|..], (q + xs)[..|xs|])
  }

  /** drc_process on one channel. */
  function Step(s: Channel, xs: seq<real>): (r: (Channel, seq<real>))
    requires Crossover.Complete(s.xo)
    ensures Crossover.Complete(r.0.xo) && |r.1| == |xs|
  {
    var (em, e) := Chain(s.em, xs);
    var (xo, b0, b1, b2) := Crossover.Bands(s.xo, e);
    var (low, o0) := DelayStep(s.low, b0);
    var (mid, o1) := DelayStep(s.mid, b1);
    var (high, o2) := DelayStep(s.high, b2);
    var (de, out) := Chain(s.de, Sum(o0, Sum(o1, o2)));
    (Channel(em, xo, low, mid, high, de), out)
  }

  lemma DelaySplit(q: seq<real>, a: seq<real>, b: seq<real>)
    ensures var (q', ys) := DelayStep(q, a);
            var (q'', zs) := DelayStep(q', b);
            DelayStep(q, a + b) == (q'', ys + zs)
  {
    var n, m, all := |a|, |b|, q + (a + b);
    assert (q + a)[n..] + b == all[n..];
    assert (q + a)[..n] == all[..n];
    assert all[n..][..m] == all[n..n + m] && all[n..][m..] == all[n + m..];
    assert all[..n] + all[n..n + m] == all[..n + m];
  }

  /** Processing a + b in one call is processing a, then b. */
  lemma StepSplit(s: Channel, a: seq<real>, b: seq<real>)
    requires Crossover.Complete(s.xo)
    ensures var (s', ys) := Step(s, a);
            var (s'', zs) := Step(s', b);
            Step(s, a + b) == (s'', ys + zs)
  {
    hide Chain, Crossover.Bands, DelayStep, Sum;
    var (em, ea) := Chain(s.em, a);
    var eb := Chain(em, b).1;
    ChainSplit(s.em, a, b);
    Crossover.BandsSplit(s.xo, ea, eb);
    var (xo, a0, a1, a2) := Crossover.Bands(s.xo, ea);
    var (_, b0, b1, b2) := Crossover.Bands(xo, eb);
    DelaySplit(s.low, a0, b0);
    DelaySplit(s.mid, a1, b1);
    DelaySplit(s.high, a2, b2);
    var (low, p0) := DelayStep(s.low, a0);
    var (mid, p1) := DelayStep(s.mid, a1);
    var (high, p2) := DelayStep(s.high, a2);
    var q0, q1, q2 := DelayStep(low, b0).1, DelayStep(mid, b1).1, DelayStep(high, b2).1;
    SumAppend(p1, p2, q1, q2);
    SumAppend(p0, Sum(p1, p2), q0, Sum(q1, q2));
    ChainSplit(s.de, Sum(p0, Sum(p1, p2)), Sum(q0, Sum(q1, q2)));
  }

  function StepBlocks(s: Channel, blocks: seq<seq<real>>): (r: (Channel, seq<seq<real>>))
    requires Crossover.Complete(s.xo)
    ensures Crossover.Complete(r.0.xo) && |r.1| == |blocks|
  {
    if blocks == [] then (s, []) else
      var (s', outs) := StepBlocks(s, blocks[..|blocks| - 1]);
      var (s'', out) := Step(s', blocks[|blocks| - 1]);
      (s'', outs + [out])
  }

  lemma StepOfNothing(s: Channel)
    requires Crossover.Complete(s.xo)
    ensures Step(s, []) == (s, [])
  {
    ChainOfNothing(s.em);
    ChainOfNothing(s.de);
    Crossover.NoSamples(s.xo);
    assert s.low + [] == s.low && s.mid + [] == s.mid && s.high + [] == s.high;
  }

  lemma {:induction false} StepBlocksIsStep(s: Channel, blocks: seq<seq<real>>)
    requires Crossover.Complete(s.xo)
    ensures var (s', outs) := StepBlocks(s, blocks);
            Step(s, Concat(blocks)) == (s', Concat(outs))
    decreases |blocks|
  {
    hide Step;
    if blocks == [] {
      StepOfNothing(s);
    } else {
      var front, last := blocks[..|blocks| - 1], blocks[|blocks| - 1];
      StepBlocksIsStep(s, front);
      StepSplit(s, Concat(front), last);
      var (s', outs) := StepBlocks(s, front);
      var out := Step(s', last).1;
      assert (outs + [out])[..|outs|] == outs;
    }
  }

  /** A channel as drc_init leaves it, with the delays of its kernels. */
  function Initial(es: seq<Coeffs>, ds: seq<Coeffs>, f: Crossover.Filters, d0: nat, d1: nat, d2: nat): (s: Channel)
    requires |f.lp| == |f.hp| == 3
    ensures Crossover.Complete(s.xo)
  {
    Channel(AtRest(es), Crossover.AtRest(f), Zeros(d0), Zeros(d1), Zeros(d2), AtRest(ds))
  }

  /** With disabled kernels a channel is the band sum of its crossover, delayed by d: the bands stay aligned
      and the emphasis cancels. */
  lemma DisabledStep(es: seq<Coeffs>, ds: seq<Coeffs>, f: Crossover.Filters, d: nat, xs: seq<real>)
    requires Inverses(es, ds) && |f.lp| == |f.hp| == 3
    ensures Step(Initial(es, ds, f, d, d, d), xs).1 == Shift(d, BandSum(f, xs))
  {
    hide Chain, AtRest, Inverses, Branch, Sum, Crossover.Bands, Shift;
    var s := Initial(es, ds, f, d, d, d);
    var e := Chain(AtRest(es), xs).1;
    var (_, b0, b1, b2) := Crossover.Bands(s.xo, e);
    BandsAreBranches(f, e);
    DelayIsShift(d, b0);
    DelayIsShift(d, b1);
    DelayIsShift(d, b2);
    ShiftOfSum(d, b1, b2);
    ShiftOfSum(d, b0, Sum(b1, b2));
    ChainOfShift(ds, d, Sum(b0, Sum(b1, b2)));
    EmphasisCancels(es, ds, f, xs);
  }

  /** The same over any sequence of blocks. */
  lemma DisabledCompressor(es: seq<Coeffs>, ds: seq<Coeffs>, f: Crossover.Filters, d: nat, blocks: seq<seq<real>>)
    requires Inverses(es, ds) && |f.lp| == |f.hp| == 3
    ensures Concat(StepBlocks(Initial(es, ds, f, d, d, d), blocks).1) == Shift(d, BandSum(f, Concat(blocks)))
  {
    hide Step, Inverses, Shift, BandSum, StepBlocks, Initial;
    StepBlocksIsStep(Initial(es, ds, f, d, d, d), blocks);
    DisabledStep(es, ds, f, d, Concat(blocks));
  }

  lemma DelayIsShift(d: nat, xs: seq<real>)
    ensures DelayStep(Zeros(d), xs).1 == Shift(d, xs)
  {
  }

  // ----- the compressor -----

  /** A kernel with its enabled flag fixed: a disabled one is two queues, an enabled one has a look-ahead queue
      and may not have been primed yet. */
  datatype KernelState = Off(left: seq<real>, right: seq<real>) | On(t: Tuning, primed: bool, s: Kernel)

  ghost predicate Usable(k: KernelState) {
    k.On? ==> Proper(k.s)
  }

  /** A kernel before its first block. */
  function Start(t: Tuning, on: bool, d: nat): KernelState {
    if on then On(t, false, AtStart(d)) else Off(Zeros(d), Zeros(d))
  }

  /** What a kernel does to a block: a disabled one delays, an enabled one pushes every frame through its
      look-ahead queue. */
  function KernelRun(k: KernelState, ls: seq<real>, rs: seq<real>): (r: (KernelState, seq<real>, seq<real>))
    requires k.On? ==> |k.s.left| == |k.s.right| && |k.s.left| >= 32 && k.s.offset < 32
    requires |ls| == |rs|
    ensures Usable(r.0) && r.0.On? == k.On? && |r.1| == |r.2| == |ls|
  {
    match k
    case Off(left, right) =>
      var (left', ol) := DelayStep(left, ls);
      var (right', orr) := DelayStep(right, rs);
      (Off(left', right'), ol, orr)
    case On(t, primed, s) =>
      var (s', ol, orr) := PushAll(t, if primed then s else Prime(t, s), ls, rs);
      (On(t, true, s'), ol, orr)
  }

  /** The kernel makes one pair of signals from the other. */
  ghost predicate Runs(k: KernelState, ls: seq<real>, rs: seq<real>, k': KernelState, ol: seq<real>, orr: seq<real>) {
    Usable(k) && |ls| == |rs| && (k', ol, orr) == KernelRun(k, ls, rs)
  }

  lemma KernelSplit(k: KernelState, al: seq<real>, ar: seq<real>, bl: seq<real>, br: seq<real>)
    requires Usable(k) && |al| == |ar| && |bl| == |br|
    ensures var (k', ol, orr) := KernelRun(k, al, ar);
            var (k'', pl, pr) := KernelRun(k', bl, br);
            KernelRun(k, al + bl, ar + br) == (k'', ol + pl, orr + pr)
  {
    hide PushAll, Prime, DelayStep;
    match k {
      case Off(left, right) =>
        DelaySplit(left, al, bl);
        DelaySplit(right, ar, br);
      case On(t, primed, s) =>
        PrimeKeepsProper(t, s);
        PushAllSplit(t, if primed then s else Prime(t, s), al, ar, bl, br);
    }
  }

  lemma PrimeKeepsProper(t: Tuning, s: Kernel)
    requires Proper(s)
    ensures Proper(Prime(t, s))
  {
  }

  lemma ConservedIsDelay(data: seq<real>, data': seq<real>, count: nat, q: seq<real>, q': seq<real>)
    requires Conserved(data, data', count, q, q')
    ensures (q', data'[..count]) == DelayStep(q, data[..count]) && data'[count..] == data[count..]
  {
    var xs, ys := data[..count], data'[..count];
    assert ys + q' == q + xs;
    assert (ys + q')[|xs|..] == q' && (ys + q')[..|xs|] == ys;
  }

  lemma PushedPrefix(t: Tuning, s: Kernel, s': Kernel, ls: seq<real>, ls': seq<real>, rs: seq<real>, rs': seq<real>,
                     n: nat)
    requires Pushed(t, s, s', ls, ls', rs, rs', 0, n)
    ensures (s', ls'[..n], rs'[..n]) == PushAll(t, s, ls[..n], rs[..n])
    ensures ls'[n..] == ls[n..] && rs'[n..] == rs[n..]
  {
    hide PushAll;
    assert ls'[0..n] == ls'[..n] && rs'[0..n] == rs'[..n] && ls[0..n] == ls[..n] && rs[0..n] == rs[..n];
  }

  ghost function KernelOf(k: Band): (s: KernelState)
    requires k.Valid()
    reads k, k.left, k.right
    ensures Usable(s) && s.On? == k.enabled
  {
    if k.enabled then On(k.tuning, k.processed, k.State()) else Off(k.State().left, k.State().right)
  }

  /** dk_process on the first count samples of two buffers. */
  method RunKernel(k: Band, l: array<real>, r: array<real>, count: nat)
    requires Ready(k) && count <= l.Length && count <= r.Length && l != r && {l, r} !! {k.left, k.right}
    modifies k, k.left, k.right, l, r
    ensures Ready(k)
    ensures k.enabled == old(k.enabled)
    ensures Runs(old(KernelOf(k)), old(l[..count]), old(r[..count]), KernelOf(k), l[..count], r[..count])
    ensures l[count..] == old(l[count..]) && r[count..] == old(r[count..])
  {
    hide Conserved, Pushed, PushAll, Band.State, DelayStep, Prime;
    ghost var s, ls, rs := k.State(), l[..], r[..];
    k.Process(l, r, count);
    if k.enabled {
      var s0 := if old(k.processed) then s else Prime(k.tuning, s);
      PushedPrefix(k.tuning, s0, k.State(), ls, l[..], rs, r[..], count);
    } else {
      ConservedIsDelay(ls, l[..], count, s.left, k.State().left);
      ConservedIsDelay(rs, r[..], count, s.right, k.State().right);
    }
    assert l[..][..count] == l[..count] && r[..][..count] == r[..count];
    assert ls[..count] == old(l[..count]) && rs[..count] == old(r[..count]);
    assert l[..][count..] == l[count..] && r[..][count..] == r[count..];
    assert ls[count..] == old(l[count..]) && rs[count..] == old(r[count..]);
  }

  /** A kernel that is enabled from its start, or disabled. */
  ghost predicate Ready(k: Band)
    reads k
  {
    k.Valid() && (k.enabled && !k.processed ==> k.readIndex % 32 == 0)
  }

  /** sum3. */
  method Sum3(data: array<real>, data1: array<real>, data2: array<real>, n: nat)
    requires data != data1 && data != data2 && n <= data.Length && n <= data1.Length && n <= data2.Length
    modifies data
    ensures data[..n] == Sum(old(data[..n]), Sum(data1[..n], data2[..n]))
    ensures data[n..] == old(data[n..])
  {
    ghost var xs := data[..n];
    for i := 0 to n
      invariant data[..i] == Sum(xs[..i], Sum(data1[..i], data2[..i]))
      invariant data[i..] == old(data[i..])
    {
      ghost var rest := data[i..];
      assert rest[0] == xs[i];
      ghost var before := data[..i];
      data[i] := data[i] + (data1[i] + data2[i]);
      assert data[..i + 1] == before + [xs[i] + (data1[i] + data2[i])];
      assert data[i + 1..] == rest[1..];
      assert data1[..i + 1] == data1[..i] + [data1[i]] && data2[..i + 1] == data2[..i] + [data2[i]];
      assert xs[..i + 1] == xs[..i] + [xs[i]];
      SumSnoc(data1[..i], data2[..i], data1[i], data2[i]);
      SumSnoc(xs[..i], Sum(data1[..i], data2[..i]), xs[i], data1[i] + data2[i]);
    }
    assert xs[..n] == xs;
  }

  /** One channel on its way through drc_process: after the emphasis, the three bands, the bands after the
      kernels. */
  datatype Signals = Signals(em: seq<real>, b0: seq<real>, b1: seq<real>, b2: seq<real>,
                             o0: seq<real>, o1: seq<real>, o2: seq<real>)

  /** An equaliser that may be switched off. */
  function Equalised(off: bool, qs: seq<Biquad>, xs: seq<real>): (r: (seq<Biquad>, seq<real>))
    ensures |r.1| == |xs|
  {
    if off then (qs, xs) else Chain(qs, xs)
  }

  /** One channel through emphasis and crossover. */
  ghost predicate Entered(off: bool, em: seq<Biquad>, xo: Crossover.State, xs: seq<real>, em': seq<Biquad>,
                          xo': Crossover.State, es: seq<real>, b0: seq<real>, b1: seq<real>, b2: seq<real>)
  {
    && |xo.lp| == |xo.hp| == 3
    && (em', es) == Equalised(off, em, xs) && (xo', b0, b1, b2) == Crossover.Bands(xo, es)
  }

  /** One channel through band sum and de-emphasis. */
  ghost predicate Joined(off: bool, de: seq<Biquad>, o0: seq<real>, o1: seq<real>, o2: seq<real>,
                         de': seq<Biquad>, ys: seq<real>)
  {
    |o0| == |o1| == |o2| && (de', ys) == Equalised(off, de, Sum(o0, Sum(o1, o2)))
  }

  // ----- both channels, whatever is enabled -----

  /** Everything drc_process keeps. The kernels couple the channels: their gains follow from both. */
  datatype Whole = Whole(emL: seq<Biquad>, emR: seq<Biquad>, xoL: Crossover.State, xoR: Crossover.State,
                         k0: KernelState, k1: KernelState, k2: KernelState, deL: seq<Biquad>, deR: seq<Biquad>)

  ghost predicate Sound(w: Whole) {
    Crossover.Complete(w.xoL) && Crossover.Complete(w.xoR) && Usable(w.k0) && Usable(w.k1) && Usable(w.k2)
  }

  /** drc_process; off says that the emphasis is disabled. */
  function StepWhole(off: bool, w: Whole, ls: seq<real>, rs: seq<real>): (r: (Whole, seq<real>, seq<real>))
    requires Sound(w) && |ls| == |rs|
    ensures Sound(r.0) && |r.1| == |r.2| == |ls|
  {
    var (emL, el) := Equalised(off, w.emL, ls);
    var (emR, er) := Equalised(off, w.emR, rs);
    var (xoL, l0, l1, l2) := Crossover.Bands(w.xoL, el);
    var (xoR, r0, r1, r2) := Crossover.Bands(w.xoR, er);
    var (k0, pl0, pr0) := KernelRun(w.k0, l0, r0);
    var (k1, pl1, pr1) := KernelRun(w.k1, l1, r1);
    var (k2, pl2, pr2) := KernelRun(w.k2, l2, r2);
    var (deL, ol) := Equalised(off, w.deL, Sum(pl0, Sum(pl1, pl2)));
    var (deR, orr) := Equalised(off, w.deR, Sum(pr0, Sum(pr1, pr2)));
    (Whole(emL, emR, xoL, xoR, k0, k1, k2, deL, deR), ol, orr)
  }

  lemma EqualisedSplit(off: bool, qs: seq<Biquad>, a: seq<real>, b: seq<real>)
    ensures var (qs', ys) := Equalised(off, qs, a);
            var (qs'', zs) := Equalised(off, qs', b);
            Equalised(off, qs, a + b) == (qs'', ys + zs)
  {
    hide Chain;
    ChainSplit(qs, a, b);
  }

  /** Block sizes do not matter for the whole compressor, with any of its kernels enabled. */
  lemma WholeSplit(off: bool, w: Whole, al: seq<real>, ar: seq<real>, bl: seq<real>, br: seq<real>)
    requires Sound(w) && |al| == |ar| && |bl| == |br|
    ensures var (w', yl, yr) := StepWhole(off, w, al, ar);
            var (w'', zl, zr) := StepWhole(off, w', bl, br);
            StepWhole(off, w, al + bl, ar + br) == (w'', yl + zl, yr + zr)
  {
    hide Equalised, Crossover.Bands, KernelRun, Sum;
    var (emL, ael) := Equalised(off, w.emL, al);
    var (emR, aer) := Equalised(off, w.emR, ar);
    var bel, ber := Equalised(off, emL, bl).1, Equalised(off, emR, br).1;
    EqualisedSplit(off, w.emL, al, bl);
    EqualisedSplit(off, w.emR, ar, br);
    Crossover.BandsSplit(w.xoL, ael, bel);
    Crossover.BandsSplit(w.xoR, aer, ber);
    var (xoL, al0, al1, al2) := Crossover.Bands(w.xoL, ael);
    var (xoR, ar0, ar1, ar2) := Crossover.Bands(w.xoR, aer);
    var (_, bl0, bl1, bl2) := Crossover.Bands(xoL, bel);
    var (_, br0, br1, br2) := Crossover.Bands(xoR, ber);
    KernelSplit(w.k0, al0, ar0, bl0, br0);
    KernelSplit(w.k1, al1, ar1, bl1, br1);
    KernelSplit(w.k2, al2, ar2, bl2, br2);
    var (k0, pl0, pr0) := KernelRun(w.k0, al0, ar0);
    var (k1, pl1, pr1) := KernelRun(w.k1, al1, ar1);
    var (k2, pl2, pr2) := KernelRun(w.k2, al2, ar2);
    var (_, ql0, qr0) := KernelRun(k0, bl0, br0);
    var (_, ql1, qr1) := KernelRun(k1, bl1, br1);
    var (_, ql2, qr2) := KernelRun(k2, bl2, br2);
    SumsSplit(pl0, pl1, pl2, ql0, ql1, ql2);
    SumsSplit(pr0, pr1, pr2, qr0, qr1, qr2);
    EqualisedSplit(off, w.deL, Sum(pl0, Sum(pl1, pl2)), Sum(ql0, Sum(ql1, ql2)));
    EqualisedSplit(off, w.deR, Sum(pr0, Sum(pr1, pr2)), Sum(qr0, Sum(qr1, qr2)));
  }

  lemma SumsSplit(a: seq<real>, b: seq<real>, c: seq<real>, x: seq<real>, y: seq<real>, z: seq<real>)
    requires |a| == |b| == |c| && |x| == |y| == |z|
    ensures Sum(a + x, Sum(b + y, c + z)) == Sum(a, Sum(b, c)) + Sum(x, Sum(y, z))
  {
    hide Sum;
    SumAppend(b, c, y, z);
    SumAppend(a, Sum(b, c), x, Sum(y, z));
  }

  /** The same cut on both channels. */
  ghost predicate SameShape(ls: seq<seq<real>>, rs: seq<seq<real>>) {
    |ls| == |rs| && forall k :: 0 <= k < |ls| ==> |ls[k]| == |rs[k]|
  }

  /** Blocks of both channels one after the other. */
  function WholeBlocks(off: bool, w: Whole, ls: seq<seq<real>>, rs: seq<seq<real>>)
      : (r: (Whole, seq<seq<real>>, seq<seq<real>>))
    requires Sound(w) && SameShape(ls, rs)
    ensures Sound(r.0) && |r.1| == |r.2| == |ls|
  {
    hide StepWhole, Concat;
    if ls == [] then (w, [], []) else
      var n := |ls| - 1;
      var front := WholeBlocks(off, w, ls[..n], rs[..n]);
      var last := StepWhole(off, front.0, ls[n], rs[n]);
      (last.0, front.1 + [last.1], front.2 + [last.2])
  }

  /** Any cut into blocks gives the samples of the uncut run, from the first block on. */
  lemma {:induction false} WholeBlocksIsStep(off: bool, w: Whole, ls: seq<seq<real>>, rs: seq<seq<real>>)
    requires Sound(w) && ls != [] && SameShape(ls, rs)
    ensures |Concat(ls)| == |Concat(rs)|
    ensures var (w', ol, orr) := WholeBlocks(off, w, ls, rs);
            StepWhole(off, w, Concat(ls), Concat(rs)) == (w', Concat(ol), Concat(orr))
    decreases |ls|
  {
    hide StepWhole, Sound, WholeBlocks, Concat;
    var n := |ls| - 1;
    LastBlock(off, w, ls, rs);
    var front := WholeBlocks(off, w, ls[..n], rs[..n]);
    var last := StepWhole(off, front.0, ls[n], rs[n]);
    ConcatSnoc(ls[..n], ls[n]);
    ConcatSnoc(rs[..n], rs[n]);
    ConcatSnoc(front.1, last.1);
    ConcatSnoc(front.2, last.2);
    if n > 0 {
      WholeBlocksIsStep(off, w, ls[..n], rs[..n]);
      WholeSplit(off, w, Concat(ls[..n]), Concat(rs[..n]), ls[n], rs[n]);
    }
  }

  lemma LastBlock(off: bool, w: Whole, ls: seq<seq<real>>, rs: seq<seq<real>>)
    requires Sound(w) && ls != [] && SameShape(ls, rs)
    ensures var n := |ls| - 1;
            var front := WholeBlocks(off, w, ls[..n], rs[..n]);
            var last := StepWhole(off, front.0, ls[n], rs[n]);
            && ls == ls[..n] + [ls[n]] && rs == rs[..n] + [rs[n]]
            && WholeBlocks(off, w, ls, rs) == (last.0, front.1 + [last.1], front.2 + [last.2])
            && (n == 0 ==> front == (w, [], []) && ls[..n] == rs[..n] == [])
  {
    hide StepWhole, Sound, Concat;
  }

  lemma ConcatSnoc(blocks: seq<seq<real>>, block: seq<real>)
    ensures Concat(blocks + [block]) == Concat(blocks) + block
    ensures Concat([]) == [] && [] + block == block
  {
    assert (blocks + [block])[..|blocks|] == blocks;
  }

  /** What a channel keeps when all kernels are disabled. */
  function Side(w: Whole, right: bool): Channel
    requires w.k0.Off? && w.k1.Off? && w.k2.Off?
  {
    if right then Channel(w.emR, w.xoR, w.k0.right, w.k1.right, w.k2.right, w.deR)
    else Channel(w.emL, w.xoL, w.k0.left, w.k1.left, w.k2.left, w.deL)
  }

  /** With emphasis on and all kernels disabled, each channel takes one step of its own. */
  lemma DisabledIsTwoSteps(w: Whole, ls: seq<real>, rs: seq<real>)
    requires Sound(w) && |ls| == |rs| && w.k0.Off? && w.k1.Off? && w.k2.Off?
    ensures var (w', ol, orr) := StepWhole(false, w, ls, rs);
            && w'.k0.Off? && w'.k1.Off? && w'.k2.Off?
            && (Side(w', false), ol) == Step(Side(w, false), ls)
            && (Side(w', true), orr) == Step(Side(w, true), rs)
  {
    hide Chain, Crossover.Bands, DelayStep, Sum;
  }

  /** With the emphasis off the compressor is one with no emphasis stages. */
  lemma OffIsEmpty(w: Whole, ls: seq<real>, rs: seq<real>)
    requires Sound(w) && |ls| == |rs|
    ensures var w' := w.(emL := [], emR := [], deL := [], deR := []);
            && Sound(w') && StepWhole(true, w, ls, rs).1 == StepWhole(false, w', ls, rs).1
            && StepWhole(true, w, ls, rs).2 == StepWhole(false, w', ls, rs).2
  {
    hide Crossover.Bands, KernelRun, Sum;
  }

  /** A compressor with disabled kernels and one look-ahead, from its start and over any blocks of both channels:
      each channel leaves as its band sum, delayed, with emphasis on or off. */
  lemma DisabledStereo(off: bool, es: seq<Coeffs>, ds: seq<Coeffs>, f: Crossover.Filters, d: nat, w: Whole,
                       ls: seq<seq<real>>, rs: seq<seq<real>>)
    requires Inverses(es, ds) && |f.lp| == |f.hp| == 3 && ls != [] && SameShape(ls, rs)
    requires var k, x := Off(Zeros(d), Zeros(d)), Crossover.AtRest(f);
             w == Whole(AtRest(es), AtRest(es), x, x, k, k, k, AtRest(ds), AtRest(ds))
    ensures Concat(WholeBlocks(off, w, ls, rs).1) == Shift(d, BandSum(f, Concat(ls)))
    ensures Concat(WholeBlocks(off, w, ls, rs).2) == Shift(d, BandSum(f, Concat(rs)))
  {
    hide Inverses, AtRest, Shift, BandSum, Step, WholeBlocks, StepWhole, Concat;
    WholeBlocksIsStep(off, w, ls, rs);
    var l, r := Concat(ls), Concat(rs);
    if off {
      NoStages();
      OffIsEmpty(w, l, r);
      DisabledIsTwoSteps(w.(emL := [], emR := [], deL := [], deR := []), l, r);
      DisabledStep([], [], f, d, l);
      DisabledStep([], [], f, d, r);
    } else {
      DisabledIsTwoSteps(w, l, r);
      DisabledStep(es, ds, f, d, l);
      DisabledStep(es, ds, f, d, r);
    }
  }

  lemma NoStages()
    ensures Inverses([], []) && AtRest([]) == []
  {
  }

  // ----- the whole compressor in closed form -----

  /** A kernel as it is set up: tuning, enabled or not, look-ahead. */
  datatype Part = Part(t: Tuning, on: bool, d: nat)

  datatype Setup = Setup(off: bool, es: seq<Coeffs>, ds: seq<Coeffs>, f: Crossover.Filters, low: Part, mid: Part,
                         high: Part)

  ghost predicate Proportioned(u: Setup) {
    |u.f.lp| == |u.f.hp| == 3 && u.low.d >= 32 && u.mid.d >= 32 && u.high.d >= 32
  }

  function Emphasised(off: bool, cs: seq<Coeffs>, xs: seq<real>): (ys: seq<real>)
    ensures |ys| == |xs|
  {
    if off then xs else Chain(AtRest(cs), xs).1
  }

  /** The bands of a crossover at rest: 0 is low, 1 middle, 2 high. */
  function BandOf(f: Crossover.Filters, i: nat, xs: seq<real>): (ys: seq<real>)
    requires |f.lp| == |f.hp| == 3
    ensures |ys| == |xs|
  {
    if i == 0 then Sum(Branch(f.lp[0], f.lp[1], xs), Branch(f.lp[0], f.hp[1], xs))
    else if i == 1 then Branch(f.hp[0], f.lp[2], xs)
    else Branch(f.hp[0], f.hp[2], xs)
  }

  /** What a kernel makes of one channel xs of a band with the channels ls and rs: each sample leaves d samples later,
      by an enabled kernel scaled by the gain that follows from both channels. */
  function KernelOutput(k: Part, xs: seq<real>, ls: seq<real>, rs: seq<real>): (ys: seq<real>)
    requires |xs| == |ls| == |rs|
    ensures |ys| == |xs|
  {
    seq(|xs|, p requires 0 <= p < |xs| =>
      if k.on then Delayed(xs, k.d, p) * GainAt(k.t, ls, rs, p) else Delayed(xs, k.d, p))
  }

  /** What the compressor makes of one channel xs of a signal with the channels ls and rs: the bands of the emphasised
      signal, each through its own kernel, added up and de-emphasised. */
  function WholeOutput(u: Setup, xs: seq<real>, ls: seq<real>, rs: seq<real>): (ys: seq<real>)
    requires Proportioned(u) && |xs| == |ls| == |rs|
    ensures |ys| == |xs|
  {
    var x, l, r := Emphasised(u.off, u.es, xs), Emphasised(u.off, u.es, ls), Emphasised(u.off, u.es, rs);
    Emphasised(u.off, u.ds,
               Sum(KernelOutput(u.low, BandOf(u.f, 0, x), BandOf(u.f, 0, l), BandOf(u.f, 0, r)),
                   Sum(KernelOutput(u.mid, BandOf(u.f, 1, x), BandOf(u.f, 1, l), BandOf(u.f, 1, r)),
                       KernelOutput(u.high, BandOf(u.f, 2, x), BandOf(u.f, 2, l), BandOf(u.f, 2, r)))))
  }

  /** The state drc_init leaves. */
  function InitialWhole(u: Setup): (w: Whole)
    requires Proportioned(u)
  {
    Whole(AtRest(u.es), AtRest(u.es), Crossover.AtRest(u.f), Crossover.AtRest(u.f), Start(u.low.t, u.low.on, u.low.d),
          Start(u.mid.t, u.mid.on, u.mid.d), Start(u.high.t, u.high.on, u.high.d), AtRest(u.ds), AtRest(u.ds))
  }

  lemma KernelFromStart(k: Part, ls: seq<real>, rs: seq<real>)
    requires k.d >= 32 && |ls| == |rs|
    ensures var (_, ol, orr) := KernelRun(Start(k.t, k.on, k.d), ls, rs);
            ol == KernelOutput(k, ls, ls, rs) && orr == KernelOutput(k, rs, ls, rs)
  {
    hide PushAll, Prime, GainAt, OutputInStep, KernelOutput, DelayStep;
    if k.on {
      PrimeProper(k.t, k.d);
      EnabledOutput(k.t, k.d, ls, rs);
      var (_, ol, orr) := PushAll(k.t, Prime(k.t, AtStart(k.d)), ls, rs);
      OutputIs(k, ol, ls, ls, rs);
      OutputIs(k, orr, rs, ls, rs);
    } else {
      DelayIsOutput(k, ls, ls, rs);
      DelayIsOutput(k, rs, ls, rs);
    }
  }

  lemma OutputIs(k: Part, out: seq<real>, xs: seq<real>, ls: seq<real>, rs: seq<real>)
    requires k.on && OutputInStep(k.t, k.d, out, xs, ls, rs)
    ensures out == KernelOutput(k, xs, ls, rs)
  {
    hide GainAt;
    var ys := KernelOutput(k, xs, ls, rs);
    forall p | 0 <= p < |out| ensures out[p] == ys[p] {
      assert ys[p] == Delayed(xs, k.d, p) * GainAt(k.t, ls, rs, p);
    }
  }

  lemma DelayIsOutput(k: Part, xs: seq<real>, ls: seq<real>, rs: seq<real>)
    requires !k.on && |xs| == |ls| == |rs|
    ensures DelayStep(Zeros(k.d), xs).1 == KernelOutput(k, xs, ls, rs)
  {
    hide GainAt;
  }

  lemma BandsAre(f: Crossover.Filters, xs: seq<real>)
    requires |f.lp| == |f.hp| == 3
    ensures var (_, low, mid, high) := Crossover.Bands(Crossover.AtRest(f), xs);
            low == BandOf(f, 0, xs) && mid == BandOf(f, 1, xs) && high == BandOf(f, 2, xs)
  {
    hide Branch, Crossover.Bands, Sum;
    BandsAreBranches(f, xs);
  }

  lemma WholeStep(u: Setup, ls: seq<real>, rs: seq<real>)
    requires Proportioned(u) && |ls| == |rs|
    ensures Sound(InitialWhole(u))
    ensures var (_, ol, orr) := StepWhole(u.off, InitialWhole(u), ls, rs);
            ol == WholeOutput(u, ls, ls, rs) && orr == WholeOutput(u, rs, ls, rs)
  {
    hide Chain, AtRest, Crossover.Bands, KernelRun, KernelOutput, BandOf, Sum, Start, Crossover.AtRest;
    var l, r := Emphasised(u.off, u.es, ls), Emphasised(u.off, u.es, rs);
    BandsAre(u.f, l);
    BandsAre(u.f, r);
    StartUsable(u.low);
    StartUsable(u.mid);
    StartUsable(u.high);
    KernelFromStart(u.low, BandOf(u.f, 0, l), BandOf(u.f, 0, r));
    KernelFromStart(u.mid, BandOf(u.f, 1, l), BandOf(u.f, 1, r));
    KernelFromStart(u.high, BandOf(u.f, 2, l), BandOf(u.f, 2, r));
  }

  lemma StartUsable(k: Part)
    requires k.d >= 32
    ensures Usable(Start(k.t, k.on, k.d))
  {
  }

  /** The compressor from its start, over any blocks of both channels and with any of its kernels enabled: every band of
      the emphasised signal leaves its kernel delayed and scaled by that kernel's own gains, and the sum is
      de-emphasised. */
  lemma CompressorLaw(u: Setup, ls: seq<seq<real>>, rs: seq<seq<real>>)
    requires Proportioned(u) && ls != [] && SameShape(ls, rs)
    ensures Sound(InitialWhole(u)) && |Concat(ls)| == |Concat(rs)|
    ensures Concat(WholeBlocks(u.off, InitialWhole(u), ls, rs).1) == WholeOutput(u, Concat(ls), Concat(ls), Concat(rs))
    ensures Concat(WholeBlocks(u.off, InitialWhole(u), ls, rs).2) == WholeOutput(u, Concat(rs), Concat(ls), Concat(rs))
  {
    hide WholeBlocks, StepWhole, Concat, WholeOutput, InitialWhole, Proportioned;
    WholeStep(u, [], []);
    WholeBlocksIsStep(u.off, InitialWhole(u), ls, rs);
    WholeStep(u, Concat(ls), Concat(rs));
  }

  /** Numbers given earlier stay. */
  ghost predicate Extends(m: map<object, nat>, m': map<object, nat>) {
    m.Keys <= m'.Keys && forall o :: o in m ==> m'[o] == m[o]
  }

  /** init_kernel for one kernel. */
  method NewKernel(t: Tuning, preDelay: nat, on: bool, ghost m: map<object, nat>, ghost n: nat)
      returns (k: Band, ghost m': map<object, nat>)
    ensures fresh(k) && fresh(k.left) && fresh(k.right) && Ready(k) && k.enabled == on && !k.processed
    ensures KernelOf(k) == Start(t, on, k.lastPreDelayFrames)
    ensures LookAheadFor(preDelay, k.lastPreDelayFrames)
    ensures Extends(m, m') && Numbered(k, m', n)
    ensures forall o :: o in m' ==> o in m || fresh(o)
  {
    k := new Band(t);
    k.SetPreDelay(preDelay);
    k.SetEnabled(on);
    m' := m[k := n][k.left := n + 1][k.right := n + 2];
  }

  method NewCrossover(lowpass: real -> Coeffs, highpass: real -> Coeffs, f1: real, f2: real, ghost m: map<object, nat>,
                      ghost n: nat)
      returns (x: Crossover.Stereo, ghost m': map<object, nat>)
    ensures x.Valid() && fresh(x) && fresh(x.lp) && fresh(x.hp)
    ensures x.Channel(false) == x.Channel(true) == Crossover.AtRest(Crossover.Design(lowpass, highpass, f1, f2))
    ensures Extends(m, m') && x.lp in m' && x.hp in m' && m'[x.lp] == n && m'[x.hp] == n + 1
    ensures forall o :: o in m' ==> o in m || fresh(o)
  {
    x := new Crossover.Stereo(lowpass, highpass, f1, f2);
    m' := m[x.lp := n][x.hp := n + 1];
  }

  /** init_kernel: kernels with equal look-ahead requests get equal look-aheads. */
  method NewKernels(t0: Tuning, t1: Tuning, t2: Tuning, delay0: nat, delay1: nat, delay2: nat,
                    on0: bool, on1: bool, on2: bool, ghost m: map<object, nat>, ghost n: nat)
      returns (k0: Band, k1: Band, k2: Band, ghost m': map<object, nat>)
    ensures fresh(k0) && fresh(k0.left) && fresh(k0.right) && Ready(k0) && k0.enabled == on0
    ensures fresh(k1) && fresh(k1.left) && fresh(k1.right) && Ready(k1) && k1.enabled == on1
    ensures fresh(k2) && fresh(k2.left) && fresh(k2.right) && Ready(k2) && k2.enabled == on2
    ensures KernelOf(k0) == Start(t0, on0, k0.lastPreDelayFrames)
    ensures KernelOf(k1) == Start(t1, on1, k1.lastPreDelayFrames)
    ensures KernelOf(k2) == Start(t2, on2, k2.lastPreDelayFrames)
    ensures LookAheadFor(delay0, k0.lastPreDelayFrames) && LookAheadFor(delay1, k1.lastPreDelayFrames)
    ensures LookAheadFor(delay2, k2.lastPreDelayFrames)
    ensures delay0 == delay1 ==> k0.lastPreDelayFrames == k1.lastPreDelayFrames
    ensures delay0 == delay2 ==> k0.lastPreDelayFrames == k2.lastPreDelayFrames
    ensures Extends(m, m') && Numbered(k0, m', n) && Numbered(k1, m', n + 3) && Numbered(k2, m', n + 6)
    ensures forall o :: o in m' ==> o in m || fresh(o)
  {
    hide Start, KernelOf, Band.Valid, LookAheadFor;
    k0, m' := NewKernel(t0, delay0, on0, m, n);
    k1, m' := NewKernel(t1, delay1, on1, m', n + 3);
    k2, m' := NewKernel(t2, delay2, on2, m', n + 6);
    if delay0 == delay1 {
      BandsAligned(delay0, k0.lastPreDelayFrames, k1.lastPreDelayFrames);
    }
    if delay0 == delay2 {
      BandsAligned(delay0, k0.lastPreDelayFrames, k2.lastPreDelayFrames);
    }
  }

  ghost predicate Numbered(k: Band, m: map<object, nat>, n: nat) {
    k in m && k.left in m && k.right in m && m[k] == n && m[k.left] == n + 1 && m[k.right] == n + 2
  }

  /** init_data_buffer. */
  method NewBuffers(ghost m: map<object, nat>, ghost n: nat)
      returns (a: array<real>, b: array<real>, c: array<real>, d: array<real>, ghost m': map<object, nat>)
    ensures fresh(a) && fresh(b) && fresh(c) && fresh(d)
    ensures a.Length == b.Length == c.Length == d.Length == DRC_PROCESS_MAX_FRAMES
    ensures Extends(m, m') && a in m' && b in m' && c in m' && d in m'
    ensures m'[a] == n && m'[b] == n + 1 && m'[c] == n + 2 && m'[d] == n + 3
    ensures forall o :: o in m' ==> o in m || fresh(o)
  {
    a := new real[DRC_PROCESS_MAX_FRAMES](_ => 0.0);
    b := new real[DRC_PROCESS_MAX_FRAMES](_ => 0.0);
    c := new real[DRC_PROCESS_MAX_FRAMES](_ => 0.0);
    d := new real[DRC_PROCESS_MAX_FRAMES](_ => 0.0);
    m' := m[a := n][b := n + 1][c := n + 2][d := n + 3];
  }

  lemma StagesHeld(eq: Equaliser2, cs: seq<Coeffs>)
    requires Holds(eq, cs)
    ensures eq.Valid() && eq.Stages(0) == AtRest(cs) && eq.Stages(1) == AtRest(cs)
  {
  }

  /** struct drc, after drc_init. */
  class Compressor {
    var emphasisDisabled: bool
    const emphasis: Equaliser2
    const deemphasis: Equaliser2
    const xo: Crossover.Stereo
    const low: Band
    const mid: Band
    const high: Band
    const data1L: array<real>
    const data1R: array<real>
    const data2L: array<real>
    const data2R: array<real>
    ghost const part: map<object, nat>

    /** All parts are different objects: each has its own number. */
    ghost predicate Separate() {
      && emphasis in part && part[emphasis] == 0 && emphasis.biquad in part && part[emphasis.biquad] == 1
      && deemphasis in part && part[deemphasis] == 2 && deemphasis.biquad in part && part[deemphasis.biquad] == 3
      && xo.lp in part && part[xo.lp] == 4 && xo.hp in part && part[xo.hp] == 5
      && Numbered(low, part, 6) && Numbered(mid, part, 9) && Numbered(high, part, 12)
      && data1L in part && part[data1L] == 15 && data1R in part && part[data1R] == 16
      && data2L in part && part[data2L] == 17 && data2R in part && part[data2R] == 18
      && this !in part
    }

    ghost predicate Valid()
      reads emphasis, emphasis.biquad, deemphasis, deemphasis.biquad, low, mid, high
    {
      && Separate() && emphasis.Valid() && deemphasis.Valid() && xo.Valid()
      && Ready(low) && Ready(mid) && Ready(high)
      && data1L.Length == data1R.Length == data2L.Length == data2R.Length == DRC_PROCESS_MAX_FRAMES
    }

    lemma PartsInside()
      requires Valid()
      ensures emphasis.biquad in part && deemphasis.biquad in part && xo.lp in part && xo.hp in part
      ensures data1L in part && data1R in part && data2L in part && data2R in part
      ensures low in part && low.left in part && low.right in part && mid in part && mid.left in part
      ensures mid.right in part && high in part && high.left in part && high.right in part
      ensures 32 <= low.lastPreDelayFrames <= 992 && low.lastPreDelayFrames % 32 == 0
      ensures 32 <= mid.lastPreDelayFrames && 32 <= high.lastPreDelayFrames
    {
    }

    /** Everything that is kept from one call to the next. */
    ghost function All(): (w: Whole)
      requires Valid()
      reads emphasis, emphasis.biquad, deemphasis, deemphasis.biquad, low, mid, high
      reads xo.lp, xo.hp, low.left, low.right, mid.left, mid.right, high.left, high.right
      ensures Sound(w)
    {
      Whole(emphasis.Stages(0), emphasis.Stages(1), xo.Channel(false), xo.Channel(true),
            KernelOf(low), KernelOf(mid), KernelOf(high), deemphasis.Stages(0), deemphasis.Stages(1))
    }

    constructor (emphasisDisabled: bool, emphasis: Equaliser2, deemphasis: Equaliser2, xo: Crossover.Stereo,
                 low: Band, mid: Band, high: Band, data1L: array<real>, data1R: array<real>, data2L: array<real>,
                 data2R: array<real>, ghost part: map<object, nat>)
      ensures this.emphasisDisabled == emphasisDisabled && this.emphasis == emphasis && this.deemphasis == deemphasis
      ensures this.xo == xo && this.low == low && this.mid == mid && this.high == high && this.part == part
      ensures this.data1L == data1L && this.data1R == data1R && this.data2L == data2L && this.data2R == data2R
    {
      this.emphasisDisabled, this.emphasis, this.deemphasis, this.xo := emphasisDisabled, emphasis, deemphasis, xo;
      this.low, this.mid, this.high, this.part := low, mid, high, part;
      this.data1L, this.data1R, this.data2L, this.data2R := data1L, data1R, data2L, data2R;
    }

    /** Emphasis and crossover. */
    method SplitBands(dataL: array<real>, dataR: array<real>, count: nat)
        returns (ghost tl: Signals, ghost tr: Signals)
      requires Valid() && dataL != dataR && dataL !in part && dataR !in part
      requires count <= DRC_PROCESS_MAX_FRAMES && count <= dataL.Length && count <= dataR.Length
      modifies emphasis.biquad, xo.lp, xo.hp, dataL, dataR, data1L, data1R, data2L, data2R
      ensures Valid()
      ensures Entered(emphasisDisabled, old(emphasis.Stages(0)), old(xo.Channel(false)), old(dataL[..count]),
                      emphasis.Stages(0), xo.Channel(false), tl.em, tl.b0, tl.b1, tl.b2)
      ensures Entered(emphasisDisabled, old(emphasis.Stages(1)), old(xo.Channel(true)), old(dataR[..count]),
                      emphasis.Stages(1), xo.Channel(true), tr.em, tr.b0, tr.b1, tr.b2)
      ensures tl.b0 == dataL[..count] && tl.b1 == data1L[..count] && tl.b2 == data2L[..count]
      ensures tr.b0 == dataR[..count] && tr.b1 == data1R[..count] && tr.b2 == data2R[..count]
      ensures dataL[count..] == old(dataL[count..]) && dataR[count..] == old(dataR[count..])
    {
      hide Chain, Crossover.Bands, Equaliser2.Stages, Crossover.Stereo.Channel;
      if !emphasisDisabled {
        emphasis.Process(dataL, dataR, count);
      }
      ghost var el, er := dataL[..count], dataR[..count];
      xo.Process(count, dataL, dataR, data1L, data1R, data2L, data2R);
      tl := Signals(el, dataL[..count], data1L[..count], data2L[..count], [], [], []);
      tr := Signals(er, dataR[..count], data1R[..count], data2R[..count], [], [], []);
    }

    /** The kernels of the middle and the high band. */
    method CompressUpper(count: nat)
      requires Valid() && count <= DRC_PROCESS_MAX_FRAMES
      modifies mid, mid.left, mid.right, high, high.left, high.right, data1L, data1R, data2L, data2R
      ensures Valid() && mid.enabled == old(mid.enabled) && high.enabled == old(high.enabled)
      ensures Runs(old(KernelOf(mid)), old(data1L[..count]), old(data1R[..count]),
                   KernelOf(mid), data1L[..count], data1R[..count])
      ensures Runs(old(KernelOf(high)), old(data2L[..count]), old(data2R[..count]),
                   KernelOf(high), data2L[..count], data2R[..count])
    {
      hide Runs, KernelOf, Band.State, Band.Valid, Ready, Equaliser2.Valid, DelayStep, PushAll, Prime, Proper;
      RunKernel(mid, data1L, data1R, count);
      RunKernel(high, data2L, data2R, count);
    }

    /** The three kernels, each over its band. */
    method CompressBands(dataL: array<real>, dataR: array<real>, count: nat)
      requires Valid() && dataL != dataR && dataL !in part && dataR !in part
      requires count <= DRC_PROCESS_MAX_FRAMES && count <= dataL.Length && count <= dataR.Length
      modifies low, low.left, low.right, mid, mid.left, mid.right, high, high.left, high.right
      modifies dataL, dataR, data1L, data1R, data2L, data2R
      ensures Valid() && low.enabled == old(low.enabled)
      ensures mid.enabled == old(mid.enabled) && high.enabled == old(high.enabled)
      ensures Runs(old(KernelOf(low)), old(dataL[..count]), old(dataR[..count]),
                   KernelOf(low), dataL[..count], dataR[..count])
      ensures Runs(old(KernelOf(mid)), old(data1L[..count]), old(data1R[..count]),
                   KernelOf(mid), data1L[..count], data1R[..count])
      ensures Runs(old(KernelOf(high)), old(data2L[..count]), old(data2R[..count]),
                   KernelOf(high), data2L[..count], data2R[..count])
      ensures dataL[count..] == old(dataL[count..]) && dataR[count..] == old(dataR[count..])
    {
      hide Runs, KernelOf, Band.State, Band.Valid, Ready, Equaliser2.Valid, DelayStep, PushAll, Prime, Proper;
      RunKernel(low, dataL, dataR, count);
      CompressUpper(count);
    }

    /** Band sum and de-emphasis. */
    method JoinBands(dataL: array<real>, dataR: array<real>, count: nat)
      requires Valid() && dataL != dataR && dataL !in part && dataR !in part
      requires count <= DRC_PROCESS_MAX_FRAMES && count <= dataL.Length && count <= dataR.Length
      modifies deemphasis.biquad, dataL, dataR
      ensures Valid()
      ensures (deemphasis.Stages(0), dataL[..count]) ==
              Equalised(emphasisDisabled, old(deemphasis.Stages(0)),
                        Sum(old(dataL[..count]), Sum(old(data1L[..count]), old(data2L[..count]))))
      ensures (deemphasis.Stages(1), dataR[..count]) ==
              Equalised(emphasisDisabled, old(deemphasis.Stages(1)),
                        Sum(old(dataR[..count]), Sum(old(data1R[..count]), old(data2R[..count]))))
      ensures dataL[count..] == old(dataL[count..]) && dataR[count..] == old(dataR[count..])
    {
      hide Chain, Sum, Equaliser2.Stages, Ready;
      Sum3(dataL, data1L, data2L, count);
      Sum3(dataR, data1R, data2R, count);
      if !emphasisDisabled {
        deemphasis.Process(dataL, dataR, count);
      }
    }

    /** Kernels, band sum and de-emphasis, for bands recorded in xl and xr. */
    method CompressAndJoin(dataL: array<real>, dataR: array<real>, count: nat, ghost xl: Signals, ghost xr: Signals)
        returns (ghost tl: Signals, ghost tr: Signals)
      requires Valid() && dataL != dataR && dataL !in part && dataR !in part
      requires count <= DRC_PROCESS_MAX_FRAMES && count <= dataL.Length && count <= dataR.Length
      requires xl.b0 == dataL[..count] && xl.b1 == data1L[..count] && xl.b2 == data2L[..count]
      requires xr.b0 == dataR[..count] && xr.b1 == data1R[..count] && xr.b2 == data2R[..count]
      modifies deemphasis.biquad, low, low.left, low.right, mid, mid.left, mid.right, high, high.left, high.right
      modifies dataL, dataR, data1L, data1R, data2L, data2R
      ensures Valid() && low.enabled == old(low.enabled)
      ensures mid.enabled == old(mid.enabled) && high.enabled == old(high.enabled)
      ensures tl == xl.(o0 := tl.o0, o1 := tl.o1, o2 := tl.o2) && tr == xr.(o0 := tr.o0, o1 := tr.o1, o2 := tr.o2)
      ensures Runs(old(KernelOf(low)), tl.b0, tr.b0, KernelOf(low), tl.o0, tr.o0)
      ensures Runs(old(KernelOf(mid)), tl.b1, tr.b1, KernelOf(mid), tl.o1, tr.o1)
      ensures Runs(old(KernelOf(high)), tl.b2, tr.b2, KernelOf(high), tl.o2, tr.o2)
      ensures Joined(emphasisDisabled, old(deemphasis.Stages(0)), tl.o0, tl.o1, tl.o2,
                     deemphasis.Stages(0), dataL[..count])
      ensures Joined(emphasisDisabled, old(deemphasis.Stages(1)), tr.o0, tr.o1, tr.o2,
                     deemphasis.Stages(1), dataR[..count])
      ensures dataL[count..] == old(dataL[count..]) && dataR[count..] == old(dataR[count..])
    {
      hide KernelRun, KernelOf, Sum, Equalised, Ready, Equaliser2.Valid, Equaliser2.Stages, Band.Valid, Band.State;
      CompressBands(dataL, dataR, count);
      tl := xl.(o0 := dataL[..count], o1 := data1L[..count], o2 := data2L[..count]);
      tr := xr.(o0 := dataR[..count], o1 := data1R[..count], o2 := data2R[..count]);
      JoinBands(dataL, dataR, count);
    }

    /** The stages of drc_process. The ghosts tl and tr are the signals of both channels on the way. */
    method ProcessStages(dataL: array<real>, dataR: array<real>, count: nat)
        returns (ghost tl: Signals, ghost tr: Signals)
      requires Valid() && dataL != dataR && dataL !in part && dataR !in part
      requires count <= DRC_PROCESS_MAX_FRAMES && count <= dataL.Length && count <= dataR.Length
      modifies emphasis.biquad, deemphasis.biquad, xo.lp, xo.hp
      modifies low, low.left, low.right, mid, mid.left, mid.right, high, high.left, high.right
      modifies dataL, dataR, data1L, data1R, data2L, data2R
      ensures Valid() && low.enabled == old(low.enabled)
      ensures mid.enabled == old(mid.enabled) && high.enabled == old(high.enabled)
      ensures Entered(emphasisDisabled, old(emphasis.Stages(0)), old(xo.Channel(false)), old(dataL[..count]),
                      emphasis.Stages(0), xo.Channel(false), tl.em, tl.b0, tl.b1, tl.b2)
      ensures Entered(emphasisDisabled, old(emphasis.Stages(1)), old(xo.Channel(true)), old(dataR[..count]),
                      emphasis.Stages(1), xo.Channel(true), tr.em, tr.b0, tr.b1, tr.b2)
      ensures Runs(old(KernelOf(low)), tl.b0, tr.b0, KernelOf(low), tl.o0, tr.o0)
      ensures Runs(old(KernelOf(mid)), tl.b1, tr.b1, KernelOf(mid), tl.o1, tr.o1)
      ensures Runs(old(KernelOf(high)), tl.b2, tr.b2, KernelOf(high), tl.o2, tr.o2)
      ensures Joined(emphasisDisabled, old(deemphasis.Stages(0)), tl.o0, tl.o1, tl.o2,
                     deemphasis.Stages(0), dataL[..count])
      ensures Joined(emphasisDisabled, old(deemphasis.Stages(1)), tr.o0, tr.o1, tr.o2,
                     deemphasis.Stages(1), dataR[..count])
      ensures dataL[count..] == old(dataL[count..]) && dataR[count..] == old(dataR[count..])
    {
      hide Crossover.Bands, Sum, KernelRun, KernelOf, Equalised, Ready, Equaliser2.Valid, Equaliser2.Stages;
      hide Band.Valid, Band.State, Crossover.Stereo.Channel, Runs, Entered, Joined;
      tl, tr := SplitBands(dataL, dataR, count);
      tl, tr := CompressAndJoin(dataL, dataR, count, tl, tr);
    }

    /** drc_process: on both channels and for any mix of enabled kernels, one step of the whole. */
    method Process(dataL: array<real>, dataR: array<real>, count: nat)
      requires Valid() && dataL != dataR && dataL !in part && dataR !in part
      requires count <= DRC_PROCESS_MAX_FRAMES && count <= dataL.Length && count <= dataR.Length
      modifies emphasis.biquad, deemphasis.biquad, xo.lp, xo.hp
      modifies low, low.left, low.right, mid, mid.left, mid.right, high, high.left, high.right
      modifies dataL, dataR, data1L, data1R, data2L, data2R
      ensures Valid() && low.enabled == old(low.enabled)
      ensures mid.enabled == old(mid.enabled) && high.enabled == old(high.enabled)
      ensures (All(), dataL[..count], dataR[..count]) ==
              StepWhole(emphasisDisabled, old(All()), old(dataL[..count]), old(dataR[..count]))
      ensures dataL[count..] == old(dataL[count..]) && dataR[count..] == old(dataR[count..])
    {
      hide Crossover.Bands, Sum, KernelRun, KernelOf, Equalised, Valid, Equaliser2.Stages, Crossover.Stereo.Channel;
      ghost var tl, tr := ProcessStages(dataL, dataR, count);
    }
  }

  /** drc_init. Filter designs, tunings and look-aheads come from the parameters. */
  method DrcInit(roots: real -> (real, real), anchor: real, stageRatio: real, lowpass: real -> Coeffs,
                 highpass: real -> Coeffs, f1: real, f2: real, t0: Tuning, t1: Tuning, t2: Tuning, delay0: nat,
                 delay1: nat, delay2: nat, on0: bool, on1: bool, on2: bool, emphasisDisabled: bool)
      returns (c: Compressor, ghost es: seq<Coeffs>, ghost ds: seq<Coeffs>)
    requires stageRatio != 0.0 && RootsApart(roots, Frequencies(anchor, stageRatio))
    ensures c.Valid() && Inverses(es, ds) && c.low.enabled == on0 && c.mid.enabled == on1 && c.high.enabled == on2
    ensures fresh(c) && (forall o :: o in c.part ==> fresh(o)) && Emphasises(es, roots, anchor, stageRatio)
    ensures c.emphasisDisabled == emphasisDisabled
    ensures var f := Crossover.Design(lowpass, highpass, f1, f2);
            c.All() == Whole(AtRest(es), AtRest(es), Crossover.AtRest(f), Crossover.AtRest(f),
                             Start(t0, on0, c.low.lastPreDelayFrames), Start(t1, on1, c.mid.lastPreDelayFrames),
                             Start(t2, on2, c.high.lastPreDelayFrames), AtRest(ds), AtRest(ds))
    ensures LookAheadFor(delay0, c.low.lastPreDelayFrames) && LookAheadFor(delay1, c.mid.lastPreDelayFrames)
    ensures LookAheadFor(delay2, c.high.lastPreDelayFrames)
    ensures delay0 == delay1 == delay2 ==>
              c.low.lastPreDelayFrames == c.mid.lastPreDelayFrames == c.high.lastPreDelayFrames
  {
    hide Emphasises, LookAheadFor;
    hide Holds, Inverses, AtRest, Crossover.AtRest, Crossover.Design, Crossover.Stereo.Channel, Start, Ready, KernelOf;
    hide Equaliser2.Valid, Equaliser2.Stages, Extends, Band.Valid;
    var em, de, x, k0, k1, k2, b1L, b1R, b2L, b2R;
    ghost var m: map<object, nat>;
    k0, k1, k2, m := NewKernels(t0, t1, t2, delay0, delay1, delay2, on0, on1, on2, map[], 6);
    em, de, x, b1L, b1R, b2L, b2R, es, ds, m :=
      NewFilters(roots, anchor, stageRatio, lowpass, highpass, f1, f2, m);
    c := new Compressor(emphasisDisabled, em, de, x, k0, k1, k2, b1L, b1R, b2L, b2R, m);
  }

  /** Blocks of both channels through drc_process, one after the other. */
  method RunBlocks(c: Compressor, ls: seq<seq<real>>, rs: seq<seq<real>>)
      returns (ol: seq<seq<real>>, orr: seq<seq<real>>)
    requires c.Valid() && SameShape(ls, rs) && forall k :: 0 <= k < |ls| ==> |ls[k]| <= DRC_PROCESS_MAX_FRAMES
    modifies c.emphasis.biquad, c.deemphasis.biquad, c.xo.lp, c.xo.hp, c.data1L, c.data1R, c.data2L, c.data2R
    modifies c.low, c.low.left, c.low.right, c.mid, c.mid.left, c.mid.right, c.high, c.high.left, c.high.right
    ensures c.Valid() && (c.All(), ol, orr) == WholeBlocks(c.emphasisDisabled, old(c.All()), ls, rs)
  {
    hide WholeBlocks, StepWhole, Compressor.All, Compressor.Valid, Sound;
    ghost var off, w := c.emphasisDisabled, c.All();
    ol, orr := [], [];
    NoBlocks(off, w);
    assert ls[..0] == rs[..0] == [];
    for k := 0 to |ls|
      invariant c.Valid() && (c.All(), ol, orr) == WholeBlocks(off, w, ls[..k], rs[..k])
    {
      ghost var l, r := ls[..k + 1], rs[..k + 1];
      LastBlock(off, w, l, r);
      assert l[..k] == ls[..k] && r[..k] == rs[..k];
      var yl, yr := RunBlock(c, ls[k], rs[k]);
      ol, orr := ol + [yl], orr + [yr];
    }
    assert ls[..|ls|] == ls && rs[..|rs|] == rs;
  }

  lemma NoBlocks(off: bool, w: Whole)
    requires Sound(w)
    ensures WholeBlocks(off, w, [], []) == (w, [], [])
  {
  }

  method RunBlock(c: Compressor, xs: seq<real>, ys: seq<real>) returns (ol: seq<real>, orr: seq<real>)
    requires c.Valid() && |xs| == |ys| <= DRC_PROCESS_MAX_FRAMES
    modifies c.emphasis.biquad, c.deemphasis.biquad, c.xo.lp, c.xo.hp, c.data1L, c.data1R, c.data2L, c.data2R
    modifies c.low, c.low.left, c.low.right, c.mid, c.mid.left, c.mid.right, c.high, c.high.left, c.high.right
    ensures c.Valid() && (c.All(), ol, orr) == StepWhole(c.emphasisDisabled, old(c.All()), xs, ys)
  {
    hide StepWhole, Sound, Compressor.All, Compressor.Valid;
    var dataL := new real[|xs|](i requires 0 <= i < |xs| => xs[i]);
    var dataR := new real[|ys|](i requires 0 <= i < |ys| => ys[i]);
    assert dataL[..] == dataL[..|xs|] == xs && dataR[..] == dataR[..|ys|] == ys;
    c.Process(dataL, dataR, |xs|);
    ol, orr := dataL[..|xs|], dataR[..|ys|];
  }

  /** drc_init and then any blocks, all kernels disabled and with one look-ahead request: both channels leave as
      the band sum of their input, delayed by that look-ahead. */
  method RunDisabled(roots: real -> (real, real), anchor: real, stageRatio: real, lowpass: real -> Coeffs,
                     highpass: real -> Coeffs, f1: real, f2: real, t0: Tuning, t1: Tuning, t2: Tuning, delay: nat,
                     emphasisDisabled: bool, ls: seq<seq<real>>, rs: seq<seq<real>>)
      returns (ol: seq<seq<real>>, orr: seq<seq<real>>, ghost d: nat)
    requires stageRatio != 0.0 && RootsApart(roots, Frequencies(anchor, stageRatio))
    requires ls != [] && SameShape(ls, rs) && forall k :: 0 <= k < |ls| ==> |ls[k]| <= DRC_PROCESS_MAX_FRAMES
    ensures LookAheadFor(delay, d)
    ensures Concat(ol) == Shift(d, BandSum(Crossover.Design(lowpass, highpass, f1, f2), Concat(ls)))
    ensures Concat(orr) == Shift(d, BandSum(Crossover.Design(lowpass, highpass, f1, f2), Concat(rs)))
  {
    hide Inverses, AtRest, Shift, BandSum, WholeBlocks, Concat, Compressor.All, Crossover.AtRest, RootsApart;
    hide Compressor.Valid, Crossover.Design, Frequencies, SameShape, Band.Valid;
    ghost var es, ds;
    var c: Compressor;
    c, es, ds := DrcInit(roots, anchor, stageRatio, lowpass, highpass, f1, f2, t0, t1, t2, delay, delay, delay,
                         false, false, false, emphasisDisabled);
    d := c.low.lastPreDelayFrames;
    c.PartsInside();
    DisabledStereo(emphasisDisabled, es, ds, Crossover.Design(lowpass, highpass, f1, f2), d, c.All(), ls, rs);
    ol, orr := RunBlocks(c, ls, rs);
  }

  /** drc_init and then any blocks, with any kernels enabled, any look-aheads and the emphasis on or off. */
  method RunCompressor(roots: real -> (real, real), anchor: real, stageRatio: real, lowpass: real -> Coeffs,
                       highpass: real -> Coeffs, f1: real, f2: real, t0: Tuning, t1: Tuning, t2: Tuning, delay0: nat,
                       delay1: nat, delay2: nat, on0: bool, on1: bool, on2: bool, emphasisDisabled: bool,
                       ls: seq<seq<real>>, rs: seq<seq<real>>)
      returns (ol: seq<seq<real>>, orr: seq<seq<real>>, ghost u: Setup)
    requires stageRatio != 0.0 && RootsApart(roots, Frequencies(anchor, stageRatio))
    requires ls != [] && SameShape(ls, rs) && forall k :: 0 <= k < |ls| ==> |ls[k]| <= DRC_PROCESS_MAX_FRAMES
    ensures Proportioned(u) && u.off == emphasisDisabled && u.f == Crossover.Design(lowpass, highpass, f1, f2)
    ensures Emphasises(u.es, roots, anchor, stageRatio) && Inverses(u.es, u.ds)
    ensures u.low == Part(t0, on0, u.low.d) && u.mid == Part(t1, on1, u.mid.d) && u.high == Part(t2, on2, u.high.d)
    ensures LookAheadFor(delay0, u.low.d) && LookAheadFor(delay1, u.mid.d) && LookAheadFor(delay2, u.high.d)
    ensures |Concat(ls)| == |Concat(rs)|
    ensures Concat(ol) == WholeOutput(u, Concat(ls), Concat(ls), Concat(rs))
    ensures Concat(orr) == WholeOutput(u, Concat(rs), Concat(ls), Concat(rs))
  {
    hide Inverses, AtRest, WholeBlocks, Concat, Compressor.All, Crossover.AtRest, RootsApart, WholeOutput, Emphasises;
    hide Compressor.Valid, Crossover.Design, Frequencies, SameShape, Band.Valid, Start;
    ghost var es, ds;
    var c: Compressor;
    c, es, ds := DrcInit(roots, anchor, stageRatio, lowpass, highpass, f1, f2, t0, t1, t2, delay0, delay1, delay2,
                         on0, on1, on2, emphasisDisabled);
    u := Setup(emphasisDisabled, es, ds, Crossover.Design(lowpass, highpass, f1, f2),
               Part(t0, on0, c.low.lastPreDelayFrames), Part(t1, on1, c.mid.lastPreDelayFrames),
               Part(t2, on2, c.high.lastPreDelayFrames));
    c.PartsInside();
    CompressorLaw(u, ls, rs);
    ol, orr := RunBlocks(c, ls, rs);
  }

  /** init_emphasis_eq, crossover2_init and init_data_buffer. */
  method NewFilters(roots: real -> (real, real), anchor: real, stageRatio: real, lowpass: real -> Coeffs,
                    highpass: real -> Coeffs, f1: real, f2: real, ghost m: map<object, nat>)
      returns (em: Equaliser2, de: Equaliser2, x: Crossover.Stereo, b1L: array<real>, b1R: array<real>,
               b2L: array<real>, b2R: array<real>, ghost es: seq<Coeffs>, ghost ds: seq<Coeffs>,
               ghost m': map<object, nat>)
    requires stageRatio != 0.0 && RootsApart(roots, Frequencies(anchor, stageRatio))
    ensures em.Valid() && de.Valid() && x.Valid() && Inverses(es, ds)
    ensures Emphasises(es, roots, anchor, stageRatio)
    ensures em.Stages(0) == em.Stages(1) == AtRest(es) && de.Stages(0) == de.Stages(1) == AtRest(ds)
    ensures x.Channel(false) == x.Channel(true) == Crossover.AtRest(Crossover.Design(lowpass, highpass, f1, f2))
    ensures b1L.Length == b1R.Length == b2L.Length == b2R.Length == DRC_PROCESS_MAX_FRAMES
    ensures forall o :: o in m ==> o in m' && m'[o] == m[o]
    ensures forall o :: o in m' ==> o in m || fresh(o)
    ensures em in m' && m'[em] == 0 && em.biquad in m' && m'[em.biquad] == 1
    ensures de in m' && m'[de] == 2 && de.biquad in m' && m'[de.biquad] == 3
    ensures x.lp in m' && m'[x.lp] == 4 && x.hp in m' && m'[x.hp] == 5
    ensures b1L in m' && m'[b1L] == 15 && b1R in m' && m'[b1R] == 16
    ensures b2L in m' && m'[b2L] == 17 && b2R in m' && m'[b2R] == 18
  {
    hide Emphasises;
    hide Holds, Inverses, AtRest, Crossover.AtRest, Crossover.Design, Crossover.Stereo.Channel;
    hide Equaliser2.Valid, Equaliser2.Stages;
    b1L, b1R, b2L, b2R, m' := NewBuffers(m, 15);
    x, m' := NewCrossover(lowpass, highpass, f1, f2, m', 4);
    em, de, es, ds := InitEmphasisEq(roots, anchor, stageRatio);
    m' := m'[em := 0][em.biquad := 1][de := 2][de.biquad := 3];
    StagesHeld(em, es);
    StagesHeld(de, ds);
  }
}
