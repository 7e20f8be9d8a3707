/** The three-band crossover, mono (dsp/crossover.c) and stereo (dsp/crossover2.c, portable loops).
    Every band filter is a fourth-order section: the same biquad twice, sharing the middle history. */
module Crossover {
  import opened Biquads

  datatype Lr4 = Lr4(c: Coeffs, x1: real, x2: real, y1: real, y2: real, z1: real, z2: real)

  /** One sample through a fourth-order section. */
  function Lr4Step(q: Lr4, x: real): (Lr4, real) {
    var y := Tap(q.c, x, History(q.x1, q.x2, q.y1, q.y2));
    var z := Tap(q.c, y, History(q.y1, q.y2, q.z1, q.z2));
    (Lr4(q.c, x, q.x1, y, q.y1, z, q.z1), z)
  }

  function Lr4Filter(q: Lr4, xs: seq<real>): (r: (Lr4, seq<real>))
    ensures |r.1| == |xs|
  {
    if xs == [] then (q, []) else
      var (q', zs) := Lr4Filter(q, xs[..|xs| - 1]);
      var (q'', z) := Lr4Step(q', xs[|xs| - 1]);
      (q'', zs + [z])
  }

  lemma Lr4Snoc(q: Lr4, xs: seq<real>, x: real)
    ensures var (q', zs) := Lr4Filter(q, xs);
            var (q'', z) := Lr4Step(q', x);
            Lr4Filter(q, xs + [x]) == (q'', zs + [z])
  {
    assert (xs + [x])[..|xs|] == xs;
  }

  /** The two biquad sections a fourth-order section stands for. */
  function Sections(q: Lr4): seq<Biquad> {
    [Biquad(q.c, History(q.x1, q.x2, q.y1, q.y2)), Biquad(q.c, History(q.y1, q.y2, q.z1, q.z2))]
  }

  /** A fourth-order section is the biquad chained with itself, samples and histories alike. */
  lemma {:induction false} Lr4IsBiquadTwice(q: Lr4, xs: seq<real>)
    ensures var (q', zs) := Lr4Filter(q, xs);
            Chain(Sections(q), xs) == (Sections(q'), zs)
    decreases |xs|
  {
    if xs == [] {
      ChainOfNothing(Sections(q));
    } else {
      var front, x := xs[..|xs| - 1], xs[|xs| - 1];
      Lr4IsBiquadTwice(q, front);
      ChainSnocSample(Sections(q), front, x);
      assert front + [x] == xs;
      TwoSteps(Lr4Filter(q, front).0, x);
    }
  }

  lemma TwoSteps(q: Lr4, x: real)
    ensures CascadeStep(Sections(q), x) == (Sections(Lr4Step(q, x).0), Lr4Step(q, x).1)
  {
    var s := Sections(q);
    assert s[..1] == [s[0]] && [s[0]][..0] == [];
    var y := Output(s[0], x);
    assert [] + [Advance(s[0], x, y)] == [Advance(s[0], x, y)];
    assert CascadeStep([s[0]], x) == ([Advance(s[0], x, y)], y);
    var z := Output(s[1], y);
    assert [Advance(s[0], x, y)] + [Advance(s[1], y, z)] == [Advance(s[0], x, y), Advance(s[1], y, z)];
  }

  lemma {:induction false} Lr4Split(q: Lr4, a: seq<real>, b: seq<real>)
    ensures var (q', zs) := Lr4Filter(q, a);
            var (q'', ws) := Lr4Filter(q', b);
            Lr4Filter(q, a + b) == (q'', zs + ws)
    decreases |b|
  {
    var (q', zs) := Lr4Filter(q, a);
    if b == [] {
      assert a + b == a && zs + [] == zs;
    } else {
      var front, x := b[..|b| - 1], b[|b| - 1];
      Lr4Split(q, a, front);
      assert a + b == (a + front) + [x];
      Lr4Snoc(q, a + front, x);
      var (q1, ws1) := Lr4Filter(q', front);
      assert zs + (ws1 + [Lr4Step(q1, x).1]) == (zs + ws1) + [Lr4Step(q1, x).1];
    }
  }

  /** The six sections of one channel of a crossover. */
  datatype State = State(lp: seq<Lr4>, hp: seq<Lr4>)

  ghost predicate Complete(s: State) {
    |s.lp| == 3 && |s.hp| == 3
  }

  /** A section lr4_set has cleared. */
  function Rest4(c: Coeffs): Lr4 {
    Lr4(c, 0.0, 0.0, 0.0, 0.0, 0.0, 0.0)
  }

  /** The coefficients of a crossover, low-pass and high-pass. */
  datatype Filters = Filters(lp: seq<Coeffs>, hp: seq<Coeffs>)

  function AtRest(f: Filters): (s: State)
    requires |f.lp| == |f.hp| == 3
    ensures |s.lp| == |s.hp| == 3
  {
    State([Rest4(f.lp[0]), Rest4(f.lp[1]), Rest4(f.lp[2])], [Rest4(f.hp[0]), Rest4(f.hp[1]), Rest4(f.hp[2])])
  }

  /** The first filter pair of a crossover splits at the lower frequency, the others at the upper one. */
  function Design(lowpass: real -> Coeffs, highpass: real -> Coeffs, f1: real, f2: real): (f: Filters)
    ensures |f.lp| == |f.hp| == 3
    ensures forall i :: 0 <= i < 3 ==>
              f.lp[i] == lowpass(if i == 0 then f1 else f2) && f.hp[i] == highpass(if i == 0 then f1 else f2)
  {
    Filters([lowpass(f1), lowpass(f2), lowpass(f2)], [highpass(f1), highpass(f2), highpass(f2)])
  }

  /** What a crossover does to one channel: split at the first frequency, run the low band through
      both filters of the second and add them, split the high band there. */
  function Bands(s: State, xs: seq<real>): (r: (State, seq<real>, seq<real>, seq<real>))
    requires |s.lp| == 3 && |s.hp| == 3
    ensures |r.0.lp| == 3 && |r.0.hp| == 3
    ensures |r.1| == |r.2| == |r.3| == |xs|
  {
    var (l0, low) := Lr4Filter(s.lp[0], xs);
    var (h0, high) := Lr4Filter(s.hp[0], xs);
    var (l1, lowA) := Lr4Filter(s.lp[1], low);
    var (h1, lowB) := Lr4Filter(s.hp[1], low);
    var (l2, mid) := Lr4Filter(s.lp[2], high);
    var (h2, top) := Lr4Filter(s.hp[2], high);
    (State([l0, l1, l2], [h0, h1, h2]), Sum(lowA, lowB), mid, top)
  }

  /** Three bands of a + b are the bands of a followed by the bands of b. */
  lemma BandsSplit(s: State, a: seq<real>, b: seq<real>)
    requires Complete(s)
    ensures var (s', a0, a1, a2) := Bands(s, a);
            var (s'', b0, b1, b2) := Bands(s', b);
            Bands(s, a + b) == (s'', a0 + b0, a1 + b1, a2 + b2)
  {
    hide Lr4Filter, Sum;
    Lr4Split(s.lp[0], a, b);
    Lr4Split(s.hp[0], a, b);
    var la, ha := Lr4Filter(s.lp[0], a).1, Lr4Filter(s.hp[0], a).1;
    var lb, hb := Lr4Filter(Lr4Filter(s.lp[0], a).0, b).1, Lr4Filter(Lr4Filter(s.hp[0], a).0, b).1;
    Lr4Split(s.lp[1], la, lb);
    Lr4Split(s.hp[1], la, lb);
    Lr4Split(s.lp[2], ha, hb);
    Lr4Split(s.hp[2], ha, hb);
    var (l1, lowA) := Lr4Filter(s.lp[1], la);
    var (h1, lowB) := Lr4Filter(s.hp[1], la);
    SumAppend(lowA, lowB, Lr4Filter(l1, lb).1, Lr4Filter(h1, lb).1);
  }

  /** Both outputs of lr4_split for one channel, in place. */
  method Split(lp: array<Lr4>, hp: array<Lr4>, k: nat, count: nat, data0: array<real>, data1: array<real>)
    requires lp != hp && k < lp.Length == hp.Length
    requires data0 != data1 && count <= data0.Length && count <= data1.Length
    modifies lp, hp, data0, data1
    ensures var (l, low) := Lr4Filter(old(lp[k]), old(data0[..count]));
            var (h, high) := Lr4Filter(old(hp[k]), old(data0[..count]));
            && lp[..] == old(lp[..])[k := l] && hp[..] == old(hp[..])[k := h]
            && data0[..count] == low && data0[count..] == old(data0[count..])
            && data1[..count] == high && data1[count..] == old(data1[count..])
  {
    ghost var xs := data0[..count];
    var l, h := lp[k], hp[k];
    for i := 0 to count
      invariant Lr4Filter(old(lp[k]), xs[..i]) == (l, data0[..i])
      invariant Lr4Filter(old(hp[k]), xs[..i]) == (h, data1[..i])
      invariant data0[i..] == old(data0[i..]) && data1[i..] == old(data1[i..])
      invariant lp[..] == old(lp[..]) && hp[..] == old(hp[..])
    {
      hide Lr4Step;
      var x := data0[i];
      assert data0[i..][0] == xs[i];
      assert xs[..i + 1] == xs[..i] + [x];
      Lr4Snoc(old(lp[k]), xs[..i], x);
      Lr4Snoc(old(hp[k]), xs[..i], x);
      var (l', zl) := Lr4Step(l, x);
      l := l';
      Put(data0, i, zl);
      var (h', zh) := Lr4Step(h, x);
      h := h';
      Put(data1, i, zh);
    }
    assert xs[..count] == xs;
    lp[k], hp[k] := l, h;
  }

  /** lr4_merge: both filters over one signal, their outputs added in place. */
  method Merge(lp: array<Lr4>, hp: array<Lr4>, k: nat, count: nat, data: array<real>)
    requires lp != hp && k < lp.Length == hp.Length
    requires count <= data.Length
    modifies lp, hp, data
    ensures var (l, low) := Lr4Filter(old(lp[k]), old(data[..count]));
            var (h, high) := Lr4Filter(old(hp[k]), old(data[..count]));
            && lp[..] == old(lp[..])[k := l] && hp[..] == old(hp[..])[k := h]
            && data[..count] == Sum(low, high) && data[count..] == old(data[count..])
  {
    ghost var xs := data[..count];
    var l, h := lp[k], hp[k];
    for i := 0 to count
      invariant Lr4Filter(old(lp[k]), xs[..i]).0 == l && Lr4Filter(old(hp[k]), xs[..i]).0 == h
      invariant data[..i] == Sum(Lr4Filter(old(lp[k]), xs[..i]).1, Lr4Filter(old(hp[k]), xs[..i]).1)
      invariant data[i..] == old(data[i..])
      invariant lp[..] == old(lp[..]) && hp[..] == old(hp[..])
    {
      hide Lr4Step, Sum;
      var x := data[i];
      assert data[i..][0] == xs[i];
      assert xs[..i + 1] == xs[..i] + [x];
      Lr4Snoc(old(lp[k]), xs[..i], x);
      Lr4Snoc(old(hp[k]), xs[..i], x);
      var (l', zl) := Lr4Step(l, x);
      var (h', zh) := Lr4Step(h, x);
      SumSnoc(Lr4Filter(old(lp[k]), xs[..i]).1, Lr4Filter(old(hp[k]), xs[..i]).1, zl, zh);
      l, h := l', h';
      Put(data, i, zh + zl);
    }
    assert xs[..count] == xs;
    lp[k], hp[k] := l, h;
  }

  /** struct crossover: one channel. */
  class Mono {
    const lp: array<Lr4>
    const hp: array<Lr4>

    ghost predicate Valid() {
      lp.Length == 3 && hp.Length == 3 && lp != hp
    }

    ghost function Channel(): (s: State)
      requires Valid()
      reads lp, hp
      ensures Complete(s)
    {
      State(lp[..], hp[..])
    }

    /** crossover_init. */
    constructor (lowpass: real -> Coeffs, highpass: real -> Coeffs, f1: real, f2: real)
      ensures Valid() && fresh(lp) && fresh(hp) && Channel() == AtRest(Design(lowpass, highpass, f1, f2))
      ensures forall i :: 0 <= i < 3 ==>
                && lp[i] == Rest4(lowpass(if i == 0 then f1 else f2))
                && hp[i] == Rest4(highpass(if i == 0 then f1 else f2))
    {
      var l := new Lr4[3](_ => Rest4(lowpass(f2)));
      var h := new Lr4[3](_ => Rest4(highpass(f2)));
      l[0], h[0] := Rest4(lowpass(f1)), Rest4(highpass(f1));
      lp, hp := l, h;
    }

    /** crossover_process. */
    method Process(count: nat, data0: array<real>, data1: array<real>, data2: array<real>)
      requires Valid() && data0 != data1 && data0 != data2 && data1 != data2
      requires count <= data0.Length && count <= data1.Length && count <= data2.Length
      modifies lp, hp, data0, data1, data2
      ensures (Channel(), data0[..count], data1[..count], data2[..count]) ==
              Bands(old(Channel()), old(data0[..count]))
      ensures data0[count..] == old(data0[count..]) && data1[count..] == old(data1[count..])
      ensures data2[count..] == old(data2[count..])
    {
      hide Lr4Filter, Sum;
      ghost var s, xs := Channel(), data0[..count];
      Split(lp, hp, 0, count, data0, data1);
      assert data0[..count] == Lr4Filter(s.lp[0], xs).1 && data1[..count] == Lr4Filter(s.hp[0], xs).1;
      Merge(lp, hp, 1, count, data0);
      Split(lp, hp, 2, count, data1, data2);
      assert lp[..] == Bands(s, xs).0.lp && hp[..] == Bands(s, xs).0.hp;
    }
  }

  /** struct lr42: one set of coefficients, a history for each channel. */
  datatype Lr42 = Lr42(left: Lr4, right: Lr4)

  function Side(s: seq<Lr42>, right: bool): (r: seq<Lr4>)
    ensures |r| == |s|
  {
    seq(|s|, i requires 0 <= i < |s| => if right then s[i].right else s[i].left)
  }

  /** lr42_split: both channels, low and high band, in one loop. */
  method Split2(lp: array<Lr42>, hp: array<Lr42>, k: nat, count: nat,
                data0L: array<real>, data0R: array<real>, data1L: array<real>, data1R: array<real>)
    requires lp != hp && k < lp.Length == hp.Length
    requires data0L != data0R && data0L != data1L && data0L != data1R
    requires data0R != data1L && data0R != data1R && data1L != data1R
    requires count <= data0L.Length && count <= data0R.Length && count <= data1L.Length && count <= data1R.Length
    modifies lp, hp, data0L, data0R, data1L, data1R
    ensures (lp[k].left, data0L[..count]) == Lr4Filter(old(lp[k].left), old(data0L[..count]))
    ensures (lp[k].right, data0R[..count]) == Lr4Filter(old(lp[k].right), old(data0R[..count]))
    ensures (hp[k].left, data1L[..count]) == Lr4Filter(old(hp[k].left), old(data0L[..count]))
    ensures (hp[k].right, data1R[..count]) == Lr4Filter(old(hp[k].right), old(data0R[..count]))
    ensures forall i :: 0 <= i < lp.Length && i != k ==> lp[i] == old(lp[i]) && hp[i] == old(hp[i])
    ensures data0L[count..] == old(data0L[count..]) && data0R[count..] == old(data0R[count..])
    ensures data1L[count..] == old(data1L[count..]) && data1R[count..] == old(data1R[count..])
  {
    hide Lr4Step, Lr4Filter;
    ghost var xsL, xsR := data0L[..count], data0R[..count];
    var lL, lR, hL, hR := lp[k].left, lp[k].right, hp[k].left, hp[k].right;
    ghost var l0, r0, g0, s0 := lL, lR, hL, hR;
    Nothing4(l0, r0, g0, s0);
    for i := 0 to count
      invariant Lr4Filter(l0, xsL[..i]) == (lL, data0L[..i]) && Lr4Filter(r0, xsR[..i]) == (lR, data0R[..i])
      invariant Lr4Filter(g0, xsL[..i]) == (hL, data1L[..i]) && Lr4Filter(s0, xsR[..i]) == (hR, data1R[..i])
      invariant data0L[i..] == old(data0L[i..]) && data0R[i..] == old(data0R[i..])
      invariant data1L[i..] == old(data1L[i..]) && data1R[i..] == old(data1R[i..])
      modifies data0L, data0R, data1L, data1R
    {
      var xL, xR := data0L[i], data0R[i];
      assert data0L[i..][0] == xsL[i] && data0R[i..][0] == xsR[i];
      Extend(l0, xsL, i);
      Extend(r0, xsR, i);
      Extend(g0, xsL, i);
      Extend(s0, xsR, i);
      var (lL', zlL) := Lr4Step(lL, xL);
      var (lR', zlR) := Lr4Step(lR, xR);
      var (hL', zhL) := Lr4Step(hL, xL);
      var (hR', zhR) := Lr4Step(hR, xR);
      lL, lR, hL, hR := lL', lR', hL', hR';
      Put(data0L, i, zlL);
      Put(data0R, i, zlR);
      Put(data1L, i, zhL);
      Put(data1R, i, zhR);
    }
    assert xsL[..count] == xsL && xsR[..count] == xsR;
    lp[k], hp[k] := Lr42(lL, lR), Lr42(hL, hR);
  }

  lemma Extend(q: Lr4, xs: seq<real>, i: nat)
    requires i < |xs|
    ensures var (q', zs) := Lr4Filter(q, xs[..i]);
            var (q'', z) := Lr4Step(q', xs[i]);
            Lr4Filter(q, xs[..i + 1]) == (q'', zs + [z])
  {
    assert xs[..i + 1] == xs[..i] + [xs[i]];
    Lr4Snoc(q, xs[..i], xs[i]);
  }

  lemma Nothing4(a: Lr4, b: Lr4, c: Lr4, d: Lr4)
    ensures Lr4Filter(a, []) == (a, []) && Lr4Filter(b, []) == (b, [])
    ensures Lr4Filter(c, []) == (c, []) && Lr4Filter(d, []) == (d, [])
  {
  }

  /** lr42_merge. */
  method Merge2(lp: array<Lr42>, hp: array<Lr42>, k: nat, count: nat, dataL: array<real>, dataR: array<real>)
    requires lp != hp && k < lp.Length == hp.Length
    requires dataL != dataR && count <= dataL.Length && count <= dataR.Length
    modifies lp, hp, dataL, dataR
    ensures forall i :: 0 <= i < lp.Length && i != k ==> lp[i] == old(lp[i]) && hp[i] == old(hp[i])
    ensures var (lL, lowL) := Lr4Filter(old(lp[k].left), old(dataL[..count]));
            var (lR, lowR) := Lr4Filter(old(lp[k].right), old(dataR[..count]));
            var (hL, highL) := Lr4Filter(old(hp[k].left), old(dataL[..count]));
            var (hR, highR) := Lr4Filter(old(hp[k].right), old(dataR[..count]));
            && lp[k] == Lr42(lL, lR) && hp[k] == Lr42(hL, hR)
            && dataL[..count] == Sum(lowL, highL) && dataL[count..] == old(dataL[count..])
            && dataR[..count] == Sum(lowR, highR) && dataR[count..] == old(dataR[count..])
  {
    hide Lr4Step, Lr4Filter;
    ghost var xsL, xsR := dataL[..count], dataR[..count];
    ghost var lowL: seq<real>, lowR: seq<real>, highL: seq<real>, highR: seq<real> := [], [], [], [];
    var lL, lR, hL, hR := lp[k].left, lp[k].right, hp[k].left, hp[k].right;
    ghost var l0, r0, g0, s0 := lL, lR, hL, hR;
    Nothing4(l0, r0, g0, s0);
    for i := 0 to count
      invariant Lr4Filter(l0, xsL[..i]) == (lL, lowL) && Lr4Filter(r0, xsR[..i]) == (lR, lowR)
      invariant Lr4Filter(g0, xsL[..i]) == (hL, highL) && Lr4Filter(s0, xsR[..i]) == (hR, highR)
      invariant dataL[..i] == Sum(lowL, highL) && dataR[..i] == Sum(lowR, highR)
      invariant dataL[i..] == old(dataL[i..]) && dataR[i..] == old(dataR[i..])
      invariant forall j :: 0 <= j < lp.Length ==> lp[j] == old(lp[j]) && hp[j] == old(hp[j])
    {
      hide Sum;
      var xL, xR := dataL[i], dataR[i];
      assert dataL[i..][0] == xsL[i] && dataR[i..][0] == xsR[i];
      Extend(l0, xsL, i);
      Extend(r0, xsR, i);
      Extend(g0, xsL, i);
      Extend(s0, xsR, i);
      var (lL', zlL) := Lr4Step(lL, xL);
      var (lR', zlR) := Lr4Step(lR, xR);
      var (hL', zhL) := Lr4Step(hL, xL);
      var (hR', zhR) := Lr4Step(hR, xR);
      SumSnoc(lowL, highL, zlL, zhL);
      SumSnoc(lowR, highR, zlR, zhR);
      lowL, lowR, highL, highR := lowL + [zlL], lowR + [zlR], highL + [zhL], highR + [zhR];
      lL, lR, hL, hR := lL', lR', hL', hR';
      Put(dataL, i, zhL + zlL);
      Put(dataR, i, zhR + zlR);
    }
    assert xsL[..count] == xsL && xsR[..count] == xsR;
    lp[k], hp[k] := Lr42(lL, lR), Lr42(hL, hR);
  }

  /** struct crossover2: both channels. */
  class Stereo {
    const lp: array<Lr42>
    const hp: array<Lr42>

    ghost predicate Valid() {
      lp.Length == 3 && hp.Length == 3 && lp != hp
    }

    ghost function Channel(right: bool): (s: State)
      requires Valid()
      reads lp, hp
      ensures Complete(s)
    {
      State(Side(lp[..], right), Side(hp[..], right))
    }

    /** crossover2_init: both channels alike. */
    constructor (lowpass: real -> Coeffs, highpass: real -> Coeffs, f1: real, f2: real)
      ensures Valid() && fresh(lp) && fresh(hp)
      ensures Channel(false) == Channel(true) == AtRest(Design(lowpass, highpass, f1, f2))
      ensures forall i :: 0 <= i < 3 ==>
                && lp[i].left == lp[i].right == Rest4(lowpass(if i == 0 then f1 else f2))
                && hp[i].left == hp[i].right == Rest4(highpass(if i == 0 then f1 else f2))
    {
      var low, high := lowpass, highpass;
      var l := new Lr42[3](_ => Lr42(Rest4(low(f2)), Rest4(low(f2))));
      var h := new Lr42[3](_ => Lr42(Rest4(high(f2)), Rest4(high(f2))));
      l[0] := Lr42(Rest4(low(f1)), Rest4(low(f1)));
      h[0] := Lr42(Rest4(high(f1)), Rest4(high(f1)));
      lp, hp := l, h;
      new;
      SideOfThree(lp[..], hp[..], false);
      SideOfThree(lp[..], hp[..], true);
    }

    /** crossover2_process: on each channel, exactly what the mono crossover does. */
    method Process(count: nat, data0L: array<real>, data0R: array<real>, data1L: array<real>,
                   data1R: array<real>, data2L: array<real>, data2R: array<real>)
      requires Valid()
      requires data0L != data0R && data0L != data1L && data0L != data1R && data0L != data2L && data0L != data2R
      requires data0R != data1L && data0R != data1R && data0R != data2L && data0R != data2R
      requires data1L != data1R && data1L != data2L && data1L != data2R
      requires data1R != data2L && data1R != data2R && data2L != data2R
      requires count <= data0L.Length && count <= data0R.Length && count <= data1L.Length
      requires count <= data1R.Length && count <= data2L.Length && count <= data2R.Length
      modifies lp, hp, data0L, data0R, data1L, data1R, data2L, data2R
      ensures (Channel(false), data0L[..count], data1L[..count], data2L[..count]) ==
              Bands(old(Channel(false)), old(data0L[..count]))
      ensures (Channel(true), data0R[..count], data1R[..count], data2R[..count]) ==
              Bands(old(Channel(true)), old(data0R[..count]))
      ensures data0L[count..] == old(data0L[count..]) && data0R[count..] == old(data0R[count..])
    {
      if count == 0 {
        NoSamples(Channel(false));
        NoSamples(Channel(true));
        return;
      }
      hide Lr4Filter, Sum, Side;
      SideOfThree(lp[..], hp[..], false);
      SideOfThree(lp[..], hp[..], true);
      Split2(lp, hp, 0, count, data0L, data0R, data1L, data1R);
      Merge2(lp, hp, 1, count, data0L, data0R);
      Split2(lp, hp, 2, count, data1L, data1R, data2L, data2R);
      SideOfThree(lp[..], hp[..], false);
      SideOfThree(lp[..], hp[..], true);
    }
  }

  lemma SideOfThree(lp: seq<Lr42>, hp: seq<Lr42>, right: bool)
    requires |lp| == |hp| == 3
    ensures State(Side(lp, right), Side(hp, right)) ==
            if right then State([lp[0].right, lp[1].right, lp[2].right], [hp[0].right, hp[1].right, hp[2].right])
            else State([lp[0].left, lp[1].left, lp[2].left], [hp[0].left, hp[1].left, hp[2].left])
  {
  }

  lemma NoSamples(s: State)
    requires Complete(s)
    ensures Bands(s, []) == (s, [], [], [])
  {
    assert s == State([s.lp[0], s.lp[1], s.lp[2]], [s.hp[0], s.hp[1], s.hp[2]]);
  }
}
