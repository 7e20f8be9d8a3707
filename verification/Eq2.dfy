/** The two-channel equaliser (dsp/eq2.c, portable loop). Both channels share one stage count in the
    loop; a channel with fewer stages is padded with identity sections. */
module Eq2 {
  import opened Biquads

  const MAX_BIQUADS_PER_EQ2 := 10

  datatype Stereo = Stereo(left: Biquad, right: Biquad)

  function Channel(s: Stereo, ch: int): Biquad {
    if ch == 0 then s.left else s.right
  }

  function Column(s: seq<Stereo>, ch: int): (qs: seq<Biquad>)
    ensures |qs| == |s|
  {
    seq(|s|, i requires 0 <= i < |s| => Channel(s[i], ch))
  }

  /** Identity sections at the end of a chain change no sample. */
  lemma {:induction false} IdentityTail(qs: seq<Biquad>, ids: seq<Biquad>, xs: seq<real>)
    requires forall i :: 0 <= i < |ids| ==> ids[i].c == IDENTITY
    ensures var (qs', ys) := Chain(qs, xs);
            var (rs, zs) := Chain(qs + ids, xs);
            && zs == ys && rs[..|qs|] == qs'
            && forall i :: |qs| <= i < |rs| ==> rs[i].c == IDENTITY
    decreases |ids|
  {
    if ids == [] {
      assert qs + ids == qs;
    } else {
      var front, q := ids[..|ids| - 1], ids[|ids| - 1];
      IdentityTail(qs, front, xs);
      assert qs + ids == (qs + front) + [q];
      ChainSnocStage(qs + front, q, xs);
      IdentityFilter(q, Chain(qs, xs).1);
    }
  }

  lemma {:induction false} IdentityFilter(q: Biquad, xs: seq<real>)
    requires q.c == IDENTITY
    ensures Filter(q, xs).1 == xs
    decreases |xs|
  {
    if xs != [] {
      IdentityFilter(q, xs[..|xs| - 1]);
      assert xs[..|xs| - 1] + [xs[|xs| - 1]] == xs;
    }
  }

  /** struct eq2. */
  class Equaliser2 {
    var n0: nat
    var n1: nat
    const biquad: array<Stereo>

    ghost predicate Valid()
      reads this, biquad
    {
      && biquad.Length == MAX_BIQUADS_PER_EQ2 && n0 <= MAX_BIQUADS_PER_EQ2 && n1 <= MAX_BIQUADS_PER_EQ2
      && (forall i :: n0 <= i < MAX_BIQUADS_PER_EQ2 ==> biquad[i].left.c == IDENTITY)
      && (forall i :: n1 <= i < MAX_BIQUADS_PER_EQ2 ==> biquad[i].right.c == IDENTITY)
    }

    function Count(ch: int): nat
      reads this
    {
      if ch == 0 then n0 else n1
    }

    /** The stages appended to a channel. */
    ghost function Stages(ch: int): seq<Biquad>
      requires Valid()
      reads this, biquad
    {
      Column(biquad[..Count(ch)], ch)
    }

    /** eq2_new: every slot starts as an identity filter. */
    constructor ()
      ensures Valid() && fresh(biquad)
      ensures Stages(0) == [] && Stages(1) == []
    {
      n0, n1 := 0, 0;
      biquad := new Stereo[MAX_BIQUADS_PER_EQ2](_ => Stereo(Fresh(IDENTITY), Fresh(IDENTITY)));
    }

    /** eq2_append_biquad_direct. */
    method AppendDirect(ch: int, q: Biquad) returns (rc: int)
      requires Valid() && 0 <= ch < 2
      modifies this, biquad
      ensures Valid()
      ensures rc == if old(Count(ch)) < MAX_BIQUADS_PER_EQ2 then 0 else -1
      ensures Stages(ch) == if rc == 0 then old(Stages(ch)) + [q] else old(Stages(ch))
      ensures Stages(1 - ch) == old(Stages(1 - ch))
    {
      var k := Count(ch);
      if k >= MAX_BIQUADS_PER_EQ2 {
        return -1;
      }
      if ch == 0 {
        biquad[k] := biquad[k].(left := q);
        n0 := n0 + 1;
      } else {
        biquad[k] := biquad[k].(right := q);
        n1 := n1 + 1;
      }
      return 0;
    }

    /** eq2_process_one: stage i over both channels in one loop. */
    method ProcessOne(i: nat, data0: array<real>, data1: array<real>, count: nat)
      requires biquad.Length == MAX_BIQUADS_PER_EQ2 && i < MAX_BIQUADS_PER_EQ2
      requires count <= data0.Length && count <= data1.Length
      requires data0 != data1 && data0 != biquad as object && data1 != biquad as object
      modifies biquad, data0, data1
      ensures var (ql, ls) := Filter(old(biquad[i].left), old(data0[..count]));
              var (qr, rs) := Filter(old(biquad[i].right), old(data1[..count]));
              biquad[i] == Stereo(ql, qr) && data0[..count] == ls && data1[..count] == rs
      ensures biquad[..i] == old(biquad[..i]) && biquad[i + 1..] == old(biquad[i + 1..])
      ensures data0[count..] == old(data0[count..]) && data1[count..] == old(data1[count..])
    {
      hide Tap, Filter;
      ghost var xls, xrs := data0[..count], data1[..count];
      var ql, qr := biquad[i].left, biquad[i].right;
      var hl, hr := ql.h, qr.h;
      FilterNothing(ql);
      FilterNothing(qr);
      for j := 0 to count
        invariant Filter(ql, xls[..j]) == (Biquad(ql.c, hl), data0[..j])
        invariant Filter(qr, xrs[..j]) == (Biquad(qr.c, hr), data1[..j])
        invariant data0[j..] == old(data0[j..]) && data1[j..] == old(data1[j..])
        modifies data0, data1
      {
        var xl, xr := data0[j], data1[j];
        assert data0[j..][0] == xls[j] && data1[j..][0] == xrs[j];
        FilterExtend(ql, xls, j);
        FilterExtend(qr, xrs, j);
        var yl := Tap(ql.c, xl, hl);
        hl := History(xl, hl.x1, yl, hl.y1);
        var yr := Tap(qr.c, xr, hr);
        hr := History(xr, hr.x1, yr, hr.y1);
        Put(data0, j, yl);
        Put(data1, j, yr);
      }
      assert xls[..count] == xls && xrs[..count] == xrs;
      biquad[i] := Stereo(Biquad(ql.c, hl), Biquad(qr.c, hr));
    }

    /** eq2_process: each channel gets exactly its own chain, whatever the other channel's length. */
    method Process(data0: array<real>, data1: array<real>, count: nat)
      requires Valid() && count <= data0.Length && count <= data1.Length
      requires data0 != data1 && data0 != biquad as object && data1 != biquad as object
      modifies biquad, data0, data1
      ensures Valid()
      ensures (Stages(0), data0[..count]) == Chain(old(Stages(0)), old(data0[..count]))
      ensures (Stages(1), data1[..count]) == Chain(old(Stages(1)), old(data1[..count]))
      ensures data0[count..] == old(data0[count..]) && data1[count..] == old(data1[count..])
    {
      hide Chain;
      ghost var xs0, xs1, s := data0[..count], data1[..count], biquad[..];
      if count == 0 {
        ChainOfNothing(Stages(0));
        ChainOfNothing(Stages(1));
        return;
      }
      var n := n0;
      if n1 > n {
        n := n1;
      }
      ProcessSlots(n, data0, data1, count);
      Padding(s, biquad[..], n0, n, 0, xs0);
      Padding(s, biquad[..], n1, n, 1, xs1);
      assert forall i :: n0 <= i < MAX_BIQUADS_PER_EQ2 ==> biquad[i].left.c == Channel(biquad[..][i], 0).c;
      assert forall i :: n1 <= i < MAX_BIQUADS_PER_EQ2 ==> biquad[i].right.c == Channel(biquad[..][i], 1).c;
      assert biquad[..][..n0] == biquad[..n0] && biquad[..][..n1] == biquad[..n1];
      assert s[..n0] == old(biquad[..n0]) && s[..n1] == old(biquad[..n1]);
    }

    /** The loop of eq2_process over the first n slots. */
    method ProcessSlots(n: nat, data0: array<real>, data1: array<real>, count: nat)
      requires biquad.Length == MAX_BIQUADS_PER_EQ2 && n <= MAX_BIQUADS_PER_EQ2
      requires count <= data0.Length && count <= data1.Length
      requires data0 != data1 && data0 != biquad as object && data1 != biquad as object
      modifies biquad, data0, data1
      ensures (Column(biquad[..n], 0), data0[..count]) == Chain(Column(old(biquad[..n]), 0), old(data0[..count]))
      ensures (Column(biquad[..n], 1), data1[..count]) == Chain(Column(old(biquad[..n]), 1), old(data1[..count]))
      ensures biquad[n..] == old(biquad[n..])
      ensures data0[count..] == old(data0[count..]) && data1[count..] == old(data1[count..])
    {
      hide Chain, Filter, Column;
      ghost var xs0, xs1, s := data0[..count], data1[..count], biquad[..];
      StagesOfNothing(xs0, xs1);
      for i := 0 to n
        invariant (Column(biquad[..i], 0), data0[..count]) == Chain(Column(s[..i], 0), xs0)
        invariant (Column(biquad[..i], 1), data1[..count]) == Chain(Column(s[..i], 1), xs1)
        invariant biquad[i..] == s[i..]
        invariant data0[count..] == old(data0[count..]) && data1[count..] == old(data1[count..])
      {
        ghost var before := biquad[..i];
        assert biquad[i..][0] == s[i];
        ColumnSnoc(s, i, 0);
        ColumnSnoc(s, i, 1);
        ChainSnocStage(Column(s[..i], 0), s[i].left, xs0);
        ChainSnocStage(Column(s[..i], 1), s[i].right, xs1);
        ProcessOne(i, data0, data1, count);
        assert biquad[..][..i] == before;
        assert biquad[..][..i + 1] == biquad[..i + 1];
        ColumnSnoc(biquad[..], i, 0);
        ColumnSnoc(biquad[..], i, 1);
      }
      assert s[..n] == old(biquad[..n]);
    }
  }

  lemma ColumnSnoc(s: seq<Stereo>, i: nat, ch: int)
    requires i < |s|
    ensures Column(s[..i + 1], ch) == Column(s[..i], ch) + [Channel(s[i], ch)]
  {
  }

  lemma StagesOfNothing(xs0: seq<real>, xs1: seq<real>)
    ensures Chain(Column([], 0), xs0) == (Column([], 0), xs0)
    ensures Chain(Column([], 1), xs1) == (Column([], 1), xs1)
  {
  }

  /** Running n slots where only the first k were appended is running the k appended stages. */
  lemma Padding(s: seq<Stereo>, s': seq<Stereo>, k: nat, n: nat, ch: int, xs: seq<real>)
    requires k <= n <= |s| == |s'|
    requires forall i :: k <= i < |s| ==> Channel(s[i], ch).c == IDENTITY
    requires Column(s'[..n], ch) == Chain(Column(s[..n], ch), xs).0 && s'[n..] == s[n..]
    ensures Column(s'[..k], ch) == Chain(Column(s[..k], ch), xs).0
    ensures Chain(Column(s[..n], ch), xs).1 == Chain(Column(s[..k], ch), xs).1
    ensures forall i :: k <= i < |s| ==> Channel(s'[i], ch).c == IDENTITY
  {
    IdentityTail(Column(s[..k], ch), Column(s[k..n], ch), xs);
    assert Column(s[..n], ch) == Column(s[..k], ch) + Column(s[k..n], ch);
    assert Column(s'[..k], ch) == Column(s'[..n], ch)[..k];
    forall i | k <= i < |s| ensures Channel(s'[i], ch).c == IDENTITY {
      if i < n {
        assert Channel(s'[i], ch) == Column(s'[..n], ch)[i];
      } else {
        assert s'[i] == s'[n..][i - n] == s[n..][i - n];
      }
    }
  }
}
