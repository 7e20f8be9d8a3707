/** Timespec arithmetic (common/cras_util.h). */
module TimeSpecs {
  const BILLION := 1_000_000_000

  datatype Timespec = Timespec(sec: int, nsec: int)

  ghost predicate Normal(t: Timespec) {
    0 <= t.nsec < 1_000_000_000
  }

  function Ns(t: Timespec): int {
    1_000_000_000 * t.sec + t.nsec
  }

  /** timespec_after. */
  predicate After(a: Timespec, b: Timespec) {
    a.sec > b.sec || (a.sec == b.sec && a.nsec > b.nsec)
  }

  /** For normalised times the field-wise comparison is the comparison of nanoseconds. */
  lemma AfterIsLater(a: Timespec, b: Timespec)
    requires Normal(a) && Normal(b)
    ensures After(a, b) <==> Ns(a) > Ns(b)
  {
  }

  /** add_timespecs, on the value of its first argument. */
  method Add(a: Timespec, b: Timespec) returns (r: Timespec)
    requires a.nsec >= 0 && b.nsec >= 0
    ensures Normal(r) && Ns(r) == Ns(a) + Ns(b)
  {
    r := Timespec(a.sec + b.sec, a.nsec + b.nsec);
    while r.nsec >= BILLION
      invariant r.nsec >= 0 && Ns(r) == Ns(a) + Ns(b)
      decreases r.nsec
    {
      r := Timespec(r.sec + 1, r.nsec - BILLION);
    }
  }

  /** subtract_timespecs. */
  function Subtract(end: Timespec, beg: Timespec): Timespec {
    var sec, nsec := end.sec - beg.sec, end.nsec - beg.nsec;
    if sec > 0 && nsec < 0 then Timespec(sec - 1, nsec + 1_000_000_000)
    else if sec < 0 && nsec > 0 then Timespec(sec + 1, nsec - 1_000_000_000)
    else Timespec(sec, nsec)
  }

  /** The difference is exact and its two fields never have opposite signs. */
  lemma SubtractExact(end: Timespec, beg: Timespec)
    requires Normal(end) && Normal(beg)
    ensures var d := Subtract(end, beg);
            && Ns(d) == Ns(end) - Ns(beg) && -1_000_000_000 < d.nsec < 1_000_000_000
            && (d.sec >= 0 || d.nsec <= 0) && (d.sec <= 0 || d.nsec >= 0)
  {
  }

  /** cras_frames_to_time: the exact duration rounded down to nanoseconds. */
  function FramesToTime(frames: nat, rate: nat): (t: Timespec)
    requires 0 < rate
    ensures Normal(t) && t.sec >= 0
    ensures Ns(t) * rate <= frames * 1_000_000_000 < (Ns(t) + 1) * rate
  {
    var sec, rest := frames / rate, frames % rate;
    var nsec := rest * 1_000_000_000 / rate;
    WholeSeconds(frames, rate);
    Timespec(sec, nsec)
  }

  lemma WholeSeconds(frames: nat, rate: nat)
    requires 0 < rate
    ensures var sec, rest := frames / rate, frames % rate;
            var nsec := rest * 1_000_000_000 / rate;
            && 0 <= nsec < 1_000_000_000
            && var ns := 1_000_000_000 * sec + nsec;
               ns * rate <= frames * 1_000_000_000 < (ns + 1) * rate
  {
    var sec, rest := frames / rate, frames % rate;
    assert frames == sec * rate + rest;
    var n := rest * 1_000_000_000;
    var nsec, left := n / rate, n % rate;
    assert n == nsec * rate + left;
    Grows(1_000_000_000, nsec, rate);
    Grows(rest + 1, rate, 1_000_000_000);
    var ns := 1_000_000_000 * sec + nsec;
    assert ns * rate == 1_000_000_000 * (sec * rate) + nsec * rate;
    assert (ns + 1) * rate == ns * rate + rate;
  }

  lemma Grows(a: nat, b: nat, d: nat)
    ensures a <= b ==> a * d <= b * d
  {
    if a <= b {
      assert b * d == a * d + (b - a) * d;
    }
  }
}
