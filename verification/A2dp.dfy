/** Bluetooth A2DP output (server/cras_a2dp_iodev.c, server/cras_a2dp_info.c, common/cras_sbc_codec.c):
    PCM bytes become SBC frames, frames fill RTP packets, packets leave at a fixed pace. The encoder, the
    socket and the clock may answer anything their contracts allow. */
module A2dp {
  import opened Arithmetic
  import opened ByteBuffer
  import opened TimeSpecs

  const ENOSPC := 28
  const EAGAIN := 11
  const EINVAL := 22
  const A2DP_BUF_SIZE_BYTES := 2048
  const HEADER_BYTES := 13
  const FUZZ_NS := 1_000_000
  const PCM_BUF_MAX_SIZE_BYTES := 65536

  /** An encoded SBC frame, as the PCM block it stands for. */
  type Frame = seq<Byte>

  /** A packet as sent: header fields, total size in bytes, frames. */
  datatype Packet = Packet(sequence: nat, timestamp: nat, frameCount: nat, size: nat, frames: seq<Frame>)

  /** A try at sending packet number packet (counted from start), at time at in ns. The error number is 0 if the
      packet has left. */
  datatype Attempt = Attempt(packet: nat, at: int, errno: nat) {
    predicate Sent() { errno == 0 }
  }

  function Flatten(fs: seq<Frame>): seq<Byte> {
    if fs == [] then [] else Flatten(fs[..|fs| - 1]) + fs[|fs| - 1]
  }

  function Contents(ps: seq<Packet>): seq<Byte> {
    if ps == [] then [] else Contents(ps[..|ps| - 1]) + Flatten(ps[|ps| - 1].frames)
  }

  ghost predicate Blocks(fs: seq<Frame>, codesize: nat) {
    forall i :: 0 <= i < |fs| ==> |fs[i]| == codesize
  }

  lemma FlattenSnoc(fs: seq<Frame>, f: Frame)
    ensures Flatten(fs + [f]) == Flatten(fs) + f
  {
    assert (fs + [f])[..|fs|] == fs;
  }

  lemma {:induction false} FlattenAppend(a: seq<Frame>, b: seq<Frame>)
    ensures Flatten(a + b) == Flatten(a) + Flatten(b)
    decreases |b|
  {
    if b == [] {
      assert a + b == a && Flatten(a) + [] == Flatten(a);
    } else {
      var n := |b| - 1;
      FlattenAppend(a, b[..n]);
      assert (a + b)[..|a| + n] == a + b[..n];
      assert Flatten(a) + (Flatten(b[..n]) + b[n]) == (Flatten(a) + Flatten(b[..n])) + b[n];
    }
  }

  // ----- the shape of a stream of packets -----

  /** The fixed numbers of a configured device. */
  datatype Config = Config(codesize: nat, frameLength: nat, mtu: nat, formatBytes: nat, rate: nat)

  /** SBC blocks are whole PCM frames; one frame fits a packet; the transport's MTU fits the buffer. */
  ghost predicate Usable(c: Config) {
    && 0 < c.formatBytes && 0 < c.codesize && Multiple(c.codesize, c.formatBytes)
    && 0 < c.frameLength && HEADER_BYTES + c.frameLength <= c.mtu <= A2DP_BUF_SIZE_BYTES
    && 0 < c.rate
  }

  /** PCM frames in one SBC frame. */
  function PerFrame(c: Config): nat
    requires 0 < c.formatBytes
  {
    Units(c.codesize, c.formatBytes)
  }

  /** configure_dev: PCM frames in one packet. */
  function WriteBlock(c: Config): nat
    requires 0 < c.formatBytes && 0 < c.frameLength && HEADER_BYTES <= c.mtu
  {
    Units(Times(Units(c.mtu - HEADER_BYTES, c.frameLength), c.codesize), c.formatBytes)
  }

  /** A buffer that has room for n frames and for no more holds a write block. */
  lemma FullHoldsWriteBlock(c: Config, n: nat)
    requires Usable(c)
    requires HEADER_BYTES + Times(n, c.frameLength) <= c.mtu < HEADER_BYTES + Times(n, c.frameLength) + c.frameLength
    ensures Times(n, PerFrame(c)) == WriteBlock(c)
  {
    var room := c.mtu - HEADER_BYTES;
    Quotient(room, n, room - Times(n, c.frameLength), c.frameLength);
    var per, f := PerFrame(c), c.formatBytes;
    assert c.codesize == per * f;
    assert n * (per * f) == (n * per) * f;
    Quotient(Times(n, c.codesize), n * per, 0, f);
  }

  /** a2dp_block_size of a packet: the PCM bytes it holds. */
  function BlockBytes(c: Config): nat
    requires 0 < c.frameLength && HEADER_BYTES <= c.mtu
  {
    Times(Units(c.mtu - HEADER_BYTES, c.frameLength), c.codesize)
  }

  /** A packet with room holds less. */
  lemma RoomForLess(c: Config, n: nat)
    requires Usable(c) && HEADER_BYTES + Times(n, c.frameLength) + c.frameLength <= c.mtu
    ensures Times(n, c.codesize) < BlockBytes(c)
  {
    var room := c.mtu - HEADER_BYTES;
    var most := Units(room, c.frameLength);
    RoomFor(room, c.frameLength);
    TimesSum(n, 1, c.frameLength);
    if most < n + 1 {
      TimesMonotone(most + 1, n + 1, c.frameLength);
    }
    assert n + 1 <= most;
    TimesMonotone(n + 1, most, c.codesize);
    TimesSum(n, 1, c.codesize);
  }

  lemma {:induction false} FlattenSize(fs: seq<Frame>, codesize: nat)
    requires Blocks(fs, codesize)
    ensures |Flatten(fs)| == Times(|fs|, codesize)
    decreases |fs|
  {
    if fs != [] {
      FlattenSize(fs[..|fs| - 1], codesize);
      TimesSum(|fs| - 1, 1, codesize);
    }
  }

  lemma NoContents()
    ensures Contents([]) == []
  {
  }

  /** PCM frames in all packets sent. */
  function SentSamples(c: Config, ps: seq<Packet>): nat
    requires 0 < c.formatBytes
  {
    if ps == [] then 0 else SentSamples(c, ps[..|ps| - 1]) + Times(|ps[|ps| - 1].frames|, PerFrame(c))
  }

  /** The fields avdtp_write puts in front of the frames, each as wide as RTP makes it. */
  function Stamp(sequence: nat, samples: nat, frameCount: nat, size: nat, frames: seq<Frame>): (p: Packet)
    ensures p.sequence == sequence && p.timestamp == samples % 0x1_0000_0000 && p.frameCount == frameCount % 16
    ensures p.frames == frames && p.size == size
  {
    Packet(sequence, U32(samples), frameCount % 16, size, frames)
  }

  function Sequence(n: nat): nat {
    n % 65536
  }

  lemma NextSequence(n: nat)
    ensures Sequence(Sequence(n) + 1) == Sequence(n + 1)
  {
  }

  /** Packet number i of a stream: a full write block within the MTU, the sequence number counting packets
      modulo 2^16 (section 5.1 of RFC 3550), the timestamp counting PCM frames. */
  ghost predicate ProperPacket(c: Config, ps: seq<Packet>, i: nat)
    requires i < |ps| && Usable(c)
  {
    var p := ps[i];
    && Times(|p.frames|, PerFrame(c)) == WriteBlock(c) && Blocks(p.frames, c.codesize)
    && p.size == HEADER_BYTES + Times(|p.frames|, c.frameLength) <= c.mtu
    && p == Stamp(Sequence(i), SentSamples(c, ps[..i + 1]), |p.frames|, p.size, p.frames)
  }

  ghost predicate ProperStream(c: Config, ps: seq<Packet>)
    requires Usable(c)
  {
    forall i :: 0 <= i < |ps| ==> ProperPacket(c, ps, i)
  }

  lemma StreamGrows(c: Config, ps: seq<Packet>, p: Packet)
    requires Usable(c) && ProperStream(c, ps) && ProperPacket(c, ps + [p], |ps|)
    ensures ProperStream(c, ps + [p])
    ensures SentSamples(c, ps + [p]) == SentSamples(c, ps) + Times(|p.frames|, PerFrame(c))
    ensures Contents(ps + [p]) == Contents(ps) + Flatten(p.frames)
  {
    hide WriteBlock, PerFrame, Times, Flatten;
    var qs := ps + [p];
    assert qs[..|ps|] == ps;
    forall i | 0 <= i < |qs| ensures ProperPacket(c, qs, i) {
      if i < |ps| {
        assert ProperPacket(c, ps, i) && qs[..i + 1] == ps[..i + 1];
      }
    }
  }

  /** Every packet carries the same amount, so the total is the packet count times the write block. */
  lemma {:induction false} SentIsWriteBlocks(c: Config, ps: seq<Packet>)
    requires Usable(c) && ProperStream(c, ps)
    ensures SentSamples(c, ps) == Times(|ps|, WriteBlock(c))
    decreases |ps|
  {
    hide WriteBlock, PerFrame;
    if ps != [] {
      var n := |ps| - 1;
      forall i | 0 <= i < n ensures ProperPacket(c, ps[..n], i) {
        assert ProperPacket(c, ps, i);
        SamePacket(c, ps, n, i);
      }
      SentIsWriteBlocks(c, ps[..n]);
      assert ProperPacket(c, ps, n);
      TimesSum(n, 1, WriteBlock(c));
    }
  }

  /** The field of four bits says how many SBC frames a packet holds exactly when a write block is shorter than
      16 of them. */
  lemma FrameCountIff(c: Config, ps: seq<Packet>, i: nat)
    requires i < |ps| && Usable(c) && ProperPacket(c, ps, i)
    ensures ps[i].frameCount == |ps[i].frames| <==> WriteBlock(c) < Times(16, PerFrame(c))
  {
    var n := |ps[i].frames|;
    WriteBlockPositive(c);
    hide WriteBlock, PerFrame;
    if n >= 16 {
      TimesMonotone(16, n, PerFrame(c));
    } else {
      TimesMonotone(n + 1, 16, PerFrame(c));
      TimesSum(n, 1, PerFrame(c));
      assert PerFrame(c) > 0;
    }
  }

  lemma SamePacket(c: Config, ps: seq<Packet>, n: nat, i: nat)
    requires Usable(c) && i < n <= |ps| && ProperPacket(c, ps, i)
    ensures ProperPacket(c, ps[..n], i)
  {
    hide WriteBlock, PerFrame, Stamp, Times, Blocks;
    assert ps[..n][..i + 1] == ps[..i + 1];
  }

  lemma PacketHoldsBytes(c: Config, ps: seq<Packet>, i: nat)
    requires Usable(c) && i < |ps| && ProperPacket(c, ps, i)
    ensures |Flatten(ps[i].frames)| > 0
  {
    hide WriteBlock, PerFrame, Stamp;
    WriteBlockPositive(c);
    var fs := ps[i].frames;
    assert fs != [] by {
      assert Times(0, PerFrame(c)) == 0;
    }
    assert |fs[|fs| - 1]| == c.codesize;
  }

  /** The last try since tried decides: a full socket is no error, any other failed send is reported. */
  ghost predicate Answers(tried: seq<Attempt>, tries: seq<Attempt>, rc: int) {
    |tries| > |tried| ==>
      var a := tries[|tries| - 1];
      && (a.errno == EAGAIN ==> rc == 0)
      && (!a.Sent() && a.errno != EAGAIN ==> rc + a.errno == 0)
  }

  /** No try since tried has failed. */
  ghost predicate AllLeft(tried: seq<Attempt>, tries: seq<Attempt>) {
    |tries| > |tried| ==> tries[|tries| - 1].Sent()
  }

  lemma TriedOnce(tried: seq<Attempt>, before: seq<Attempt>, a: Attempt)
    requires tried <= before && AllLeft(tried, before)
    ensures AllLeft(tried, tried) && (forall rc :: Answers(tried, before, rc))
    ensures a.Sent() ==> AllLeft(tried, before + [a]) && forall rc :: Answers(tried, before + [a], rc)
    ensures Answers(tried, before + [a], if a.errno == EAGAIN then 0 else 0 - a.errno)
  {
  }

  /** More than n packets since sent were possible only with more than two write blocks in the ring. */
  ghost predicate Backlogged(sent: seq<Packet>, ps: seq<Packet>, n: nat, block: nat, formatBytes: nat, level: nat) {
    |ps| > |sent| + n ==> formatBytes > 0 && block + block < Units(level, formatBytes)
  }

  lemma SentOneMore(sent: seq<Packet>, ps: seq<Packet>, block: nat, formatBytes: nat, level: nat)
    ensures Backlogged(sent, sent, 0, block, formatBytes, level)
    ensures Backlogged(sent, ps, 0, block, formatBytes, level) ==>
              && Backlogged(sent, ps, 1, block, formatBytes, level)
              && forall p :: Backlogged(sent, ps + [p], 1, block, formatBytes, level)
    ensures formatBytes > 0 && block + block < Units(level, formatBytes) ==>
              forall qs :: Backlogged(sent, qs, 0, block, formatBytes, level)
  {
  }

  lemma UnitsMonotone(m: nat, n: nat, d: nat)
    requires m <= n && 0 < d
    ensures Units(m, d) <= Units(n, d)
  {
    RoomFor(m, d);
    RoomFor(n, d);
    if Units(n, d) + 1 <= Units(m, d) {
      TimesMonotone(Units(n, d) + 1, Units(m, d), d);
    }
  }

  /** Every header of a proper stream, field by field: the packet's number, and the PCM frames sent up to its end. */
  lemma HeaderFields(c: Config, ps: seq<Packet>, i: nat)
    requires Usable(c) && ProperStream(c, ps) && i < |ps|
    ensures ps[i].sequence == i % 65536
    ensures ps[i].timestamp == SentSamples(c, ps[..i + 1]) % 0x1_0000_0000
    ensures ps[i].timestamp == Times(i + 1, WriteBlock(c)) % 0x1_0000_0000
    ensures ps[i].frameCount == |ps[i].frames| % 16
  {
    hide WriteBlock, PerFrame, Times, Blocks;
    assert ProperPacket(c, ps, i);
    var front := ps[..i + 1];
    forall k | 0 <= k < |front| ensures ProperPacket(c, front, k) {
      assert ProperPacket(c, ps, k);
      SamePacket(c, ps, i + 1, k);
    }
    SentIsWriteBlocks(c, front);
  }

  /** No packet is empty. */
  lemma {:induction false} PacketsHoldBytes(c: Config, ps: seq<Packet>)
    requires Usable(c) && ProperStream(c, ps)
    ensures |ps| <= |Contents(ps)|
    decreases |ps|
  {
    hide ProperPacket, Usable, Flatten;
    if ps != [] {
      var n := |ps| - 1;
      PacketHoldsBytes(c, ps, n);
      forall i | 0 <= i < n ensures ProperPacket(c, ps[..n], i) {
        assert ProperPacket(c, ps, i);
        SamePacket(c, ps, n, i);
      }
      PacketsHoldBytes(c, ps[..n]);
    }
  }

  // ----- pacing -----

  function SentCount(tries: seq<Attempt>): nat {
    if tries == [] then 0 else SentCount(tries[..|tries| - 1]) + if tries[|tries| - 1].Sent() then 1 else 0
  }

  /** Packet k is tried only when 1 ms from now is later than k flush periods after the start. */
  ghost predicate OnTime(a: Attempt, start: int, period: nat) {
    a.at + FUZZ_NS > start + Times(a.packet, period)
  }

  ghost predicate Paced(tries: seq<Attempt>, start: int, period: nat) {
    forall i :: 0 <= i < |tries| ==> tries[i].packet == SentCount(tries[..i]) && OnTime(tries[i], start, period)
  }

  lemma PacedGrows(tries: seq<Attempt>, a: Attempt, start: int, period: nat)
    requires Paced(tries, start, period) && a.packet == SentCount(tries) && OnTime(a, start, period)
    ensures Paced(tries + [a], start, period)
    ensures SentCount(tries + [a]) == SentCount(tries) + if a.Sent() then 1 else 0
  {
    hide OnTime;
    var bs := tries + [a];
    assert bs[..|tries|] == tries;
    forall i | 0 <= i < |bs| ensures bs[i].packet == SentCount(bs[..i]) && OnTime(bs[i], start, period) {
      if i < |tries| {
        assert bs[..i] == tries[..i] && bs[i] == tries[i];
      }
    }
  }

  /** The number of packets that have left by any time is bounded by the time since the start. */
  lemma {:induction false} PacketsBounded(tries: seq<Attempt>, start: int, period: nat, until: int)
    requires Paced(tries, start, period)
    requires forall i :: 0 <= i < |tries| ==> tries[i].at <= until
    ensures SentCount(tries) > 0 ==> start + Times(SentCount(tries) - 1, period) < until + FUZZ_NS
    decreases |tries|
  {
    if tries != [] {
      var n := |tries| - 1;
      assert tries[n].packet == SentCount(tries[..n]) && OnTime(tries[n], start, period);
      forall i | 0 <= i < n
        ensures tries[..n][i].packet == SentCount(tries[..n][..i]) && OnTime(tries[..n][i], start, period)
      {
        assert tries[..n][..i] == tries[..i];
      }
      PacketsBounded(tries[..n], start, period, until);
    }
  }

  // ----- the environment -----

  /** Encoder, socket and clock may answer anything. An obliging environment is one of all these: its encoder
      and its socket never fail, and its clock stands. */
  datatype Environment = AnyAnswers | Obliging(now: Timespec)

  /** clock_gettime. */
  method Now(env: Environment) returns (t: Timespec)
    requires env.Obliging? ==> Normal(env.now)
    ensures Normal(t) && (env.Obliging? ==> t == env.now)
  {
    if env.Obliging? {
      return env.now;
    }
    var sec: int := *;
    var nsec: int :| 0 <= nsec < 1_000_000_000;
    t := Timespec(sec, nsec);
  }

  /** The result of send: 0, or the error number. */
  method SendOutcome(env: Environment) returns (errno: nat)
    ensures env.Obliging? ==> errno == 0
  {
    errno := *;
    if env.Obliging? {
      errno := 0;
    }
  }

  // ----- the codec -----

  datatype SbcResult = Encoded | NoSpace | Failed(code: int)

  /** sbc_encode on one block: no space exactly when the frame does not fit, else a frame or an error. */
  method SbcEncode(env: Environment, block: seq<Byte>, room: nat, frameLength: nat) returns (r: SbcResult)
    ensures r.NoSpace? <==> room < frameLength
    ensures r.Failed? ==> env.AnyAnswers? && r.code < 0 && r.code != -ENOSPC
  {
    if room < frameLength {
      return NoSpace;
    }
    var failed: bool := *;
    if failed && env.AnyAnswers? {
      var code: int :| code < 0 && code != -ENOSPC;
      return Failed(code);
    }
    return Encoded;
  }

  lemma NothingEncoded(c: Config, input: seq<Byte>)
    ensures Times(0, c.codesize) == Times(0, c.frameLength) == 0
    ensures Blocks([], c.codesize) && Flatten([]) == input[..0]
  {
  }

  lemma BlockEncoded(c: Config, input: seq<Byte>, frames: seq<Frame>)
    requires Times(|frames|, c.codesize) + c.codesize <= |input| && Blocks(frames, c.codesize)
    requires Flatten(frames) == input[..Times(|frames|, c.codesize)]
    ensures var at := Times(|frames|, c.codesize);
            var longer := frames + [input[at..at + c.codesize]];
            && Times(|longer|, c.codesize) == at + c.codesize && Blocks(longer, c.codesize)
            && Times(|longer|, c.frameLength) == Times(|frames|, c.frameLength) + c.frameLength
            && Flatten(longer) == input[..at + c.codesize]
  {
    TimesSum(|frames|, 1, c.codesize);
    TimesSum(|frames|, 1, c.frameLength);
    assert Times(1, c.codesize) == c.codesize && Times(1, c.frameLength) == c.frameLength;
    hide Times, Flatten;
    var at := Times(|frames|, c.codesize);
    FlattenSnoc(frames, input[at..at + c.codesize]);
    assert input[..at + c.codesize] == input[..at] + input[at..at + c.codesize];
  }

  /** cras_sbc_encode: as many whole blocks as there are and fit. After an error nothing counts. */
  method CrasSbcEncode(env: Environment, c: Config, input: seq<Byte>, outputLen: nat)
      returns (processed: int, frames: seq<Frame>)
    requires 0 < c.codesize && 0 < c.frameLength
    ensures processed < 0 ==> env.AnyAnswers? && processed != -ENOSPC
    ensures processed <= 0 ==> frames == []
    ensures |input| < c.codesize ==> processed == 0
    ensures processed >= 0 ==>
              && processed == Times(|frames|, c.codesize) <= |input| && Times(|frames|, c.frameLength) <= outputLen
              && Blocks(frames, c.codesize) && Flatten(frames) == input[..processed]
              && (|input| - processed < c.codesize || outputLen - Times(|frames|, c.frameLength) < c.frameLength)
  {
    hide Times, Flatten, Blocks;
    NothingEncoded(c, input);
    processed, frames := 0, [];
    var result := 0;
    while |input| - processed >= c.codesize && outputLen >= result
      invariant 0 <= processed == Times(|frames|, c.codesize) <= |input|
      invariant result == Times(|frames|, c.frameLength) <= outputLen
      invariant Blocks(frames, c.codesize) && Flatten(frames) == input[..processed]
      invariant processed == 0 ==> frames == []
      invariant |input| < c.codesize ==> processed == 0
      decreases |input| - processed
    {
      var block := input[processed..processed + c.codesize];
      var r := SbcEncode(env, block, outputLen - result, c.frameLength);
      if r.NoSpace? {
        break;
      } else if r.Failed? {
        return r.code, [];
      }
      BlockEncoded(c, input, frames);
      frames := frames + [block];
      processed := processed + c.codesize;
      result := result + c.frameLength;
    }
  }

  // ----- the ring's seam -----

  /** Where the read index can be: at a block boundary, counted from the start of the ring. */
  ghost predicate RingAt(codesize: nat, read: nat, level: nat) {
    read < 65536 && level <= 65536 && Multiple(read, codesize)
  }

  /** A block is queued, but it straddles the end of the ring. */
  ghost predicate Straddles(codesize: nat, read: nat, level: nat)
    requires read < 65536
  {
    65536 - read < codesize <= level
  }

  lemma AtLeastOneBlock(n: nat, codesize: nat)
    requires 0 < n && Multiple(n, codesize)
    ensures n >= codesize
  {
    ZeroMultiple(codesize);
    DifferenceMultiple(n, 0, codesize);
    AtLeast(Units(n, codesize), codesize);
  }

  /** No block ever straddles the end of the ring exactly when the block size divides the ring size, or no
      block fits the ring at all. */
  lemma SeamlessIff(codesize: nat)
    requires 0 < codesize
    ensures (forall read: nat, level: nat :: RingAt(codesize, read, level) ==> !Straddles(codesize, read, level)) <==>
            Multiple(65536, codesize) || codesize > 65536
  {
    if Multiple(65536, codesize) {
      forall read: nat, level: nat | RingAt(codesize, read, level) ensures !Straddles(codesize, read, level) {
        DifferenceMultiple(65536, read, codesize);
        AtLeastOneBlock(65536 - read, codesize);
      }
    } else if codesize <= 65536 {
      var read := Times(Units(65536, codesize), codesize);
      LastBlock(codesize);
      assert RingAt(codesize, read, 65536) && Straddles(codesize, read, 65536);
    }
  }

  /** Reading whole blocks up to the end of the ring leads to the next block boundary. */
  lemma NextBoundary(codesize: nat, read: nat, n: nat)
    requires Multiple(read, codesize) && Multiple(n, codesize) && read < 65536 && read + n <= 65536
    ensures Multiple(Wrap(read + n, 65536), codesize)
  {
    SumMultiple(read, n, codesize);
    ZeroMultiple(codesize);
  }

  /** The last block boundary of a ring that is not a whole number of blocks. */
  lemma LastBlock(codesize: nat)
    requires 0 < codesize <= 65536 && !Multiple(65536, codesize)
    ensures var q := Units(65536, codesize);
            && 0 < q && Multiple(Times(q, codesize), codesize)
            && codesize <= Times(q, codesize) < 65536 && 65536 - Times(q, codesize) < codesize
  {
    var q := Units(65536, codesize);
    assert 65536 == q * codesize + 65536 % codesize;
    AtLeastOne(65536, codesize);
    TimesMultiple(q, codesize);
  }

  // ----- the device -----

  /** The packet under construction, and the running counters. */
  ghost predicate Filling(c: Config, bufUsed: nat, frameCount: nat, seqNum: nat, samples: nat, nsamples: nat,
                          payload: seq<Frame>, packets: seq<Packet>)
  {
    && Usable(c)
    && bufUsed == HEADER_BYTES + Times(|payload|, c.frameLength) <= c.mtu
    && frameCount == |payload| && Blocks(payload, c.codesize)
    && samples == Times(|payload|, PerFrame(c))
    && nsamples == SentSamples(c, packets) + samples
    && seqNum == Sequence(|packets|)
  }

  /** Every byte put in is in a packet sent, in the packet under construction, or in the PCM ring, once
      and in order. */
  ghost predicate Balanced(input: seq<Byte>, packets: seq<Packet>, payload: seq<Frame>, queue: seq<Byte>) {
    input == Contents(packets) + Flatten(payload) + queue
  }

  /** The next packet may leave as many flush periods after the start as packets have left since. */
  ghost predicate OnSchedule(tries: seq<Attempt>, start: int, period: nat, next: Timespec) {
    && Paced(tries, start, period)
    && Normal(next) && Ns(next) == start + Times(SentCount(tries), period)
  }

  /** Why encode_and_flush went no further. */
  datatype Stop = TooEarly(at: int) | SocketFull | NoPacket | LowLevel

  /** struct a2dp_io with its a2dp_info. The ghosts keep everything that went in, everything that was sent,
      and every try at sending since start. */
  class Device {
    const config: Config
    const env: Environment
    const pcm: Buffer
    const writeBlock: nat
    const flushPeriod: Timespec
    var bufUsed: nat
    var frameCount: nat
    var seqNum: nat
    var samples: nat
    var nsamples: nat
    var payload: seq<Frame>
    var nextFlushTime: Timespec
    var running: bool
    var deviceGone: bool
    ghost var input: seq<Byte>
    ghost var packets: seq<Packet>
    ghost var started: int
    ghost var tries: seq<Attempt>

    ghost predicate Configured() {
      && Usable(config) && writeBlock == WriteBlock(config) && flushPeriod == FramesToTime(writeBlock, config.rate)
      && (env.Obliging? ==> Normal(env.now))
    }

    ghost function PeriodNs(): (p: nat) {
      if Ns(flushPeriod) >= 0 then Ns(flushPeriod) else 0
    }

    ghost predicate Valid()
      reads this, pcm, pcm.bytes
    {
      && Configured() && pcm.Valid() && pcm.usedSize == PCM_BUF_MAX_SIZE_BYTES
      && RingAt(config.codesize, pcm.readIdx, pcm.level)
      && Filling(config, bufUsed, frameCount, seqNum, samples, nsamples, payload, packets)
      && ProperStream(config, packets)
      && Balanced(input, packets, payload, pcm.Queue())
      && OnSchedule(tries, started, PeriodNs(), nextFlushTime)
    }

    /** init_a2dp and configure_dev. */
    constructor (config: Config, env: Environment)
      requires Usable(config) && (env.Obliging? ==> Normal(env.now))
      ensures Valid() && fresh(pcm) && fresh(pcm.bytes)
      ensures this.config == config && this.env == env && flushPeriod == FramesToTime(WriteBlock(config), config.rate)
      ensures input == [] && packets == [] && !Full() && !deviceGone
      ensures pcm.level == 0 && pcm.readIdx == 0
    {
      this.config, this.env := config, env;
      pcm := new Buffer(PCM_BUF_MAX_SIZE_BYTES);
      var block := WriteBlock(config);
      writeBlock := block;
      flushPeriod := FramesToTime(block, config.rate);
      bufUsed, frameCount, seqNum, samples, nsamples, payload := HEADER_BYTES, 0, 0, 0, 0, [];
      nextFlushTime, running, deviceGone := Timespec(0, 0), false, false;
      input, packets, started, tries := [], [], 0, [];
      new;
      EmptyPacket(config, 0);
      ZeroMultiple(config.codesize);
    }

    /** The packet has no room for another SBC frame. */
    predicate Full()
      reads this`bufUsed
    {
      bufUsed + config.frameLength > config.mtu
    }

    /** The packet has room and a block is queued, but the block straddles the end of the ring. */
    ghost predicate Stalled()
      requires Valid()
      reads this, pcm, pcm.bytes
    {
      !Full() && Straddles(config.codesize, pcm.readIdx, pcm.level)
    }

    /** start: the pace is counted from now. */
    method Start(now: Timespec)
      requires Valid() && Normal(now)
      modifies this`nextFlushTime, this`started, this`tries
      ensures Valid() && tries == [] && started == Ns(now)
    {
      nextFlushTime := now;
      started, tries := Ns(now), [];
    }

    /** a2dp_encode: whole blocks of the view join the packet under construction. */
    method A2dpEncode(view: seq<Byte>) returns (processed: int)
      requires Filling(config, bufUsed, frameCount, seqNum, samples, nsamples, payload, packets)
      modifies this`frameCount, this`bufUsed, this`samples, this`nsamples, this`payload
      ensures Filling(config, bufUsed, frameCount, seqNum, samples, nsamples, payload, packets)
      ensures processed < 0 ==> env.AnyAnswers? && processed != -ENOSPC
      ensures processed <= 0 ==> payload == old(payload) && bufUsed == old(bufUsed)
      ensures |view| < config.codesize ==> processed == 0
      ensures processed > 0 ==> processed >= config.codesize
      ensures processed >= 0 ==>
                && processed <= |view| && Multiple(processed, config.codesize)
                && Flatten(payload) == Flatten(old(payload)) + view[..processed]
                && Times(|payload|, config.codesize) == Times(|old(payload)|, config.codesize) + processed
                && (|view| - processed < config.codesize || Full())
    {
      EncodedTotals(config, |payload|, 0);
      hide Times, Multiple, Units, PerFrame, WriteBlock, Flatten, SentSamples;
      if config.mtu == bufUsed {
        assert Flatten(payload) + view[..0] == Flatten(payload);
        return 0;
      }
      var frames: seq<Frame>;
      processed, frames := CrasSbcEncode(env, config, view, config.mtu - bufUsed);
      if processed < 0 {
        return;
      }
      EncodedTotals(config, |payload|, |frames|);
      FlattenAppend(payload, frames);
      frameCount := frameCount + Units(processed, config.codesize);
      bufUsed := bufUsed + Times(|frames|, config.frameLength);
      samples := samples + Units(processed, config.formatBytes);
      nsamples := nsamples + Units(processed, config.formatBytes);
      payload := payload + frames;
    }

    /** Encoding can make no more progress: the packet is full, or the readable stretch is shorter than a
        block. */
    ghost predicate Exhausted()
      requires Valid()
      reads this, pcm, pcm.bytes
    {
      Full() || pcm.Readable() < config.codesize
    }

    /** Short of a stall, a packet with room means that less than a block is queued. */
    lemma ExhaustedMeans()
      requires Valid()
      ensures Exhausted() <==> Full() || pcm.level < config.codesize || Stalled()
      ensures pcm.Readable() == Min(pcm.level, 65536 - pcm.readIdx)
    {
      hide Configured, Filling, ProperStream, Balanced, OnSchedule, Wrap, RingQueue, Multiple;
      SpansExact(pcm.readIdx, pcm.level, pcm.usedSize);
    }

    /** Where block boundaries meet the end of the ring no device ever stalls, nor where no block fits the
        ring. */
    lemma NeverStalled()
      requires Valid() && (Multiple(65536, config.codesize) || config.codesize > 65536)
      ensures !Stalled()
    {
      hide Filling, ProperStream, Balanced, OnSchedule, Wrap, RingQueue, Multiple;
      SeamlessIff(config.codesize);
    }

    /** Bytes not yet sent: what every packet makes fall. */
    ghost function Backlog(): nat
      reads this, pcm
    {
      pcm.level + Times(|payload|, config.codesize)
    }

    /** One pass of the loop of encode_a2dp_packet. */
    method EncodeOnce() returns (processed: int)
      requires Valid()
      modifies this`frameCount, this`bufUsed, this`samples, this`nsamples, this`payload, pcm`readIdx, pcm`level
      ensures Valid() && Backlog() == old(Backlog())
      ensures processed < 0 ==> env.AnyAnswers?
      ensures processed <= 0 ==> unchanged(pcm) && payload == old(payload) && bufUsed == old(bufUsed)
      ensures processed == 0 || processed == -ENOSPC ==> processed == 0 && Exhausted()
      ensures processed > 0 ==> config.codesize <= processed == old(pcm.level) - pcm.level
      ensures old(pcm.Readable()) < config.codesize ==> processed == 0
    {
      hide Times, Multiple, Units, PerFrame, WriteBlock, Flatten, Contents, Filling, ProperStream, OnSchedule;
      hide Usable, Configured, PeriodNs, Ns, Normal, ReadSpan, Wrap, RingQueue, Balanced;
      PositiveFormat();
      var view := pcm.ReadView();
      ghost var q, p := pcm.Queue(), payload;
      processed := A2dpEncode(view);
      if processed <= 0 {
        return;
      }
      MoveAcross(input, packets, p, payload, q, view, processed);
      NextBoundary(config.codesize, pcm.readIdx, processed);
      pcm.IncrementRead(processed);
    }

    /** encode_a2dp_packet: bytes move from the ring into the packet until nothing moves any more. Where block
        boundaries meet the end of the ring, the packet is then full or less than a block is queued. */
    method EncodeA2dpPacket() returns (rc: int)
      requires Valid()
      modifies this`frameCount, this`bufUsed, this`samples, this`nsamples, this`payload, pcm`readIdx, pcm`level
      ensures Valid() && rc <= 0 && (rc < 0 ==> env.AnyAnswers?)
      ensures Backlog() == old(Backlog()) && pcm.level <= old(pcm.level)
      ensures rc == 0 ==> Exhausted() && (Full() || pcm.level < config.codesize || Stalled())
      ensures rc == 0 && Multiple(65536, config.codesize) ==> Full() || pcm.level < config.codesize
      ensures rc == 0 && old(!Full() && pcm.Readable() >= config.codesize) ==>
                pcm.level + config.codesize <= old(pcm.level)
      ensures old(pcm.Readable()) < config.codesize ==>
                rc == 0 && unchanged(pcm) && payload == old(payload) && bufUsed == old(bufUsed)
    {
      hide Times, Multiple, Filling, ProperStream, Balanced, OnSchedule, RingAt, Configured, RingQueue, ReadSpan, Wrap;
      ghost var short, ready := pcm.Readable() < config.codesize, !Full() && pcm.Readable() >= config.codesize;
      ghost var l := pcm.level;
      while pcm.level > 0
        invariant Valid() && Backlog() == old(Backlog()) && pcm.level <= l
        invariant pcm.level == l || pcm.level + config.codesize <= l
        invariant pcm.level == l ==> Full() == old(Full()) && pcm.Readable() == old(pcm.Readable())
        invariant short ==> unchanged(pcm) && payload == old(payload) && bufUsed == old(bufUsed)
        decreases pcm.level
      {
        var processed := EncodeOnce();
        if processed == -ENOSPC || processed == 0 {
          ExhaustedMeans();
          if Multiple(65536, config.codesize) {
            NeverStalled();
          }
          return 0;
        }
        if processed < 0 {
          return processed;
        }
      }
      PositiveFormat();
      ExhaustedMeans();
      return 0;
    }

    /** avdtp_write: header and frames go to the socket. Only a successful send empties the packet. */
    method AvdtpWrite() returns (rc: int)
      requires Valid() && Full()
      modifies this`bufUsed, this`frameCount, this`samples, this`seqNum, this`payload, this`packets
      ensures Valid()
      ensures rc < 0 ==> packets == old(packets) && payload == old(payload) && bufUsed == old(bufUsed)
      ensures rc < 0 ==> env.AnyAnswers?
      ensures rc >= 0 ==> rc == writeBlock > 0 && payload == [] && Backlog() < old(Backlog()) && !Full()
      ensures rc >= 0 ==>
                packets == old(packets) + [Stamp(old(seqNum), nsamples, old(frameCount), old(bufUsed), old(payload))]
      ensures nsamples == old(nsamples)
    {
      hide Stamp, Sequence, U32, Wrap, RingQueue, Times, Units, PerFrame, WriteBlock, Contents, Flatten, Filling;
      hide ProperStream, Balanced, OnSchedule, Usable, Configured, PeriodNs, Ns, Normal, RingAt;
      ghost var p := Stamp(seqNum, nsamples, frameCount, bufUsed, payload);
      SendKeeps(config, bufUsed, frameCount, seqNum, samples, nsamples, payload, packets, input, pcm.Queue());
      PositiveFormat();
      EmptyPacket(config, |payload|);
      var errno: int := SendOutcome(env);
      if errno > 0 {
        return -errno;
      }
      packets := packets + [p];
      rc := samples;
      bufUsed := HEADER_BYTES;
      frameCount := 0;
      samples := 0;
      payload := [];
      seqNum := Sequence(seqNum + 1);
    }

    /** a2dp_write: nothing is sent before the packet is full. */
    method A2dpWrite() returns (rc: int)
      requires Valid()
      modifies this`bufUsed, this`frameCount, this`samples, this`seqNum, this`payload, this`packets
      ensures Valid() && nsamples == old(nsamples)
      ensures rc <= 0 ==> packets == old(packets) && payload == old(payload) && bufUsed == old(bufUsed)
      ensures rc < 0 ==> env.AnyAnswers?
      ensures rc == 0 <==> old(!Full())
      ensures rc > 0 ==> rc == writeBlock && payload == [] && Backlog() < old(Backlog()) && !Full()
      ensures rc > 0 ==>
                packets == old(packets) + [Stamp(old(seqNum), nsamples, old(frameCount), old(bufUsed), old(payload))]
    {
      hide Stamp, Sequence, U32, Wrap, RingQueue, Times, Units, PerFrame, WriteBlock, Contents, Flatten, Filling;
      hide ProperStream, Balanced, OnSchedule, Usable, Configured, PeriodNs, Ns, Normal, RingAt;
      if Full() {
        rc := AvdtpWrite();
        return;
      }
      return 0;
    }

    /** One try of encode_and_flush at the given time. Only a packet that left moves the next flush time, by
        one period. */
    method TryFlush(clock: Timespec) returns (written: int)
      requires Valid() && Exhausted() && Normal(clock) && Ns(clock) + FUZZ_NS > Ns(nextFlushTime)
      modifies this`bufUsed, this`frameCount, this`samples, this`seqNum, this`payload, this`packets
      modifies this`nextFlushTime, this`tries
      ensures Valid()
      ensures written < 0 ==> env.AnyAnswers?
      ensures written == 0 <==> old(!Full())
      ensures written >= 0 ==> !Full()
      ensures written == 0 ==> tries == old(tries) && pcm.Readable() < config.codesize
      ensures written <= 0 ==> Exhausted() && packets == old(packets) && nextFlushTime == old(nextFlushTime)
      ensures written <= 0 ==> payload == old(payload) && bufUsed == old(bufUsed)
      ensures written <= 0 ==> Backlog() == old(Backlog())
      ensures written != 0 ==>
                tries == old(tries) + [Attempt(SentCount(old(tries)), Ns(clock), if written > 0 then 0 else -written)]
      ensures written > 0 ==> Ns(nextFlushTime) == Ns(old(nextFlushTime)) + PeriodNs() && Backlog() < old(Backlog())
      ensures written > 0 ==>
                packets == old(packets) + [Stamp(old(seqNum), nsamples, old(frameCount), old(bufUsed), old(payload))]
      ensures SentCount(tries) - SentCount(old(tries)) == |packets| - |old(packets)|
    {
      hide Stamp, Sequence, U32, Wrap, RingQueue, ReadSpan, Times, Units, PerFrame, WriteBlock, Contents, Flatten;
      hide Filling, ProperStream, Balanced, OnSchedule, Usable, Configured, PeriodNs, Ns, SentCount;
      PositiveFormat();
      ValidMeans();
      ghost var full, next := Full(), nextFlushTime;
      written := A2dpWrite();
      if full {
        ghost var a := Attempt(SentCount(tries), Ns(clock), if written > 0 then 0 else -written);
        TryKeeps(tries, a, started, PeriodNs(), next, clock);
        tries := tries + [a];
      }
      if written > 0 {
        nextFlushTime := Add(nextFlushTime, flushPeriod);
      }
    }

    /** The part of encode_and_flush from do_flush on. */
    method Flush() returns (rc: int, ghost why: Stop)
      requires Valid() && running && Exhausted()
      modifies this`frameCount, this`bufUsed, this`samples, this`nsamples, this`payload, this`seqNum, this`packets
      modifies this`nextFlushTime, this`tries, pcm`readIdx, pcm`level
      ensures Valid() && rc <= 0
      ensures old(packets) <= packets && old(tries) <= tries && Backlog() <= old(Backlog())
      ensures SentCount(tries) - SentCount(old(tries)) == |packets| - |old(packets)|
      ensures rc == 0 ==> Stopped(why, old(packets), old(tries))
      ensures env.Obliging? ==> rc == 0 && (Full() ==> Ns(env.now) + FUZZ_NS <= Ns(nextFlushTime))
      ensures pcm.level <= old(pcm.level)
      ensures Answers(old(tries), tries, rc)
      ensures Backlogged(old(packets), packets, 1, writeBlock, config.formatBytes, old(pcm.level))
      ensures old(!Full()) ==>
                unchanged(pcm) && payload == old(payload) && bufUsed == old(bufUsed) && packets == old(packets)
    {
      hide Stamp, Sequence, U32, Wrap, RingQueue, ReadSpan, Times, Units, PerFrame, WriteBlock, Contents, Flatten;
      hide Filling, ProperStream, Balanced, OnSchedule, Usable, Configured, PeriodNs, Ns, SentCount, Exhausted, Valid;
      hide Backlog, QueuedFrames, Stalled, Full, After, Buffer.Valid, Buffer.Readable, SentSamples, AllLeft, Answers;
      hide Backlogged, Stopped;
      TriedOnce(tries, tries, Attempt(0, 0, 0));
      SentOneMore(packets, packets, writeBlock, config.formatBytes, pcm.level);
      why := NoPacket;
      ghost var short, l := !Full(), pcm.level;
      while true
        invariant Valid() && running && Exhausted() && Backlog() <= old(Backlog())
        invariant old(packets) <= packets && old(tries) <= tries && pcm.level <= l
        invariant SentCount(tries) - SentCount(old(tries)) == |packets| - |old(packets)|
        invariant short ==> !Full() && unchanged(pcm) && payload == old(payload) && bufUsed == old(bufUsed)
        invariant short ==> packets == old(packets)
        invariant AllLeft(old(tries), tries) && Backlogged(old(packets), packets, 0, writeBlock, config.formatBytes, l)
        decreases Backlog()
      {
        ValidMeans();
        TriedOnce(old(tries), tries, Attempt(0, 0, 0));
        SentOneMore(old(packets), packets, writeBlock, config.formatBytes, l);
        var clock := Now(env);
        FuzzNs();
        var now := Add(clock, Timespec(0, FUZZ_NS));
        AfterIsLater(now, nextFlushTime);
        if !After(now, nextFlushTime) {
          StopsEarly(clock, old(packets), old(tries));
          return 0, TooEarly(Ns(clock));
        }
        ghost var before := tries;
        var written := TryFlush(clock);
        TriedOnce(old(tries), before, Attempt(SentCount(before), Ns(clock), if written > 0 then 0 else -written));
        if written == -EAGAIN {
          StopsFull(old(packets), old(tries));
          return 0, SocketFull;
        } else if written < 0 {
          return written, why;
        }
        var queuedFrames := QueuedFrames();
        QueuedMeans();
        UnitsMonotone(pcm.level, l, config.formatBytes);
        if !(written > 0 && writeBlock + writeBlock < queuedFrames) {
          StopsShort(written > 0, old(packets), old(tries));
          return 0, if written > 0 then LowLevel else NoPacket;
        }
        var err := EncodeA2dpPacket();
        if err < 0 {
          return err, why;
        }
      }
    }

    /** Whenever encode_and_flush stops without an error, nothing more can be encoded and either the time has
        not come, or the socket is full, or less than a block is readable; or a packet has left and at most
        two write blocks of PCM are queued. */
    ghost predicate Stopped(why: Stop, sent: seq<Packet>, tried: seq<Attempt>)
      requires Valid()
      reads this, pcm, pcm.bytes
    {
      && (why != LowLevel ==> Exhausted())
      && match why
         case TooEarly(at) => at + FUZZ_NS <= Ns(nextFlushTime)
         case SocketFull => |tries| > |tried| && tries[|tries| - 1].errno == EAGAIN
         case NoPacket => pcm.Readable() < config.codesize
         case LowLevel => |packets| > |sent| && QueuedFrames() <= writeBlock + writeBlock
    }

    /** encode_and_flush: encode, then send as many packets as the clock and the backlog allow. While the
        packet has room and less than a block is readable, nothing moves. */
    method EncodeAndFlush() returns (rc: int, ghost why: Stop)
      requires Valid()
      modifies this`frameCount, this`bufUsed, this`samples, this`nsamples, this`payload, this`seqNum, this`packets
      modifies this`nextFlushTime, this`tries, pcm`readIdx, pcm`level
      ensures Valid() && rc <= 0
      ensures old(packets) <= packets && old(tries) <= tries && Backlog() <= old(Backlog())
      ensures SentCount(tries) - SentCount(old(tries)) == |packets| - |old(packets)|
      ensures deviceGone ==> rc == -EINVAL
      ensures !running || deviceGone ==> unchanged(this) && unchanged(pcm)
      ensures rc == 0 && running ==> Stopped(why, old(packets), old(tries))
      ensures env.Obliging? && running && !deviceGone ==>
                rc == 0 && (Full() ==> Ns(env.now) + FUZZ_NS <= Ns(nextFlushTime))
      ensures rc == 0 && running && old(!Full() && pcm.Readable() >= config.codesize) ==>
                pcm.level + config.codesize <= old(pcm.level)
      ensures pcm.level <= old(pcm.level)
      ensures Answers(old(tries), tries, rc)
      ensures Backlogged(old(packets), packets, 1, writeBlock, config.formatBytes, old(pcm.level))
      ensures old(!Full() && pcm.Readable() < config.codesize) ==>
                unchanged(pcm) && payload == old(payload) && bufUsed == old(bufUsed) && packets == old(packets)
    {
      hide Stamp, Sequence, U32, Wrap, RingQueue, ReadSpan, Times, Units, PerFrame, WriteBlock, Contents, Flatten;
      hide Filling, ProperStream, Balanced, OnSchedule, Usable, Configured, PeriodNs, Ns, SentCount, Exhausted, Valid;
      hide Backlog, QueuedFrames, Stalled, Stopped, Buffer.Valid, Buffer.Readable, SentSamples;
      why := NoPacket;
      ValidMeans();
      if deviceGone {
        return -EINVAL, why;
      }
      if !running {
        return 0, why;
      }
      ghost var l := pcm.level;
      var err := EncodeA2dpPacket();
      if err < 0 {
        return err, why;
      }
      ghost var level := pcm.level;
      rc, why := Flush();
      PositiveFormat();
      UnitsMonotone(level, l, config.formatBytes);
    }

    /** Whole PCM frames in the ring. */
    function QueuedFrames(): nat
      requires Valid()
      reads this, pcm, pcm.bytes
    {
      PositiveFormat();
      Units(pcm.level, config.formatBytes)
    }

    lemma StopsEarly(clock: Timespec, sent: seq<Packet>, tried: seq<Attempt>)
      requires Valid() && Exhausted() && Ns(clock) + FUZZ_NS <= Ns(nextFlushTime)
      ensures Stopped(TooEarly(Ns(clock)), sent, tried)
    {
    }

    lemma StopsFull(sent: seq<Packet>, tried: seq<Attempt>)
      requires Valid() && Exhausted() && |tries| > |tried| && tries[|tries| - 1].errno == EAGAIN
      ensures Stopped(SocketFull, sent, tried)
    {
    }

    lemma StopsShort(packetLeft: bool, sent: seq<Packet>, tried: seq<Attempt>)
      requires Valid()
      requires if packetLeft then |packets| > |sent| && QueuedFrames() <= writeBlock + writeBlock
               else Exhausted() && pcm.Readable() < config.codesize
      ensures Stopped(if packetLeft then LowLevel else NoPacket, sent, tried)
    {
    }

    lemma QueuedMeans()
      requires Valid()
      ensures 0 < config.formatBytes && QueuedFrames() == Units(pcm.level, config.formatBytes)
    {
    }

    lemma PositiveFormat()
      requires Configured()
      ensures 0 < config.formatBytes && 0 < config.frameLength && 0 < config.codesize
      ensures Ns(flushPeriod) == PeriodNs() && Normal(flushPeriod) && writeBlock == WriteBlock(config)
      ensures Usable(config) && (env.Obliging? ==> Normal(env.now))
      ensures HEADER_BYTES + config.frameLength <= config.mtu
    {
    }

    lemma ValidMeans()
      requires Valid()
      ensures Normal(nextFlushTime) && Configured() && (env.Obliging? ==> Normal(env.now))
      ensures pcm.Valid() && pcm.usedSize == PCM_BUF_MAX_SIZE_BYTES
    {
    }

    /** get_buffer: how many frames may be written in one piece. */
    method GetBuffer(wanted: nat) returns (frames: nat)
      requires Valid()
      ensures frames <= wanted && Times(frames, config.formatBytes) <= pcm.Writable()
      ensures frames == wanted || pcm.Writable() < Times(frames + 1, config.formatBytes)
    {
      hide Times, WriteBlock, Filling, ProperStream, Balanced, OnSchedule, Usable, Configured, PeriodNs, Ns, Normal;
      hide WriteSpan, RingAt;
      PositiveFormat();
      var room := Units(pcm.Writable(), config.formatBytes);
      frames := Min(wanted, room);
      RoomFor(pcm.Writable(), config.formatBytes);
      TimesMonotone(frames, room, config.formatBytes);
    }

    /** put_buffer: the frames a stream stored at the write pointer are accepted, or too many are refused and
        nothing changes. A stalled device takes what it is given and never encodes or sends again. */
    method PutBuffer(frames: nat) returns (rc: int)
      requires Valid()
      modifies this`frameCount, this`bufUsed, this`samples, this`nsamples, this`payload, this`seqNum, this`packets
      modifies this`nextFlushTime, this`tries, this`input, pcm`readIdx, pcm`writeIdx, pcm`level
      ensures Valid() && old(packets) <= packets
      ensures SentCount(tries) - SentCount(old(tries)) == |packets| - |old(packets)|
      ensures var n := Times(frames, config.formatBytes);
              if n > old(pcm.Writable()) then rc == -EINVAL && unchanged(this) && unchanged(pcm)
              else old(pcm.writeIdx) + n <= PCM_BUF_MAX_SIZE_BYTES && rc <= 0 &&
                   input == old(input) + old(pcm.bytes[..])[old(pcm.writeIdx)..old(pcm.writeIdx) + n] &&
                   pcm.writeIdx == Wrap(old(pcm.writeIdx) + n, PCM_BUF_MAX_SIZE_BYTES) &&
                   old(pcm.level) + n <= PCM_BUF_MAX_SIZE_BYTES && pcm.level <= old(pcm.level) + n
      ensures var n := Times(frames, config.formatBytes);
              n <= old(pcm.Writable()) && env.Obliging? && running && !deviceGone ==>
                rc == 0 && (Full() ==> Ns(env.now) + FUZZ_NS <= Ns(nextFlushTime))
      ensures var n := Times(frames, config.formatBytes);
              var readable := Min(old(pcm.level) + n, PCM_BUF_MAX_SIZE_BYTES - old(pcm.readIdx));
              n <= old(pcm.Writable()) && !old(Full()) ==>
                && (readable < config.codesize ==>
                      && pcm.readIdx == old(pcm.readIdx) && pcm.level == old(pcm.level) + n && !Full()
                      && payload == old(payload) && packets == old(packets))
                && (readable >= config.codesize && rc == 0 && running ==>
                      pcm.level + config.codesize <= old(pcm.level) + n)
      ensures old(Stalled()) ==>
                Stalled() && pcm.readIdx == old(pcm.readIdx) && payload == old(payload) && packets == old(packets)
    {
      hide Times, Units, PerFrame, WriteBlock, Flatten, Contents, Filling, ProperStream, Balanced, OnSchedule, Usable;
      hide Configured, PeriodNs, Ns, Normal, SentCount, WriteSpan, ReadSpan, Wrap, RingQueue, Multiple, Exhausted;
      var writtenBytes := Times(frames, config.formatBytes);
      if writtenBytes > pcm.Writable() {
        return -EINVAL;
      }
      StoreBytes(writtenBytes);
      ExhaustedMeans();
      ghost var why: Stop;
      rc, why := EncodeAndFlush();
    }

    /** Running, on an obliging environment, with a packet that has room and time enough for as many packets as
        bytes that two rings hold. */
    ghost predicate Ready()
      reads this, pcm, pcm.bytes
    {
      && Valid() && env.Obliging? && running && !deviceGone && !Full()
      && SentCount(tries) == |packets|
      && Ns(env.now) + FUZZ_NS > started + Times(131072, PeriodNs())
    }

    /** With so much time, no packet is too early. */
    lemma InTime()
      requires Valid() && SentCount(tries) == |packets| && |input| <= 131072
      requires env.Obliging? && Ns(env.now) + FUZZ_NS > started + Times(131072, PeriodNs())
      ensures Ns(env.now) + FUZZ_NS > Ns(nextFlushTime)
    {
      hide Times, Filling, Configured, Ns, PeriodNs, RingAt, Flatten, Contents, ProperPacket, RingQueue;
      PositiveFormat();
      PacketsHoldBytes(config, packets);
      TimesMonotone(|packets|, 131072, PeriodNs());
    }

    /** Where a ready device's ring stands and what can be written to it. */
    lemma ReadyMeans()
      requires Ready()
      ensures Valid() && env.Obliging? && running && !deviceGone
      ensures pcm.writeIdx == Wrap(pcm.readIdx + pcm.level, 65536)
      ensures pcm.readIdx < 65536 && pcm.level <= 65536
      ensures pcm.Writable() == Min(65536 - pcm.level, 65536 - pcm.writeIdx)
      ensures config.codesize > 0 && config.formatBytes > 0 && Multiple(config.codesize, config.formatBytes)
      ensures Stalled() <==> 65536 - pcm.readIdx < config.codesize <= pcm.level
    {
      hide Filling, ProperStream, Balanced, OnSchedule, RingQueue, Multiple, Ns, PeriodNs, SentCount;
      SpansExact(pcm.readIdx, pcm.level, 65536);
    }

    /** With its ring empty and as much put in as a packet holds, a ready device has sent one. */
    lemma PacketHasLeft()
      requires Ready() && pcm.level == 0 && |input| >= BlockBytes(config)
      ensures Valid() && Usable(config) && packets != [] && ProperStream(config, packets)
      ensures ProperPacket(config, packets, 0)
    {
      hide Times, Ns, PeriodNs, ProperPacket, OnSchedule, RingAt, WriteBlock, PerFrame, RingQueue, Contents, Flatten;
      hide BlockBytes;
      assert Contents([]) == [] by {
        NoContents();
      }
      FlattenSize(payload, config.codesize);
      RoomForLess(config, |payload|);
    }

    /** A ready device takes n bytes and is ready again. */
    method PutBytes(n: nat)
      requires Ready() && Multiple(n, config.formatBytes) && n <= pcm.Writable() && |input| + n <= 131072
      modifies this, pcm
      ensures Ready() && |input| == old(|input|) + n
      ensures pcm.writeIdx == Wrap(old(pcm.writeIdx) + n, PCM_BUF_MAX_SIZE_BYTES)
      ensures if Min(old(pcm.level) + n, PCM_BUF_MAX_SIZE_BYTES - old(pcm.readIdx)) < config.codesize
              then pcm.readIdx == old(pcm.readIdx) && pcm.level == old(pcm.level) + n
              else pcm.level + config.codesize <= old(pcm.level) + n
    {
      hide Times, Valid, Configured, Ns, PeriodNs, SentCount, Stalled, WriteSpan, ReadSpan, Wrap, Multiple;
      ValidMeans();
      PositiveFormat();
      ZeroMultiple(config.formatBytes);
      SumMultiple(n, 0, config.formatBytes);
      var rc := PutBuffer(Units(n, config.formatBytes));
      InTime();
    }

    /** The bytes at the write pointer join the ring. */
    method StoreBytes(n: nat)
      requires Valid() && n <= pcm.Writable()
      modifies this`input, pcm`writeIdx, pcm`level
      ensures Valid() && old(pcm.writeIdx) + n <= PCM_BUF_MAX_SIZE_BYTES
      ensures input == old(input) + pcm.bytes[..][old(pcm.writeIdx)..old(pcm.writeIdx) + n]
      ensures pcm.level == old(pcm.level) + n
      ensures pcm.writeIdx == Wrap(old(pcm.writeIdx) + n, PCM_BUF_MAX_SIZE_BYTES)
    {
      hide Flatten, Contents, Filling, ProperStream, OnSchedule, Configured, WriteSpan, ReadSpan, Wrap, Multiple;
      ghost var w, q := pcm.writeIdx, pcm.Queue();
      pcm.IncrementWrite(n);
      ghost var added := pcm.bytes[..][w..w + n];
      input := input + added;
      JoinsEnd(Contents(packets) + Flatten(payload), q, added);
    }
  }

  lemma JoinsEnd(before: seq<Byte>, q: seq<Byte>, added: seq<Byte>)
    ensures (before + q) + added == before + (q + added)
  {
  }

  lemma FuzzNs()
    ensures Ns(Timespec(0, FUZZ_NS)) == FUZZ_NS
  {
  }

  /** A try whose time has come keeps the schedule, with the next flush time moved on if it succeeds. */
  lemma TryKeeps(tries: seq<Attempt>, a: Attempt, start: int, period: nat, next: Timespec, clock: Timespec)
    requires OnSchedule(tries, start, period, next) && a.packet == SentCount(tries)
    requires Ns(clock) == a.at && Ns(clock) + FUZZ_NS > Ns(next)
    ensures !a.Sent() ==> OnSchedule(tries + [a], start, period, next)
    ensures a.Sent() ==> forall next' :: Normal(next') && Ns(next') == Ns(next) + period ==>
                         OnSchedule(tries + [a], start, period, next')
    ensures SentCount(tries + [a]) == SentCount(tries) + if a.Sent() then 1 else 0
  {
    PacedGrows(tries, a, start, period);
    TimesSum(a.packet, 1, period);
    assert Times(1, period) == period;
    hide Paced, OnTime, Times;
  }

  /** A successful send of a full packet. */
  lemma SendKeeps(c: Config, bufUsed: nat, frameCount: nat, seqNum: nat, samples: nat, nsamples: nat,
                  payload: seq<Frame>, packets: seq<Packet>, input: seq<Byte>, queue: seq<Byte>)
    requires Filling(c, bufUsed, frameCount, seqNum, samples, nsamples, payload, packets)
    requires ProperStream(c, packets) && Balanced(input, packets, payload, queue)
    requires bufUsed + c.frameLength > c.mtu
    ensures var p := Stamp(seqNum, nsamples, frameCount, bufUsed, payload);
            && Filling(c, HEADER_BYTES, 0, Sequence(seqNum + 1), 0, nsamples, [], packets + [p])
            && ProperStream(c, packets + [p]) && Balanced(input, packets + [p], [], queue)
    ensures samples == WriteBlock(c) > 0 && |payload| > 0
  {
    hide Stamp, Sequence, Times, WriteBlock, PerFrame, SentSamples, ProperStream, Balanced, Contents, Flatten;
    FullPacketIsProper(c, packets, payload);
    EmptyPacket(c, |payload|);
    BalancedSend(input, packets, Stamp(seqNum, nsamples, frameCount, bufUsed, payload), queue);
    NextSequence(|packets|);
  }

  lemma BalancedSend(input: seq<Byte>, packets: seq<Packet>, p: Packet, queue: seq<Byte>)
    requires Balanced(input, packets, p.frames, queue)
    ensures Balanced(input, packets + [p], [], queue)
  {
    assert (packets + [p])[..|packets|] == packets;
    assert Contents(packets) + Flatten(p.frames) + Flatten([]) == Contents(packets) + Flatten(p.frames);
  }

  lemma EmptyPacket(c: Config, n: nat)
    ensures Times(0, c.frameLength) == Times(0, c.codesize) == Times(0, PerFrame(c)) == 0
    ensures n > 0 ==> Times(n, c.codesize) >= c.codesize
    ensures n == 0 ==> Times(n, PerFrame(c)) == 0
    requires 0 < c.formatBytes
  {
    if n > 0 {
      AtLeast(n, c.codesize);
    }
  }

  /** A full packet under construction, sent with the next sequence number, continues a proper stream. */
  lemma FullPacketIsProper(c: Config, ps: seq<Packet>, payload: seq<Frame>)
    requires Usable(c) && ProperStream(c, ps) && Blocks(payload, c.codesize)
    requires HEADER_BYTES + Times(|payload|, c.frameLength) <= c.mtu
    requires c.mtu < HEADER_BYTES + Times(|payload|, c.frameLength) + c.frameLength
    ensures var samples := Times(|payload|, PerFrame(c));
            var p := Stamp(Sequence(|ps|), SentSamples(c, ps) + samples, |payload|,
                           HEADER_BYTES + Times(|payload|, c.frameLength), payload);
            && ProperStream(c, ps + [p]) && samples == WriteBlock(c) > 0
            && SentSamples(c, ps + [p]) == SentSamples(c, ps) + samples
            && Contents(ps + [p]) == Contents(ps) + Flatten(payload)
  {
    FullHoldsWriteBlock(c, |payload|);
    WriteBlockPositive(c);
    hide Times, WriteBlock, PerFrame, Flatten;
    var samples := Times(|payload|, PerFrame(c));
    var p := Stamp(Sequence(|ps|), SentSamples(c, ps) + samples, |payload|,
                   HEADER_BYTES + Times(|payload|, c.frameLength), payload);
    var qs := ps + [p];
    assert qs[..|ps|] == ps && qs[..|qs|] == qs;
    assert SentSamples(c, qs[..|ps| + 1]) == SentSamples(c, ps) + samples;
    StreamGrows(c, ps, p);
  }

  lemma WriteBlockPositive(c: Config)
    requires Usable(c)
    ensures WriteBlock(c) > 0
  {
    var n := Units(c.mtu - HEADER_BYTES, c.frameLength);
    assert c.mtu - HEADER_BYTES == n * c.frameLength + (c.mtu - HEADER_BYTES) % c.frameLength;
    AtLeastOne(c.mtu - HEADER_BYTES, c.frameLength);
    AtLeast(n, c.codesize);
    Quotient(c.codesize, PerFrame(c), 0, c.formatBytes);
    AtLeastOne(Times(n, c.codesize), c.formatBytes);
    assert c.codesize >= c.formatBytes by {
      if PerFrame(c) >= 1 {
        AtLeast(PerFrame(c), c.formatBytes);
      }
    }
  }

  /** As many units as fit, and not one more. */
  lemma RoomFor(n: nat, d: nat)
    requires 0 < d
    ensures Times(Units(n, d), d) <= n < Times(Units(n, d) + 1, d)
  {
    TimesSum(Units(n, d), 1, d);
  }

  lemma AtLeastOne(n: nat, d: nat)
    requires 0 < d <= n
    ensures n / d > 0
  {
    assert n == (n / d) * d + n % d;
  }

  /** What moves from the queue into the packet stays in the balance. */
  lemma MoveAcross(input: seq<Byte>, packets: seq<Packet>, p: seq<Frame>, p': seq<Frame>, q: seq<Byte>,
                   view: seq<Byte>, n: nat)
    requires Balanced(input, packets, p, q) && n <= |view| <= |q| && view == q[..|view|]
    requires Flatten(p') == Flatten(p) + view[..n]
    ensures Balanced(input, packets, p', q[n..])
  {
    hide Flatten, Contents;
    assert view[..n] == q[..n] && q[..n] + q[n..] == q;
    assert Contents(packets) + (Flatten(p) + q[..n]) + q[n..] == Contents(packets) + Flatten(p) + (q[..n] + q[n..]);
  }

  /** The counters a2dp_encode keeps in bytes and PCM frames, after n more SBC frames. */
  lemma EncodedTotals(c: Config, m: nat, n: nat)
    requires Usable(c)
    ensures Units(Times(n, c.codesize), c.codesize) == n && Multiple(Times(n, c.codesize), c.codesize)
    ensures Units(Times(n, c.codesize), c.formatBytes) == Times(n, PerFrame(c))
    ensures Times(m + n, PerFrame(c)) == Times(m, PerFrame(c)) + Times(n, PerFrame(c))
    ensures Times(m + n, c.codesize) == Times(m, c.codesize) + Times(n, c.codesize)
    ensures Times(m + n, c.frameLength) == Times(m, c.frameLength) + Times(n, c.frameLength)
  {
    TimesMultiple(n, c.codesize);
    TimesSum(m, n, PerFrame(c));
    TimesSum(m, n, c.codesize);
    TimesSum(m, n, c.frameLength);
    var per, f := PerFrame(c), c.formatBytes;
    assert c.codesize == per * f;
    assert n * (per * f) == (n * per) * f;
    Quotient(Times(n, c.codesize), n * per, 0, f);
  }

  // ----- a run across the seam -----

  /** A device that is ready, with nothing put in. Its clock stands far enough behind the start. */
  method ReadyDevice(config: Config, start: Timespec) returns (d: Device)
    requires Usable(config) && Normal(start)
    ensures fresh(d) && fresh(d.pcm) && fresh(d.pcm.bytes)
    ensures d.Ready() && d.config == config && d.input == [] && d.pcm.level == 0 && d.pcm.readIdx == 0
  {
    WriteBlockPositive(config);
    hide Times, WriteBlock, Filling, ProperStream, Balanced, RingAt, OnSchedule, Usable;
    var period := FramesToTime(WriteBlock(config), config.rate);
    var now := Timespec(start.sec + 131072 * (period.sec + 1), start.nsec);
    d := new Device(config, Obliging(now));
    d.running := true;
    d.Start(start);
    LongAfter(start, period);
  }

  lemma LongAfter(start: Timespec, period: Timespec)
    requires Normal(period) && period.sec >= 0
    ensures Ns(Timespec(start.sec + 131072 * (period.sec + 1), start.nsec)) >= Ns(start) + Times(131072, Ns(period))
  {
  }

  /** Block after block, up to the last block boundary of the ring. */
  method FillToSeam(d: Device) returns (at: nat)
    requires d.Ready() && d.input == [] && d.pcm.level == 0 && d.pcm.readIdx == 0
    requires Multiple(65536, d.config.formatBytes)
    modifies d, d.pcm
    ensures d.Ready() && |d.input| == at <= 65536 < at + d.config.codesize
    ensures Multiple(at, d.config.codesize) && (at < 65536 ==> Multiple(65536 - at, d.config.formatBytes))
    ensures d.pcm.level == 0 && d.pcm.readIdx == Wrap(at, 65536)
  {
    hide Device.Valid, Device.Stalled, Device.Ready, Buffer.Writable, Multiple;
    d.ReadyMeans();
    var c := d.config.codesize;
    at := 0;
    ZeroMultiple(c);
    ZeroMultiple(d.config.formatBytes);
    while 65536 - at >= c
      invariant at <= 65536 && Multiple(at, c) && Multiple(at, d.config.formatBytes)
      invariant d.Ready() && |d.input| == at && d.pcm.level == 0 && d.pcm.readIdx == Wrap(at, 65536)
    {
      d.ReadyMeans();
      d.PutBytes(c);
      d.ReadyMeans();
      SumMultiple(at, c, c);
      SumMultiple(at, c, d.config.formatBytes);
      at := at + c;
    }
    DifferenceMultiple(65536, at, d.config.formatBytes);
  }

  /** A run on a fresh device: block after block up to the end of the ring, then a block across it. It stalls
      the device exactly when a block fits the ring and the ring is not a whole number of blocks. By
      Device.NeverStalled no run stalls any other device, and by Device.PutBuffer a stalled one never encodes
      or sends again. */
  method RunAcrossSeam(config: Config, start: Timespec) returns (d: Device)
    requires Usable(config) && Multiple(65536, config.formatBytes) && Normal(start)
    ensures fresh(d) && d.Valid() && d.config == config && d.env.Obliging? && d.running && !d.deviceGone
    ensures d.Stalled() <==> config.codesize <= 65536 && !Multiple(65536, config.codesize)
  {
    hide Device.Valid, Device.Stalled, Device.Ready, Buffer.Writable, Multiple, Usable;
    d := ReadyDevice(config, start);
    var at := FillToSeam(d);
    d.ReadyMeans();
    if 0 < at < 65536 {
      var c := config.codesize;
      AtLeastOneBlock(at, c);
      if Multiple(65536, c) {
        DifferenceMultiple(65536, at, c);
        AtLeastOneBlock(65536 - at, c);
      }
      d.PutBytes(65536 - at);
      d.ReadyMeans();
      d.PutBytes(c);
      d.ReadyMeans();
    }
  }

  lemma LastBoundary(c: Config, at: nat)
    requires Usable(c) && Multiple(at, c.codesize) && BlockBytes(c) <= 65536 < at + c.codesize
    ensures at >= BlockBytes(c)
  {
    TimesMultiple(Units(c.mtu - HEADER_BYTES, c.frameLength), c.codesize);
    if BlockBytes(c) > at {
      DifferenceMultiple(BlockBytes(c), at, c.codesize);
      AtLeastOneBlock(BlockBytes(c) - at, c.codesize);
    }
  }

  /** A run from a new device up to the last block boundary of the ring, for packets that do not hold more than
      a ring: a packet has left, and its frame count is wrong exactly if it holds 16 SBC frames or more. */
  method RunToPacket(config: Config, start: Timespec) returns (d: Device)
    requires Usable(config) && Multiple(65536, config.formatBytes) && Normal(start)
    requires BlockBytes(config) <= 65536
    ensures fresh(d) && d.Valid() && d.config == config && d.packets != []
    ensures d.packets[0].sequence == 0 && d.packets[0].timestamp == WriteBlock(config)
    ensures d.packets[0].frameCount == |d.packets[0].frames| <==> WriteBlock(config) < Times(16, PerFrame(config))
  {
    hide Device.Valid, Device.Stalled, Device.Ready, Multiple, Usable, WriteBlock, Times, PerFrame, BlockBytes;
    d := ReadyDevice(config, start);
    var at := FillToSeam(d);
    LastBoundary(config, at);
    d.PacketHasLeft();
    FrameCountIff(config, d.packets, 0);
    HeaderFields(config, d.packets, 0);
    FirstTimestamp(config);
  }

  lemma FirstTimestamp(c: Config)
    requires Usable(c) && BlockBytes(c) <= 65536
    ensures Times(1, WriteBlock(c)) % 0x1_0000_0000 == WriteBlock(c)
  {
    UnitsAtMost(BlockBytes(c), c.formatBytes);
    OneUnit(WriteBlock(c));
  }

  lemma UnitsAtMost(n: nat, d: nat)
    requires 0 < d
    ensures Units(n, d) <= n
  {
    RoomFor(n, d);
    TimesAtLeast(Units(n, d), d);
  }

  lemma TimesAtLeast(k: nat, d: nat)
    requires 0 < d
    ensures Times(k, d) >= k
  {
    assert k * d == k * (d - 1) + k;
  }

  lemma OneUnit(n: nat)
    requires n < 0x1_0000_0000
    ensures Times(1, n) % 0x1_0000_0000 == n
  {
  }

  /** Such a configuration: 512-byte blocks of 16-bit stereo, frames of 119 bytes, the largest MTU. A packet holds 17
      SBC frames and announces one. */
  lemma SeventeenFrames()
    ensures var c := Config(512, 119, 2048, 4, 44100);
            Usable(c) && BlockBytes(c) <= 65536 && WriteBlock(c) == Times(17, PerFrame(c))
  {
    Quotient(2035, 17, 12, 119);
    Quotient(512, 128, 0, 4);
    Quotient(17 * 512, 17 * 128, 0, 4);
  }
}
