/** The shared-memory double buffer (common/cras_shm.h): two sample areas with offsets and alternating
    indices, which together behave as one first-in first-out queue of bytes. */
module Shm {
  import opened Arithmetic
  import opened Options

  const NUM_SHM_BUFFERS := 2

  datatype Readable = Readable(position: nat, frames: nat)

  /** The bytes between two offsets of the area at base. */
  function Area(s: seq<Byte>, base: nat, from: nat, to: nat): (r: seq<Byte>)
    requires from <= to && base + to <= |s|
    ensures |r| == to - from
  {
    s[base + from..base + to]
  }

  /** Offsets of the buffer being read (read, write) and of the other one (read2, write2): whole frames,
      something left to read unless both are empty, nothing read yet from the other one. */
  ghost predicate Shape(used: nat, f: nat, read: nat, read2: nat, write: nat, write2: nat) {
    && write <= used && write2 <= used
    && Multiple(write, f) && Multiple(write2, f) && Multiple(read, f)
    && read2 == 0
    && (if write == 0 then read == 0 && write2 == 0 else read < write)
  }

  /** The two areas as one queue. */
  function TwoAreas(s: seq<Byte>, base: nat, read: nat, write: nat, base2: nat, write2: nat): (r: seq<Byte>)
    requires read <= write && base + write <= |s| && base2 + write2 <= |s|
    ensures |r| == write - read + write2
  {
    Area(s, base, read, write) + Area(s, base2, 0, write2)
  }

  /** Where frame at / f of the queue is, as cras_shm_get_readable_frames computes it. */
  function Locate(f: nat, base: nat, final: nat, write: nat, base2: nat, write2: nat): Option<Readable>
    requires 0 < f
  {
    if final < write then Some(Readable(base + final, Units(write - final, f)))
    else if final - write < write2 then Some(Readable(base2 + (final - write), Units(write2 - (final - write), f)))
    else None
  }

  /** The answer points at byte at of the queue: frames of it lie there in one piece, up to the end of the
      first area (seam) or of the queue. No answer means that the queue is not that long. */
  ghost predicate Points(answer: Option<Readable>, s: seq<Byte>, q: seq<Byte>, f: nat, at: nat, seam: int) {
    match answer
    case None => |q| <= at
    case Some(Readable(p, frames)) =>
      var n := Times(frames, f);
      && 0 < frames && at + n <= |q| && p + n <= |s|
      && s[p..p + n] == q[at..at + n]
      && (at + n == |q| || at + n == seam)
  }

  /** Beyond the queue only no answer is right. */
  lemma PointsBeyond(answer: Option<Readable>, s: seq<Byte>, q: seq<Byte>, f: nat, at: nat, seam: int)
    requires at > |q|
    ensures Points(answer, s, q, f, at, seam) <==> answer == None
  {
  }

  lemma LocateNothing(f: nat, base: nat, final: nat, write: nat, base2: nat, write2: nat)
    requires 0 < f
    ensures Locate(f, base, final, write, base2, write2) == None <==> final >= write + write2
  {
    hide Units;
  }

  /** struct cras_audio_shm with its header. Unsigned 32-bit fields are numbers below 2^32. */
  class AudioShm {
    var usedSize: nat
    var frameBytes: nat
    const samples: array<Byte>
    var readBufIdx: nat
    var writeBufIdx: nat
    var readOffset: seq<nat>
    var writeOffset: seq<nat>
    var bufferOffset: seq<nat>
    var writeInProgress: seq<bool>

    /** The configuration cras_shm_set_used_size sets up: two areas of used_size bytes, side by side. */
    ghost predicate Configured()
      reads this
    {
      && |readOffset| == |writeOffset| == |bufferOffset| == |writeInProgress| == NUM_SHM_BUFFERS
      && 0 < frameBytes && 0 < usedSize && 2 * usedSize < 0x1_0000_0000
      && samples.Length == NUM_SHM_BUFFERS * usedSize
      && bufferOffset[0] == 0 && bufferOffset[1] == usedSize
    }

    ghost predicate Valid()
      reads this
    {
      && Configured() && readBufIdx < 2 && writeBufIdx < 2
      && var r, o := readBufIdx, 1 - readBufIdx;
         && Shape(usedSize, frameBytes, readOffset[r], readOffset[o], writeOffset[r], writeOffset[o])
         && writeBufIdx == if writeOffset[r] > 0 && writeOffset[o] == 0 then o else r
    }

    /** The unread bytes, oldest first: the rest of the read buffer, then the other buffer. */
    ghost function Queue(): seq<Byte>
      requires Valid()
      reads this, samples
    {
      var r, o := readBufIdx, 1 - readBufIdx;
      TwoAreas(samples[..], bufferOffset[r], readOffset[r], writeOffset[r], bufferOffset[o], writeOffset[o])
    }

    /** The indices alone cannot tell empty from full. */
    lemma IndicesMeet()
      requires Valid()
      ensures writeBufIdx == readBufIdx <==>
              (writeOffset[0] == 0 && writeOffset[1] == 0) || (writeOffset[0] > 0 && writeOffset[1] > 0)
      ensures Queue() == [] <==> writeOffset[0] == 0 && writeOffset[1] == 0
    {
    }

    /** A segment as cras_audio_shm_create and cras_shm_set_used_size leave it. */
    constructor (used: nat, frame: nat)
      requires 0 < frame && 0 < used && 2 * used < 0x1_0000_0000
      ensures Valid() && Queue() == [] && usedSize == used && frameBytes == frame
      ensures fresh(samples)
    {
      usedSize, frameBytes := used, frame;
      samples := new Byte[2 * used](_ => 0);
      readBufIdx, writeBufIdx := 0, 0;
      readOffset, writeOffset, bufferOffset := [0, 0], [0, 0], [0, used];
      writeInProgress := [false, false];
    }

    function CheckedBufferOffset(i: nat): (r: nat)
      requires i < |bufferOffset|
      reads this
      ensures r <= samples.Length
    {
      Min(U32(bufferOffset[i]), samples.Length)
    }

    /** An invalid read offset counts as the beginning. */
    function CheckedReadOffset(i: nat): (r: nat)
      requires i < |bufferOffset| && i < |readOffset|
      reads this
      ensures r <= usedSize
      ensures CheckedBufferOffset(i) + usedSize < 0x1_0000_0000 ==> CheckedBufferOffset(i) + r <= samples.Length
      ensures readOffset[i] <= usedSize && CheckedBufferOffset(i) + readOffset[i] <= samples.Length ==>
                r == readOffset[i]
    {
      if readOffset[i] > usedSize then 0
      else if U32(CheckedBufferOffset(i) + readOffset[i]) > samples.Length then 0
      else readOffset[i]
    }

    /** A write offset is cut off at the end of the buffer and of the samples area. */
    function CheckedWriteOffset(i: nat): (r: nat)
      requires i < |bufferOffset| && i < |writeOffset|
      reads this
      ensures CheckedBufferOffset(i) + usedSize < 0x1_0000_0000 ==>
                r <= usedSize && CheckedBufferOffset(i) + r <= samples.Length
    {
      var write := Min(writeOffset[i], usedSize);
      if U32(CheckedBufferOffset(i) + write) > samples.Length then samples.Length - CheckedBufferOffset(i) else write
    }

    lemma CheckedOffsetsExact(i: nat)
      requires Valid() && i < 2
      ensures CheckedBufferOffset(i) == bufferOffset[i]
      ensures CheckedReadOffset(i) == readOffset[i] && CheckedWriteOffset(i) == writeOffset[i]
    {
    }

    /** cras_shm_get_readable_frames: None for the null pointer and no frames. */
    function GetReadableFrames(offset: nat): (res: Option<Readable>)
      requires Configured() && readBufIdx < 2
      reads this
    {
      var i, j := readBufIdx, (readBufIdx + 1) % 2;
      Locate(frameBytes, CheckedBufferOffset(i), U32(CheckedReadOffset(i) + Times(offset, frameBytes)),
             CheckedWriteOffset(i),
             CheckedBufferOffset(j), CheckedWriteOffset(j))
    }

    /** Peeking k frames ahead: a stretch of at least one frame of the queue that starts at frame k and
        ends with the queue or with the buffer, or nothing exactly when fewer frames are queued. */
    lemma ReadableIsQueue(offset: nat)
      requires Valid() && readOffset[readBufIdx] + Times(offset, frameBytes) < 0x1_0000_0000
      ensures Points(GetReadableFrames(offset), samples[..], Queue(), frameBytes, Times(offset, frameBytes),
                     writeOffset[readBufIdx] - readOffset[readBufIdx])
    {
      hide Multiple, Units, Times, U32, TwoAreas, Locate, Points;
      var r, o := readBufIdx, 1 - readBufIdx;
      CheckedOffsetsExact(r);
      CheckedOffsetsExact(o);
      LocateIsQueue(samples[..], usedSize, frameBytes, bufferOffset[r], readOffset[r], writeOffset[r],
                    bufferOffset[o], writeOffset[o], offset);
    }

    /** Exactly when the answer is right, for every offset and frame size: the byte offset stays below 2^32,
        or its 32-bit remainder lies past all that is written, so that nothing is found there either. */
    lemma ReadableIsQueueIff(offset: nat)
      requires Valid()
      ensures var r := readBufIdx;
              var final := readOffset[r] + Times(offset, frameBytes);
              Points(GetReadableFrames(offset), samples[..], Queue(), frameBytes, Times(offset, frameBytes),
                     writeOffset[r] - readOffset[r]) <==>
              final < 0x1_0000_0000 || U32(final) >= writeOffset[0] + writeOffset[1]
    {
      hide Multiple, Units, Times, U32, TwoAreas, Points, Locate;
      var r, o := readBufIdx, 1 - readBufIdx;
      CheckedOffsetsExact(r);
      CheckedOffsetsExact(o);
      ShapeBounds(usedSize, frameBytes, readOffset[r], readOffset[o], writeOffset[r], writeOffset[o]);
      if readOffset[r] + Times(offset, frameBytes) < 0x1_0000_0000 {
        ReadableIsQueue(offset);
      } else {
        PointsBeyond(GetReadableFrames(offset), samples[..], Queue(), frameBytes, Times(offset, frameBytes),
                     writeOffset[r] - readOffset[r]);
        LocateNothing(frameBytes, bufferOffset[r], U32(readOffset[r] + Times(offset, frameBytes)), writeOffset[r],
                      bufferOffset[o], writeOffset[o]);
      }
    }

    /** Offsets a multiple of 2^32 bytes apart get one answer. */
    lemma ReadableWraps(offset: nat, period: nat)
      requires Valid() && U32(Times(period, frameBytes)) == 0
      ensures GetReadableFrames(offset + period) == GetReadableFrames(offset)
    {
      hide Multiple, Units, Locate;
      TimesSum(offset, period, frameBytes);
      hide Times;
      WrapAround(CheckedReadOffset(readBufIdx) + Times(offset, frameBytes), Times(period, frameBytes));
    }

    /** An offset at which the answer is wrong, whatever the frame size: as soon as anything is queued, the
        first frame is found again 2^32 frames further on. */
    lemma ReadableFails()
      requires Valid() && Queue() != []
      ensures GetReadableFrames(0x1_0000_0000) == GetReadableFrames(0) != None
      ensures !Points(GetReadableFrames(0x1_0000_0000), samples[..], Queue(), frameBytes,
                      Times(0x1_0000_0000, frameBytes), writeOffset[readBufIdx] - readOffset[readBufIdx])
    {
      hide Points, Multiple, Units, TwoAreas, U32, Times;
      var r, o := readBufIdx, 1 - readBufIdx;
      CheckedOffsetsExact(r);
      CheckedOffsetsExact(o);
      ShapeBounds(usedSize, frameBytes, readOffset[r], readOffset[o], writeOffset[r], writeOffset[o]);
      WholeTurns(frameBytes, readOffset[r]);
      ReadableWraps(0, 0x1_0000_0000);
      ReadableIsQueueIff(0x1_0000_0000);
      assert readOffset[r] < writeOffset[r];
    }

    /** cras_shm_get_bytes_queued. */
    method GetBytesQueued() returns (total: nat)
      requires Valid()
      ensures total == |Queue()|
    {
      total := 0;
      for i := 0 to NUM_SHM_BUFFERS
        invariant total == (if i > 0 then writeOffset[0] - readOffset[0] else 0) +
                           (if i > 1 then writeOffset[1] - readOffset[1] else 0)
      {
        var read := Min(readOffset[i], usedSize);
        var write := Min(writeOffset[i], usedSize);
        if write > read {
          total := total + (write - read);
        }
      }
    }

    /** cras_shm_get_frames; the error case is -EIO for part of a frame. */
    method GetFrames() returns (frames: Option<nat>)
      requires Valid()
      ensures frames.Some? && Times(frames.value, frameBytes) == |Queue()|
    {
      var bytes := GetBytesQueued();
      DifferenceMultiple(writeOffset[readBufIdx], readOffset[readBufIdx], frameBytes);
      SumMultiple(writeOffset[readBufIdx] - readOffset[readBufIdx], writeOffset[1 - readBufIdx], frameBytes);
      if bytes % frameBytes != 0 {
        return None;
      }
      return Some(Units(bytes, frameBytes));
    }

    /** cras_shm_is_buffer_available. */
    predicate IsBufferAvailable()
      requires |writeOffset| == NUM_SHM_BUFFERS
      reads this
    {
      writeOffset[writeBufIdx % 2] == 0
    }

    /** cras_shm_buffer_write_complete. */
    method BufferWriteComplete()
      requires Configured()
      modifies this`writeBufIdx, this`writeInProgress
      ensures writeBufIdx == (old(writeBufIdx) + 1) % 2
      ensures writeInProgress == old(writeInProgress)[old(writeBufIdx) % 2 := false]
    {
      var i := writeBufIdx % 2;
      writeInProgress := writeInProgress[i := false];
      writeBufIdx := (i + 1) % 2;
    }

    /** cras_shm_buffer_written_start: the first frames of the write area join the queue. */
    method BufferWrittenStart(frames: nat)
      requires Valid() && IsBufferAvailable()
      requires 0 < frames && Times(frames, frameBytes) <= usedSize
      modifies this`writeBufIdx, this`readOffset, this`writeOffset, this`writeInProgress
      ensures Valid()
      ensures var base, n := old(bufferOffset[writeBufIdx]), Times(frames, frameBytes);
              Queue() == old(Queue()) + samples[..][base..base + n]
    {
      hide Times, Multiple, TwoAreas, U32;
      TimesMultiple(frames, frameBytes);
      ZeroMultiple(frameBytes);
      var i := writeBufIdx;
      ghost var r, n := readBufIdx, Times(frames, frameBytes);
      FirstGrows(samples[..], bufferOffset[r], bufferOffset[1 - r], n);
      SecondGrows(samples[..], bufferOffset[r], readOffset[r], writeOffset[r], bufferOffset[1 - r], n);
      writeOffset := writeOffset[i := U32(Times(frames, frameBytes))];
      readOffset := readOffset[i := 0];
      BufferWriteComplete();
    }

    /** A client's write: data into the write area, then cras_shm_buffer_written_start. */
    method Write(data: seq<Byte>, frames: nat)
      requires Valid() && IsBufferAvailable()
      requires 0 < frames && |data| == Times(frames, frameBytes) <= usedSize
      modifies this`writeBufIdx, this`readOffset, this`writeOffset, this`writeInProgress, samples
      ensures Valid() && Queue() == old(Queue()) + data
    {
      hide Times, Multiple, Area;
      ghost var s, r, o := samples[..], readBufIdx, 1 - readBufIdx;
      Fill(CheckedBufferOffset(writeBufIdx), data);
      AreaKept(s, samples[..], bufferOffset[writeBufIdx], data, bufferOffset[r], readOffset[r], writeOffset[r]);
      AreaKept(s, samples[..], bufferOffset[writeBufIdx], data, bufferOffset[o], 0, writeOffset[o]);
      BufferWrittenStart(frames);
    }

    /** The client's copy into the write area. */
    method Fill(base: nat, data: seq<Byte>)
      requires base + |data| <= samples.Length
      modifies samples
      ensures samples[..] == old(samples[..])[..base] + data + old(samples[..])[base + |data|..]
      ensures samples[..][base..base + |data|] == data
    {
      ghost var s := samples[..];
      for k := 0 to |data|
        invariant samples[..] == s[..base] + data[..k] + s[base + k..]
      {
        samples[base + k] := data[k];
      }
    }

    /** cras_shm_buffer_read: exactly the oldest frames leave, across both buffers if need be. */
    method BufferRead(frames: nat)
      requires Valid() && Times(frames, frameBytes) <= |Queue()|
      modifies this`readBufIdx, this`readOffset, this`writeOffset
      ensures Valid()
      ensures Queue() == old(Queue())[Times(frames, frameBytes)..]
    {
      hide Times, Multiple, TwoAreas, Shape, Consumed;
      FrameMultiple(frames);
      if frames == 0 {
        return;
      }
      ghost var r, o, n := readBufIdx, 1 - readBufIdx, Times(frames, frameBytes);
      ShapeBounds(usedSize, frameBytes, readOffset[r], readOffset[o], writeOffset[r], writeOffset[o]);
      DropOldest(samples[..], usedSize, frameBytes, bufferOffset[r], readOffset[r], writeOffset[r],
                 bufferOffset[o], writeOffset[o], n);
      Consumption(r, readOffset, writeOffset, n);
      Advance(frames);
    }

    lemma FrameMultiple(frames: nat)
      requires Configured()
      ensures Multiple(Times(frames, frameBytes), frameBytes) && (frames > 0 ==> Times(frames, frameBytes) > 0)
      ensures Times(0, frameBytes) == 0
    {
      TimesMultiple(frames, frameBytes);
    }

    /** The header update of cras_shm_buffer_read. */
    method Advance(frames: nat)
      requires readBufIdx < 2 && |readOffset| == |writeOffset| == 2 && frames > 0
      requires readOffset[readBufIdx] + Times(frames, frameBytes) < 0x1_0000_0000
      modifies this`readBufIdx, this`readOffset, this`writeOffset
      ensures (readBufIdx, readOffset, writeOffset) ==
              Consumed(old(readBufIdx), old(readOffset), old(writeOffset), Times(frames, frameBytes))
    {
      hide Times, U32;
      var i := readBufIdx;
      readOffset := readOffset[i := U32(readOffset[i] + Times(frames, frameBytes))];
      if readOffset[i] >= writeOffset[i] {
        var remainder := readOffset[i] - writeOffset[i];
        readOffset := readOffset[i := 0];
        writeOffset := writeOffset[i := 0];
        i := (i + 1) % 2;
        if remainder < writeOffset[i] {
          readOffset := readOffset[i := remainder];
        } else if remainder > 0 {
          writeOffset := writeOffset[i := 0];
          i := (i + 1) % 2;
        }
        readBufIdx := i;
      }
    }
  }

  /** Read index and offsets after n bytes have been read. */
  function Consumed(r: nat, ro: seq<nat>, wo: seq<nat>, n: nat): (nat, seq<nat>, seq<nat>)
    requires r < 2 && |ro| == |wo| == 2
  {
    if ro[r] + n < wo[r] then (r, ro[r := ro[r] + n], wo)
    else
      var rest, o := ro[r] + n - wo[r], (r + 1) % 2;
      var ro', wo' := ro[r := ro[r] + n][r := 0], wo[r := 0];
      if rest < wo[o] then (o, ro'[o := rest], wo')
      else if rest > 0 then (r, ro', wo'[o := 0])
      else (o, ro', wo')
  }

  /** The same, buffer by buffer. */
  lemma Consumption(r: nat, ro: seq<nat>, wo: seq<nat>, n: nat)
    requires r < 2 && |ro| == |wo| == 2 && ro[1 - r] == 0
    ensures var (r', ro', wo') := Consumed(r, ro, wo, n);
            var o, rest := 1 - r, ro[r] + n - wo[r];
            && |ro'| == |wo'| == 2
            && (if rest < 0 then r' == r && ro'[r] == ro[r] + n && ro'[o] == 0 && wo' == wo
                else if rest < wo[o] then r' == o && ro'[o] == rest && ro'[r] == 0 && wo'[o] == wo[o] && wo'[r] == 0
                else r' == (if rest > 0 then r else o) && ro' == [0, 0] && wo'[r] == 0
                     && (rest > 0 || wo[o] == 0 ==> wo' == [0, 0]))
  {
    if r == 0 {
    } else {
    }
  }

  lemma WrapAround(n: nat, turns: nat)
    requires U32(turns) == 0
    ensures U32(n + turns) == U32(n)
  {
  }

  lemma WholeTurns(f: nat, read: nat)
    requires 0 < f && read < 0x1_0000_0000
    ensures U32(Times(0x1_0000_0000, f)) == 0 && U32(read + Times(0x1_0000_0000, f)) == read
    ensures Times(0x1_0000_0000, f) >= 0x1_0000_0000 && Times(0, f) == 0 && U32(read) == read
  {
  }

  lemma FirstGrows(s: seq<Byte>, base: nat, base2: nat, n: nat)
    requires base + n <= |s| && base2 <= |s|
    ensures TwoAreas(s, base, 0, n, base2, 0) == TwoAreas(s, base, 0, 0, base2, 0) + s[base..base + n]
  {
  }

  lemma SecondGrows(s: seq<Byte>, base: nat, read: nat, write: nat, base2: nat, n: nat)
    requires read <= write && base + write <= |s| && base2 + n <= |s|
    ensures TwoAreas(s, base, read, write, base2, n) ==
            TwoAreas(s, base, read, write, base2, 0) + s[base2..base2 + n]
  {
  }

  lemma AreaDrop(s: seq<Byte>, base: nat, from: nat, to: nat, n: nat)
    requires from + n <= to && base + to <= |s|
    ensures Area(s, base, from + n, to) == Area(s, base, from, to)[n..]
  {
  }

  lemma ShapeBounds(used: nat, f: nat, read: nat, read2: nat, write: nat, write2: nat)
    requires Shape(used, f, read, read2, write, write2)
    ensures read <= write <= used && write2 <= used && read2 == 0 && (read == write <==> write == 0)
    ensures write == 0 ==> write2 == 0
  {
  }

  lemma LocateIsQueue(s: seq<Byte>, used: nat, f: nat, base: nat, read: nat, write: nat, base2: nat, write2: nat,
                      offset: nat)
    requires base + used <= |s| && base2 + used <= |s| && Shape(used, f, read, 0, write, write2)
    ensures Points(Locate(f, base, read + Times(offset, f), write, base2, write2), s,
                   TwoAreas(s, base, read, write, base2, write2), f, Times(offset, f), write - read)
  {
    hide Multiple, Units, Times, Area;
    var at := Times(offset, f);
    MultipleOfPositive(write, f);
    TimesMultiple(offset, f);
    SumMultiple(read, at, f);
    hide Shape;
    ShapeBounds(used, f, read, 0, write, write2);
    if read + at < write {
      DifferenceMultiple(write, read + at, f);
      StretchOfFirst(s, base, read, write, base2, write2, at);
    } else if read + at - write < write2 {
      var n := read + at - write;
      DifferenceMultiple(read + at, write, f);
      DifferenceMultiple(write2, n, f);
      StretchOfSecond(s, base, read, write, base2, write2, n);
    }
  }

  lemma MultipleOfPositive(n: nat, f: nat)
    requires Multiple(n, f)
    ensures 0 < f
  {
  }

  lemma StretchOfFirst(s: seq<Byte>, base: nat, read: nat, write: nat, base2: nat, write2: nat, at: nat)
    requires read + at <= write && base + write <= |s| && base2 + write2 <= |s|
    ensures var n := write - read - at;
            s[base + (read + at)..base + (read + at) + n] == TwoAreas(s, base, read, write, base2, write2)[at..at + n]
  {
  }

  lemma StretchOfSecond(s: seq<Byte>, base: nat, read: nat, write: nat, base2: nat, write2: nat, n: nat)
    requires read <= write && n <= write2 && base + write <= |s| && base2 + write2 <= |s|
    ensures var at := write - read + n;
            s[base2 + n..base2 + n + (write2 - n)] ==
            TwoAreas(s, base, read, write, base2, write2)[at..at + (write2 - n)]
  {
  }

  /** Dropping the oldest n bytes, in the three cases cras_shm_buffer_read distinguishes. */
  lemma DropOldest(s: seq<Byte>, used: nat, f: nat, base: nat, read: nat, write: nat, base2: nat, write2: nat, n: nat)
    requires base + used <= |s| && base2 + used <= |s| && Shape(used, f, read, 0, write, write2)
    requires n <= write - read + write2 && Multiple(n, f) && n > 0
    ensures var q := TwoAreas(s, base, read, write, base2, write2);
            var n2 := read + n - write;
            if n2 < 0 then
              Shape(used, f, read + n, 0, write, write2) && TwoAreas(s, base, read + n, write, base2, write2) == q[n..]
            else if n2 < write2 then
              Shape(used, f, n2, 0, write2, 0) && TwoAreas(s, base2, n2, write2, base, 0) == q[n..]
            else
              && Shape(used, f, 0, 0, 0, 0) && n2 == write2
              && TwoAreas(s, base, 0, 0, base2, 0) == [] == TwoAreas(s, base2, 0, 0, base, 0) && q[n..] == []
  {
    hide Multiple, Area;
    var a, b, n2 := Area(s, base, read, write), Area(s, base2, 0, write2), read + n - write;
    SumMultiple(read, n, f);
    AreaEmpty(s, base, 0);
    AreaEmpty(s, base2, 0);
    ZeroMultiple(f);
    if n2 < 0 {
      AreaDrop(s, base, read, write, n);
      DropFirst(a, b, n);
    } else {
      DifferenceMultiple(read + n, write, f);
      AreaDrop(s, base2, 0, write2, n2);
      DropSecond(a, b, n2);
    }
  }

  lemma AreaEmpty(s: seq<Byte>, base: nat, at: nat)
    requires base + at <= |s|
    ensures Area(s, base, at, at) == []
  {
  }

  lemma DropFirst<T>(a: seq<T>, b: seq<T>, n: nat)
    requires n <= |a|
    ensures (a + b)[n..] == a[n..] + b
  {
  }

  lemma DropSecond<T>(a: seq<T>, b: seq<T>, n: nat)
    requires n <= |b|
    ensures (a + b)[|a| + n..] == b[n..]
  {
  }

  /** Data stored beside an area leaves it alone. */
  lemma AreaKept(s: seq<Byte>, s': seq<Byte>, lo: nat, data: seq<Byte>, base: nat, from: nat, to: nat)
    requires lo + |data| <= |s| && s' == s[..lo] + data + s[lo + |data|..]
    requires from <= to && base + to <= |s|
    requires from == to || base + to <= lo || lo + |data| <= base + from
    ensures Area(s', base, from, to) == Area(s, base, from, to)
  {
    assert forall k :: base + from <= k < base + to ==> s'[k] == s[k];
  }
}
