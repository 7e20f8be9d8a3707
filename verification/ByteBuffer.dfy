/** The byte ring of common/byte_buffer.h as a bounded first-in first-out queue. */
module ByteBuffer {
  import opened Arithmetic

  /** The level bytes from the read index on. */
  function RingQueue(ring: seq<Byte>, read: nat, level: nat, used: nat): (q: seq<Byte>)
    requires read < used <= |ring| && level <= used
    ensures |q| == level
  {
    seq(level, k requires 0 <= k < level => ring[Wrap(read + k, used)])
  }

  /** buf_readable: the stretch that can be read in one piece. */
  function ReadSpan(read: nat, write: nat, level: nat, used: nat): nat
    requires read < used
  {
    if level == 0 then 0 else if read < write then write - read else used - read
  }

  /** buf_writable. */
  function WriteSpan(read: nat, write: nat, level: nat, used: nat): nat
    requires write < used
  {
    if level >= used then 0 else if write < read then read - write else used - write
  }

  /** Both spans reach to the end of the data, of the room, or of the ring, and what the first one leaves
      the second one takes: two spans drain the buffer, two fill it. */
  lemma SpansExact(read: nat, level: nat, used: nat)
    requires read < used && level <= used
    ensures var write := Wrap(read + level, used);
            var r, w := ReadSpan(read, write, level, used), WriteSpan(read, write, level, used);
            && r == Min(level, used - read) && w == Min(used - level, used - write)
            && r + ReadSpan(Wrap(read + r, used), write, level - r, used) == level
            && level + w + WriteSpan(read, Wrap(write + w, used), level + w, used) == used
  {
  }

  /** A contiguous stretch from the read index on is the front of the queue. */
  lemma FrontInOnePiece(ring: seq<Byte>, read: nat, level: nat, used: nat, n: nat)
    requires read < used <= |ring| && level <= used && n <= level && read + n <= used
    ensures ring[read..read + n] == RingQueue(ring, read, level, used)[..n]
  {
    forall k | 0 <= k < n ensures ring[read..read + n][k] == RingQueue(ring, read, level, used)[..n][k] {
      assert Wrap(read + k, used) == read + k;
    }
  }

  lemma FrontLeaves(ring: seq<Byte>, read: nat, level: nat, used: nat, n: nat)
    requires read < used <= |ring| && n <= level <= used
    ensures RingQueue(ring, Wrap(read + n, used), level - n, used) == RingQueue(ring, read, level, used)[n..]
  {
    var q := RingQueue(ring, Wrap(read + n, used), level - n, used);
    forall k | 0 <= k < level - n ensures q[k] == RingQueue(ring, read, level, used)[n..][k] {
      assert Wrap(Wrap(read + n, used) + k, used) == Wrap(read + (n + k), used);
    }
  }

  lemma BackGrows(ring: seq<Byte>, read: nat, level: nat, used: nat, n: nat)
    requires read < used <= |ring| && level + n <= used && Wrap(read + level, used) + n <= used
    ensures var write := Wrap(read + level, used);
            RingQueue(ring, read, level + n, used) == RingQueue(ring, read, level, used) + ring[write..write + n]
  {
    var write := Wrap(read + level, used);
    var q, p := RingQueue(ring, read, level + n, used), RingQueue(ring, read, level, used) + ring[write..write + n];
    forall k | 0 <= k < level + n ensures q[k] == p[k] {
      if k >= level {
        assert Wrap(read + k, used) == write + (k - level);
      }
    }
  }

  /** struct byte_buffer. */
  class Buffer {
    var writeIdx: nat
    var readIdx: nat
    var level: nat
    const maxSize: nat
    var usedSize: nat
    const bytes: array<Byte>

    /** The write index runs ahead of the read index by the level. */
    ghost predicate Valid()
      reads this
    {
      && 0 < usedSize <= maxSize == bytes.Length
      && readIdx < usedSize && level <= usedSize
      && writeIdx == Wrap(readIdx + level, usedSize)
    }

    ghost function Queue(): (q: seq<Byte>)
      requires Valid()
      reads this, bytes
      ensures |q| == level
    {
      RingQueue(bytes[..], readIdx, level, usedSize)
    }

    /** byte_buffer_create. */
    constructor (size: nat)
      requires 0 < size
      ensures Valid() && fresh(bytes) && Queue() == [] && usedSize == maxSize == size && readIdx == 0
    {
      writeIdx, readIdx, level := 0, 0, 0;
      maxSize, usedSize := size, size;
      bytes := new Byte[size](_ => 0);
    }

    /** byte_buffer_set_used_size: the buffer stays well-formed exactly when its size stays, or the data do not
        wrap and end before both the old and the new end. */
    method SetUsedSize(size: nat)
      requires Valid()
      modifies this`usedSize
      ensures usedSize == Min(size, maxSize)
      ensures Valid() <==> usedSize == old(usedSize) || readIdx + level < Min(usedSize, old(usedSize))
      ensures Valid() ==> Queue() == old(Queue())
    {
      ghost var used := usedSize;
      usedSize := Min(size, maxSize);
      if readIdx + level < used && readIdx + level < usedSize {
        FrontInOnePiece(bytes[..], readIdx, level, used, level);
        FrontInOnePiece(bytes[..], readIdx, level, usedSize, level);
      }
    }

    function Writable(): nat
      requires Valid()
      reads this
    {
      WriteSpan(readIdx, writeIdx, level, usedSize)
    }

    function Readable(): nat
      requires Valid()
      reads this
    {
      ReadSpan(readIdx, writeIdx, level, usedSize)
    }

    /** buf_adjust_readable: the level is set, the bytes are whatever lies there. */
    method AdjustReadable(readable: nat)
      requires Valid()
      modifies this`level, this`writeIdx
      ensures Valid() && level == Min(readable, usedSize)
      ensures readable <= old(level) ==> Queue() == old(Queue())[..readable]
    {
      level := Min(readable, usedSize);
      writeIdx := Wrap(readIdx + level, usedSize);
    }

    /** The bytes at buf_read_pointer, as many as buf_readable says. */
    function ReadView(): (s: seq<Byte>)
      requires Valid()
      reads this, bytes
      ensures |s| == Readable() <= level && s == Queue()[..Readable()]
      ensures readIdx + |s| <= usedSize
      ensures |s| == 0 <==> level == 0
    {
      SpansExact(readIdx, level, usedSize);
      FrontInOnePiece(bytes[..], readIdx, level, usedSize, Readable());
      bytes[readIdx..readIdx + Readable()]
    }

    /** buf_increment_read: never more than is queued. */
    method IncrementRead(inc: nat)
      requires Valid()
      modifies this`readIdx, this`level
      ensures Valid() && Queue() == old(Queue())[Min(inc, old(level))..]
      ensures readIdx == Wrap(old(readIdx) + Min(inc, old(level)), usedSize)
    {
      var n := Min(inc, level);
      FrontLeaves(bytes[..], readIdx, level, usedSize, n);
      readIdx := Wrap(readIdx + n, usedSize);
      level := level - n;
    }

    lemma WriteFits(inc: nat)
      requires Valid() && inc <= Writable()
      ensures level + inc <= usedSize && writeIdx + inc <= usedSize
      ensures Wrap(writeIdx + inc, usedSize) == Wrap(readIdx + (level + inc), usedSize)
    {
    }

    /** buf_increment_write. Up to buf_writable, the bytes stored at buf_write_pointer join the queue. Beyond
        that the level saturates; the buffer stays well-formed exactly when it does not have to, or saturates
        at a whole number of turns. */
    method IncrementWrite(inc: nat)
      requires Valid()
      modifies this`writeIdx, this`level
      ensures writeIdx == (old(writeIdx) + inc) % usedSize && level == Min(old(level) + inc, usedSize)
      ensures Valid() <==> old(level) + inc <= usedSize || (old(level) + inc) % usedSize == 0
      ensures inc <= old(Writable()) ==>
                && Valid() && old(writeIdx) + inc <= usedSize && old(level) + inc <= usedSize
                && Queue() == old(Queue()) + bytes[..][old(writeIdx)..old(writeIdx) + inc]
    {
      hide RingQueue, WriteSpan, ReadSpan, Wrap;
      WriteMoves(inc);
      if inc <= Writable() {
        WriteFits(inc);
        BackGrows(bytes[..], readIdx, level, usedSize, inc);
      }
      writeIdx := (writeIdx + inc) % usedSize;
      if level + inc < usedSize {
        level := level + inc;
      } else {
        level := usedSize;
      }
    }

    /** The write index is where the new level puts it exactly under that condition. */
    lemma WriteMoves(inc: nat)
      requires Valid()
      ensures (writeIdx + inc) % usedSize == Wrap(readIdx + Min(level + inc, usedSize), usedSize) <==>
              level + inc <= usedSize || (level + inc) % usedSize == 0
    {
      hide RingQueue, WriteSpan, ReadSpan;
      SameRemainder(readIdx + level, inc, usedSize);
      TurnsBack(readIdx, level + inc, usedSize);
    }

    /** buf_reset. */
    method Reset()
      requires Valid()
      modifies this`writeIdx, this`readIdx, this`level
      ensures Valid() && Queue() == [] && readIdx == 0
    {
      writeIdx, readIdx, level := 0, 0, 0;
    }
  }

  lemma SameRemainder(a: nat, k: nat, n: nat)
    requires 0 < n
    ensures (a % n + k) % n == (a + k) % n
  {
    assert a + k == (a / n) * n + (a % n + k);
    AfterTurns(a / n, a % n + k, n);
  }

  /** m steps lead back to where they began exactly if they are whole turns. */
  lemma TurnsBack(at: nat, m: nat, n: nat)
    requires at < n
    ensures (at + m) % n == at <==> m % n == 0
  {
    SameRemainder(m, at, n);
    RemainderFrom(at, m % n, n);
    Quotient(at, 0, at, n);
  }

  /** A buffer of four bytes with three queued whose used size becomes two is not well-formed any more. */
  method CutThroughData() returns (buffer: Buffer)
    ensures fresh(buffer) && buffer.usedSize == 2 && buffer.level == 3 && !buffer.Valid()
  {
    buffer := new Buffer(4);
    buffer.IncrementWrite(3);
    buffer.SetUsedSize(2);
  }
}
