/** The audio thread's event ring (server/audio_thread_log.h) and its lock-free reader
    (libcras/cras_client.c), which recognises overwritten entries by their timestamps. */
module EventLog {
  import opened Arithmetic
  import opened TimeSpecs

  const AUDIO_THREAD_EVENT_LOG_SIZE := 6144

  /** struct audio_thread_event: 8 bits of tag over 24 bits of seconds, then nanoseconds and data. */
  datatype Event = Event(tagSec: nat, nsec: nat, data1: nat, data2: nat, data3: nat)

  function Stamp(e: Event): Timespec {
    Timespec(e.tagSec % 0x0100_0000, e.nsec)
  }

  /** The entry for an event: the tag and the low 24 bits of the seconds share a word, from which both can
      be read back. */
  function Entry(event: nat, now: Timespec, data1: nat, data2: nat, data3: nat): (e: Event)
    requires now.nsec >= 0
    ensures Stamp(e) == Timespec(now.sec % 0x0100_0000, now.nsec) && e.tagSec / 0x0100_0000 == event
    ensures e.data1 == data1 && e.data2 == data2 && e.data3 == data3
  {
    Event(event * 0x0100_0000 + now.sec % 0x0100_0000, now.nsec, data1, data2, data3)
  }

  /** The ring holds the last |ring| events of the history, each in the slot of its number. */
  ghost predicate Holds(ring: seq<Event>, history: seq<Event>) {
    && 0 < |ring|
    && forall e :: 0 <= e < |history| && |history| - |ring| <= e ==> ring[e % |ring|] == history[e]
  }

  /** Within the ring, later events never have earlier timestamps. */
  ghost predicate Ordered(history: seq<Event>, len: nat) {
    forall a, b :: 0 <= a <= b < |history| && |history| - len <= a ==> !After(Stamp(history[a]), Stamp(history[b]))
  }

  /** The clock, as events keep it, is not before the last event. */
  ghost predicate NotBefore(history: seq<Event>, now: Timespec) {
    history == [] || !After(Stamp(history[|history| - 1]), Timespec(now.sec % 0x0100_0000, now.nsec))
  }

  lemma OrderedGrows(history: seq<Event>, x: Event, now: Timespec, len: nat)
    requires Stamp(x) == Timespec(now.sec % 0x0100_0000, now.nsec) && 0 < len
    ensures Ordered(history, len) && NotBefore(history, now) ==> Ordered(history + [x], len)
  {
    if Ordered(history, len) && NotBefore(history, now) {
      var n, longer := |history|, history + [x];
      forall a, b | 0 <= a <= b <= n && n + 1 - len <= a ensures !After(Stamp(longer[a]), Stamp(longer[b])) {
        if a < n {
          assert !After(Stamp(history[a]), Stamp(history[n - 1]));
        }
        if b < n {
          assert !After(Stamp(history[a]), Stamp(history[b]));
        }
      }
    }
  }

  /** The number of the oldest event still in the ring. */
  function Oldest(written: nat, len: nat): nat {
    if written > len then written - len else 0
  }

  // ----- slots -----

  lemma SameSlot(e: nat, len: nat)
    requires 0 < len
    ensures (e + len) % len == e % len
  {
    assert (e / len + 1) * len == (e / len) * len + len;
    Quotient(e + len, e / len + 1, e % len, len);
  }

  /** Two different events of one turn have different slots. */
  lemma SlotsDiffer(a: nat, b: nat, len: nat)
    requires 0 < len && a < b < a + len
    ensures a % len != b % len
  {
    RemainderFrom(a, b - a, len);
  }

  /** struct audio_thread_event_log with everything ever logged as a ghost. */
  class Log {
    const ring: array<Event>
    var writePos: nat
    var syncWritePos: nat
    ghost var history: seq<Event>

    ghost predicate Valid()
      reads this, ring
    {
      Holds(ring[..], history) && writePos == |history| && syncWritePos <= writePos
    }

    constructor ()
      ensures Valid() && history == [] && ring.Length == AUDIO_THREAD_EVENT_LOG_SIZE && fresh(ring)
    {
      ring := new Event[AUDIO_THREAD_EVENT_LOG_SIZE](_ => Event(0, 0, 0, 0, 0));
      writePos, syncWritePos, history := 0, 0, [];
    }

    /** audio_thread_event_log_data. A clock that has not gone back since the last event keeps the history
        ordered. */
    method LogData(event: nat, now: Timespec, data1: nat, data2: nat, data3: nat)
      requires Valid() && event < 256 && now.nsec >= 0
      modifies this`writePos, this`history, ring
      ensures Valid()
      ensures history == old(history) + [Entry(event, now, data1, data2, data3)]
      ensures old(Ordered(history, ring.Length)) && old(NotBefore(history, now)) ==> Ordered(history, ring.Length)
    {
      OrderedGrows(history, Entry(event, now, data1, data2, data3), now, ring.Length);
      hide Ordered, NotBefore, Entry;
      var x := Entry(event, now, data1, data2, data3);
      var slot := writePos % ring.Length;
      ghost var before, n := ring[..], writePos;
      ring[slot] := x;
      writePos := writePos + 1;
      history := history + [x];
      forall e | 0 <= e < |history| && |history| - ring.Length <= e
        ensures ring[..][e % ring.Length] == history[e]
      {
        if e < n {
          SlotsDiffer(e, n, ring.Length);
          assert before[e % ring.Length] == history[e];
        }
      }
    }

    /** The audio thread publishes its position before it sleeps. */
    method Sync()
      requires Valid()
      modifies this`syncWritePos
      ensures Valid() && syncWritePos == writePos
    {
      syncWritePos := writePos;
    }
  }

  /** The newest event of the ring is later than the oldest one in it. */
  ghost predicate Advances(history: seq<Event>, len: nat)
    requires 0 < len && 0 < |history|
  {
    After(Stamp(history[|history| - 1]), Stamp(history[Oldest(|history|, len)]))
  }

  /** The event whose copy the slot of number i holds: i itself if it survives, a later one otherwise. */
  lemma {:induction false} Resident(i: nat, w: nat, len: nat) returns (r: nat)
    requires 0 < len && i < w
    ensures r % len == i % len && i <= r < w <= r + len
    ensures i >= Oldest(w, len) ==> r == i
    decreases w - i
  {
    if i + len < w {
      r := Resident(i + len, w, len);
      SameSlot(i, len);
    } else {
      r := i;
    }
  }

  /** Timestamps do not step back between neighbouring slots that both hold their own events, nor
      anywhere if the whole ring carries one timestamp. */
  lemma NoStep(ring: seq<Event>, history: seq<Event>, i: nat)
    requires Holds(ring, history) && Ordered(history, |ring|) && i + 1 < |history|
    requires i >= Oldest(|history|, |ring|) || !Advances(history, |ring|)
    ensures !After(Stamp(ring[i % |ring|]), Stamp(ring[(i + 1) % |ring|]))
  {
    var w, len := |history|, |ring|;
    var a := Resident(i, w, len);
    var b := Resident(i + 1, w, len);
    assert ring[a % len] == history[a] && ring[b % len] == history[b];
    if i < Oldest(w, len) {
      assert !After(Stamp(history[w - len]), Stamp(history[a])) && !After(Stamp(history[a]), Stamp(history[w - 1]));
      assert !After(Stamp(history[w - len]), Stamp(history[b])) && !After(Stamp(history[b]), Stamp(history[w - 1]));
    }
  }

  /** They do step back just below the oldest surviving event if the ring carries more than one. */
  lemma StepAtOldest(ring: seq<Event>, history: seq<Event>)
    requires Holds(ring, history) && |history| > |ring| && Advances(history, |ring|)
    ensures var first := Oldest(|history|, |ring|);
            After(Stamp(ring[(first - 1) % |ring|]), Stamp(ring[first % |ring|]))
  {
    var first := |history| - |ring|;
    SameSlot(first - 1, |ring|);
    assert ring[(|history| - 1) % |ring|] == history[|history| - 1];
  }

  /** The backward scan of cras_client_read_atlog: an event whose timestamp is later than its
      successor's belongs to a newer turn of the ring. The scan finds the oldest event that survives if
      and only if nothing is missing or the ring carries more than one timestamp. */
  method FindOldest(ring: seq<Event>, ghost history: seq<Event>, sync: nat, readIdx: nat)
    returns (oldest: nat)
    requires Holds(ring, history) && Ordered(history, |ring|)
    requires readIdx < sync <= |history| < sync + |ring|
    ensures readIdx <= oldest < sync
    ensures var first := Oldest(|history|, |ring|);
            oldest == (if readIdx < first then first else readIdx) <==>
            (readIdx < first ==> Advances(history, |ring|))
    ensures readIdx < Oldest(|history|, |ring|) && !Advances(history, |ring|) ==> oldest == readIdx
  {
    ghost var len, first := |ring|, Oldest(|history|, |ring|);
    ghost var advances := Advances(history, len);
    hide Holds, Ordered, Advances, After;
    oldest := readIdx;
    var i := sync - 1;
    var last := Timespec(0, 0);
    while i >= readIdx
      invariant 0 <= i < sync && oldest == readIdx
      invariant i < sync - 1 ==> last == Stamp(ring[(i + 1) % len])
      invariant advances ==> i + 1 >= first
      decreases i
    {
      RingNonempty(ring, history);
      var time := Stamp(ring[i % |ring|]);
      if i < sync - 1 && (i >= first || !advances) {
        NoStep(ring, history, i);
      } else if i + 1 == first {
        StepAtOldest(ring, history);
      }
      if i != sync - 1 && After(time, last) {
        oldest := i + 1;
        break;
      }
      last := time;
      if i == 0 {
        break;
      }
      i := i - 1;
    }
  }

  /** Equal timestamps for as long as a ring: one event more than there are slots, whatever their number,
      and nothing tells the reader that the first event is gone. */
  lemma OneTimestamp(e: Event, len: nat)
    requires len > 0
    ensures var history, ring := seq(len + 1, _ => e), seq(len, _ => e);
            && Holds(ring, history) && Ordered(history, len) && Oldest(len + 1, len) == 1
            && !Advances(history, len)
  {
  }

  lemma RingNonempty(ring: seq<Event>, history: seq<Event>)
    requires Holds(ring, history)
    ensures 0 < |ring|
  {
  }

  /** memcpy of n events. */
  method Copy(dst: array<Event>, to: nat, src: seq<Event>, from: nat, n: nat)
    requires to + n <= dst.Length && from + n <= |src|
    modifies dst
    ensures dst[to..to + n] == src[from..from + n]
    ensures dst[..to] == old(dst[..to]) && dst[to + n..] == old(dst[to + n..])
  {
    for k := 0 to n
      invariant dst[to..to + k] == src[from..from + k] && dst[..to] == old(dst[..to])
      invariant dst[to + k..] == old(dst[to + k..])
    {
      dst[to + k] := src[from + k];
      assert dst[to..to + k + 1] == dst[to..to + k] + [src[from + k]];
      assert src[from..from + k + 1] == src[from..from + k] + [src[from + k]];
    }
  }

  /** What lies in the slots of numbers start to start + n. */
  function Stretch(ring: seq<Event>, start: nat, n: nat): (s: seq<Event>)
    requires 0 < |ring|
    ensures |s| == n
  {
    seq(n, k requires 0 <= k < n => ring[(start + k) % |ring|])
  }

  /** A stretch no longer than the ring lies in one or two pieces. */
  lemma Pieces(ring: seq<Event>, start: nat, n: nat)
    requires 0 < n <= |ring|
    ensures var a, z := start % |ring|, (start + n - 1) % |ring|;
            if z < a then z + 1 == a + n - |ring| && Stretch(ring, start, n) == ring[a..] + ring[..z + 1]
            else a + n <= |ring| && Stretch(ring, start, n) == ring[a..a + n]
  {
    var len, a := |ring|, start % |ring|;
    var z := (start + n - 1) % len;
    RemainderFrom(start, n - 1, len);
    var pieces := if z < a then ring[a..] + ring[..z + 1] else ring[a..a + n];
    forall k | 0 <= k < n ensures Stretch(ring, start, n)[k] == pieces[k] {
      RemainderFrom(start, k, len);
    }
  }

  /** Surviving events are in their slots. */
  lemma StretchIsHistory(ring: seq<Event>, history: seq<Event>, start: nat, sync: nat)
    requires Holds(ring, history) && Oldest(|history|, |ring|) <= start <= sync <= |history|
    ensures sync - start <= |ring| && Stretch(ring, start, sync - start) == history[start..sync]
  {
    forall k | 0 <= k < sync - start ensures Stretch(ring, start, sync - start)[k] == history[start..sync][k] {
      assert ring[(start + k) % |ring|] == history[start + k];
    }
  }

  lemma FrontOfTwo(buf: array<Event>, m: nat, k: nat)
    requires m + k <= buf.Length
    ensures buf[..m + k] == buf[0..0 + m] + buf[m..m + k]
  {
  }

  /** How many of n events the two pieces hold that go from one slot to the end of the ring and on from its
      beginning to the slot of the last event: all, unless they are more than a turn. */
  function Taken(n: nat, len: nat): (m: nat)
    requires 0 < len && 0 < n
    ensures 0 < m <= len && (n <= len ==> m == n)
  {
    if n <= len then n else (n - 1) % len + 1
  }

  /** Two pieces, for any number of events, are the stretch of those that are taken. */
  lemma TwoPieces(ring: seq<Event>, start: nat, n: nat)
    requires 0 < n && 0 < |ring|
    ensures var len := |ring|;
            var a, z, m := start % len, (start + n - 1) % len, Taken(n, len);
            z < a ==> m == z + 1 + len - a && Stretch(ring, start, m) == ring[a..] + ring[..z + 1]
  {
    hide Stretch;
    var len, m := |ring|, Taken(n, |ring|);
    assert n - 1 == ((n - 1) / len) * len + (n - 1) % len;
    if n <= len {
      Quotient(n - 1, 0, n - 1, len);
    }
    AfterTurns((n - 1) / len, start + (m - 1), len);
    RemainderFrom(start, m - 1, len);
    if (start + n - 1) % len < start % len {
      Pieces(ring, start, m);
    }
  }

  /** The one or two copies that take n events, from number start on, out of the ring. One copy of more
      events than the ring has would leave ring and buffer: then nothing is said of the buffer. Two copies
      never leave them. */
  method CopyPieces(ring: seq<Event>, start: nat, n: nat, buf: array<Event>) returns (overrun: bool)
    requires 0 < n && 0 < |ring| == buf.Length
    modifies buf
    ensures overrun <==> n > |ring| && start % |ring| <= (start + n - 1) % |ring|
    ensures !overrun ==>
              var m := Taken(n, |ring|);
              buf[..m] == Stretch(ring, start, m) && buf[m..] == old(buf[m..])
  {
    hide Stretch, Taken;
    TwoPieces(ring, start, n);
    var a, z := start % |ring|, (start + n - 1) % |ring|;
    if z < a {
      var m := |ring| - a;
      Copy(buf, 0, ring, a, m);
      Copy(buf, m, ring, 0, z + 1);
      FrontOfTwo(buf, m, z + 1);
      return false;
    }
    if n > |ring| {
      return true;
    }
    Pieces(ring, start, n);
    Copy(buf, 0, ring, a, n);
    return false;
  }

  /** The next unread event is gone, and the ring carries a single timestamp, which hides that. */
  ghost predicate ScanFails(history: seq<Event>, len: nat, readIdx: nat)
    requires 0 < len && 0 < |history|
  {
    readIdx < Oldest(|history|, len) && !Advances(history, len)
  }

  /** cras_client_read_atlog over a snapshot of the ring. The reader gets, in order, exactly the events
      up to sync that it has not seen and that survive, and learns how many it has missed, if and only if
      none are missing or the ring carries more than one timestamp. Otherwise it takes the contents of the
      slots for what it asked for. It then returns a number greater than the ring's length, or its copy leaves
      the buffer (overrun), exactly if more than a ring's length was written since its last read; which of the
      two depends on the slots of first and last event. */
  method ReadAtlog(ring: seq<Event>, ghost history: seq<Event>, sync: nat, readIdx: nat, missing: nat,
                   buf: array<Event>)
    returns (overrun: bool, len: nat, readIdx': nat, missing': nat)
    requires Holds(ring, history) && Ordered(history, |ring|)
    requires sync <= |history| < sync + |ring| && buf.Length == |ring|
    modifies buf
    ensures sync <= readIdx ==>
              !overrun && len == 0 && readIdx' == readIdx && missing' == missing && buf[..] == old(buf[..])
    ensures readIdx < sync ==>
              var first := Oldest(|history|, |ring|);
              var start := if readIdx < first then first else readIdx;
              var fails := ScanFails(history, |ring|, readIdx);
              && readIdx' == sync
              && (len == sync - start <==> !fails)
              && (len > |ring| <==> fails && sync > readIdx + |ring|)
              && (overrun <==> len > |ring| && readIdx % |ring| <= (sync - 1) % |ring|)
              && if fails then
                   && len == sync - readIdx && missing' == 0
                   && (!overrun ==>
                         var m := Taken(len, |ring|);
                         buf[..m] == Stretch(ring, readIdx, m) && buf[m..] == old(buf[m..]))
                 else
                   buf[..len] == history[start..sync] && missing' == if readIdx == 0 then 0 else start - readIdx
  {
    hide Holds, Ordered, Advances, After, Stretch;
    overrun, readIdx', missing', len := false, readIdx, missing, 0;
    if sync <= readIdx {
      return;
    }
    RingNonempty(ring, history);
    missing' := 0;
    var start := FindOldest(ring, history, sync, readIdx);
    if start > readIdx && readIdx > 0 {
      missing' := start - readIdx;
    }
    if start >= Oldest(|history|, |ring|) {
      StretchIsHistory(ring, history, start, sync);
    }
    len := sync - start;
    overrun := CopyPieces(ring, start, len, buf);
    readIdx' := sync;
  }

  // ----- runs in which the scan fails -----

  /** A log of n events, all at one time, published. */
  method LogBurst(now: Timespec, n: nat) returns (log: Log)
    requires now.nsec >= 0
    ensures fresh(log) && fresh(log.ring) && log.ring.Length == AUDIO_THREAD_EVENT_LOG_SIZE
    ensures log.Valid() && |log.history| == log.syncWritePos == n
    ensures Ordered(log.history, log.ring.Length) && (n > 0 ==> !Advances(log.history, log.ring.Length))
  {
    hide Holds, Ordered;
    log := new Log();
    NothingOrdered(log.ring.Length);
    while log.writePos < n
      invariant fresh(log) && fresh(log.ring) && log.Valid() && |log.history| <= n
      invariant Ordered(log.history, log.ring.Length)
      invariant forall e :: 0 <= e < |log.history| ==> Stamp(log.history[e]) == Stamp(Entry(0, now, 0, 0, 0))
    {
      log.LogData(0, now, 0, 0, 0);
    }
    log.Sync();
  }

  /** A reader that has seen readIdx events of such a log. For 12289 events and readIdx 0 the copy leaves the
      buffer; for readIdx 1 the reader returns twice the number of events that the buffer has. */
  method ReadBurst(now: Timespec, n: nat, readIdx: nat, buf: array<Event>) returns (overrun: bool, len: nat)
    requires now.nsec >= 0 && readIdx < n && buf.Length == AUDIO_THREAD_EVENT_LOG_SIZE
    modifies buf
    ensures overrun <==> n > readIdx + 6144 && readIdx % 6144 <= (n - 1) % 6144
    ensures len > 6144 <==> n > readIdx + 6144
    ensures n == 12289 && readIdx == 0 ==> overrun
    ensures n == 12289 && readIdx == 1 ==> !overrun && len == 2 * buf.Length
  {
    hide Holds, Ordered, Advances, Stretch, Taken;
    var log := LogBurst(now, n);
    var seen, gone: nat;
    overrun, len, seen, gone := ReadAtlog(log.ring[..], log.history, log.syncWritePos, readIdx, 0, buf);
  }

  lemma NothingOrdered(len: nat)
    ensures Ordered([], len)
  {
  }
}
