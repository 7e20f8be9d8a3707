/** The lock-free reading of the server state (libcras/cras_client.c, server/cras_system_state.c): the
    server counts before and after every update, readers copy without a lock and check the count. Server
    and reader are interleaved word by word. */
module Seqlock {
  import opened Options

  /** One word copied by the reader: where it was and what was there. */
  datatype Copied = Copied(index: nat, value: int)

  /** What the reader is doing: nothing, or copying since it saw an even count. The ghost of the true count
      at that moment is begun. */
  datatype Reader = Idle | Copying(count: nat, begun: nat, copy: seq<Copied>)

  /** words is the shared region; updates is the true number of count increments, of which update_count
      keeps 32 bits; published holds the region after every completed update, the initial one first. */
  datatype System = System(words: seq<int>, updates: nat, published: seq<seq<int>>, reader: Reader,
                           accepted: Option<Accepted>)

  /** A copy end_server_state_read let through, with the true count at its end. */
  datatype Accepted = Accepted(copy: seq<Copied>, ended: nat)

  datatype Step =
    | UpdateBegin
    | Store(index: nat, value: int)
    | UpdateComplete
    | ReadBegin
    | ReadWord(word: nat)
    | ReadEnd

  /** The 32-bit update_count. */
  function Count(s: System): nat {
    s.updates % 0x1_0000_0000
  }

  function Init(words: seq<int>): System {
    System(words, 0, [words], Idle, None)
  }

  /** What a step does; a step that its thread cannot take now changes nothing. Stores happen only between
      the two increments, which the server's update lock serialises. */
  function Next(s: System, step: Step): System {
    match step
    case UpdateBegin =>
      if s.updates % 2 == 0 then s.(updates := s.updates + 1) else s
    case Store(i, v) =>
      if s.updates % 2 == 1 && i < |s.words| then s.(words := s.words[i := v]) else s
    case UpdateComplete =>
      if s.updates % 2 == 1 then s.(updates := s.updates + 1, published := s.published + [s.words]) else s
    case ReadBegin =>
      if Count(s) % 2 == 0 then s.(reader := Copying(Count(s), s.updates, [])) else s
    case ReadWord(i) =>
      if s.reader.Copying? && i < |s.words| then
        s.(reader := s.reader.(copy := s.reader.copy + [Copied(i, s.words[i])]))
      else s
    case ReadEnd =>
      if !s.reader.Copying? then s
      else if s.reader.count == Count(s) then
        s.(reader := Idle, accepted := Some(Accepted(s.reader.copy, s.updates)))
      else s.(reader := Idle)
  }

  function Run(s: System, steps: seq<Step>): System {
    if steps == [] then s else Next(Run(s, steps[..|steps| - 1]), steps[|steps| - 1])
  }

  /** The copy agrees word for word with one region. */
  ghost predicate Agrees(copy: seq<Copied>, words: seq<int>) {
    forall k :: 0 <= k < |copy| ==> copy[k].index < |words| && copy[k].value == words[copy[k].index]
  }

  /** At every even count the region is the last one published; while the count has not moved since the
      reader began, what it has copied comes from that one region. */
  ghost predicate Inv(s: System) {
    && |s.published| == s.updates / 2 + 1
    && (s.updates % 2 == 0 ==> s.words == s.published[s.updates / 2])
    && (s.reader.Copying? ==>
          var r := s.reader;
          && r.begun <= s.updates && r.begun % 2 == 0 && r.count == r.begun % 0x1_0000_0000
          && (r.begun == s.updates ==> Agrees(r.copy, s.published[r.begun / 2])))
  }

  /** The reader did not sleep through 2^32 increments. */
  ghost predicate NoWrap(s: System) {
    s.reader.Copying? ==> s.updates < s.reader.begun + 0x1_0000_0000
  }

  /** Every accepted copy is the region as published by one completed update, the one that was current
      when the copy was accepted. */
  ghost predicate Atomic(s: System) {
    s.accepted.Some? ==>
      var a := s.accepted.value;
      && a.ended % 2 == 0 && a.ended / 2 < |s.published|
      && Agrees(a.copy, s.published[a.ended / 2])
  }

  lemma CountsAgree(begun: nat, now: nat)
    requires begun <= now < begun + 0x1_0000_0000
    ensures begun % 0x1_0000_0000 == now % 0x1_0000_0000 <==> begun == now
  {
  }

  lemma StepKeeps(s: System, step: Step)
    requires Inv(s) && Atomic(s) && NoWrap(s)
    ensures Inv(Next(s, step)) && Atomic(Next(s, step))
    ensures Next(s, step).accepted != s.accepted ==>
              step.ReadEnd? && s.reader.Copying? && s.reader.begun == s.updates
  {
    match step {
      case UpdateBegin =>
      case Store(i, v) =>
      case UpdateComplete =>
      case ReadBegin =>
      case ReadWord(i) =>
      case ReadEnd =>
        if s.reader.Copying? {
          CountsAgree(s.reader.begun, s.updates);
        }
    }
  }

  /** No interleaving of the server and a reader makes end_server_state_read accept a mixture: over every
      run in which no read sleeps through a wrap of the counter, every accepted copy is a published state. */
  lemma {:induction false} ReadsAreAtomic(words: seq<int>, steps: seq<Step>)
    requires forall n :: 0 <= n < |steps| ==> NoWrap(Run(Init(words), steps[..n]))
    ensures Inv(Run(Init(words), steps)) && Atomic(Run(Init(words), steps))
    decreases |steps|
  {
    if steps != [] {
      var n := |steps| - 1;
      var front := steps[..n];
      forall k | 0 <= k < n ensures NoWrap(Run(Init(words), front[..k])) {
        assert front[..k] == steps[..k];
      }
      ReadsAreAtomic(words, front);
      StepKeeps(Run(Init(words), front), steps[n]);
    }
  }

  // ----- reads that span a whole turn of the counter -----

  lemma WholeTurns(count: nat, more: nat)
    ensures (count + more) % 0x1_0000_0000 == count % 0x1_0000_0000 <==> more % 0x1_0000_0000 == 0
  {
    var a, b := count % 0x1_0000_0000, more % 0x1_0000_0000;
    assert (count + more) % 0x1_0000_0000 == (a + b) % 0x1_0000_0000;
  }

  /** The check sees the count modulo 2^32, so it accepts whatever has been copied exactly when the
      number of increments during the read is a multiple of 2^32. */
  lemma AcceptsIffWhole(s: System)
    requires s.reader.Copying? && s.reader.begun <= s.updates
    requires s.reader.count == s.reader.begun % 0x1_0000_0000
    ensures s.reader.count == Count(s) <==> (s.updates - s.reader.begun) % 0x1_0000_0000 == 0
    ensures Next(s, ReadEnd).accepted ==
            if (s.updates - s.reader.begun) % 0x1_0000_0000 == 0 then Some(Accepted(s.reader.copy, s.updates))
            else s.accepted
  {
    WholeTurns(s.reader.begun, s.updates - s.reader.begun);
  }

  lemma {:induction false} RunAppend(s: System, a: seq<Step>, b: seq<Step>)
    ensures Run(s, a + b) == Run(Run(s, a), b)
    decreases |b|
  {
    hide Next;
    if b == [] {
      assert a + b == a;
    } else {
      var n := |b| - 1;
      RunAppend(s, a, b[..n]);
      assert (a + b)[..|a + b| - 1] == a + b[..n] && (a + b)[|a + b| - 1] == b[n];
    }
  }

  /** What holds over all runs, however long a read sleeps. */
  lemma {:induction false} RunKeepsInv(words: seq<int>, steps: seq<Step>)
    ensures Inv(Run(Init(words), steps))
    decreases |steps|
  {
    if steps != [] {
      var n := |steps| - 1;
      RunKeepsInv(words, steps[..n]);
      var s := Run(Init(words), steps[..n]);
      match steps[n] {
        case UpdateBegin =>
        case Store(i, v) =>
        case UpdateComplete =>
        case ReadBegin =>
        case ReadWord(i) =>
        case ReadEnd =>
      }
    }
  }

  /** A read in progress would be accepted now although its copy is none of the published regions. */
  ghost predicate AcceptsMixture(s: System) {
    && s.reader.Copying? && s.reader.count == Count(s)
    && forall k :: 0 <= k < |s.published| ==> !Agrees(s.reader.copy, s.published[k])
  }

  lemma Parity(x: nat, r: nat)
    ensures (2 * x + r) % 2 == r % 2
  {
  }

  lemma SameParity(a: nat, b: nat)
    requires a % 0x1_0000_0000 == b % 0x1_0000_0000
    ensures a % 2 == b % 2
  {
    var r := a % 0x1_0000_0000;
    Parity(0x8000_0000 * (a / 0x1_0000_0000), r);
    Parity(0x8000_0000 * (b / 0x1_0000_0000), r);
  }

  lemma MixtureIsAccepted(s: System)
    requires Inv(s) && AcceptsMixture(s)
    ensures var s' := Next(s, ReadEnd);
            s'.accepted == Some(Accepted(s.reader.copy, s.updates)) && !Atomic(s')
  {
    SameParity(s.reader.begun, s.updates);
  }

  /** Some run of server and reader leads to a read of that many increments whose mixture is accepted. */
  ghost predicate CanMix(increments: nat) {
    exists words: seq<int>, steps: seq<Step> ::
      var s := Run(Init(words), steps);
      AcceptsMixture(s) && s.updates == s.reader.begun + increments
  }

  /** k complete updates of a two-word region, each storing 1 twice. */
  function Updates(k: nat): seq<Step> {
    if k == 0 then [] else Updates(k - 1) + [UpdateBegin, Store(0, 1), Store(1, 1), UpdateComplete]
  }

  /** A reader that has copied the first word of [0, 0] sleeps through k updates. */
  function Asleep(k: nat): System {
    System(if k == 0 then [0, 0] else [1, 1], 2 * k, [[0, 0]] + seq(k, _ => [1, 1]),
           Copying(0, 0, [Copied(0, 0)]), None)
  }

  lemma FourSteps(s: System, a: Step, b: Step, c: Step, d: Step)
    ensures Run(s, [a, b, c, d]) == Next(Next(Next(Next(s, a), b), c), d)
  {
    var steps := [a, b, c, d];
    assert steps[..3] == [a, b, c] && steps[..3][..2] == [a, b] && steps[..2][..1] == [a] && steps[..1][..0] == [];
    assert Run(s, [a]) == Next(s, a);
    assert Run(s, [a, b]) == Next(Next(s, a), b);
    assert Run(s, [a, b, c]) == Next(Next(Next(s, a), b), c);
  }

  lemma OneUpdate(k: nat)
    ensures Next(Next(Next(Next(Asleep(k), UpdateBegin), Store(0, 1)), Store(1, 1)), UpdateComplete) == Asleep(k + 1)
  {
    var w := Asleep(k).words;
    assert w[0 := 1][1 := 1] == [1, 1];
    var a := Next(Asleep(k), UpdateBegin);
    assert a.updates == 2 * k + 1 && a.updates % 2 == 1;
    var b := Next(a, Store(0, 1));
    assert b == a.(words := w[0 := 1]);
    var c := Next(b, Store(1, 1));
    assert c == a.(words := [1, 1]);
    assert seq(k + 1, _ => [1, 1]) == seq(k, _ => [1, 1]) + [[1, 1]];
    assert [[0, 0]] + seq(k + 1, _ => [1, 1]) == [[0, 0]] + seq(k, _ => [1, 1]) + [[1, 1]];
  }

  lemma {:induction false} SleepsThrough(k: nat)
    ensures Run(Asleep(0), Updates(k)) == Asleep(k)
    decreases k
  {
    hide Next, Asleep;
    if k > 0 {
      SleepsThrough(k - 1);
      RunAppend(Asleep(0), Updates(k - 1), [UpdateBegin, Store(0, 1), Store(1, 1), UpdateComplete]);
      FourSteps(Asleep(k - 1), UpdateBegin, Store(0, 1), Store(1, 1), UpdateComplete);
      OneUpdate(k - 1);
    }
  }

  /** The run that mixes: begin, copy the first word, sleep through k updates, copy the second word. */
  lemma MixtureCopied(k: nat)
    requires k > 0
    ensures Run(Init([0, 0]), [ReadBegin, ReadWord(0)] + Updates(k) + [ReadWord(1)]) ==
            Asleep(k).(reader := Copying(0, 0, [Copied(0, 0), Copied(1, 1)]))
  {
    var begin, s := [ReadBegin, ReadWord(0)], Init([0, 0]);
    assert begin[..1] == [ReadBegin] && begin[..1][..0] == [];
    assert Run(s, [ReadBegin]) == Next(s, ReadBegin);
    assert Run(s, begin) == Next(Next(s, ReadBegin), ReadWord(0));
    assert [] + [Copied(0, 0)] == [Copied(0, 0)] && [[0, 0]] + seq(0, _ => [1, 1]) == [[0, 0]];
    assert Run(s, begin) == Asleep(0);
    RunAppend(s, begin, Updates(k));
    SleepsThrough(k);
    RunAppend(s, begin + Updates(k), [ReadWord(1)]);
    assert Run(Asleep(k), [ReadWord(1)]) == Next(Asleep(k), ReadWord(1)) by {
      assert [ReadWord(1)][..0] == [];
    }
    assert [Copied(0, 0)] + [Copied(1, 1)] == [Copied(0, 0), Copied(1, 1)];
  }

  lemma WholeTurnMixes(k: nat)
    requires k > 0 && (2 * k) % 0x1_0000_0000 == 0
    ensures CanMix(2 * k)
  {
    hide Run, Next, Updates;
    var steps := [ReadBegin, ReadWord(0)] + Updates(k) + [ReadWord(1)];
    var s := Run(Init([0, 0]), steps);
    MixtureCopied(k);
    forall j | 0 <= j < |s.published| ensures !Agrees(s.reader.copy, s.published[j]) {
      assert s.published[j] == [0, 0] || s.published[j] == [1, 1];
      assert s.reader.copy[0] == Copied(0, 0) && s.reader.copy[1] == Copied(1, 1);
    }
    assert AcceptsMixture(s);
  }

  /** What is copied between two updates is one published state. */
  lemma NothingMixesAtOnce(s: System)
    requires Inv(s) && s.reader.Copying?
    ensures s.updates == s.reader.begun ==> !AcceptsMixture(s)
  {
    if s.updates == s.reader.begun {
      assert Agrees(s.reader.copy, s.published[s.reader.begun / 2]);
    }
  }

  /** Exactly how long a read must last for a mixture to pass the check: a positive number of whole turns of
      the 32-bit counter. */
  lemma MixtureIff(increments: nat)
    ensures CanMix(increments) <==> increments > 0 && increments % 0x1_0000_0000 == 0
  {
    if CanMix(increments) {
      var words: seq<int>, steps: seq<Step> :|
        var s := Run(Init(words), steps);
        AcceptsMixture(s) && s.updates == s.reader.begun + increments;
      var s := Run(Init(words), steps);
      RunKeepsInv(words, steps);
      AcceptsIffWhole(s);
      NothingMixesAtOnce(s);
    }
    if increments > 0 && increments % 0x1_0000_0000 == 0 {
      SameParity(increments, 0);
      WholeTurnMixes(increments / 2);
    }
  }
}
