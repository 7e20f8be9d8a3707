/** Several users writing into one shared buffer (server/buffer_share.c): a growing slot table of
    offsets, whose smallest active offset is the new write point. */
module BufferShare {
  import opened Arithmetic

  const INITIAL_ID_SIZE := 3
  const ENOENT := 2
  const EEXIST := 17

  /** struct id_offset; unsigned 32-bit fields, data stands for the pointer (0 for null). */
  datatype IdOffset = IdOffset(used: bool, id: nat, offset: nat, data: int)

  datatype User = User(offset: nat, data: int)

  /** No slot before an active one carries its id, not even an unused one with a stale id. This is what
      lets buffer_share_offset_update look at ids only. */
  ghost predicate FirstOfItsId(s: seq<IdOffset>) {
    forall i, j :: 0 <= j < i < |s| && s[i].used ==> s[j].id != s[i].id
  }

  /** The active users of a slot table. */
  ghost function Users(s: seq<IdOffset>): map<nat, User>
    requires FirstOfItsId(s)
  {
    map i | 0 <= i < |s| && s[i].used :: s[i].id := User(s[i].offset, s[i].data)
  }

  lemma SlotFor(s: seq<IdOffset>, id: nat) returns (i: nat)
    requires FirstOfItsId(s) && id in Users(s)
    ensures i < |s| && s[i].used && s[i].id == id && Users(s)[id] == User(s[i].offset, s[i].data)
  {
    i :| 0 <= i < |s| && s[i].used && s[i].id == id;
  }

  lemma UserOf(s: seq<IdOffset>, i: nat)
    requires FirstOfItsId(s) && i < |s| && s[i].used
    ensures s[i].id in Users(s) && Users(s)[s[i].id] == User(s[i].offset, s[i].data)
  {
  }

  // ----- what the calls do to the table of users -----

  /** The smallest active offset, or limit if there is none below it. */
  ghost predicate IsLeast(r: nat, us: map<nat, User>, limit: nat) {
    && r <= limit
    && (forall id :: id in us ==> r <= us[id].offset)
    && (r == limit || exists id :: id in us && us[id].offset == r)
  }

  function Lowered(us: map<nat, User>, amount: nat): map<nat, User>
    requires forall id :: id in us ==> amount <= us[id].offset
  {
    map id | id in us :: us[id].(offset := us[id].offset - amount)
  }

  lemma UseSlot(s: seq<IdOffset>, k: nat, id: nat, data: int)
    requires FirstOfItsId(s) && k < |s| && !s[k].used && id !in Users(s)
    requires forall i :: 0 <= i < k ==> s[i].used
    ensures var s' := s[k := IdOffset(true, id, 0, data)];
            FirstOfItsId(s') && Users(s') == Users(s)[id := User(0, data)]
  {
    hide Users;
    var s' := s[k := IdOffset(true, id, 0, data)];
    forall i | 0 <= i < |s| && s[i].used ensures s[i].id != id {
      UserOf(s, i);
    }
    assert FirstOfItsId(s');
    SlotChanged(s, s', k);
  }

  /** Changing one slot changes at most the users the slot stood for before and stands for now. */
  lemma SlotChanged(s: seq<IdOffset>, s': seq<IdOffset>, k: nat)
    requires FirstOfItsId(s) && FirstOfItsId(s') && k < |s| == |s'|
    requires forall i :: 0 <= i < |s| && i != k ==> s'[i] == s[i]
    ensures var kept := if s[k].used then Users(s) - {s[k].id} else Users(s);
            Users(s') == if s'[k].used then kept[s'[k].id := User(s'[k].offset, s'[k].data)] else kept
  {
    hide Users;
    var kept := if s[k].used then Users(s) - {s[k].id} else Users(s);
    var m := if s'[k].used then kept[s'[k].id := User(s'[k].offset, s'[k].data)] else kept;
    forall id | id in Users(s') ensures id in m && m[id] == Users(s')[id] {
      var i := SlotFor(s', id);
      if i != k {
        UserOf(s, i);
        if s[k].used {
          OneSlot(s, i, k);
        }
        if s'[k].used {
          OneSlot(s', i, k);
        }
      }
    }
    forall id | id in m ensures id in Users(s') {
      if s'[k].used && id == s'[k].id {
        UserOf(s', k);
      } else {
        var i := SlotFor(s, id);
        UserOf(s', i);
      }
    }
  }

  lemma OneSlot(s: seq<IdOffset>, i: nat, k: nat)
    requires FirstOfItsId(s) && i < |s| && k < |s| && i != k && s[i].used && s[k].used
    ensures s[i].id != s[k].id
  {
  }

  /** Tables whose active slots are the same, up to a change of every offset. */
  lemma LowerAll(s: seq<IdOffset>, s': seq<IdOffset>, amount: nat)
    requires FirstOfItsId(s) && |s'| == |s|
    requires forall i :: 0 <= i < |s| ==> s'[i] == s[i].(offset := U32(s[i].offset - amount))
    requires forall i :: 0 <= i < |s| && s[i].used ==> amount <= s[i].offset < 0x1_0000_0000
    ensures FirstOfItsId(s')
    ensures forall id :: id in Users(s) ==> amount <= Users(s)[id].offset
    ensures Users(s') == Lowered(Users(s), amount)
  {
    hide Users, U32;
    forall i, j | 0 <= j < i < |s'| && s'[i].used ensures s'[j].id != s'[i].id {
      assert s[j].id != s[i].id;
    }
    forall id | id in Users(s)
      ensures amount <= Users(s)[id].offset && id in Users(s')
    {
      var i := SlotFor(s, id);
      UserOf(s', i);
    }
    forall id | id in Users(s')
      ensures id in Users(s) && Users(s')[id] == Users(s)[id].(offset := Users(s)[id].offset - amount)
    {
      var i := SlotFor(s', id);
      UserOf(s, i);
    }
  }

  lemma MoreSlots(s: seq<IdOffset>, extra: seq<IdOffset>)
    requires FirstOfItsId(s) && forall i :: 0 <= i < |extra| ==> !extra[i].used
    ensures FirstOfItsId(s + extra) && Users(s + extra) == Users(s)
  {
    var s' := s + extra;
    assert FirstOfItsId(s');
    hide Users, FirstOfItsId;
    forall id | id in Users(s') ensures id in Users(s) && Users(s)[id] == Users(s')[id] {
      var i := SlotFor(s', id);
      assert i < |s| && s'[i] == s[i];
      UserOf(s, i);
    }
    forall id | id in Users(s) ensures id in Users(s') {
      var i := SlotFor(s, id);
      assert s'[i] == s[i];
      UserOf(s', i);
    }
  }

  /** The first slot with an id is the active one if the id is active at all. */
  lemma FirstSlot(s: seq<IdOffset>, i: nat)
    requires FirstOfItsId(s) && i < |s| && forall k :: 0 <= k < i ==> s[k].id != s[i].id
    ensures s[i].used <==> s[i].id in Users(s)
    ensures s[i].used ==> Users(s)[s[i].id] == User(s[i].offset, s[i].data)
  {
    hide Users;
    if s[i].used {
      UserOf(s, i);
    } else if s[i].id in Users(s) {
      var k := SlotFor(s, s[i].id);
      assert false;
    }
  }

  // ----- the book of reports and returns -----

  datatype Op = Add(id: nat, data: int) | Remove(id: nat) | Update(id: nat, delta: nat) | NewWritePoint

  /** The users, with what each has reported and what has been returned as write points since it was
      added. */
  datatype Book = Book(users: map<nat, User>, reported: map<nat, int>, returned: map<nat, int>)

  /** A write point handed to every active user. */
  ghost function Credited(returned: map<nat, int>, users: map<nat, User>, result: nat): map<nat, int> {
    map id | id in returned :: returned[id] + if id in users then result else 0
  }

  /** One call on the users' table, as the contracts of class Share state it, and its entries in the
      book. result is the write point a NewWritePoint returns. */
  ghost predicate Step(bufSz: nat, b: Book, op: Op, result: nat, b': Book) {
    match op
    case Add(id, data) =>
      if id in b.users then b' == b
      else b' == Book(b.users[id := User(0, data)], b.reported[id := 0], b.returned[id := 0])
    case Remove(id) =>
      b' == b.(users := b.users - {id})
    case Update(id, delta) =>
      && b'.users == (if id in b.users then b.users[id := b.users[id].(offset := U32(b.users[id].offset + delta))]
                      else b.users)
      && b'.reported == (if id in b.users && id in b.reported then b.reported[id := b.reported[id] + delta]
                         else b.reported)
      && b'.returned == b.returned
    case NewWritePoint =>
      exists least: nat ::
        && IsLeast(least, b.users, bufSz + 1) && result == (if least > bufSz then 0 else least)
        && b'.users == Lowered(b.users, least)
        && b'.reported == b.reported
        && b'.returned == Credited(b.returned, b.users, result)
  }

  /** What callers must keep to: offsets below 2^32 when they report, and, when they ask for the write point,
      nobody active or somebody whose offset is within the buffer. */
  ghost predicate WithinBuffer(bufSz: nat, b: Book, op: Op) {
    match op
    case Update(id, delta) => id in b.users ==> b.users[id].offset + delta < 0x1_0000_0000
    case NewWritePoint => b.users == map[] || exists id :: id in b.users && b.users[id].offset <= bufSz
    case _ => true
  }

  /** For every active id: returned write points plus current offset are the deltas it reported. */
  ghost predicate Conserved(b: Book) {
    && b.users.Keys <= b.reported.Keys == b.returned.Keys
    && forall id :: id in b.users ==> b.returned[id] + b.users[id].offset == b.reported[id]
  }

  /** Exactly when a write point returned is what was taken from the offsets: nobody is active, or
      somebody's offset is within the buffer. */
  lemma ReturnedIsTakenIff(bufSz: nat, us: map<nat, User>, least: nat)
    requires IsLeast(least, us, bufSz + 1)
    ensures (us == map[] || least == if least > bufSz then 0 else least) <==>
            (us == map[] || exists id :: id in us && us[id].offset <= bufSz)
  {
  }

  /** A call keeps the balance exactly when its caller keeps to these rules: a report that wraps, or a write
      point when everybody is beyond the buffer, always upsets it. After a new write point that keeps the
      balance somebody's offset is 0, and all stay within the buffer if all were. */
  lemma StepConserves(bufSz: nat, b: Book, op: Op, result: nat, b': Book)
    requires Conserved(b) && Step(bufSz, b, op, result, b')
    ensures Conserved(b') <==> WithinBuffer(bufSz, b, op)
    ensures op.NewWritePoint? && b.users != map[] && WithinBuffer(bufSz, b, op) ==>
              exists id :: id in b'.users && b'.users[id].offset == 0
    ensures op.NewWritePoint? && (forall id :: id in b.users ==> b.users[id].offset <= bufSz) ==>
              forall id :: id in b'.users ==> b'.users[id].offset + result <= bufSz
  {
    match op
    case Add(id, data) =>
    case Remove(id) =>
    case Update(id, delta) =>
      if id in b.users {
        assert b'.users[id].offset == U32(b.users[id].offset + delta);
      }
    case NewWritePoint =>
      var least: nat :| IsLeast(least, b.users, bufSz + 1) && b'.users == Lowered(b.users, least) &&
                        result == (if least > bufSz then 0 else least);
      ReturnedIsTakenIff(bufSz, b.users, least);
      WritePointConserves(bufSz, b, least, result, b');
  }

  /** A new write point keeps the balance exactly when it returns what it takes. */
  lemma WritePointConserves(bufSz: nat, b: Book, least: nat, result: nat, b': Book)
    requires Conserved(b) && IsLeast(least, b.users, bufSz + 1)
    requires b'.users == Lowered(b.users, least) && result == (if least > bufSz then 0 else least)
    requires b'.reported == b.reported && b'.returned == Credited(b.returned, b.users, result)
    ensures Conserved(b') <==> b.users == map[] || least == result
    ensures b.users != map[] && least == result ==> exists id :: id in b'.users && b'.users[id].offset == 0
  {
    if b.users != map[] {
      var some :| some in b.users;
      assert b'.returned[some] + b'.users[some].offset == b.reported[some] + result - least;
      if least == result {
        var id :| id in b.users && b.users[id].offset == least;
        assert id in b'.users && b'.users[id].offset == 0;
      }
    }
  }

  /** struct buffer_share. The ghosts keep the book. */
  class Share {
    const bufSz: nat
    var wrIdx: array<IdOffset>
    ghost var reported: map<nat, int>
    ghost var returned: map<nat, int>

    ghost predicate Valid()
      reads this, wrIdx
    {
      && bufSz + 1 < 0x1_0000_0000 && wrIdx.Length > 0
      && FirstOfItsId(wrIdx[..])
      && forall i :: 0 <= i < wrIdx.Length ==> wrIdx[i].offset < 0x1_0000_0000
    }

    ghost function Active(): map<nat, User>
      requires Valid()
      reads this, wrIdx
    {
      Users(wrIdx[..])
    }

    ghost function Ledger(): Book
      requires Valid()
      reads this, wrIdx
    {
      Book(Active(), reported, returned)
    }

    /** The ledger takes the step, and stays balanced exactly if the caller keeps to the rules. */
    twostate predicate Books(op: Op, result: nat)
      requires old(Valid()) && Valid()
      reads this, wrIdx
    {
      && Step(bufSz, old(Ledger()), op, result, Ledger())
      && (old(Conserved(Ledger())) ==> (Conserved(Ledger()) <==> WithinBuffer(bufSz, old(Ledger()), op)))
    }

    /** buffer_share_create. */
    constructor (bufSz: nat)
      requires bufSz + 1 < 0x1_0000_0000
      ensures Valid() && fresh(wrIdx) && Active() == map[] && this.bufSz == bufSz
      ensures Ledger() == Book(map[], map[], map[]) && Conserved(Ledger())
    {
      reported, returned := map[], map[];
      this.bufSz := bufSz;
      wrIdx := new IdOffset[INITIAL_ID_SIZE](_ => IdOffset(false, 0, 0, 0));
    }

    /** find_unused; the length of the table stands for the null pointer. */
    method FindUnused() returns (k: nat)
      ensures k <= wrIdx.Length && (k < wrIdx.Length ==> !wrIdx[k].used)
      ensures forall i :: 0 <= i < k ==> wrIdx[i].used
    {
      k := 0;
      while k < wrIdx.Length
        invariant k <= wrIdx.Length && forall i :: 0 <= i < k ==> wrIdx[i].used
      {
        if !wrIdx[k].used {
          return;
        }
        k := k + 1;
      }
    }

    /** find_id and get_id_offset. */
    method FindId(id: nat) returns (k: nat)
      requires Valid()
      ensures k <= wrIdx.Length && (k < wrIdx.Length <==> id in Active())
      ensures k < wrIdx.Length ==> wrIdx[k].used && wrIdx[k].id == id
    {
      k := 0;
      if id in Active() {
        ghost var i := SlotFor(wrIdx[..], id);
      }
      while k < wrIdx.Length
        invariant k <= wrIdx.Length
        invariant forall i :: 0 <= i < k ==> !(wrIdx[i].used && wrIdx[i].id == id)
      {
        if wrIdx[k].used && id == wrIdx[k].id {
          UserOf(wrIdx[..], k);
          return;
        }
        k := k + 1;
      }
    }

    /** alloc_more_ids: realloc leaves the new slots' other fields undefined. */
    method AllocMoreIds()
      requires Valid()
      modifies this`wrIdx
      ensures Valid() && fresh(wrIdx) && wrIdx.Length == 2 * old(wrIdx.Length)
      ensures Active() == old(Active()) && wrIdx[..old(wrIdx.Length)] == old(wrIdx[..])
      ensures forall i :: old(wrIdx.Length) <= i < wrIdx.Length ==> !wrIdx[i].used
    {
      var newSize := 2 * wrIdx.Length;
      var grown := new IdOffset[newSize];
      ghost var s := wrIdx[..];
      for i := 0 to newSize
        invariant forall k :: 0 <= k < i && k < wrIdx.Length ==> grown[k] == wrIdx[k]
        invariant forall k :: wrIdx.Length <= k < i ==> !grown[k].used && grown[k].offset < 0x1_0000_0000
        invariant wrIdx[..] == s
      {
        if i < wrIdx.Length {
          grown[i] := wrIdx[i];
        } else {
          grown[i] := IdOffset(false, U32(grown[i].id), U32(grown[i].offset), grown[i].data);
        }
      }
      assert grown[..] == s + grown[wrIdx.Length..];
      MoreSlots(s, grown[wrIdx.Length..]);
      wrIdx := grown;
    }

    /** The first unused slot becomes that of a new user. */
    method TakeSlot(o: nat, id: nat, data: int)
      requires Valid() && id !in Active() && o < wrIdx.Length && !wrIdx[o].used
      requires forall i :: 0 <= i < o ==> wrIdx[i].used
      modifies wrIdx
      ensures Valid() && Active() == old(Active())[id := User(0, data)]
    {
      UseSlot(wrIdx[..], o, id, data);
      ghost var s := wrIdx[..];
      wrIdx[o] := IdOffset(true, id, 0, data);
      assert wrIdx[..] == s[o := IdOffset(true, id, 0, data)];
    }

    /** buffer_share_add_id. */
    method AddId(id: nat, data: int) returns (rc: int)
      requires Valid()
      modifies this`wrIdx, this`reported, this`returned, wrIdx
      ensures Valid() && (wrIdx == old(wrIdx) || fresh(wrIdx)) && Books(Add(id, data), 0)
      ensures rc == if id in old(Active()) then -EEXIST else 0
      ensures rc != 0 || (exists i :: 0 <= i < old(wrIdx.Length) && !old(wrIdx[i].used)) ==> wrIdx == old(wrIdx)
      ensures Active() == if rc == 0 then old(Active())[id := User(0, data)] else old(Active())
    {
      var o := FindId(id);
      if o < wrIdx.Length {
        Balances(Ledger(), Add(id, data), 0, Ledger());
        return -EEXIST;
      }
      o := FindUnused();
      ghost var free := o;
      if o == wrIdx.Length {
        AllocMoreIds();
      }
      assert !wrIdx[free].used;
      o := FindUnused();
      TakeSlot(o, id, data);
      reported, returned := reported[id := 0], returned[id := 0];
      Balances(old(Ledger()), Add(id, data), 0, Ledger());
      return 0;
    }

    /** buffer_share_rm_id: the slot keeps its id. */
    method RmId(id: nat) returns (rc: int)
      requires Valid()
      modifies wrIdx
      ensures Valid() && Books(Remove(id), 0)
      ensures rc == if id in old(Active()) then 0 else -ENOENT
      ensures Active() == old(Active()) - {id}
    {
      var o := FindId(id);
      if o == wrIdx.Length {
        assert Active() - {id} == Active();
        Balances(Ledger(), Remove(id), 0, Ledger());
        return -ENOENT;
      }
      ghost var s := wrIdx[..];
      wrIdx[o] := wrIdx[o].(used := false, data := 0);
      assert wrIdx[..] == s[o := s[o].(used := false, data := 0)];
      SlotChanged(s, wrIdx[..], o);
      Balances(old(Ledger()), Remove(id), 0, Ledger());
      return 0;
    }

    /** buffer_share_offset_update: the first slot with the id, used or not. */
    method OffsetUpdate(id: nat, delta: nat)
      requires Valid()
      modifies this`reported, wrIdx
      ensures Valid() && Books(Update(id, delta), 0)
      ensures Active() == if id in old(Active())
                          then old(Active())[id := old(Active())[id].(offset := U32(old(Active())[id].offset + delta))]
                          else old(Active())
    {
      hide Users;
      ghost var s := wrIdx[..];
      for i := 0 to wrIdx.Length
        invariant wrIdx[..] == s
        invariant forall k :: 0 <= k < i ==> s[k].id != id
      {
        if id == wrIdx[i].id {
          var slot := wrIdx[i].(offset := U32(wrIdx[i].offset + delta));
          wrIdx[i] := slot;
          assert wrIdx[..] == s[i := slot];
          FirstSlot(s, i);
          SlotChanged(s, wrIdx[..], i);
          if id in Users(s) && id in reported {
            reported := reported[id := reported[id] + delta];
          }
          Balances(old(Ledger()), Update(id, delta), 0, Ledger());
          return;
        }
      }
      if id in Users(s) {
        ghost var i := SlotFor(s, id);
      }
      Balances(old(Ledger()), Update(id, delta), 0, Ledger());
    }

    /** The first loop of buffer_share_get_new_write_point. */
    method FindLeast() returns (least: nat)
      requires Valid()
      ensures IsLeast(least, Active(), bufSz + 1)
    {
      hide Users;
      ghost var s := wrIdx[..];
      least := bufSz + 1;
      for i := 0 to wrIdx.Length
        invariant least <= bufSz + 1
        invariant forall k :: 0 <= k < i && s[k].used ==> least <= s[k].offset
        invariant least == bufSz + 1 || exists k :: 0 <= k < i && s[k].used && s[k].offset == least
      {
        if wrIdx[i].used {
          least := if wrIdx[i].offset < least then wrIdx[i].offset else least;
        }
      }
      LeastOfSlots(s, least, bufSz + 1);
    }

    /** The second loop: the subtraction wraps on unused slots. */
    method LowerSlots(least: nat)
      requires Valid() && IsLeast(least, Active(), bufSz + 1)
      modifies wrIdx
      ensures Valid() && Active() == Lowered(old(Active()), least)
    {
      hide Users, U32, IsLeast;
      ghost var s := wrIdx[..];
      LeastSlots(s, least);
      for i := 0 to wrIdx.Length
        invariant forall k :: 0 <= k < i ==> wrIdx[k] == s[k].(offset := U32(s[k].offset - least))
        invariant forall k :: i <= k < wrIdx.Length ==> wrIdx[k] == s[k]
      {
        wrIdx[i] := wrIdx[i].(offset := U32(wrIdx[i].offset - least));
      }
      LowerAll(s, wrIdx[..], least);
    }

    lemma LeastSlots(s: seq<IdOffset>, least: nat)
      requires FirstOfItsId(s) && IsLeast(least, Users(s), bufSz + 1)
      ensures forall i :: 0 <= i < |s| && s[i].used ==> least <= s[i].offset
    {
      hide Users;
      forall i | 0 <= i < |s| && s[i].used ensures least <= s[i].offset {
        UserOf(s, i);
      }
    }

    /** buffer_share_get_new_write_point. */
    method GetNewWritePoint() returns (r: nat, ghost least: nat)
      requires Valid()
      modifies this`returned, wrIdx
      ensures Valid() && Books(NewWritePoint, r)
      ensures IsLeast(least, old(Active()), bufSz + 1)
      ensures Active() == Lowered(old(Active()), least)
      ensures r == if least > bufSz then 0 else least
    {
      hide Users, IsLeast, Lowered, Credited, WithinBuffer, Conserved, Step;
      ghost var b := Ledger();
      var minWritten := FindLeast();
      least := minWritten;
      LowerSlots(minWritten);
      r := if minWritten > bufSz then 0 else minWritten;
      returned := Credited(returned, b.users, r);
      WritePointTaken(b, least, r, Ledger());
      Balances(b, NewWritePoint, r, Ledger());
    }

    lemma WritePointTaken(b: Book, least: nat, r: nat, b': Book)
      requires IsLeast(least, b.users, bufSz + 1) && r == (if least > bufSz then 0 else least)
      requires b' == Book(Lowered(b.users, least), b.reported, Credited(b.returned, b.users, r))
      ensures Step(bufSz, b, NewWritePoint, r, b')
    {
    }

    lemma Balances(b: Book, op: Op, result: nat, b': Book)
      requires Step(bufSz, b, op, result, b')
      ensures Conserved(b) ==> (Conserved(b') <==> WithinBuffer(bufSz, b, op))
    {
      if Conserved(b) {
        StepConserves(bufSz, b, op, result, b');
      }
    }

    /** buffer_share_id_offset. */
    method OffsetOf(id: nat) returns (r: nat)
      requires Valid()
      ensures r == if id in Active() then Active()[id].offset else 0
    {
      var o := FindId(id);
      if o < wrIdx.Length {
        UserOf(wrIdx[..], o);
      }
      r := if o < wrIdx.Length then wrIdx[o].offset else 0;
    }

    /** buffer_share_get_data. */
    method GetData(id: nat) returns (r: int)
      requires Valid()
      ensures r == if id in Active() then Active()[id].data else 0
    {
      var o := FindId(id);
      if o < wrIdx.Length {
        UserOf(wrIdx[..], o);
      }
      r := if o < wrIdx.Length then wrIdx[o].data else 0;
    }
  }

  lemma LeastOfSlots(s: seq<IdOffset>, r: nat, limit: nat)
    requires FirstOfItsId(s) && r <= limit
    requires forall k :: 0 <= k < |s| && s[k].used ==> r <= s[k].offset
    requires r == limit || exists k :: 0 <= k < |s| && s[k].used && s[k].offset == r
    ensures IsLeast(r, Users(s), limit)
  {
    hide Users;
    forall id | id in Users(s) ensures r <= Users(s)[id].offset {
      var k := SlotFor(s, id);
    }
    if r < limit {
      var k :| 0 <= k < |s| && s[k].used && s[k].offset == r;
      UserOf(s, k);
      assert s[k].id in Users(s) && Users(s)[s[k].id].offset == r;
    }
  }

  /** Over every run of calls from the start: the balance holds throughout exactly when every call keeps to
      the rules. */
  lemma {:induction false} RunConserves(bufSz: nat, books: seq<Book>, ops: seq<Op>, results: seq<nat>)
    requires |books| == |ops| + 1 == |results| + 1
    requires books[0] == Book(map[], map[], map[])
    requires forall k :: 0 <= k < |ops| ==> Step(bufSz, books[k], ops[k], results[k], books[k + 1])
    ensures (forall k :: 0 <= k <= |ops| ==> Conserved(books[k])) <==>
            forall k :: 0 <= k < |ops| ==> WithinBuffer(bufSz, books[k], ops[k])
    decreases |ops|
  {
    hide Step, WithinBuffer, Conserved;
    NothingConserved();
    if ops != [] {
      var n := |ops| - 1;
      RunConserves(bufSz, books[..n + 1], ops[..n], results[..n]);
      assert forall k :: 0 <= k <= n ==> books[..n + 1][k] == books[k];
      if Conserved(books[n]) {
        StepConserves(bufSz, books[n], ops[n], results[n], books[n + 1]);
      }
    }
  }

  lemma NothingConserved()
    ensures Conserved(Book(map[], map[], map[]))
  {
  }

  // ----- calls that upset the balance -----

  /** A new table with one user that has reported once. */
  method OneUser(bufSz: nat, id: nat, delta: nat) returns (share: Share)
    requires bufSz + 1 < 0x1_0000_0000 && delta < 0x1_0000_0000
    ensures fresh(share) && fresh(share.wrIdx) && share.Valid() && share.bufSz == bufSz
    ensures share.Ledger() == Book(map[id := User(delta, 0)], map[id := delta], map[id := 0])
    ensures Conserved(share.Ledger())
  {
    hide Users, Conserved;
    share := new Share(bufSz);
    var rc := share.AddId(id, 0);
    share.OffsetUpdate(id, delta);
  }

  /** One user reports one byte more than the buffer has: the write point returned is 0, yet all was taken. */
  method BeyondBuffer(bufSz: nat, id: nat) returns (share: Share, r: nat)
    requires bufSz + 1 < 0x1_0000_0000
    ensures fresh(share) && share.Valid() && r == 0 && !Conserved(share.Ledger())
    ensures share.Active() == map[id := User(0, 0)] && share.reported == map[id := bufSz + 1]
  {
    hide Users, Conserved;
    share := OneUser(bufSz, id, bufSz + 1);
    ghost var least;
    r, least := share.GetNewWritePoint();
  }

  /** One user reports 2^32 in two calls: its offset is 0, and nothing was returned. */
  method ReportsWrap(bufSz: nat, id: nat) returns (share: Share)
    requires bufSz + 1 < 0x1_0000_0000
    ensures fresh(share) && share.Valid() && !Conserved(share.Ledger())
    ensures share.Active() == map[id := User(0, 0)] && share.reported == map[id := 0x1_0000_0000]
  {
    hide Users, Conserved;
    share := OneUser(bufSz, id, 0xFFFF_FFFF);
    share.OffsetUpdate(id, 1);
  }
}
