/**
 The registry of recent operations: idempotency by id and digest, one sequence number
 per admission, and eviction of the oldest finished operations only.
 */
module ControlRegistry {
  type Id = nat

  datatype OpState = Queued | Running | Succeeded | Failed

  datatype Entry = Entry(digest: string, sequence: nat, state: OpState)

  datatype Reg = Reg(ops: map<Id, Entry>, order: seq<Id>, next: nat)

  datatype Admission = Registered(sequence: nat) | Existing(sequence: nat) | Conflict | Rejected

  predicate IsTerminal(state: OpState) {
    state.Succeeded? || state.Failed?
  }

  /** `order` lists every registered id, in the order of their sequence numbers. */
  ghost predicate RegOk(r: Reg) {
    Listed(r) && Ascending(r)
  }

  ghost predicate Listed(r: Reg) {
    forall id :: id in r.ops <==> id in r.order
  }

  ghost predicate Ascending(r: Reg)
    requires Listed(r)
  {
    && (forall i | 0 <= i < |r.order| :: r.ops[r.order[i]].sequence < r.next)
    && (forall i, j | 0 <= i < j < |r.order| :: r.ops[r.order[i]].sequence < r.ops[r.order[j]].sequence)
  }

  predicate TerminalAt(r: Reg, i: nat)
    requires i < |r.order|
  {
    r.order[i] in r.ops && IsTerminal(r.ops[r.order[i]].state)
  }

  function FirstTerminal(r: Reg, from: nat): (k: nat)
    requires from <= |r.order|
    ensures from <= k <= |r.order|
    ensures k < |r.order| ==> TerminalAt(r, k)
    ensures forall i | from <= i < k :: !TerminalAt(r, i)
    decreases |r.order| - from
  {
    if from == |r.order| || TerminalAt(r, from) then from else FirstTerminal(r, from + 1)
  }

  function Remove(r: Reg, k: nat): Reg
    requires k < |r.order|
  {
    Reg(r.ops - {r.order[k]}, r.order[..k] + r.order[k + 1..], r.next)
  }

  function Evicted(r: Reg, capacity: nat): Reg
    decreases |r.order|
  {
    var k := FirstTerminal(r, 0);
    if |r.ops| < capacity || k == |r.order| then r else Evicted(Remove(r, k), capacity)
  }

  function Insert(r: Reg, id: Id, digest: string): Reg {
    Reg(r.ops[id := Entry(digest, r.next, Queued)], r.order + [id], r.next + 1)
  }

  /** `accepted` tells whether the queue took the work; both happen under one lock. */
  function AdmitSpec(r: Reg, capacity: nat, id: Id, digest: string, accepted: bool): (Reg, Admission) {
    if id in r.ops then
      (r, if r.ops[id].digest == digest then Existing(r.ops[id].sequence) else Conflict)
    else
      var room := Evicted(r, capacity);
      if accepted then (Insert(room, id, digest), Registered(r.next))
      else (room.(next := r.next + 1), Rejected)
  }

  function SetState(r: Reg, id: Id, state: OpState): Reg {
    if id in r.ops then r.(ops := r.ops[id := r.ops[id].(state := state)]) else r
  }

  // ---------- What eviction keeps ----------

  lemma RemoveKeepsOk(r: Reg, k: nat)
    requires RegOk(r) && k < |r.order|
    ensures RegOk(Remove(r, k)) && Remove(r, k).next == r.next && |Remove(r, k).ops| == |r.ops| - 1
  {
    hide Listed, Ascending;
    RemoveListed(r, k);
    RemoveAscending(r, k);
  }

  lemma RemovedAt(r: Reg, k: nat, i: nat)
    requires k < |r.order| && i < |Remove(r, k).order|
    ensures Remove(r, k).order[i] == r.order[if i < k then i else i + 1]
  {
  }

  lemma Unlike(r: Reg, i: nat, j: nat)
    requires RegOk(r) && i < |r.order| && j < |r.order| && i != j
    ensures r.order[i] != r.order[j]
  {
  }

  lemma RemoveListed(r: Reg, k: nat)
    requires RegOk(r) && k < |r.order|
    ensures Listed(Remove(r, k)) && |Remove(r, k).ops| == |r.ops| - 1
  {
    hide Ascending, Remove;
    var t := Remove(r, k);
    RemovedIs(r, k);
    assert r.order[k] in r.ops;
    forall id ensures id in t.ops <==> id in t.order {
      RemoveMember(r, k, id);
    }
  }

  lemma RemovedIs(r: Reg, k: nat)
    requires k < |r.order|
    ensures Remove(r, k) == Reg(r.ops - {r.order[k]}, r.order[..k] + r.order[k + 1..], r.next)
  {
  }

  lemma RemoveMember(r: Reg, k: nat, id: Id)
    requires RegOk(r) && k < |r.order|
    ensures id in Remove(r, k).order <==> id in r.ops && id != r.order[k]
  {
    hide Ascending;
    var t := Remove(r, k);
    if id in t.order {
      var i :| 0 <= i < |t.order| && t.order[i] == id;
      RemovedAt(r, k, i);
      Unlike(r, k, if i < k then i else i + 1);
    }
    if id in r.ops && id != r.order[k] {
      var i := Position(r, id);
      RemovedAt(r, k, if i < k then i else i - 1);
    }
  }

  lemma RemoveAscending(r: Reg, k: nat)
    requires RegOk(r) && k < |r.order| && Listed(Remove(r, k))
    ensures Ascending(Remove(r, k))
  {
    hide Listed, Remove;
    RemovedIs(r, k);
    var t := Remove(r, k);
    forall i | 0 <= i < |t.order|
      ensures t.order[i] == r.order[if i < k then i else i + 1]
    {
      RemovedAt(r, k, i);
    }
    forall i | 0 <= i < |t.order|
      ensures t.order[i] in t.ops && t.ops[t.order[i]] == r.ops[r.order[if i < k then i else i + 1]]
    {
      IsListed(t, i);
    }
  }

  lemma IsListed(r: Reg, i: nat)
    requires Listed(r) && i < |r.order|
    ensures r.order[i] in r.ops
  {
  }

  lemma SequenceOrder(r: Reg, i: nat, j: nat)
    requires RegOk(r) && i < |r.order| && j < |r.order|
    ensures r.ops[r.order[i]].sequence < r.ops[r.order[j]].sequence <==> i < j
  {
  }

  lemma Position(r: Reg, id: Id) returns (i: nat)
    requires Listed(r) && id in r.ops
    ensures i < |r.order| && r.order[i] == id
  {
    i :| 0 <= i < |r.order| && r.order[i] == id;
  }

  /** Evicting drops finished operations only, and stops only with room or nothing finished left. */
  lemma {:induction false} EvictedOk(r: Reg, capacity: nat)
    requires RegOk(r)
    ensures var t := Evicted(r, capacity);
      && RegOk(t) && t.next == r.next && |t.ops| <= |r.ops|
      && (forall id | id in t.ops :: id in r.ops && t.ops[id] == r.ops[id])
      && (forall id | id in r.ops && !IsTerminal(r.ops[id].state) :: id in t.ops)
      && (|t.ops| < capacity || forall id | id in t.ops :: !IsTerminal(t.ops[id].state))
    decreases |r.order|
  {
    hide Listed, Ascending;
    var k := FirstTerminal(r, 0);
    if |r.ops| < capacity || k == |r.order| {
      if k == |r.order| {
        forall id | id in r.ops ensures !IsTerminal(r.ops[id].state) {
          var i := Position(r, id);
          assert !TerminalAt(r, i);
        }
      }
    } else {
      RemoveKeepsOk(r, k);
      EvictedOk(Remove(r, k), capacity);
    }
  }

  /** Nothing is evicted while an older finished operation stays. */
  lemma {:induction false} EvictsOldest(r: Reg, capacity: nat, a: Id, b: Id)
    requires RegOk(r) && a in r.ops && b in r.ops && IsTerminal(r.ops[a].state)
    requires r.ops[a].sequence < r.ops[b].sequence && b !in Evicted(r, capacity).ops
    ensures a !in Evicted(r, capacity).ops
    decreases |r.order|
  {
    hide Listed, Ascending, Remove;
    var k := FirstTerminal(r, 0);
    if !(|r.ops| < capacity || k == |r.order|) {
      RemoveKeepsOk(r, k);
      RemovedIs(r, k);
      EvictedOk(Remove(r, k), capacity);
      var i := Position(r, a);
      var j := Position(r, b);
      assert TerminalAt(r, i);
      SequenceOrder(r, i, j);
      assert k <= i < j;
      if k != i {
        Unlike(r, k, i);
        Unlike(r, k, j);
        EvictsOldest(Remove(r, k), capacity, a, b);
      }
    }
  }

  lemma InsertKeepsOk(r: Reg, id: Id, digest: string)
    requires RegOk(r) && id !in r.ops
    ensures RegOk(Insert(r, id, digest))
  {
    var t := Insert(r, id, digest);
    forall i | 0 <= i < |r.order| ensures t.order[i] == r.order[i] && r.order[i] != id && r.order[i] in r.ops {
      assert r.order[i] in r.order;
    }
    assert t.order[|r.order|] == id;
  }

  lemma SetKeepsOk(r: Reg, id: Id, state: OpState)
    requires RegOk(r)
    ensures RegOk(SetState(r, id, state)) && SetState(r, id, state).ops.Keys == r.ops.Keys
  {
  }

  /** A live id is found again, whatever is resubmitted under it: nothing is registered or
      evicted, and no sequence number is used up. */
  lemma ResubmitLeavesRegistry(r: Reg, capacity: nat, id: Id, digest: string, accepted: bool)
    requires id in r.ops
    ensures AdmitSpec(r, capacity, id, digest, accepted).0 == r
    ensures AdmitSpec(r, capacity, id, digest, accepted).1 ==
            if r.ops[id].digest == digest then Existing(r.ops[id].sequence) else Conflict
  {
  }

  lemma AdmitKeepsOk(r: Reg, capacity: nat, id: Id, digest: string, accepted: bool)
    requires RegOk(r)
    ensures RegOk(AdmitSpec(r, capacity, id, digest, accepted).0)
  {
    if id !in r.ops {
      EvictedOk(r, capacity);
      InsertKeepsOk(Evicted(r, capacity), id, digest);
    }
  }

  class Registry {
    var operations: map<Id, Entry>
    var order: seq<Id>
    var nextSequence: nat
    const capacity: nat

    ghost function Now(): Reg
      reads this
    {
      Reg(operations, order, nextSequence)
    }

    constructor (capacity: nat)
      ensures this.capacity == capacity && Now() == Reg(map[], [], 0) && RegOk(Now())
    {
      this.capacity := capacity;
      operations, order, nextSequence := map[], [], 0;
    }

    /** Registers and enqueues under one lock; a refused enqueue takes the entry out again. */
    method Admit(id: Id, digest: string, accepted: bool) returns (admission: Admission)
      requires RegOk(Now())
      modifies this
      ensures RegOk(Now())
      ensures (Now(), admission) == AdmitSpec(old(Now()), capacity, id, digest, accepted)
    {
      hide RegOk;
      AdmitKeepsOk(Now(), capacity, id, digest, accepted);
      if id in operations {
        return if operations[id].digest == digest then Existing(operations[id].sequence) else Conflict;
      }
      EvictedOk(Now(), capacity);
      MakeRoom();
      ghost var room := Now();
      var sequence := nextSequence;
      nextSequence := nextSequence + 1;
      operations := operations[id := Entry(digest, sequence, Queued)];
      order := order + [id];
      if !accepted {
        operations := operations - {id};
        order := order[..|order| - 1];
        assert operations == room.ops && order == room.order;
        return Rejected;
      }
      return Registered(sequence);
    }

    /** Evicts the oldest finished operations until there is room or none is left. */
    method MakeRoom()
      requires RegOk(Now())
      modifies `operations, `order
      ensures Now() == Evicted(old(Now()), capacity)
    {
      hide RegOk, Remove;
      var position := FirstTerminal(Reg(operations, order, nextSequence), 0);
      while |operations| >= capacity && position < |order|
        invariant RegOk(Now()) && position == FirstTerminal(Now(), 0)
        invariant Evicted(Now(), capacity) == Evicted(old(Now()), capacity)
        decreases |order|
      {
        RemoveKeepsOk(Now(), position);
        RemovedIs(Now(), position);
        operations := operations - {order[position]};
        order := order[..position] + order[position + 1..];
        position := FirstTerminal(Reg(operations, order, nextSequence), 0);
      }
    }

    /** An evicted operation is left alone. */
    method Set(id: Id, state: OpState)
      requires RegOk(Now())
      modifies `operations
      ensures RegOk(Now()) && Now() == SetState(old(Now()), id, state)
    {
      SetKeepsOk(Now(), id, state);
      if id in operations {
        operations := operations[id := operations[id].(state := state)];
      }
    }
  }

  /** The bound the registry runs with: every waiting operation and the running one fit. */
  function LiveCapacity(registryCapacity: nat, queueCapacity: nat): (capacity: nat)
    ensures capacity >= registryCapacity && capacity >= queueCapacity + 1
  {
    if registryCapacity > queueCapacity + 1 then registryCapacity else queueCapacity + 1
  }
}
