// The client table: a fixed array of slots, reused as clients come and go.
module Slots {
  import opened Base

  datatype Slot<D> = Slot(free: bool, ds: Option<D>)

  // numClients: how many slots are occupied.
  function Occupied<D>(slots: seq<Slot<D>>): (n: nat)
    ensures n <= |slots|
  {
    if slots == [] then 0 else (if slots[0].free then 0 else 1) + Occupied(slots[1..])
  }

  predicate Uses<D(==)>(slot: Slot<D>, ds: D) {
    !slot.free && slot.ds == Some(ds)
  }

  // What isDataStoreInUse looks at: the slots below numClients.
  predicate Scan<D(==)>(slots: seq<Slot<D>>, ds: D) {
    exists i :: 0 <= i < Occupied(slots) && Uses(slots[i], ds)
  }

  predicate InUse<D(==)>(slots: seq<Slot<D>>, ds: D) {
    exists i :: 0 <= i < |slots| && Uses(slots[i], ds)
  }

  ghost predicate Prefix<D>(slots: seq<Slot<D>>) {
    forall i :: 0 <= i < |slots| ==> (slots[i].free <==> i >= Occupied(slots))
  }

  // The scan is exact while the occupied slots form a prefix.
  lemma PrefixIsExact(slots: seq<Slot<nat>>)
    requires Prefix(slots)
    ensures forall ds :: Scan(slots, ds) <==> InUse(slots, ds)
  {
    forall ds ensures Scan(slots, ds) <==> InUse(slots, ds) {
      if InUse(slots, ds) {
        var i :| 0 <= i < |slots| && Uses(slots[i], ds);
        assert i < Occupied(slots);
      }
    }
  }

  lemma {:induction false} OccupiedUpdate<D>(slots: seq<Slot<D>>, i: nat, slot: Slot<D>)
    requires i < |slots|
    ensures Occupied(slots[i := slot]) ==
            Occupied(slots) + (if slot.free then 0 else 1) - if slots[i].free then 0 else 1
  {
    if i > 0 {
      assert slots[i := slot][1..] == slots[1..][i - 1 := slot];
      OccupiedUpdate(slots[1..], i - 1, slot);
    } else {
      assert slots[i := slot][1..] == slots[1..];
    }
  }

  lemma {:induction false} FullWhenOccupied<D>(slots: seq<Slot<D>>)
    requires forall i :: 0 <= i < |slots| ==> !slots[i].free
    ensures Occupied(slots) == |slots|
  {
    if slots != [] { FullWhenOccupied(slots[1..]); }
  }
}

module ClientSets {
  import opened Base
  import opened Slots
  import opened StoreSpec
  import opened OpSpec
  import opened DataStores
  import opened OpDataStores

  class ClientSet {
    const clients: array<Slot<DataStore>>
    var numClients: nat
    // csMutex; a method that needs it cannot begin while it is held.
    var mutexHeld: bool

    ghost predicate Valid()
      reads this, clients
    {
      numClients == Occupied(clients[..])
    }

    constructor (max: nat)
      ensures Valid() && numClients == 0 && !mutexHeld && clients.Length == max && fresh(clients)
      ensures forall i :: 0 <= i < max ==> clients[i] == Slot(true, None)
    {
      clients := new Slot<DataStore>[max](_ => Slot(true, None));
      numClients := 0;
      mutexHeld := false;
      new;
      NoneOccupied(clients[..]);
    }

    // On a full table it reports -1 and leaves the mutex held.
    method NewClient() returns (index: int)
      requires Valid() && !mutexHeld
      modifies this, clients
      ensures Valid()
      ensures index == -1 <==> old(numClients) == clients.Length
      ensures index == -1 ==> mutexHeld && clients[..] == old(clients[..])
      ensures index != -1 ==>
                && !mutexHeld && 0 <= index < clients.Length && old(clients[index]).free
                && (forall j :: 0 <= j < index ==> !old(clients[j]).free)
                && clients[..] == old(clients[..])[index := Slot(false, None)]
    {
      mutexHeld := true;
      if numClients == clients.Length { return -1; }
      var i := 0;
      while i < clients.Length && !clients[i].free
        invariant i <= clients.Length
        invariant forall j :: 0 <= j < i ==> !clients[j].free
      {
        i := i + 1;
      }
      if i == clients.Length {
        FullWhenOccupied(clients[..]);
        assert false;
      }
      OccupiedUpdate(clients[..], i, Slot(false, None));
      clients[i] := Slot(false, None);
      assert clients[..] == old(clients[..])[i := Slot(false, None)];
      numClients := numClients + 1;
      mutexHeld := false;
      index := i;
    }

    method DeleteClient(index: nat)
      requires Valid() && !mutexHeld && index < clients.Length && !clients[index].free
      modifies this, clients
      ensures Valid() && !mutexHeld && clients[..] == old(clients[..])[index := Slot(true, None)]
    {
      OccupiedUpdate(clients[..], index, Slot(true, None));
      clients[index] := Slot(true, None);
      assert clients[..] == old(clients[..])[index := Slot(true, None)];
      numClients := numClients - 1;
    }

    // With no client at all it reports false and leaves the mutex held.
    method IsDataStoreInUse(ds: DataStore) returns (used: bool)
      requires Valid() && !mutexHeld
      modifies this`mutexHeld
      ensures used == Scan(clients[..], ds)
      ensures mutexHeld == (numClients == 0)
    {
      mutexHeld := true;
      used := false;
      if numClients == 0 { return; }
      for i := 0 to numClients
        invariant used == exists k :: 0 <= k < i && Uses(clients[k], ds)
      {
        if !clients[i].free && clients[i].ds == Some(ds) {
          assert Uses(clients[i], ds);
          used := true;
        }
      }
      assert used == Scan(clients[..], ds) by {
        assert forall k :: 0 <= k < numClients ==> clients[..][k] == clients[k];
      }
      mutexHeld := false;
    }

    // The end of a client's thread: it looks at the client's current store only.
    method EndThread(index: nat, ops: OpDataStoreSet)
      requires Valid() && !mutexHeld && index < clients.Length && !clients[index].free && ops.Valid()
      requires clients[index].ds.Some? ==> clients[index].ds.value.Valid()
      modifies this, clients, ops.live, StoreParts(clients[index].ds)
      ensures Valid() && clients[..] == old(clients[..])[index := Slot(true, None)]
      ensures Disowned(ops, index)
      ensures old(clients[index]).ds.Some? ==> Left(old(clients[index]).ds.value, index)
    {
      LetGo(clients[index].ds, index, ops);
      DeleteClient(index);
    }
  }

  // A client's current store and its documents.
  ghost function StoreParts(ds: Option<DataStore>): set<object>
    reads if ds.Some? then {ds.value} else {}
  {
    match ds
    case None => {}
    case Some(d) => {d} + d.made
  }

  // The client's transaction on the store, if any, is aborted and its lock gone.
  twostate predicate Left(ds: DataStore, c: Client)
    reads ds, ds.made
  {
    ds.Valid() && ds.made == old(ds.made) && ds.View() == Unlock(Abort(old(ds.View()), c).0, c).0
  }

  // The client owns no operational store any more.
  twostate predicate Disowned(ops: OpDataStoreSet, c: Client)
    reads ops, ops.list, ops.live
  {
    ops.Valid() && ops.live == old(ops.live) && ops.View() == ReleaseAll(old(ops.View()), c)
  }

  method LetGo(ds: Option<DataStore>, c: Client, ops: OpDataStoreSet)
    requires ds.Some? ==> ds.value.Valid()
    requires ops.Valid()
    modifies StoreParts(ds), ops.live
    ensures ds.Some? ==> Left(ds.value, c)
    ensures Disowned(ops, c)
  {
    LeaveStore(ds, c);
    assert ops.Valid() && ops.View() == old(ops.View());
    label gone:
    var released := ops.RemoveOwnerEverywhere(c);
    assert ds.Some? ==> unchanged@gone(ds.value) && unchanged@gone(ds.value.made);
  }

  method LeaveStore(ds: Option<DataStore>, c: Client)
    requires ds.Some? ==> ds.value.Valid()
    modifies StoreParts(ds)
    ensures ds.Some? ==> Left(ds.value, c)
  {
    match ds
    case None =>
    case Some(d) =>
      var aborted := d.AbortTransaction(c);
      var unlocked := d.UnlockDS(c);
  }

  lemma {:induction false} NoneOccupied(slots: seq<Slot<DataStore>>)
    requires forall i :: 0 <= i < |slots| ==> slots[i].free
    ensures Occupied(slots) == 0
  {
    if slots != [] { NoneOccupied(slots[1..]); }
  }
}
