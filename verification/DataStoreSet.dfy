// The registry of data stores: a bounded array compacted on delete, and the
// counter that numbers commits across all stores.
module DataStoreSets {
  import opened Base
  import opened Trees
  import opened Dom
  import opened StoreSpec
  import opened Slots
  import opened OpSpec
  import opened DataStores
  import opened ClientSets

  class DataStoreSet {
    const list: array<DataStore?>
    var count: nat
    var globalTransactionCounter: nat
    // The stores in the live prefix of the array, and the identity of the next one.
    ghost var live: seq<DataStore>
    ghost var nextId: nat

    // The array: the live prefix, its names distinct.
    ghost predicate Valid()
      reads this, list
    {
      && count == |live| <= list.Length && 1 <= globalTransactionCounter
      && (forall i :: 0 <= i < count ==> list[i] == live[i])
      && DistinctStores(live)
      && (forall i :: 0 <= i < count ==> GoodName(live[i].name) && live[i].id < nextId)
    }

    // And the stores own their documents, no document belonging to two.
    ghost predicate Sound()
      reads this, list, live, set ds, d | ds in live && d in ds.made :: d
    {
      Valid() && StoresValid(live)
    }

    ghost function AsMap(): map<string, DataStore>
      reads this
    {
      NameMap(live)
    }

    constructor (max: nat)
      ensures Sound() && live == [] && list.Length == max && globalTransactionCounter == 1 && nextId == 0 && fresh(list)
    {
      list := new DataStore?[max](_ => null);
      count := 0;
      globalTransactionCounter := 1;
      live := [];
      nextId := 0;
    }

    // The search loop the methods share.
    method Search(name: string) returns (i: nat)
      requires Valid()
      ensures i == Index(live, name) <= count
      ensures i < count ==> list[i] == live[i] && live[i].name == name
    {
      i := 0;
      while i < count
        invariant i <= count
        invariant forall j :: 0 <= j < i ==> live[j].name != name
      {
        if list[i].name == name { break; }
        i := i + 1;
      }
      if i < count { IndexIs(live, name, i); } else { IndexNone(live, name); }
    }

    // Searching leaves the stores as they are.
    method Locate(name: string) returns (i: nat)
      requires Sound()
      ensures Sound() && Views(live) == old(Views(live))
      ensures i == Index(live, name) <= count
      ensures i < count ==> list[i] == live[i] && live[i].name == name
    {
      i := Search(name);
      StoresKept(live);
    }

    method GetDataStore(name: string) returns (ds: DataStore?)
      requires Valid()
      ensures ds == if name in AsMap() then AsMap()[name] else null
    {
      var i := Search(name);
      NameMapIndex(live, name);
      ds := if i < count then list[i] else null;
    }

    // xml is None when the text does not parse; unread is what the store's uninitialised directories make of a tree.
    method AddDataStoreFromString(name: string, xml: Option<Xml>, unread: Xml -> bool) returns (ds: DataStore?)
      requires Sound() && (xml.Some? ==> WellFormed(xml.value))
      modifies this`count, this`live, this`nextId, list
      ensures Sound()
      ensures ds != null <==> old(count) < list.Length && name !in old(AsMap()) && GoodName(name) && xml.Some?
      ensures ds == null ==> live == old(live) && nextId == old(nextId) && Views(live) == old(Views(live))
      ensures ds != null ==> Views(live) == old(Views(live)) + [Store(xml.value, None, None, 0, None)]
      ensures ds != null ==>
                && fresh(ds) && fresh(ds.made) && ds.View() == Store(xml.value, None, None, 0, None)
                && ds.name == name && ds.constraints == unread && ds.id == old(nextId) && nextId == old(nextId) + 1
                && live == old(live) + [ds] && AsMap() == old(AsMap())[name := ds]
    {
      ds := null;
      if count == list.Length { return; }
      var i := Locate(name);
      NameMapIndex(live, name);
      if i < count { return; }
      if !GoodName(name) || xml.None? { return; }
      ds := Create(name, xml.value, unread);
    }

    method Create(name: string, xml: Xml, unread: Xml -> bool) returns (ds: DataStore)
      requires Sound() && count < list.Length && name !in AsMap() && GoodName(name) && WellFormed(xml)
      modifies this`count, this`live, this`nextId, list
      ensures Sound() && nextId == old(nextId) + 1 && globalTransactionCounter == old(globalTransactionCounter)
      ensures Views(live) == old(Views(live)) + [Store(xml, None, None, 0, None)]
      ensures fresh(ds) && fresh(ds.made) && ds.View() == Store(xml, None, None, 0, None)
      ensures ds.name == name && ds.constraints == unread && ds.id == old(nextId)
      ensures live == old(live) + [ds] && AsMap() == old(AsMap())[name := ds]
    {
      ds := NewStore(name, xml, unread);
      ghost var s := live + [ds];
      label made:
      Insert(ds);
      StoresKept@made(s);
    }

    // A store made for the registry, but not yet in it.
    method NewStore(name: string, xml: Xml, unread: Xml -> bool) returns (ds: DataStore)
      requires Sound() && name !in AsMap() && WellFormed(xml)
      ensures Valid() && StoresValid(live + [ds]) && DistinctStores(live + [ds])
      ensures Views(live + [ds]) == old(Views(live)) + [Store(xml, None, None, 0, None)]
      ensures fresh(ds) && fresh(ds.made) && ds.name == name && ds.constraints == unread && ds.id == nextId
    {
      ds := new DataStore.FromString(name, xml, unread, nextId);
      StoresKept(live);
      AppendDistinct(live, ds);
      AppendSound(live, ds);
      ViewsAppend(live, ds);
    }

    method Insert(ds: DataStore)
      requires Valid() && count < list.Length && GoodName(ds.name) && DistinctStores(live + [ds]) && ds.id == nextId
      modifies this`count, this`live, this`nextId, list
      ensures Valid() && live == old(live) + [ds] && AsMap() == old(AsMap())[ds.name := ds] && nextId == old(nextId) + 1
    {
      list[count] := ds;
      count := count + 1;
      NameMapAppend(live, ds);
      live := live + [ds];
      nextId := nextId + 1;
    }

    // Delete the store of this name unless a client uses it.
    method DeleteDataStore(c: Client, cset: ClientSet, name: string) returns (n: int)
      requires Sound() && cset.Valid() && !cset.mutexHeld && 0 < cset.numClients
      // Waiting is not a step. The destructor is safe on a store without an open transaction only.
      requires var i := Index(live, name);
               i < |live| && !Scan(cset.clients[..], live[i]) ==>
                 CanLock(live[i].View(), c) && live[i].preTransactionStartDoc == null
      modifies this`count, this`live, list, cset`mutexHeld, Doomed(name)
      ensures Sound() && !cset.mutexHeld
      ensures nextId == old(nextId) && globalTransactionCounter == old(globalTransactionCounter) && unchanged(cset.clients)
      ensures (live, Views(live), n) == AfterDelete(old(live), old(Views(live)), cset.clients[..], name)
      ensures n == 1 ==> AsMap() == old(AsMap()) - {name}
    {
      var i := Locate(name);
      if i == count { return 0; }
      n := DeleteFound(c, cset, i, list[i]);
    }

    method DeleteFound(c: Client, cset: ClientSet, i: nat, ds: DataStore) returns (n: int)
      requires Sound() && cset.Valid() && !cset.mutexHeld && 0 < cset.numClients && i < count && ds == live[i]
      requires !Scan(cset.clients[..], ds) ==> CanLock(ds.View(), c) && ds.preTransactionStartDoc == null
      modifies this`count, this`live, list, cset`mutexHeld, ds, ds.made
      ensures Sound() && !cset.mutexHeld
      ensures nextId == old(nextId) && globalTransactionCounter == old(globalTransactionCounter) && unchanged(cset.clients)
      ensures n == if Scan(cset.clients[..], ds) then -1 else 1
      ensures n == -1 ==> live == old(live) && Views(live) == old(Views(live))
      ensures n == 1 ==> live == RemoveAt(old(live), i) && AsMap() == old(AsMap()) - {ds.name}
      ensures n == 1 ==> Views(live) == RemoveAt(old(Views(live)), i)
    {
      var used := cset.IsDataStoreInUse(ds);
      StoresKept(live);
      if used { return -1; }
      DeleteSound(c, i, ds);
      n := 1;
    }

    // Deleting the store at i leaves the others as they are.
    method DeleteSound(c: Client, i: nat, ds: DataStore)
      requires Sound() && i < count && ds == live[i] && CanLock(ds.View(), c) && ds.preTransactionStartDoc == null
      modifies this`count, this`live, list, ds, ds.made
      ensures Sound() && live == RemoveAt(old(live), i) && AsMap() == old(AsMap()) - {ds.name}
      ensures Views(live) == RemoveAt(old(Views(live)), i)
    {
      ghost var s := live;
      Apart(s, i);
      RemovedSound(s, i);
      ViewsRemove(s, i);
      DeleteAt(c, i, ds);
      StoresKept(live);
    }

    // Lock the store at i, take it out of the array, unlock and destroy it.
    method DeleteAt(c: Client, i: nat, ds: DataStore)
      requires Valid() && i < count && ds == live[i] && ds.Valid() && CanLock(ds.View(), c) && ds.preTransactionStartDoc == null
      modifies this`count, this`live, list, ds, ds.made
      ensures Valid() && live == RemoveAt(old(live), i) && AsMap() == old(AsMap()) - {ds.name}
    {
      var locked := ds.LockDS(c);
      Compact(i);
      var u := ds.UnlockDS(c);
      ds.Destroy();
    }

    // memmove: the entries above i move down by one.
    method Compact(i: nat)
      requires Valid() && i < count
      modifies this`count, this`live, list
      ensures Valid() && live == RemoveAt(old(live), i) && AsMap() == old(AsMap()) - {old(live)[i].name}
    {
      NameMapRemove(live, i);
      RemoveDistinct(live, i);
      forall k | i <= k < count - 1 { list[k] := list[k + 1]; }
      count := count - 1;
      live := RemoveAt(live, i);
    }

    // What deleting the store of this name may touch: the store and its documents.
    ghost function Doomed(name: string): (r: set<object>)
      reads this, set ds | ds in live
      ensures forall o :: o in r ==> o is DataStore || o is Document
    {
      var i := Index(live, name);
      if i < |live| then {live[i]} + live[i].made else {}
    }

    method GetNextTransactionId() returns (id: nat)
      modifies this`globalTransactionCounter
      ensures id == globalTransactionCounter == old(globalTransactionCounter) + 1
    {
      globalTransactionCounter := globalTransactionCounter + 1;
      id := globalTransactionCounter;
    }

    // Copies one store's tree over another's, possibly the same one.
    method CopyDataStore(c: Client, fromName: string, toName: string) returns (n: int)
      requires Sound() && Copyable(c, Views(live), Index(live, fromName), Index(live, toName))
      modifies Doomed(fromName), Doomed(toName)
      ensures Sound() && unchanged(this)
      ensures n == if Index(live, fromName) < |live| && Index(live, toName) < |live| then 1 else 0
      ensures Views(live) == AfterCopy(old(Views(live)), c, Index(live, fromName), Index(live, toName))
    {
      var i := Locate(fromName);
      if i == count { return 0; }
      var j := Locate(toName);
      n := CopyFound(c, i, j);
    }

    method CopyFound(c: Client, i: nat, j: nat) returns (n: int)
      requires Sound() && i < count && j <= count && Copyable(c, Views(live), i, j)
      modifies live[i], if j < count then {live[j]} + live[j].made else {}
      ensures Sound() && unchanged(this) && n == if j < count then 1 else 0
      ensures Views(live) == AfterCopy(old(Views(live)), c, i, j)
    {
      if j == count {
        LockSound(c, live, list[i], i);
        return 0;
      }
      CopySound(c, live, list[i], list[j], i, j);
      n := 1;
    }
  }

  // The stores as values.
  ghost function Views(s: seq<DataStore>): (v: seq<Store>)
    reads s, set ds, d | ds in s && d in ds.Parts() :: d
    ensures |v| == |s| && forall k :: 0 <= k < |s| ==> v[k] == s[k].View()
  {
    if s == [] then [] else Views(s[..|s| - 1]) + [s[|s| - 1].View()]
  }

  // Stores that a step does not touch, nor their documents, stay as they are.
  twostate lemma StoresKept(s: seq<DataStore>)
    requires old(StoresValid(s))
    requires forall t :: t in s ==> unchanged(t)
    requires forall t, d :: t in s && d in old(t.made) ==> unchanged(d)
    ensures StoresValid(s) && Views(s) == old(Views(s))
  {
    forall k | 0 <= k < |s| ensures s[k].Valid() && s[k].View() == old(s[k].View()) {
      assert s[k] in s;
      StoreKept(s[k]);
    }
  }

  lemma ViewsAppend(s: seq<DataStore>, ds: DataStore)
    ensures Views(s + [ds]) == Views(s) + [ds.View()]
  {
    assert (s + [ds])[..|s|] == s;
  }

  lemma ViewsRemove(s: seq<DataStore>, i: nat)
    requires i < |s|
    ensures Views(RemoveAt(s, i)) == RemoveAt(Views(s), i)
  {
    var r, v := RemoveAt(s, i), Views(s);
    forall k | 0 <= k < |r| ensures Views(r)[k] == RemoveAt(v, i)[k] {
      RemovedIs(s, i, k);
      RemovedIs(v, i, k);
    }
    assert Views(r) == RemoveAt(v, i);
  }

  lemma RemovedIs<T>(s: seq<T>, i: nat, k: nat)
    requires i < |s| && k < |s| - 1
    ensures RemoveAt(s, i)[k] == s[if k < i then k else k + 1]
  {
  }

  // What a delete by name leaves and reports: nothing happens when there is no such store or the scan finds a user.
  ghost function AfterDelete(s: seq<DataStore>, v: seq<Store>, slots: seq<Slot<DataStore>>, name: string)
    : (seq<DataStore>, seq<Store>, int)
    requires |v| == |s|
  {
    var i := Index(s, name);
    if i == |s| then (s, v, 0)
    else if Scan(slots, s[i]) then (s, v, -1)
    else (RemoveAt(s, i), RemoveAt(v, i), 1)
  }

  // What a copy from store i to store j leaves: the target has the source's tree, and both locks are let go
  // unless a transaction keeps them. With no target the source is only locked and unlocked.
  function AfterCopy(v: seq<Store>, c: Client, i: nat, j: nat): seq<Store>
    requires i <= |v| && j <= |v|
  {
    if i == |v| then v
    else
      var released := v[i := Unlock(Lock(v[i], c), c).0];
      if j == |v| || i == j then released
      else released[j := Unlock(Lock(v[j], c).(doc := v[i].doc), c).0]
  }

  // The source of a copy without a target, seen from all stores.
  method LockSound(c: Client, ghost s: seq<DataStore>, ds: DataStore, ghost i: nat)
    requires StoresValid(s) && DistinctStores(s) && i < |s| && ds == s[i] && CanLock(ds.View(), c)
    modifies ds`lockedBy
    ensures StoresValid(s) && Views(s) == AfterCopy(old(Views(s)), c, i, |s|)
  {
    ghost var v := Views(s);
    assert v[i] == ds.View();
    LockApart(c, s, ds, i);
    assert Views(s) == v[i := ds.View()];
  }

  method LockApart(c: Client, ghost s: seq<DataStore>, ds: DataStore, ghost i: nat)
    requires StoresValid(s) && DistinctStores(s) && i < |s| && ds == s[i] && CanLock(ds.View(), c)
    modifies ds`lockedBy
    ensures StoresValid(s) && ds.View() == Unlock(Lock(old(ds.View()), c), c).0
    ensures forall k :: 0 <= k < |s| && k != i ==> s[k].View() == old(s[k].View())
  {
    ghost var m := Mades(s);
    Apart(s, i);
    LockAndUnlock(c, ds);
    StoreStepSound(s, m, i);
  }

  // A copy between two of the stores, seen from all of them.
  method CopySound(c: Client, ghost s: seq<DataStore>, from: DataStore, to: DataStore, ghost i: nat, ghost j: nat)
    requires StoresValid(s) && DistinctStores(s) && i < |s| && j < |s| && from == s[i] && to == s[j]
    requires CanLock(from.View(), c) && CanLock(to.View(), c)
    modifies from, to, to.made
    ensures StoresValid(s) && Views(s) == AfterCopy(old(Views(s)), c, i, j)
  {
    ghost var v := Views(s);
    assert v[i] == from.View() && v[j] == to.View();
    CopyApart(c, s, from, to, i, j);
    AfterCopyIs(v, Views(s), c, i, j);
  }

  method CopyApart(c: Client, ghost s: seq<DataStore>, from: DataStore, to: DataStore, ghost i: nat, ghost j: nat)
    requires StoresValid(s) && DistinctStores(s) && i < |s| && j < |s| && from == s[i] && to == s[j]
    requires CanLock(from.View(), c) && CanLock(to.View(), c)
    modifies from, to, to.made
    ensures StoresValid(s) && Copied(c, from, to)
    ensures forall k :: 0 <= k < |s| && k != i && k != j ==> s[k].View() == old(s[k].View())
  {
    ghost var m := Mades(s);
    Apart(s, j);
    CopyTree(c, from, to);
    forall k | 0 <= k < |s| && k != i && k != j
      ensures s[k].Valid() && s[k].made == m[k] && s[k].View() == old(s[k].View())
    {
      StoreKept(s[k]);
    }
    StoreStepSound(s, m, j);
  }

  lemma AfterCopyIs(v: seq<Store>, w: seq<Store>, c: Client, i: nat, j: nat)
    requires i < |v| == |w| && j < |v|
    requires i != j ==> w[i] == Unlock(Lock(v[i], c), c).0
    requires w[j] == Unlock(Lock(v[j], c).(doc := v[i].doc), c).0
    requires forall k :: 0 <= k < |v| && k != i && k != j ==> w[k] == v[k]
    ensures w == AfterCopy(v, c, i, j)
  {
  }

  // No other client holds the stores a copy needs.
  ghost predicate Copyable(c: Client, v: seq<Store>, i: nat, j: nat)
    requires i <= |v| && j <= |v|
  {
    i < |v| ==> CanLock(v[i], c) && (j < |v| ==> CanLock(v[j], c))
  }

  // What a copy did: the target has the source's tree, both locks are let go
  // unless a transaction keeps them, and both stores own their documents still.
  twostate predicate Copied(c: Client, from: DataStore, to: DataStore)
    reads from, to, from.made, to.made
  {
    && from.Valid() && to.Valid()
    && (from != to ==> from.View() == Unlock(Lock(old(from.View()), c), c).0 && from.made == old(from.made))
    && to.View() == Unlock(Lock(old(to.View()), c).(doc := old(from.View().doc)), c).0
    && old(to.made) <= to.made && forall d :: d in to.made && d !in old(to.made) ==> !old(allocated(d))
  }

  // A store that a step does not touch stays as it is.
  twostate lemma StoreKept(t: DataStore)
    requires old(t.Valid()) && unchanged(t) && forall d :: d in old(t.made) ==> unchanged(d)
    ensures t.Valid() && t.made == old(t.made) && t.View() == old(t.View())
  {
  }

  ghost function Mades(s: seq<DataStore>): (m: seq<set<Document>>)
    reads s
    ensures |m| == |s| && forall j :: 0 <= j < |s| ==> m[j] == s[j].made
  {
    seq(|s|, j requires 0 <= j < |s| reads s => s[j].made)
  }

  // Before a step the stores had the documents m, no document twice. A step on store i, which may make new
  // documents, keeps the documents of all stores apart.
  lemma StoreStepSound(s: seq<DataStore>, m: seq<set<Document>>, i: nat)
    requires i < |s| == |m| && forall j :: 0 <= j < |s| ==> s[j].Valid()
    requires forall j, k :: 0 <= j < k < |m| ==> m[j] !! m[k]
    requires forall j :: 0 <= j < |s| && j != i ==> s[j].made == m[j] && s[i].made !! m[j]
    ensures StoresValid(s)
  {
  }

  // The other stores are sound without store i.
  lemma RemovedSound(s: seq<DataStore>, i: nat)
    requires StoresValid(s) && DistinctStores(s) && i < |s|
    ensures StoresValid(RemoveAt(s, i))
    ensures forall t :: t in RemoveAt(s, i) ==> t != s[i] && t.made !! s[i].made
  {
    Apart(s, i);
    forall k | 0 <= k < |s| - 1 ensures RemoveAt(s, i)[k] == s[if k < i then k else k + 1] {}
  }

  // And so does adding one.
  lemma AppendSound(s: seq<DataStore>, ds: DataStore)
    requires StoresValid(s) && ds.Valid() && forall i :: 0 <= i < |s| ==> s[i].made !! ds.made
    ensures StoresValid(s + [ds])
  {
  }

  lemma Apart(s: seq<DataStore>, i: nat)
    requires StoresValid(s) && DistinctStores(s) && i < |s|
    ensures forall j :: 0 <= j < |s| && j != i ==> s[j] != s[i] && s[j].made !! s[i].made
  {
  }

  // A source that is locked for a copy whose target does not exist.
  method LockAndUnlock(c: Client, ds: DataStore)
    requires ds.Valid() && CanLock(ds.View(), c)
    modifies ds`lockedBy
    ensures ds.Valid() && ds.View() == Unlock(Lock(old(ds.View()), c), c).0
  {
    var locked := ds.LockDS(c);
    var u := ds.UnlockDS(c);
  }

  method CopyTree(c: Client, from: DataStore, to: DataStore)
    requires from.Valid() && to.Valid() && (from != to ==> from.made !! to.made)
    requires CanLock(from.View(), c) && CanLock(to.View(), c)
    modifies from, to, to.made
    ensures Copied(c, from, to)
  {
    if from == to { CopyOntoItself(c, from); } else { CopyAcross(c, from, to); }
  }

  method CopyOntoItself(c: Client, ds: DataStore)
    requires ds.Valid() && CanLock(ds.View(), c)
    modifies ds, ds.made
    ensures Copied(c, ds, ds)
  {
    var locked := ds.LockDS(c);
    locked := ds.LockDS(c);
    Install(ds, ds);
    UnlockTwice(c, ds);
  }

  method CopyAcross(c: Client, from: DataStore, to: DataStore)
    requires from != to && from.Valid() && to.Valid() && from.made !! to.made
    requires CanLock(from.View(), c) && CanLock(to.View(), c)
    modifies from, to, to.made
    ensures Copied(c, from, to)
  {
    LockBoth(c, from, to);
    Install(from, to);
    UnlockBoth(c, from, to);
  }

  method LockBoth(c: Client, from: DataStore, to: DataStore)
    requires from != to && from.Valid() && to.Valid() && CanLock(from.View(), c) && CanLock(to.View(), c)
    modifies from`lockedBy, to`lockedBy
    ensures from.Valid() && from.View() == Lock(old(from.View()), c)
    ensures to.Valid() && to.View() == Lock(old(to.View()), c)
  {
    var locked := from.LockDS(c);
    locked := to.LockDS(c);
  }

  method UnlockBoth(c: Client, from: DataStore, to: DataStore)
    requires from != to && from.Valid() && to.Valid()
    modifies from`lockedBy, to`lockedBy
    ensures from.Valid() && from.View() == Unlock(old(from.View()), c).0
    ensures to.Valid() && to.View() == Unlock(old(to.View()), c).0
  {
    var u := from.UnlockDS(c);
    u := to.UnlockDS(c);
  }

  // The target's tree gives way to a copy of the source's.
  method Install(from: DataStore, to: DataStore)
    requires from.Valid() && to.Valid() && (from != to ==> from.made !! to.made)
    modifies to`doc, to`made, to.doc
    ensures from.Valid() && to.Valid()
    ensures to.View() == old(to.View()).(doc := old(from.View().doc))
    ensures from != to ==> from.View() == old(from.View())
    ensures old(to.made) <= to.made && fresh(to.made - old(to.made))
  {
    var copy := from.Duplicate(from.doc);
    to.Accept(copy);
  }

  // Unlocking a second time changes nothing.
  method UnlockTwice(c: Client, ds: DataStore)
    requires ds.Valid() && ds.lockedBy == Some(c)
    modifies ds`lockedBy
    ensures ds.Valid() && ds.View() == Unlock(old(ds.View()), c).0
  {
    var u := ds.UnlockDS(c);
    u := ds.UnlockDS(c);
  }

  ghost predicate DistinctStores(s: seq<DataStore>) {
    forall i, j :: 0 <= i < j < |s| ==> s[i] != s[j] && s[i].name != s[j].name && s[i].id != s[j].id
  }

  // Each store owns its documents, and no document belongs to two stores.
  ghost predicate StoresValid(s: seq<DataStore>)
    reads s, set ds, d | ds in s && d in ds.made :: d
  {
    && (forall i :: 0 <= i < |s| ==> s[i].Valid())
    && forall i, j :: 0 <= i < j < |s| ==> s[i].made !! s[j].made
  }

  // Where the store of this name stands, or the length when there is none.
  ghost function Index(s: seq<DataStore>, name: string): (i: nat)
    ensures i <= |s|
  {
    if s == [] || s[0].name == name then 0 else 1 + Index(s[1..], name)
  }

  lemma {:induction false} IndexIs(s: seq<DataStore>, name: string, i: nat)
    requires i < |s| && s[i].name == name && DistinctStores(s)
    ensures Index(s, name) == i
  {
    if s[0].name != name { IndexIs(s[1..], name, i - 1); }
  }

  lemma {:induction false} IndexNone(s: seq<DataStore>, name: string)
    requires forall i :: 0 <= i < |s| ==> s[i].name != name
    ensures Index(s, name) == |s|
  {
    if s != [] { IndexNone(s[1..], name); }
  }

  lemma AppendDistinct(s: seq<DataStore>, ds: DataStore)
    requires DistinctStores(s) && ds !in s && ds.name !in NameMap(s)
    requires forall i :: 0 <= i < |s| ==> s[i].id != ds.id
    ensures DistinctStores(s + [ds])
  {
    forall i | 0 <= i < |s| ensures s[i].name != ds.name {
      NameMapAt(s, s[i].name, i);
    }
  }

  lemma RemoveDistinct(s: seq<DataStore>, i: nat)
    requires DistinctStores(s) && i < |s|
    ensures DistinctStores(RemoveAt(s, i))
  {
    forall j | 0 <= j < |s| - 1 ensures RemoveAt(s, i)[j] == s[if j < i then j else j + 1] {}
  }

  ghost function NameMap(s: seq<DataStore>): map<string, DataStore> {
    if s == [] then map[] else NameMap(s[..|s| - 1])[s[|s| - 1].name := s[|s| - 1]]
  }

  lemma {:induction false} NameMapAt(s: seq<DataStore>, name: string, i: nat)
    requires forall a, b :: 0 <= a < b < |s| ==> s[a].name != s[b].name
    requires i <= |s| && (i < |s| ==> s[i].name == name) && forall j :: 0 <= j < i ==> s[j].name != name
    ensures name in NameMap(s) <==> i < |s|
    ensures i < |s| ==> NameMap(s)[name] == s[i]
  {
    if s != [] {
      var k := |s| - 1;
      NameMapAt(s[..k], name, if i < k then i else k);
    }
  }

  lemma {:induction false} IndexFacts(s: seq<DataStore>, name: string)
    ensures Index(s, name) < |s| ==> s[Index(s, name)].name == name
    ensures forall j :: 0 <= j < Index(s, name) ==> s[j].name != name
  {
    if s != [] && s[0].name != name { IndexFacts(s[1..], name); }
  }

  // The registry is a map from names to stores.
  lemma NameMapIndex(s: seq<DataStore>, name: string)
    requires DistinctStores(s)
    ensures name in NameMap(s) <==> Index(s, name) < |s|
    ensures Index(s, name) < |s| ==> NameMap(s)[name] == s[Index(s, name)]
  {
    IndexFacts(s, name);
    NameMapAt(s, name, Index(s, name));
  }

  lemma NameMapAppend(s: seq<DataStore>, ds: DataStore)
    ensures NameMap(s + [ds]) == NameMap(s)[ds.name := ds]
  {
    assert (s + [ds])[..|s|] == s;
  }

  lemma {:induction false} NameMapRemove(s: seq<DataStore>, i: nat)
    requires forall a, b :: 0 <= a < b < |s| ==> s[a].name != s[b].name
    requires i < |s|
    ensures NameMap(RemoveAt(s, i)) == NameMap(s) - {s[i].name}
  {
    var k := |s| - 1;
    if i == k {
      assert RemoveAt(s, i) == s[..k];
      NameMapAt(s[..k], s[k].name, k);
    } else {
      NameMapRemove(s[..k], i);
      var r := RemoveAt(s, i);
      assert r[..k - 1] == RemoveAt(s[..k], i);
      assert r[k - 1] == s[k];
    }
  }
}
