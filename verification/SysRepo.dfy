// The objects of the server together, and the proof that serving a command is a step of the step system.
module ServerParts {
  import opened Base
  import opened Trees
  import opened StoreSpec
  import opened Slots
  import opened OpSpec
  import opened Server

  // A store as the registry's array has it.
  datatype Entry = Entry(id: StoreId, name: string, st: Store)

  // The server, part by part.
  datatype Parts = Parts(entries: seq<Entry>, nextId: nat, max: nat, slots: seq<Slot<StoreId>>, counter: nat,
                         ops: seq<OpEntry>, maxOps: nat)

  ghost predicate DistinctEntries(es: seq<Entry>) {
    forall i, j :: 0 <= i < j < |es| ==> es[i].id != es[j].id && es[i].name != es[j].name
  }

  ghost function EntryMap(es: seq<Entry>): map<StoreId, NamedStore> {
    if es == [] then map[]
    else
      var e := es[|es| - 1];
      EntryMap(es[..|es| - 1])[e.id := NamedStore(e.name, e.st)]
  }

  ghost function StateOf(p: Parts): State {
    State(EntryMap(p.entries), p.nextId, p.max, p.slots, p.counter, p.ops, p.maxOps)
  }

  // Where the entry of this name stands, or the length when there is none.
  ghost function Position(es: seq<Entry>, name: string): (i: nat)
    ensures i <= |es|
    ensures i < |es| ==> es[i].name == name
    ensures forall j :: 0 <= j < i ==> es[j].name != name
  {
    if es == [] || es[0].name == name then 0 else 1 + Position(es[1..], name)
  }

  lemma {:induction false} EntryMapAt(es: seq<Entry>, x: StoreId)
    requires DistinctEntries(es)
    ensures x in EntryMap(es) <==> exists k :: 0 <= k < |es| && es[k].id == x
    ensures forall k :: 0 <= k < |es| && es[k].id == x ==> EntryMap(es)[x] == NamedStore(es[k].name, es[k].st)
  {
    if es != [] {
      var n := |es| - 1;
      EntryMapAt(es[..n], x);
      if k :| 0 <= k < n && es[k].id == x {
        assert es[..n][k].id == x;
      }
      if es[n].id == x { assert 0 <= n < |es|; }
    }
  }

  lemma EntryIn(es: seq<Entry>, k: nat)
    requires DistinctEntries(es) && k < |es|
    ensures es[k].id in EntryMap(es) && EntryMap(es)[es[k].id] == NamedStore(es[k].name, es[k].st)
  {
    EntryMapAt(es, es[k].id);
  }

  // The registry lookup by name is the search of the array.
  lemma FindPosition(p: Parts, name: string)
    requires DistinctEntries(p.entries)
    ensures var i := Position(p.entries, name);
            FindStore(StateOf(p), name) == if i < |p.entries| then Some(p.entries[i].id) else None
  {
    var i, s := Position(p.entries, name), StateOf(p);
    FindStoreIs(s, name);
    if i < |p.entries| {
      EntryIn(p.entries, i);
      assert HasName(s, p.entries[i].id, name);
      var x := FindStore(s, name).value;
      EntryMapAt(p.entries, x);
      var k :| 0 <= k < |p.entries| && p.entries[k].id == x;
      EntryIn(p.entries, k);
    } else {
      forall x ensures !HasName(s, x, name) { EntryMapAt(p.entries, x); }
    }
  }

  lemma {:induction false} EntryMapPut(es: seq<Entry>, k: nat, st: Store)
    requires DistinctEntries(es) && k < |es|
    ensures EntryMap(es[k := es[k].(st := st)]) == EntryMap(es)[es[k].id := NamedStore(es[k].name, st)]
  {
    var fs, n := es[k := es[k].(st := st)], |es| - 1;
    if k < n {
      assert fs[..n] == es[..n][k := es[k].(st := st)];
      EntryMapPut(es[..n], k, st);
    } else {
      assert fs[..n] == es[..n];
    }
  }

  lemma EntryMapAdd(es: seq<Entry>, e: Entry)
    ensures EntryMap(es + [e]) == EntryMap(es)[e.id := NamedStore(e.name, e.st)]
  {
    assert (es + [e])[..|es|] == es;
  }

  lemma {:induction false} EntryMapRemove(es: seq<Entry>, k: nat)
    requires DistinctEntries(es) && k < |es|
    ensures EntryMap(RemoveAt(es, k)) == EntryMap(es) - {es[k].id}
  {
    var n := |es| - 1;
    if k == n {
      assert RemoveAt(es, k) == es[..n];
      EntryMapAt(es[..n], es[n].id);
    } else {
      EntryMapRemove(es[..n], k);
      assert RemoveAt(es, k)[..n - 1] == RemoveAt(es[..n], k);
    }
  }

  lemma {:induction false} EntryMapSize(es: seq<Entry>)
    requires DistinctEntries(es)
    ensures |EntryMap(es)| == |es|
  {
    if es != [] {
      var n := |es| - 1;
      EntryMapSize(es[..n]);
      EntryMapAt(es[..n], es[n].id);
    }
  }

  // ----- What each command does to the parts is what the step system does to the state -----

  function PutAt(p: Parts, k: nat, st: Store): Parts
    requires k < |p.entries|
  {
    p.(entries := p.entries[k := p.entries[k].(st := st)])
  }

  lemma PutIs(p: Parts, k: nat, st: Store)
    requires DistinctEntries(p.entries) && k < |p.entries|
    ensures p.entries[k].id in StateOf(p).stores && StateOf(p).stores[p.entries[k].id].st == p.entries[k].st
    ensures StateOf(PutAt(p, k, st)) == Put(StateOf(p), p.entries[k].id, st)
  {
    EntryIn(p.entries, k);
    EntryMapPut(p.entries, k, st);
  }

  lemma SetIsExec(p: Parts, c: Client, name: Option<string>, k: nat)
    requires DistinctEntries(p.entries) && c < |p.slots| && !p.slots[c].free
    requires p.slots[c].ds.Some? ==> k < |p.entries| && p.slots[c].ds.value == p.entries[k].id
    ensures var i := if name.Some? then Position(p.entries, name.value) else |p.entries|;
            var target := if i < |p.entries| then Some(p.entries[i].id) else None;
            ExecSet(StateOf(p), c, name) ==
            if p.slots[c].ds.Some? && p.entries[k].st.lockedBy == Some(c) then (StateOf(p), Answer(-1))
            else (StateOf(p.(slots := p.slots[c := Slot(false, target)])), Answer(if name.Some? && target.None? then -1 else 0))
  {
    if p.slots[c].ds.Some? { EntryIn(p.entries, k); }
    if name.Some? { FindPosition(p, name.value); }
  }

  // The entries after a copy between positions i and j.
  function CopiedEntries(es: seq<Entry>, c: Client, i: nat, j: nat): (r: seq<Entry>)
    requires i <= |es| && j <= |es|
    ensures |r| == |es|
  {
    if i == |es| then es
    else
      var released := es[i := es[i].(st := Unlock(Lock(es[i].st, c), c).0)];
      if j == |es| || i == j then released
      else released[j := es[j].(st := Unlock(Lock(es[j].st, c).(doc := es[i].st.doc), c).0)]
  }

  lemma CopyIsExec(p: Parts, c: Client, from: string, to: string)
    requires DistinctEntries(p.entries)
    ensures var i, j := Position(p.entries, from), Position(p.entries, to);
            ExecCopy(StateOf(p), c, from, to) ==
            (StateOf(p.(entries := CopiedEntries(p.entries, c, i, j))), Answer(if i < |p.entries| && j < |p.entries| then 1 else 0))
  {
    var es := p.entries;
    var i, j := Position(es, from), Position(es, to);
    FindPosition(p, from);
    FindPosition(p, to);
    if i < |es| {
      var released := Unlock(Lock(es[i].st, c), c).0;
      PutIs(p, i, released);
      if j < |es| && i != j { CopyTwo(p, c, i, j); }
    }
  }

  lemma CopyTwo(p: Parts, c: Client, i: nat, j: nat)
    requires DistinctEntries(p.entries) && i < |p.entries| && j < |p.entries| && i != j
    ensures var s, si, sj := StateOf(p), p.entries[i].st, p.entries[j].st;
            && p.entries[i].id in s.stores && p.entries[j].id in s.stores && p.entries[i].id != p.entries[j].id
            && s.stores[p.entries[j].id].st == sj
            && Put(Put(s, p.entries[i].id, Unlock(Lock(si, c), c).0), p.entries[j].id, Unlock(Lock(sj, c).(doc := si.doc), c).0) ==
               StateOf(p.(entries := CopiedEntries(p.entries, c, i, j)))
  {
    var released := Unlock(Lock(p.entries[i].st, c), c).0;
    var t := Unlock(Lock(p.entries[j].st, c).(doc := p.entries[i].st.doc), c).0;
    PutIs(p, i, released);
    EntryIn(p.entries, j);
    PutIs(PutAt(p, i, released), j, t);
  }

  lemma CreateIsExec(p: Parts, name: string, xml: Option<Xml>)
    requires DistinctEntries(p.entries) && |p.entries| <= p.max
    ensures ExecCreate(StateOf(p), name, xml) ==
            if |p.entries| == p.max || Position(p.entries, name) < |p.entries| || !GoodName(name) || xml.None? then
              (StateOf(p), Answer(0))
            else
              var e := Entry(p.nextId, name, Store(xml.value, None, None, 0, None));
              (StateOf(p.(entries := p.entries + [e], nextId := p.nextId + 1)), Answer(1))
  {
    FindPosition(p, name);
    EntryMapSize(p.entries);
    if xml.Some? { EntryMapAdd(p.entries, Entry(p.nextId, name, Store(xml.value, None, None, 0, None))); }
  }

  lemma DeleteIsExec(p: Parts, name: string)
    requires DistinctEntries(p.entries)
    ensures var i := Position(p.entries, name);
            ExecDelete(StateOf(p), name) ==
            if i == |p.entries| then (StateOf(p), Answer(0))
            else if Scan(p.slots, p.entries[i].id) then (StateOf(p), Answer(-1))
            else (StateOf(p.(entries := RemoveAt(p.entries, i))), Answer(1))
  {
    FindPosition(p, name);
    var i := Position(p.entries, name);
    if i < |p.entries| { EntryMapRemove(p.entries, i); }
  }

  lemma DisconnectIsExec(p: Parts, c: Client, k: nat)
    requires DistinctEntries(p.entries) && c < |p.slots| && !p.slots[c].free
    requires p.slots[c].ds.Some? ==> k < |p.entries| && p.slots[c].ds.value == p.entries[k].id
    ensures var q := if p.slots[c].ds.Some? then PutAt(p, k, Unlock(Abort(p.entries[k].st, c).0, c).0) else p;
            ExecDisconnect(StateOf(p), c) ==
            StateOf(q.(ops := ReleaseAll(p.ops, c), slots := p.slots[c := Slot(true, None)]))
  {
    if p.slots[c].ds.Some? { PutIs(p, k, Unlock(Abort(p.entries[k].st, c).0, c).0); }
  }

  lemma StoreCommandIsExec(ok: Constraints, p: Parts, c: Client, cmd: Command, k: nat)
    requires DistinctEntries(p.entries) && IsStoreCommand(cmd) && Enabled(StateOf(p), By(c, cmd))
    requires p.slots[c].ds.Some? ==> k < |p.entries| && p.slots[c].ds.value == p.entries[k].id
    ensures Exec(ok, StateOf(p), By(c, cmd)) ==
            if p.slots[c].ds.None? then (StateOf(p), NoStore)
            else
              var st := p.entries[k].st;
              var (t, reply) := OnStore(ok, p.entries[k].id, st, c, p.counter, cmd);
              (StateOf(PutAt(p, k, t).(counter := p.counter + if cmd.CommitTxn? && MayCommit(st, c) then 1 else 0)), reply)
  {
    if p.slots[c].ds.Some? {
      var st := p.entries[k].st;
      PutIs(p, k, OnStore(ok, p.entries[k].id, st, c, p.counter, cmd).0);
    }
  }
}

// The objects' methods, as their contracts state them, are steps of the step system.
module SysRepo {
  import opened Base
  import opened Trees
  import opened Dom
  import opened StoreSpec
  import opened Slots
  import opened OpSpec
  import opened DataStores
  import opened OpDataStores
  import opened ClientSets
  import opened DataStoreSets
  import opened Server
  import opened ServerParts
  import ClientSRDs

  // What the three sets of the server hold.
  datatype Objects = Objects(live: seq<DataStore>, views: seq<Store>, nextId: nat, max: nat, slots: seq<Slot<DataStore>>,
                             counter: nat, ops: seq<OpEntry>, maxOps: nat)

  // Identities tell stores apart, also from a deleted one that a client still has.
  ghost predicate Linked(o: Objects) {
    && |o.views| == |o.live| <= o.max && DistinctStores(o.live)
    && (forall k :: 0 <= k < |o.live| ==> o.live[k].id < o.nextId)
    && forall c :: 0 <= c < |o.slots| && o.slots[c].ds.Some? ==> Known(o, o.slots[c].ds.value)
  }

  ghost predicate Known(o: Objects, ds: DataStore) {
    ds.id < o.nextId && forall k :: 0 <= k < |o.live| && o.live[k].id == ds.id ==> o.live[k] == ds
  }

  ghost function Snapshot(stores: DataStoreSet, clients: ClientSet, ops: OpDataStoreSet): Objects
    reads stores, stores.live, set ds, d | ds in stores.live && d in ds.Parts() :: d
    reads clients, clients.clients, ops, ops.live
  {
    Objects(stores.live, Views(stores.live), stores.nextId, stores.list.Length, clients.clients[..],
            stores.globalTransactionCounter, ops.View(), ops.list.Length)
  }

  ghost function EntriesOf(s: seq<DataStore>, v: seq<Store>): (es: seq<Entry>)
    requires |v| == |s|
    ensures |es| == |s|
    ensures forall k :: 0 <= k < |s| ==> es[k] == Entry(s[k].id, s[k].name, v[k])
  {
    seq(|s|, k requires 0 <= k < |s| => Entry(s[k].id, s[k].name, v[k]))
  }

  ghost function IdOf(ds: Option<DataStore>): Option<StoreId> {
    if ds.Some? then Some(ds.value.id) else None
  }

  ghost function SlotIds(slots: seq<Slot<DataStore>>): (r: seq<Slot<StoreId>>)
    ensures |r| == |slots|
    ensures forall c :: 0 <= c < |slots| ==> r[c] == Slot(slots[c].free, IdOf(slots[c].ds))
  {
    seq(|slots|, c requires 0 <= c < |slots| => Slot(slots[c].free, IdOf(slots[c].ds)))
  }

  ghost function PartsOf(o: Objects): Parts
    requires Linked(o)
  {
    Parts(EntriesOf(o.live, o.views), o.nextId, o.max, SlotIds(o.slots), o.counter, o.ops, o.maxOps)
  }

  // The state of the step system the objects stand for.
  ghost function Abstract(o: Objects): State
    requires Linked(o)
  {
    StateOf(PartsOf(o))
  }

  lemma {:induction false} OccupiedIds(slots: seq<Slot<DataStore>>)
    ensures Occupied(SlotIds(slots)) == Occupied(slots)
  {
    if slots != [] {
      assert SlotIds(slots)[1..] == SlotIds(slots[1..]);
      OccupiedIds(slots[1..]);
    }
  }

  // The scan of the table for a store is the scan for its identity.
  lemma ScanIds(o: Objects, i: nat)
    requires Linked(o) && i < |o.live|
    ensures Scan(SlotIds(o.slots), o.live[i].id) <==> Scan(o.slots, o.live[i])
  {
    OccupiedIds(o.slots);
    if Scan(o.slots, o.live[i]) {
      var c :| 0 <= c < Occupied(o.slots) && Uses(o.slots[c], o.live[i]);
      assert Uses(SlotIds(o.slots)[c], o.live[i].id);
    }
    if Scan(SlotIds(o.slots), o.live[i].id) {
      var c :| 0 <= c < Occupied(o.slots) && Uses(SlotIds(o.slots)[c], o.live[i].id);
      assert Uses(o.slots[c], o.live[i]);
    }
  }

  lemma {:induction false} PositionIsIndex(s: seq<DataStore>, v: seq<Store>, name: string)
    requires |v| == |s|
    ensures Position(EntriesOf(s, v), name) == Index(s, name)
  {
    if s != [] {
      assert EntriesOf(s, v)[1..] == EntriesOf(s[1..], v[1..]);
      PositionIsIndex(s[1..], v[1..], name);
    }
  }

  // ----- set_dataStore, as ClientSRDs.SetDataStore has it -----

  ghost function Target(o: Objects, name: Option<string>): Option<DataStore> {
    if name.Some? && Index(o.live, name.value) < |o.live| then Some(o.live[Index(o.live, name.value)]) else None
  }

  // The target of the method is the store at the first index of the name.
  lemma TargetIsWanted(stores: DataStoreSet, clients: ClientSet, ops: OpDataStoreSet, name: Option<string>)
    requires stores.Valid()
    ensures ClientSRDs.Wanted(stores, name) == Target(Snapshot(stores, clients, ops), name)
  {
    if name.Some? { NameMapIndex(stores.live, name.value); }
  }

  // The table after set_dataStore, and the answer; k: where the store the client has is.
  ghost function AfterSet(o: Objects, c: Client, name: Option<string>, k: nat): (seq<Slot<DataStore>>, int)
    requires c < |o.slots| && (o.slots[c].ds.Some? ==> k < |o.views|)
  {
    if o.slots[c].ds.Some? && o.views[k].lockedBy == Some(c) then (o.slots, -1)
    else (o.slots[c := Slot(false, Target(o, name))], if name.Some? && Target(o, name).None? then -1 else 0)
  }

  lemma SetIsStep(o: Objects, c: Client, name: Option<string>, k: nat)
    requires Linked(o) && c < |o.slots| && !o.slots[c].free
    requires o.slots[c].ds.Some? ==> k < |o.live| && o.slots[c].ds.value == o.live[k]
    ensures var (slots, n) := AfterSet(o, c, name, k);
            Linked(o.(slots := slots)) && ExecSet(Abstract(o), c, name) == (Abstract(o.(slots := slots)), Answer(n))
  {
    var p := PartsOf(o);
    SetIsExec(p, c, name, k);
    if name.Some? { PositionIsIndex(o.live, o.views, name.value); }
    LinkedSlots(o, c, Slot(false, Target(o, name)));
    assert SlotIds(o.slots[c := Slot(false, Target(o, name))]) == p.slots[c := Slot(false, IdOf(Target(o, name)))];
  }

  // ----- The registry's methods -----

  lemma LinkedSlots(o: Objects, c: Client, slot: Slot<DataStore>)
    requires Linked(o) && c < |o.slots| && (slot.ds.Some? ==> slot.ds.value in o.live)
    ensures Linked(o.(slots := o.slots[c := slot]))
  {
    var t := o.(slots := o.slots[c := slot]);
    forall d | 0 <= d < |t.slots| && t.slots[d].ds.Some? ensures Known(t, t.slots[d].ds.value) {
      if d != c { assert Known(o, o.slots[d].ds.value); }
    }
  }

  lemma LinkedViews(o: Objects, v: seq<Store>)
    requires Linked(o) && |v| == |o.views|
    ensures Linked(o.(views := v))
  {
    forall c | 0 <= c < |o.slots| && o.slots[c].ds.Some? ensures Known(o.(views := v), o.slots[c].ds.value) {
      assert Known(o, o.slots[c].ds.value);
    }
  }

  lemma EntriesCopied(o: Objects, c: Client, i: nat, j: nat)
    requires |o.views| == |o.live| && i <= |o.live| && j <= |o.live|
    ensures EntriesOf(o.live, AfterCopy(o.views, c, i, j)) == CopiedEntries(EntriesOf(o.live, o.views), c, i, j)
  {
  }

  lemma CopyIsStep(o: Objects, c: Client, from: string, to: string)
    requires Linked(o)
    ensures var i, j := Index(o.live, from), Index(o.live, to);
            var v := AfterCopy(o.views, c, i, j);
            Linked(o.(views := v)) &&
            ExecCopy(Abstract(o), c, from, to) ==
            (Abstract(o.(views := v)), Answer(if i < |o.live| && j < |o.live| then 1 else 0))
  {
    var i, j := Index(o.live, from), Index(o.live, to);
    var p, v := PartsOf(o), AfterCopy(o.views, c, i, j);
    CopyIsExec(p, c, from, to);
    PositionIsIndex(o.live, o.views, from);
    PositionIsIndex(o.live, o.views, to);
    LinkedViews(o, v);
    EntriesCopied(o, c, i, j);
  }

  function WithStore(o: Objects, ds: DataStore, xml: Xml): Objects {
    o.(live := o.live + [ds], views := o.views + [Store(xml, None, None, 0, None)], nextId := o.nextId + 1)
  }

  ghost predicate MayCreate(o: Objects, name: string, xml: Option<Xml>) {
    |o.live| < o.max && Index(o.live, name) == |o.live| && GoodName(name) && xml.Some?
  }

  lemma LinkedWithStore(o: Objects, name: string, xml: Xml, ds: DataStore)
    requires Linked(o) && ds.id == o.nextId && ds.name == name && ds !in o.live && MayCreate(o, name, Some(xml))
    ensures Linked(WithStore(o, ds, xml))
  {
    var t := WithStore(o, ds, xml);
    IndexFacts(o.live, name);
    forall c | 0 <= c < |t.slots| && t.slots[c].ds.Some? ensures Known(t, t.slots[c].ds.value) {
      assert Known(o, o.slots[c].ds.value);
    }
  }

  // ds: the store that is made.
  lemma CreateIsStep(o: Objects, name: string, xml: Option<Xml>, ds: DataStore)
    requires Linked(o) && ds.id == o.nextId && ds.name == name && ds !in o.live && MayCreate(o, name, xml)
    ensures var after := WithStore(o, ds, xml.value);
            Linked(after) && ExecCreate(Abstract(o), name, xml) == (Abstract(after), Answer(1))
  {
    var p := PartsOf(o);
    CreateIsExec(p, name, xml);
    PositionIsIndex(o.live, o.views, name);
    LinkedWithStore(o, name, xml.value, ds);
    var v := o.views + [Store(xml.value, None, None, 0, None)];
    assert EntriesOf(o.live + [ds], v) == p.entries + [Entry(p.nextId, name, v[|o.views|])];
  }

  lemma CreateRefused(o: Objects, name: string, xml: Option<Xml>)
    requires Linked(o) && !MayCreate(o, name, xml)
    ensures ExecCreate(Abstract(o), name, xml) == (Abstract(o), Answer(0))
  {
    CreateIsExec(PartsOf(o), name, xml);
    PositionIsIndex(o.live, o.views, name);
    IndexFacts(o.live, name);
  }

  lemma LinkedWithout(o: Objects, i: nat)
    requires Linked(o) && i < |o.live|
    ensures Linked(o.(live := RemoveAt(o.live, i), views := RemoveAt(o.views, i)))
  {
    var t := o.(live := RemoveAt(o.live, i), views := RemoveAt(o.views, i));
    RemoveDistinct(o.live, i);
    assert forall k :: 0 <= k < |t.live| ==> t.live[k] == o.live[if k < i then k else k + 1];
    forall c | 0 <= c < |t.slots| && t.slots[c].ds.Some? ensures Known(t, t.slots[c].ds.value) {
      assert Known(o, o.slots[c].ds.value);
    }
  }

  lemma DeleteIsStep(o: Objects, name: string)
    requires Linked(o)
    ensures var i := Index(o.live, name);
            if i == |o.live| then ExecDelete(Abstract(o), name) == (Abstract(o), Answer(0))
            else if Scan(o.slots, o.live[i]) then ExecDelete(Abstract(o), name) == (Abstract(o), Answer(-1))
            else
              var after := o.(live := RemoveAt(o.live, i), views := RemoveAt(o.views, i));
              Linked(after) && ExecDelete(Abstract(o), name) == (Abstract(after), Answer(1))
  {
    var i, p := Index(o.live, name), PartsOf(o);
    DeleteIsExec(p, name);
    PositionIsIndex(o.live, o.views, name);
    if i < |o.live| {
      ScanIds(o, i);
      LinkedWithout(o, i);
      RemoveEntries(o.live, o.views, i);
    }
  }

  lemma RemoveEntries(s: seq<DataStore>, v: seq<Store>, i: nat)
    requires |v| == |s| && i < |s|
    ensures EntriesOf(RemoveAt(s, i), RemoveAt(v, i)) == RemoveAt(EntriesOf(s, v), i)
  {
    var es := EntriesOf(s, v);
    forall k | 0 <= k < |s| - 1 ensures EntriesOf(RemoveAt(s, i), RemoveAt(v, i))[k] == RemoveAt(es, i)[k] {
      var j := if k < i then k else k + 1;
      assert RemoveAt(s, i)[k] == s[j] && RemoveAt(v, i)[k] == v[j] && RemoveAt(es, i)[k] == es[j];
    }
  }

  // ----- A command on the current store, the client table and the operational stores -----

  lemma PutEntries(o: Objects, k: nat, st: Store)
    requires Linked(o) && k < |o.live|
    ensures PartsOf(o.(views := o.views[k := st])) == PutAt(PartsOf(o), k, st)
  {
    assert EntriesOf(o.live, o.views[k := st]) == PutAt(PartsOf(o), k, st).entries;
  }

  lemma StoreCommandIsStep(ok: Constraints, o: Objects, c: Client, cmd: Command, k: nat)
    requires Linked(o) && IsStoreCommand(cmd) && Enabled(Abstract(o), By(c, cmd))
    requires o.slots[c].ds.Some? ==> k < |o.live| && o.slots[c].ds.value == o.live[k]
    ensures Exec(ok, Abstract(o), By(c, cmd)) ==
            if o.slots[c].ds.None? then (Abstract(o), NoStore)
            else
              var (t, reply) := OnStore(ok, o.live[k].id, o.views[k], c, o.counter, cmd);
              var counter := o.counter + if cmd.CommitTxn? && MayCommit(o.views[k], c) then 1 else 0;
              (Abstract(o.(views := o.views[k := t], counter := counter)), reply)
  {
    StoreCommandIsExec(ok, PartsOf(o), c, cmd, k);
    if o.slots[c].ds.Some? { PutEntries(o, k, OnStore(ok, o.live[k].id, o.views[k], c, o.counter, cmd).0); }
  }

  // What the end of client c's thread leaves; k: where its store is.
  ghost function Ended(o: Objects, c: Client, k: nat): Objects
    requires |o.views| == |o.live| && c < |o.slots|
    requires o.slots[c].ds.Some? ==> k < |o.live|
  {
    var v := if o.slots[c].ds.Some? then o.views[k := Unlock(Abort(o.views[k], c).0, c).0] else o.views;
    o.(views := v, ops := ReleaseAll(o.ops, c), slots := o.slots[c := Slot(true, None)])
  }

  lemma DisconnectIsStep(o: Objects, c: Client, k: nat)
    requires Linked(o) && c < |o.slots| && !o.slots[c].free
    requires o.slots[c].ds.Some? ==> k < |o.live| && o.slots[c].ds.value == o.live[k]
    ensures Linked(Ended(o, c, k)) && ExecDisconnect(Abstract(o), c) == Abstract(Ended(o, c, k))
  {
    var p := PartsOf(o);
    DisconnectIsExec(p, c, k);
    if o.slots[c].ds.Some? { PutEntries(o, k, Unlock(Abort(o.views[k], c).0, c).0); }
    assert SlotIds(o.slots[c := Slot(true, None)]) == p.slots[c := Slot(true, None)];
  }

  lemma {:induction false} FreeSlotIs(slots: seq<Slot<StoreId>>, i: nat)
    requires i < |slots| && slots[i].free && forall j :: 0 <= j < i ==> !slots[j].free
    ensures FreeSlot(slots) == i
  {
    if i > 0 { FreeSlotIs(slots[1..], i - 1); }
  }

  // i: the slot NewClient finds.
  lemma ConnectIsStep(o: Objects, i: nat)
    requires Linked(o) && i < |o.slots| && o.slots[i].free && forall j :: 0 <= j < i ==> !o.slots[j].free
    ensures var after := o.(slots := o.slots[i := Slot(false, None)]);
            Linked(after) && ExecConnect(Abstract(o)) == (Abstract(after), Answer(i))
  {
    LinkedSlots(o, i, Slot(false, None));
    FreeSlotIs(SlotIds(o.slots), i);
    assert SlotIds(o.slots[i := Slot(false, None)]) == SlotIds(o.slots)[i := Slot(false, None)];
  }

  // ----- The server serving its clients: o is what the three sets hold before -----

  // The three sets at start-up.
  method Start(maxStores: nat, maxClients: nat, maxOps: nat)
    returns (stores: DataStoreSet, clients: ClientSet, ops: OpDataStoreSet)
    ensures stores.Sound() && clients.Valid() && !clients.mutexHeld && ops.Valid()
    ensures Linked(Snapshot(stores, clients, ops)) && Init(Abstract(Snapshot(stores, clients, ops)))
  {
    stores := new DataStoreSet(maxStores);
    clients := new ClientSet(maxClients);
    ops := new OpDataStoreSet(maxOps);
    assert stores.live == [] && |clients.clients[..]| == maxClients;
  }

  // A store command of a client that has a store.
  method ServeStoreCommand(i: nat, c: Client, cmd: Command, stores: DataStoreSet, ghost clients: ClientSet,
                           ghost ops: OpDataStoreSet, ghost o: Objects, ghost ok: Constraints)
    returns (reply: Reply)
    requires stores.Sound() && o == Snapshot(stores, clients, ops) && Linked(o) && IsStoreCommand(cmd)
    requires c < |o.slots| && i < |o.live| && o.slots[c] == Slot(false, Some(o.live[i]))
    requires ClientSRDs.Ready(stores.live[i], c, cmd) && ok(stores.live[i].id) == stores.live[i].constraints
    modifies stores.live[i], stores.live[i].made, stores`globalTransactionCounter
    ensures stores.Sound() && Linked(Snapshot(stores, clients, ops)) && Enabled(Abstract(o), By(c, cmd))
    ensures (Abstract(Snapshot(stores, clients, ops)), reply) == Exec(ok, Abstract(o), By(c, cmd))
  {
    ReadyIsEnabled(o, stores.live[i], i, c, cmd);
    StoreCommandIsStep(ok, o, c, cmd, i);
    reply := CommandOnStore(i, c, cmd, stores, clients, ops, o, ok);
  }

  lemma ReadyIsEnabled(o: Objects, ds: DataStore, i: nat, c: Client, cmd: Command)
    requires Linked(o) && IsStoreCommand(cmd) && c < |o.slots| && i < |o.live| && o.slots[c] == Slot(false, Some(o.live[i]))
    requires ClientSRDs.Ready(ds, c, cmd) && o.views[i] == ds.View()
    ensures Enabled(Abstract(o), By(c, cmd))
  {
    EntryIn(PartsOf(o).entries, i);
  }

  method CommandOnStore(i: nat, c: Client, cmd: Command, stores: DataStoreSet, ghost clients: ClientSet,
                        ghost ops: OpDataStoreSet, ghost o: Objects, ghost ok: Constraints)
    returns (reply: Reply)
    requires stores.Sound() && o == Snapshot(stores, clients, ops) && IsStoreCommand(cmd)
    requires i < |stores.live| && ClientSRDs.Ready(stores.live[i], c, cmd)
    requires ok(stores.live[i].id) == stores.live[i].constraints
    modifies stores.live[i], stores.live[i].made, stores`globalTransactionCounter
    ensures stores.Sound()
    ensures var (st, r) := OnStore(ok, o.live[i].id, o.views[i], c, o.counter, cmd);
            reply == r &&
            Snapshot(stores, clients, ops) ==
            o.(views := o.views[i := st], counter := o.counter + if cmd.CommitTxn? && MayCommit(o.views[i], c) then 1 else 0)
  {
    reply := ClientSRDs.RegistryCommand(i, c, cmd, stores, ok);
  }

  // set_dataStore.
  method ServeSet(c: Client, name: Option<string>, stores: DataStoreSet, clients: ClientSet, ghost ops: OpDataStoreSet,
                  ghost o: Objects, ghost k: nat)
    returns (reply: Reply)
    requires stores.Sound() && clients.Valid() && o == Snapshot(stores, clients, ops) && Linked(o)
    requires c < |o.slots| && !o.slots[c].free
    requires o.slots[c].ds.Some? ==> k < |o.live| && o.slots[c].ds.value == o.live[k]
    modifies clients.clients
    ensures stores.Sound() && clients.Valid() && Linked(Snapshot(stores, clients, ops))
    ensures (Abstract(Snapshot(stores, clients, ops)), reply) == ExecSet(Abstract(o), c, name)
  {
    SetIsStep(o, c, name, k);
    reply := SetOnTable(c, name, stores, clients, ops, o, k);
    SnapshotIs(stores, clients, ops, o.(slots := AfterSet(o, c, name, k).0));
  }

  method SetOnTable(c: Client, name: Option<string>, stores: DataStoreSet, clients: ClientSet, ghost ops: OpDataStoreSet,
                    ghost o: Objects, ghost k: nat)
    returns (reply: Reply)
    requires stores.Sound() && clients.Valid() && o == Snapshot(stores, clients, ops)
    requires c < |o.slots| && !o.slots[c].free
    requires o.slots[c].ds.Some? ==> k < |o.live| && o.slots[c].ds.value == o.live[k]
    modifies clients.clients
    ensures stores.Sound() && clients.Valid() && unchanged(stores) && Views(stores.live) == o.views && ops.View() == o.ops
    ensures clients.clients[..] == AfterSet(o, c, name, k).0 && reply == Answer(AfterSet(o, c, name, k).1)
  {
    TargetIsWanted(stores, clients, ops, name);
    label before:
    var n := ClientSRDs.SetDataStore(clients, c, stores, name);
    StoresKept@before(o.live);
    reply := Answer(n);
  }

  // copy_dataStore.
  method ServeCopy(c: Client, from: string, to: string, stores: DataStoreSet, ghost clients: ClientSet,
                   ghost ops: OpDataStoreSet, ghost o: Objects)
    returns (reply: Reply)
    requires stores.Sound() && o == Snapshot(stores, clients, ops) && Linked(o)
    requires Copyable(c, o.views, Index(o.live, from), Index(o.live, to))
    modifies stores.Doomed(from), stores.Doomed(to)
    ensures stores.Sound() && Linked(Snapshot(stores, clients, ops))
    ensures (Abstract(Snapshot(stores, clients, ops)), reply) == ExecCopy(Abstract(o), c, from, to)
  {
    CopyIsStep(o, c, from, to);
    reply := CopyOnRegistry(c, from, to, stores, clients, ops, o.views, o.slots, o.ops);
    SnapshotIs(stores, clients, ops, o.(views := AfterCopy(o.views, c, Index(o.live, from), Index(o.live, to))));
  }

  method CopyOnRegistry(c: Client, from: string, to: string, stores: DataStoreSet, ghost clients: ClientSet,
                        ghost ops: OpDataStoreSet, ghost v: seq<Store>, ghost slots: seq<Slot<DataStore>>,
                        ghost entries: seq<OpEntry>)
    returns (reply: Reply)
    requires stores.Sound() && v == Views(stores.live) && slots == clients.clients[..] && entries == ops.View()
    requires Copyable(c, v, Index(stores.live, from), Index(stores.live, to))
    modifies stores.Doomed(from), stores.Doomed(to)
    ensures stores.Sound() && unchanged(stores) && clients.clients[..] == slots && ops.View() == entries
    ensures var i, j := Index(stores.live, from), Index(stores.live, to);
            Views(stores.live) == AfterCopy(v, c, i, j) && reply == Answer(if i < |v| && j < |v| then 1 else 0)
  {
    assert clients.clients !in stores.Doomed(from) && clients.clients !in stores.Doomed(to);
    assert ops !in stores.Doomed(from) && ops !in stores.Doomed(to);
    assert forall d: OpDataStore :: d !in stores.Doomed(from) && d !in stores.Doomed(to);
    var n := stores.CopyDataStore(c, from, to);
    reply := Answer(n);
  }

  // create_dataStore.
  method ServeCreate(name: string, xml: Option<Xml>, unread: Xml -> bool, stores: DataStoreSet, ghost clients: ClientSet,
                     ghost ops: OpDataStoreSet, ghost o: Objects)
    returns (reply: Reply)
    requires stores.Sound() && (xml.Some? ==> WellFormed(xml.value)) && o == Snapshot(stores, clients, ops) && Linked(o)
    modifies stores`count, stores`live, stores`nextId, stores.list
    ensures stores.Sound() && Linked(Snapshot(stores, clients, ops))
    ensures (Abstract(Snapshot(stores, clients, ops)), reply) == ExecCreate(Abstract(o), name, xml)
  {
    var ds := CreateOnRegistry(name, xml, unread, stores, clients, ops, o);
    if ds != null {
      CreateIsStep(o, name, xml, ds);
      SnapshotIs(stores, clients, ops, WithStore(o, ds, xml.value));
      reply := Answer(1);
    } else {
      CreateRefused(o, name, xml);
      SnapshotIs(stores, clients, ops, o);
      reply := Answer(0);
    }
  }

  method CreateOnRegistry(name: string, xml: Option<Xml>, unread: Xml -> bool, stores: DataStoreSet,
                          ghost clients: ClientSet, ghost ops: OpDataStoreSet, ghost o: Objects)
    returns (ds: DataStore?)
    requires stores.Sound() && (xml.Some? ==> WellFormed(xml.value)) && o == Snapshot(stores, clients, ops)
    modifies stores`count, stores`live, stores`nextId, stores.list
    ensures stores.Sound() && stores.globalTransactionCounter == o.counter
    ensures clients.clients[..] == o.slots && ops.View() == o.ops
    ensures ds != null <==> MayCreate(o, name, xml)
    ensures ds == null ==> stores.live == o.live && Views(stores.live) == o.views && stores.nextId == o.nextId
    ensures ds != null ==>
              && ds.id == o.nextId && ds.name == name && ds !in o.live && stores.nextId == o.nextId + 1
              && stores.live == o.live + [ds] && Views(stores.live) == o.views + [Store(xml.value, None, None, 0, None)]
  {
    NameMapIndex(stores.live, name);
    ds := stores.AddDataStoreFromString(name, xml, unread);
  }

  // delete_dataStore.
  method ServeDelete(c: Client, name: string, stores: DataStoreSet, clients: ClientSet, ghost ops: OpDataStoreSet,
                     ghost o: Objects)
    returns (reply: Reply)
    requires stores.Sound() && clients.Valid() && !clients.mutexHeld && 0 < clients.numClients
    requires o == Snapshot(stores, clients, ops) && Linked(o)
    requires var i := Index(o.live, name);
             i < |o.live| && !Scan(o.slots, o.live[i]) ==> CanLock(o.views[i], c) && o.views[i].pre.None?
    modifies stores`count, stores`live, stores.list, clients`mutexHeld, stores.Doomed(name)
    ensures stores.Sound() && !clients.mutexHeld && Linked(Snapshot(stores, clients, ops))
    ensures (Abstract(Snapshot(stores, clients, ops)), reply) == ExecDelete(Abstract(o), name)
  {
    DeleteIsStep(o, name);
    reply := DeleteOnStores(c, name, stores, clients, ops, o);
  }

  method DeleteOnStores(c: Client, name: string, stores: DataStoreSet, clients: ClientSet, ghost ops: OpDataStoreSet,
                        ghost o: Objects)
    returns (reply: Reply)
    requires stores.Sound() && clients.Valid() && !clients.mutexHeld && 0 < clients.numClients
    requires o == Snapshot(stores, clients, ops)
    requires var i := Index(o.live, name);
             i < |o.live| && !Scan(o.slots, o.live[i]) ==> CanLock(o.views[i], c) && o.views[i].pre.None?
    modifies stores`count, stores`live, stores.list, clients`mutexHeld, stores.Doomed(name)
    ensures stores.Sound() && !clients.mutexHeld
    ensures var (live, views, n) := AfterDelete(o.live, o.views, o.slots, name);
            Snapshot(stores, clients, ops) == o.(live := live, views := views) && reply == Answer(n)
  {
    ghost var after := AfterDelete(o.live, o.views, o.slots, name);
    var n := DeleteOnRegistry(c, name, stores, clients, ops, o.live, o.views, o.slots, o.ops);
    reply := Answer(n);
    SnapshotIs(stores, clients, ops, o.(live := after.0, views := after.1));
  }

  lemma SnapshotIs(stores: DataStoreSet, clients: ClientSet, ops: OpDataStoreSet, o: Objects)
    requires stores.live == o.live && Views(stores.live) == o.views && stores.nextId == o.nextId
    requires stores.list.Length == o.max && clients.clients[..] == o.slots && ops.list.Length == o.maxOps
    requires stores.globalTransactionCounter == o.counter && ops.View() == o.ops
    ensures Snapshot(stores, clients, ops) == o
  {
  }

  method DeleteOnRegistry(c: Client, name: string, stores: DataStoreSet, clients: ClientSet, ghost ops: OpDataStoreSet,
                          ghost s: seq<DataStore>, ghost v: seq<Store>, ghost slots: seq<Slot<DataStore>>,
                          ghost entries: seq<OpEntry>)
    returns (n: int)
    requires stores.Sound() && clients.Valid() && !clients.mutexHeld && 0 < clients.numClients
    requires s == stores.live && v == Views(s) && slots == clients.clients[..] && entries == ops.View()
    requires var i := Index(s, name); i < |s| && !Scan(slots, s[i]) ==> CanLock(v[i], c) && v[i].pre.None?
    modifies stores`count, stores`live, stores.list, clients`mutexHeld, stores.Doomed(name)
    ensures stores.Sound() && !clients.mutexHeld
    ensures clients.clients[..] == slots && ops.View() == entries
    ensures stores.nextId == old(stores.nextId) && stores.globalTransactionCounter == old(stores.globalTransactionCounter)
    ensures (stores.live, Views(stores.live), n) == AfterDelete(s, v, slots, name)
  {
    assert ops !in stores.Doomed(name) && clients.clients !in stores.Doomed(name);
    assert forall d :: d in ops.live ==> d !in stores.Doomed(name);
    n := stores.DeleteDataStore(c, clients, name);
  }

  // A new client.
  method ServeConnect(ghost stores: DataStoreSet, clients: ClientSet, ghost ops: OpDataStoreSet, ghost o: Objects)
    returns (reply: Reply)
    requires stores.Sound() && clients.Valid() && !clients.mutexHeld && clients.numClients < clients.clients.Length
    requires o == Snapshot(stores, clients, ops) && Linked(o)
    modifies clients, clients.clients
    ensures stores.Sound() && clients.Valid() && !clients.mutexHeld && Linked(Snapshot(stores, clients, ops))
    ensures (Abstract(Snapshot(stores, clients, ops)), reply) == ExecConnect(Abstract(o))
  {
    var i := ConnectOnTable(stores, clients, ops, o);
    ConnectIsStep(o, i);
    SnapshotIs(stores, clients, ops, o.(slots := o.slots[i := Slot(false, None)]));
    reply := Answer(i);
  }

  method ConnectOnTable(ghost stores: DataStoreSet, clients: ClientSet, ghost ops: OpDataStoreSet, ghost o: Objects)
    returns (i: int)
    requires stores.Sound() && clients.Valid() && !clients.mutexHeld && clients.numClients < clients.clients.Length
    requires o == Snapshot(stores, clients, ops)
    modifies clients, clients.clients
    ensures stores.Sound() && clients.Valid() && !clients.mutexHeld && unchanged(stores)
    ensures Views(stores.live) == o.views && ops.View() == o.ops
    ensures 0 <= i < |o.slots| && o.slots[i].free && forall j :: 0 <= j < i ==> !o.slots[j].free
    ensures clients.clients[..] == o.slots[i := Slot(false, None)]
  {
    label before:
    i := clients.NewClient();
    StoresKept@before(o.live);
  }

  // A command on an operational store.
  method ServeOp(c: Client, op: OpCommand, ghost stores: DataStoreSet, ghost clients: ClientSet, ops: OpDataStoreSet,
                 ghost o: Objects)
    returns (reply: Reply)
    requires stores.Sound() && ops.Valid() && o == Snapshot(stores, clients, ops) && Linked(o)
    modifies ops, ops.list, ops.live
    ensures stores.Sound() && ops.Valid() && Linked(Snapshot(stores, clients, ops))
    ensures (Abstract(Snapshot(stores, clients, ops)), reply) == ExecOp(Abstract(o), c, op)
  {
    label before:
    var n := RunOp(c, op, ops);
    StoresKept@before(o.live);
    reply := Answer(n);
    SnapshotIs(stores, clients, ops, o.(ops := OpStep(o.ops, o.maxOps, c, op)));
  }

  method RunOp(c: Client, op: OpCommand, ops: OpDataStoreSet) returns (n: int)
    requires ops.Valid()
    modifies ops, ops.list, ops.live
    ensures ops.Valid() && ops.View() == OpStep(old(ops.View()), ops.list.Length, c, op)
    ensures n == OpAnswer(old(ops.View()), ops.list.Length, c, op)
  {
    match op
    case CreateOp(name) => n := ops.AddOpDataStore(name);
    case DropOp(name) => n := ops.DeleteOpDataStore(name, c);
    case UseOp(name) => var done := ops.SetOwner(name, c); n := if done then 1 else 0;
    case StopOp(name) => n := ops.RemoveOwner(name, c);
    case StopAllOps => n := ops.RemoveOwnerEverywhere(c);
  }

  // The end of a client's thread.
  method ServeEnd(c: Client, ghost stores: DataStoreSet, clients: ClientSet, ops: OpDataStoreSet, ghost o: Objects,
                  ghost k: nat)
    requires stores.Sound() && clients.Valid() && !clients.mutexHeld && ops.Valid() && o == Snapshot(stores, clients, ops) && Linked(o)
    requires c < |o.slots| && !o.slots[c].free
    requires o.slots[c].ds.Some? ==> k < |o.live| && o.slots[c].ds.value == o.live[k]
    modifies clients, clients.clients, ops.live, StoreParts(clients.clients[c].ds)
    ensures stores.Sound() && clients.Valid() && ops.Valid() && Linked(Snapshot(stores, clients, ops))
    ensures Abstract(Snapshot(stores, clients, ops)) == ExecDisconnect(Abstract(o), c)
  {
    DisconnectIsStep(o, c, k);
    EndOnRegistry(c, stores, clients, ops, o, k);
    SnapshotIs(stores, clients, ops, Ended(o, c, k));
  }

  method EndOnRegistry(c: Client, ghost stores: DataStoreSet, clients: ClientSet, ops: OpDataStoreSet, ghost o: Objects,
                       ghost k: nat)
    requires stores.Sound() && clients.Valid() && !clients.mutexHeld && ops.Valid() && o == Snapshot(stores, clients, ops)
    requires c < |o.slots| && !o.slots[c].free
    requires o.slots[c].ds.Some? ==> k < |o.live| && o.slots[c].ds.value == o.live[k]
    modifies clients, clients.clients, ops.live, StoreParts(clients.clients[c].ds)
    ensures stores.Sound() && clients.Valid() && ops.Valid() && unchanged(stores)
    ensures Views(stores.live) == Ended(o, c, k).views
    ensures ops.View() == Ended(o, c, k).ops && clients.clients[..] == Ended(o, c, k).slots
  {
    if clients.clients[c].ds.Some? {
      EndApart(c, stores, clients, ops, o, k);
      assert Views(stores.live) == o.views[k := Unlock(Abort(o.views[k], c).0, c).0];
    } else {
      EndStoreless(c, stores, clients, ops, o);
    }
  }

  method EndStoreless(c: Client, ghost stores: DataStoreSet, clients: ClientSet, ops: OpDataStoreSet, ghost o: Objects)
    requires stores.Sound() && clients.Valid() && !clients.mutexHeld && ops.Valid() && o == Snapshot(stores, clients, ops)
    requires c < |o.slots| && o.slots[c] == Slot(false, None)
    modifies clients, clients.clients, ops.live
    ensures stores.Sound() && clients.Valid() && ops.Valid() && unchanged(stores) && Views(stores.live) == o.views
    ensures ops.View() == ReleaseAll(o.ops, c) && clients.clients[..] == o.slots[c := Slot(true, None)]
  {
    label before:
    clients.EndThread(c, ops);
    StoresKept@before(o.live);
  }

  method EndApart(c: Client, ghost stores: DataStoreSet, clients: ClientSet, ops: OpDataStoreSet, ghost o: Objects,
                  ghost k: nat)
    requires stores.Sound() && clients.Valid() && !clients.mutexHeld && ops.Valid() && o == Snapshot(stores, clients, ops)
    requires c < |o.slots| && k < |o.live| && o.slots[c] == Slot(false, Some(o.live[k]))
    modifies clients, clients.clients, ops.live, o.live[k], o.live[k].made
    ensures stores.Sound() && clients.Valid() && ops.Valid() && unchanged(stores)
    ensures o.live[k].View() == Unlock(Abort(o.views[k], c).0, c).0
    ensures forall j :: 0 <= j < |o.live| && j != k ==> o.live[j].View() == o.views[j]
    ensures ops.View() == ReleaseAll(o.ops, c) && clients.clients[..] == o.slots[c := Slot(true, None)]
  {
    ghost var s, m := stores.live, Mades(stores.live);
    Apart(s, k);
    label before:
    EndAside(c, stores, clients, ops, k);
    forall j | 0 <= j < |s| && j != k ensures s[j].Valid() && s[j].made == m[j] && s[j].View() == o.views[j] {
      StoreKept@before(s[j]);
    }
    StoreStepSound(s, m, k);
  }

  method EndAside(c: Client, ghost stores: DataStoreSet, clients: ClientSet, ops: OpDataStoreSet, ghost k: nat)
    requires stores.Valid() && clients.Valid() && !clients.mutexHeld && ops.Valid() && StoresValid(stores.live)
    requires c < clients.clients.Length && k < |stores.live| && clients.clients[c] == Slot(false, Some(stores.live[k]))
    modifies clients, clients.clients, ops.live, stores.live[k], stores.live[k].made
    ensures stores.Valid() && clients.Valid() && ops.Valid() && unchanged(stores)
    ensures Left(stores.live[k], c) && ops.View() == ReleaseAll(old(ops.View()), c)
    ensures clients.clients[..] == old(clients.clients[..])[c := Slot(true, None)]
    ensures forall j :: 0 <= j < |stores.live| && j != k ==>
              unchanged(stores.live[j]) && forall d :: d in old(stores.live[j].made) ==> unchanged(d)
  {
    Apart(stores.live, k);
    clients.EndThread(c, ops);
  }
}
