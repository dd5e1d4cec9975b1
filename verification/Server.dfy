// The whole server as a step system: any number of clients and stores, one command at a time.
module Server {
  import opened Base
  import opened Trees
  import opened StoreSpec
  import opened Slots
  import opened OpSpec

  // Which store object; a name can be reused after a delete, an identity cannot.
  type StoreId = nat

  datatype NamedStore = NamedStore(name: string, st: Store)

  datatype State = State(
    stores: map<StoreId, NamedStore>, nextStore: StoreId, maxStores: nat,
    slots: seq<Slot<StoreId>>,
    counter: nat,
    ops: seq<OpEntry>, maxOps: nat)

  datatype Command =
    | SetStore(storeName: Option<string>)
    | LockStore | UnlockStore
    | StartTxn | CommitTxn | AbortTxn | RollbackTxn(id: int)
    | EditNodes(edit: Edit)
    | Query(query: Xml -> Option<string>)
    | CopyStore(fromName: string, toName: string)
    | CreateStore(name: string, xml: Option<Xml>)
    | DeleteStore(victim: string)
    | OpCmd(op: OpCommand)
    | Disconnect

  // A client is the slot it occupies.
  datatype Event = Connect | By(c: Client, cmd: Command)

  // What a command reports: a number, a query's text, if the expression can be evaluated, or that no store is set.
  datatype Reply = Answer(n: int) | Result(text: Option<string>) | NoStore

  // The constraints of each store.
  type Constraints = StoreId -> (Xml -> bool)

  ghost predicate HasName(s: State, x: StoreId, name: string) {
    x in s.stores && s.stores[x].name == name
  }

  // The registry lookup.
  ghost function FindStore(s: State, name: string): Option<StoreId> {
    if exists x :: HasName(s, x, name) then
      var x :| HasName(s, x, name);
      Some(x)
    else None
  }

  function Put(s: State, x: StoreId, st: Store): State
    requires x in s.stores
  {
    s.(stores := s.stores[x := s.stores[x].(st := st)])
  }

  predicate Connected(s: State, c: Client) {
    c < |s.slots| && !s.slots[c].free
  }

  // The client's current store, a live one.
  predicate Current(s: State, c: Client, x: StoreId) {
    Connected(s, c) && s.slots[c].ds == Some(x) && x in s.stores
  }

  predicate LocksCurrent(cmd: Command) {
    cmd.LockStore? || cmd.StartTxn? || cmd.RollbackTxn? || cmd.Query? || (cmd.EditNodes? && !Refused(cmd.edit))
  }

  // Waiting for a lock, or for a free slot, is not a step.
  ghost predicate Enabled(s: State, e: Event) {
    match e
    case Connect => Occupied(s.slots) < |s.slots|
    case By(c, cmd) =>
      && Connected(s, c)
      && (s.slots[c].ds.Some? ==> s.slots[c].ds.value in s.stores)
      && (cmd.RollbackTxn? ==> s.slots[c].ds.Some?)
      && (LocksCurrent(cmd) && s.slots[c].ds.Some? ==> CanLock(s.stores[s.slots[c].ds.value].st, c))
      && (cmd.EditNodes? && !Refused(cmd.edit) && s.slots[c].ds.Some? ==> Defined(cmd.edit, s.stores[s.slots[c].ds.value].st.doc))
      && (cmd.CopyStore? ==>
           var i, j := FindStore(s, cmd.fromName), FindStore(s, cmd.toName);
           && (i.Some? ==> CanLock(s.stores[i.value].st, c))
           && (i.Some? && j.Some? ==> CanLock(s.stores[j.value].st, c)))
      && (cmd.DeleteStore? ==>
           var i := FindStore(s, cmd.victim);
           i.Some? && !Scan(s.slots, i.value) ==> CanLock(s.stores[i.value].st, c))
  }

  // The in-use scan of a delete does not miss a user.
  ghost predicate ScanExact(s: State, e: Event) {
    e.By? && e.cmd.DeleteStore? ==>
      var i := FindStore(s, e.cmd.victim);
      i.Some? && InUse(s.slots, i.value) ==> Scan(s.slots, i.value)
  }

  // A command on the client's current store: the store after it and the reply.
  ghost function OnStore(ok: Constraints, x: StoreId, st: Store, c: Client, counter: nat, cmd: Command): (Store, Reply) {
    match cmd
    case LockStore => (Lock(st, c), Answer(0))
    case UnlockStore => var (t, n) := Unlock(st, c); (t, Answer(n))
    case StartTxn => var (t, n) := Start(st, c); (t, Answer(n))
    case CommitTxn => var (t, n) := Commit(st, c, counter + 1); (t, Answer(n))
    case AbortTxn => var (t, n) := Abort(st, c); (t, Answer(n))
    case RollbackTxn(id) => var (t, n) := Rollback(st, c, id); (t, Answer(n))
    case EditNodes(e) => var (t, n) := EditStore(st, c, ok(x), e); (t, Answer(n))
    case Query(q) => (Unlock(Lock(st, c), c).0, Result(q(st.doc)))
    case _ => (st, Answer(0))
  }

  predicate IsStoreCommand(cmd: Command) {
    cmd.LockStore? || cmd.UnlockStore? || cmd.StartTxn? || cmd.CommitTxn? || cmd.AbortTxn? ||
    cmd.RollbackTxn? || cmd.EditNodes? || cmd.Query?
  }

  ghost function ExecOp(s: State, c: Client, op: OpCommand): (State, Reply) {
    (s.(ops := OpStep(s.ops, s.maxOps, c, op)), Answer(OpAnswer(s.ops, s.maxOps, c, op)))
  }

  ghost function ExecSet(s: State, c: Client, name: Option<string>): (State, Reply)
    requires Connected(s, c)
  {
    var ds := s.slots[c].ds;
    if ds.Some? && ds.value in s.stores && s.stores[ds.value].st.lockedBy == Some(c) then (s, Answer(-1))
    else
      var target := if name.None? then None else FindStore(s, name.value);
      (s.(slots := s.slots[c := Slot(false, target)]), Answer(if name.Some? && target.None? then -1 else 0))
  }

  ghost function ExecCopy(s: State, c: Client, fromName: string, toName: string): (State, Reply) {
    match FindStore(s, fromName)
    case None => (s, Answer(0))
    case Some(i) =>
      var source := s.stores[i].st;
      var released := Unlock(Lock(source, c), c).0;
      match FindStore(s, toName)
      case None => (Put(s, i, released), Answer(0))
      case Some(j) =>
        if i == j then (Put(s, i, released), Answer(1))
        else
          var target := Unlock(Lock(s.stores[j].st, c).(doc := source.doc), c).0;
          (Put(Put(s, i, released), j, target), Answer(1))
  }

  ghost function ExecCreate(s: State, name: string, xml: Option<Xml>): (State, Reply) {
    if |s.stores| >= s.maxStores || FindStore(s, name).Some? || !GoodName(name) || xml.None? then (s, Answer(0))
    else
      var fresh_ := NamedStore(name, Store(xml.value, None, None, 0, None));
      (s.(stores := s.stores[s.nextStore := fresh_], nextStore := s.nextStore + 1), Answer(1))
  }

  ghost function ExecDelete(s: State, name: string): (State, Reply) {
    match FindStore(s, name)
    case None => (s, Answer(0))
    case Some(i) =>
      if Scan(s.slots, i) then (s, Answer(-1)) else (s.(stores := s.stores - {i}), Answer(1))
  }

  ghost function ExecDisconnect(s: State, c: Client): State
    requires Connected(s, c)
  {
    var ds := s.slots[c].ds;
    var left := if ds.Some? && ds.value in s.stores
                then Put(s, ds.value, Unlock(Abort(s.stores[ds.value].st, c).0, c).0) else s;
    left.(ops := ReleaseAll(s.ops, c), slots := s.slots[c := Slot(true, None)])
  }

  // The lowest free slot.
  function FreeSlot(slots: seq<Slot<StoreId>>): (i: nat)
    ensures i <= |slots|
    ensures i < |slots| ==> slots[i].free
    ensures forall j :: 0 <= j < i ==> !slots[j].free
  {
    if slots == [] || slots[0].free then 0 else 1 + FreeSlot(slots[1..])
  }

  function ExecConnect(s: State): (State, Reply) {
    var i := FreeSlot(s.slots);
    if i == |s.slots| then (s, Answer(-1))
    else (s.(slots := s.slots[i := Slot(false, None)]), Answer(i))
  }

  ghost function Exec(ok: Constraints, s: State, e: Event): (State, Reply)
    requires Enabled(s, e)
  {
    match e
    case Connect => ExecConnect(s)
    case By(c, cmd) =>
      if IsStoreCommand(cmd) then
        var ds := s.slots[c].ds;
        if ds.None? then (s, NoStore)
        else
          var st := s.stores[ds.value].st;
          var (t, reply) := OnStore(ok, ds.value, st, c, s.counter, cmd);
          var counted := if cmd.CommitTxn? && MayCommit(st, c) then s.(counter := s.counter + 1) else s;
          (Put(counted, ds.value, t), reply)
      else
        match cmd
        case SetStore(name) => ExecSet(s, c, name)
        case CopyStore(f, t) => ExecCopy(s, c, f, t)
        case CreateStore(name, xml) => ExecCreate(s, name, xml)
        case DeleteStore(name) => ExecDelete(s, name)
        case OpCmd(op) => ExecOp(s, c, op)
        case _ => (ExecDisconnect(s, c), Answer(0))
  }

  // ----- What every step keeps -----

  // A lock is held by a connected client, on its current store; a transaction holds the lock.
  ghost predicate LockInv(s: State) {
    forall x :: x in s.stores ==>
      && (s.stores[x].st.lockedBy.Some? ==> Current(s, s.stores[x].st.lockedBy.value, x))
      && (s.stores[x].st.pre.Some? ==> s.stores[x].st.lockedBy.Some?)
  }

  // Commit numbers: a store's last number is its rollback snapshot's, no two stores share one.
  ghost predicate IdInv(s: State) {
    && 1 <= s.counter
    && (forall x :: x in s.stores ==>
         && s.stores[x].st.last <= s.counter
         && (s.stores[x].st.last > 0 <==> s.stores[x].st.roll.Some?))
    && (forall x, y :: x in s.stores && y in s.stores && x != y && s.stores[x].st.last > 0 ==>
         s.stores[x].st.last != s.stores[y].st.last)
  }

  ghost predicate NameInv(s: State) {
    && (forall x :: x in s.stores ==> x < s.nextStore)
    && (forall x, y :: x in s.stores && y in s.stores && x != y ==> s.stores[x].name != s.stores[y].name)
  }

  ghost predicate SlotInv(s: State) {
    && (forall c :: 0 <= c < |s.slots| && s.slots[c].free ==> s.slots[c].ds.None?)
    && (forall c :: 0 <= c < |s.slots| && s.slots[c].ds.Some? ==> s.slots[c].ds.value in s.stores)
  }

  ghost predicate OpInv(s: State) {
    && DistinctNames(s.ops)
    && forall i :: 0 <= i < |s.ops| && s.ops[i].owner.Some? ==> Connected(s, s.ops[i].owner.value)
  }

  ghost predicate Inv(s: State) {
    LockInv(s) && IdInv(s) && NameInv(s) && SlotInv(s) && OpInv(s)
  }

  ghost predicate Init(s: State) {
    && (forall x :: x in s.stores ==>
         x < s.nextStore && s.stores[x].st == Store(s.stores[x].st.doc, None, None, 0, None))
    && (forall x, y :: x in s.stores && y in s.stores && x != y ==> s.stores[x].name != s.stores[y].name)
    && (forall c :: 0 <= c < |s.slots| ==> s.slots[c] == Slot(true, None))
    && s.counter == 1 && s.ops == []
  }

  lemma FindStoreIs(s: State, name: string)
    ensures FindStore(s, name).Some? ==> HasName(s, FindStore(s, name).value, name)
    ensures FindStore(s, name).None? ==> forall x :: !HasName(s, x, name)
  {
  }

  // What one command does to the store's own fields.
  ghost predicate StoreStep(st: Store, t: Store, c: Client, counter: nat) {
    // The lock stays, goes to c, or is let go by c.
    && (t.lockedBy == st.lockedBy || (CanLock(st, c) && (t.lockedBy == Some(c) || t.lockedBy == None)))
    && (t.pre.Some? ==> t.lockedBy.Some?)
    && ((t.last == st.last && t.roll == st.roll) || (t.last == 0 && t.roll == None)
        || (t.last == counter + 1 && t.roll.Some?))
  }

  lemma OnStoreStep(ok: Constraints, x: StoreId, st: Store, c: Client, counter: nat, cmd: Command)
    requires st.pre.Some? ==> st.lockedBy.Some?
    requires LocksCurrent(cmd) ==> CanLock(st, c)
    ensures var t := OnStore(ok, x, st, c, counter, cmd).0;
            && StoreStep(st, t, c, counter)
            && (t.last == counter + 1 && t.last != st.last ==> cmd.CommitTxn? && MayCommit(st, c))
  {
  }

  // Replacing store x by the result of a step of its user c keeps everything.
  lemma PutKeeps(s: State, x: StoreId, t: Store, c: Client, counter: nat)
    requires Inv(s) && x in s.stores && StoreStep(s.stores[x].st, t, c, s.counter)
    requires t.lockedBy == Some(c) ==> Current(s, c, x)
    requires s.counter <= counter
    requires t.last == s.counter + 1 && t.last != s.stores[x].st.last ==> counter == s.counter + 1
    ensures Inv(Put(s.(counter := counter), x, t))
  {
  }

  lemma SetKeeps(s: State, c: Client, name: Option<string>)
    requires Inv(s) && Connected(s, c)
    ensures Inv(ExecSet(s, c, name).0)
  {
    if name.Some? { FindStoreIs(s, name.value); }
  }

  lemma CopyKeeps(s: State, c: Client, fromName: string, toName: string)
    requires Inv(s) && Enabled(s, By(c, CopyStore(fromName, toName)))
    ensures Inv(ExecCopy(s, c, fromName, toName).0)
  {
    FindStoreIs(s, fromName);
    FindStoreIs(s, toName);
    match FindStore(s, fromName)
    case None =>
    case Some(i) =>
      var released := Unlock(Lock(s.stores[i].st, c), c).0;
      PutKeeps(s, i, released, c, s.counter);
      match FindStore(s, toName)
      case None =>
      case Some(j) =>
        if i != j {
          var u := Put(s, i, released);
          var target := Unlock(Lock(s.stores[j].st, c).(doc := s.stores[i].st.doc), c).0;
          PutKeeps(u, j, target, c, s.counter);
        }
  }

  lemma CreateKeeps(s: State, name: string, xml: Option<Xml>)
    requires Inv(s)
    ensures Inv(ExecCreate(s, name, xml).0)
  {
    FindStoreIs(s, name);
    assert forall x :: x in s.stores ==> !HasName(s, x, name) || FindStore(s, name).Some?;
  }

  lemma DeleteKeeps(s: State, c: Client, name: string)
    requires Inv(s) && Enabled(s, By(c, DeleteStore(name))) && ScanExact(s, By(c, DeleteStore(name)))
    ensures Inv(ExecDelete(s, name).0)
  {
    FindStoreIs(s, name);
    match FindStore(s, name)
    case None =>
    case Some(i) =>
      if !Scan(s.slots, i) {
        forall k | 0 <= k < |s.slots| && s.slots[k].ds.Some? ensures s.slots[k].ds.value != i {
          if s.slots[k].ds.value == i { assert Uses(s.slots[k], i); }
        }
      }
  }

  // The disconnect cleanup looks only at the client's current store, and that is enough.
  lemma NoLockLeft(s: State, c: Client)
    requires Inv(s) && Connected(s, c)
    ensures var ds := s.slots[c].ds;
            var t := if ds.Some? then Put(s, ds.value, Unlock(Abort(s.stores[ds.value].st, c).0, c).0) else s;
            Inv(t) && t.slots == s.slots && t.ops == s.ops &&
            forall x :: x in t.stores ==> t.stores[x].st.lockedBy != Some(c)
  {
    var ds := s.slots[c].ds;
    if ds.Some? {
      PutKeeps(s, ds.value, Unlock(Abort(s.stores[ds.value].st, c).0, c).0, c, s.counter);
    }
  }

  lemma FreeSlotKeeps(s: State, c: Client)
    requires Inv(s) && Connected(s, c)
    requires forall x :: x in s.stores ==> s.stores[x].st.lockedBy != Some(c)
    ensures Inv(s.(ops := ReleaseAll(s.ops, c), slots := s.slots[c := Slot(true, None)]))
  {
    var r := ReleaseAll(s.ops, c);
    assert forall i :: 0 <= i < |r| ==> r[i] == Released(s.ops[i], c);
  }

  lemma DisconnectKeeps(s: State, c: Client)
    requires Inv(s) && Connected(s, c)
    ensures Inv(ExecDisconnect(s, c))
  {
    NoLockLeft(s, c);
    var ds := s.slots[c].ds;
    var t := if ds.Some? then Put(s, ds.value, Unlock(Abort(s.stores[ds.value].st, c).0, c).0) else s;
    FreeSlotKeeps(t, c);
  }

  lemma OpKeeps(s: State, c: Client, op: OpCommand)
    requires Inv(s) && Connected(s, c)
    ensures Inv(s.(ops := OpStep(s.ops, s.maxOps, c, op)))
  {
    LookStep(s.ops, s.maxOps, c, op, "");
  }

  lemma StoreCommandKeeps(ok: Constraints, s: State, c: Client, cmd: Command)
    requires Inv(s) && Enabled(s, By(c, cmd)) && IsStoreCommand(cmd)
    ensures Inv(Exec(ok, s, By(c, cmd)).0)
  {
    if s.slots[c].ds.Some? {
      var x := s.slots[c].ds.value;
      OnStoreStep(ok, x, s.stores[x].st, c, s.counter, cmd);
      var counter := if cmd.CommitTxn? && MayCommit(s.stores[x].st, c) then s.counter + 1 else s.counter;
      PutKeeps(s, x, OnStore(ok, x, s.stores[x].st, c, s.counter, cmd).0, c, counter);
    }
  }

  lemma ConnectKeeps(s: State)
    requires Inv(s)
    ensures Inv(ExecConnect(s).0)
  {
  }

  // Every step keeps the invariant, as long as deletes do not miss a user.
  lemma StepKeeps(ok: Constraints, s: State, e: Event)
    requires Inv(s) && Enabled(s, e) && ScanExact(s, e)
    ensures Inv(Exec(ok, s, e).0)
  {
    match e
    case Connect => ConnectKeeps(s);
    case By(c, cmd) =>
      if IsStoreCommand(cmd) {
        StoreCommandKeeps(ok, s, c, cmd);
      } else {
        match cmd
        case SetStore(name) => SetKeeps(s, c, name);
        case CopyStore(f, t) => CopyKeeps(s, c, f, t);
        case CreateStore(name, xml) => CreateKeeps(s, name, xml);
        case DeleteStore(name) => DeleteKeeps(s, c, name);
        case OpCmd(op) => OpKeeps(s, c, op);
        case Disconnect => DisconnectKeeps(s, c);
      }
  }

  lemma InitInv(s: State)
    requires Init(s)
    ensures Inv(s)
  {
  }
}
