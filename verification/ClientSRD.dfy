// The commands of a connected client, on the objects they change.
module ClientSRDs {
  import opened Base
  import opened Trees
  import opened Dom
  import opened StoreSpec
  import opened Slots
  import opened DataStores
  import opened ClientSets
  import opened DataStoreSets
  import opened Server
  import opened ReplyTexts

  // What a client's thread keeps from one command to the next: the one buffer its replies are written into.
  class ClientThread {
    var outBuffer: Text

    // Just after the handshake.
    constructor ()
      ensures outBuffer == Ok("")
    {
      outBuffer := Ok("");
    }
  }

  // set_dataStore: refused while the client holds its current store; an unknown name leaves it without one.
  method SetDataStore(cset: ClientSet, c: Client, stores: DataStoreSet, name: Option<string>) returns (n: int)
    requires cset.Valid() && stores.Valid() && c < cset.clients.Length && !cset.clients[c].free
    modifies cset.clients
    ensures cset.Valid()
    ensures var ds := old(cset.clients[c].ds);
            if ds.Some? && ds.value.lockedBy == Some(c) then n == -1 && cset.clients[..] == old(cset.clients[..])
            else
              && cset.clients[..] == old(cset.clients[..])[c := Slot(false, Wanted(stores, name))]
              && n == if name.Some? && Wanted(stores, name).None? then -1 else 0
  {
    var ds := cset.clients[c].ds;
    if ds.Some? && ds.value.lockedBy == Some(c) { return -1; }
    n := 0;
    var target := None;
    if name.Some? {
      var found := stores.GetDataStore(name.value);
      if found != null { target := Some(found); } else { n := -1; }
    }
    OccupiedUpdate(cset.clients[..], c, Slot(false, target));
    cset.clients[c] := Slot(false, target);
    assert cset.clients[..] == old(cset.clients[..])[c := Slot(false, target)];
  }

  ghost function Wanted(stores: DataStoreSet, name: Option<string>): Option<DataStore>
    reads stores
  {
    if name.Some? && name.value in stores.AsMap() then Some(stores.AsMap()[name.value]) else None
  }

  // What the callers of a command provide.
  ghost predicate Ready(ds: DataStore, c: Client, cmd: Command)
    reads ds, ds.made, ds.doc, ds.preTransactionStartDoc, ds.preLastCommittedTransactionDoc
  {
    && ds.Valid() && (LocksCurrent(cmd) ==> CanLock(ds.View(), c))
    && (cmd.EditNodes? ==> GoodEdit(cmd.edit) && (!Refused(cmd.edit) ==> Defined(cmd.edit, ds.View().doc)))
  }

  // An edit is one of four methods.
  method EditNodes(ds: DataStore, c: Client, e: Edit) returns (n: int)
    requires Ready(ds, c, Command.EditNodes(e))
    modifies ds, ds.made
    ensures ds.Valid() && (ds.View(), n) == EditStore(old(ds.View()), c, ds.constraints, e)
    ensures old(ds.made) <= ds.made && fresh(ds.made - old(ds.made))
  {
    match e.op
    case Delete => n := ds.DeleteNodes(c, e.xpath, e.mode);
    case Update(value) => n := ds.UpdateNodes(c, e.xpath, value, e.mode);
    case Replace(fragment) => n := ds.ReplaceNodes(c, e.xpath, fragment, e.mode);
    case Add(fragment) => n := ds.AddNodes(c, e.xpath, fragment, e.mode);
  }

  // apply_xpath: the query is evaluated and printed while the lock is held, then the lock is let go.
  method ApplyXPath(ds: DataStore, c: Client, query: Xml -> Option<string>) returns (text: Option<string>)
    requires ds.Valid() && CanLock(ds.View(), c)
    modifies ds`lockedBy
    ensures ds.Valid() && ds.View() == Unlock(Lock(old(ds.View()), c), c).0
    ensures text == query(old(ds.View()).doc)
  {
    var locked := ds.LockDS(c);
    var t := ds.doc.Read();
    text := query(t);
    var u := ds.UnlockDS(c);
  }

  // A commit draws the next number of the whole server, if it goes ahead.
  method CommitTransaction(ds: DataStore, c: Client, stores: DataStoreSet) returns (n: int)
    requires ds.Valid()
    modifies ds, ds.made, stores`globalTransactionCounter
    ensures ds.Valid() && (ds.View(), n) == Commit(old(ds.View()), c, old(stores.globalTransactionCounter) + 1)
    ensures stores.globalTransactionCounter ==
            old(stores.globalTransactionCounter) + if MayCommit(old(ds.View()), c) then 1 else 0
    ensures ds.made == old(ds.made)
  {
    if ds.lockedBy != Some(c) || ds.preTransactionStartDoc == null { return 0; }
    var id := stores.GetNextTransactionId();
    n := ds.CommitTransaction(c, id);
  }

  // The part of processCommand that works on the client's current store does what the step
  // system says: to the store, to the counter and in what it reports.
  method StoreCommand(ds: DataStore, c: Client, cmd: Command, stores: DataStoreSet, ghost ok: Constraints)
    returns (reply: Reply)
    requires IsStoreCommand(cmd) && Ready(ds, c, cmd) && ok(ds.id) == ds.constraints
    modifies ds, ds.made, stores`globalTransactionCounter
    ensures ds.Valid() && old(ds.made) <= ds.made && fresh(ds.made - old(ds.made))
    ensures (ds.View(), reply) ==
            OnStore(ok, ds.id, old(ds.View()), c, old(stores.globalTransactionCounter), cmd)
    ensures stores.globalTransactionCounter == old(stores.globalTransactionCounter) +
              if cmd.CommitTxn? && MayCommit(old(ds.View()), c) then 1 else 0
  {
    var n: int;
    match cmd
    case LockStore => n := ds.LockDS(c); reply := Answer(n);
    case UnlockStore => n := ds.UnlockDS(c); reply := Answer(n);
    case StartTxn => n := ds.StartTransaction(c); reply := Answer(n);
    case CommitTxn => n := CommitTransaction(ds, c, stores); reply := Answer(n);
    case AbortTxn => n := ds.AbortTransaction(c); reply := Answer(n);
    case RollbackTxn(id) => n := ds.RollbackTransaction(c, id); reply := Answer(n);
    case EditNodes(e) => n := EditNodes(ds, c, e); reply := Answer(n);
    case Query(q) => var text := ApplyXPath(ds, c, q); reply := Result(text);
  }

  // The same for a store of the registry: the other stores stay as they are, and no tree is shared.
  method RegistryCommand(i: nat, c: Client, cmd: Command, stores: DataStoreSet, ghost ok: Constraints)
    returns (reply: Reply)
    requires stores.Sound() && i < |stores.live| && IsStoreCommand(cmd) && Ready(stores.live[i], c, cmd)
    requires ok(stores.live[i].id) == stores.live[i].constraints
    modifies stores.live[i], stores.live[i].made, stores`globalTransactionCounter
    ensures stores.Sound() && stores.live == old(stores.live)
    ensures var ds := stores.live[i];
            var (st, r) := OnStore(ok, ds.id, old(ds.View()), c, old(stores.globalTransactionCounter), cmd);
            Views(stores.live) == old(Views(stores.live))[i := st] && reply == r
    ensures stores.globalTransactionCounter == old(stores.globalTransactionCounter) +
              if cmd.CommitTxn? && MayCommit(old(stores.live[i].View()), c) then 1 else 0
  {
    ghost var s, v := stores.live, Views(stores.live);
    reply := CommandApart(stores.list[i], i, c, cmd, stores, ok);
    assert Views(s) == v[i := s[i].View()];
  }

  method CommandApart(ds: DataStore, ghost i: nat, c: Client, cmd: Command, stores: DataStoreSet, ghost ok: Constraints)
    returns (reply: Reply)
    requires stores.Sound() && i < |stores.live| && ds == stores.live[i] && IsStoreCommand(cmd) && Ready(ds, c, cmd)
    requires ok(ds.id) == ds.constraints
    modifies ds, ds.made, stores`globalTransactionCounter
    ensures stores.Sound() && stores.live == old(stores.live)
    ensures (ds.View(), reply) ==
            OnStore(ok, ds.id, old(ds.View()), c, old(stores.globalTransactionCounter), cmd)
    ensures forall k :: 0 <= k < |stores.live| && k != i ==> stores.live[k].View() == old(stores.live[k].View())
    ensures stores.globalTransactionCounter == old(stores.globalTransactionCounter) +
              if cmd.CommitTxn? && MayCommit(old(ds.View()), c) then 1 else 0
  {
    ghost var s, m := stores.live, Mades(stores.live);
    Apart(s, i);
    reply := StoreCommand(ds, c, cmd, stores, ok);
    forall k | 0 <= k < |s| && k != i ensures s[k].Valid() && s[k].made == m[k] && s[k].View() == old(s[k].View()) {
      StoreKept(s[k]);
    }
    StoreStepSound(s, m, i);
  }

  // The text for the client. A refused rollback leaves the buffer as it was, and the client is sent what an earlier
  // command wrote there; a query that succeeds, or finds no store, is answered from elsewhere.
  method WriteReply(thread: ClientThread, cmd: Command, reply: Reply)
    modifies thread
    ensures var written := Written(cmd, reply);
            thread.outBuffer == if written.Some? then written.value else old(thread.outBuffer)
  {
    var done := reply.Answer?;
    var n := if done then reply.n else 0;
    match cmd
    case SetStore(name) =>
      if n != 0 {
        thread.outBuffer := Error;
      } else if name.None? {
        thread.outBuffer := Ok("Data Store set to NULL for this client");
      } else {
        thread.outBuffer := Ok("");
      }
    case LockStore => thread.outBuffer := if done && n == 0 then Ok("") else Error;
    case UnlockStore => thread.outBuffer := if done && n == 0 then Ok("") else Error;
    case StartTxn => thread.outBuffer := if n != 0 then Ok("1") else Error;
    case CommitTxn => thread.outBuffer := if n > 0 then Ok(Decimal(n)) else Error;
    case AbortTxn => thread.outBuffer := if n != 0 then Ok("1") else Error;
    case RollbackTxn(_) => if n != 0 { thread.outBuffer := Ok("1"); }
    case EditNodes(_) => thread.outBuffer := if !done || n < 0 then Error else Ok(Decimal(n));
    case Query(_) => if reply == Result(None) { thread.outBuffer := Error; }
    case CopyStore(_, _) => thread.outBuffer := if n != 0 then Ok("") else Error;
    case CreateStore(_, _) => thread.outBuffer := if n != 0 then Ok("") else Error;
    case DeleteStore(_) => thread.outBuffer := if n >= 0 then Ok(Decimal(n)) else Error;
    case OpCmd(op) =>
      if op.CreateOp? {
        thread.outBuffer := if n == 0 then Error else if n == 2 then Ok("Op Data Store already exists - no action") else Ok("");
      } else if op.UseOp? {
        thread.outBuffer := if n != 0 then Ok("") else Error;
      } else {
        thread.outBuffer := if n < 0 then Error else Ok(Decimal(n));
      }
    case Disconnect => thread.outBuffer := Ok("");
  }

  // The command of a client with or without a store, up to the text in its buffer.
  method ProcessCommand(thread: ClientThread, ds: DataStore?, c: Client, cmd: Command, stores: DataStoreSet, ghost ok: Constraints)
    returns (reply: Reply)
    requires IsStoreCommand(cmd) && (cmd.RollbackTxn? ==> ds != null) && (ds != null ==> Ready(ds, c, cmd) && ok(ds.id) == ds.constraints)
    modifies thread, if ds == null then {} else {ds} + ds.made, stores`globalTransactionCounter
    ensures ds == null ==> reply == NoStore && stores.globalTransactionCounter == old(stores.globalTransactionCounter)
    ensures ds != null ==>
              && ds.Valid() && old(ds.made) <= ds.made && fresh(ds.made - old(ds.made))
              && (ds.View(), reply) ==
                 OnStore(ok, ds.id, old(ds.View()), c, old(stores.globalTransactionCounter), cmd)
              && stores.globalTransactionCounter == old(stores.globalTransactionCounter) +
                   if cmd.CommitTxn? && MayCommit(old(ds.View()), c) then 1 else 0
    ensures var written := Written(cmd, reply);
            thread.outBuffer == if written.Some? then written.value else old(thread.outBuffer)
  {
    if ds == null {
      reply := NoStore;
    } else {
      reply := StoreCommand(ds, c, cmd, stores, ok);
    }
    WriteReply(thread, cmd, reply);
  }
}
