// Over whole runs: what a command does to the server, and that its client is told so.
module Truths {
  import opened Base
  import opened Trees
  import opened StoreSpec
  import opened EditLaws
  import opened Slots
  import opened OpSpec
  import opened Server
  import opened Runs
  import opened ReplyTexts
  import opened Told

  // Event n of a run is this command of client c.
  ghost predicate Happens(ok: Constraints, ss: seq<State>, es: seq<Event>, n: nat, c: Client, cmd: Command) {
    IsRun(ok, ss, es) && n < |es| && es[n] == By(c, cmd)
  }

  // And c's current store is x.
  ghost predicate HappensOn(ok: Constraints, ss: seq<State>, es: seq<Event>, n: nat, c: Client, cmd: Command, x: StoreId)
  {
    Happens(ok, ss, es, n, c, cmd) && Current(ss[n], c, x)
  }

  lemma Step(ok: Constraints, ss: seq<State>, es: seq<Event>, n: nat, c: Client, cmd: Command)
    requires Happens(ok, ss, es, n, c, cmd)
    ensures Enabled(ss[n], By(c, cmd)) && (ss[n + 1], ReplyAt(ok, ss, es, n)) == Exec(ok, ss[n], By(c, cmd))
    ensures ScanExact(ss[n], By(c, cmd)) && Inv(ss[n])
  {
    assert StepAt(ok, ss, es, n);
    RunInv(ok, ss, es, n);
  }

  // A store command's effect on the store, and on nothing else.
  lemma StoreEffect(ok: Constraints, ss: seq<State>, es: seq<Event>, n: nat, c: Client, cmd: Command, x: StoreId)
    requires HappensOn(ok, ss, es, n, c, cmd, x) && IsStoreCommand(cmd)
    ensures var s, t := ss[n], ss[n + 1];
            && x in t.stores && t == Put(s.(counter := t.counter), x, t.stores[x].st)
            && (t.stores[x].st, ReplyAt(ok, ss, es, n)) == OnStore(ok, x, s.stores[x].st, c, s.counter, cmd)
            && t.counter == s.counter + if cmd.CommitTxn? && MayCommit(s.stores[x].st, c) then 1 else 0
  {
    Step(ok, ss, es, n, c, cmd);
  }

  // ----- Locking -----

  // A lock that is granted is told as success, and the client holds the store.
  lemma LockTold(ok: Constraints, ss: seq<State>, es: seq<Event>, n: nat, c: Client, x: StoreId)
    requires HappensOn(ok, ss, es, n, c, LockStore, x)
    ensures x in ss[n + 1].stores
    ensures Sent(ok, ss, es, n) == Ok("")
    ensures ss[n + 1].stores[x].st == ss[n].stores[x].st.(lockedBy := Some(c))
  {
    StoreEffect(ok, ss, es, n, c, LockStore, x);
    SentIs(ok, ss, es, n);
  }

  // A client reads success for an unlock if and only if it held the lock or a transaction is open, whoever's; the
  // store is free then unless a transaction is open.
  lemma UnlockTold(ok: Constraints, ss: seq<State>, es: seq<Event>, n: nat, c: Client, x: StoreId)
    requires HappensOn(ok, ss, es, n, c, UnlockStore, x)
    ensures x in ss[n + 1].stores
    ensures var st, st' := ss[n].stores[x].st, ss[n + 1].stores[x].st;
            && (Sent(ok, ss, es, n).Ok? <==> st.lockedBy == Some(c) || st.pre.Some?)
            && st' == st.(lockedBy := if st.lockedBy == Some(c) && st.pre.None? then None else st.lockedBy)
  {
    StoreEffect(ok, ss, es, n, c, UnlockStore, x);
    SentIs(ok, ss, es, n);
  }

  // An unlock right after the same client's lock, no transaction open: answered 0, read as success, and the store is
  // free.
  lemma UnlockAfterLock(ok: Constraints, ss: seq<State>, es: seq<Event>, n: nat, c: Client, x: StoreId)
    requires HappensOn(ok, ss, es, n, c, LockStore, x) && n + 1 < |es| && es[n + 1] == By(c, UnlockStore)
    requires ss[n].stores[x].st.pre.None?
    ensures x in ss[n + 2].stores
    ensures ReplyAt(ok, ss, es, n + 1) == Answer(0) && Sent(ok, ss, es, n + 1) == Ok("")
    ensures ss[n + 2].stores[x].st == ss[n].stores[x].st.(lockedBy := None)
  {
    StoreEffect(ok, ss, es, n, c, LockStore, x);
    StoreEffect(ok, ss, es, n + 1, c, UnlockStore, x);
    SentIs(ok, ss, es, n + 1);
  }

  // A client that holds nothing reads an error, and changes nothing.
  lemma StrangersUnlock(ok: Constraints, ss: seq<State>, es: seq<Event>, n: nat, c: Client, x: StoreId)
    requires HappensOn(ok, ss, es, n, c, UnlockStore, x)
    requires ss[n].stores[x].st.pre.None? && ss[n].stores[x].st.lockedBy != Some(c)
    ensures Sent(ok, ss, es, n) == Error && ss[n + 1] == ss[n]
  {
    StoreEffect(ok, ss, es, n, c, UnlockStore, x);
    SentIs(ok, ss, es, n);
    assert ss[n + 1].stores == ss[n].stores;
  }

  // ----- Transactions -----

  // The client of a start reads 1 if and only if a transaction has started, and 0 otherwise.
  lemma StartTold(ok: Constraints, ss: seq<State>, es: seq<Event>, n: nat, c: Client, x: StoreId)
    requires HappensOn(ok, ss, es, n, c, StartTxn, x)
    ensures x in ss[n + 1].stores
    ensures var st, st' := ss[n].stores[x].st, ss[n + 1].stores[x].st;
            var told := IntResponse(Sent(ok, ss, es, n));
            && told in {0, 1} && (told == 1 <==> st.pre.None?)
            && (told == 1 ==> st' == Store(st.doc, Some(st.doc), st.roll, st.last, Some(c)))
            && (told == 0 ==> st' == st.(lockedBy := Some(c)))
  {
    StoreEffect(ok, ss, es, n, c, StartTxn, x);
    SentIs(ok, ss, es, n);
    ReadsOne();
  }

  // The client of a commit reads the number of its commit, the newest of the whole server and the store's last; or 0,
  // if it has no transaction open.
  lemma CommitTold(ok: Constraints, ss: seq<State>, es: seq<Event>, n: nat, c: Client, x: StoreId)
    requires HappensOn(ok, ss, es, n, c, CommitTxn, x)
    ensures x in ss[n + 1].stores
    ensures var st, st' := ss[n].stores[x].st, ss[n + 1].stores[x].st;
            var told := IntResponse(Sent(ok, ss, es, n));
            if st.lockedBy == Some(c) && st.pre.Some? then
              && told == ss[n + 1].counter == ss[n].counter + 1 && told > 0
              && st' == Store(st.doc, None, st.pre, told, None)
            else told == 0 && st' == st
  {
    StoreEffect(ok, ss, es, n, c, CommitTxn, x);
    SentIs(ok, ss, es, n);
    ReadsNumber(ss[n].counter + 1);
  }

  // It is the number that the commit has in the history of the run, and that a rollback has to name.
  lemma CommitNumberTold(ok: Constraints, ss: seq<State>, es: seq<Event>, n: nat, c: Client, x: StoreId)
    requires HappensOn(ok, ss, es, n, c, CommitTxn, x) && KindOf(ss[n], es[n], x).Committed?
    ensures IntResponse(Sent(ok, ss, es, n)) == KindOf(ss[n], es[n], x).id
  {
    Step(ok, ss, es, n, c, CommitTxn);
    CommitTold(ok, ss, es, n, c, x);
  }

  // The client of an abort reads 1 if and only if its transaction was thrown away.
  lemma AbortTold(ok: Constraints, ss: seq<State>, es: seq<Event>, n: nat, c: Client, x: StoreId)
    requires HappensOn(ok, ss, es, n, c, AbortTxn, x)
    ensures x in ss[n + 1].stores
    ensures var st, st' := ss[n].stores[x].st, ss[n + 1].stores[x].st;
            var told := IntResponse(Sent(ok, ss, es, n));
            if st.lockedBy == Some(c) && st.pre.Some? then
              told == 1 && st' == Store(st.pre.value, None, st.roll, st.last, None)
            else told == 0 && st' == st
  {
    StoreEffect(ok, ss, es, n, c, AbortTxn, x);
    SentIs(ok, ss, es, n);
    ReadsOne();
  }

  // ----- Edits and queries -----

  // What an edit e does to a tree, before and after, when it reports k.
  ghost predicate EditEffect(ok: Xml -> bool, e: Edit, before: Xml, after: Xml, k: int) {
    match e.op
    case Delete => DeleteEffect(ok, e.xpath, e.mode, before, after, k)
    case Update(value) => UpdateEffect(ok, e.xpath, value, e.mode, before, after, k)
    case Replace(fragment) => ReplaceEffect(ok, e.xpath, fragment, e.mode, before, after, k)
    case Add(fragment) => AddEffect(ok, e.xpath, fragment, e.mode, before, after, k)
  }

  lemma EditLaw(st: Store, c: Client, ok: Xml -> bool, e: Edit)
    requires GoodXPath(e.xpath)
    ensures var (t, k) := EditStore(st, c, ok, e);
            EditEffect(ok, e, st.doc, t.doc, k) && if Refused(e) then t == st else LetGo(st, t, c)
  {
    match e.op
    case Delete => DeleteLaw(st, c, ok, e.xpath, e.mode);
    case Update(value) => UpdateLaw(st, c, ok, e.xpath, value, e.mode);
    case Replace(fragment) => ReplaceLaw(st, c, ok, e.xpath, fragment, e.mode);
    case Add(fragment) => AddLaw(st, c, ok, e.xpath, fragment, e.mode);
  }

  // The client of an edit reads the number of nodes worked on, for the tree the edit leaves, or an error.
  lemma EditTold(ok: Constraints, ss: seq<State>, es: seq<Event>, n: nat, c: Client, e: Edit, x: StoreId) returns (k: int)
    requires HappensOn(ok, ss, es, n, c, EditNodes(e), x) && GoodXPath(e.xpath)
    ensures x in ss[n + 1].stores
    ensures var st, st' := ss[n].stores[x].st, ss[n + 1].stores[x].st;
            EditEffect(ok(x), e, st.doc, st'.doc, k) && if Refused(e) then st' == st else LetGo(st, st', c)
    ensures if k >= 0 then Sent(ok, ss, es, n).Ok? && IntResponse(Sent(ok, ss, es, n)) == k
            else Sent(ok, ss, es, n) == Error
  {
    StoreEffect(ok, ss, es, n, c, EditNodes(e), x);
    EditLaw(ss[n].stores[x].st, c, ok(x), e);
    k := ReplyAt(ok, ss, es, n).n;
    SentIs(ok, ss, es, n);
    ReadsNumber(k);
  }

  // A query answers from the tree there is and leaves it; the lock is let go, unless a transaction is open.
  lemma QueryReads(ok: Constraints, ss: seq<State>, es: seq<Event>, n: nat, c: Client, q: Xml -> Option<string>, x: StoreId)
    requires HappensOn(ok, ss, es, n, c, Query(q), x)
    ensures x in ss[n + 1].stores
    ensures ReplyAt(ok, ss, es, n) == Result(q(ss[n].stores[x].st.doc))
    ensures LetGo(ss[n].stores[x].st, ss[n + 1].stores[x].st, c) && ss[n + 1].stores[x].st.doc == ss[n].stores[x].st.doc
  {
    StoreEffect(ok, ss, es, n, c, Query(q), x);
  }

  // ----- Stores by name -----

  ghost predicate Exists(s: State, name: string) {
    exists x: StoreId :: HasName(s, x, name)
  }

  // The lookup finds the store of that name, the only one.
  lemma Lookup(s: State, name: string)
    requires NameInv(s)
    ensures FindStore(s, name).Some? <==> Exists(s, name)
    ensures forall x: StoreId :: HasName(s, x, name) <==> FindStore(s, name) == Some(x)
  {
    FindStoreIs(s, name);
  }

  // After set_dataStore the client's store is the one of that name, or none, and it reads so; it is refused exactly
  // while the client holds the lock of the store it has.
  lemma SetTold(ok: Constraints, ss: seq<State>, es: seq<Event>, n: nat, c: Client, name: Option<string>)
    requires Happens(ok, ss, es, n, c, SetStore(name))
    ensures c < |ss[n].slots| == |ss[n + 1].slots|
    ensures var s, t := ss[n], ss[n + 1];
            var held := exists x: StoreId :: Current(s, c, x) && s.stores[x].st.lockedBy == Some(c);
            && (Sent(ok, ss, es, n).Ok? <==> !held && (name.None? || Exists(s, name.value)))
            && (held ==> t == s)
            && (!held && name.None? ==> t.slots[c].ds == None)
            && (!held && name.Some? && !Exists(s, name.value) ==> t.slots[c].ds == None)
            && (!held && name.Some? ==> forall x: StoreId :: HasName(s, x, name.value) ==> t.slots[c].ds == Some(x))
            && t.(slots := s.slots) == s && forall d :: 0 <= d < |s.slots| && d != c ==> t.slots[d] == s.slots[d]
  {
    var s := ss[n];
    Step(ok, ss, es, n, c, SetStore(name));
    SentIs(ok, ss, es, n);
    assert s.slots[c].ds.Some? ==> Current(s, c, s.slots[c].ds.value);
    if name.Some? {
      Lookup(s, name.value);
    }
  }

  // The lock of a store that c has locked and let go of again.
  function Freed(st: Store, c: Client): Option<Client> {
    if st.pre.Some? then Some(c) else None
  }

  // What a copy leaves: the store named g has the tree of the one named f; every other tree, and all saved trees, names
  // and numbers stay; the two locks are free, or c's in a transaction.
  ghost predicate CopyEffect(s: State, t: State, c: Client, f: string, g: string) {
    && t.stores.Keys == s.stores.Keys && t.(stores := s.stores) == s
    && (forall x: StoreId, y: StoreId :: HasName(s, x, f) && HasName(s, y, g) ==> t.stores[y].st.doc == s.stores[x].st.doc)
    && (forall x: StoreId :: x in s.stores && !(HasName(s, x, g) && Exists(s, f)) ==> t.stores[x].st.doc == s.stores[x].st.doc)
    && (forall x: StoreId :: x in s.stores ==>
         t.stores[x] == s.stores[x].(st := s.stores[x].st.(doc := t.stores[x].st.doc, lockedBy := t.stores[x].st.lockedBy)))
    && forall x: StoreId :: x in s.stores ==>
         var copied := HasName(s, x, f) || (HasName(s, x, g) && Exists(s, f));
         t.stores[x].st.lockedBy == if copied then Freed(s.stores[x].st, c) else s.stores[x].st.lockedBy
  }

  lemma CopyBoth(s: State, c: Client, f: string, g: string)
    requires NameInv(s) && Exists(s, f) && Exists(s, g)
    ensures var (t, reply) := ExecCopy(s, c, f, g); CopyEffect(s, t, c, f, g) && reply == Answer(1)
  {
    Lookup(s, f);
    Lookup(s, g);
  }

  lemma CopyOne(s: State, c: Client, f: string, g: string)
    requires NameInv(s) && (!Exists(s, f) || !Exists(s, g))
    ensures var (t, reply) := ExecCopy(s, c, f, g); CopyEffect(s, t, c, f, g) && reply == Answer(0)
  {
    Lookup(s, f);
    Lookup(s, g);
  }

  lemma CopyLaw(s: State, c: Client, f: string, g: string)
    requires NameInv(s)
    ensures var (t, reply) := ExecCopy(s, c, f, g);
            CopyEffect(s, t, c, f, g) && reply == Answer(if Exists(s, f) && Exists(s, g) then 1 else 0)
  {
    if Exists(s, f) && Exists(s, g) { CopyBoth(s, c, f, g); } else { CopyOne(s, c, f, g); }
  }

  lemma CopyTold(ok: Constraints, ss: seq<State>, es: seq<Event>, n: nat, c: Client, f: string, g: string)
    requires Happens(ok, ss, es, n, c, CopyStore(f, g))
    ensures CopyEffect(ss[n], ss[n + 1], c, f, g)
    ensures Sent(ok, ss, es, n).Ok? <==> Exists(ss[n], f) && Exists(ss[n], g)
  {
    Step(ok, ss, es, n, c, CopyStore(f, g));
    CopyLaw(ss[n], c, f, g);
    SentIs(ok, ss, es, n);
  }

  // A store is made if and only if there is room, the name is new and good and the text parses; its client reads so.
  lemma CreateTold(ok: Constraints, ss: seq<State>, es: seq<Event>, n: nat, c: Client, name: string, xml: Option<Xml>)
    requires Happens(ok, ss, es, n, c, CreateStore(name, xml))
    ensures var s, t := ss[n], ss[n + 1];
            && (Sent(ok, ss, es, n).Ok? <==>
                 |s.stores| < s.maxStores && !Exists(s, name) && 0 < |name| <= MAX_STORE_NAME_LENGTH && xml.Some?)
            && (Sent(ok, ss, es, n).Ok? ==>
                 exists x: StoreId :: x !in s.stores &&
                   t.stores == s.stores[x := NamedStore(name, Store(xml.value, None, None, 0, None))])
            && (!Sent(ok, ss, es, n).Ok? ==> t.stores == s.stores)
            && t.slots == s.slots && t.counter == s.counter && t.ops == s.ops
  {
    Step(ok, ss, es, n, c, CreateStore(name, xml));
    Lookup(ss[n], name);
    SentIs(ok, ss, es, n);
    assert ss[n].nextStore !in ss[n].stores;
  }

  // Some client has the store of that name.
  ghost predicate InUseByName(s: State, name: string) {
    exists x: StoreId, d: Client :: HasName(s, x, name) && Current(s, d, x)
  }

  // With an exact scan a store is found in use if and only if it is some client's current one.
  lemma ScanUsed(s: State, c: Client, name: string, x: StoreId)
    requires NameInv(s) && ScanExact(s, By(c, DeleteStore(name))) && HasName(s, x, name)
    ensures Scan(s.slots, x) <==> InUseByName(s, name)
  {
    Lookup(s, name);
    if Scan(s.slots, x) {
      var d: nat :| d < Occupied(s.slots) && Uses(s.slots[d], x);
      assert HasName(s, x, name) && Current(s, d, x);
    }
    if InUseByName(s, name) {
      var y: StoreId, d: Client :| HasName(s, y, name) && Current(s, d, y);
      assert Uses(s.slots[d], x);
    }
  }

  lemma DeleteStoreLaw(s: State, c: Client, name: string)
    requires NameInv(s) && ScanExact(s, By(c, DeleteStore(name)))
    ensures var (t, reply) := ExecDelete(s, name);
            && reply == Answer(if InUseByName(s, name) then -1 else if Exists(s, name) then 1 else 0)
            && t.(stores := s.stores) == s
            && (forall x: StoreId :: x in t.stores <==> x in s.stores && (InUseByName(s, name) || !HasName(s, x, name)))
            && (forall x: StoreId :: x in t.stores ==> t.stores[x] == s.stores[x])
  {
    Lookup(s, name);
    if FindStore(s, name).Some? { ScanUsed(s, c, name, FindStore(s, name).value); }
  }

  // The client of a delete reads 1 if the store of that name is gone, 0 if there was none, and an error if a client has
  // it.
  lemma DeleteTold(ok: Constraints, ss: seq<State>, es: seq<Event>, n: nat, c: Client, name: string)
    requires Happens(ok, ss, es, n, c, DeleteStore(name))
    ensures var s, t := ss[n], ss[n + 1];
            && (Sent(ok, ss, es, n) == Error <==> InUseByName(s, name))
            && (Sent(ok, ss, es, n).Ok? ==> IntResponse(Sent(ok, ss, es, n)) == if Exists(s, name) then 1 else 0)
            && t.(stores := s.stores) == s
            && (forall x: StoreId :: x in t.stores <==> x in s.stores && (InUseByName(s, name) || !HasName(s, x, name)))
            && (forall x: StoreId :: x in t.stores ==> t.stores[x] == s.stores[x])
  {
    Step(ok, ss, es, n, c, DeleteStore(name));
    DeleteStoreLaw(ss[n], c, name);
    SentIs(ok, ss, es, n);
    ReadsNumber(0);
    ReadsNumber(1);
  }

  // ----- Operational stores -----

  lemma {:induction false} OpsFit(ok: Constraints, ss: seq<State>, es: seq<Event>, n: nat)
    requires IsRun(ok, ss, es) && n <= |es|
    ensures |ss[n].ops| <= ss[n].maxOps
  {
    if n > 0 {
      OpsFit(ok, ss, es, n - 1);
      RunInv(ok, ss, es, n - 1);
      assert StepAt(ok, ss, es, n - 1);
      OpsFitStep(ok, ss[n - 1], es[n - 1]);
    }
  }

  lemma OpsFitStep(ok: Constraints, s: State, e: Event)
    requires Enabled(s, e) && DistinctNames(s.ops) && |s.ops| <= s.maxOps
    ensures |Exec(ok, s, e).0.ops| <= Exec(ok, s, e).0.maxOps
  {
    if e.By? && e.cmd.OpCmd? { StepRefinesMap(s.ops, s.maxOps, e.c, e.cmd.op); }
  }

  // A command on an operational store is the command on the map of names to owners, and is answered from it.
  lemma OpTold(ok: Constraints, ss: seq<State>, es: seq<Event>, n: nat, c: Client, op: OpCommand)
    requires Happens(ok, ss, es, n, c, OpCmd(op))
    ensures var s, t := ss[n], ss[n + 1];
            var k, told := MapAnswer(AsMap(s.ops), s.maxOps, c, op), Sent(ok, ss, es, n);
            && t.(ops := s.ops) == s && AsMap(t.ops) == MapStep(AsMap(s.ops), s.maxOps, c, op)
            && if op.CreateOp? || op.UseOp? then told.Ok? <==> k != 0
               else (k < 0 ==> told == Error) && (k >= 0 ==> told.Ok? && IntResponse(told) == k)
  {
    var s := ss[n];
    OpsFit(ok, ss, es, n);
    Step(ok, ss, es, n, c, OpCmd(op));
    SentIs(ok, ss, es, n);
    AnswerRefinesMap(s.ops, s.maxOps, c, op);
    StepRefinesMap(s.ops, s.maxOps, c, op);
    ReadsNumber(OpAnswer(s.ops, s.maxOps, c, op));
  }
}
