// Commands in small steps. Edits, queries and copies are split as the code
// splits them; every interleaving gives what some atomic order gives.
module Interleaving {
  import opened Base
  import opened Trees
  import opened StoreSpec
  import opened Slots
  import opened Server
  import Runs

  // A store locked by a command in flight. had: the client held the lock before.
  // shown: the tree the edit keeps aside while doc is a copy being changed.
  // done: the command has taken effect and only has to let go.
  datatype Hold = Hold(c: Client, had: bool, shown: Option<Xml>, done: bool)

  datatype EditPhase = Locked | Copied | Stopped(n: int) | Mutated(count: int) | Judged(count: int, verdict: bool) | Settled
  datatype CopyPhase = HasMutex | HasSource(i: StoreId) | HasBoth(i: StoreId, j: StoreId)
                     | Duplicated(i: StoreId, j: StoreId, copy: Xml) | Installed(i: StoreId, j: StoreId)
                     | Unlocking(j: StoreId)

  // Where a busy client is in its command.
  datatype Pc = InEdit(x: StoreId, edit: Edit, phase: EditPhase)
              | InQuery(x: StoreId, query: Xml -> Option<string>, read: bool)
              | InCopy(fromName: string, toName: string, copying: CopyPhase)

  // mutex: the client that holds the registry's mutex across steps.
  datatype Fine = Fine(mem: State, holds: map<StoreId, Hold>, pcs: map<Client, Pc>, mutex: Option<Client>)

  datatype Action =
    | Whole(e: Event)
    | BeginEdit(c: Client, edit: Edit) | CopyDoc(c: Client) | Scribble(c: Client, tree: Xml) | Mutate(c: Client)
    | Validate(c: Client) | Settle(c: Client)
    | BeginQuery(c: Client, query: Xml -> Option<string>) | ReadTree(c: Client)
    | Release(c: Client)
    | BeginCopy(c: Client, fromName: string, toName: string) | LockSource(c: Client) | LockTarget(c: Client)
    | Duplicate(c: Client) | Install(c: Client) | UnlockSource(c: Client) | UnlockTarget(c: Client)

  // ----- The atomic state a fine state stands for -----

  ghost function SeenBy(st: Store, h: Option<Hold>): Store {
    if h.None? then st
    else if h.value.done then Unlock(st, h.value.c).0
    else st.(doc := if h.value.shown.Some? then h.value.shown.value else st.doc,
             lockedBy := if h.value.had then Some(h.value.c) else None)
  }

  function HoldOf(holds: map<StoreId, Hold>, x: StoreId): Option<Hold> {
    if x in holds then Some(holds[x]) else None
  }

  ghost function Seen(st: Store, holds: map<StoreId, Hold>, x: StoreId): Store {
    SeenBy(st, HoldOf(holds, x))
  }

  ghost function Abs(m: State, holds: map<StoreId, Hold>): State {
    m.(stores := map x | x in m.stores :: NamedStore(m.stores[x].name, Seen(m.stores[x].st, holds, x)))
  }

  // Held stores are locked by their holders, who are busy.
  ghost predicate HoldsOk(m: State, holds: map<StoreId, Hold>, busy: set<Client>) {
    forall x :: x in holds ==>
      && x in m.stores && m.stores[x].st.lockedBy == Some(holds[x].c) && holds[x].c in busy
      && (m.stores[x].st.pre.Some? ==> holds[x].had)
  }

  // ----- Commands that stay whole -----

  ghost predicate NeedsMutex(s: State, e: Event) {
    e.By? && (e.cmd.SetStore? || e.cmd.CreateStore? || e.cmd.DeleteStore? ||
              (e.cmd.CommitTxn? && exists x :: Current(s, e.c, x) && MayCommit(s.stores[x].st, e.c)))
  }

  // Commands run in small steps instead.
  predicate Split(s: State, e: Event) {
    e.By? && (e.cmd.CopyStore? ||
              (Connected(s, e.c) && s.slots[e.c].ds.Some? &&
               (e.cmd.Query? || (e.cmd.EditNodes? && !Refused(e.cmd.edit)))))
  }

  ghost predicate MayRunWhole(f: Fine, e: Event) {
    && Enabled(f.mem, e) && ScanExact(f.mem, e) && !Split(f.mem, e)
    && (e.By? ==> e.c !in f.pcs)
    && (NeedsMutex(f.mem, e) ==> f.mutex.None?)
  }

  lemma AbsPut(m: State, holds: map<StoreId, Hold>, x: StoreId, t: Store)
    requires x in m.stores && x !in holds
    ensures Abs(Put(m, x, t), holds) == Put(Abs(m, holds), x, t)
  {
    assert Abs(Put(m, x, t), holds).stores == Put(Abs(m, holds), x, t).stores;
  }

  lemma AbsFind(m: State, holds: map<StoreId, Hold>, name: string)
    requires NameInv(Abs(m, holds))
    ensures FindStore(Abs(m, holds), name) == FindStore(m, name)
  {
    var a := Abs(m, holds);
    assert forall x :: HasName(a, x, name) <==> HasName(m, x, name);
    FindStoreIs(m, name);
    FindStoreIs(a, name);
  }

  // On a store held by another client, a command that needs no lock changes nothing.
  lemma OnBusyStore(ok: Constraints, x: StoreId, st: Store, a: Store, c: Client, counter: nat, cmd: Command)
    requires IsStoreCommand(cmd) && !LocksCurrent(cmd)
    requires st.lockedBy != Some(c) && a.lockedBy != Some(c) && a.pre == st.pre
    ensures OnStore(ok, x, st, c, counter, cmd).0 == st && OnStore(ok, x, a, c, counter, cmd).0 == a
    ensures OnStore(ok, x, st, c, counter, cmd).1 == OnStore(ok, x, a, c, counter, cmd).1
  {
  }

  ghost predicate Commutes(ok: Constraints, m: State, holds: map<StoreId, Hold>, e: Event) {
    && Enabled(m, e) && Enabled(Abs(m, holds), e) && ScanExact(Abs(m, holds), e)
    && Exec(ok, Abs(m, holds), e) == (Abs(Exec(ok, m, e).0, holds), Exec(ok, m, e).1)
  }

  // A command in one step does not touch the stores held by others.
  ghost predicate LeavesHeld(f: Fine, after: State) {
    forall x :: x in f.holds ==> x in f.mem.stores && x in after.stores && after.stores[x] == f.mem.stores[x]
  }

  lemma WholeStoreCommand(ok: Constraints, f: Fine, c: Client, cmd: Command)
    requires HoldsOk(f.mem, f.holds, f.pcs.Keys) && MayRunWhole(f, By(c, cmd)) && IsStoreCommand(cmd)
    ensures Commutes(ok, f.mem, f.holds, By(c, cmd))
    ensures LeavesHeld(f, Exec(ok, f.mem, By(c, cmd)).0)
  {
    var m, a := f.mem, Abs(f.mem, f.holds);
    if m.slots[c].ds.Some? {
      var x := m.slots[c].ds.value;
      var st := m.stores[x].st;
      if x in f.holds {
        OnBusyStore(ok, x, st, a.stores[x].st, c, m.counter, cmd);
        assert Put(m, x, st) == m && Put(a, x, a.stores[x].st) == a;
      } else {
        var counted := if cmd.CommitTxn? && MayCommit(st, c) then m.(counter := m.counter + 1) else m;
        AbsPut(counted, f.holds, x, OnStore(ok, x, st, c, m.counter, cmd).0);
      }
    }
  }

  lemma WholeSet(ok: Constraints, f: Fine, c: Client, name: Option<string>)
    requires HoldsOk(f.mem, f.holds, f.pcs.Keys) && NameInv(Abs(f.mem, f.holds)) && MayRunWhole(f, By(c, SetStore(name)))
    ensures Commutes(ok, f.mem, f.holds, By(c, SetStore(name)))
    ensures LeavesHeld(f, Exec(ok, f.mem, By(c, SetStore(name))).0)
  {
    if name.Some? { AbsFind(f.mem, f.holds, name.value); }
  }

  lemma AbsSize(m: State, holds: map<StoreId, Hold>)
    ensures |Abs(m, holds).stores| == |m.stores|
  {
    assert Abs(m, holds).stores.Keys == m.stores.Keys;
  }

  lemma AbsCreate(m: State, holds: map<StoreId, Hold>, name: string, xml: Option<Xml>)
    requires NameInv(Abs(m, holds)) && m.nextStore !in holds
    ensures ExecCreate(Abs(m, holds), name, xml) ==
            (Abs(ExecCreate(m, name, xml).0, holds), ExecCreate(m, name, xml).1)
  {
    AbsFind(m, holds, name);
    AbsSize(m, holds);
    assert Abs(ExecCreate(m, name, xml).0, holds).stores == ExecCreate(Abs(m, holds), name, xml).0.stores;
  }

  lemma AbsDelete(m: State, holds: map<StoreId, Hold>, name: string)
    requires NameInv(Abs(m, holds))
    ensures ExecDelete(Abs(m, holds), name) == (Abs(ExecDelete(m, name).0, holds), ExecDelete(m, name).1)
  {
    AbsFind(m, holds, name);
    assert Abs(ExecDelete(m, name).0, holds).stores == ExecDelete(Abs(m, holds), name).0.stores;
  }

  lemma WholeCreate(ok: Constraints, f: Fine, c: Client, name: string, xml: Option<Xml>)
    requires HoldsOk(f.mem, f.holds, f.pcs.Keys) && NameInv(Abs(f.mem, f.holds)) && MayRunWhole(f, By(c, CreateStore(name, xml)))
    ensures Commutes(ok, f.mem, f.holds, By(c, CreateStore(name, xml)))
    ensures LeavesHeld(f, Exec(ok, f.mem, By(c, CreateStore(name, xml))).0)
  {
    assert f.mem.nextStore !in f.holds by {
      assert f.mem.nextStore !in Abs(f.mem, f.holds).stores;
    }
    AbsCreate(f.mem, f.holds, name, xml);
  }

  lemma WholeDelete(ok: Constraints, f: Fine, c: Client, name: string)
    requires HoldsOk(f.mem, f.holds, f.pcs.Keys) && Inv(Abs(f.mem, f.holds)) && MayRunWhole(f, By(c, DeleteStore(name)))
    requires forall x :: x in f.holds ==> InUse(f.mem.slots, x)
    ensures Commutes(ok, f.mem, f.holds, By(c, DeleteStore(name)))
    ensures LeavesHeld(f, Exec(ok, f.mem, By(c, DeleteStore(name))).0)
  {
    AbsFind(f.mem, f.holds, name);
    AbsDelete(f.mem, f.holds, name);
  }

  lemma WholeDisconnect(ok: Constraints, f: Fine, c: Client)
    requires HoldsOk(f.mem, f.holds, f.pcs.Keys) && MayRunWhole(f, By(c, Disconnect))
    ensures Commutes(ok, f.mem, f.holds, By(c, Disconnect))
    ensures LeavesHeld(f, Exec(ok, f.mem, By(c, Disconnect)).0)
  {
    var m, a := f.mem, Abs(f.mem, f.holds);
    if m.slots[c].ds.Some? {
      var x := m.slots[c].ds.value;
      var t := Unlock(Abort(m.stores[x].st, c).0, c).0;
      if x in f.holds {
        assert t == m.stores[x].st && Unlock(Abort(a.stores[x].st, c).0, c).0 == a.stores[x].st;
        assert Put(m, x, t) == m && Put(a, x, a.stores[x].st) == a;
      } else {
        AbsPut(m, f.holds, x, t);
      }
    }
  }

  // A whole command is the same command on the atomic state.
  lemma WholeCommutes(ok: Constraints, f: Fine, e: Event)
    requires HoldsOk(f.mem, f.holds, f.pcs.Keys) && Inv(Abs(f.mem, f.holds)) && MayRunWhole(f, e)
    requires f.mutex.None? ==> forall x :: x in f.holds ==> InUse(f.mem.slots, x)
    ensures Commutes(ok, f.mem, f.holds, e)
    ensures LeavesHeld(f, Exec(ok, f.mem, e).0)
  {
    if e.By? {
      if IsStoreCommand(e.cmd) {
        WholeStoreCommand(ok, f, e.c, e.cmd);
      } else {
        match e.cmd
        case SetStore(name) => WholeSet(ok, f, e.c, name);
        case CreateStore(name, xml) => WholeCreate(ok, f, e.c, name, xml);
        case DeleteStore(name) => WholeDelete(ok, f, e.c, name);
        case Disconnect => WholeDisconnect(ok, f, e.c);
        case OpCmd(op) =>
      }
    }
  }

  // ----- The small steps -----

  // Store x becomes t and its hold h.
  function Touch(f: Fine, x: StoreId, t: Store, h: Option<Hold>): Fine
    requires x in f.mem.stores
  {
    f.(mem := Put(f.mem, x, t), holds := if h.None? then f.holds - {x} else f.holds[x := h.value])
  }

  function At(f: Fine, c: Client, pc: Pc): Fine {
    f.(pcs := f.pcs[c := pc])
  }

  function Idle(f: Fine, c: Client): Fine {
    f.(pcs := f.pcs - {c})
  }

  predicate Held(f: Fine, c: Client, x: StoreId) {
    x in f.holds && x in f.mem.stores && f.holds[x].c == c
  }

  // Client c is in an edit, in this phase.
  predicate Editing(f: Fine, c: Client) {
    c in f.pcs && f.pcs[c].InEdit? && Held(f, c, f.pcs[c].x)
  }

  predicate Copying(f: Fine, c: Client) {
    c in f.pcs && f.pcs[c].InCopy?
  }

  predicate Querying(f: Fine, c: Client) {
    c in f.pcs && f.pcs[c].InQuery? && Held(f, c, f.pcs[c].x)
  }

  predicate MayBegin(f: Fine, c: Client) {
    Connected(f.mem, c) && c !in f.pcs
  }

  predicate MayTake(f: Fine, c: Client, x: StoreId) {
    x in f.mem.stores && CanLock(f.mem.stores[x].st, c)
  }

  // Taking store x's lock; the lock is not counted.
  function Take(f: Fine, c: Client, x: StoreId): Fine
    requires x in f.mem.stores
  {
    var st := f.mem.stores[x].st;
    if Held(f, c, x) then f
    else Touch(f, x, Lock(st, c), Some(Hold(c, st.lockedBy == Some(c), None, false)))
  }

  // unlockDS by client c on a store it may or may not hold still.
  function LetGo(f: Fine, c: Client, x: StoreId): Fine {
    if Held(f, c, x) then Touch(f, x, Unlock(f.mem.stores[x].st, c).0, None) else f
  }

  // Both stores at once, when the copy takes effect.
  function Landed(f: Fine, c: Client, i: StoreId, j: StoreId, t: Xml): Fine
    requires Held(f, c, i) && Held(f, c, j)
  {
    var g := Touch(f, i, f.mem.stores[i].st, Some(f.holds[i].(done := true)));
    Touch(g, j, g.mem.stores[j].st.(doc := t), Some(g.holds[j].(done := true)))
  }

  ghost predicate CanAct(ok: Constraints, f: Fine, a: Action) {
    match a
    case Whole(e) => MayRunWhole(f, e)
    case BeginEdit(c, e) =>
      && MayBegin(f, c) && !Refused(e) && f.mem.slots[c].ds.Some? && MayTake(f, c, f.mem.slots[c].ds.value)
      && Defined(e, f.mem.stores[f.mem.slots[c].ds.value].st.doc)
    case CopyDoc(c) => Editing(f, c) && f.pcs[c].phase.Locked?
    case Scribble(c, _) => Editing(f, c) && f.pcs[c].phase.Copied?
    case Mutate(c) => Editing(f, c) && f.pcs[c].phase.Copied? && f.holds[f.pcs[c].x].shown.Some?
    case Validate(c) => Editing(f, c) && f.pcs[c].phase.Mutated?
    case Settle(c) =>
      Editing(f, c) && (f.pcs[c].phase.Judged? || f.pcs[c].phase.Stopped?) && f.holds[f.pcs[c].x].shown.Some?
    case BeginQuery(c, _) =>
      MayBegin(f, c) && f.mem.slots[c].ds.Some? && MayTake(f, c, f.mem.slots[c].ds.value)
    case ReadTree(c) => Querying(f, c) && !f.pcs[c].read
    case Release(c) => (Editing(f, c) && f.pcs[c].phase.Settled?) || (Querying(f, c) && f.pcs[c].read)
    case BeginCopy(c, _, _) => MayBegin(f, c) && f.mutex.None?
    case LockSource(c) =>
      && Copying(f, c) && f.pcs[c].copying.HasMutex?
      && (var i := FindStore(f.mem, f.pcs[c].fromName); i.Some? ==> MayTake(f, c, i.value))
    case LockTarget(c) =>
      && Copying(f, c) && f.pcs[c].copying.HasSource? && Held(f, c, f.pcs[c].copying.i)
      && (var j := FindStore(f.mem, f.pcs[c].toName); j.Some? ==> MayTake(f, c, j.value))
    case Duplicate(c) => Copying(f, c) && f.pcs[c].copying.HasBoth? && f.pcs[c].copying.i in f.mem.stores
    case Install(c) =>
      && Copying(f, c) && f.pcs[c].copying.Duplicated?
      && Held(f, c, f.pcs[c].copying.i) && Held(f, c, f.pcs[c].copying.j)
    case UnlockSource(c) => Copying(f, c) && f.pcs[c].copying.Installed?
    case UnlockTarget(c) => Copying(f, c) && f.pcs[c].copying.Unlocking?
  }

  ghost function Act(ok: Constraints, f: Fine, a: Action): Fine
    requires CanAct(ok, f, a)
  {
    match a
    case Whole(e) => f.(mem := Exec(ok, f.mem, e).0)
    case BeginEdit(c, e) =>
      var x := f.mem.slots[c].ds.value;
      At(Take(f, c, x), c, InEdit(x, e, Locked))
    case CopyDoc(c) =>
      var x := f.pcs[c].x;
      var st := f.mem.stores[x].st;
      At(Touch(f, x, st, Some(f.holds[x].(shown := Some(st.doc)))), c, f.pcs[c].(phase := Copied))
    case Scribble(c, tree) =>
      var x := f.pcs[c].x;
      Touch(f, x, f.mem.stores[x].st.(doc := tree), Some(f.holds[x]))
    case Mutate(c) =>
      var x := f.pcs[c].x;
      (match Try(f.pcs[c].edit, f.holds[x].shown.value)
       case Stop(n) => At(f, c, f.pcs[c].(phase := Stopped(n)))
       case Tentative(t, n) =>
         At(Touch(f, x, f.mem.stores[x].st.(doc := t), Some(f.holds[x])), c, f.pcs[c].(phase := Mutated(n))))
    case Validate(c) =>
      var x := f.pcs[c].x;
      At(f, c, f.pcs[c].(phase := Judged(f.pcs[c].phase.count, ok(x)(f.mem.stores[x].st.doc))))
    case Settle(c) =>
      var x := f.pcs[c].x;
      At(Touch(f, x, f.mem.stores[x].st.(doc := Kept(f, c)), Some(f.holds[x].(done := true))),
         c, f.pcs[c].(phase := Settled))
    case BeginQuery(c, q) =>
      var x := f.mem.slots[c].ds.value;
      At(Take(f, c, x), c, InQuery(x, q, false))
    case ReadTree(c) =>
      var x := f.pcs[c].x;
      At(Touch(f, x, f.mem.stores[x].st, Some(f.holds[x].(done := true))), c, f.pcs[c].(read := true))
    case Release(c) => Idle(LetGo(f, c, f.pcs[c].x), c)
    case BeginCopy(c, from, to) => At(f, c, InCopy(from, to, HasMutex)).(mutex := Some(c))
    case LockSource(c) =>
      (match FindStore(f.mem, f.pcs[c].fromName)
       case None => Idle(f, c).(mutex := None)
       case Some(i) => At(Take(f, c, i), c, f.pcs[c].(copying := HasSource(i))))
    case LockTarget(c) =>
      var i := f.pcs[c].copying.i;
      (match FindStore(f.mem, f.pcs[c].toName)
       case None =>
         At(Touch(f, i, f.mem.stores[i].st, Some(f.holds[i].(done := true))), c, f.pcs[c].(copying := Unlocking(i)))
       case Some(j) => At(Take(f, c, j), c, f.pcs[c].(copying := HasBoth(i, j))))
    case Duplicate(c) =>
      var i := f.pcs[c].copying.i;
      At(f, c, f.pcs[c].(copying := Duplicated(i, f.pcs[c].copying.j, f.mem.stores[i].st.doc)))
    case Install(c) =>
      var i, j := f.pcs[c].copying.i, f.pcs[c].copying.j;
      At(Landed(f, c, i, j, f.pcs[c].copying.copy), c, f.pcs[c].(copying := Installed(i, j)))
    case UnlockSource(c) =>
      At(LetGo(f, c, f.pcs[c].copying.i), c, f.pcs[c].(copying := Unlocking(f.pcs[c].copying.j)))
    case UnlockTarget(c) => Idle(LetGo(f, c, f.pcs[c].copying.j), c).(mutex := None)
  }

  // The tree an edit leaves in the store: the changed copy, or the one kept aside.
  ghost function Kept(f: Fine, c: Client): Xml
    requires Editing(f, c) && f.holds[f.pcs[c].x].shown.Some?
  {
    var now, aside := f.mem.stores[f.pcs[c].x].st.doc, f.holds[f.pcs[c].x].shown.value;
    if !f.pcs[c].phase.Judged? then aside
    else
      match f.pcs[c].edit.mode
      case ModifyWithValidation => if f.pcs[c].phase.verdict then now else aside
      case ModifyNoValidation => now
      case ValidateNoModification => aside
      case UnknownMode => aside
  }

  // The number an edit reports.
  ghost function Reported(f: Fine, c: Client): int
    requires Editing(f, c) && (f.pcs[c].phase.Judged? || f.pcs[c].phase.Stopped?)
  {
    match f.pcs[c].phase
    case Stopped(n) => n
    case Judged(n, verdict) =>
      (match f.pcs[c].edit.mode
       case ModifyWithValidation => if verdict then n else -1
       case ModifyNoValidation => n
       case ValidateNoModification => if verdict then n else -2
       case UnknownMode => -1)
    case _ => 0
  }

  // The atomic command that takes effect in this step, with the client's reply.
  ghost function Label(ok: Constraints, f: Fine, a: Action): Option<(Event, Reply)>
    requires CanAct(ok, f, a)
  {
    match a
    case Whole(e) => Some((e, Exec(ok, f.mem, e).1))
    case Settle(c) => Some((By(c, EditNodes(f.pcs[c].edit)), Answer(Reported(f, c))))
    case ReadTree(c) =>
      Some((By(c, Query(f.pcs[c].query)), Result(f.pcs[c].query(f.mem.stores[f.pcs[c].x].st.doc))))
    case LockSource(c) =>
      if FindStore(f.mem, f.pcs[c].fromName).None? then
        Some((By(c, CopyStore(f.pcs[c].fromName, f.pcs[c].toName)), Answer(0)))
      else None
    case LockTarget(c) =>
      if FindStore(f.mem, f.pcs[c].toName).None? then
        Some((By(c, CopyStore(f.pcs[c].fromName, f.pcs[c].toName)), Answer(0)))
      else None
    case Install(c) => Some((By(c, CopyStore(f.pcs[c].fromName, f.pcs[c].toName)), Answer(1)))
    case _ => None
  }

  // ----- What every small step keeps -----

  // Client c's place in its command fits the state.
  ghost predicate PcOk(ok: Constraints, f: Fine, c: Client)
    requires c in f.pcs
  {
    match f.pcs[c]
    case InEdit(x, e, phase) => Current(f.mem, c, x) && Held(f, c, x) && !Refused(e) && EditOk(ok, f, x, e, phase)
    case InQuery(x, q, read) =>
      Current(f.mem, c, x) && Held(f, c, x) && f.holds[x].shown.None? && f.holds[x].done == read
    case InCopy(from, to, phase) => f.mutex == Some(c) && CopyOk(f, c, from, to, phase)
  }

  ghost predicate EditOk(ok: Constraints, f: Fine, x: StoreId, e: Edit, phase: EditPhase)
    requires x in f.holds && x in f.mem.stores
  {
    var h, now := f.holds[x], f.mem.stores[x].st.doc;
    && (h.done <==> phase.Settled?) && (h.shown.None? <==> phase.Locked?)
    && (phase.Locked? ==> Defined(e, now))
    && (h.shown.Some? && !h.done ==>
         var aside := h.shown.value;
         && Defined(e, aside)
         && (phase.Stopped? ==> Try(e, aside) == Stop(phase.n))
         && (phase.Mutated? ==> Try(e, aside) == Tentative(now, phase.count))
         && (phase.Judged? ==> Try(e, aside) == Tentative(now, phase.count) && phase.verdict == ok(x)(now)))
  }

  ghost predicate Plain(f: Fine, c: Client, x: StoreId, done: bool) {
    Held(f, c, x) && f.holds[x].shown.None? && f.holds[x].done == done
  }

  ghost predicate CopyOk(f: Fine, c: Client, from: string, to: string, phase: CopyPhase) {
    match phase
    case HasMutex => true
    case HasSource(i) => HasName(f.mem, i, from) && Plain(f, c, i, false)
    case HasBoth(i, j) =>
      HasName(f.mem, i, from) && Plain(f, c, i, false) && HasName(f.mem, j, to) && Plain(f, c, j, false)
    case Duplicated(i, j, t) =>
      && HasName(f.mem, i, from) && Plain(f, c, i, false) && HasName(f.mem, j, to) && Plain(f, c, j, false)
      && t == f.mem.stores[i].st.doc
    case Installed(i, j) => Plain(f, c, i, true) && Plain(f, c, j, true)
    case Unlocking(j) => Held(f, c, j) ==> Plain(f, c, j, true)
  }

  // The stores a client's place says it holds.
  predicate Owns(pc: Pc, x: StoreId) {
    match pc
    case InEdit(y, _, _) => x == y
    case InQuery(y, _, _) => x == y
    case InCopy(_, _, HasMutex) => false
    case InCopy(_, _, HasSource(i)) => x == i
    case InCopy(_, _, HasBoth(i, j)) => x == i || x == j
    case InCopy(_, _, Duplicated(i, j, _)) => x == i || x == j
    case InCopy(_, _, Installed(i, j)) => x == i || x == j
    case InCopy(_, _, Unlocking(j)) => x == j
  }

  ghost predicate Core(ok: Constraints, f: Fine) {
    && HoldsOk(f.mem, f.holds, f.pcs.Keys)
    && (forall c :: c in f.pcs ==> Connected(f.mem, c) && PcOk(ok, f, c))
    && (forall x :: x in f.holds ==> Owns(f.pcs[f.holds[x].c], x))
    && (f.mutex.Some? ==> f.mutex.value in f.pcs && f.pcs[f.mutex.value].InCopy?)
  }

  ghost predicate FineInv(ok: Constraints, f: Fine) {
    Core(ok, f) && Inv(Abs(f.mem, f.holds))
  }

  // The step is invisible to the atomic state, or is one atomic command with the same reply.
  ghost predicate Simulates(ok: Constraints, f: Fine, a: Action, g: Fine)
    requires CanAct(ok, f, a)
  {
    match Label(ok, f, a)
    case None => Abs(g.mem, g.holds) == Abs(f.mem, f.holds)
    case Some((e, r)) =>
      var s := Abs(f.mem, f.holds);
      Enabled(s, e) && ScanExact(s, e) && Exec(ok, s, e) == (Abs(g.mem, g.holds), r)
  }

  lemma AbsTouch(f: Fine, x: StoreId, t: Store, h: Option<Hold>)
    requires x in f.mem.stores
    ensures var g := Touch(f, x, t, h);
            Abs(g.mem, g.holds) == Put(Abs(f.mem, f.holds), x, SeenBy(t, h))
  {
    var g := Touch(f, x, t, h);
    assert Abs(g.mem, g.holds).stores == Put(Abs(f.mem, f.holds), x, SeenBy(t, h)).stores;
  }

  lemma PutSame(s: State, x: StoreId)
    requires x in s.stores
    ensures Put(s, x, s.stores[x].st) == s
  {
    assert Put(s, x, s.stores[x].st).stores == s.stores;
  }

  // A client untouched by a step keeps its place valid.
  lemma OtherPc(ok: Constraints, f: Fine, g: Fine, d: Client)
    requires Core(ok, f) && d in f.pcs && d in g.pcs && g.pcs[d] == f.pcs[d]
    requires d < |g.mem.slots| == |f.mem.slots| && g.mem.slots[d] == f.mem.slots[d]
    requires f.pcs[d].InCopy? ==> g.mutex == f.mutex
    requires forall x :: Held(f, d, x) ==> Held(g, d, x) && g.holds[x] == f.holds[x] && g.mem.stores[x] == f.mem.stores[x]
    requires forall x :: Held(g, d, x) ==> Held(f, d, x)
    ensures Connected(g.mem, d) && PcOk(ok, g, d)
  {
    var pc := f.pcs[d];
    if !pc.InCopy? { assert Held(f, d, pc.x); }
  }

  // From f to g, the other clients' places, stores and holds stay as they are.
  ghost predicate LeavesOthers(f: Fine, g: Fine, c: Client) {
    && g.mem.slots == f.mem.slots
    && (forall d :: d != c && d in f.pcs ==> d in g.pcs && g.pcs[d] == f.pcs[d])
    && (forall d :: d != c && d in g.pcs ==> d in f.pcs)
    && (forall x :: x in f.holds && f.holds[x].c != c ==>
         && x in g.holds && g.holds[x] == f.holds[x]
         && (x in f.mem.stores ==> x in g.mem.stores && g.mem.stores[x] == f.mem.stores[x]))
    && (forall x :: x in g.holds && g.holds[x].c != c ==> x in f.holds && f.holds[x] == g.holds[x])
    && (forall d :: d != c && d in f.pcs && f.pcs[d].InCopy? ==> g.mutex == f.mutex)
  }

  // What client c holds in g, its place there says it holds.
  ghost predicate HoldsOwn(g: Fine, c: Client) {
    forall x :: x in g.holds && g.holds[x].c == c ==>
      && c in g.pcs && Owns(g.pcs[c], x) && x in g.mem.stores
      && g.mem.stores[x].st.lockedBy == Some(c) && (g.mem.stores[x].st.pre.Some? ==> g.holds[x].had)
  }

  lemma RebuildHolds(ok: Constraints, f: Fine, g: Fine, c: Client)
    requires Core(ok, f) && LeavesOthers(f, g, c) && HoldsOwn(g, c)
    ensures HoldsOk(g.mem, g.holds, g.pcs.Keys)
    ensures forall x :: x in g.holds ==> Owns(g.pcs[g.holds[x].c], x)
  {
  }

  lemma RebuildPcs(ok: Constraints, f: Fine, g: Fine, c: Client)
    requires Core(ok, f) && LeavesOthers(f, g, c)
    ensures forall d :: d in g.pcs && d != c ==> Connected(g.mem, d) && PcOk(ok, g, d)
  {
    forall d | d in g.pcs && d != c ensures Connected(g.mem, d) && PcOk(ok, g, d) {
      OtherPc(ok, f, g, d);
    }
  }

  // A step of client c that leaves the other clients alone.
  lemma Rebuild(ok: Constraints, f: Fine, g: Fine, c: Client)
    requires Core(ok, f) && LeavesOthers(f, g, c) && HoldsOwn(g, c)
    requires g.mutex.Some? ==> g.mutex.value in g.pcs && g.pcs[g.mutex.value].InCopy?
    requires c in g.pcs ==> Connected(g.mem, c) && PcOk(ok, g, c)
    ensures Core(ok, g)
  {
    RebuildHolds(ok, f, g, c);
    RebuildPcs(ok, f, g, c);
  }

  // There is no copy beside that of the mutex holder.
  lemma OneCopy(ok: Constraints, f: Fine, c: Client)
    requires Core(ok, f) && ((c in f.pcs && f.pcs[c].InCopy?) || f.mutex.None?)
    ensures forall d :: d in f.pcs && d != c ==> !f.pcs[d].InCopy?
  {
    if c in f.pcs { assert PcOk(ok, f, c); }
    forall d | d in f.pcs && d != c ensures !f.pcs[d].InCopy? { assert PcOk(ok, f, d); }
  }

  // What an edit, query or copy holds and shows is what the atomic state has.
  lemma SeenHeld(ok: Constraints, f: Fine, c: Client, x: StoreId)
    requires Core(ok, f) && Held(f, c, x)
    ensures var st, s := f.mem.stores[x].st, Abs(f.mem, f.holds);
            && st.lockedBy == Some(c) && c in f.pcs && Owns(f.pcs[c], x) && Connected(f.mem, c)
            && x in s.stores && s.stores[x].name == f.mem.stores[x].name
            && s.stores[x].st == SeenBy(st, Some(f.holds[x])) && CanLock(s.stores[x].st, c)
  {
  }

  lemma TakeSilent(ok: Constraints, f: Fine, c: Client, x: StoreId)
    requires Core(ok, f) && MayTake(f, c, x)
    requires f.mem.stores[x].st.pre.Some? ==> f.mem.stores[x].st.lockedBy.Some?
    ensures var g := Take(f, c, x);
            && Held(g, c, x) && g.mem.slots == f.mem.slots && g.pcs == f.pcs && g.mutex == f.mutex
            && Abs(g.mem, g.holds) == Abs(f.mem, f.holds)
            && (forall y :: y != x ==> HoldOf(g.holds, y) == HoldOf(f.holds, y))
            && g.mem.stores.Keys == f.mem.stores.Keys
            && (forall y :: y in f.mem.stores && y != x ==> g.mem.stores[y] == f.mem.stores[y])
            && g.mem.stores[x] == f.mem.stores[x].(st := Lock(f.mem.stores[x].st, c))
            && (x in f.holds ==> g.holds[x] == f.holds[x] && f.holds[x].c == c)
            && (x !in f.holds ==> g.holds[x] == Hold(c, f.mem.stores[x].st.lockedBy == Some(c), None, false))
            && (g.mem.stores[x].st.pre.Some? ==> g.holds[x].had)
  {
    if !Held(f, c, x) {
      var st := f.mem.stores[x].st;
      assert x !in f.holds;
      AbsTouch(f, x, Lock(st, c), Some(Hold(c, st.lockedBy == Some(c), None, false)));
      PutSame(Abs(f.mem, f.holds), x);
    } else {
      assert f.mem.stores[x] == f.mem.stores[x].(st := Lock(f.mem.stores[x].st, c));
    }
  }

  // Only the holder of a store's lock has a transaction open on it.
  lemma OpenIsLocked(f: Fine, x: StoreId)
    requires HoldsOk(f.mem, f.holds, f.pcs.Keys) && LockInv(Abs(f.mem, f.holds)) && x in f.mem.stores
    ensures f.mem.stores[x].st.pre.Some? ==> f.mem.stores[x].st.lockedBy.Some?
  {
    assert x in Abs(f.mem, f.holds).stores;
  }

  // Client c holds no store but those of a place.
  ghost predicate OnlyOwns(f: Fine, c: Client, pc: Pc) {
    forall x :: x in f.holds && f.holds[x].c == c ==> Owns(pc, x)
  }

  lemma TouchLeaves(f: Fine, c: Client, x: StoreId, t: Store, h: Option<Hold>)
    requires x in f.mem.stores && (x in f.holds ==> f.holds[x].c == c) && (h.Some? ==> h.value.c == c)
    ensures LeavesOthers(f, Touch(f, x, t, h), c)
  {
  }

  lemma PlaceLeaves(f: Fine, g: Fine, c: Client, pc: Pc)
    requires LeavesOthers(f, g, c)
    ensures LeavesOthers(f, At(g, c, pc), c) && LeavesOthers(f, Idle(g, c), c)
  {
  }

  lemma LeavesTwice(f: Fine, g: Fine, h: Fine, c: Client)
    requires LeavesOthers(f, g, c) && LeavesOthers(g, h, c)
    ensures LeavesOthers(f, h, c)
  {
  }

  lemma TouchOwns(f: Fine, c: Client, x: StoreId, t: Store, h: Hold, pc: Pc)
    requires x in f.mem.stores && HoldsOk(f.mem, f.holds, f.pcs.Keys) && OnlyOwns(f, c, pc) && h.c == c && Owns(pc, x)
    requires t.lockedBy == Some(c) && (t.pre.Some? ==> h.had)
    ensures HoldsOwn(At(Touch(f, x, t, Some(h)), c, pc), c)
  {
  }

  // A step of c on a store that only c may hold.
  lemma TouchKeeps(ok: Constraints, f: Fine, c: Client, x: StoreId, t: Store, h: Hold, pc: Pc)
    requires Core(ok, f) && x in f.mem.stores && OnlyOwns(f, c, pc) && (x in f.holds ==> f.holds[x].c == c)
    requires (f.mutex == Some(c) ==> pc.InCopy?) && Connected(f.mem, c) && Owns(pc, x)
    requires h.c == c && t.lockedBy == Some(c) && (t.pre.Some? ==> h.had)
    requires var g := At(Touch(f, x, t, Some(h)), c, pc); PcOk(ok, g, c)
    ensures Core(ok, At(Touch(f, x, t, Some(h)), c, pc))
  {
    TouchLeaves(f, c, x, t, Some(h));
    PlaceLeaves(f, Touch(f, x, t, Some(h)), c, pc);
    TouchOwns(f, c, x, t, h, pc);
    Rebuild(ok, f, At(Touch(f, x, t, Some(h)), c, pc), c);
  }

  lemma IdleOwnsNone(ok: Constraints, f: Fine, c: Client)
    requires Core(ok, f) && c !in f.pcs
    ensures (forall x :: x in f.holds ==> f.holds[x].c != c) && f.mutex != Some(c)
  {
  }

  lemma BusyOwns(ok: Constraints, f: Fine, c: Client, pc: Pc)
    requires Core(ok, f) && c in f.pcs
    requires forall x :: Owns(f.pcs[c], x) ==> Owns(pc, x)
    ensures OnlyOwns(f, c, pc) && (f.mutex == Some(c) ==> f.pcs[c].InCopy?)
  {
  }

  // A client takes a lock and moves on in its command.
  lemma TakeKeeps(ok: Constraints, f: Fine, c: Client, x: StoreId, pc: Pc)
    requires FineInv(ok, f) && Connected(f.mem, c) && MayTake(f, c, x) && !Held(f, c, x) && Owns(pc, x) && OnlyOwns(f, c, pc)
    requires f.mutex == Some(c) ==> pc.InCopy?
    requires PcOk(ok, At(Take(f, c, x), c, pc), c)
    ensures var g := At(Take(f, c, x), c, pc); Core(ok, g) && Abs(g.mem, g.holds) == Abs(f.mem, f.holds)
  {
    var st := f.mem.stores[x].st;
    OpenIsLocked(f, x);
    TakeSilent(ok, f, c, x);
    assert x !in f.holds;
    TouchKeeps(ok, f, c, x, Lock(st, c), Hold(c, st.lockedBy == Some(c), None, false), pc);
  }

  lemma SimBeginEdit(ok: Constraints, f: Fine, c: Client, e: Edit)
    requires FineInv(ok, f) && CanAct(ok, f, BeginEdit(c, e))
    ensures Core(ok, Act(ok, f, BeginEdit(c, e))) && Simulates(ok, f, BeginEdit(c, e), Act(ok, f, BeginEdit(c, e)))
  {
    IdleOwnsNone(ok, f, c);
    TakeKeeps(ok, f, c, f.mem.slots[c].ds.value, InEdit(f.mem.slots[c].ds.value, e, Locked));
  }

  lemma SimBeginQuery(ok: Constraints, f: Fine, c: Client, q: Xml -> Option<string>)
    requires FineInv(ok, f) && CanAct(ok, f, BeginQuery(c, q))
    ensures Core(ok, Act(ok, f, BeginQuery(c, q))) && Simulates(ok, f, BeginQuery(c, q), Act(ok, f, BeginQuery(c, q)))
  {
    IdleOwnsNone(ok, f, c);
    TakeKeeps(ok, f, c, f.mem.slots[c].ds.value, InQuery(f.mem.slots[c].ds.value, q, false));
  }

  // A step of c on a store it holds.
  lemma SimTouch(ok: Constraints, f: Fine, c: Client, x: StoreId, t: Store, h: Hold, pc: Pc)
    requires Core(ok, f) && Held(f, c, x) && c in f.pcs && pc.InCopy? == f.pcs[c].InCopy?
    requires (forall y :: Owns(f.pcs[c], y) ==> Owns(pc, y)) && Owns(pc, x)
    requires h.c == c && t.lockedBy == Some(c) && (t.pre.Some? ==> h.had)
    requires var g := At(Touch(f, x, t, Some(h)), c, pc); PcOk(ok, g, c)
    ensures var g := At(Touch(f, x, t, Some(h)), c, pc);
            Core(ok, g) && Abs(g.mem, g.holds) == Put(Abs(f.mem, f.holds), x, SeenBy(t, Some(h)))
  {
    AbsTouch(f, x, t, Some(h));
    BusyOwns(ok, f, c, pc);
    TouchKeeps(ok, f, c, x, t, h, pc);
  }

  lemma SimCopyDoc(ok: Constraints, f: Fine, c: Client)
    requires Core(ok, f) && CanAct(ok, f, CopyDoc(c))
    ensures var g := Act(ok, f, CopyDoc(c)); Core(ok, g) && Simulates(ok, f, CopyDoc(c), g)
  {
    var x := f.pcs[c].x;
    var st := f.mem.stores[x].st;
    SeenHeld(ok, f, c, x);
    PutSame(Abs(f.mem, f.holds), x);
    PutSame(f.mem, x);
    assert PcOk(ok, f, c);
    SimTouch(ok, f, c, x, st, f.holds[x].(shown := Some(st.doc)), f.pcs[c].(phase := Copied));
  }

  lemma SimScribble(ok: Constraints, f: Fine, c: Client, tree: Xml)
    requires Core(ok, f) && CanAct(ok, f, Scribble(c, tree))
    ensures var g := Act(ok, f, Scribble(c, tree)); Core(ok, g) && Simulates(ok, f, Scribble(c, tree), g)
  {
    var x := f.pcs[c].x;
    SeenHeld(ok, f, c, x);
    PutSame(Abs(f.mem, f.holds), x);
    assert PcOk(ok, f, c);
    assert f.pcs[c := f.pcs[c]] == f.pcs;
    SimTouch(ok, f, c, x, f.mem.stores[x].st.(doc := tree), f.holds[x], f.pcs[c]);
  }

  lemma SimMutate(ok: Constraints, f: Fine, c: Client)
    requires Core(ok, f) && CanAct(ok, f, Mutate(c))
    ensures var g := Act(ok, f, Mutate(c)); Core(ok, g) && Simulates(ok, f, Mutate(c), g)
  {
    var x := f.pcs[c].x;
    var st, h := f.mem.stores[x].st, f.holds[x];
    SeenHeld(ok, f, c, x);
    PutSame(Abs(f.mem, f.holds), x);
    PutSame(f.mem, x);
    assert PcOk(ok, f, c);
    var attempt := Try(f.pcs[c].edit, h.shown.value);
    if attempt.Stop? {
      assert f.holds[x := h] == f.holds;
      SimTouch(ok, f, c, x, st, h, f.pcs[c].(phase := Stopped(attempt.result)));
    } else {
      SimTouch(ok, f, c, x, st.(doc := attempt.tree), h, f.pcs[c].(phase := Mutated(attempt.count)));
    }
  }

  lemma SimValidate(ok: Constraints, f: Fine, c: Client)
    requires Core(ok, f) && CanAct(ok, f, Validate(c))
    ensures var g := Act(ok, f, Validate(c)); Core(ok, g) && Simulates(ok, f, Validate(c), g)
  {
    var x := f.pcs[c].x;
    var st, h := f.mem.stores[x].st, f.holds[x];
    SeenHeld(ok, f, c, x);
    PutSame(Abs(f.mem, f.holds), x);
    PutSame(f.mem, x);
    assert PcOk(ok, f, c);
    assert f.holds[x := h] == f.holds;
    SimTouch(ok, f, c, x, st, h, f.pcs[c].(phase := Judged(f.pcs[c].phase.count, ok(x)(st.doc))));
  }

  // The edit takes effect: the tree that stays and the number are those of the atomic edit.
  lemma SettleIsEdit(ok: Constraints, f: Fine, c: Client)
    requires Core(ok, f) && CanAct(ok, f, Settle(c))
    ensures var x := f.pcs[c].x;
            var st, s := f.mem.stores[x].st, Seen(f.mem.stores[x].st, f.holds, x);
            EditStore(s, c, ok(x), f.pcs[c].edit) ==
            (SeenBy(st.(doc := Kept(f, c)), Some(f.holds[x].(done := true))), Reported(f, c))
  {
    SeenHeld(ok, f, c, f.pcs[c].x);
    assert PcOk(ok, f, c);
  }

  // What the atomic state knows of a store held in an edit or a query.
  lemma SeenCurrent(ok: Constraints, f: Fine, c: Client)
    requires Core(ok, f) && c in f.pcs && !f.pcs[c].InCopy?
    ensures var x, s := f.pcs[c].x, Abs(f.mem, f.holds);
            && Held(f, c, x) && Current(s, c, x)
            && s.stores[x].st == SeenBy(f.mem.stores[x].st, Some(f.holds[x])) && CanLock(s.stores[x].st, c)
  {
    assert PcOk(ok, f, c);
    SeenHeld(ok, f, c, f.pcs[c].x);
  }

  lemma EditOnCurrent(ok: Constraints, s: State, c: Client, x: StoreId, e: Edit)
    requires Current(s, c, x) && CanLock(s.stores[x].st, c) && !Refused(e) && Defined(e, s.stores[x].st.doc)
    ensures var (t, n) := EditStore(s.stores[x].st, c, ok(x), e);
            var ev := By(c, EditNodes(e));
            Enabled(s, ev) && ScanExact(s, ev) && Exec(ok, s, ev) == (Put(s, x, t), Answer(n))
  {
  }

  lemma QueryOnCurrent(ok: Constraints, s: State, c: Client, x: StoreId, q: Xml -> Option<string>)
    requires Current(s, c, x) && CanLock(s.stores[x].st, c)
    ensures var st := s.stores[x].st;
            var ev := By(c, Query(q));
            Enabled(s, ev) && ScanExact(s, ev) && Exec(ok, s, ev) == (Put(s, x, Unlock(Lock(st, c), c).0), Result(q(st.doc)))
  {
  }

  lemma SimSettle(ok: Constraints, f: Fine, c: Client)
    requires Core(ok, f) && CanAct(ok, f, Settle(c))
    ensures var g := Act(ok, f, Settle(c)); Core(ok, g) && Simulates(ok, f, Settle(c), g)
  {
    var x := f.pcs[c].x;
    var st, h := f.mem.stores[x].st, f.holds[x];
    SeenCurrent(ok, f, c);
    assert PcOk(ok, f, c);
    SettleIsEdit(ok, f, c);
    EditOnCurrent(ok, Abs(f.mem, f.holds), c, x, f.pcs[c].edit);
    SimTouch(ok, f, c, x, st.(doc := Kept(f, c)), h.(done := true), f.pcs[c].(phase := Settled));
  }

  lemma SimReadTree(ok: Constraints, f: Fine, c: Client)
    requires Core(ok, f) && CanAct(ok, f, ReadTree(c))
    ensures var g := Act(ok, f, ReadTree(c)); Core(ok, g) && Simulates(ok, f, ReadTree(c), g)
  {
    var x := f.pcs[c].x;
    var st, h := f.mem.stores[x].st, f.holds[x];
    SeenCurrent(ok, f, c);
    assert PcOk(ok, f, c);
    QueryOnCurrent(ok, Abs(f.mem, f.holds), c, x, f.pcs[c].query);
    SimTouch(ok, f, c, x, st, h.(done := true), f.pcs[c].(read := true));
  }

  // Letting go of a store whose command has taken effect shows nothing new.
  lemma LetGoSilent(ok: Constraints, f: Fine, c: Client, x: StoreId)
    requires Core(ok, f) && (Held(f, c, x) ==> f.holds[x].done)
    ensures var g := LetGo(f, c, x);
            && Abs(g.mem, g.holds) == Abs(f.mem, f.holds) && LeavesOthers(f, g, c)
            && g.pcs == f.pcs && g.mutex == f.mutex && !Held(g, c, x)
            && (forall y :: y != x || !Held(f, c, x) ==> HoldOf(g.holds, y) == HoldOf(f.holds, y))
            && (forall y :: y in f.mem.stores && (y != x || !Held(f, c, x)) ==>
                 y in g.mem.stores && g.mem.stores[y] == f.mem.stores[y])
  {
    if Held(f, c, x) {
      SeenHeld(ok, f, c, x);
      AbsTouch(f, x, Unlock(f.mem.stores[x].st, c).0, None);
      PutSame(Abs(f.mem, f.holds), x);
      TouchLeaves(f, c, x, Unlock(f.mem.stores[x].st, c).0, None);
    }
  }

  lemma LetGoOwns(ok: Constraints, f: Fine, c: Client, x: StoreId)
    requires Core(ok, f) && c in f.pcs
    ensures forall y :: y in LetGo(f, c, x).holds && LetGo(f, c, x).holds[y].c == c ==> y != x && Owns(f.pcs[c], y)
  {
  }

  lemma SimRelease(ok: Constraints, f: Fine, c: Client)
    requires Core(ok, f) && CanAct(ok, f, Release(c))
    ensures var g := Act(ok, f, Release(c)); Core(ok, g) && Simulates(ok, f, Release(c), g)
  {
    var x := f.pcs[c].x;
    assert PcOk(ok, f, c);
    LetGoSilent(ok, f, c, x);
    LetGoOwns(ok, f, c, x);
    PlaceLeaves(f, LetGo(f, c, x), c, f.pcs[c]);
    Rebuild(ok, f, Act(ok, f, Release(c)), c);
  }

  // ----- The steps of a copy -----

  // A step of the copying client that changes only its place and perhaps lets the mutex go.
  lemma CopyPlace(ok: Constraints, f: Fine, c: Client, g: Fine)
    requires Core(ok, f) && LeavesOthers(f, g.(mutex := f.mutex), c) && HoldsOwn(g, c)
    requires (c in f.pcs && f.pcs[c].InCopy?) || f.mutex.None?
    requires if c in g.pcs then g.mutex == Some(c) && g.pcs[c].InCopy? && Connected(g.mem, c) && PcOk(ok, g, c) else g.mutex.None?
    ensures Core(ok, g)
  {
    OneCopy(ok, f, c);
    assert LeavesOthers(f, g, c);
    Rebuild(ok, f, g, c);
  }

  lemma SameLeaves(f: Fine, c: Client)
    ensures LeavesOthers(f, f, c)
  {
  }

  lemma SimBeginCopy(ok: Constraints, f: Fine, c: Client, from: string, to: string)
    requires Core(ok, f) && CanAct(ok, f, BeginCopy(c, from, to))
    ensures var g := Act(ok, f, BeginCopy(c, from, to)); Core(ok, g) && Simulates(ok, f, BeginCopy(c, from, to), g)
  {
    IdleOwnsNone(ok, f, c);
    SameLeaves(f, c);
    PlaceLeaves(f, f, c, InCopy(from, to, HasMutex));
    CopyPlace(ok, f, c, Act(ok, f, BeginCopy(c, from, to)));
  }

  lemma CopyEnabled(ok: Constraints, f: Fine, c: Client, from: string, to: string)
    requires Connected(f.mem, c) && Inv(Abs(f.mem, f.holds))
    requires var i, j, s := FindStore(f.mem, from), FindStore(f.mem, to), Abs(f.mem, f.holds);
             i.Some? ==> CanLock(s.stores[i.value].st, c) && (j.Some? ==> CanLock(s.stores[j.value].st, c))
    ensures var s, e := Abs(f.mem, f.holds), By(c, CopyStore(from, to));
            Enabled(s, e) && ScanExact(s, e) && Exec(ok, s, e) == ExecCopy(s, c, from, to)
  {
    AbsFind(f.mem, f.holds, from);
    AbsFind(f.mem, f.holds, to);
  }

  lemma CopyNothing(ok: Constraints, f: Fine, c: Client, from: string, to: string)
    requires Connected(f.mem, c) && Inv(Abs(f.mem, f.holds)) && FindStore(f.mem, from).None?
    ensures var s, e := Abs(f.mem, f.holds), By(c, CopyStore(from, to));
            Enabled(s, e) && ScanExact(s, e) && Exec(ok, s, e) == (s, Answer(0))
  {
    AbsFind(f.mem, f.holds, from);
    CopyEnabled(ok, f, c, from, to);
  }

  lemma GiveUpCopy(ok: Constraints, f: Fine, c: Client)
    requires Core(ok, f) && Copying(f, c) && f.pcs[c].copying.HasMutex?
    ensures Core(ok, Idle(f, c).(mutex := None))
  {
    SameLeaves(f, c);
    PlaceLeaves(f, f, c, f.pcs[c]);
    CopyPlace(ok, f, c, Idle(f, c).(mutex := None));
  }

  lemma SimLockSource(ok: Constraints, f: Fine, c: Client)
    requires FineInv(ok, f) && CanAct(ok, f, LockSource(c))
    ensures var g := Act(ok, f, LockSource(c)); Core(ok, g) && Simulates(ok, f, LockSource(c), g)
  {
    match FindStore(f.mem, f.pcs[c].fromName)
    case None =>
      GiveUpCopy(ok, f, c);
      CopyNothing(ok, f, c, f.pcs[c].fromName, f.pcs[c].toName);
    case Some(i) =>
      FindStoreIs(f.mem, f.pcs[c].fromName);
      assert PcOk(ok, f, c);
      var pc := f.pcs[c].(copying := HasSource(i));
      BusyOwns(ok, f, c, pc);
      TakeKeeps(ok, f, c, i, pc);
  }

  lemma NamedIs(f: Fine, i: StoreId, name: string)
    requires NameInv(Abs(f.mem, f.holds)) && HasName(f.mem, i, name)
    ensures FindStore(f.mem, name) == Some(i)
  {
    AbsFind(f.mem, f.holds, name);
    FindStoreIs(f.mem, name);
    assert FindStore(f.mem, name).Some?;
    var s := Abs(f.mem, f.holds);
    assert i in s.stores && FindStore(f.mem, name).value in s.stores;
  }

  lemma PlainSeen(ok: Constraints, f: Fine, c: Client, i: StoreId)
    requires Core(ok, f) && Plain(f, c, i, false)
    ensures var s, st := Abs(f.mem, f.holds), f.mem.stores[i].st;
            i in s.stores && CanLock(s.stores[i].st, c) && Lock(s.stores[i].st, c) == st && s.stores[i].st.doc == st.doc
  {
    SeenHeld(ok, f, c, i);
  }

  // The atomic copy without a target, and with one.
  lemma CopyNowhere(ok: Constraints, f: Fine, c: Client, i: StoreId, from: string, to: string)
    requires FineInv(ok, f) && Connected(f.mem, c)
    requires HasName(f.mem, i, from) && Plain(f, c, i, false) && FindStore(f.mem, to).None?
    ensures var s, e := Abs(f.mem, f.holds), By(c, CopyStore(from, to));
            && Enabled(s, e) && ScanExact(s, e) && i in s.stores
            && Exec(ok, s, e) == (Put(s, i, Unlock(f.mem.stores[i].st, c).0), Answer(0))
  {
    NamedIs(f, i, from);
    PlainSeen(ok, f, c, i);
    CopyEnabled(ok, f, c, from, to);
    AbsFind(f.mem, f.holds, from);
    AbsFind(f.mem, f.holds, to);
  }

  lemma CopyLands(ok: Constraints, f: Fine, c: Client, i: StoreId, j: StoreId, from: string, to: string)
    requires FineInv(ok, f) && Connected(f.mem, c)
    requires HasName(f.mem, i, from) && Plain(f, c, i, false) && HasName(f.mem, j, to) && Plain(f, c, j, false)
    ensures var s, e := Abs(f.mem, f.holds), By(c, CopyStore(from, to));
            var si, sj := f.mem.stores[i].st, f.mem.stores[j].st;
            && Enabled(s, e) && ScanExact(s, e) && i in s.stores && j in s.stores
            && Exec(ok, s, e) == (if i == j then Put(s, i, Unlock(si, c).0)
                                  else Put(Put(s, i, Unlock(si, c).0), j, Unlock(sj.(doc := si.doc), c).0), Answer(1))
  {
    NamedIs(f, i, from);
    NamedIs(f, j, to);
    PlainSeen(ok, f, c, i);
    PlainSeen(ok, f, c, j);
    CopyEnabled(ok, f, c, from, to);
    AbsFind(f.mem, f.holds, from);
    AbsFind(f.mem, f.holds, to);
  }

  // Without a target the source is only let go.
  lemma NoTarget(ok: Constraints, f: Fine, c: Client, i: StoreId)
    requires Core(ok, f) && Copying(f, c) && f.pcs[c].copying == HasSource(i) && Held(f, c, i)
    ensures var pc := f.pcs[c].(copying := Unlocking(i));
            var g := At(Touch(f, i, f.mem.stores[i].st, Some(f.holds[i].(done := true))), c, pc);
            Core(ok, g) && Abs(g.mem, g.holds) == Put(Abs(f.mem, f.holds), i, Unlock(f.mem.stores[i].st, c).0)
  {
    assert PcOk(ok, f, c);
    SeenHeld(ok, f, c, i);
    SimTouch(ok, f, c, i, f.mem.stores[i].st, f.holds[i].(done := true), f.pcs[c].(copying := Unlocking(i)));
  }

  // The copy takes the target's lock, if it is not the source itself.
  lemma TakeTarget(ok: Constraints, f: Fine, c: Client, i: StoreId, j: StoreId)
    requires FineInv(ok, f) && Copying(f, c) && f.pcs[c].copying == HasSource(i)
    requires HasName(f.mem, j, f.pcs[c].toName) && MayTake(f, c, j)
    ensures var g := At(Take(f, c, j), c, f.pcs[c].(copying := HasBoth(i, j)));
            Core(ok, g) && Abs(g.mem, g.holds) == Abs(f.mem, f.holds)
  {
    var pc := f.pcs[c].(copying := HasBoth(i, j));
    assert PcOk(ok, f, c);
    BusyOwns(ok, f, c, pc);
    if Held(f, c, j) {
      assert Owns(f.pcs[c], j);
      SameLeaves(f, c);
      PlaceLeaves(f, f, c, pc);
      Rebuild(ok, f, At(f, c, pc), c);
    } else {
      TakeKeeps(ok, f, c, j, pc);
    }
  }

  lemma SimLockTarget(ok: Constraints, f: Fine, c: Client)
    requires FineInv(ok, f) && CanAct(ok, f, LockTarget(c))
    ensures var g := Act(ok, f, LockTarget(c)); Core(ok, g) && Simulates(ok, f, LockTarget(c), g)
  {
    var i := f.pcs[c].copying.i;
    match FindStore(f.mem, f.pcs[c].toName)
    case None =>
      assert PcOk(ok, f, c);
      NoTarget(ok, f, c, i);
      CopyNowhere(ok, f, c, i, f.pcs[c].fromName, f.pcs[c].toName);
    case Some(j) =>
      FindStoreIs(f.mem, f.pcs[c].toName);
      TakeTarget(ok, f, c, i, j);
  }

  lemma SimDuplicate(ok: Constraints, f: Fine, c: Client)
    requires Core(ok, f) && CanAct(ok, f, Duplicate(c))
    ensures var g := Act(ok, f, Duplicate(c)); Core(ok, g) && Simulates(ok, f, Duplicate(c), g)
  {
    var i, j := f.pcs[c].copying.i, f.pcs[c].copying.j;
    var pc := f.pcs[c].(copying := Duplicated(i, j, f.mem.stores[i].st.doc));
    assert PcOk(ok, f, c);
    BusyOwns(ok, f, c, pc);
    SameLeaves(f, c);
    PlaceLeaves(f, f, c, pc);
    Rebuild(ok, f, At(f, c, pc), c);
  }

  // ----- A copy takes effect -----

  lemma LandedLeaves(f: Fine, c: Client, i: StoreId, j: StoreId, t: Xml)
    requires Held(f, c, i) && Held(f, c, j)
    ensures LeavesOthers(f, Landed(f, c, i, j, t), c)
  {
    var g := Touch(f, i, f.mem.stores[i].st, Some(f.holds[i].(done := true)));
    TouchLeaves(f, c, i, f.mem.stores[i].st, Some(f.holds[i].(done := true)));
    TouchLeaves(g, c, j, g.mem.stores[j].st.(doc := t), Some(g.holds[j].(done := true)));
    LeavesTwice(f, g, Landed(f, c, i, j, t), c);
  }

  lemma LandedAbs(f: Fine, c: Client, i: StoreId, j: StoreId, t: Xml)
    requires Held(f, c, i) && Held(f, c, j) && t == f.mem.stores[i].st.doc
    ensures var s, g := Abs(f.mem, f.holds), Landed(f, c, i, j, t);
            var si, sj := f.mem.stores[i].st, f.mem.stores[j].st;
            Abs(g.mem, g.holds) == (if i == j then Put(s, i, Unlock(si, c).0)
                                    else Put(Put(s, i, Unlock(si, c).0), j, Unlock(sj.(doc := t), c).0))
  {
    var g := Touch(f, i, f.mem.stores[i].st, Some(f.holds[i].(done := true)));
    AbsTouch(f, i, f.mem.stores[i].st, Some(f.holds[i].(done := true)));
    AbsTouch(g, j, g.mem.stores[j].st.(doc := t), Some(g.holds[j].(done := true)));
    if i == j { PutSame(Abs(g.mem, g.holds), i); }
  }

  lemma LandedOwns(f: Fine, c: Client, i: StoreId, j: StoreId, t: Xml, pc: Pc)
    requires HoldsOk(f.mem, f.holds, f.pcs.Keys) && Held(f, c, i) && Held(f, c, j) && OnlyOwns(f, c, pc)
    ensures HoldsOwn(At(Landed(f, c, i, j, t), c, pc), c)
  {
  }

  lemma LandedCore(ok: Constraints, f: Fine, c: Client, i: StoreId, j: StoreId, t: Xml)
    requires Core(ok, f) && Copying(f, c) && f.pcs[c].copying == Duplicated(i, j, t) && Held(f, c, i) && Held(f, c, j)
    ensures Core(ok, At(Landed(f, c, i, j, t), c, f.pcs[c].(copying := Installed(i, j))))
  {
    var pc := f.pcs[c].(copying := Installed(i, j));
    assert PcOk(ok, f, c);
    BusyOwns(ok, f, c, pc);
    LandedLeaves(f, c, i, j, t);
    LandedOwns(f, c, i, j, t, pc);
    PlaceLeaves(f, Landed(f, c, i, j, t), c, pc);
    Rebuild(ok, f, At(Landed(f, c, i, j, t), c, pc), c);
  }

  lemma SimInstall(ok: Constraints, f: Fine, c: Client)
    requires FineInv(ok, f) && CanAct(ok, f, Install(c))
    ensures var g := Act(ok, f, Install(c)); Core(ok, g) && Simulates(ok, f, Install(c), g)
  {
    var i, j, t := f.pcs[c].copying.i, f.pcs[c].copying.j, f.pcs[c].copying.copy;
    assert PcOk(ok, f, c);
    LandedCore(ok, f, c, i, j, t);
    LandedAbs(f, c, i, j, t);
    CopyLands(ok, f, c, i, j, f.pcs[c].fromName, f.pcs[c].toName);
  }

  lemma SimUnlockSource(ok: Constraints, f: Fine, c: Client)
    requires Core(ok, f) && CanAct(ok, f, UnlockSource(c))
    ensures var g := Act(ok, f, UnlockSource(c)); Core(ok, g) && Simulates(ok, f, UnlockSource(c), g)
  {
    var i, j := f.pcs[c].copying.i, f.pcs[c].copying.j;
    assert PcOk(ok, f, c);
    LetGoSilent(ok, f, c, i);
    LetGoOwns(ok, f, c, i);
    PlaceLeaves(f, LetGo(f, c, i), c, f.pcs[c].(copying := Unlocking(j)));
    Rebuild(ok, f, At(LetGo(f, c, i), c, f.pcs[c].(copying := Unlocking(j))), c);
  }

  lemma SimUnlockTarget(ok: Constraints, f: Fine, c: Client)
    requires Core(ok, f) && CanAct(ok, f, UnlockTarget(c))
    ensures var g := Act(ok, f, UnlockTarget(c)); Core(ok, g) && Simulates(ok, f, UnlockTarget(c), g)
  {
    var j := f.pcs[c].copying.j;
    assert PcOk(ok, f, c);
    LetGoSilent(ok, f, c, j);
    LetGoOwns(ok, f, c, j);
    PlaceLeaves(f, LetGo(f, c, j), c, f.pcs[c]);
    CopyPlace(ok, f, c, Idle(LetGo(f, c, j), c).(mutex := None));
  }

  // ----- Every small step -----

  // While nobody copies, a held store is its holder's current store.
  lemma HeldInUse(ok: Constraints, f: Fine)
    requires Core(ok, f) && f.mutex.None?
    ensures forall x :: x in f.holds ==> InUse(f.mem.slots, x)
  {
    forall x | x in f.holds ensures InUse(f.mem.slots, x) {
      var c := f.holds[x].c;
      assert PcOk(ok, f, c) && Owns(f.pcs[c], x);
      assert Uses(f.mem.slots[c], x);
    }
  }

  lemma SlotsStay(ok: Constraints, f: Fine, e: Event, d: Client)
    requires MayRunWhole(f, e) && d in f.pcs && Connected(f.mem, d)
    ensures var after := Exec(ok, f.mem, e).0;
            d < |after.slots| == |f.mem.slots| && after.slots[d] == f.mem.slots[d]
  {
  }

  lemma WholeCore(ok: Constraints, f: Fine, after: State)
    requires Core(ok, f) && LeavesHeld(f, after)
    requires forall d :: d in f.pcs ==> d < |after.slots| == |f.mem.slots| && after.slots[d] == f.mem.slots[d]
    ensures Core(ok, f.(mem := after))
  {
    var g := f.(mem := after);
    forall d | d in g.pcs ensures Connected(g.mem, d) && PcOk(ok, g, d) {
      OtherPc(ok, f, g, d);
    }
  }

  lemma SimWhole(ok: Constraints, f: Fine, e: Event)
    requires FineInv(ok, f) && CanAct(ok, f, Whole(e))
    ensures var g := Act(ok, f, Whole(e)); Core(ok, g) && Simulates(ok, f, Whole(e), g)
  {
    if f.mutex.None? { HeldInUse(ok, f); }
    WholeCommutes(ok, f, e);
    forall d | d in f.pcs
      ensures var after := Exec(ok, f.mem, e).0; d < |after.slots| == |f.mem.slots| && after.slots[d] == f.mem.slots[d]
    {
      SlotsStay(ok, f, e, d);
    }
    WholeCore(ok, f, Exec(ok, f.mem, e).0);
  }

  // Every small step is silent, or is one atomic command with the reply the client gets.
  lemma SmallStep(ok: Constraints, f: Fine, a: Action)
    requires FineInv(ok, f) && CanAct(ok, f, a)
    ensures Core(ok, Act(ok, f, a)) && Simulates(ok, f, a, Act(ok, f, a))
  {
    match a
    case Whole(e) => SimWhole(ok, f, e);
    case BeginEdit(c, e) => SimBeginEdit(ok, f, c, e);
    case CopyDoc(c) => SimCopyDoc(ok, f, c);
    case Scribble(c, tree) => SimScribble(ok, f, c, tree);
    case Mutate(c) => SimMutate(ok, f, c);
    case Validate(c) => SimValidate(ok, f, c);
    case Settle(c) => SimSettle(ok, f, c);
    case BeginQuery(c, q) => SimBeginQuery(ok, f, c, q);
    case ReadTree(c) => SimReadTree(ok, f, c);
    case Release(c) => SimRelease(ok, f, c);
    case BeginCopy(c, from, to) => SimBeginCopy(ok, f, c, from, to);
    case LockSource(c) => SimLockSource(ok, f, c);
    case LockTarget(c) => SimLockTarget(ok, f, c);
    case Duplicate(c) => SimDuplicate(ok, f, c);
    case Install(c) => SimInstall(ok, f, c);
    case UnlockSource(c) => SimUnlockSource(ok, f, c);
    case UnlockTarget(c) => SimUnlockTarget(ok, f, c);
  }

  lemma SmallStepInv(ok: Constraints, f: Fine, a: Action)
    requires FineInv(ok, f) && CanAct(ok, f, a)
    ensures FineInv(ok, Act(ok, f, a))
  {
    SmallStep(ok, f, a);
    match Label(ok, f, a)
    case None =>
    case Some((e, r)) => StepKeeps(ok, Abs(f.mem, f.holds), e);
  }

  // ----- Whole interleaved runs -----

  ghost predicate FineStep(ok: Constraints, f: Fine, a: Action, g: Fine) {
    CanAct(ok, f, a) && g == Act(ok, f, a)
  }

  ghost predicate FineStepAt(ok: Constraints, fs: seq<Fine>, acts: seq<Action>, n: nat)
    requires n < |acts| < |fs|
  {
    FineStep(ok, fs[n], acts[n], fs[n + 1])
  }

  // fs[n] is the state before step acts[n]; nobody is in a command at first.
  ghost predicate IsFineRun(ok: Constraints, fs: seq<Fine>, acts: seq<Action>) {
    && |fs| == |acts| + 1
    && Init(fs[0].mem) && fs[0].holds == map[] && fs[0].pcs == map[] && fs[0].mutex.None?
    && forall n :: 0 <= n < |acts| ==> FineStepAt(ok, fs, acts, n)
  }

  // The commands that took effect in the first n steps, in that order, with their replies.
  ghost function History(ok: Constraints, fs: seq<Fine>, acts: seq<Action>, n: nat): seq<(Event, Reply)>
    requires IsFineRun(ok, fs, acts) && n <= |acts|
  {
    if n == 0 then []
    else
      assert FineStepAt(ok, fs, acts, n - 1);
      var l := Label(ok, fs[n - 1], acts[n - 1]);
      History(ok, fs, acts, n - 1) + if l.Some? then [l.value] else []
  }

  // The atomic run es with states ss has this history.
  ghost predicate Explains(ok: Constraints, ss: seq<State>, es: seq<Event>, history: seq<(Event, Reply)>) {
    && Runs.IsRun(ok, ss, es) && |es| == |history|
    && forall k :: 0 <= k < |es| ==> (es[k], Runs.ReplyAt(ok, ss, es, k)) == history[k]
  }

  lemma AbsQuiet(m: State)
    ensures Abs(m, map[]) == m
  {
    assert Abs(m, map[]).stores == m.stores;
  }

  lemma {:induction false} FineRunInv(ok: Constraints, fs: seq<Fine>, acts: seq<Action>, n: nat)
    requires IsFineRun(ok, fs, acts) && n <= |acts|
    ensures FineInv(ok, fs[n])
  {
    if n == 0 {
      AbsQuiet(fs[0].mem);
      InitInv(fs[0].mem);
    } else {
      FineRunInv(ok, fs, acts, n - 1);
      assert FineStepAt(ok, fs, acts, n - 1);
      SmallStepInv(ok, fs[n - 1], acts[n - 1]);
    }
  }

  lemma ExplainsMore(ok: Constraints, ss: seq<State>, es: seq<Event>, history: seq<(Event, Reply)>, e: Event, r: Reply)
    requires Explains(ok, ss, es, history)
    requires var s := ss[|es|]; Enabled(s, e) && ScanExact(s, e) && Exec(ok, s, e).1 == r
    ensures Explains(ok, ss + [Exec(ok, ss[|es|], e).0], es + [e], history + [(e, r)])
  {
    var ss', es' := ss + [Exec(ok, ss[|es|], e).0], es + [e];
    forall n | 0 <= n < |es'| ensures Runs.StepAt(ok, ss', es', n) {
      if n < |es| { assert Runs.StepAt(ok, ss, es, n); }
    }
    forall k | 0 <= k < |es'| ensures (es'[k], Runs.ReplyAt(ok, ss', es', k)) == (history + [(e, r)])[k] {
      if k < |es| { assert (es[k], Runs.ReplyAt(ok, ss, es, k)) == history[k]; }
    }
  }

  // A silent step adds nothing, any other its command.
  lemma ExplainsNext(ok: Constraints, t: State, l: Option<(Event, Reply)>,
                     ss: seq<State>, es: seq<Event>, history: seq<(Event, Reply)>)
    returns (ss': seq<State>, es': seq<Event>)
    requires Explains(ok, ss, es, history)
    requires match l
             case None => t == ss[|es|]
             case Some((e, r)) =>
               Enabled(ss[|es|], e) && ScanExact(ss[|es|], e) && Exec(ok, ss[|es|], e) == (t, r)
    ensures Explains(ok, ss', es', history + if l.Some? then [l.value] else [])
    ensures ss'[0] == ss[0] && ss'[|es'|] == t
  {
    match l
    case None =>
      ss', es' := ss, es;
      assert history + [] == history;
    case Some((e, r)) =>
      ExplainsMore(ok, ss, es, history, e, r);
      ss', es' := ss + [t], es + [e];
  }

  // Every interleaving of the small steps is explained by the atomic run of its commands in
  // the order they took effect: same replies, and the trees seen are the same at every point.
  lemma {:induction false} Linearizes(ok: Constraints, fs: seq<Fine>, acts: seq<Action>, n: nat)
    returns (ss: seq<State>, es: seq<Event>)
    requires IsFineRun(ok, fs, acts) && n <= |acts|
    ensures Explains(ok, ss, es, History(ok, fs, acts, n))
    ensures ss[0] == fs[0].mem && ss[|es|] == Abs(fs[n].mem, fs[n].holds)
    ensures fs[n].holds == map[] ==> ss[|es|] == fs[n].mem
  {
    if fs[n].holds == map[] { AbsQuiet(fs[n].mem); }
    if n == 0 { return [fs[0].mem], []; }
    ss, es := Linearizes(ok, fs, acts, n - 1);
    FineRunInv(ok, fs, acts, n - 1);
    assert FineStepAt(ok, fs, acts, n - 1);
    var f, a := fs[n - 1], acts[n - 1];
    SmallStep(ok, f, a);
    ss, es := ExplainsNext(ok, Abs(fs[n].mem, fs[n].holds), Label(ok, f, a), ss, es, History(ok, fs, acts, n - 1));
  }

  // ----- A command takes effect once, while it is in flight -----

  // The busy client's command has taken effect.
  predicate Effected(pc: Pc) {
    match pc
    case InEdit(_, _, phase) => phase.Settled?
    case InQuery(_, _, read) => read
    case InCopy(_, _, phase) => phase.Installed? || phase.Unlocking?
  }

  function CommandOf(pc: Pc): Command {
    match pc
    case InEdit(_, e, _) => EditNodes(e)
    case InQuery(_, q, _) => Query(q)
    case InCopy(from, to, _) => CopyStore(from, to)
  }

  // Step a takes effect as a command of client c.
  ghost predicate EffectOf(ok: Constraints, f: Fine, a: Action, c: Client)
    requires CanAct(ok, f, a)
  {
    var l := Label(ok, f, a);
    l.Some? && l.value.0.By? && l.value.0.c == c
  }

  // A client begins its command before the effect, has one effect, and ends after it.
  lemma EffectStep(ok: Constraints, f: Fine, a: Action, c: Client)
    requires CanAct(ok, f, a)
    ensures var g := Act(ok, f, a);
            && (c !in f.pcs && c in g.pcs ==> !Effected(g.pcs[c]) && !EffectOf(ok, f, a, c))
            && (c in f.pcs && EffectOf(ok, f, a, c) ==> !Effected(f.pcs[c]) && (c in g.pcs ==> Effected(g.pcs[c])))
            && (c in f.pcs && c in g.pcs && !EffectOf(ok, f, a, c) ==> Effected(g.pcs[c]) == Effected(f.pcs[c]))
            && (c in f.pcs && c !in g.pcs ==> Effected(f.pcs[c]) || EffectOf(ok, f, a, c))
  {
  }

  lemma CommandStep(ok: Constraints, f: Fine, a: Action, c: Client)
    requires CanAct(ok, f, a) && c in f.pcs
    ensures c in Act(ok, f, a).pcs ==> CommandOf(Act(ok, f, a).pcs[c]) == CommandOf(f.pcs[c])
    ensures EffectOf(ok, f, a, c) ==> Label(ok, f, a).value.0 == By(c, CommandOf(f.pcs[c]))
  {
  }

  ghost predicate EffectAt(ok: Constraints, fs: seq<Fine>, acts: seq<Action>, k: nat, c: Client)
    requires k < |acts| < |fs|
  {
    FineStepAt(ok, fs, acts, k) && EffectOf(ok, fs[k], acts[k], c)
  }

  // What a step, in which client c's command may take effect or not, makes of c's place.
  ghost predicate PlaceStep(now: map<Client, Pc>, next: map<Client, Pc>, hit: bool, c: Client) {
    && (c !in now && c in next ==> !Effected(next[c]) && !hit)
    && (c in now && hit ==> !Effected(now[c]) && (c in next ==> Effected(next[c])))
    && (c in now && c in next ==> CommandOf(next[c]) == CommandOf(now[c]))
    && (c in now && c in next && !hit ==> Effected(next[c]) == Effected(now[c]))
    && (c in now && c !in next ==> Effected(now[c]) || hit)
  }

  // Client c's places before and after each step, and whether the step is its effect.
  ghost predicate Places(pcs: seq<map<Client, Pc>>, hits: seq<bool>, c: Client) {
    |pcs| == |hits| + 1 && forall n :: 0 <= n < |hits| ==> PlaceStep(pcs[n], pcs[n + 1], hits[n], c)
  }

  // Client c is in a command after step b and up to step d.
  predicate Busy(pcs: seq<map<Client, Pc>>, c: Client, b: nat, d: nat)
    requires d < |pcs|
  {
    b < d && c !in pcs[b] && forall n :: b < n <= d ==> c in pcs[n]
  }

  lemma {:induction false} OnceSoFar(pcs: seq<map<Client, Pc>>, hits: seq<bool>, c: Client, b: nat, n: nat) returns (k: int)
    requires Places(pcs, hits, c) && n < |pcs| && Busy(pcs, c, b, n)
    ensures CommandOf(pcs[n][c]) == CommandOf(pcs[b + 1][c])
    ensures if Effected(pcs[n][c]) then b < k < n && hits[k] && CommandOf(pcs[k][c]) == CommandOf(pcs[b + 1][c]) else k == -1
    ensures forall j :: b <= j < n && j != k ==> !hits[j]
    decreases n
  {
    assert PlaceStep(pcs[n - 1], pcs[n], hits[n - 1], c);
    if n == b + 1 {
      k := -1;
    } else {
      k := OnceSoFar(pcs, hits, c, b, n - 1);
      if hits[n - 1] { k := n - 1; }
    }
  }

  lemma OnceInFlight(pcs: seq<map<Client, Pc>>, hits: seq<bool>, c: Client, b: nat, d: nat) returns (k: nat)
    requires Places(pcs, hits, c) && d < |hits| && Busy(pcs, c, b, d) && c !in pcs[d + 1]
    ensures b < k <= d && hits[k] && CommandOf(pcs[k][c]) == CommandOf(pcs[b + 1][c])
    ensures forall j :: b <= j <= d && j != k ==> !hits[j]
  {
    var j := OnceSoFar(pcs, hits, c, b, d);
    assert PlaceStep(pcs[d], pcs[d + 1], hits[d], c);
    k := if hits[d] then d else j;
  }

  ghost function PlacesOf(fs: seq<Fine>): (pcs: seq<map<Client, Pc>>)
    ensures |pcs| == |fs| && forall n :: 0 <= n < |fs| ==> pcs[n] == fs[n].pcs
  {
    seq(|fs|, n requires 0 <= n < |fs| => fs[n].pcs)
  }

  ghost function HitsOf(ok: Constraints, fs: seq<Fine>, acts: seq<Action>, c: Client): (hits: seq<bool>)
    requires |acts| < |fs|
    ensures |hits| == |acts| && forall n :: 0 <= n < |acts| ==> hits[n] == EffectAt(ok, fs, acts, n, c)
  {
    seq(|acts|, n requires 0 <= n < |acts| => EffectAt(ok, fs, acts, n, c))
  }

  lemma RunPlaces(ok: Constraints, fs: seq<Fine>, acts: seq<Action>, c: Client)
    requires IsFineRun(ok, fs, acts)
    ensures Places(PlacesOf(fs), HitsOf(ok, fs, acts, c), c)
  {
    forall n | 0 <= n < |acts| ensures PlaceStep(fs[n].pcs, fs[n + 1].pcs, EffectAt(ok, fs, acts, n, c), c) {
      assert FineStepAt(ok, fs, acts, n);
      EffectStep(ok, fs[n], acts[n], c);
      if c in fs[n].pcs { CommandStep(ok, fs[n], acts[n], c); }
    }
  }

  // Command e runs from step b to step d: in one step, or begun by its client at b and ended at d.
  ghost predicate Lasts(fs: seq<Fine>, acts: seq<Action>, e: Event, b: nat, d: nat)
    requires d < |acts| < |fs|
  {
    || (b == d && acts[b] == Whole(e))
    || InFlight(fs, e, b, d)
  }

  ghost predicate InFlight(fs: seq<Fine>, e: Event, b: nat, d: nat)
    requires d + 1 < |fs|
  {
    e.By? && Busy(PlacesOf(fs), e.c, b, d) && e.c !in fs[d + 1].pcs && e.cmd == CommandOf(fs[b + 1].pcs[e.c])
  }

  // No effect of client c from step b to step d, step k aside.
  ghost predicate NoEffectBut(ok: Constraints, fs: seq<Fine>, acts: seq<Action>, c: Client, b: nat, d: nat, k: nat)
    requires d < |acts| < |fs|
  {
    forall j :: b <= j <= d && j != k ==> !EffectAt(ok, fs, acts, j, c)
  }

  lemma EffectInFlight(ok: Constraints, fs: seq<Fine>, acts: seq<Action>, e: Event, b: nat, d: nat) returns (k: nat)
    requires IsFineRun(ok, fs, acts) && d < |acts| && InFlight(fs, e, b, d)
    ensures b < k <= d && EffectAt(ok, fs, acts, k, e.c) && NoEffectBut(ok, fs, acts, e.c, b, d, k)
    ensures e.c in fs[k].pcs && e.cmd == CommandOf(fs[k].pcs[e.c])
  {
    RunPlaces(ok, fs, acts, e.c);
    k := OnceInFlight(PlacesOf(fs), HitsOf(ok, fs, acts, e.c), e.c, b, d);
    assert e.c in PlacesOf(fs)[k];
  }

  // In every interleaving, between the begin and the end of a command exactly one step of its client takes
  // effect, and it is that command.
  lemma EffectOnce(ok: Constraints, fs: seq<Fine>, acts: seq<Action>, e: Event, b: nat, d: nat) returns (k: nat)
    requires IsFineRun(ok, fs, acts) && d < |acts| && Lasts(fs, acts, e, b, d)
    ensures b <= k <= d && FineStepAt(ok, fs, acts, k)
    ensures Label(ok, fs[k], acts[k]).Some? && Label(ok, fs[k], acts[k]).value.0 == e
    ensures e.By? ==> NoEffectBut(ok, fs, acts, e.c, b, d, k)
  {
    if InFlight(fs, e, b, d) {
      k := EffectInFlight(ok, fs, acts, e, b, d);
      CommandStep(ok, fs[k], acts[k], e.c);
    } else {
      k := b;
      assert FineStepAt(ok, fs, acts, b);
    }
  }

  // The command that takes effect at step k stands in the history behind those before it.
  lemma {:induction false} HistoryAt(ok: Constraints, fs: seq<Fine>, acts: seq<Action>, k: nat, n: nat)
    requires IsFineRun(ok, fs, acts) && k < n <= |acts| && FineStepAt(ok, fs, acts, k)
    requires Label(ok, fs[k], acts[k]).Some?
    ensures |History(ok, fs, acts, k)| < |History(ok, fs, acts, n)|
    ensures History(ok, fs, acts, n)[|History(ok, fs, acts, k)|] == Label(ok, fs[k], acts[k]).value
    decreases n
  {
    if k < n - 1 {
      HistoryAt(ok, fs, acts, k, n - 1);
    }
  }

  lemma {:induction false} HistoryGrows(ok: Constraints, fs: seq<Fine>, acts: seq<Action>, k: nat, n: nat)
    requires IsFineRun(ok, fs, acts) && k <= n <= |acts|
    ensures |History(ok, fs, acts, k)| <= |History(ok, fs, acts, n)|
    decreases n
  {
    if k < n { HistoryGrows(ok, fs, acts, k, n - 1); }
  }

  lemma HistoryBetween(ok: Constraints, fs: seq<Fine>, acts: seq<Action>, b: nat, k: nat, d: nat, n: nat)
    requires IsFineRun(ok, fs, acts) && b <= k <= d < n <= |acts| && FineStepAt(ok, fs, acts, k)
    requires Label(ok, fs[k], acts[k]).Some?
    ensures |History(ok, fs, acts, b)| <= |History(ok, fs, acts, k)| < |History(ok, fs, acts, d + 1)|
    ensures |History(ok, fs, acts, d + 1)| <= |History(ok, fs, acts, n)|
  {
    HistoryAt(ok, fs, acts, k, d + 1);
    HistoryGrows(ok, fs, acts, b, k);
    HistoryGrows(ok, fs, acts, d + 1, n);
  }

  // Place p in the history belongs to the steps b to d.
  ghost predicate Within(ok: Constraints, fs: seq<Fine>, acts: seq<Action>, p: nat, b: nat, d: nat)
    requires IsFineRun(ok, fs, acts) && b <= d < |acts|
  {
    |History(ok, fs, acts, b)| <= p < |History(ok, fs, acts, d + 1)|
  }

  // Where a command stands in the history: behind what took effect before it began.
  lemma Placed(ok: Constraints, fs: seq<Fine>, acts: seq<Action>, n: nat, e: Event, b: nat, d: nat) returns (p: nat)
    requires IsFineRun(ok, fs, acts) && b <= d < n <= |acts| && Lasts(fs, acts, e, b, d)
    ensures Within(ok, fs, acts, p, b, d) && p < |History(ok, fs, acts, n)|
    ensures History(ok, fs, acts, n)[p].0 == e
  {
    var k := EffectOnce(ok, fs, acts, e, b, d);
    p := |History(ok, fs, acts, k)|;
    HistoryAt(ok, fs, acts, k, n);
    HistoryBetween(ok, fs, acts, b, k, d, n);
  }

  // A command that ended before another began comes before it in the atomic order.
  lemma RealTime(ok: Constraints, fs: seq<Fine>, acts: seq<Action>, n: nat,
                 e1: Event, b1: nat, d1: nat, e2: Event, b2: nat, d2: nat) returns (p1: nat, p2: nat)
    requires IsFineRun(ok, fs, acts) && b1 <= d1 < b2 <= d2 < n <= |acts|
    requires Lasts(fs, acts, e1, b1, d1) && Lasts(fs, acts, e2, b2, d2)
    ensures p1 < p2 < |History(ok, fs, acts, n)|
    ensures History(ok, fs, acts, n)[p1].0 == e1 && History(ok, fs, acts, n)[p2].0 == e2
    ensures Within(ok, fs, acts, p1, b1, d1) && Within(ok, fs, acts, p2, b2, d2)
  {
    p1 := Placed(ok, fs, acts, n, e1, b1, d1);
    p2 := Placed(ok, fs, acts, n, e2, b2, d2);
    HistoryGrows(ok, fs, acts, d1 + 1, b2);
  }
}
