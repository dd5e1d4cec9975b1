// What holds over whole interleaved runs of the server.
module Runs {
  import opened Base
  import opened Trees
  import opened StoreSpec
  import opened Slots
  import opened OpSpec
  import opened Server

  // ss[n] is the state before event es[n]. Deletes never miss a user; Scans says when that is so.
  ghost predicate IsRun(ok: Constraints, ss: seq<State>, es: seq<Event>) {
    && |ss| == |es| + 1
    && Init(ss[0])
    && forall n :: 0 <= n < |es| ==> StepAt(ok, ss, es, n)
  }

  ghost predicate StepAt(ok: Constraints, ss: seq<State>, es: seq<Event>, n: nat)
    requires n < |es| < |ss|
  {
    Goes(ok, ss[n], es[n], ss[n + 1])
  }

  ghost predicate Goes(ok: Constraints, s: State, e: Event, t: State) {
    Enabled(s, e) && ScanExact(s, e) && t == Exec(ok, s, e).0
  }

  // The reply to event n of a run.
  ghost function ReplyAt(ok: Constraints, ss: seq<State>, es: seq<Event>, n: nat): Reply
    requires n < |es| < |ss|
  {
    if Enabled(ss[n], es[n]) then Exec(ok, ss[n], es[n]).1 else NoStore
  }

  lemma {:induction false} RunInv(ok: Constraints, ss: seq<State>, es: seq<Event>, n: nat)
    requires IsRun(ok, ss, es) && n < |ss|
    ensures Inv(ss[n])
  {
    if n == 0 {
      InitInv(ss[0]);
    } else {
      RunInv(ok, ss, es, n - 1);
      assert StepAt(ok, ss, es, n - 1);
      StepKeeps(ok, ss[n - 1], es[n - 1]);
    }
  }

  // What an event does to the transaction fields of store x.
  datatype Kind = Started(c: Client) | Committed(c: Client, id: int) | Aborted(c: Client)
                | RolledBack(c: Client, id: int) | Other

  ghost function KindOf(s: State, e: Event, x: StoreId): Kind {
    if !(e.By? && Current(s, e.c, x)) then Other
    else
      var st := s.stores[x].st;
      match e.cmd
      case StartTxn => if Start(st, e.c).1 == 1 then Started(e.c) else Other
      case CommitTxn => if MayCommit(st, e.c) then Committed(e.c, s.counter + 1) else Other
      case AbortTxn => if Abort(st, e.c).1 == 1 then Aborted(e.c) else Other
      case Disconnect => if Abort(st, e.c).1 == 1 then Aborted(e.c) else Other
      case RollbackTxn(id) => if Rollback(st, e.c, id).1 == 1 then RolledBack(e.c, id) else Other
      case _ => Other
  }

  // The number a command returns says what happened. What the client reads is another matter: see Told.
  lemma KindIsReply(ok: Constraints, s: State, e: Event, x: StoreId)
    requires Enabled(s, e) && e.By? && Current(s, e.c, x)
    ensures e.cmd.StartTxn? ==> (KindOf(s, e, x).Started? <==> Exec(ok, s, e).1 == Answer(1))
    ensures e.cmd.CommitTxn? && KindOf(s, e, x).Committed? ==> Exec(ok, s, e).1 == Answer(KindOf(s, e, x).id)
    ensures e.cmd.CommitTxn? && !KindOf(s, e, x).Committed? ==> Exec(ok, s, e).1 == Answer(0)
    ensures e.cmd.AbortTxn? ==> (KindOf(s, e, x).Aborted? <==> Exec(ok, s, e).1 == Answer(1))
    ensures e.cmd.RollbackTxn? ==> (KindOf(s, e, x).RolledBack? <==> Exec(ok, s, e).1 == Answer(1))
  {
  }

  ghost predicate KindFits(kind: Kind, st: Store, t: Store, counter: nat) {
    match kind
    case Started(c) => st.pre.None? && t == Store(st.doc, Some(st.doc), st.roll, st.last, Some(c))
    case Committed(c, id) => MayCommit(st, c) && id == counter + 1 && t == Store(st.doc, None, st.pre, id, None)
    case Aborted(c) => MayCommit(st, c) && t == Store(st.pre.value, None, st.roll, st.last, None)
    case RolledBack(_, id) =>
      st.pre.None? && st.roll.Some? && id == st.last && id >= 1 && t == Store(st.roll.value, None, None, 0, None)
    case Other => t.pre == st.pre && t.roll == st.roll && t.last == st.last
  }

  lemma OnStoreKind(ok: Constraints, s: State, c: Client, cmd: Command, x: StoreId)
    requires Enabled(s, By(c, cmd)) && Current(s, c, x) && IsStoreCommand(cmd)
    ensures var st := s.stores[x].st;
            KindFits(KindOf(s, By(c, cmd), x), st, OnStore(ok, x, st, c, s.counter, cmd).0, s.counter)
  {
  }

  lemma DisconnectKind(s: State, c: Client, x: StoreId)
    requires Current(s, c, x)
    ensures var st := s.stores[x].st;
            KindFits(KindOf(s, By(c, Disconnect), x), st, Unlock(Abort(st, c).0, c).0, s.counter)
  {
  }

  lemma CopyEffect(s: State, c: Client, f: string, g: string, x: StoreId)
    requires Enabled(s, By(c, CopyStore(f, g))) && x in s.stores
    ensures var t := ExecCopy(s, c, f, g).0;
            && x in t.stores && t.counter == s.counter
            && t.stores[x].st.pre == s.stores[x].st.pre
            && t.stores[x].st.roll == s.stores[x].st.roll && t.stores[x].st.last == s.stores[x].st.last
            && (s.stores[x].st.pre.Some? ==>
                 t.stores[x].st.lockedBy in {Some(c), s.stores[x].st.lockedBy})
            && (FindStore(s, g) != Some(x) ==> t.stores[x].st.doc == s.stores[x].st.doc)
  {
    FindStoreIs(s, f);
    FindStoreIs(s, g);
  }

  lemma KindEffect(ok: Constraints, s: State, e: Event, t: State, x: StoreId)
    requires Inv(s) && Goes(ok, s, e, t) && x in s.stores && x in t.stores
    ensures KindFits(KindOf(s, e, x), s.stores[x].st, t.stores[x].st, s.counter)
  {
    if e.By? && IsStoreCommand(e.cmd) {
      if Current(s, e.c, x) { OnStoreKind(ok, s, e.c, e.cmd, x); }
    } else if e.By? && e.cmd.Disconnect? {
      if Current(s, e.c, x) { DisconnectKind(s, e.c, x); }
    } else if e.By? && e.cmd.CopyStore? {
      CopyEffect(s, e.c, e.cmd.fromName, e.cmd.toName, x);
    }
  }

  lemma CounterGrows(ok: Constraints, s: State, e: Event, t: State)
    requires Goes(ok, s, e, t)
    ensures t.counter >= s.counter
  {
  }

  // A copy changes no store it cannot lock, and creates none.
  lemma CopySpares(s: State, c: Client, f: string, g: string, x: StoreId)
    requires Enabled(s, By(c, CopyStore(f, g)))
    ensures var t := ExecCopy(s, c, f, g).0;
            && (x in t.stores <==> x in s.stores)
            && (x in s.stores && !CanLock(s.stores[x].st, c) ==> t.stores[x] == s.stores[x])
  {
    FindStoreIs(s, f);
    FindStoreIs(s, g);
  }

  // A store that appears is new.
  lemma Birth(ok: Constraints, s: State, e: Event, t: State, x: StoreId)
    requires Inv(s) && Goes(ok, s, e, t)
    ensures x !in s.stores && x in t.stores ==>
              x >= s.nextStore && t.stores[x].st == Store(t.stores[x].st.doc, None, None, 0, None)
  {
    if e.By? && e.cmd.CopyStore? {
      CopySpares(s, e.c, e.cmd.fromName, e.cmd.toName, x);
    }
  }

  // A delete, whose scan misses no user, spares the stores in use.
  lemma DeleteSpares(s: State, c: Client, name: string, x: StoreId)
    requires LockInv(s) && ScanExact(s, By(c, DeleteStore(name))) && x in s.stores && s.stores[x].st.pre.Some?
    ensures var t := ExecDelete(s, name).0; x in t.stores && t.stores[x] == s.stores[x]
  {
    assert Uses(s.slots[s.stores[x].st.lockedBy.value], x);
  }

  // While a client's transaction is open on x, no other client's step touches x at all.
  lemma OthersCannotTouch(ok: Constraints, s: State, e: Event, t: State, x: StoreId)
    requires Inv(s) && Goes(ok, s, e, t) && x in s.stores && s.stores[x].st.pre.Some?
    requires e.By? ==> s.stores[x].st.lockedBy != Some(e.c)
    ensures x in t.stores && t.stores[x] == s.stores[x]
  {
    if e.By? {
      if e.cmd.CopyStore? {
        CopySpares(s, e.c, e.cmd.fromName, e.cmd.toName, x);
      } else if e.cmd.DeleteStore? {
        DeleteSpares(s, e.c, e.cmd.victim, x);
      } else if IsStoreCommand(e.cmd) && Current(s, e.c, x) {
        OthersSpare(ok, x, s.stores[x].st, e.c, s.counter, e.cmd);
      }
    }
  }

  lemma OthersSpare(ok: Constraints, x: StoreId, st: Store, c: Client, counter: nat, cmd: Command)
    requires IsStoreCommand(cmd) && st.pre.Some? && st.lockedBy.Some? && st.lockedBy != Some(c) && !LocksCurrent(cmd)
    ensures OnStore(ok, x, st, c, counter, cmd).0 == st
  {
  }

  // The client of an open transaction keeps its store alive.
  lemma OpenStoreStays(ok: Constraints, s: State, e: Event, t: State, x: StoreId)
    requires Inv(s) && Goes(ok, s, e, t) && x in s.stores && s.stores[x].st.pre.Some?
    ensures x in t.stores
  {
    if e.By? && e.cmd.DeleteStore? {
      DeleteSpares(s, e.c, e.cmd.victim, x);
    } else if e.By? && e.cmd.CopyStore? {
      CopySpares(s, e.c, e.cmd.fromName, e.cmd.toName, x);
    }
  }

  // A transaction that stays open keeps its owner and its snapshots.
  lemma LockStays(ok: Constraints, s: State, e: Event, t: State, x: StoreId)
    requires Inv(s) && Goes(ok, s, e, t) && x in s.stores && s.stores[x].st.pre.Some?
    requires KindOf(s, e, x) == Other
    ensures x in t.stores && t.stores[x].st == s.stores[x].st.(doc := t.stores[x].st.doc)
  {
    OpenStoreStays(ok, s, e, t, x);
    if e.By? && s.stores[x].st.lockedBy == Some(e.c) {
      KindEffect(ok, s, e, t, x);
      if e.cmd.CopyStore? { CopyEffect(s, e.c, e.cmd.fromName, e.cmd.toName, x); }
    } else {
      OthersCannotTouch(ok, s, e, t, x);
    }
  }

  lemma KindStays(ok: Constraints, s: State, e: Event, t: State, x: StoreId)
    requires Goes(ok, s, e, t) && KindOf(s, e, x) != Other
    ensures x in s.stores && x in t.stores && e.By? && KindOf(s, e, x).c == e.c
  {
  }

  // All that later proofs need to know about one step of a run and store x.
  lemma StepFacts(ok: Constraints, ss: seq<State>, es: seq<Event>, n: nat, x: StoreId)
    requires IsRun(ok, ss, es) && n < |es|
    ensures var s, t, kind := ss[n], ss[n + 1], KindOf(ss[n], es[n], x);
            && (x in s.stores && x in t.stores ==> KindFits(kind, s.stores[x].st, t.stores[x].st, s.counter))
            && (x !in s.stores && x in t.stores ==> t.stores[x].st == Store(t.stores[x].st.doc, None, None, 0, None))
            && (x in s.stores && s.stores[x].st.pre.Some? ==> x in t.stores && s.stores[x].st.lockedBy.Some?)
            && (x in s.stores && s.stores[x].st.pre.Some? && kind == Other ==>
                 t.stores[x].st == s.stores[x].st.(doc := t.stores[x].st.doc))
            && (kind != Other ==> x in s.stores && x in t.stores && es[n].By? && kind.c == es[n].c)
            && (x in s.stores ==> (s.stores[x].st.last > 0 <==> s.stores[x].st.roll.Some?))
  {
    RunInv(ok, ss, es, n);
    assert StepAt(ok, ss, es, n);
    var s, e, t := ss[n], es[n], ss[n + 1];
    if KindOf(s, e, x) != Other { KindStays(ok, s, e, t, x); }
    if x in s.stores {
      if s.stores[x].st.pre.Some? { OpenStoreStays(ok, s, e, t, x); }
      if s.stores[x].st.pre.Some? && KindOf(s, e, x) == Other { LockStays(ok, s, e, t, x); }
      if x in t.stores { KindEffect(ok, s, e, t, x); }
    } else if x in t.stores {
      Birth(ok, s, e, t, x);
    }
  }

  ghost predicate Alive(ss: seq<State>, x: StoreId, i: nat, n: nat)
    requires n < |ss|
  {
    forall m :: i <= m <= n ==> x in ss[m].stores
  }

  // From i on and before n, no event touches x's transaction fields.
  ghost predicate Quiet(ss: seq<State>, es: seq<Event>, x: StoreId, i: nat, n: nat)
    requires n <= |es| < |ss|
  {
    forall m :: i <= m < n ==> KindOf(ss[m], es[m], x) == Other
  }

  // From i on and before n, x sees no commit and no rollback.
  ghost predicate NoNewer(ss: seq<State>, es: seq<Event>, x: StoreId, i: nat, n: nat)
    requires n <= |es| < |ss|
  {
    forall m :: i <= m < n ==> !KindOf(ss[m], es[m], x).Committed? && !KindOf(ss[m], es[m], x).RolledBack?
  }

  // The transaction open at n on x started at i, and nothing has ended it since.
  ghost predicate OpenSince(ss: seq<State>, es: seq<Event>, x: StoreId, i: nat, n: nat)
    requires n <= |es| < |ss|
  {
    && i < n && Alive(ss, x, i, n)
    && KindOf(ss[i], es[i], x).Started?
    && Quiet(ss, es, x, i + 1, n)
    && ss[n].stores[x].st == Store(ss[n].stores[x].st.doc, Some(ss[i].stores[x].st.doc),
                                   ss[i].stores[x].st.roll, ss[i].stores[x].st.last,
                                   Some(KindOf(ss[i], es[i], x).c))
  }

  lemma {:induction false} OpenedWhen(ok: Constraints, ss: seq<State>, es: seq<Event>, n: nat, x: StoreId) returns (i: nat)
    requires IsRun(ok, ss, es) && n < |ss| && x in ss[n].stores && ss[n].stores[x].st.pre.Some?
    ensures OpenSince(ss, es, x, i, n)
  {
    if n == 0 {
      assert false;
    } else {
      StepFacts(ok, ss, es, n - 1, x);
      if KindOf(ss[n - 1], es[n - 1], x).Started? {
        i := n - 1;
      } else {
        i := OpenedWhen(ok, ss, es, n - 1, x);
      }
    }
  }

  // Commit id is the newest on x at n and not rolled back; its transaction ran from i to j.
  ghost predicate NewestCommit(ss: seq<State>, es: seq<Event>, x: StoreId, i: nat, j: nat, n: nat, id: int)
    requires n <= |es| < |ss|
  {
    && i < j < n && Alive(ss, x, i, n)
    && KindOf(ss[i], es[i], x).Started?
    && Quiet(ss, es, x, i + 1, j)
    && KindOf(ss[j], es[j], x) == Committed(KindOf(ss[i], es[i], x).c, id)
    && NoNewer(ss, es, x, j + 1, n)
  }

  lemma {:induction false} CommittedWhen(ok: Constraints, ss: seq<State>, es: seq<Event>, n: nat, x: StoreId)
    returns (i: nat, j: nat)
    requires IsRun(ok, ss, es) && n < |ss| && x in ss[n].stores && ss[n].stores[x].st.roll.Some?
    ensures NewestCommit(ss, es, x, i, j, n, ss[n].stores[x].st.last)
    ensures ss[n].stores[x].st.roll == Some(ss[i].stores[x].st.doc)
  {
    if n == 0 {
      assert false;
    } else {
      StepFacts(ok, ss, es, n - 1, x);
      if KindOf(ss[n - 1], es[n - 1], x).Committed? {
        i := OpenedWhen(ok, ss, es, n - 1, x);
        j := n - 1;
      } else {
        assert x in ss[n - 1].stores && !KindOf(ss[n - 1], es[n - 1], x).RolledBack?;
        assert ss[n - 1].stores[x].st.roll == ss[n].stores[x].st.roll && ss[n - 1].stores[x].st.last == ss[n].stores[x].st.last;
        i, j := CommittedWhen(ok, ss, es, n - 1, x);
      }
    }
  }

  // A successful rollback of id puts back the tree from when id's transaction
  // started, whatever happened since, and id is the newest commit on the store.
  lemma RollbackRestores(ok: Constraints, ss: seq<State>, es: seq<Event>, k: nat, x: StoreId) returns (i: nat, j: nat)
    requires IsRun(ok, ss, es) && k < |es| && KindOf(ss[k], es[k], x).RolledBack?
    ensures NewestCommit(ss, es, x, i, j, k, KindOf(ss[k], es[k], x).id)
    ensures x in ss[k + 1].stores && ss[k + 1].stores[x].st.doc == ss[i].stores[x].st.doc
  {
    StepFacts(ok, ss, es, k, x);
    i, j := CommittedWhen(ok, ss, es, k, x);
  }

  lemma {:induction false} StaysNewest(ok: Constraints, ss: seq<State>, es: seq<Event>, j: nat, n: nat, x: StoreId)
    requires IsRun(ok, ss, es) && j < n < |ss| && Alive(ss, x, j, n)
    requires KindOf(ss[j], es[j], x).Committed? && NoNewer(ss, es, x, j + 1, n)
    ensures ss[n].stores[x].st.last == KindOf(ss[j], es[j], x).id && ss[n].stores[x].st.roll.Some?
    decreases n
  {
    StepFacts(ok, ss, es, n - 1, x);
    if j < n - 1 {
      StaysNewest(ok, ss, es, j, n - 1, x);
    }
  }

  // A rollback of id on x returns 1 if and only if no transaction is open and
  // id is the newest commit on x, not yet rolled back.
  lemma RollbackSucceedsIff(ok: Constraints, ss: seq<State>, es: seq<Event>, k: nat, x: StoreId)
    requires IsRun(ok, ss, es) && k < |es|
    requires es[k].By? && es[k].cmd.RollbackTxn? && Current(ss[k], es[k].c, x)
    ensures ReplyAt(ok, ss, es, k) == Answer(1) <==>
            ss[k].stores[x].st.pre.None? && exists i, j :: NewestCommit(ss, es, x, i, j, k, es[k].cmd.id)
  {
    assert StepAt(ok, ss, es, k);
    KindIsReply(ok, ss[k], es[k], x);
    StepFacts(ok, ss, es, k, x);
    if KindOf(ss[k], es[k], x).RolledBack? {
      var i, j := RollbackRestores(ok, ss, es, k, x);
    }
    if ss[k].stores[x].st.pre.None? && exists i, j :: NewestCommit(ss, es, x, i, j, k, es[k].cmd.id) {
      var i, j :| NewestCommit(ss, es, x, i, j, k, es[k].cmd.id);
      StaysNewest(ok, ss, es, j, k, x);
      CommitPositive(ok, ss, es, j, x);
    }
  }

  lemma CommitPositive(ok: Constraints, ss: seq<State>, es: seq<Event>, j: nat, x: StoreId)
    requires IsRun(ok, ss, es) && j < |es| && KindOf(ss[j], es[j], x).Committed?
    ensures KindOf(ss[j], es[j], x).id >= 1
  {
    RunInv(ok, ss, es, j);
  }

  lemma {:induction false} CounterMonotone(ok: Constraints, ss: seq<State>, es: seq<Event>, i: nat, n: nat)
    requires IsRun(ok, ss, es) && i <= n < |ss|
    ensures ss[i].counter <= ss[n].counter
    decreases n
  {
    if i < n {
      CounterMonotone(ok, ss, es, i, n - 1);
      assert StepAt(ok, ss, es, n - 1);
      CounterGrows(ok, ss[n - 1], es[n - 1], ss[n]);
    }
  }

  lemma CommitCounts(ok: Constraints, s: State, e: Event, t: State, x: StoreId)
    requires Goes(ok, s, e, t) && KindOf(s, e, x).Committed?
    ensures t.counter == s.counter + 1 == KindOf(s, e, x).id
  {
  }

  // Commit numbers strictly increase over the run, across all stores and clients.
  lemma CommitIdsIncrease(ok: Constraints, ss: seq<State>, es: seq<Event>, i: nat, j: nat, x: StoreId, y: StoreId)
    requires IsRun(ok, ss, es) && i < j < |es|
    requires KindOf(ss[i], es[i], x).Committed? && KindOf(ss[j], es[j], y).Committed?
    ensures KindOf(ss[i], es[i], x).id < KindOf(ss[j], es[j], y).id
  {
    assert StepAt(ok, ss, es, i);
    CommitCounts(ok, ss[i], es[i], ss[i + 1], x);
    CounterMonotone(ok, ss, es, i + 1, j);
  }

  // One event concerns the transaction of one store.
  lemma KindOfOne(s: State, e: Event, x: StoreId, y: StoreId)
    ensures KindOf(s, e, x) != Other && KindOf(s, e, y) != Other ==> x == y
  {
  }

  // A number belongs to one commit, on one store.
  lemma CommitIsOne(ok: Constraints, ss: seq<State>, es: seq<Event>, i: nat, j: nat, x: StoreId, y: StoreId)
    requires IsRun(ok, ss, es) && i < |es| && j < |es|
    requires KindOf(ss[i], es[i], x).Committed? && KindOf(ss[j], es[j], y).Committed?
    ensures KindOf(ss[i], es[i], x).id == KindOf(ss[j], es[j], y).id ==> i == j && x == y
  {
    KindOfOne(ss[i], es[i], x, y);
    if i < j {
      CommitIdsIncrease(ok, ss, es, i, j, x, y);
    } else if j < i {
      CommitIdsIncrease(ok, ss, es, j, i, y, x);
    }
  }

  // A commit number is rolled back at most once, on any store.
  lemma RollbackOnce(ok: Constraints, ss: seq<State>, es: seq<Event>, k: nat, m: nat, x: StoreId, y: StoreId)
    requires IsRun(ok, ss, es) && k < m < |es|
    requires KindOf(ss[k], es[k], x).RolledBack? && KindOf(ss[m], es[m], y).RolledBack?
    ensures KindOf(ss[k], es[k], x).id != KindOf(ss[m], es[m], y).id
  {
    var i1, j1 := RollbackRestores(ok, ss, es, k, x);
    var i2, j2 := RollbackRestores(ok, ss, es, m, y);
    // Were it the same commit on the same store, the rollback at k would come after it.
    CommitIsOne(ok, ss, es, j1, j2, x, y);
    assert j2 < k ==> !KindOf(ss[k], es[k], y).RolledBack?;
  }

  lemma {:induction false} StaysOpen(ok: Constraints, ss: seq<State>, es: seq<Event>, i: nat, n: nat, x: StoreId)
    requires IsRun(ok, ss, es) && i < n <= |es| && KindOf(ss[i], es[i], x).Started?
    requires forall m :: i < m < n ==> !KindOf(ss[m], es[m], x).Committed? && !KindOf(ss[m], es[m], x).Aborted?
    ensures OpenSince(ss, es, x, i, n)
    decreases n
  {
    StepFacts(ok, ss, es, n - 1, x);
    if n > i + 1 {
      StaysOpen(ok, ss, es, i, n - 1, x);
    }
  }

  // From a successful start at i until the transaction ends, no other client's
  // step changes the store's tree, either snapshot, its last id or its lock.
  lemma Isolation(ok: Constraints, ss: seq<State>, es: seq<Event>, i: nat, n: nat, x: StoreId)
    requires IsRun(ok, ss, es) && i < n < |es| && KindOf(ss[i], es[i], x).Started?
    requires forall m :: i < m < n ==> !KindOf(ss[m], es[m], x).Committed? && !KindOf(ss[m], es[m], x).Aborted?
    ensures OpenSince(ss, es, x, i, n)
    ensures (es[n].By? && es[n].c == KindOf(ss[i], es[i], x).c) ||
            (x in ss[n + 1].stores && ss[n + 1].stores[x] == ss[n].stores[x])
  {
    StaysOpen(ok, ss, es, i, n, x);
    RunInv(ok, ss, es, n);
    assert StepAt(ok, ss, es, n);
    if !(es[n].By? && es[n].c == KindOf(ss[i], es[i], x).c) {
      OthersCannotTouch(ok, ss[n], es[n], ss[n + 1], x);
    }
  }

  lemma OnStoreKeepsDoc(ok: Constraints, x: StoreId, st: Store, c: Client, counter: nat, cmd: Command)
    requires st.pre.Some? && !cmd.EditNodes? && !cmd.AbortTxn?
    ensures OnStore(ok, x, st, c, counter, cmd).0.doc == st.doc
  {
  }

  // In its transaction a client changes the tree by edits and copies only.
  lemma OwnerKeepsDoc(ok: Constraints, s: State, e: Event, t: State, x: StoreId)
    requires Inv(s) && Goes(ok, s, e, t) && x in s.stores && s.stores[x].st.pre.Some?
    requires e.By? && s.stores[x].st.lockedBy == Some(e.c) && !e.cmd.EditNodes? && !e.cmd.CopyStore?
    requires KindOf(s, e, x) == Other
    ensures x in t.stores && t.stores[x].st.doc == s.stores[x].st.doc
  {
    OpenStoreStays(ok, s, e, t, x);
    assert Current(s, e.c, x);
    if IsStoreCommand(e.cmd) { OnStoreKeepsDoc(ok, x, s.stores[x].st, e.c, s.counter, e.cmd); }
  }

  // An event that may change the tree of the transaction open since i.
  ghost predicate Changes(ss: seq<State>, es: seq<Event>, x: StoreId, i: nat, n: nat)
    requires i < |es| && n < |es| < |ss| && KindOf(ss[i], es[i], x).Started?
  {
    es[n].By? && es[n].c == KindOf(ss[i], es[i], x).c && (es[n].cmd.EditNodes? || es[n].cmd.CopyStore?)
  }

  lemma DocStep(ok: Constraints, ss: seq<State>, es: seq<Event>, i: nat, n: nat, x: StoreId)
    requires IsRun(ok, ss, es) && n < |es| && OpenSince(ss, es, x, i, n)
    requires KindOf(ss[n], es[n], x) == Other && !Changes(ss, es, x, i, n)
    ensures x in ss[n + 1].stores && ss[n + 1].stores[x].st.doc == ss[n].stores[x].st.doc
  {
    RunInv(ok, ss, es, n);
    assert StepAt(ok, ss, es, n);
    if es[n].By? && es[n].c == KindOf(ss[i], es[i], x).c {
      OwnerKeepsDoc(ok, ss[n], es[n], ss[n + 1], x);
    } else {
      OthersCannotTouch(ok, ss[n], es[n], ss[n + 1], x);
    }
  }

  lemma {:induction false} DocStays(ok: Constraints, ss: seq<State>, es: seq<Event>, i: nat, n: nat, m: nat, x: StoreId)
    requires IsRun(ok, ss, es) && i < n <= m <= |es| && OpenSince(ss, es, x, i, m)
    requires forall k :: n <= k < m ==> !Changes(ss, es, x, i, k)
    ensures ss[m].stores[x].st.doc == ss[n].stores[x].st.doc
    decreases m
  {
    if n < m {
      StaysOpen(ok, ss, es, i, m - 1, x);
      DocStays(ok, ss, es, i, n, m - 1, x);
      DocStep(ok, ss, es, i, m - 1, x);
    }
  }

  // What an edit by the client of an open transaction answers.
  lemma EditAnswer(ok: Constraints, ss: seq<State>, es: seq<Event>, i: nat, n: nat, x: StoreId)
    requires IsRun(ok, ss, es) && n < |es| && OpenSince(ss, es, x, i, n)
    requires es[n].By? && es[n].c == KindOf(ss[i], es[i], x).c && es[n].cmd.EditNodes? && !Refused(es[n].cmd.edit)
    ensures var (t, k) := EditTree(ok(x), es[n].cmd.edit, ss[n].stores[x].st.doc);
            ReplyAt(ok, ss, es, n) == Answer(k) && x in ss[n + 1].stores && ss[n + 1].stores[x].st.doc == t
  {
    RunInv(ok, ss, es, n);
    assert StepAt(ok, ss, es, n);
    assert Current(ss[n], es[n].c, x);
  }

  // In a transaction a dry run foretells the edit made later, whatever other clients do in
  // between: it answers k >= 0 if and only if the edit will, and -2 if the edit will be turned down.
  lemma DryRunForetells(ok: Constraints, ss: seq<State>, es: seq<Event>, i: nat, n: nat, m: nat, x: StoreId, e: Edit, k: nat)
    requires IsRun(ok, ss, es) && i < n < m < |es| && OpenSince(ss, es, x, i, m) && !Refused(e)
    requires var c := KindOf(ss[i], es[i], x).c;
             && es[n] == By(c, EditNodes(e.(mode := ValidateNoModification)))
             && es[m] == By(c, EditNodes(e.(mode := ModifyWithValidation)))
             && forall j :: n < j < m ==> !Changes(ss, es, x, i, j)
    ensures ReplyAt(ok, ss, es, n) == Answer(k) <==> ReplyAt(ok, ss, es, m) == Answer(k)
    ensures ReplyAt(ok, ss, es, n) == Answer(-2) ==>
              && ReplyAt(ok, ss, es, m) == Answer(-1)
              && x in ss[n].stores && x in ss[m + 1].stores && ss[m + 1].stores[x].st.doc == ss[n].stores[x].st.doc
  {
    StaysOpen(ok, ss, es, i, n, x);
    EditAnswer(ok, ss, es, i, n, x);
    DocStays(ok, ss, es, i, n + 1, m, x);
    EditAnswer(ok, ss, es, i, m, x);
  }

  // An abort, explicit or by disconnect, restores the tree from the start and
  // leaves the earlier commit as it was, still able to be rolled back by any client.
  lemma AbortRestores(ok: Constraints, ss: seq<State>, es: seq<Event>, n: nat, x: StoreId, c: Client) returns (i: nat)
    requires IsRun(ok, ss, es) && n < |es| && KindOf(ss[n], es[n], x).Aborted?
    ensures OpenSince(ss, es, x, i, n) && KindOf(ss[i], es[i], x) == Started(es[n].c)
    ensures x in ss[n + 1].stores
    ensures ss[n + 1].stores[x].st == ss[i].stores[x].st.(pre := None, lockedBy := None)
    ensures ss[i].stores[x].st.roll.Some? ==>
              Rollback(ss[n + 1].stores[x].st, c, ss[i].stores[x].st.last).1 == 1
  {
    StepFacts(ok, ss, es, n, x);
    i := OpenedWhen(ok, ss, es, n, x);
    StepFacts(ok, ss, es, i, x);
  }

  // ----- Locks and slots -----

  // A client holds at most one lock, on its current store.
  lemma AtMostOneLock(ok: Constraints, ss: seq<State>, es: seq<Event>, n: nat, c: Client, x: StoreId, y: StoreId)
    requires IsRun(ok, ss, es) && n < |ss| && x in ss[n].stores && y in ss[n].stores
    requires ss[n].stores[x].st.lockedBy == Some(c) && ss[n].stores[y].st.lockedBy == Some(c)
    ensures x == y && Current(ss[n], c, x)
  {
    RunInv(ok, ss, es, n);
  }

  // Nothing in the state belongs to client c: no lock, no open transaction
  // (each has a lock holder), no operational store.
  ghost predicate NothingOf(s: State, c: Client) {
    && (forall x :: x in s.stores ==>
         && s.stores[x].st.lockedBy != Some(c)
         && (s.stores[x].st.pre.Some? ==> s.stores[x].st.lockedBy.Some?))
    && (forall i :: 0 <= i < |s.ops| ==> s.ops[i].owner != Some(c))
  }

  // After a disconnect nothing is locked, open or owned by the client.
  lemma DisconnectLeavesNothing(ok: Constraints, ss: seq<State>, es: seq<Event>, n: nat)
    requires IsRun(ok, ss, es) && n < |es| && es[n].By? && es[n].cmd.Disconnect?
    ensures NothingOf(ss[n + 1], es[n].c)
    ensures es[n].c < |ss[n + 1].slots| && ss[n + 1].slots[es[n].c] == Slot(true, None)
  {
    RunInv(ok, ss, es, n + 1);
    assert StepAt(ok, ss, es, n);
  }

  // A slot that is reused inherits nothing from the client before.
  lemma ReuseInheritsNothing(ok: Constraints, ss: seq<State>, es: seq<Event>, n: nat)
    requires IsRun(ok, ss, es) && n < |es| && es[n].Connect?
    ensures var c := FreeSlot(ss[n].slots);
            && c < |ss[n].slots| && ReplyAt(ok, ss, es, n) == Answer(c) && c < |ss[n + 1].slots|
            && ss[n + 1].slots[c] == Slot(false, None) && NothingOf(ss[n + 1], c)
  {
    RunInv(ok, ss, es, n);
    assert StepAt(ok, ss, es, n);
    var c := FreeSlot(ss[n].slots);
    if c == |ss[n].slots| {
      FullWhenOccupied(ss[n].slots);
      assert false;
    }
  }

  // ----- Constraints -----

  // Every tree the store keeps satisfies its constraints.
  ghost predicate Accepted(p: Xml -> bool, st: Store) {
    p(st.doc) && (st.pre.Some? ==> p(st.pre.value)) && (st.roll.Some? ==> p(st.roll.value))
  }

  // Edits of x validate, and no copy is made over x.
  ghost predicate Validates(s: State, e: Event, x: StoreId) {
    e.By? ==>
      && (e.cmd.EditNodes? && Current(s, e.c, x) ==> !e.cmd.edit.mode.ModifyNoValidation?)
      && (e.cmd.CopyStore? ==> FindStore(s, e.cmd.toName) != Some(x))
  }

  lemma StepAccepted(ok: Constraints, s: State, e: Event, t: State, x: StoreId)
    requires Inv(s) && Goes(ok, s, e, t) && x in s.stores && x in t.stores
    requires Validates(s, e, x) && Accepted(ok(x), s.stores[x].st)
    ensures Accepted(ok(x), t.stores[x].st)
  {
    if e.By? && e.cmd.CopyStore? {
      CopyEffect(s, e.c, e.cmd.fromName, e.cmd.toName, x);
    } else if e.By? && IsStoreCommand(e.cmd) && Current(s, e.c, x) {
      OnStoreAccepted(ok, s, e.c, e.cmd, x);
    }
  }

  lemma OnStoreAccepted(ok: Constraints, s: State, c: Client, cmd: Command, x: StoreId)
    requires Enabled(s, By(c, cmd)) && Current(s, c, x) && IsStoreCommand(cmd)
    requires Validates(s, By(c, cmd), x) && Accepted(ok(x), s.stores[x].st)
    ensures Accepted(ok(x), OnStore(ok, x, s.stores[x].st, c, s.counter, cmd).0)
  {
    if cmd.EditNodes? && !Refused(cmd.edit) {
      ValidatedEditAccepted(ok(x), cmd.edit, s.stores[x].st.doc);
    }
  }

  // A store whose first tree is accepted and whose edits all validate keeps
  // only accepted trees, whatever transactions and rollbacks do.
  lemma {:induction false} AlwaysAccepted(ok: Constraints, ss: seq<State>, es: seq<Event>, n: nat, x: StoreId)
    requires IsRun(ok, ss, es) && n < |ss| && x in ss[0].stores && ok(x)(ss[0].stores[x].st.doc)
    requires forall m :: 0 <= m < n ==> Validates(ss[m], es[m], x)
    ensures x in ss[n].stores ==> Accepted(ok(x), ss[n].stores[x].st)
    decreases n
  {
    if n > 0 {
      AlwaysAccepted(ok, ss, es, n - 1, x);
      RunInv(ok, ss, es, n - 1);
      assert StepAt(ok, ss, es, n - 1);
      if x in ss[n].stores {
        if x in ss[n - 1].stores {
          StepAccepted(ok, ss[n - 1], es[n - 1], ss[n], x);
        } else {
          IdsBelow(ok, ss, es, 0, n - 1, x);
          Birth(ok, ss[n - 1], es[n - 1], ss[n], x);
        }
      }
    }
  }

  lemma NextGrows(ok: Constraints, s: State, e: Event, t: State)
    requires Goes(ok, s, e, t)
    ensures t.nextStore >= s.nextStore
  {
  }

  lemma {:induction false} IdsBelow(ok: Constraints, ss: seq<State>, es: seq<Event>, i: nat, n: nat, x: StoreId)
    requires IsRun(ok, ss, es) && i <= n < |ss| && x in ss[i].stores
    ensures x < ss[n].nextStore
    decreases n
  {
    RunInv(ok, ss, es, i);
    if i < n {
      IdsBelow(ok, ss, es, i, n - 1, x);
      assert StepAt(ok, ss, es, n - 1);
      NextGrows(ok, ss[n - 1], es[n - 1], ss[n]);
    }
  }

  // A store that is gone never comes back, even if its name does.
  lemma {:induction false} IdsNeverReused(ok: Constraints, ss: seq<State>, es: seq<Event>, i: nat, j: nat, n: nat, x: StoreId)
    requires IsRun(ok, ss, es) && i < j <= n < |ss| && x in ss[i].stores && x !in ss[j].stores
    ensures x !in ss[n].stores
    decreases n
  {
    if j < n {
      IdsNeverReused(ok, ss, es, i, j, n - 1, x);
      IdsBelow(ok, ss, es, i, n - 1, x);
      RunInv(ok, ss, es, n - 1);
      assert StepAt(ok, ss, es, n - 1);
      Birth(ok, ss[n - 1], es[n - 1], ss[n], x);
    }
  }
}
