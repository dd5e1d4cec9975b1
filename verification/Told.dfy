// What the clients are told, over whole runs: a reply can be a left-over of an earlier one.
module Told {
  import opened Base
  import opened Trees
  import opened StoreSpec
  import opened Slots
  import opened OpSpec
  import opened Server
  import opened Runs
  import opened ReplyTexts
  import Scans

  // What is in client c's reply buffer before event n. A new client has just been told <ok/>.
  ghost function Buffer(ok: Constraints, ss: seq<State>, es: seq<Event>, n: nat, c: Client): Text
    requires n <= |es| < |ss|
  {
    if n == 0 then Ok("")
    else
      match es[n - 1]
      case Connect => if FreeSlot(ss[n - 1].slots) == c then Ok("") else Buffer(ok, ss, es, n - 1, c)
      case By(d, cmd) =>
        var written := Written(cmd, ReplyAt(ok, ss, es, n - 1));
        if d == c && written.Some? then written.value else Buffer(ok, ss, es, n - 1, c)
  }

  // The text sent for event n, a command other than a query: the buffer after it.
  ghost function Sent(ok: Constraints, ss: seq<State>, es: seq<Event>, n: nat): Text
    requires n < |es| < |ss| && es[n].By? && !es[n].cmd.Query?
  {
    Buffer(ok, ss, es, n + 1, es[n].c)
  }

  // Event n writes client c's buffer.
  ghost predicate Writes(ok: Constraints, ss: seq<State>, es: seq<Event>, n: nat, c: Client)
    requires n < |es| < |ss|
  {
    match es[n]
    case Connect => FreeSlot(ss[n].slots) == c
    case By(d, cmd) => d == c && Written(cmd, ReplyAt(ok, ss, es, n)).Some?
  }

  // The buffer holds the last text written into it.
  lemma {:induction false} BufferIsLast(ok: Constraints, ss: seq<State>, es: seq<Event>, n: nat, j: nat, c: Client)
    requires IsRun(ok, ss, es) && j < n <= |es| && Writes(ok, ss, es, j, c)
    requires forall m :: j < m < n ==> !Writes(ok, ss, es, m, c)
    ensures Buffer(ok, ss, es, n, c) ==
            if es[j].Connect? then Ok("") else Written(es[j].cmd, ReplyAt(ok, ss, es, j)).value
    decreases n
  {
    if j < n - 1 {
      BufferIsLast(ok, ss, es, n - 1, j, c);
      assert !Writes(ok, ss, es, n - 1, c);
    }
  }

  lemma SentIs(ok: Constraints, ss: seq<State>, es: seq<Event>, n: nat)
    requires n < |es| < |ss| && es[n].By? && !es[n].cmd.Query?
    ensures var written := Written(es[n].cmd, ReplyAt(ok, ss, es, n));
            Sent(ok, ss, es, n) == if written.Some? then written.value else Buffer(ok, ss, es, n, es[n].c)
  {
  }

  lemma RollbackReply(ok: Constraints, ss: seq<State>, es: seq<Event>, k: nat, x: StoreId)
    requires IsRun(ok, ss, es) && k < |es| && es[k].By? && es[k].cmd.RollbackTxn? && Current(ss[k], es[k].c, x)
    ensures ReplyAt(ok, ss, es, k) == Answer(if KindOf(ss[k], es[k], x).RolledBack? then 1 else 0)
  {
    assert StepAt(ok, ss, es, k);
    RollbackAnswers(ok, ss[k], es[k].c, es[k].cmd.id, x);
  }

  lemma RollbackAnswers(ok: Constraints, s: State, c: Client, id: int, x: StoreId)
    requires Enabled(s, By(c, RollbackTxn(id))) && Current(s, c, x)
    ensures Exec(ok, s, By(c, RollbackTxn(id))).1 ==
            Answer(if KindOf(s, By(c, RollbackTxn(id)), x).RolledBack? then 1 else 0)
  {
  }

  // In every run: the client of a rollback reads success if and only if it succeeded or the text left in its
  // buffer by an earlier command is a success.
  lemma RollbackTold(ok: Constraints, ss: seq<State>, es: seq<Event>, k: nat, x: StoreId)
    requires IsRun(ok, ss, es) && k < |es| && es[k].By? && es[k].cmd.RollbackTxn? && Current(ss[k], es[k].c, x)
    ensures IntResponse(Sent(ok, ss, es, k)) != 0 <==>
            KindOf(ss[k], es[k], x).RolledBack? || IntResponse(Buffer(ok, ss, es, k, es[k].c)) != 0
    ensures KindOf(ss[k], es[k], x).RolledBack? ==> IntResponse(Sent(ok, ss, es, k)) == 1
  {
    RollbackReply(ok, ss, es, k, x);
    SentIs(ok, ss, es, k);
    ReadsOne();
  }

  // Told so at once after locking the store, the client reads success if and only if the rollback succeeded.
  lemma LockMakesItTrue(ok: Constraints, ss: seq<State>, es: seq<Event>, k: nat, x: StoreId)
    requires IsRun(ok, ss, es) && k + 1 < |es| && es[k + 1].By? && es[k + 1].cmd.RollbackTxn?
    requires es[k] == By(es[k + 1].c, LockStore) && Current(ss[k + 1], es[k + 1].c, x)
    ensures IntResponse(Sent(ok, ss, es, k + 1)) != 0 <==> KindOf(ss[k + 1], es[k + 1], x).RolledBack?
  {
    RollbackTold(ok, ss, es, k + 1, x);
    assert IntResponse(Buffer(ok, ss, es, k + 1, es[k].c)) == 0;
  }

  // ----- A refused rollback that reads as a success -----

  lemma RunMore(ok: Constraints, ss: seq<State>, es: seq<Event>, e: Event)
    requires IsRun(ok, ss, es) && Enabled(ss[|es|], e) && ScanExact(ss[|es|], e)
    ensures IsRun(ok, ss + [Exec(ok, ss[|es|], e).0], es + [e])
  {
    var ss', es' := ss + [Exec(ok, ss[|es|], e).0], es + [e];
    forall n | 0 <= n < |es'| ensures StepAt(ok, ss', es', n) {
      if n < |es| { assert StepAt(ok, ss, es, n); }
    }
  }

  // A server with one store, named a, in this state, and its first client.
  function Alone(st: Store, ds: Option<StoreId>): State {
    State(map[0 := NamedStore("a", st)], 1, 1, [Slot(false, ds), Slot(true, None)], 1, [], 0)
  }

  lemma Begins(ok: Constraints, tree: Xml) returns (ss: seq<State>, es: seq<Event>)
    ensures IsRun(ok, ss, es) && es == [Connect, By(0, SetStore(Some("a")))]
    ensures ss[2] == Alone(Store(tree, None, None, 0, None), Some(0))
  {
    ss, es := [Scans.With(tree, Slot(true, None), Slot(true, None))], [];
    Scans.ConnectTwo(tree);
    RunMore(ok, ss, es, Connect);
    ss, es := ss + [Alone(Store(tree, None, None, 0, None), None)], es + [Connect];
    Scans.NamedA(tree, Slot(false, None), Slot(true, None));
    RunMore(ok, ss, es, By(0, SetStore(Some("a"))));
    ss, es := ss + [Alone(Store(tree, None, None, 0, None), Some(0))], es + [By(0, SetStore(Some("a")))];
  }

  lemma StartAborted(ok: Constraints, tree: Xml)
    ensures var none, open := Store(tree, None, None, 0, None), Store(tree, Some(tree), None, 0, Some(0));
            && Enabled(Alone(none, Some(0)), By(0, StartTxn))
            && Exec(ok, Alone(none, Some(0)), By(0, StartTxn)) == (Alone(open, Some(0)), Answer(1))
            && Enabled(Alone(open, Some(0)), By(0, AbortTxn))
            && Exec(ok, Alone(open, Some(0)), By(0, AbortTxn)) == (Alone(none, Some(0)), Answer(1))
            && Enabled(Alone(none, Some(0)), By(0, RollbackTxn(99)))
            && Exec(ok, Alone(none, Some(0)), By(0, RollbackTxn(99))) == (Alone(none, Some(0)), Answer(0))
  {
    var none, open := Store(tree, None, None, 0, None), Store(tree, Some(tree), None, 0, Some(0));
    assert Put(Alone(none, Some(0)), 0, open) == Alone(open, Some(0));
    assert Put(Alone(open, Some(0)), 0, none) == Alone(none, Some(0));
    assert Put(Alone(none, Some(0)), 0, none) == Alone(none, Some(0));
  }

  lemma AbortedRun(ok: Constraints, tree: Xml) returns (ss: seq<State>, es: seq<Event>)
    ensures IsRun(ok, ss, es) && |es| == 4 && es[3] == By(0, AbortTxn) && ReplyAt(ok, ss, es, 3) == Answer(1)
    ensures ss[4] == Alone(Store(tree, None, None, 0, None), Some(0))
  {
    ss, es := Begins(ok, tree);
    StartAborted(ok, tree);
    RunMore(ok, ss, es, By(0, StartTxn));
    ss, es := ss + [Alone(Store(tree, Some(tree), None, 0, Some(0)), Some(0))], es + [By(0, StartTxn)];
    RunMore(ok, ss, es, By(0, AbortTxn));
    ss, es := ss + [Alone(Store(tree, None, None, 0, None), Some(0))], es + [By(0, AbortTxn)];
  }

  // Start and abort are answered with 1, and so is the rollback that is refused.
  lemma ToldWrongly(ok: Constraints, tree: Xml) returns (ss: seq<State>, es: seq<Event>)
    ensures IsRun(ok, ss, es) && |es| == 5 && es[4] == By(0, RollbackTxn(99)) && Current(ss[4], 0, 0)
    ensures ReplyAt(ok, ss, es, 4) == Answer(0) && IntResponse(Sent(ok, ss, es, 4)) == 1
  {
    ss, es := AbortedRun(ok, tree);
    StartAborted(ok, tree);
    RunMore(ok, ss, es, By(0, RollbackTxn(99)));
    ss, es := ss + [Alone(Store(tree, None, None, 0, None), Some(0))], es + [By(0, RollbackTxn(99))];
    assert es[3] == By(0, AbortTxn) && ReplyAt(ok, ss, es, 3) == Answer(1);
    assert Buffer(ok, ss, es, 4, 0) == Ok("1");
    assert es[4] == By(0, RollbackTxn(99)) && ReplyAt(ok, ss, es, 4) == Answer(0);
    assert Buffer(ok, ss, es, 5, 0) == Buffer(ok, ss, es, 4, 0);
    ReadsOne();
  }
}
