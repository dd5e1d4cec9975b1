// When the in-use scan of a delete misses nobody: runs in which a scan may say what it says.
module Scans {
  import opened Base
  import opened Trees
  import opened StoreSpec
  import opened Slots
  import opened OpSpec
  import opened Server
  import Runs

  ghost predicate StepAt(ok: Constraints, ss: seq<State>, es: seq<Event>, n: nat)
    requires n < |es| < |ss|
  {
    Enabled(ss[n], es[n]) && ss[n + 1] == Exec(ok, ss[n], es[n]).0
  }

  // A run of the server, nothing assumed of the scans.
  ghost predicate IsFreeRun(ok: Constraints, ss: seq<State>, es: seq<Event>) {
    && |ss| == |es| + 1
    && Init(ss[0])
    && forall n :: 0 <= n < |es| ==> StepAt(ok, ss, es, n)
  }

  // ----- A scan that misses a user breaks the invariant, any other step keeps it -----

  lemma MissBreaks(s: State, c: Client, name: string)
    requires Inv(s) && Enabled(s, By(c, DeleteStore(name))) && !ScanExact(s, By(c, DeleteStore(name)))
    ensures !SlotInv(ExecDelete(s, name).0)
  {
    var i := FindStore(s, name).value;
    var d :| 0 <= d < |s.slots| && Uses(s.slots[d], i);
    assert ExecDelete(s, name).0.slots[d].ds == Some(i);
  }

  lemma StepKeepsIff(ok: Constraints, s: State, e: Event)
    requires Inv(s) && Enabled(s, e)
    ensures Inv(Exec(ok, s, e).0) <==> ScanExact(s, e)
  {
    if ScanExact(s, e) { StepKeeps(ok, s, e); } else { MissBreaks(s, e.c, e.cmd.victim); }
  }

  lemma {:induction false} FreeRunInv(ok: Constraints, ss: seq<State>, es: seq<Event>, n: nat)
    requires IsFreeRun(ok, ss, es) && n <= |es|
    requires forall k :: 0 <= k < n ==> ScanExact(ss[k], es[k])
    ensures Inv(ss[n])
  {
    if n == 0 {
      InitInv(ss[0]);
    } else {
      FreeRunInv(ok, ss, es, n - 1);
      assert StepAt(ok, ss, es, n - 1);
      StepKeepsIff(ok, ss[n - 1], es[n - 1]);
    }
  }

  // In every run: the invariant holds throughout if and only if no delete's scan misses a user.
  lemma InvIffScansExact(ok: Constraints, ss: seq<State>, es: seq<Event>)
    requires IsFreeRun(ok, ss, es)
    ensures (forall n :: 0 <= n <= |es| ==> Inv(ss[n])) <==> forall k :: 0 <= k < |es| ==> ScanExact(ss[k], es[k])
  {
    if forall k :: 0 <= k < |es| ==> ScanExact(ss[k], es[k]) {
      forall n | 0 <= n <= |es| ensures Inv(ss[n]) { FreeRunInv(ok, ss, es, n); }
    }
    if forall n :: 0 <= n <= |es| ==> Inv(ss[n]) {
      forall k | 0 <= k < |es| ensures ScanExact(ss[k], es[k]) {
        assert StepAt(ok, ss, es, k) && Inv(ss[k]) && Inv(ss[k + 1]);
        StepKeepsIff(ok, ss[k], es[k]);
      }
    }
  }

  // ----- Slots in use from the bottom up -----

  lemma {:induction false} OccupiedPrefix(slots: seq<Slot<StoreId>>, n: nat)
    requires n <= |slots| && forall i :: 0 <= i < |slots| ==> (slots[i].free <==> i >= n)
    ensures Occupied(slots) == n
  {
    if slots != [] { OccupiedPrefix(slots[1..], if n == 0 then 0 else n - 1); }
  }

  // The client that leaves has the highest slot in use.
  predicate LeavesFromTop(s: State, e: Event) {
    e.By? && e.cmd.Disconnect? ==> forall d :: e.c < d < |s.slots| ==> s.slots[d].free
  }

  // A disconnect keeps the slots in use together if and only if every slot above is free.
  lemma DisconnectKeepsPrefixIff(s: State, c: Client)
    requires Prefix(s.slots) && Connected(s, c)
    ensures Prefix(ExecDisconnect(s, c).slots) <==> forall d :: c < d < |s.slots| ==> s.slots[d].free
  {
    var after := ExecDisconnect(s, c).slots;
    assert after == s.slots[c := Slot(true, None)];
    OccupiedUpdate(s.slots, c, Slot(true, None));
    assert Occupied(after) == Occupied(s.slots) - 1;
    if forall d :: c < d < |s.slots| ==> s.slots[d].free {
      assert !s.slots[c].free && (c + 1 < |s.slots| ==> s.slots[c + 1].free);
      assert c == Occupied(s.slots) - 1;
    } else {
      var d :| c < d < |s.slots| && !s.slots[d].free;
      assert after[c].free && !after[d].free;
    }
  }

  lemma {:induction false} FirstFree(slots: seq<Slot<StoreId>>, n: nat)
    requires n <= |slots| && forall i :: 0 <= i < |slots| ==> (slots[i].free <==> i >= n)
    ensures FreeSlot(slots) == n
  {
    if n > 0 { FirstFree(slots[1..], n - 1); }
  }

  lemma ConnectKeepsPrefix(s: State)
    requires Prefix(s.slots)
    ensures Prefix(ExecConnect(s).0.slots)
  {
    var i := FreeSlot(s.slots);
    if i < |s.slots| {
      FirstFree(s.slots, Occupied(s.slots));
      OccupiedUpdate(s.slots, i, Slot(false, None));
    }
  }

  lemma PrefixStepIff(ok: Constraints, s: State, e: Event)
    requires Prefix(s.slots) && Enabled(s, e)
    ensures Prefix(Exec(ok, s, e).0.slots) <==> LeavesFromTop(s, e)
  {
    if e.Connect? {
      ConnectKeepsPrefix(s);
    } else if e.cmd.Disconnect? {
      DisconnectKeepsPrefixIff(s, e.c);
    } else if e.cmd.SetStore? {
      OccupiedUpdate(s.slots, e.c, ExecSet(s, e.c, e.cmd.storeName).0.slots[e.c]);
    }
  }

  lemma PrefixScanExact(s: State, e: Event)
    requires Prefix(s.slots)
    ensures ScanExact(s, e)
  {
    PrefixIsExact(s.slots);
  }

  lemma {:induction false} StaysPrefix(ok: Constraints, ss: seq<State>, es: seq<Event>, n: nat)
    requires IsFreeRun(ok, ss, es) && n <= |es|
    requires forall k :: 0 <= k < n ==> LeavesFromTop(ss[k], es[k])
    ensures Prefix(ss[n].slots)
  {
    if n == 0 {
      OccupiedPrefix(ss[0].slots, 0);
    } else {
      StaysPrefix(ok, ss, es, n - 1);
      assert StepAt(ok, ss, es, n - 1);
      PrefixStepIff(ok, ss[n - 1], es[n - 1]);
    }
  }

  // In every run: the slots in use stay together if and only if clients leave from the top only.
  lemma PrefixIff(ok: Constraints, ss: seq<State>, es: seq<Event>)
    requires IsFreeRun(ok, ss, es)
    ensures (forall n :: 0 <= n <= |es| ==> Prefix(ss[n].slots)) <==>
            forall k :: 0 <= k < |es| ==> LeavesFromTop(ss[k], es[k])
  {
    if forall k :: 0 <= k < |es| ==> LeavesFromTop(ss[k], es[k]) {
      forall n | 0 <= n <= |es| ensures Prefix(ss[n].slots) { StaysPrefix(ok, ss, es, n); }
    }
    if forall n :: 0 <= n <= |es| ==> Prefix(ss[n].slots) {
      forall k | 0 <= k < |es| ensures LeavesFromTop(ss[k], es[k]) {
        assert StepAt(ok, ss, es, k) && Prefix(ss[k].slots) && Prefix(ss[k + 1].slots);
        PrefixStepIff(ok, ss[k], es[k]);
      }
    }
  }

  // In such a run no scan misses anybody, and all that is proved of runs holds of it.
  lemma OrderlyRunsAreRuns(ok: Constraints, ss: seq<State>, es: seq<Event>)
    requires IsFreeRun(ok, ss, es) && forall k :: 0 <= k < |es| ==> LeavesFromTop(ss[k], es[k])
    ensures Runs.IsRun(ok, ss, es)
    ensures forall n :: 0 <= n <= |es| ==> Inv(ss[n])
  {
    forall k | 0 <= k < |es| ensures Runs.StepAt(ok, ss, es, k) && ScanExact(ss[k], es[k]) {
      StaysPrefix(ok, ss, es, k);
      PrefixScanExact(ss[k], es[k]);
      assert StepAt(ok, ss, es, k);
    }
    InvIffScansExact(ok, ss, es);
  }

  // ----- A run whose scan misses a user -----

  lemma FreeRunMore(ok: Constraints, ss: seq<State>, es: seq<Event>, e: Event)
    requires IsFreeRun(ok, ss, es) && Enabled(ss[|es|], e)
    ensures IsFreeRun(ok, ss + [Exec(ok, ss[|es|], e).0], es + [e])
  {
    var ss', es' := ss + [Exec(ok, ss[|es|], e).0], es + [e];
    forall n | 0 <= n < |es'| ensures StepAt(ok, ss', es', n) {
      if n < |es| { assert StepAt(ok, ss, es, n); }
    }
  }

  // A server with one store, named a, and two slots.
  function With(tree: Xml, first: Slot<StoreId>, second: Slot<StoreId>): State {
    State(map[0 := NamedStore("a", Store(tree, None, None, 0, None))], 1, 1, [first, second], 1, [], 0)
  }

  lemma NamedA(tree: Xml, first: Slot<StoreId>, second: Slot<StoreId>)
    ensures FindStore(With(tree, first, second), "a") == Some(0)
  {
    var s := With(tree, first, second);
    assert HasName(s, 0, "a");
    FindStoreIs(s, "a");
  }

  lemma ConnectTwo(tree: Xml)
    ensures ExecConnect(With(tree, Slot(true, None), Slot(true, None))).0 == With(tree, Slot(false, None), Slot(true, None))
    ensures ExecConnect(With(tree, Slot(false, None), Slot(true, None))).0 == With(tree, Slot(false, None), Slot(false, None))
    ensures Occupied(With(tree, Slot(true, None), Slot(true, None)).slots) == 0
    ensures Occupied(With(tree, Slot(false, None), Slot(true, None)).slots) == 1
  {
    var none := With(tree, Slot(true, None), Slot(true, None)).slots;
    var one := With(tree, Slot(false, None), Slot(true, None)).slots;
    OccupiedPrefix(none, 0);
    OccupiedPrefix(one, 1);
    FirstFree(none, 0);
    FirstFree(one, 1);
  }

  // Two clients connect, and the one in the lower slot leaves again.
  lemma LowerSlotLeaves(ok: Constraints, tree: Xml) returns (ss: seq<State>, es: seq<Event>)
    ensures IsFreeRun(ok, ss, es) && es == [Connect, Connect, By(0, Disconnect)]
    ensures ss[0] == With(tree, Slot(true, None), Slot(true, None))
    ensures ss[3] == With(tree, Slot(true, None), Slot(false, None))
  {
    ss, es := [With(tree, Slot(true, None), Slot(true, None))], [];
    ConnectTwo(tree);
    FreeRunMore(ok, ss, es, Connect);
    ss, es := ss + [With(tree, Slot(false, None), Slot(true, None))], es + [Connect];
    FreeRunMore(ok, ss, es, Connect);
    ss, es := ss + [With(tree, Slot(false, None), Slot(false, None))], es + [Connect];
    FreeRunMore(ok, ss, es, By(0, Disconnect));
    ss, es := ss + [With(tree, Slot(true, None), Slot(false, None))], es + [By(0, Disconnect)];
  }

  lemma SetA(ok: Constraints, tree: Xml)
    ensures var s, e := With(tree, Slot(true, None), Slot(false, None)), By(1, SetStore(Some("a")));
            Enabled(s, e) && Exec(ok, s, e).0 == With(tree, Slot(true, None), Slot(false, Some(0)))
  {
    NamedA(tree, Slot(true, None), Slot(false, None));
  }

  lemma DeleteA(ok: Constraints, tree: Xml)
    ensures var s, e := With(tree, Slot(true, None), Slot(false, Some(0))), By(1, DeleteStore("a"));
            Enabled(s, e) && Exec(ok, s, e) == (s.(stores := map[]), Answer(1)) && !ScanExact(s, e)
  {
    var s := With(tree, Slot(true, None), Slot(false, Some(0)));
    NamedA(tree, Slot(true, None), Slot(false, Some(0)));
    assert s.slots[1..] == [Slot(false, Some(0))];
    assert Occupied(s.slots) == 1 && Uses(s.slots[1], 0);
    assert s.stores - {0} == map[];
  }

  // The other client then uses the store and deletes it under its own feet.
  lemma ScanMissesInRun(ok: Constraints, tree: Xml) returns (ss: seq<State>, es: seq<Event>)
    ensures IsFreeRun(ok, ss, es) && |es| == 5 && es[4] == By(1, DeleteStore("a")) && !ScanExact(ss[4], es[4])
    ensures Enabled(ss[4], es[4]) && Exec(ok, ss[4], es[4]).1 == Answer(1)
    ensures ss[5].slots == [Slot(true, None), Slot(false, Some(0))] && 0 !in ss[5].stores
  {
    ss, es := LowerSlotLeaves(ok, tree);
    SetA(ok, tree);
    FreeRunMore(ok, ss, es, By(1, SetStore(Some("a"))));
    ss, es := ss + [With(tree, Slot(true, None), Slot(false, Some(0)))], es + [By(1, SetStore(Some("a")))];
    DeleteA(ok, tree);
    FreeRunMore(ok, ss, es, By(1, DeleteStore("a")));
    ss, es := ss + [ss[4].(stores := map[])], es + [By(1, DeleteStore("a"))];
  }
}
