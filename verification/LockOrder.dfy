// Who waits for whom: the locks of the data stores, the registry's mutex and the client table's mutex.
// What the commands do besides locking is left to choice, so every run of the server is among these runs.
module LockOrder {
  import opened Base

  type Thread = nat
  type StoreId = nat

  // Why a thread takes the registry's mutex.
  datatype Job = Look | Number | Create | Delete | Copy

  datatype Pc =
    | Running
    | WaitStore(x: StoreId)                     // lockDS on the current store
    | WaitSet(job: Job) | HasSet(job: Job)      // the registry's mutex
    | Chose(target: Option<StoreId>)            // set_dataStore, the registry let go again
    | WaitClients(victim: Option<StoreId>)      // the client table's mutex, in a delete or not
    | HasClients(victim: Option<StoreId>)
    | WaitVictim(y: StoreId)                    // a delete locks the unused store
    | WaitSource(i: StoreId, j: StoreId) | WaitTarget(i: StoreId, j: StoreId) | HasBoth(i: StoreId, j: StoreId)

  // current: each client's data store, as the client table has it. owner: who holds a store's lock.
  // removed: the stores deleted so far.
  datatype State = State(pcs: map<Thread, Pc>, current: map<Thread, StoreId>, owner: map<StoreId, Thread>,
                         setOwner: Option<Thread>, clientsOwner: Option<Thread>, removed: set<StoreId>)

  datatype Action =
    | WantStore(t: Thread) | GetStore(t: Thread) | DropStore(t: Thread)
    | WantSet(t: Thread, job: Job) | GetSet(t: Thread) | LeaveSet(t: Thread)
    | Choose(t: Thread, target: Option<StoreId>) | Assign(t: Thread)
    | WantClients(t: Thread) | GetClients(t: Thread) | LeaveClients(t: Thread) | Depart(t: Thread)
    | WantScan(t: Thread, y: StoreId) | EndScan(t: Thread, used: bool) | RemoveVictim(t: Thread)
    | WantSource(t: Thread, i: StoreId, j: StoreId) | GetSource(t: Thread) | GetTarget(t: Thread)
    | EndCopy(t: Thread, keep: bool)

  function PcOf(s: State, t: Thread): Pc {
    if t in s.pcs then s.pcs[t] else Running
  }

  predicate Has(s: State, t: Thread, x: StoreId) {
    x in s.owner && s.owner[x] == t
  }

  predicate HasCurrent(s: State, t: Thread) {
    t in s.current && Has(s, t, s.current[t])
  }

  // The lock of store x is free, or t holds it already.
  predicate MayTake(s: State, t: Thread, x: StoreId) {
    x in s.owner ==> s.owner[x] == t
  }

  // What the delete's scan looks for.
  predicate Uses(s: State, u: Thread, y: StoreId) {
    u in s.current && s.current[u] == y
  }

  ghost predicate InUse(s: State, y: StoreId) {
    exists u :: Uses(s, u, y)
  }

  // A client has looked store y up and not yet remembered it.
  ghost predicate Chosen(s: State, y: StoreId) {
    exists u :: PcOf(s, u) == Chose(Some(y))
  }

  predicate Enabled(s: State, a: Action) {
    var pc := PcOf(s, a.t);
    match a
    case WantStore(t) => pc.Running? && t in s.current && !HasCurrent(s, t)
    case GetStore(t) => pc.WaitStore? && pc.x !in s.owner
    case DropStore(t) => pc.Running? && HasCurrent(s, t)
    // set_dataStore is refused while the client holds its store; a commit holds it.
    case WantSet(t, job) => pc.Running? && (job.Look? ==> !HasCurrent(s, t)) && (job.Number? ==> HasCurrent(s, t))
    case GetSet(t) => pc.WaitSet? && s.setOwner.None?
    case LeaveSet(t) => pc.HasSet? && !pc.job.Look?
    case Choose(t, target) => pc == HasSet(Look) && (target.Some? ==> target.value !in s.removed)
    case Assign(t) => pc.Chose?
    case WantClients(t) => pc.Running?
    case GetClients(t) => pc.WaitClients? && s.clientsOwner.None?
    case LeaveClients(t) => pc == HasClients(None)
    case Depart(t) => pc == HasClients(None) && !HasCurrent(s, t)
    case WantScan(t, y) => pc == HasSet(Delete) && y !in s.removed
    case EndScan(t, _) => pc.HasClients? && pc.victim.Some?
    case RemoveVictim(t) => pc.WaitVictim? && MayTake(s, t, pc.y)
    case WantSource(t, i, j) => pc == HasSet(Copy) && i !in s.removed && j !in s.removed
    case GetSource(t) => pc.WaitSource? && MayTake(s, t, pc.i)
    case GetTarget(t) => pc.WaitTarget? && MayTake(s, t, pc.j)
    case EndCopy(t, _) => pc.HasBoth?
  }

  function Goto(s: State, t: Thread, pc: Pc): State {
    s.(pcs := s.pcs[t := pc])
  }

  function Next(s: State, a: Action): State
    requires Enabled(s, a)
  {
    var pc := PcOf(s, a.t);
    match a
    case WantStore(t) => Goto(s, t, WaitStore(s.current[t]))
    case GetStore(t) => Goto(s, t, Running).(owner := s.owner[pc.x := t])
    case DropStore(t) => s.(owner := s.owner - {s.current[t]})
    case WantSet(t, job) => Goto(s, t, WaitSet(job))
    case GetSet(t) => Goto(s, t, HasSet(pc.job)).(setOwner := Some(t))
    case LeaveSet(t) => Goto(s, t, Running).(setOwner := None)
    case Choose(t, target) => Goto(s, t, Chose(target)).(setOwner := None)
    case Assign(t) =>
      Goto(s, t, Running).(current := if pc.target.Some? then s.current[t := pc.target.value] else s.current - {t})
    case WantClients(t) => Goto(s, t, WaitClients(None))
    case GetClients(t) => Goto(s, t, HasClients(pc.victim)).(clientsOwner := Some(t))
    case LeaveClients(t) => Goto(s, t, Running).(clientsOwner := None)
    case Depart(t) => Goto(s, t, Running).(clientsOwner := None, current := s.current - {t})
    case WantScan(t, y) => Goto(s, t, WaitClients(Some(y)))
    case EndScan(t, used) =>
      Goto(s, t, if used then HasSet(Delete) else WaitVictim(pc.victim.value)).(clientsOwner := None)
    case RemoveVictim(t) => Goto(s, t, HasSet(Delete)).(owner := s.owner - {pc.y}, removed := s.removed + {pc.y})
    case WantSource(t, i, j) => Goto(s, t, WaitSource(i, j))
    case GetSource(t) => Goto(s, t, WaitTarget(pc.i, pc.j)).(owner := s.owner[pc.i := t])
    case GetTarget(t) => Goto(s, t, HasBoth(pc.i, pc.j)).(owner := s.owner[pc.j := t])
    // An open transaction keeps its lock, on the current store only.
    case EndCopy(t, keep) =>
      var kept := if keep && t in s.current then {s.current[t]} else {};
      Goto(s, t, HasSet(Copy)).(owner := s.owner - ({pc.i, pc.j} - kept))
  }

  // The delete's scan misses no entry of the client table.
  ghost predicate Exact(s: State, a: Action) {
    a.EndScan? && PcOf(s, a.t).HasClients? && PcOf(s, a.t).victim.Some? ==>
      (a.used <==> InUse(s, PcOf(s, a.t).victim.value))
  }

  const START := State(map[], map[], map[], None, None, {})

  ghost predicate StepAt(ss: seq<State>, acts: seq<Action>, n: nat)
    requires n < |acts| < |ss|
  {
    Enabled(ss[n], acts[n]) && ss[n + 1] == Next(ss[n], acts[n])
  }

  // A scan may say anything.
  ghost predicate IsRun(ss: seq<State>, acts: seq<Action>) {
    && |ss| == |acts| + 1 && ss[0] == START
    && forall n :: 0 <= n < |acts| ==> StepAt(ss, acts, n)
  }

  ghost predicate ExactScans(ss: seq<State>, acts: seq<Action>)
    requires |acts| < |ss|
  {
    forall n :: 0 <= n < |acts| ==> Exact(ss[n], acts[n])
  }

  // ----- What every step keeps -----

  predicate InSet(pc: Pc) {
    || pc.HasSet? || (pc.WaitClients? && pc.victim.Some?) || (pc.HasClients? && pc.victim.Some?)
    || pc.WaitVictim? || pc.WaitSource? || pc.WaitTarget? || pc.HasBoth?
  }

  // A thread at pc may hold the lock of store x.
  predicate MayHave(s: State, t: Thread, x: StoreId) {
    var pc := PcOf(s, t);
    || (t in s.current && s.current[t] == x && !pc.WaitStore? && !pc.Chose? && pc != WaitSet(Look) && pc != HasSet(Look))
    || (pc.WaitTarget? && x == pc.i)
    || (pc.HasBoth? && (x == pc.i || x == pc.j))
  }

  ghost predicate MutexInv(s: State) {
    && (forall t: Thread :: InSet(PcOf(s, t)) <==> s.setOwner == Some(t))
    && (forall t: Thread :: PcOf(s, t).HasClients? <==> s.clientsOwner == Some(t))
  }

  ghost predicate OwnerInv(s: State) {
    && (forall x :: x in s.owner ==> MayHave(s, s.owner[x], x))
    && (forall t: Thread :: PcOf(s, t).WaitStore? ==> t in s.current && s.current[t] == PcOf(s, t).x)
  }

  ghost predicate Inv(s: State) {
    MutexInv(s) && OwnerInv(s)
  }

  lemma OthersStay(s: State, a: Action)
    requires Enabled(s, a)
    ensures forall t :: t != a.t ==> PcOf(Next(s, a), t) == PcOf(s, t)
    ensures forall t :: t != a.t ==> (t in Next(s, a).current <==> t in s.current)
    ensures forall t :: t != a.t && t in s.current ==> Next(s, a).current[t] == s.current[t]
  {
  }

  lemma MutexKeeps(s: State, a: Action)
    requires MutexInv(s) && Enabled(s, a)
    ensures MutexInv(Next(s, a))
  {
    OthersStay(s, a);
  }

  lemma OwnerKeeps(s: State, a: Action)
    requires OwnerInv(s) && Enabled(s, a)
    ensures OwnerInv(Next(s, a))
  {
    OthersStay(s, a);
  }

  lemma {:induction false} RunInv(ss: seq<State>, acts: seq<Action>, n: nat)
    requires IsRun(ss, acts) && n <= |acts|
    ensures Inv(ss[n])
  {
    if n > 0 {
      RunInv(ss, acts, n - 1);
      assert StepAt(ss, acts, n - 1);
      MutexKeeps(ss[n - 1], acts[n - 1]);
      OwnerKeeps(ss[n - 1], acts[n - 1]);
    }
  }

  // ----- Who waits for whom -----

  // The store whose lock a thread at this point asks for.
  function WantedStore(pc: Pc): Option<StoreId> {
    match pc
    case WaitStore(x) => Some(x)
    case WaitVictim(y) => Some(y)
    case WaitSource(i, _) => Some(i)
    case WaitTarget(_, j) => Some(j)
    case _ => None
  }

  // lockDS returns at once to the holder; a mutex waits for its holder, whoever it is.
  ghost predicate WaitsFor(s: State, t: Thread, u: Thread) {
    var pc := PcOf(s, t);
    || (WantedStore(pc).Some? && u != t && Has(s, u, WantedStore(pc).value))
    || (pc.WaitSet? && s.setOwner == Some(u))
    || (pc.WaitClients? && s.clientsOwner == Some(u))
  }

  // ts goes round: each thread waits for the next and the last is the first.
  ghost predicate Cycle(s: State, ts: seq<Thread>) {
    && |ts| >= 2 && ts[0] == ts[|ts| - 1]
    && forall k :: 0 <= k < |ts| - 1 ==> WaitsFor(s, ts[k], ts[k + 1])
  }

  // A copy, or a delete, that holds the registry waits for a store whose holder waits for the registry.
  ghost predicate CopyStuck(s: State, t: Thread, u: Thread) {
    CopyWait(PcOf(s, t)) && u != t && Has(s, u, WantedStore(PcOf(s, t)).value) && PcOf(s, u).WaitSet?
  }

  ghost predicate DeleteStuck(s: State, t: Thread, u: Thread) {
    PcOf(s, t).WaitVictim? && u != t && Has(s, u, PcOf(s, t).y) && PcOf(s, u).WaitSet?
  }

  ghost predicate Stuck(s: State, t: Thread, u: Thread) {
    CopyStuck(s, t, u) || DeleteStuck(s, t, u)
  }

  ghost predicate Blocked(s: State, t: Thread) {
    exists u :: WaitsFor(s, t, u)
  }

  predicate CopyWait(pc: Pc) {
    pc.WaitSource? || pc.WaitTarget?
  }

  // Lower waits lead to higher ones.
  function Level(pc: Pc): nat {
    if pc.WaitStore? then 0 else if pc.WaitSet? then 1 else if CopyWait(pc) || pc.WaitVictim? then 2 else 3
  }

  lemma LevelRises(s: State, t: Thread, u: Thread, v: Thread)
    requires Inv(s) && WaitsFor(s, t, u) && WaitsFor(s, u, v) && !Stuck(s, t, u)
    ensures Level(PcOf(s, t)) < Level(PcOf(s, u))
  {
    assert WantedStore(PcOf(s, t)).Some? ==> MayHave(s, u, WantedStore(PcOf(s, t)).value);
    assert InSet(PcOf(s, t)) <==> s.setOwner == Some(t);
    assert InSet(PcOf(s, u)) <==> s.setOwner == Some(u);
    assert PcOf(s, u).HasClients? <==> s.clientsOwner == Some(u);
  }

  // With nobody stuck, whoever is waited for in the end does not wait.
  lemma {:induction false} WaitEnds(s: State, t: Thread) returns (path: seq<Thread>)
    requires Inv(s) && forall u, v :: !Stuck(s, u, v)
    ensures path != [] && path[0] == t && !Blocked(s, path[|path| - 1])
    ensures forall k :: 0 <= k < |path| - 1 ==> WaitsFor(s, path[k], path[k + 1])
    decreases if Blocked(s, t) then 4 - Level(PcOf(s, t)) else 0
  {
    path := [t];
    if Blocked(s, t) {
      var u :| WaitsFor(s, t, u);
      if Blocked(s, u) {
        var v :| WaitsFor(s, u, v);
        LevelRises(s, t, u, v);
      }
      var rest := WaitEnds(s, u);
      path := [t] + rest;
    }
  }

  lemma {:induction false} LevelAlong(s: State, ts: seq<Thread>, k: nat)
    requires Inv(s) && Cycle(s, ts) && (forall u, v :: !Stuck(s, u, v)) && k < |ts| - 1
    ensures Level(PcOf(s, ts[0])) + k <= Level(PcOf(s, ts[k]))
  {
    if k > 0 {
      LevelAlong(s, ts, k - 1);
      assert WaitsFor(s, ts[k - 1], ts[k]) && WaitsFor(s, ts[k], ts[k + 1]);
      LevelRises(s, ts[k - 1], ts[k], ts[k + 1]);
    }
  }

  // Some threads wait for each other in a ring.
  ghost predicate Ring(s: State) {
    exists ts :: Cycle(s, ts)
  }

  ghost predicate AnyStuck(s: State) {
    exists t, u :: Stuck(s, t, u)
  }

  // A ring is always a copy or a delete, holding the registry, and the holder of the store it waits for.
  lemma RingIffStuck(s: State)
    requires Inv(s)
    ensures Ring(s) <==> AnyStuck(s)
  {
    if AnyStuck(s) {
      var t: Thread, u: Thread :| Stuck(s, t, u);
      assert s.setOwner == Some(t);
      var ts := [t, u, t];
      assert forall k :: 0 <= k < |ts| - 1 ==> WaitsFor(s, ts[k], ts[k + 1]);
      assert Cycle(s, ts);
    } else {
      forall ts ensures !Cycle(s, ts) {
        if Cycle(s, ts) {
          var last := |ts| - 2;
          LevelAlong(s, ts, last);
          assert WaitsFor(s, ts[last], ts[0]) && WaitsFor(s, ts[0], ts[1]);
          LevelRises(s, ts[last], ts[0], ts[1]);
        }
      }
    }
  }

  // ----- The step that closes a ring -----

  // Another thread than t holds store x and waits for the registry.
  ghost predicate HolderWaits(s: State, t: Thread, x: StoreId) {
    x in s.owner && s.owner[x] != t && PcOf(s, s.owner[x]).WaitSet?
  }

  // The holder of the registry waits for a store that u holds.
  ghost predicate Wanted(s: State, u: Thread) {
    && s.setOwner.Some? && s.setOwner.value != u
    && WantedStore(PcOf(s, s.setOwner.value)).Some? && Has(s, u, WantedStore(PcOf(s, s.setOwner.value)).value)
  }

  // What can be seen before the step: a client about to ask for the registry holds the store its holder waits
  // for, or a copy or delete about to ask for a store whose holder waits for the registry.
  ghost predicate Closes(s: State, a: Action)
    requires Enabled(s, a)
  {
    match a
    case WantSet(u, _) => Wanted(s, u)
    case WantSource(t, i, _) => HolderWaits(s, t, i)
    case GetSource(t) => HolderWaits(s, t, PcOf(s, t).j)
    case EndScan(t, used) => !used && HolderWaits(s, t, PcOf(s, t).victim.value)
    case _ => false
  }

  lemma CopyStuckAfter(s: State, a: Action, t: Thread, u: Thread)
    requires Inv(s) && Enabled(s, a) && !Stuck(s, t, u) && CopyStuck(Next(s, a), t, u)
    ensures Closes(s, a)
  {
    OthersStay(s, a);
    assert InSet(PcOf(s, t)) <==> s.setOwner == Some(t);
  }

  lemma DeleteStuckAfter(s: State, a: Action, t: Thread, u: Thread)
    requires Inv(s) && Enabled(s, a) && !Stuck(s, t, u) && DeleteStuck(Next(s, a), t, u)
    ensures Closes(s, a)
  {
    OthersStay(s, a);
    assert InSet(PcOf(s, t)) <==> s.setOwner == Some(t);
  }

  lemma StuckAfter(s: State, a: Action, t: Thread, u: Thread)
    requires Inv(s) && Enabled(s, a) && !AnyStuck(s) && Stuck(Next(s, a), t, u)
    ensures Closes(s, a)
  {
    assert !Stuck(s, t, u);
    if CopyStuck(Next(s, a), t, u) { CopyStuckAfter(s, a, t, u); } else { DeleteStuckAfter(s, a, t, u); }
  }

  lemma ClosesSticks(s: State, a: Action)
    requires Inv(s) && Enabled(s, a) && Closes(s, a)
    ensures AnyStuck(Next(s, a))
  {
    OthersStay(s, a);
    var s' := Next(s, a);
    match a
    case WantSet(u, _) => assert Stuck(s', s.setOwner.value, u);
    case WantSource(t, i, _) => assert Stuck(s', t, s.owner[i]);
    case GetSource(t) => assert Stuck(s', t, s.owner[PcOf(s, t).j]);
    case EndScan(t, used) => assert Stuck(s', t, s.owner[PcOf(s, t).victim.value]);
  }

  // From a state without a ring, a step makes one if and only if it closes one.
  lemma RingStepIff(s: State, a: Action)
    requires Inv(s) && Enabled(s, a) && !Ring(s)
    ensures Ring(Next(s, a)) <==> Closes(s, a)
  {
    MutexKeeps(s, a);
    OwnerKeeps(s, a);
    RingIffStuck(s);
    RingIffStuck(Next(s, a));
    if Closes(s, a) { ClosesSticks(s, a); }
    if AnyStuck(Next(s, a)) {
      var t: Thread, u: Thread :| Stuck(Next(s, a), t, u);
      StuckAfter(s, a, t, u);
    }
  }

  ghost predicate ClosesAt(ss: seq<State>, acts: seq<Action>, n: nat)
    requires IsRun(ss, acts) && n < |acts|
  {
    StepAt(ss, acts, n) && Closes(ss[n], acts[n])
  }

  lemma {:induction false} RingFree(ss: seq<State>, acts: seq<Action>, n: nat)
    requires IsRun(ss, acts) && n <= |acts|
    requires forall k :: 0 <= k < n ==> !ClosesAt(ss, acts, k)
    ensures !Ring(ss[n])
  {
    RunInv(ss, acts, n);
    if n == 0 {
      RingIffStuck(START);
    } else {
      RingFree(ss, acts, n - 1);
      RunInv(ss, acts, n - 1);
      assert StepAt(ss, acts, n - 1) && !ClosesAt(ss, acts, n - 1);
      RingStepIff(ss[n - 1], acts[n - 1]);
    }
  }

  // In every run, whatever the scans say: there is never a ring if and only if no step closes one.
  lemma DeadlockIff(ss: seq<State>, acts: seq<Action>)
    requires IsRun(ss, acts)
    ensures (forall n :: 0 <= n <= |acts| ==> !Ring(ss[n])) <==> forall k :: 0 <= k < |acts| ==> !ClosesAt(ss, acts, k)
  {
    if forall k :: 0 <= k < |acts| ==> !ClosesAt(ss, acts, k) {
      forall n | 0 <= n <= |acts| ensures !Ring(ss[n]) { RingFree(ss, acts, n); }
    }
    if forall n :: 0 <= n <= |acts| ==> !Ring(ss[n]) {
      forall k | 0 <= k < |acts| ensures !ClosesAt(ss, acts, k) {
        RunInv(ss, acts, k);
        assert StepAt(ss, acts, k) && !Ring(ss[k]) && !Ring(ss[k + 1]);
        RingStepIff(ss[k], acts[k]);
      }
    }
  }

  // ----- Deletes and clients that have just looked a store up -----

  // A store about to be deleted is used by nobody, and nobody is about to use it.
  ghost predicate VictimInv(s: State) {
    forall t: Thread :: PcOf(s, t).WaitVictim? ==> !InUse(s, PcOf(s, t).y) && !Chosen(s, PcOf(s, t).y)
  }

  // The scan of a delete sees the client table; a client between lookup and assignment is not in it.
  lemma ScanKeepsVictimsIff(s: State, t: Thread)
    requires MutexInv(s) && VictimInv(s) && Enabled(s, EndScan(t, false)) && Exact(s, EndScan(t, false))
    ensures VictimInv(Next(s, EndScan(t, false))) <==> !Chosen(s, PcOf(s, t).victim.value)
  {
    var a, y := EndScan(t, false), PcOf(s, t).victim.value;
    var s' := Next(s, a);
    OthersStay(s, a);
    assert PcOf(s', t) == WaitVictim(y);
    if u: Thread :| PcOf(s, u) == Chose(Some(y)) {
      assert PcOf(s', u) == Chose(Some(y));
    } else {
      forall v: Thread | PcOf(s', v).WaitVictim? ensures !InUse(s', PcOf(s', v).y) && !Chosen(s', PcOf(s', v).y) {
        assert v != t ==> s.setOwner == Some(v);
        assert forall u :: Uses(s', u, y) ==> Uses(s, u, y);
        assert forall u :: PcOf(s', u) == Chose(Some(y)) ==> PcOf(s, u) == Chose(Some(y));
      }
    }
  }

  lemma OthersKeepVictims(s: State, a: Action)
    requires MutexInv(s) && VictimInv(s) && Enabled(s, a) && (a.EndScan? ==> a.used)
    ensures VictimInv(Next(s, a))
  {
    OthersStay(s, a);
    var s' := Next(s, a);
    forall t: Thread | PcOf(s', t).WaitVictim? ensures !InUse(s', PcOf(s', t).y) && !Chosen(s', PcOf(s', t).y) {
      var y := PcOf(s', t).y;
      assert PcOf(s, t) == WaitVictim(y) && s.setOwner == Some(t);
      forall u ensures !Uses(s', u, y) && PcOf(s', u) != Chose(Some(y)) {
        assert !Uses(s, u, y) && PcOf(s, u) != Chose(Some(y));
      }
    }
  }

  // No delete scans while a client stands between looking its victim up and remembering it.
  ghost predicate NoneBetween(s: State, a: Action) {
    a.EndScan? && !a.used && PcOf(s, a.t).HasClients? && PcOf(s, a.t).victim.Some? ==>
      !Chosen(s, PcOf(s, a.t).victim.value)
  }

  lemma VictimStepIff(s: State, a: Action)
    requires MutexInv(s) && VictimInv(s) && Enabled(s, a) && Exact(s, a)
    ensures VictimInv(Next(s, a)) <==> NoneBetween(s, a)
  {
    if a.EndScan? && !a.used { ScanKeepsVictimsIff(s, a.t); } else { OthersKeepVictims(s, a); }
  }

  lemma {:induction false} VictimsSafe(ss: seq<State>, acts: seq<Action>, n: nat)
    requires IsRun(ss, acts) && ExactScans(ss, acts) && n <= |acts|
    requires forall k :: 0 <= k < n ==> NoneBetween(ss[k], acts[k])
    ensures VictimInv(ss[n])
  {
    if n > 0 {
      VictimsSafe(ss, acts, n - 1);
      RunInv(ss, acts, n - 1);
      assert StepAt(ss, acts, n - 1);
      VictimStepIff(ss[n - 1], acts[n - 1]);
    }
  }

  // With exact scans: no store in use, or about to be, is ever up for deletion if and only if
  // no delete scans while a client stands between lookup and assignment of the victim.
  lemma VictimsIff(ss: seq<State>, acts: seq<Action>)
    requires IsRun(ss, acts) && ExactScans(ss, acts)
    ensures (forall n :: 0 <= n <= |acts| ==> VictimInv(ss[n])) <==>
            forall k :: 0 <= k < |acts| ==> NoneBetween(ss[k], acts[k])
  {
    if forall k :: 0 <= k < |acts| ==> NoneBetween(ss[k], acts[k]) {
      forall n | 0 <= n <= |acts| ensures VictimInv(ss[n]) { VictimsSafe(ss, acts, n); }
    }
    if forall n :: 0 <= n <= |acts| ==> VictimInv(ss[n]) {
      forall k | 0 <= k < |acts| ensures NoneBetween(ss[k], acts[k]) {
        RunInv(ss, acts, k);
        assert StepAt(ss, acts, k) && VictimInv(ss[k]) && VictimInv(ss[k + 1]);
        VictimStepIff(ss[k], acts[k]);
      }
    }
  }

  // No client uses a deleted store.
  ghost predicate LiveInv(s: State) {
    forall u, y :: Uses(s, u, y) || PcOf(s, u) == Chose(Some(y)) ==> y !in s.removed
  }

  lemma LiveKeeps(s: State, a: Action)
    requires VictimInv(s) && LiveInv(s) && Enabled(s, a)
    ensures LiveInv(Next(s, a))
  {
    OthersStay(s, a);
    var s' := Next(s, a);
    forall u, y | Uses(s', u, y) || PcOf(s', u) == Chose(Some(y)) ensures y !in s'.removed {
      if a != Choose(u, Some(y)) {
        assert Uses(s, u, y) || PcOf(s, u) == Chose(Some(y));
        assert a.RemoveVictim? ==> !InUse(s, PcOf(s, a.t).y) && !Chosen(s, PcOf(s, a.t).y);
      }
    }
  }

  lemma {:induction false} NoDanglingStore(ss: seq<State>, acts: seq<Action>, n: nat)
    requires IsRun(ss, acts) && ExactScans(ss, acts) && n <= |acts|
    requires forall k :: 0 <= k < |acts| ==> NoneBetween(ss[k], acts[k])
    ensures LiveInv(ss[n])
  {
    if n > 0 {
      NoDanglingStore(ss, acts, n - 1);
      VictimsSafe(ss, acts, n - 1);
      assert StepAt(ss, acts, n - 1);
      LiveKeeps(ss[n - 1], acts[n - 1]);
    }
  }

  // ----- Runs without copies -----

  predicate CopyFree(pc: Pc) {
    pc != WaitSet(Copy) && pc != HasSet(Copy) && !CopyWait(pc) && !pc.HasBoth?
  }

  lemma {:induction false} StaysCopyFree(ss: seq<State>, acts: seq<Action>, n: nat)
    requires IsRun(ss, acts) && n <= |acts|
    requires forall k :: 0 <= k < |acts| && acts[k].WantSet? ==> !acts[k].job.Copy?
    ensures forall t :: CopyFree(PcOf(ss[n], t))
  {
    if n > 0 {
      StaysCopyFree(ss, acts, n - 1);
      assert StepAt(ss, acts, n - 1);
      OthersStay(ss[n - 1], acts[n - 1]);
      assert CopyFree(PcOf(ss[n - 1], acts[n - 1].t));
    }
  }

  // A store that nobody uses is locked by nobody but the thread that copies or deletes it.
  lemma VictimFree(s: State, t: Thread, u: Thread)
    requires Inv(s) && VictimInv(s)
    ensures !DeleteStuck(s, t, u)
  {
    if PcOf(s, t).WaitVictim? {
      var y := PcOf(s, t).y;
      assert InSet(PcOf(s, t)) && !Uses(s, u, y);
      assert Has(s, u, y) ==> MayHave(s, u, y);
    }
  }

  // Without copies, with exact scans and no delete between a client's lookup and assignment, there
  // is never a ring.
  lemma NoCopyNoDeadlock(ss: seq<State>, acts: seq<Action>, n: nat)
    requires IsRun(ss, acts) && ExactScans(ss, acts) && n <= |acts|
    requires forall k :: 0 <= k < |acts| ==> NoneBetween(ss[k], acts[k])
    requires forall k :: 0 <= k < |acts| && acts[k].WantSet? ==> !acts[k].job.Copy?
    ensures !Ring(ss[n])
  {
    RunInv(ss, acts, n);
    VictimsSafe(ss, acts, n);
    StaysCopyFree(ss, acts, n);
    forall t, u ensures !Stuck(ss[n], t, u) {
      VictimFree(ss[n], t, u);
      assert CopyFree(PcOf(ss[n], t));
    }
    RingIffStuck(ss[n]);
  }

  // ----- Three runs -----

  // One more step of a run with exact scans.
  lemma RunMore(ss: seq<State>, acts: seq<Action>, a: Action)
    requires IsRun(ss, acts) && ExactScans(ss, acts) && Enabled(ss[|acts|], a) && Exact(ss[|acts|], a)
    ensures IsRun(ss + [Next(ss[|acts|], a)], acts + [a]) && ExactScans(ss + [Next(ss[|acts|], a)], acts + [a])
  {
    var ss', acts' := ss + [Next(ss[|acts|], a)], acts + [a];
    forall n | 0 <= n < |acts'| ensures StepAt(ss', acts', n) {
      if n < |acts| { assert StepAt(ss, acts, n); }
    }
    forall n | 0 <= n < |acts'| ensures Exact(ss'[n], acts'[n]) {
      if n < |acts| { assert Exact(ss[n], acts[n]); }
    }
  }

  // Client 0 has looked store 5 up.
  lemma ChosenRun() returns (ss: seq<State>, acts: seq<Action>)
    ensures IsRun(ss, acts) && ExactScans(ss, acts) && |acts| == 3
    ensures acts == [WantSet(0, Look), GetSet(0), Choose(0, Some(5))]
    ensures ss[3] == State(map[0 := Chose(Some(5))], map[], map[], None, None, {})
  {
    ss, acts := [START], [];
    RunMore(ss, acts, WantSet(0, Look));
    ss, acts := ss + [Next(ss[|acts|], WantSet(0, Look))], acts + [WantSet(0, Look)];
    RunMore(ss, acts, GetSet(0));
    ss, acts := ss + [Next(ss[|acts|], GetSet(0))], acts + [GetSet(0)];
    RunMore(ss, acts, Choose(0, Some(5)));
    ss, acts := ss + [Next(ss[|acts|], Choose(0, Some(5)))], acts + [Choose(0, Some(5))];
  }

  // It has the store locked, in a transaction say.
  lemma LockedRun() returns (ss: seq<State>, acts: seq<Action>)
    ensures IsRun(ss, acts) && ExactScans(ss, acts)
    ensures ss[|acts|] == State(map[0 := Running], map[0 := 5], map[5 := 0], None, None, {})
  {
    ss, acts := ChosenRun();
    RunMore(ss, acts, Assign(0));
    ss, acts := ss + [Next(ss[|acts|], Assign(0))], acts + [Assign(0)];
    RunMore(ss, acts, WantStore(0));
    ss, acts := ss + [Next(ss[|acts|], WantStore(0))], acts + [WantStore(0)];
    RunMore(ss, acts, GetStore(0));
    ss, acts := ss + [Next(ss[|acts|], GetStore(0))], acts + [GetStore(0)];
  }

  // Another client's copy holds the registry and waits for the store.
  lemma CopyWaitsRun() returns (ss: seq<State>, acts: seq<Action>)
    ensures IsRun(ss, acts) && ExactScans(ss, acts)
    ensures ss[|acts|] == State(map[0 := Running, 1 := WaitSource(5, 6)], map[0 := 5], map[5 := 0], Some(1), None, {})
  {
    ss, acts := LockedRun();
    RunMore(ss, acts, WantSet(1, Copy));
    ss, acts := ss + [Next(ss[|acts|], WantSet(1, Copy))], acts + [WantSet(1, Copy)];
    RunMore(ss, acts, GetSet(1));
    ss, acts := ss + [Next(ss[|acts|], GetSet(1))], acts + [GetSet(1)];
    RunMore(ss, acts, WantSource(1, 5, 6));
    ss, acts := ss + [Next(ss[|acts|], WantSource(1, 5, 6))], acts + [WantSource(1, 5, 6)];
  }

  // When client 0 commits, both wait for ever.
  lemma CopyCanDeadlock() returns (ss: seq<State>, acts: seq<Action>)
    ensures IsRun(ss, acts) && ExactScans(ss, acts) && Cycle(ss[|acts|], [0, 1, 0])
  {
    ss, acts := CopyWaitsRun();
    RunMore(ss, acts, WantSet(0, Number));
    ss, acts := ss + [Next(ss[|acts|], WantSet(0, Number))], acts + [WantSet(0, Number)];
  }

  // A delete scans the table before client 0, which has looked store 5 up, has remembered it.
  lemma ScanTooEarlyRun() returns (ss: seq<State>, acts: seq<Action>)
    ensures IsRun(ss, acts) && ExactScans(ss, acts)
    ensures ss[|acts|] == State(map[0 := Chose(Some(5)), 1 := HasClients(Some(5))], map[], map[], Some(1), Some(1), {})
    ensures forall k :: 0 <= k < |acts| && acts[k].WantSet? ==> !acts[k].job.Copy?
  {
    ss, acts := ChosenRun();
    RunMore(ss, acts, WantSet(1, Delete));
    ss, acts := ss + [Next(ss[|acts|], WantSet(1, Delete))], acts + [WantSet(1, Delete)];
    RunMore(ss, acts, GetSet(1));
    ss, acts := ss + [Next(ss[|acts|], GetSet(1))], acts + [GetSet(1)];
    RunMore(ss, acts, WantScan(1, 5));
    ss, acts := ss + [Next(ss[|acts|], WantScan(1, 5))], acts + [WantScan(1, 5)];
    RunMore(ss, acts, GetClients(1));
    ss, acts := ss + [Next(ss[|acts|], GetClients(1))], acts + [GetClients(1)];
  }

  lemma DeleteRaces() returns (ss: seq<State>, acts: seq<Action>)
    ensures IsRun(ss, acts) && ExactScans(ss, acts)
    ensures PcOf(ss[|acts|], 0) == Chose(Some(5)) && PcOf(ss[|acts|], 1) == WaitVictim(5)
    ensures ss[|acts|] == State(map[0 := Chose(Some(5)), 1 := WaitVictim(5)], map[], map[], Some(1), None, {})
    ensures forall k :: 0 <= k < |acts| && acts[k].WantSet? ==> !acts[k].job.Copy?
  {
    ss, acts := ScanTooEarlyRun();
    RunMore(ss, acts, EndScan(1, false));
    ss, acts := ss + [Next(ss[|acts|], EndScan(1, false))], acts + [EndScan(1, false)];
  }

  // The store is deleted all the same, and client 0 remembers a store that is gone.
  lemma DeleteLeavesDangling() returns (ss: seq<State>, acts: seq<Action>)
    ensures IsRun(ss, acts) && ExactScans(ss, acts)
    ensures Uses(ss[|acts|], 0, 5) && 5 in ss[|acts|].removed
  {
    ss, acts := DeleteRaces();
    RunMore(ss, acts, RemoveVictim(1));
    ss, acts := ss + [Next(ss[|acts|], RemoveVictim(1))], acts + [RemoveVictim(1)];
    RunMore(ss, acts, Assign(0));
    ss, acts := ss + [Next(ss[|acts|], Assign(0))], acts + [Assign(0)];
  }

  // Or client 0 locks the store first and commits: the delete and the commit wait for each other.
  lemma DeleteWaitsRun() returns (ss: seq<State>, acts: seq<Action>)
    ensures IsRun(ss, acts) && ExactScans(ss, acts)
    ensures ss[|acts|] == State(map[0 := Running, 1 := WaitVictim(5)], map[0 := 5], map[5 := 0], Some(1), None, {})
    ensures forall k :: 0 <= k < |acts| && acts[k].WantSet? ==> !acts[k].job.Copy?
  {
    ss, acts := DeleteRaces();
    RunMore(ss, acts, Assign(0));
    ss, acts := ss + [Next(ss[|acts|], Assign(0))], acts + [Assign(0)];
    RunMore(ss, acts, WantStore(0));
    ss, acts := ss + [Next(ss[|acts|], WantStore(0))], acts + [WantStore(0)];
    RunMore(ss, acts, GetStore(0));
    ss, acts := ss + [Next(ss[|acts|], GetStore(0))], acts + [GetStore(0)];
  }

  lemma DeleteCanDeadlock() returns (ss: seq<State>, acts: seq<Action>)
    ensures IsRun(ss, acts) && ExactScans(ss, acts) && Cycle(ss[|acts|], [0, 1, 0])
    ensures forall k :: 0 <= k < |acts| && acts[k].WantSet? ==> !acts[k].job.Copy?
  {
    ss, acts := DeleteWaitsRun();
    RunMore(ss, acts, WantSet(0, Number));
    ss, acts := ss + [Next(ss[|acts|], WantSet(0, Number))], acts + [WantSet(0, Number)];
  }
}
