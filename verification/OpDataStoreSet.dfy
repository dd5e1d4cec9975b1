// The operational data stores: a bounded array of names, each with at most one owner.
module OpSpec {
  import opened Base

  const MAX_NAME_LENGTH := 1025

  datatype OpEntry = OpEntry(name: string, owner: Option<nat>)

  ghost predicate DistinctNames(s: seq<OpEntry>) {
    forall i, j :: 0 <= i < j < |s| ==> s[i].name != s[j].name
  }

  // Where name stands, or the length when it is absent.
  function Find(s: seq<OpEntry>, name: string): (i: nat)
    ensures i <= |s|
    ensures i < |s| ==> s[i].name == name
    ensures forall j :: 0 <= j < i ==> s[j].name != name
  {
    if s == [] || s[0].name == name then 0 else 1 + Find(s[1..], name)
  }

  function RemoveAt<T>(s: seq<T>, i: nat): seq<T>
    requires i < |s|
  {
    s[..i] + s[i + 1..]
  }

  // 0: no room or a name too long. 1: added. 2: already there.
  function AddOp(s: seq<OpEntry>, max: nat, name: string): (seq<OpEntry>, int) {
    if |s| == max then (s, 0)
    else if Find(s, name) < |s| then (s, 2)
    else if |name| > MAX_NAME_LENGTH then (s, 0)
    else (s + [OpEntry(name, None)], 1)
  }

  // Deleting an absent name reports 1, like a deletion; another's store reports -1.
  function DeleteOp(s: seq<OpEntry>, name: string, c: nat): (seq<OpEntry>, int) {
    var i := Find(s, name);
    if i == |s| then (s, 1)
    else if s[i].owner == None || s[i].owner == Some(c) then (RemoveAt(s, i), 1)
    else (s, -1)
  }

  function Own(s: seq<OpEntry>, name: string, c: nat): (seq<OpEntry>, bool) {
    var i := Find(s, name);
    if i == |s| || s[i].owner != None then (s, false) else (s[i := OpEntry(name, Some(c))], true)
  }

  function Release(s: seq<OpEntry>, name: string, c: nat): (seq<OpEntry>, int) {
    var i := Find(s, name);
    if i == |s| || s[i].owner != Some(c) then (s, 0) else (s[i := OpEntry(name, None)], 1)
  }

  function Released(e: OpEntry, c: nat): OpEntry {
    if e.owner == Some(c) then e.(owner := None) else e
  }

  function ReleaseAll(s: seq<OpEntry>, c: nat): (r: seq<OpEntry>)
    ensures |r| == |s|
    ensures forall i :: 0 <= i < |s| ==> r[i] == Released(s[i], c)
  {
    seq(|s|, i requires 0 <= i < |s| => Released(s[i], c))
  }

  function OwnedBy(s: seq<OpEntry>, c: nat): seq<string> {
    if s == [] then []
    else
      var k := |s| - 1;
      OwnedBy(s[..k], c) + if s[k].owner == Some(c) then [s[k].name] else []
  }

  datatype OpCommand = CreateOp(name: string) | DropOp(name: string) | UseOp(name: string)
                     | StopOp(name: string) | StopAllOps

  function OpStep(s: seq<OpEntry>, max: nat, c: nat, cmd: OpCommand): seq<OpEntry> {
    match cmd
    case CreateOp(name) => AddOp(s, max, name).0
    case DropOp(name) => DeleteOp(s, name, c).0
    case UseOp(name) => Own(s, name, c).0
    case StopOp(name) => Release(s, name, c).0
    case StopAllOps => ReleaseAll(s, c)
  }

  // The number reported for a command; taking a store reports 1 or 0.
  function OpAnswer(s: seq<OpEntry>, max: nat, c: nat, cmd: OpCommand): int {
    match cmd
    case CreateOp(name) => AddOp(s, max, name).1
    case DropOp(name) => DeleteOp(s, name, c).1
    case UseOp(name) => if Own(s, name, c).1 then 1 else 0
    case StopOp(name) => Release(s, name, c).1
    case StopAllOps => |OwnedBy(s, c)|
  }

  function OpRun(s: seq<OpEntry>, max: nat, cmds: seq<(nat, OpCommand)>): seq<OpEntry>
    decreases |cmds|
  {
    if cmds == [] then s else OpRun(OpStep(s, max, cmds[0].0, cmds[0].1), max, cmds[1..])
  }

  // The registry as a map from names to owners.
  ghost function AsMap(s: seq<OpEntry>): map<string, Option<nat>> {
    if s == [] then map[] else AsMap(s[..|s| - 1])[s[|s| - 1].name := s[|s| - 1].owner]
  }

  lemma {:induction false} AsMapAt(s: seq<OpEntry>, name: string)
    requires DistinctNames(s)
    ensures name in AsMap(s) <==> Find(s, name) < |s|
    ensures Find(s, name) < |s| ==> AsMap(s)[name] == s[Find(s, name)].owner
  {
    if s != [] {
      var k := |s| - 1;
      AsMapAt(s[..k], name);
      if Find(s, name) < k {
        assert s[..k][Find(s, name)].name == name;
      }
      if Find(s[..k], name) < k {
        assert s[Find(s[..k], name)].name == name;
      }
    }
  }

  // What one command does to the map; only c's own hold on a store, or a free store, changes owner.
  ghost function MapStep(m: map<string, Option<nat>>, max: nat, c: nat, cmd: OpCommand): map<string, Option<nat>> {
    match cmd
    case CreateOp(n) => if |m| == max || n in m || |n| > MAX_NAME_LENGTH then m else m[n := None]
    case DropOp(n) => if n in m && (m[n] == None || m[n] == Some(c)) then m - {n} else m
    case UseOp(n) => if n in m && m[n] == None then m[n := Some(c)] else m
    case StopOp(n) => if n in m && m[n] == Some(c) then m[n := None] else m
    case StopAllOps => map n | n in m :: if m[n] == Some(c) then None else m[n]
  }

  lemma {:induction false} AsMapSize(s: seq<OpEntry>)
    requires DistinctNames(s)
    ensures |AsMap(s)| == |s|
  {
    if s != [] {
      var k := |s| - 1;
      AsMapSize(s[..k]);
      AsMapAt(s[..k], s[k].name);
      FindIs(s[..k], s[k].name, k);
    }
  }

  lemma FindAppend(s: seq<OpEntry>, e: OpEntry, name: string)
    requires Find(s, e.name) == |s|
    ensures Find(s + [e], name) == if name == e.name then |s| else if Find(s, name) < |s| then Find(s, name) else |s| + 1
  {
    var t := s + [e];
    FindIs(t, name, if name == e.name then |s| else if Find(s, name) < |s| then Find(s, name) else |s| + 1);
  }

  // Find is the only index with its contract.
  lemma FindIs(s: seq<OpEntry>, name: string, i: nat)
    requires i <= |s| && (i < |s| ==> s[i].name == name)
    requires forall j :: 0 <= j < i ==> s[j].name != name
    ensures Find(s, name) == i
  {
  }

  lemma RemoveAtDistinct(s: seq<OpEntry>, i: nat)
    requires DistinctNames(s) && i < |s|
    ensures DistinctNames(RemoveAt(s, i))
  {
    var r := RemoveAt(s, i);
    forall j | 0 <= j < |r| ensures r[j] == s[if j < i then j else j + 1] {}
  }

  lemma RemoveAtFind(s: seq<OpEntry>, i: nat, name: string)
    requires DistinctNames(s) && i < |s|
    ensures var k := Find(s, name);
            Find(RemoveAt(s, i), name) == if k == i then |s| - 1 else if k < i then k else k - 1
  {
    var r := RemoveAt(s, i);
    forall j | 0 <= j < |r| ensures r[j] == s[if j < i then j else j + 1] {}
    var k := Find(s, name);
    if k == i {
      forall j | 0 <= j < |r| ensures r[j].name != name {}
      FindIs(r, name, |s| - 1);
    } else {
      FindIs(r, name, if k < i then k else k - 1);
    }
  }

  // The entry a name leads to, if any.
  function Look(s: seq<OpEntry>, name: string): Option<Option<nat>> {
    var i := Find(s, name);
    if i < |s| then Some(s[i].owner) else None
  }

  ghost function LookMap(m: map<string, Option<nat>>, name: string): Option<Option<nat>> {
    if name in m then Some(m[name]) else None
  }

  lemma LookAsMap(s: seq<OpEntry>, name: string)
    requires DistinctNames(s)
    ensures LookMap(AsMap(s), name) == Look(s, name)
  {
    AsMapAt(s, name);
  }

  lemma LookSet(s: seq<OpEntry>, i: nat, owner: Option<nat>, n: string)
    requires DistinctNames(s) && i < |s|
    ensures var t := s[i := s[i].(owner := owner)];
            DistinctNames(t) && Look(t, n) == if n == s[i].name then Some(owner) else Look(s, n)
  {
    var t := s[i := s[i].(owner := owner)];
    FindIs(t, n, Find(s, n));
    if n == s[i].name { FindIs(s, n, i); }
  }

  lemma LookRemoved(s: seq<OpEntry>, i: nat, n: string)
    requires DistinctNames(s) && i < |s|
    ensures DistinctNames(RemoveAt(s, i))
    ensures Look(RemoveAt(s, i), n) == if n == s[i].name then None else Look(s, n)
  {
    RemoveAtDistinct(s, i);
    RemoveAtFind(s, i, n);
    if n == s[i].name { FindIs(s, n, i); }
  }

  lemma LookAdded(s: seq<OpEntry>, name: string, n: string)
    requires DistinctNames(s) && Find(s, name) == |s|
    ensures var t := s + [OpEntry(name, None)];
            DistinctNames(t) && Look(t, n) == if n == name then Some(None) else Look(s, n)
  {
    FindAppend(s, OpEntry(name, None), n);
  }

  lemma LookReleased(s: seq<OpEntry>, c: nat, n: string)
    requires DistinctNames(s)
    ensures DistinctNames(ReleaseAll(s, c))
    ensures Look(ReleaseAll(s, c), n) == if Look(s, n) == Some(Some(c)) then Some(None) else Look(s, n)
  {
    FindIs(ReleaseAll(s, c), n, Find(s, n));
  }

  // What one command leaves of one name.
  function LookAfter(s: seq<OpEntry>, max: nat, c: nat, cmd: OpCommand, n: string): Option<Option<nat>> {
    var now := Look(s, n);
    match cmd
    case CreateOp(x) => if n == x && |s| != max && now.None? && |x| <= MAX_NAME_LENGTH then Some(None) else now
    case DropOp(x) => if n == x && (now == Some(None) || now == Some(Some(c))) then None else now
    case UseOp(x) => if n == x && now == Some(None) then Some(Some(c)) else now
    case StopOp(x) => if n == x && now == Some(Some(c)) then Some(None) else now
    case StopAllOps => if now == Some(Some(c)) then Some(None) else now
  }

  lemma LookCreate(s: seq<OpEntry>, max: nat, c: nat, x: string, n: string)
    requires DistinctNames(s)
    ensures var t := OpStep(s, max, c, CreateOp(x)); DistinctNames(t) && Look(t, n) == LookAfter(s, max, c, CreateOp(x), n)
  {
    if Find(s, x) == |s| { LookAdded(s, x, n); }
  }

  lemma LookDrop(s: seq<OpEntry>, max: nat, c: nat, x: string, n: string)
    requires DistinctNames(s)
    ensures var t := OpStep(s, max, c, DropOp(x)); DistinctNames(t) && Look(t, n) == LookAfter(s, max, c, DropOp(x), n)
  {
    if Find(s, x) < |s| { LookRemoved(s, Find(s, x), n); }
  }

  lemma LookOwner(s: seq<OpEntry>, max: nat, c: nat, cmd: OpCommand, n: string)
    requires DistinctNames(s) && (cmd.UseOp? || cmd.StopOp?)
    ensures var t := OpStep(s, max, c, cmd); DistinctNames(t) && Look(t, n) == LookAfter(s, max, c, cmd, n)
  {
    var i := Find(s, cmd.name);
    if i < |s| { LookSet(s, i, if cmd.UseOp? then Some(c) else None, n); }
  }

  // What one command does to one name.
  lemma LookStep(s: seq<OpEntry>, max: nat, c: nat, cmd: OpCommand, n: string)
    requires DistinctNames(s)
    ensures DistinctNames(OpStep(s, max, c, cmd))
    ensures Look(OpStep(s, max, c, cmd), n) == LookAfter(s, max, c, cmd, n)
  {
    match cmd
    case CreateOp(x) => LookCreate(s, max, c, x, n);
    case DropOp(x) => LookDrop(s, max, c, x, n);
    case UseOp(_) => LookOwner(s, max, c, cmd, n);
    case StopOp(_) => LookOwner(s, max, c, cmd, n);
    case StopAllOps => LookReleased(s, c, n);
  }

  // The owner of a store goes from none to the client of the command, or from that client to none.
  lemma OwnerChanges(s: seq<OpEntry>, max: nat, c: nat, cmd: OpCommand, n: string)
    requires DistinctNames(s)
    requires Look(s, n).Some? && Look(OpStep(s, max, c, cmd), n).Some? && Look(OpStep(s, max, c, cmd), n) != Look(s, n)
    ensures {Look(s, n).value, Look(OpStep(s, max, c, cmd), n).value} == {None, Some(c)}
  {
    LookStep(s, max, c, cmd, n);
  }

  lemma LookMapStep(s: seq<OpEntry>, max: nat, c: nat, cmd: OpCommand, n: string)
    requires DistinctNames(s)
    ensures LookMap(MapStep(AsMap(s), max, c, cmd), n) == LookAfter(s, max, c, cmd, n)
  {
    LookAsMap(s, n);
    AsMapSize(s);
    if !cmd.StopAllOps? { LookAsMap(s, cmd.name); }
  }

  // One command on the array is the same command on the bounded map.
  lemma StepRefinesMap(s: seq<OpEntry>, max: nat, c: nat, cmd: OpCommand)
    requires DistinctNames(s) && |s| <= max
    ensures DistinctNames(OpStep(s, max, c, cmd)) && |OpStep(s, max, c, cmd)| <= max
    ensures AsMap(OpStep(s, max, c, cmd)) == MapStep(AsMap(s), max, c, cmd)
  {
    var t := OpStep(s, max, c, cmd);
    LookStep(s, max, c, cmd, "");
    forall n ensures LookMap(AsMap(t), n) == LookMap(MapStep(AsMap(s), max, c, cmd), n) {
      LookStep(s, max, c, cmd, n);
      LookAsMap(t, n);
      LookMapStep(s, max, c, cmd, n);
    }
    SameMap(AsMap(t), MapStep(AsMap(s), max, c, cmd));
  }

  lemma SameMap(m: map<string, Option<nat>>, n: map<string, Option<nat>>)
    requires forall x :: LookMap(m, x) == LookMap(n, x)
    ensures m == n
  {
    forall x ensures (x in m <==> x in n) && (x in m ==> m[x] == n[x]) {
      assert LookMap(m, x) == LookMap(n, x);
    }
  }

  ghost function MapRun(m: map<string, Option<nat>>, max: nat, cmds: seq<(nat, OpCommand)>): map<string, Option<nat>>
    decreases |cmds|
  {
    if cmds == [] then m else MapRun(MapStep(m, max, cmds[0].0, cmds[0].1), max, cmds[1..])
  }

  // Over any run by any clients, the array is the bounded map.
  lemma {:induction false} RunRefinesMap(s: seq<OpEntry>, max: nat, cmds: seq<(nat, OpCommand)>)
    requires DistinctNames(s) && |s| <= max
    ensures DistinctNames(OpRun(s, max, cmds)) && |OpRun(s, max, cmds)| <= max
    ensures AsMap(OpRun(s, max, cmds)) == MapRun(AsMap(s), max, cmds)
    decreases |cmds|
  {
    if cmds != [] {
      StepRefinesMap(s, max, cmds[0].0, cmds[0].1);
      RunRefinesMap(OpStep(s, max, cmds[0].0, cmds[0].1), max, cmds[1..]);
    }
  }

  // ----- The numbers told, over the map -----

  ghost function OwnedNames(m: map<string, Option<nat>>, c: nat): set<string> {
    set n | n in m && m[n] == Some(c)
  }

  // What a client is told: whether the store is there to create (2 when it is there already), another's to
  // delete, free to use, its own to stop; and how many stores it has given up.
  ghost function MapAnswer(m: map<string, Option<nat>>, max: nat, c: nat, cmd: OpCommand): int {
    match cmd
    case CreateOp(n) => if |m| == max then 0 else if n in m then 2 else if |n| > MAX_NAME_LENGTH then 0 else 1
    case DropOp(n) => if n in m && m[n] != None && n !in OwnedNames(m, c) then -1 else 1
    case UseOp(n) => if n in m && m[n] == None then 1 else 0
    case StopOp(n) => if n in OwnedNames(m, c) then 1 else 0
    case StopAllOps => |OwnedNames(m, c)|
  }

  lemma AsMapLast(s: seq<OpEntry>, c: nat)
    requires DistinctNames(s) && s != []
    ensures var k := |s| - 1;
            && s[k].name !in AsMap(s[..k])
            && OwnedNames(AsMap(s), c) == OwnedNames(AsMap(s[..k]), c) + if s[k].owner == Some(c) then {s[k].name} else {}
  {
    var k := |s| - 1;
    AsMapAt(s[..k], s[k].name);
    FindIs(s[..k], s[k].name, k);
    OwnedAdded(AsMap(s[..k]), s[k].name, s[k].owner, c);
  }

  lemma OwnedAdded(m: map<string, Option<nat>>, n: string, owner: Option<nat>, c: nat)
    requires n !in m
    ensures OwnedNames(m[n := owner], c) == OwnedNames(m, c) + if owner == Some(c) then {n} else {}
  {
    var t := m[n := owner];
    forall x ensures x in OwnedNames(t, c) <==> x in OwnedNames(m, c) || (x == n && owner == Some(c)) {}
  }

  // A client's list of its stores has each of them once,
  lemma {:induction false} OwnedListed(s: seq<OpEntry>, c: nat)
    requires DistinctNames(s)
    ensures forall n :: n in OwnedBy(s, c) <==> n in OwnedNames(AsMap(s), c)
    ensures |OwnedBy(s, c)| == |OwnedNames(AsMap(s), c)|
  {
    if s != [] {
      OwnedListed(s[..|s| - 1], c);
      AsMapLast(s, c);
    }
  }

  // in the order of the array.
  lemma {:induction false} OwnedInOrder(s: seq<OpEntry>, c: nat)
    requires DistinctNames(s)
    ensures forall i :: 0 <= i < |OwnedBy(s, c)| ==> Find(s, OwnedBy(s, c)[i]) < |s|
    ensures forall i, j :: 0 <= i < j < |OwnedBy(s, c)| ==> Find(s, OwnedBy(s, c)[i]) < Find(s, OwnedBy(s, c)[j])
  {
    if s != [] {
      var k := |s| - 1;
      var front := OwnedBy(s[..k], c);
      OwnedInOrder(s[..k], c);
      FindIs(s, s[k].name, k);
      forall i | 0 <= i < |front| ensures Find(s, front[i]) == Find(s[..k], front[i]) < k {
        FindIs(s, front[i], Find(s[..k], front[i]));
      }
    }
  }

  // The number told from the array is the one told from the map.
  lemma AnswerRefinesMap(s: seq<OpEntry>, max: nat, c: nat, cmd: OpCommand)
    requires DistinctNames(s)
    ensures OpAnswer(s, max, c, cmd) == MapAnswer(AsMap(s), max, c, cmd)
  {
    AsMapSize(s);
    if cmd.StopAllOps? { OwnedListed(s, c); } else { AsMapAt(s, cmd.name); }
  }

  function OpAnswers(s: seq<OpEntry>, max: nat, cmds: seq<(nat, OpCommand)>): seq<int>
    decreases |cmds|
  {
    if cmds == [] then []
    else [OpAnswer(s, max, cmds[0].0, cmds[0].1)] + OpAnswers(OpStep(s, max, cmds[0].0, cmds[0].1), max, cmds[1..])
  }

  ghost function MapAnswers(m: map<string, Option<nat>>, max: nat, cmds: seq<(nat, OpCommand)>): seq<int>
    decreases |cmds|
  {
    if cmds == [] then []
    else [MapAnswer(m, max, cmds[0].0, cmds[0].1)] + MapAnswers(MapStep(m, max, cmds[0].0, cmds[0].1), max, cmds[1..])
  }

  // And so are all the numbers of a run.
  lemma {:induction false} AnswersRefineMap(s: seq<OpEntry>, max: nat, cmds: seq<(nat, OpCommand)>)
    requires DistinctNames(s) && |s| <= max
    ensures OpAnswers(s, max, cmds) == MapAnswers(AsMap(s), max, cmds)
    decreases |cmds|
  {
    if cmds != [] {
      StepRefinesMap(s, max, cmds[0].0, cmds[0].1);
      AnswerRefinesMap(s, max, cmds[0].0, cmds[0].1);
      AnswersRefineMap(OpStep(s, max, cmds[0].0, cmds[0].1), max, cmds[1..]);
    }
  }

  lemma OthersKeep(m: map<string, Option<nat>>, max: nat, other: nat, cmd: OpCommand, name: string, c: nat)
    requires name in m && m[name] == Some(c) && other != c
    ensures name in MapStep(m, max, other, cmd) && MapStep(m, max, other, cmd)[name] == Some(c)
  {
  }

  // No command of any other client takes a store from its owner or deletes it.
  lemma {:induction false} OwnerKeeps(s: seq<OpEntry>, max: nat, cmds: seq<(nat, OpCommand)>, name: string, c: nat)
    requires DistinctNames(s) && |s| <= max
    requires name in AsMap(s) && AsMap(s)[name] == Some(c)
    requires forall i :: 0 <= i < |cmds| ==> cmds[i].0 != c
    ensures name in AsMap(OpRun(s, max, cmds)) && AsMap(OpRun(s, max, cmds))[name] == Some(c)
    decreases |cmds|
  {
    if cmds != [] {
      StepRefinesMap(s, max, cmds[0].0, cmds[0].1);
      OthersKeep(AsMap(s), max, cmds[0].0, cmds[0].1, name, c);
      OwnerKeeps(OpStep(s, max, cmds[0].0, cmds[0].1), max, cmds[1..], name, c);
    }
  }
}

module OpDataStores {
  import opened Base
  import opened OpSpec

  class OpDataStore {
    const name: string
    var owner: Option<nat>

    constructor (name: string)
      ensures this.name == name && owner == None
    {
      this.name := name;
      owner := None;
    }
  }

  class OpDataStoreSet {
    const list: array<OpDataStore?>
    var count: nat
    // The stores in the live prefix of the array.
    ghost var live: seq<OpDataStore>

    ghost predicate Valid()
      reads this, list, live
    {
      && count == |live| <= list.Length
      && (forall i :: 0 <= i < count ==> list[i] == live[i])
      && (forall i, j :: 0 <= i < j < count ==> live[i] != live[j])
      && DistinctNames(View())
    }

    ghost function View(): (s: seq<OpEntry>)
      reads this, live
      ensures |s| == |live|
      ensures forall i :: 0 <= i < |s| ==> s[i] == OpEntry(live[i].name, live[i].owner)
    {
      seq(|live|, i requires 0 <= i < |live| reads this, live => OpEntry(live[i].name, live[i].owner))
    }

    constructor (max: nat)
      ensures Valid() && View() == [] && list.Length == max && fresh(list)
    {
      list := new OpDataStore?[max](_ => null);
      count := 0;
      live := [];
    }

    // The search loop the methods share.
    method Search(name: string) returns (i: nat)
      requires Valid()
      ensures i == Find(View(), name)
    {
      i := 0;
      while i < count
        invariant i <= count
        invariant forall j :: 0 <= j < i ==> View()[j].name != name
      {
        if list[i].name == name { break; }
        i := i + 1;
      }
      FindIs(View(), name, i);
    }

    method FindOwner(name: string) returns (owner: Option<nat>)
      requires Valid()
      ensures var i := Find(View(), name); owner == if i < |View()| then View()[i].owner else None
    {
      var i := Search(name);
      if i < count { return list[i].owner; }
      owner := None;
    }

    method AddOpDataStore(name: string) returns (n: int)
      requires Valid()
      modifies this, list
      ensures Valid() && (View(), n) == AddOp(old(View()), list.Length, name)
      ensures forall d :: d in live ==> d in old(live) || fresh(d)
    {
      if count == list.Length { return 0; }
      var i := Search(name);
      if i < count { return 2; }
      if |name| > MAX_NAME_LENGTH { return 0; }
      var d := new OpDataStore(name);
      list[count] := d;
      count := count + 1;
      live := live + [d];
      assert View() == old(View()) + [OpEntry(name, None)];
      n := 1;
    }

    // memmove: the entries above i move down by one.
    method Compact(i: nat)
      requires Valid() && i < count
      modifies this, list
      ensures Valid() && View() == RemoveAt(old(View()), i) && live == RemoveAt(old(live), i)
    {
      RemoveAtDistinct(View(), i);
      forall k | i <= k < count - 1 { list[k] := list[k + 1]; }
      count := count - 1;
      live := RemoveAt(live, i);
      assert View() == RemoveAt(old(View()), i);
    }

    method DeleteOpDataStore(name: string, c: nat) returns (n: int)
      requires Valid()
      modifies this, list
      ensures Valid() && (View(), n) == DeleteOp(old(View()), name, c)
      ensures forall d :: d in live ==> d in old(live)
    {
      n := 1;
      var i := Search(name);
      if i < count {
        if list[i].owner == None || list[i].owner == Some(c) {
          Compact(i);
        } else {
          n := -1;
        }
      }
    }

    method SetOwner(name: string, c: nat) returns (done: bool)
      requires Valid()
      modifies live
      ensures Valid() && (View(), done) == Own(old(View()), name, c)
    {
      done := false;
      var i := Search(name);
      if i < count && list[i].owner == None {
        list[i].owner := Some(c);
        done := true;
        assert View() == old(View())[i := OpEntry(name, Some(c))];
      }
    }

    method RemoveOwner(name: string, c: nat) returns (n: int)
      requires Valid()
      modifies live
      ensures Valid() && (View(), n) == Release(old(View()), name, c)
    {
      n := 0;
      var i := Search(name);
      if i < count && list[i].owner == Some(c) {
        list[i].owner := None;
        n := 1;
        assert View() == old(View())[i := OpEntry(name, None)];
      }
    }

    // The disconnect overload: every store of this client.
    method RemoveOwnerEverywhere(c: nat) returns (n: int)
      requires Valid()
      modifies live
      ensures Valid() && View() == ReleaseAll(old(View()), c)
      ensures n == |OwnedBy(old(View()), c)|
    {
      n := 0;
      ghost var s := View();
      for i := 0 to count
        invariant count == |live| <= list.Length
        invariant forall k :: 0 <= k < count ==> list[k] == live[k]
        invariant forall k :: 0 <= k < i ==> View()[k] == Released(s[k], c)
        invariant forall k :: i <= k < count ==> View()[k] == s[k]
        invariant n == |OwnedBy(s[..i], c)|
      {
        assert s[..i + 1][..i] == s[..i];
        if list[i].owner == Some(c) {
          list[i].owner := None;
          n := n + 1;
        }
      }
      assert s[..count] == s;
      assert View() == ReleaseAll(s, c);
    }

    // The names this client owns, in array order.
    method ListMyUsage(c: nat) returns (names: seq<string>)
      requires Valid()
      ensures names == OwnedBy(View(), c)
    {
      names := [];
      for i := 0 to count
        invariant names == OwnedBy(View()[..i], c)
      {
        assert View()[..i + 1][..i] == View()[..i];
        if list[i].owner == Some(c) {
          names := names + [list[i].name];
        }
      }
      assert View()[..count] == View();
    }
  }
}
