// What each data store operation does to the store's state, on values.
module StoreSpec {
  import opened Base
  import opened Trees
  import opened Dom

  type Client = nat

  const MAX_STORE_NAME_LENGTH := 200

  predicate GoodName(name: string) {
    0 < |name| <= MAX_STORE_NAME_LENGTH
  }

  // pre: the tree saved when the open transaction started. roll: the tree to
  // go back to when the newest commit, number last, is rolled back.
  datatype Store = Store(doc: Xml, pre: Option<Xml>, roll: Option<Xml>, last: nat, lockedBy: Option<Client>)

  datatype Mode = ModifyWithValidation | ModifyNoValidation | ValidateNoModification | UnknownMode

  // An XPath result on a tree: evaluation failed, or a number, string or
  // boolean, or nodes given by their positions in document order.
  datatype Selection = Failed | Atomic | Nodes(positions: seq<nat>)

  ghost predicate GoodSelection(t: Xml, s: Selection) {
    s.Nodes? ==>
      && (forall i :: 0 <= i < |s.positions| ==> s.positions[i] < Size(t))
      && (forall i, j :: 0 <= i < j < |s.positions| ==> s.positions[i] < s.positions[j])
  }

  ghost predicate GoodXPath(xpath: Xml -> Selection) {
    forall t :: GoodSelection(t, xpath(t))
  }

  // A fragment is None when its text does not parse.
  datatype Op = Delete | Update(value: string) | Replace(fragment: Option<Xml>) | Add(fragment: Option<Xml>)

  datatype Edit = Edit(op: Op, xpath: Xml -> Selection, mode: Mode)

  predicate AllElements(x: Xml) {
    x.Cons? ==> x.tag.Element? && AllElements(x.next)
  }

  // What the callers of an edit provide: fragments are one or more elements.
  ghost predicate GoodEdit(e: Edit) {
    && GoodXPath(e.xpath)
    && (e.op.Replace? && e.op.fragment.Some? ==> GoodFragment(e.op.fragment.value))
    && (e.op.Add? && e.op.fragment.Some? ==> GoodFragment(e.op.fragment.value))
  }

  predicate GoodFragment(x: Xml) {
    WellFormed(x) && x.Cons? && AllElements(x)
  }

  // Refused before the store is locked.
  predicate Refused(e: Edit) {
    || e.mode.UnknownMode?
    || (e.op.Replace? && (e.op.fragment.None? || !OneTree(e.op.fragment.value)))
    || (e.op.Add? && e.op.fragment.None?)
  }

  predicate OneTree(x: Xml) {
    x.Cons? && x.next.Nil?
  }

  // The nodes of a fresh copy are numbered from 1.
  function NodeIds(positions: seq<nat>): (r: seq<nat>)
    ensures |r| == |positions|
  {
    seq(|positions|, i requires 0 <= i < |positions| => positions[i] + 1)
  }

  // Either the edit stops and keeps the tree, or it has a tentative tree to judge.
  datatype Attempt = Stop(result: int) | Tentative(tree: Xml, count: int)

  ghost function Try(e: Edit, t: Xml): Attempt {
    var s := e.xpath(t);
    var f := Number(t, 1);
    if !s.Nodes? then
      match e.op
      // After a failed evaluation the number is whatever was in memory.
      case Delete => if s.Failed? then Stop(0) else Tentative(t, -1)
      case Update(_) => Stop(-1)
      case Replace(_) => Stop(0)
      case Add(_) => Stop(0)
    else if s.positions == [] then Stop(0)
    else
      var nodes := NodeIds(s.positions);
      match e.op
      case Delete => Tentative(Deleted(f, Elems(nodes)), |nodes|)
      case Update(value) => Tentative(Updated(f, Elems(nodes), value), |nodes|)
      case Replace(x) =>
        if x.None? then Stop(-1)
        else Tentative(Replaced(f, ElementsAmong(f, nodes), x.value), ElementCount(f, nodes))
      case Add(x) =>
        if x.None? then Stop(-1)
        else Tentative(Added(f, ElementsAmong(f, nodes), x.value), ElementCount(f, nodes))
  }

  // Keep the tentative tree or go back, and the number to report.
  ghost function Judge(ok: Xml -> bool, mode: Mode, old_: Xml, tentative: Xml, count: int): (Xml, int) {
    match mode
    case ModifyWithValidation => if ok(tentative) then (tentative, count) else (old_, -1)
    case ModifyNoValidation => (tentative, count)
    case ValidateNoModification => (old_, if ok(tentative) then count else -2)
    case UnknownMode => (old_, -1)
  }

  ghost function EditTree(ok: Xml -> bool, e: Edit, t: Xml): (Xml, int) {
    match Try(e, t)
    case Stop(n) => (t, n)
    case Tentative(t', n) => Judge(ok, e.mode, t, t', n)
  }

  // The XPath result an edit leaves undefined: deleting with an expression that fails to evaluate.
  ghost predicate Defined(e: Edit, t: Xml) {
    e.op.Delete? ==> !e.xpath(t).Failed?
  }

  // ----- Locking -----

  // lockDS returns at once when the client holds the lock, waits while another does.
  predicate CanLock(st: Store, c: Client) {
    st.lockedBy == None || st.lockedBy == Some(c)
  }

  function Lock(st: Store, c: Client): Store {
    st.(lockedBy := Some(c))
  }

  // An open transaction keeps the lock, whoever asks.
  function Unlock(st: Store, c: Client): (Store, int) {
    if st.pre.Some? then (st, 0)
    else if st.lockedBy == Some(c) then (st.(lockedBy := None), 0)
    else (st, 1)
  }

  // ----- Transactions -----

  function Start(st: Store, c: Client): (Store, int) {
    var locked := Lock(st, c);
    if st.pre.Some? then (locked, 0) else (locked.(pre := Some(st.doc)), 1)
  }

  predicate MayCommit(st: Store, c: Client) {
    st.lockedBy == Some(c) && st.pre.Some?
  }

  function Commit(st: Store, c: Client, id: nat): (Store, int) {
    if !MayCommit(st, c) then (st, 0)
    else (Store(st.doc, None, st.pre, id, None), id)
  }

  function Abort(st: Store, c: Client): (Store, int) {
    if !MayCommit(st, c) then (st, 0)
    else (Store(st.pre.value, None, st.roll, st.last, None), 1)
  }

  function Rollback(st: Store, c: Client, id: int): (Store, int) {
    var locked := Lock(st, c);
    if st.pre.Some? then (locked, 0)
    else if id != st.last || st.last < 1 || st.roll.None? then (Unlock(locked, c).0, 0)
    else (Store(st.roll.value, None, None, 0, None), 1)
  }

  // ----- Edits -----

  ghost function EditStore(st: Store, c: Client, ok: Xml -> bool, e: Edit): (Store, int) {
    if Refused(e) then (st, -1)
    else
      var (t, n) := EditTree(ok, e, st.doc);
      (Unlock(Lock(st, c).(doc := t), c).0, n)
  }

  // The dry run predicts the real run: for all four edits it keeps the store's
  // tree, it reports k >= 0 exactly when the validated edit reports k, and it
  // reports -2 only when the validated edit would report -1 and keep the tree.
  lemma DryRunPredicts(st: Store, c: Client, ok: Xml -> bool, e: Edit, k: nat)
    ensures var dry := EditStore(st, c, ok, e.(mode := ValidateNoModification));
            var done := EditStore(st, c, ok, e.(mode := ModifyWithValidation));
            && dry.0.doc == st.doc
            && (dry.1 == k <==> done.1 == k)
            && (dry.1 == -2 ==> done.1 == -1 && done.0.doc == st.doc)
            && (dry.1 == -1 ==> done.1 == -1)
            && dry.0.(doc := st.doc) == done.0.(doc := st.doc)
  {
  }

  // A validated edit that moves the tree moves it to one the constraints accept.
  lemma ValidatedEditAccepted(ok: Xml -> bool, e: Edit, t: Xml)
    requires e.mode.ModifyWithValidation? || e.mode.ValidateNoModification?
    ensures EditTree(ok, e, t).0 == t || ok(EditTree(ok, e, t).0)
  {
  }
}
