// A data store: one current document, up to two saved ones, and a lock.
module DataStores {
  import opened Base
  import opened Trees
  import opened Dom
  import opened StoreSpec
  import opened EditLaws

  class DataStore {
    const name: string
    const constraints: Xml -> bool
    // Which store this is, also when its name is used again.
    ghost const id: nat
    var doc: Document
    var preTransactionStartDoc: Document?
    var preLastCommittedTransactionDoc: Document?
    var lastCommittedTransactionId: nat
    var lockedBy: Option<Client>
    // Every document this store ever made by parsing or copying.
    ghost var made: set<Document>

    // No two of the three fields and org share a document; each of them is a
    // live document made here; every other document made here has been freed.
    // Free refuses a freed document, so it was freed once.
    ghost predicate Owns(org: Document?)
      reads this, made
    {
      && doc in made && doc != preTransactionStartDoc && doc != preLastCommittedTransactionDoc && doc != org
      && (preTransactionStartDoc != null ==>
           && preTransactionStartDoc in made
           && preTransactionStartDoc != preLastCommittedTransactionDoc && preTransactionStartDoc != org)
      && (preLastCommittedTransactionDoc != null ==>
           && preLastCommittedTransactionDoc in made && preLastCommittedTransactionDoc != org)
      && (org != null ==> org in made)
      && forall d :: d in made ==>
           if d == doc || d == preTransactionStartDoc || d == preLastCommittedTransactionDoc || d == org
           then d.Valid() else d.freed
    }

    ghost predicate Valid()
      reads this, made
    {
      Owns(null)
    }

    // The documents in the three fields.
    ghost function Parts(): set<Document?>
      reads this
    {
      {doc, preTransactionStartDoc, preLastCommittedTransactionDoc}
    }

    ghost function View(): Store
      reads this, Parts()
    {
      Store(doc.Content(),
            if preTransactionStartDoc == null then None else Some(preTransactionStartDoc.Content()),
            if preLastCommittedTransactionDoc == null then None else Some(preLastCommittedTransactionDoc.Content()),
            lastCommittedTransactionId, lockedBy)
    }

    // A store made by a client gets no directories of constraints, and reads them uninitialised: what they
    // make of a tree is anybody's guess.
    constructor FromString(name: string, xml: Xml, constraints: Xml -> bool, ghost id: nat)
      requires WellFormed(xml)
      ensures Valid() && View() == Store(xml, None, None, 0, None)
      ensures this.name == name && this.constraints == constraints && this.id == id && fresh(made)
    {
      this.name := name;
      this.constraints := constraints;
      this.id := id;
      var d := new Document(xml);
      doc := d;
      preTransactionStartDoc, preLastCommittedTransactionDoc := null, null;
      lastCommittedTransactionId := 0;
      lockedBy := None;
      made := {d};
    }

    // A store loaded from file is only created when its constraints accept the file.
    constructor FromFile(name: string, xml: Xml, constraints: Xml -> bool, ghost id: nat)
      requires WellFormed(xml) && constraints(xml)
      ensures Valid() && View() == Store(xml, None, None, 0, None)
      ensures this.name == name && this.constraints == constraints && this.id == id && fresh(made)
    {
      this.name := name;
      this.constraints := constraints;
      this.id := id;
      var d := new Document(xml);
      doc := d;
      preTransactionStartDoc, preLastCommittedTransactionDoc := null, null;
      lastCommittedTransactionId := 0;
      lockedBy := None;
      made := {d};
    }

    // Waiting for another client's lock is not a step; see CanLock.
    method LockDS(c: Client) returns (n: int)
      requires Valid() && CanLock(View(), c)
      modifies this`lockedBy
      ensures Valid() && View() == Lock(old(View()), c) && n == 0
    {
      if lockedBy == Some(c) { return 0; }
      lockedBy := Some(c);
      n := 0;
    }

    method UnlockDS(c: Client) returns (n: int)
      requires Valid()
      modifies this`lockedBy
      ensures Valid() && (View(), n) == Unlock(old(View()), c)
      ensures n == 0 <==> preTransactionStartDoc != null || old(lockedBy) == Some(c)
      ensures n != 0 ==> n == 1
      ensures lockedBy == if preTransactionStartDoc == null && old(lockedBy) == Some(c) then None else old(lockedBy)
    {
      n := 1;
      if preTransactionStartDoc != null { return 0; }
      if lockedBy == Some(c) {
        lockedBy := None;
        n := 0;
      }
    }

    // The tree gives way to a copy made for this store.
    method Accept(copy: Document)
      requires Valid() && copy.Valid() && copy !in made
      modifies this`doc, this`made, doc
      ensures Valid() && View() == old(View()).(doc := old(copy.Content())) && made == old(made) + {copy}
    {
      doc.Free();
      doc := copy;
      made := made + {copy};
    }

    // The destructor of a store without an open transaction: the tree is freed,
    // the rollback snapshot never is.
    method Destroy()
      requires Valid() && preTransactionStartDoc == null
      modifies doc
      ensures forall d :: d in made ==> (d.freed <==> d != preLastCommittedTransactionDoc)
    {
      doc.Free();
    }

    // xmlCopyDoc.
    method Duplicate(d: Document) returns (copy: Document)
      requires d.Valid()
      ensures fresh(copy) && copy.Valid()
      ensures copy.Content() == d.Content() && copy.tree == Number(d.Content(), 1)
    {
      var x := d.Read();
      ContentWellFormed(d.tree);
      copy := new Document(x);
    }

    method StartTransaction(c: Client) returns (n: int)
      requires Valid() && CanLock(View(), c)
      modifies this
      ensures Valid() && (View(), n) == Start(old(View()), c)
      ensures old(made) <= made && fresh(made - old(made))
    {
      var locked := LockDS(c);
      if preTransactionStartDoc != null { return 0; }
      preTransactionStartDoc := Duplicate(doc);
      made := made + {preTransactionStartDoc};
      n := 1;
    }

    // id is the next global transaction number; it is drawn only when the commit goes ahead.
    method CommitTransaction(c: Client, id: nat) returns (n: int)
      requires Valid() && 0 < id
      modifies this, made
      ensures Valid() && (View(), n) == Commit(old(View()), c, id)
      ensures made == old(made)
    {
      if lockedBy != Some(c) || preTransactionStartDoc == null { return 0; }
      lastCommittedTransactionId := id;
      if preLastCommittedTransactionDoc != null {
        preLastCommittedTransactionDoc.Free();
      }
      preLastCommittedTransactionDoc := preTransactionStartDoc;
      preTransactionStartDoc := null;
      var u := UnlockDS(c);
      n := id;
    }

    method AbortTransaction(c: Client) returns (n: int)
      requires Valid()
      modifies this, made
      ensures Valid() && (View(), n) == Abort(old(View()), c)
      ensures made == old(made)
    {
      if lockedBy != Some(c) || preTransactionStartDoc == null { return 0; }
      doc.Free();
      doc := preTransactionStartDoc;
      preTransactionStartDoc := null;
      var u := UnlockDS(c);
      n := 1;
    }

    method RollbackTransaction(c: Client, id: int) returns (n: int)
      requires Valid() && CanLock(View(), c)
      modifies this, made
      ensures Valid() && (View(), n) == Rollback(old(View()), c, id)
      ensures made == old(made)
    {
      var locked := LockDS(c);
      if preTransactionStartDoc != null { return 0; }
      if id != lastCommittedTransactionId || lastCommittedTransactionId < 1 || preLastCommittedTransactionDoc == null {
        var u := UnlockDS(c);
        return 0;
      }
      doc.Free();
      doc := preLastCommittedTransactionDoc;
      preLastCommittedTransactionDoc := null;
      lastCommittedTransactionId := 0;
      var u := UnlockDS(c);
      n := 1;
    }

    // The first steps every edit shares: lock, and put a copy in place of the tree.
    method BeginEdit(c: Client) returns (org: Document)
      requires Valid() && CanLock(View(), c)
      modifies this
      ensures org == old(doc) && Owns(org) && View() == Lock(old(View()), c)
      ensures doc.tree == Number(old(View()).doc, 1) && doc.Content() == org.Content() == old(View()).doc && fresh(doc)
      ensures made == old(made) + {doc}
      ensures preTransactionStartDoc == old(preTransactionStartDoc)
      ensures preLastCommittedTransactionDoc == old(preLastCommittedTransactionDoc)
    {
      var locked := LockDS(c);
      org := doc;
      doc := Duplicate(org);
      made := made + {doc};
    }

    // Throws the copy away.
    method Restore(org: Document)
      requires Owns(org)
      modifies this`doc, doc
      ensures Valid() && View() == old(View()).(doc := old(org.Content()))
    {
      doc.Free();
      doc := org;
    }

    // The last steps every edit shares: by mode, swap the copy in or restore the tree.
    method Settle(org: Document, mode: Mode, count: int) returns (n: int)
      requires Owns(org) && !mode.UnknownMode?
      modifies this`doc, doc, org
      ensures Valid()
      ensures (View().doc, n) == Judge(constraints, mode, old(org.Content()), old(doc.Content()), count)
      ensures View() == old(View()).(doc := View().doc)
    {
      n := count;
      match mode
      case ModifyWithValidation =>
        var t := doc.Read();
        if constraints(t) {
          org.Free();
        } else {
          Restore(org);
          n := -1;
        }
      case ModifyNoValidation =>
        org.Free();
      case ValidateNoModification =>
        var t := doc.Read();
        if !constraints(t) { n := -2; }
        Restore(org);
    }

    // The last steps every edit e of store before shares: restore or judge, then unlock.
    method EndEdit(c: Client, org: Document, stop: bool, mode: Mode, count: int, ghost e: Edit, ghost before: Store)
      returns (n: int)
      requires Owns(org) && org.Content() == before.doc
      requires View() == Lock(before, c).(doc := View().doc)
      requires !Refused(e) && e.mode == mode
      requires Try(e, before.doc) == if stop then Stop(count) else Tentative(View().doc, count)
      modifies this`doc, this`lockedBy, doc, org
      ensures Valid() && (View(), n) == EditStore(before, c, constraints, e)
    {
      n := count;
      if stop {
        Restore(org);
      } else {
        n := Settle(org, mode, count);
      }
      var u := UnlockDS(c);
    }

    // Selects in the copy of t and runs the delete loop on it; stop when there is nothing to judge.
    method TryDelete(ghost org: Document, t: Xml, xpath: Xml -> Selection, ghost mode: Mode)
      returns (stop: bool, n: int)
      requires Owns(org) && doc.tree == Number(t, 1) && doc.Content() == t && GoodXPath(xpath) && !xpath(t).Failed?
      modifies doc
      ensures Owns(org) && View() == old(View()).(doc := View().doc)
      ensures Try(Edit(Delete, xpath, mode), t) == if stop then Stop(n) else Tentative(View().doc, n)
    {
      var selected := xpath(t);
      if selected.Atomic? {
        // No node set: nothing is deleted, and -1 counts as a change.
        return false, -1;
      }
      SelectionInDocOrder(t, selected);
      n := doc.DeleteSelectedNodes(NodeIds(selected.positions));
      stop := n == 0;
    }

    // Selects in the copy of t and runs the update loop on it; stop when there is nothing to judge.
    method TryUpdate(ghost org: Document, t: Xml, xpath: Xml -> Selection, value: string, ghost mode: Mode)
      returns (stop: bool, n: int)
      requires Owns(org) && doc.tree == Number(t, 1) && doc.Content() == t && GoodXPath(xpath)
      modifies doc
      ensures Owns(org) && View() == old(View()).(doc := View().doc)
      ensures Try(Edit(Update(value), xpath, mode), t) == if stop then Stop(n) else Tentative(View().doc, n)
    {
      var selected := xpath(t);
      if !selected.Nodes? { return true, -1; }
      SelectionInDocOrder(t, selected);
      n := doc.UpdateSelectedNodes(NodeIds(selected.positions), value);
      stop := n == 0;
    }

    // Selects in the copy of t and runs the replace loop on it; stop when there is nothing to judge.
    method TryReplace(ghost org: Document, t: Xml, xpath: Xml -> Selection, x: Xml, ghost mode: Mode)
      returns (stop: bool, n: int)
      requires Owns(org) && doc.tree == Number(t, 1) && doc.Content() == t && GoodXPath(xpath) && WellFormed(x) && OneTree(x)
      modifies doc
      ensures Owns(org) && View() == old(View()).(doc := View().doc)
      ensures Try(Edit(Replace(Some(x)), xpath, mode), t) == if stop then Stop(n) else Tentative(View().doc, n)
    {
      var selected := xpath(t);
      if !selected.Nodes? || selected.positions == [] { return true, 0; }
      SelectionInDocOrder(t, selected);
      n := doc.ReplaceSelectedNodes(NodeIds(selected.positions), x);
      stop := false;
    }

    // Selects in the copy of t and runs the add loop on it; stop when there is nothing to judge.
    method TryAdd(ghost org: Document, t: Xml, xpath: Xml -> Selection, x: Xml, ghost mode: Mode)
      returns (stop: bool, n: int)
      requires Owns(org) && doc.tree == Number(t, 1) && doc.Content() == t && GoodXPath(xpath) && WellFormed(x)
      modifies doc
      ensures Owns(org) && View() == old(View()).(doc := View().doc)
      ensures Try(Edit(Add(Some(x)), xpath, mode), t) == if stop then Stop(n) else Tentative(View().doc, n)
    {
      var selected := xpath(t);
      if !selected.Nodes? || selected.positions == [] { return true, 0; }
      SelectionInDocOrder(t, selected);
      n := doc.AddToSelectedNodes(NodeIds(selected.positions), x);
      stop := false;
    }

    // When the expression cannot be evaluated, the tree stays and the number returned is never set.
    method DeleteNodes(c: Client, xpath: Xml -> Selection, mode: Mode) returns (n: int)
      requires Valid() && GoodXPath(xpath) && (!mode.UnknownMode? ==> CanLock(View(), c))
      modifies this, made
      ensures Valid() && View() == EditStore(old(View()), c, constraints, Edit(Delete, xpath, mode)).0
      ensures mode.UnknownMode? || Defined(Edit(Delete, xpath, mode), old(View()).doc) ==>
                n == EditStore(old(View()), c, constraints, Edit(Delete, xpath, mode)).1
      ensures DeleteEffect(constraints, xpath, mode, old(View()).doc, View().doc, n)
      ensures old(made) <= made && fresh(made - old(made))
    {
      DeleteLaw(View(), c, constraints, xpath, mode);
      if mode.UnknownMode? { return -1; }
      ghost var e, before := Edit(Delete, xpath, mode), View();
      var org := BeginEdit(c);
      var t := doc.Read();
      var selected := xpath(t);
      if selected.Failed? {
        Restore(org);
        var u := UnlockDS(c);
        n := *;
        return;
      }
      ghost var copy := doc;
      var stop, k := TryDelete(org, t, xpath, mode);
      n := EndEdit(c, org, stop, mode, k, e, before);
      assert made == old(made) + {copy};
    }

    method UpdateNodes(c: Client, xpath: Xml -> Selection, value: string, mode: Mode) returns (n: int)
      requires Valid() && GoodXPath(xpath) && (!mode.UnknownMode? ==> CanLock(View(), c))
      modifies this, made
      ensures Valid() && (View(), n) == EditStore(old(View()), c, constraints, Edit(Update(value), xpath, mode))
      ensures UpdateEffect(constraints, xpath, value, mode, old(View()).doc, View().doc, n)
      ensures old(made) <= made && fresh(made - old(made))
    {
      UpdateLaw(View(), c, constraints, xpath, value, mode);
      if mode.UnknownMode? { return -1; }
      ghost var e, before := Edit(Update(value), xpath, mode), View();
      var org := BeginEdit(c);
      var t := doc.Read();
      ghost var copy := doc;
      var stop, k := TryUpdate(org, t, xpath, value, mode);
      n := EndEdit(c, org, stop, mode, k, e, before);
      assert made == old(made) + {copy};
    }

    method ReplaceNodes(c: Client, xpath: Xml -> Selection, fragment: Option<Xml>, mode: Mode) returns (n: int)
      requires Valid() && GoodEdit(Edit(Replace(fragment), xpath, mode))
      requires !Refused(Edit(Replace(fragment), xpath, mode)) ==> CanLock(View(), c)
      modifies this, made
      ensures Valid() && (View(), n) == EditStore(old(View()), c, constraints, Edit(Replace(fragment), xpath, mode))
      ensures ReplaceEffect(constraints, xpath, fragment, mode, old(View()).doc, View().doc, n)
      ensures old(made) <= made && fresh(made - old(made))
    {
      ReplaceLaw(View(), c, constraints, xpath, fragment, mode);
      if mode.UnknownMode? || fragment.None? || !OneTree(fragment.value) { return -1; }
      ghost var e, before := Edit(Replace(fragment), xpath, mode), View();
      var org := BeginEdit(c);
      var t := doc.Read();
      ghost var copy := doc;
      var stop, k := TryReplace(org, t, xpath, fragment.value, mode);
      n := EndEdit(c, org, stop, mode, k, e, before);
      assert made == old(made) + {copy};
    }

    method AddNodes(c: Client, xpath: Xml -> Selection, fragment: Option<Xml>, mode: Mode) returns (n: int)
      requires Valid() && GoodEdit(Edit(Add(fragment), xpath, mode))
      requires !Refused(Edit(Add(fragment), xpath, mode)) ==> CanLock(View(), c)
      modifies this, made
      ensures Valid() && (View(), n) == EditStore(old(View()), c, constraints, Edit(Add(fragment), xpath, mode))
      ensures AddEffect(constraints, xpath, fragment, mode, old(View()).doc, View().doc, n)
      ensures old(made) <= made && fresh(made - old(made))
    {
      AddLaw(View(), c, constraints, xpath, fragment, mode);
      if mode.UnknownMode? || fragment.None? { return -1; }
      ghost var e, before := Edit(Add(fragment), xpath, mode), View();
      var org := BeginEdit(c);
      var t := doc.Read();
      ghost var copy := doc;
      var stop, k := TryAdd(org, t, xpath, fragment.value, mode);
      n := EndEdit(c, org, stop, mode, k, e, before);
      assert made == old(made) + {copy};
    }
  }

  ghost predicate NoRepeats(s: seq<nat>) {
    forall i, j :: 0 <= i < j < |s| ==> s[i] != s[j]
  }

  lemma {:induction false} ContentWellFormed(f: Forest)
    requires TextLeaves(f)
    ensures WellFormed(Erase(f))
  {
    if f.Node? { ContentWellFormed(f.kids); ContentWellFormed(f.next); }
  }

  // The nodes of the copy that are worked on are those at the selected positions, in document order.
  lemma SelectionInDocOrder(t: Xml, s: Selection)
    requires s.Nodes? && GoodSelection(t, s)
    ensures InDocOrder(Number(t, 1), NodeIds(s.positions))
    ensures NoRepeats(NodeIds(s.positions))
    ensures forall i :: 0 <= i < |s.positions| ==> Rank(Number(t, 1), NodeIds(s.positions)[i]) == s.positions[i]
  {
    var nodes := NodeIds(s.positions);
    forall i | 0 <= i < |nodes| ensures nodes[i] in Ids(Number(t, 1)) && Rank(Number(t, 1), nodes[i]) == s.positions[i] {
      NumberRank(t, 1, nodes[i]);
    }
  }
}
