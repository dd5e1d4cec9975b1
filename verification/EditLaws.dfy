// What the four edits do to a store, said on the listing of its tree and on the positions selected.
module EditLaws {
  import opened Base
  import opened Trees
  import opened Dom
  import opened StoreSpec
  import opened Listings

  // ----- From trees to listings -----

  // The nodes with these identities are the selected rows: the node of row p has identity p + 1.
  ghost predicate Matches(sel: set<nat>, ids: set<nat>) {
    forall p: nat :: p in sel <==> p + 1 in ids
  }

  lemma {:induction false} DeletedCut(x: Xml, base: nat, d: nat, sel: set<nat>, ids: set<nat>)
    requires Matches(sel, ids)
    ensures Listing(Deleted(Number(x, base + 1), ids), d) == Cut(x, base, d, sel, Gone)
  {
    if x.Cons? {
      assert base in sel <==> base + 1 in ids;
      DeletedCut(x.kids, base + 1, d + 1, sel, ids);
      DeletedCut(x.next, base + 1 + Size(x.kids), d, sel, ids);
    }
  }

  lemma {:induction false} UpdatedCut(x: Xml, base: nat, d: nat, sel: set<nat>, ids: set<nat>, value: string)
    requires Matches(sel, ids)
    ensures Listing(Updated(Number(x, base + 1), ids, value), d) == Cut(x, base, d, sel, NewText(value))
  {
    if x.Cons? {
      assert base in sel <==> base + 1 in ids;
      UpdatedCut(x.kids, base + 1, d + 1, sel, ids, value);
      UpdatedCut(x.next, base + 1 + Size(x.kids), d, sel, ids, value);
      TextRows(x.tag, d, value);
    }
  }

  lemma TextRows(tag: Tag, d: nat, value: string)
    ensures Instead(NewText(value), Row(d, tag)) ==
            if tag.Text? then [Row(d, Text(value))] + Listing(Nil, d + 1) else [Row(d, tag)] + Listing(TextOnly(value), d + 1)
  {
    assert Listing(Nil, d + 1) == [] && Listing(Nil, d + 2) == [];
  }

  lemma {:induction false} ReplacedCut(x: Xml, base: nat, d: nat, sel: set<nat>, ids: set<nat>, fragment: Xml)
    requires Matches(sel, ids)
    ensures Listing(Replaced(Number(x, base + 1), ids, fragment), d) == Cut(x, base, d, sel, NewTree(fragment))
  {
    if x.Cons? {
      assert base in sel <==> base + 1 in ids;
      ReplacedCut(x.kids, base + 1, d + 1, sel, ids, fragment);
      ReplacedCut(x.next, base + 1 + Size(x.kids), d, sel, ids, fragment);
      ListingConcat(fragment, Replaced(Number(x.next, base + 1 + Size(x.kids) + 1), ids, fragment), d);
    }
  }

  lemma {:induction false} AddedGrow(x: Xml, base: nat, d: nat, sel: set<nat>, ids: set<nat>, fragment: Xml)
    requires Matches(sel, ids)
    ensures Listing(Added(Number(x, base + 1), ids, fragment), d) == Grow(x, base, d, sel, fragment)
  {
    if x.Cons? {
      assert base in sel <==> base + 1 in ids;
      AddedGrow(x.kids, base + 1, d + 1, sel, ids, fragment);
      AddedGrow(x.next, base + 1 + Size(x.kids), d, sel, ids, fragment);
      AddedFirst(x, base, d, ids, fragment);
    }
  }

  lemma AddedFirst(x: Xml, base: nat, d: nat, ids: set<nat>, fragment: Xml)
    requires x.Cons?
    ensures Listing(Added(Number(x, base + 1), ids, fragment), d) ==
            [Row(d, x.tag)] + Listing(Added(Number(x.kids, base + 1 + 1), ids, fragment), d + 1) +
            (if base + 1 in ids then Listing(fragment, d + 1) else []) +
            Listing(Added(Number(x.next, base + 1 + Size(x.kids) + 1), ids, fragment), d)
  {
    ListingConcat(Added(Number(x.kids, base + 1 + 1), ids, fragment), fragment, d + 1);
  }

  lemma DeletedListing(t: Xml, sel: set<nat>, ids: set<nat>)
    requires Matches(sel, ids)
    ensures Listing(Deleted(Number(t, 1), ids), 0) == ChangedRows(Listing(t, 0), sel, Gone)
  {
    DeletedCut(t, 0, 0, sel, ids);
    CutRows(t, sel, Gone);
  }

  lemma UpdatedListing(t: Xml, sel: set<nat>, ids: set<nat>, value: string)
    requires Matches(sel, ids)
    ensures Listing(Updated(Number(t, 1), ids, value), 0) == ChangedRows(Listing(t, 0), sel, NewText(value))
  {
    UpdatedCut(t, 0, 0, sel, ids, value);
    CutRows(t, sel, NewText(value));
  }

  lemma ReplacedListing(t: Xml, sel: set<nat>, ids: set<nat>, fragment: Xml)
    requires Matches(sel, ids)
    ensures Listing(Replaced(Number(t, 1), ids, fragment), 0) == ChangedRows(Listing(t, 0), sel, NewTree(fragment))
  {
    ReplacedCut(t, 0, 0, sel, ids, fragment);
    CutRows(t, sel, NewTree(fragment));
  }

  lemma AddedListing(t: Xml, sel: set<nat>, ids: set<nat>, fragment: Xml)
    requires Matches(sel, ids)
    ensures Listing(Added(Number(t, 1), ids, fragment), 0) == RowsWithChildren(Listing(t, 0), sel, fragment)
  {
    AddedGrow(t, 0, 0, sel, ids, fragment);
    GrowRows(t, sel, fragment);
  }

  // ----- From positions to nodes -----

  lemma NodesMatch(positions: seq<nat>)
    ensures Matches(Elems(positions), Elems(NodeIds(positions)))
  {
    var nodes := NodeIds(positions);
    forall p: nat ensures p in Elems(positions) <==> p + 1 in Elems(nodes) {
      if p in positions {
        var i :| 0 <= i < |positions| && positions[i] == p;
        assert nodes[i] == p + 1;
      }
      if p + 1 in nodes {
        var i :| 0 <= i < |nodes| && nodes[i] == p + 1;
        assert positions[i] == p;
      }
    }
  }

  lemma TagParts(x: Xml, base: nat, i: nat)
    requires base < i < base + Size(x)
    ensures var n := base + 1 + Size(x.kids);
            && i in Ids(Number(x, base))
            && (i < n ==> i in Ids(Number(x.kids, base + 1)))
            && (i < n ==> TagOf(Number(x, base), i) == TagOf(Number(x.kids, base + 1), i))
            && (n <= i ==> i in Ids(Number(x.next, n)) && TagOf(Number(x, base), i) == TagOf(Number(x.next, n), i))
  {
    NumberHas(x, base, i);
    NumberHas(x.kids, base + 1, i);
    NumberHas(x.next, base + 1 + Size(x.kids), i);
  }

  lemma RowParts(x: Xml, d: nat, p: nat)
    requires p < Size(x)
    ensures var n := 1 + Size(x.kids);
            && |Listing(x, d)| == Size(x)
            && |Listing(x.kids, d + 1)| == Size(x.kids) && |Listing(x.next, d)| == Size(x.next)
            && Listing(x, d)[p] == if p == 0 then Row(d, x.tag)
                                   else if p < n then Listing(x.kids, d + 1)[p - 1] else Listing(x.next, d)[p - n]
  {
    ListingFacts(x, d);
    ListingFacts(x.kids, d + 1);
    ListingFacts(x.next, d);
  }

  // The tag of a node of a fresh copy is the one in its row.
  lemma {:induction false} TagListed(x: Xml, base: nat, d: nat, p: nat)
    requires p < Size(x)
    ensures p < |Listing(x, d)| && base + p in Ids(Number(x, base))
    ensures TagOf(Number(x, base), base + p) == Listing(x, d)[p].tag
  {
    var n := 1 + Size(x.kids);
    RowParts(x, d, p);
    if 0 < p {
      TagParts(x, base, base + p);
      if p < n {
        TagListed(x.kids, base + 1, d + 1, p - 1);
        assert base + 1 + (p - 1) == base + p;
      } else {
        TagListed(x.next, base + n, d, p - n);
        assert base + n + (p - n) == base + p;
      }
    }
  }

  // The selected elements.
  ghost function ElementRows(rows: seq<Row>, positions: seq<nat>): set<nat> {
    set p | p in positions && p < |rows| && rows[p].tag.Element?
  }

  lemma ElementsMatch(t: Xml, positions: seq<nat>)
    requires GoodSelection(t, Nodes(positions))
    ensures Matches(ElementRows(Listing(t, 0), positions), ElementsAmong(Number(t, 1), NodeIds(positions)))
  {
    var f, nodes := Number(t, 1), NodeIds(positions);
    NodesMatch(positions);
    ListingFacts(t, 0);
    forall p: nat ensures p in ElementRows(Listing(t, 0), positions) <==> p + 1 in ElementsAmong(f, nodes) {
      assert p in Elems(positions) <==> p + 1 in Elems(nodes);
      if p in positions { TagListed(t, 1, 0, p); }
    }
  }

  lemma {:induction false} ShiftSize(a: set<nat>, b: set<nat>)
    requires Matches(a, b) && 0 !in b
    ensures |a| == |b|
  {
    if a == {} {
      forall i: nat ensures i !in b { assert 0 < i ==> (i - 1 in a <==> i - 1 + 1 in b); }
      assert b == {};
    } else {
      var p :| p in a;
      assert p + 1 in b;
      var a', b' := a - {p}, b - {p + 1};
      forall q: nat ensures q in a' <==> q + 1 in b' { assert q in a <==> q + 1 in b; }
      ShiftSize(a', b');
      assert |a| == |a'| + 1 && |b| == |b'| + 1;
    }
  }

  lemma ElementsCounted(t: Xml, positions: seq<nat>)
    requires GoodSelection(t, Nodes(positions))
    ensures ElementCount(Number(t, 1), NodeIds(positions)) == |ElementRows(Listing(t, 0), positions)|
  {
    var f, nodes := Number(t, 1), NodeIds(positions);
    NumberIds(t, 1);
    ElementCountIsSize(f, nodes);
    ElementsMatch(t, positions);
    ShiftSize(ElementRows(Listing(t, 0), positions), ElementsAmong(f, nodes));
  }

  // ----- What an edit leaves -----

  // A tentative tree, to judge by mode: after is the tree then, n the number reported.
  ghost predicate Decided(ok: Xml -> bool, mode: Mode, before: Xml, tentative: Xml, count: int, after: Xml, n: int) {
    match mode
    case ModifyNoValidation => after == tentative && n == count
    case ModifyWithValidation => if ok(tentative) then after == tentative && n == count else after == before && n == -1
    case ValidateNoModification => after == before && n == if ok(tentative) then count else -2
    case UnknownMode => false
  }

  ghost predicate Judged(ok: Xml -> bool, mode: Mode, before: Xml, rows: seq<Row>, count: int, after: Xml, n: int) {
    exists t :: Listing(t, 0) == rows && Decided(ok, mode, before, t, count, after, n)
  }

  lemma JudgedTree(ok: Xml -> bool, mode: Mode, before: Xml, tentative: Xml, count: int, rows: seq<Row>)
    requires Listing(tentative, 0) == rows && !mode.UnknownMode?
    ensures var (after, n) := Judge(ok, mode, before, tentative, count); Judged(ok, mode, before, rows, count, after, n)
  {
    var (after, n) := Judge(ok, mode, before, tentative, count);
    assert Decided(ok, mode, before, tentative, count, after, n);
  }

  // Deleting: an expression that yields no node set changes nothing and counts -1; one that cannot be evaluated
  // leaves the number open.
  ghost predicate DeleteEffect(ok: Xml -> bool, xpath: Xml -> Selection, mode: Mode, before: Xml, after: Xml, n: int) {
    if mode.UnknownMode? then after == before && n == -1
    else
      match xpath(before)
      case Failed => after == before
      case Atomic => Judged(ok, mode, before, Listing(before, 0), -1, after, n)
      case Nodes(ps) =>
        if ps == [] then after == before && n == 0
        else Judged(ok, mode, before, ChangedRows(Listing(before, 0), Elems(ps), Gone), |ps|, after, n)
  }

  ghost predicate UpdateEffect(ok: Xml -> bool, xpath: Xml -> Selection, value: string, mode: Mode,
                               before: Xml, after: Xml, n: int)
  {
    if mode.UnknownMode? || !xpath(before).Nodes? then after == before && n == -1
    else
      var ps := xpath(before).positions;
      if ps == [] then after == before && n == 0
      else Judged(ok, mode, before, ChangedRows(Listing(before, 0), Elems(ps), NewText(value)), |ps|, after, n)
  }

  // Replacing and adding: only elements count, and a fragment that does not parse, or has several roots to replace
  // by, is refused.
  ghost predicate ReplaceEffect(ok: Xml -> bool, xpath: Xml -> Selection, fragment: Option<Xml>, mode: Mode,
                                before: Xml, after: Xml, n: int)
  {
    if mode.UnknownMode? || fragment.None? || !OneTree(fragment.value) then after == before && n == -1
    else if !xpath(before).Nodes? || xpath(before).positions == [] then after == before && n == 0
    else
      var rows := Listing(before, 0);
      var sel := ElementRows(rows, xpath(before).positions);
      Judged(ok, mode, before, ChangedRows(rows, sel, NewTree(fragment.value)), |sel|, after, n)
  }

  ghost predicate AddEffect(ok: Xml -> bool, xpath: Xml -> Selection, fragment: Option<Xml>, mode: Mode,
                            before: Xml, after: Xml, n: int)
  {
    if mode.UnknownMode? || fragment.None? then after == before && n == -1
    else if !xpath(before).Nodes? || xpath(before).positions == [] then after == before && n == 0
    else
      var rows := Listing(before, 0);
      var sel := ElementRows(rows, xpath(before).positions);
      Judged(ok, mode, before, RowsWithChildren(rows, sel, fragment.value), |sel|, after, n)
  }

  // Besides the tree: the saved trees and the number stay, and the lock is free, or c's in a transaction.
  ghost predicate LetGo(st: Store, t: Store, c: Client) {
    t == st.(doc := t.doc, lockedBy := if st.pre.Some? then Some(c) else None)
  }

  lemma DeleteLaw(st: Store, c: Client, ok: Xml -> bool, xpath: Xml -> Selection, mode: Mode)
    requires GoodXPath(xpath)
    ensures var (t, n) := EditStore(st, c, ok, Edit(Delete, xpath, mode));
            DeleteEffect(ok, xpath, mode, st.doc, t.doc, n) && if mode.UnknownMode? then t == st else LetGo(st, t, c)
  {
    if !mode.UnknownMode? && xpath(st.doc).Nodes? && xpath(st.doc).positions != [] {
      var ps := xpath(st.doc).positions;
      NodesMatch(ps);
      DeletedListing(st.doc, Elems(ps), Elems(NodeIds(ps)));
      JudgedTree(ok, mode, st.doc, Deleted(Number(st.doc, 1), Elems(NodeIds(ps))), |ps|,
                 ChangedRows(Listing(st.doc, 0), Elems(ps), Gone));
    } else if !mode.UnknownMode? && xpath(st.doc).Atomic? {
      JudgedTree(ok, mode, st.doc, st.doc, -1, Listing(st.doc, 0));
    }
  }

  lemma UpdateLaw(st: Store, c: Client, ok: Xml -> bool, xpath: Xml -> Selection, value: string, mode: Mode)
    requires GoodXPath(xpath)
    ensures var (t, n) := EditStore(st, c, ok, Edit(Update(value), xpath, mode));
            UpdateEffect(ok, xpath, value, mode, st.doc, t.doc, n) &&
            if mode.UnknownMode? then t == st else LetGo(st, t, c)
  {
    if !mode.UnknownMode? && xpath(st.doc).Nodes? && xpath(st.doc).positions != [] {
      var ps := xpath(st.doc).positions;
      NodesMatch(ps);
      UpdatedListing(st.doc, Elems(ps), Elems(NodeIds(ps)), value);
      JudgedTree(ok, mode, st.doc, Updated(Number(st.doc, 1), Elems(NodeIds(ps)), value), |ps|,
                 ChangedRows(Listing(st.doc, 0), Elems(ps), NewText(value)));
    }
  }

  lemma ReplaceLaw(st: Store, c: Client, ok: Xml -> bool, xpath: Xml -> Selection, fragment: Option<Xml>, mode: Mode)
    requires GoodXPath(xpath)
    ensures var e := Edit(Replace(fragment), xpath, mode);
            var (t, n) := EditStore(st, c, ok, e);
            ReplaceEffect(ok, xpath, fragment, mode, st.doc, t.doc, n) && if Refused(e) then t == st else LetGo(st, t, c)
  {
    if !Refused(Edit(Replace(fragment), xpath, mode)) && xpath(st.doc).Nodes? && xpath(st.doc).positions != [] {
      var ps, rows := xpath(st.doc).positions, Listing(st.doc, 0);
      var sel, ids := ElementRows(rows, ps), ElementsAmong(Number(st.doc, 1), NodeIds(ps));
      ElementsMatch(st.doc, ps);
      ElementsCounted(st.doc, ps);
      ReplacedListing(st.doc, sel, ids, fragment.value);
      JudgedTree(ok, mode, st.doc, Replaced(Number(st.doc, 1), ids, fragment.value), |sel|,
                 ChangedRows(rows, sel, NewTree(fragment.value)));
    }
  }

  lemma AddLaw(st: Store, c: Client, ok: Xml -> bool, xpath: Xml -> Selection, fragment: Option<Xml>, mode: Mode)
    requires GoodXPath(xpath)
    ensures var e := Edit(Add(fragment), xpath, mode);
            var (t, n) := EditStore(st, c, ok, e);
            AddEffect(ok, xpath, fragment, mode, st.doc, t.doc, n) && if Refused(e) then t == st else LetGo(st, t, c)
  {
    if !Refused(Edit(Add(fragment), xpath, mode)) && xpath(st.doc).Nodes? && xpath(st.doc).positions != [] {
      var ps, rows := xpath(st.doc).positions, Listing(st.doc, 0);
      var sel, ids := ElementRows(rows, ps), ElementsAmong(Number(st.doc, 1), NodeIds(ps));
      ElementsMatch(st.doc, ps);
      ElementsCounted(st.doc, ps);
      AddedListing(st.doc, sel, ids, fragment.value);
      JudgedTree(ok, mode, st.doc, Added(Number(st.doc, 1), ids, fragment.value), |sel|,
                 RowsWithChildren(rows, sel, fragment.value));
    }
  }
}
