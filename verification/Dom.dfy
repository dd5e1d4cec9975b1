// A document as the server holds it: an arena of nodes linked by identity, edited in place.
module Dom {
  import opened Base
  import opened Trees

  // live is false once the node has been freed.
  datatype Cell = Cell(tag: Tag, parent: Option<nat>, kids: seq<nat>, live: bool)

  type Cells = map<nat, Cell>

  // The siblings ids, all with this parent, are the roots of forest f.
  ghost predicate Rep(c: Cells, f: Forest, parent: Option<nat>, ids: seq<nat>) {
    match f
    case Empty => ids == []
    case Node(id, tag, kids, next) =>
      && ids != [] && ids[0] == id
      && id in c && c[id].live && c[id].tag == tag && c[id].parent == parent
      && Rep(c, kids, Some(id), c[id].kids)
      && Rep(c, next, parent, ids[1..])
  }

  lemma RepNode(c: Cells, id: nat, cell: Cell, kids: Forest, next: Forest, rest: seq<nat>)
    requires id in c && c[id] == cell && cell.live
    requires Rep(c, kids, Some(id), cell.kids) && Rep(c, next, cell.parent, rest)
    ensures Rep(c, Node(id, cell.tag, kids, next), cell.parent, [id] + rest)
  {
    assert ([id] + rest)[1..] == rest;
  }

  // What freeing the nodes in dead does to the arena.
  ghost function Freed(c: Cells, dead: set<nat>): Cells {
    map i | i in c :: if i in dead then c[i].(live := false) else c[i]
  }

  ghost function Live(c: Cells): set<nat> {
    set i | i in c && c[i].live
  }

  lemma {:induction false} RepFrame(c: Cells, d: Cells, f: Forest, parent: Option<nat>, ids: seq<nat>)
    requires Rep(c, f, parent, ids)
    requires forall i :: i in Ids(f) && i in c ==> i in d && d[i] == c[i]
    ensures Rep(d, f, parent, ids)
  {
    if f.Node? {
      RepFrame(c, d, f.kids, Some(f.id), c[f.id].kids);
      RepFrame(c, d, f.next, parent, ids[1..]);
    }
  }

  lemma {:induction false} RepLive(c: Cells, f: Forest, parent: Option<nat>, ids: seq<nat>)
    requires Rep(c, f, parent, ids)
    ensures forall i :: i in Ids(f) ==> i in c && c[i].live
    ensures forall i :: i in ids ==> i in Ids(f)
  {
    if f.Node? {
      RepLive(c, f.kids, Some(f.id), c[f.id].kids);
      RepLive(c, f.next, parent, ids[1..]);
    }
  }

  // A subtree built in c, its root then placed at id, its siblings built after.
  lemma RepBuilt(c: Cells, d: Cells, e: Cells, id: nat, cell: Cell, kids: Xml, next: Xml, rest: seq<nat>)
    requires Rep(c, Number(kids, id + 1), Some(id), cell.kids) && cell.live && d == c[id := cell]
    requires forall i :: i in d ==> i in e && e[i] == d[i]
    requires Rep(e, Number(next, id + 1 + Size(kids)), cell.parent, rest)
    ensures Rep(e, Number(Cons(cell.tag, kids, next), id), cell.parent, [id] + rest)
  {
    NumberIds(kids, id + 1);
    RepFrame(c, e, Number(kids, id + 1), Some(id), cell.kids);
    RepNode(e, id, cell, Number(kids, id + 1), Number(next, id + 1 + Size(kids)), rest);
  }

  // What the arena holds at node x.
  lemma {:induction false} RepAt(c: Cells, f: Forest, parent: Option<nat>, ids: seq<nat>, x: nat)
    requires Rep(c, f, parent, ids) && Distinct(f) && x in Ids(f)
    requires parent.Some? ==> parent.value !in Ids(f)
    ensures x in c && c[x].live && c[x].tag == TagOf(f, x)
    ensures Rep(c, KidsOf(f, x), Some(x), c[x].kids)
    ensures c[x].parent == parent || (c[x].parent.Some? && c[x].parent.value in Ids(f))
    ensures c[x].parent != Some(x)
    ensures c[x].parent.Some? ==> c[x].parent.value !in Ids(KidsOf(f, x))
  {
    KidsIds(f, x);
    RepLive(c, f, parent, ids);
    if f.id != x {
      if x in Ids(f.kids) {
        RepAt(c, f.kids, Some(f.id), c[f.id].kids, x);
      } else {
        RepAt(c, f.next, parent, ids[1..], x);
      }
    }
  }

  lemma {:induction false} RepJoin(c: Cells, f: Forest, g: Forest, parent: Option<nat>, a: seq<nat>, b: seq<nat>)
    requires Rep(c, f, parent, a) && Rep(c, g, parent, b)
    ensures Rep(c, Join(f, g), parent, a + b)
  {
    if f.Node? {
      RepJoin(c, f.next, g, parent, a[1..], b);
      assert (a + b)[1..] == a[1..] + b;
    } else {
      assert a + b == b;
    }
  }

  // Taking x out of its parent's children prunes x.
  lemma {:induction false} RepUnlink(c: Cells, d: Cells, f: Forest, parent: Option<nat>, ids: seq<nat>, x: nat)
    requires Rep(c, f, parent, ids) && Distinct(f) && x in Ids(f) && x in c
    requires parent.Some? ==> parent.value !in Ids(f)
    requires forall i :: i in Ids(f) && i != x && i !in Ids(KidsOf(f, x)) && i in c ==>
               i in d && d[i] == if c[x].parent == Some(i) then c[i].(kids := Without(c[i].kids, x)) else c[i]
    ensures Rep(d, Prune(f, {x}), parent, if c[x].parent == parent then Without(ids, x) else ids)
  {
    KidsIds(f, x);
    RepAt(c, f, parent, ids, x);
    if f.id == x {
      PruneAbsent(f.next, {x});
      RepFrame(c, d, f.next, parent, ids[1..]);
    } else if x in Ids(f.kids) {
      KidsIds(f.kids, x);
      RepAt(c, f.kids, Some(f.id), c[f.id].kids, x);
      RepUnlink(c, d, f.kids, Some(f.id), c[f.id].kids, x);
      PruneAbsent(f.next, {x});
      RepFrame(c, d, f.next, parent, ids[1..]);
    } else {
      KidsIds(f.next, x);
      RepAt(c, f.next, parent, ids[1..], x);
      RepUnlink(c, d, f.next, parent, ids[1..], x);
      PruneAbsent(f.kids, {x});
      RepFrame(c, d, f.kids, Some(f.id), c[f.id].kids);
    }
  }

  // Giving x a new tag and children rewrites the forest at x.
  lemma {:induction false} RepSetNode(c: Cells, d: Cells, f: Forest, parent: Option<nat>, ids: seq<nat>,
                                      x: nat, tag: Tag, kids: Forest)
    requires Rep(c, f, parent, ids) && Distinct(f) && x in Ids(f) && x in c && x in d
    requires forall i :: i in Ids(f) && i != x && i !in Ids(KidsOf(f, x)) && i in c ==> i in d && d[i] == c[i]
    requires d[x].live && d[x].parent == c[x].parent && d[x].tag == tag && Rep(d, kids, Some(x), d[x].kids)
    ensures Rep(d, SetNode(f, x, tag, kids), parent, ids)
  {
    KidsIds(f, x);
    if f.id == x {
      RepFrame(c, d, f.next, parent, ids[1..]);
    } else if x in Ids(f.kids) {
      KidsIds(f.kids, x);
      RepSetNode(c, d, f.kids, Some(f.id), c[f.id].kids, x, tag, kids);
      SetNodeAbsent(f.next, x, tag, kids);
      RepFrame(c, d, f.next, parent, ids[1..]);
    } else {
      KidsIds(f.next, x);
      RepSetNode(c, d, f.next, parent, ids[1..], x, tag, kids);
      SetNodeAbsent(f.kids, x, tag, kids);
      RepFrame(c, d, f.kids, Some(f.id), c[f.id].kids);
    }
  }

  // Putting the one-tree copy k where x stood substitutes the fragment for x.
  lemma {:induction false} RepSwap(c: Cells, d: Cells, f: Forest, parent: Option<nat>, ids: seq<nat>,
                                   x: nat, k: nat, fragment: Xml)
    requires Rep(c, f, parent, ids) && Distinct(f) && x in Ids(f) && x in c
    requires parent.Some? ==> parent.value !in Ids(f)
    requires fragment.Cons? && fragment.next.Nil?
    requires forall i :: i in Ids(f) && i != x && i !in Ids(KidsOf(f, x)) && i in c ==>
               i in d && d[i] == if c[x].parent == Some(i) then c[i].(kids := Swapped(c[i].kids, x, k)) else c[i]
    requires Rep(d, Number(fragment, k), c[x].parent, [k])
    ensures Rep(d, Substitute(f, map[x := k], fragment), parent,
                if c[x].parent == parent then Swapped(ids, x, k) else ids)
  {
    var news := map[x := k];
    KidsIds(f, x);
    RepAt(c, f, parent, ids, x);
    if f.id == x {
      SubstituteAbsent(f.next, news, fragment);
      RepFrame(c, d, f.next, parent, ids[1..]);
      RepJoin(d, Number(fragment, k), f.next, parent, [k], ids[1..]);
    } else if x in Ids(f.kids) {
      KidsIds(f.kids, x);
      RepAt(c, f.kids, Some(f.id), c[f.id].kids, x);
      RepSwap(c, d, f.kids, Some(f.id), c[f.id].kids, x, k, fragment);
      SubstituteAbsent(f.next, news, fragment);
      RepFrame(c, d, f.next, parent, ids[1..]);
    } else {
      KidsIds(f.next, x);
      RepAt(c, f.next, parent, ids[1..], x);
      RepSwap(c, d, f.next, parent, ids[1..], x, k, fragment);
      SubstituteAbsent(f.kids, news, fragment);
      RepFrame(c, d, f.kids, Some(f.id), c[f.id].kids);
    }
  }

  // If x has dropped out of the substituted tree, so has its old parent.
  lemma {:induction false} ParentGone(c: Cells, f: Forest, parent: Option<nat>, ids: seq<nat>,
                                      news: map<nat, nat>, fragment: Xml, x: nat, lo: nat)
    requires Rep(c, f, parent, ids) && Distinct(f) && x in Ids(f) && x in c && x !in news
    requires forall i :: i in Ids(f) ==> i < lo
    requires forall i :: i in news ==> lo <= news[i]
    requires x !in Ids(Substitute(f, news, fragment))
    requires parent.Some? ==> parent.value !in Ids(f)
    ensures c[x].parent.Some? && c[x].parent.value in Ids(f)
    ensures c[x].parent.value !in Ids(Substitute(f, news, fragment))
  {
    RepAt(c, f, parent, ids, x);
    SubstituteBound(f, news, fragment);
    if f.id in news {
      NumberIds(fragment, news[f.id]);
      JoinFacts(Number(fragment, news[f.id]), Substitute(f.next, news, fragment));
      if x in Ids(f.kids) {
        RepAt(c, f.kids, Some(f.id), c[f.id].kids, x);
        SubstituteBound(f.next, news, fragment);
      } else {
        ParentGone(c, f.next, parent, ids[1..], news, fragment, x, lo);
      }
    } else if x in Ids(f.kids) {
      ParentGone(c, f.kids, Some(f.id), c[f.id].kids, news, fragment, x, lo);
      SubstituteBound(f.next, news, fragment);
    } else {
      ParentGone(c, f.next, parent, ids[1..], news, fragment, x, lo);
      SubstituteBound(f.kids, news, fragment);
    }
  }

  // A substituted tree holds old nodes and nodes of the copies.
  lemma {:induction false} SubstituteBound(f: Forest, news: map<nat, nat>, fragment: Xml)
    ensures forall i :: i in Ids(Substitute(f, news, fragment)) ==>
              i in Ids(f) || exists s :: s in news && news[s] <= i
  {
    if f.Node? {
      SubstituteBound(f.kids, news, fragment);
      SubstituteBound(f.next, news, fragment);
      if f.id in news {
        NumberIds(fragment, news[f.id]);
        JoinFacts(Number(fragment, news[f.id]), Substitute(f.next, news, fragment));
      }
    }
  }

  // The arena holds document f: node 0 is the document node, above the root element.
  ghost predicate Holds(c: Cells, f: Forest) {
    && 0 in c && c[0].live
    && Rep(c, f, Some(0), c[0].kids)
    && Distinct(f) && 0 !in Ids(f) && TextLeaves(f)
  }

  lemma HoldsAt(c: Cells, f: Forest, x: nat)
    requires Holds(c, f) && x in Ids(f)
    ensures x in c && c[x].live && c[x].tag == TagOf(f, x) && x != 0
    ensures Rep(c, KidsOf(f, x), Some(x), c[x].kids)
    ensures Distinct(KidsOf(f, x)) && x !in Ids(KidsOf(f, x)) && Ids(KidsOf(f, x)) <= Ids(f)
    ensures TextLeaves(KidsOf(f, x)) && (TagOf(f, x).Text? ==> KidsOf(f, x).Empty?)
    ensures c[x].parent.Some? && c[x].parent != Some(x)
    ensures c[x].parent.value == 0 || c[x].parent.value in Ids(f)
    ensures c[x].parent.value !in Ids(KidsOf(f, x))
    ensures c[x].parent.value in c && c[c[x].parent.value].live
  {
    KidsIds(f, x);
    LeavesAt(f, x);
    RepAt(c, f, Some(0), c[0].kids, x);
    RepLive(c, f, Some(0), c[0].kids);
  }

  // What unlinking node x from its parent does to the arena.
  ghost function Unlinked(c: Cells, x: nat): Cells
    requires x in c
  {
    match c[x].parent
    case None => c
    case Some(p) =>
      if p in c then c[p := c[p].(kids := Without(c[p].kids, x))][x := c[x].(parent := None)] else c
  }

  lemma UnlinkedKids(c: Cells, f: Forest, x: nat)
    requires Holds(c, f) && x in Ids(f) && x in c
    ensures Rep(Unlinked(c, x), KidsOf(f, x), Some(x), c[x].kids)
  {
    HoldsAt(c, f, x);
    RepFrame(c, Unlinked(c, x), KidsOf(f, x), Some(x), c[x].kids);
  }

  lemma HoldsDeleted(c: Cells, f: Forest, x: nat)
    requires Holds(c, f) && x in Ids(f) && x in c
    ensures Holds(Freed(Unlinked(c, x), {x} + Ids(KidsOf(f, x))), Prune(f, {x}))
  {
    var d := Freed(Unlinked(c, x), {x} + Ids(KidsOf(f, x)));
    HoldsAt(c, f, x);
    RepUnlink(c, d, f, Some(0), c[0].kids, x);
    PruneIds(f, {x});
  }

  lemma LiveDeleted(c: Cells, x: nat, dead: set<nat>)
    requires x in c
    ensures Live(Freed(Unlinked(c, x), dead)) == Live(c) - dead
  {
  }

  lemma HoldsSetNode(c: Cells, d: Cells, f: Forest, x: nat, tag: Tag, kids: Forest)
    requires Holds(c, f) && x in Ids(f) && x in c && x in d
    requires forall i :: (i == 0 || i in Ids(f)) && i != x && i !in Ids(KidsOf(f, x)) && i in c ==> i in d && d[i] == c[i]
    requires d[x].live && d[x].parent == c[x].parent && d[x].tag == tag && Rep(d, kids, Some(x), d[x].kids)
    requires Distinct(kids) && TextLeaves(kids) && (tag.Text? ==> kids.Empty?)
    requires Ids(kids) !! (Ids(f) - Ids(KidsOf(f, x))) && 0 !in Ids(kids)
    ensures Holds(d, SetNode(f, x, tag, kids))
  {
    HoldsAt(c, f, x);
    RepSetNode(c, d, f, Some(0), c[0].kids, x, tag, kids);
    SetNodeIds(f, x, tag, kids);
    SetNodeDistinct(f, x, tag, kids);
    SetNodeLeaves(f, x, tag, kids);
  }

  // What replacing node x by the copy that starts at k does to the arena.
  ghost predicate NodeReplaced(c: Cells, d: Cells, x: nat, k: nat, fragment: Xml)
    requires x in c
  {
    && (forall i :: i in c && i != x ==>
         i in d && d[i] == if c[x].parent == Some(i) then c[i].(kids := Swapped(c[i].kids, x, k)) else c[i])
    && x in d && d[x] == c[x].(parent := None)
    && Rep(d, Number(fragment, k), c[x].parent, [k])
  }

  lemma HoldsReplaced(c: Cells, d: Cells, f: Forest, x: nat, k: nat, fragment: Xml)
    requires Holds(c, f) && x in Ids(f) && x in c && NodeReplaced(c, d, x, k, fragment)
    requires WellFormed(fragment) && fragment.Cons? && fragment.next.Nil?
    requires 0 < k && forall i :: i in Ids(f) ==> i < k
    ensures Holds(d, Substitute(f, map[x := k], fragment))
  {
    HoldsAt(c, f, x);
    RepSwap(c, d, f, Some(0), c[0].kids, x, k, fragment);
    SubstituteOneIds(f, x, k, fragment);
    SubstituteOneDistinct(f, x, k, fragment);
    SubstituteLeaves(f, map[x := k], fragment);
    NumberIds(fragment, k);
  }

  // One turn of the replace loop. Inside an already detached subtree it leaves the document alone.
  lemma HoldsReplaceTurn(c0: Cells, f0: Forest, c: Cells, d: Cells, news: map<nat, nat>,
                         x: nat, k: nat, fragment: Xml, lo: nat)
    requires Holds(c0, f0) && x in Ids(f0) && x in c0 && x !in news
    requires WellFormed(fragment) && fragment.Cons? && fragment.next.Nil?
    requires forall i :: i in Ids(f0) ==> i < lo
    requires forall i :: i in news ==> lo <= news[i]
    requires Holds(c, Substitute(f0, news, fragment))
    requires 0 < k && forall i :: i in Ids(Substitute(f0, news, fragment)) ==> i < k
    requires x in c && c[x].parent == c0[x].parent && NodeReplaced(c, d, x, k, fragment)
    ensures Holds(d, Substitute(f0, news[x := k], fragment))
  {
    var f := Substitute(f0, news, fragment);
    if x in Ids(f) {
      HoldsReplaced(c, d, f, x, k, fragment);
      SubstituteStep(f0, news, x, k, fragment);
    } else {
      HoldsAt(c0, f0, x);
      ParentGone(c0, f0, Some(0), c0[0].kids, news, fragment, x, lo);
      SubstituteGone(f0, news, x, k, fragment);
      RepFrame(c, d, f, Some(0), c[0].kids);
    }
  }

  // Putting the copy that starts at k behind x's children.
  lemma HoldsExtended(c: Cells, built: Cells, d: Cells, f: Forest, x: nat, k: nat, fragment: Xml, added: seq<nat>)
    requires Holds(c, f) && x in Ids(f) && x in c && TagOf(f, x).Element? && WellFormed(fragment)
    requires 0 < k && forall i :: i in c ==> i < k
    requires forall i :: i in c ==> i in built && built[i] == c[i]
    requires Rep(built, Number(fragment, k), Some(x), added)
    requires d == built[x := c[x].(kids := c[x].kids + added)]
    ensures Holds(d, Extend(f, map[x := k], fragment))
  {
    var kids, copy := KidsOf(f, x), Number(fragment, k);
    HoldsAt(c, f, x);
    RepLive(c, f, Some(0), c[0].kids);
    ExtendOne(f, x, k, fragment);
    NumberIds(fragment, k);
    NumberTextLeaves(fragment, k);
    RepFrame(c, d, kids, Some(x), c[x].kids);
    RepFrame(built, d, copy, Some(x), added);
    RepJoin(d, kids, copy, Some(x), c[x].kids, added);
    JoinFacts(kids, copy);
    HoldsSetNode(c, d, f, x, c[x].tag, Join(kids, copy));
  }

  // One document tree. Node 0 is the document node itself, above the root element.
  class Document {
    var cells: Cells
    var nextId: nat
    var freed: bool
    ghost var tree: Forest

    ghost predicate Valid()
      reads this
    {
      && !freed
      && Holds(cells, tree)
      && forall i :: i in cells ==> i < nextId
    }

    ghost function Content(): Xml
      reads this
    {
      Erase(tree)
    }

    // Parsing: the nodes get their identities in document order.
    constructor (x: Xml)
      requires WellFormed(x)
      ensures Valid() && tree == Number(x, 1) && Content() == x
      ensures fresh(this)
    {
      cells := map[0 := Cell(Element(""), None, [], true)];
      nextId := 1;
      freed := false;
      tree := Empty;
      new;
      var top := Build(x, Some(0));
      ghost var built := cells;
      cells := cells[0 := cells[0].(kids := top)];
      tree := Number(x, 1);
      NumberIds(x, 1);
      NumberTextLeaves(x, 1);
      RepFrame(built, cells, tree, Some(0), top);
    }

    // Allocates the nodes of x below parent.
    method Build(x: Xml, parent: Option<nat>) returns (ids: seq<nat>)
      requires forall i :: i in cells ==> i < nextId
      modifies this`cells, this`nextId
      ensures nextId == old(nextId) + Size(x)
      ensures forall i :: i in cells ==> i < nextId
      ensures forall i :: i in old(cells) ==> i in cells && cells[i] == old(cells)[i]
      ensures Rep(cells, Number(x, old(nextId)), parent, ids)
      decreases x
    {
      match x
      case Nil =>
        ids := [];
      case Cons(tag, kids, next) =>
        var id := nextId;
        nextId := nextId + 1;
        var below := Build(kids, Some(id));
        ghost var c1 := cells;
        cells := cells[id := Cell(tag, parent, below, true)];
        ghost var c2 := cells;
        var rest := Build(next, parent);
        ids := [id] + rest;
        RepBuilt(c1, c2, cells, id, Cell(tag, parent, below, true), kids, next, rest);
    }

    // The tree as a value, as a serializer or a stylesheet sees it.
    method Read() returns (x: Xml)
      requires Valid()
      ensures x == Content()
    {
      x := ReadFrom(cells[0].kids, tree, Some(0));
    }

    method ReadFrom(ids: seq<nat>, ghost f: Forest, ghost parent: Option<nat>) returns (x: Xml)
      requires Rep(cells, f, parent, ids)
      ensures x == Erase(f)
      decreases f
    {
      if ids == [] { return Nil; }
      var cell := Deref(ids[0]);
      var kids := ReadFrom(cell.kids, f.kids, Some(ids[0]));
      var next := ReadFrom(ids[1..], f.next, parent);
      x := Cons(cell.tag, kids, next);
    }

    // Every access to a node goes through here: a freed node cannot be touched.
    function Deref(x: nat): Cell
      requires x in cells && cells[x].live
      reads this
    {
      cells[x]
    }

    method Free()
      requires !freed
      modifies this`freed
      ensures freed
    {
      freed := true;
    }

    method UnlinkNode(x: nat)
      requires x in cells && cells[x].live
      requires cells[x].parent.Some? ==> cells[x].parent.value in cells && cells[cells[x].parent.value].live
      requires cells[x].parent != Some(x)
      modifies this`cells
      ensures cells == Unlinked(old(cells), x)
    {
      var node := Deref(x);
      match node.parent
      case None =>
      case Some(p) =>
        var above := Deref(p);
        cells := cells[p := above.(kids := Without(above.kids, x))][x := node.(parent := None)];
    }

    // Frees x and everything below it.
    method FreeNode(x: nat, ghost kids: Forest)
      requires x in cells && cells[x].live && Rep(cells, kids, Some(x), cells[x].kids)
      requires Distinct(kids) && x !in Ids(kids)
      modifies this`cells
      ensures cells == Freed(old(cells), {x} + Ids(kids))
      decreases kids, 1
    {
      FreeNodeList(Deref(x).kids, kids, Some(x));
      cells := cells[x := Deref(x).(live := false)];
    }

    method FreeNodeList(ids: seq<nat>, ghost f: Forest, ghost parent: Option<nat>)
      requires Rep(cells, f, parent, ids) && Distinct(f)
      modifies this`cells
      ensures cells == Freed(old(cells), Ids(f))
      decreases f, 0
    {
      if ids != [] {
        ghost var before := cells;
        FreeNode(ids[0], f.kids);
        RepFrame(before, cells, f.next, parent, ids[1..]);
        FreeNodeList(ids[1..], f.next, parent);
      }
    }

    // One turn of the delete loop: unlink, then free.
    method DeleteNode(x: nat)
      requires Valid() && x in Ids(tree)
      modifies this`cells, this`tree
      ensures Valid() && cells.Keys == old(cells).Keys
      ensures tree == Prune(old(tree), {x})
      ensures Ids(tree) == Ids(old(tree)) - ({x} + Ids(KidsOf(old(tree), x)))
      ensures Live(cells) == Live(old(cells)) - ({x} + Ids(KidsOf(old(tree), x)))
    {
      ghost var f, kids := tree, KidsOf(tree, x);
      HoldsAt(cells, f, x);
      UnlinkedKids(cells, f, x);
      HoldsDeleted(cells, f, x);
      LiveDeleted(cells, x, {x} + Ids(kids));
      UnlinkNode(x);
      FreeNode(x, kids);
      PruneOneIds(f, x);
      tree := Prune(f, {x});
    }

    // The delete loop: backwards through the node set.
    method DeleteSelectedNodes(nodes: seq<nat>) returns (n: int)
      requires Valid() && InDocOrder(tree, nodes)
      modifies this`cells, this`tree
      ensures Valid() && Content() == Deleted(old(tree), Elems(nodes))
      ensures n == |nodes|
      ensures Live(cells) * Ids(old(tree)) == Ids(tree)
    {
      n := 0;
      var i := |nodes| - 1;
      assert Elems(nodes[i + 1..]) == {};
      PruneAbsent(tree, {});
      RepLive(cells, tree, Some(0), cells[0].kids);
      while i >= 0
        invariant -1 <= i < |nodes| && n == |nodes| - 1 - i
        invariant Valid()
        invariant tree == Prune(old(tree), Elems(nodes[i + 1..]))
        invariant Live(cells) * Ids(old(tree)) == Ids(tree)
      {
        var x := nodes[i];
        ghost var sel := Elems(nodes[i + 1..]);
        NotBelowLater(old(tree), nodes, i);
        Survives(old(tree), sel, x);
        PruneStep(old(tree), sel, x);
        assert nodes[i..] == [x] + nodes[i + 1..];
        assert Elems(nodes[i..]) == sel + {x};
        DeleteNode(x);
        n := n + 1;
        i := i - 1;
      }
      assert nodes[0..] == nodes;
      ErasePrune(old(tree), Elems(nodes));
    }

    // xmlNodeSetContent: a text node takes the value, an element swaps its children for one text node, or for
    // nothing when the value is empty.
    method SetNodeContent(x: nat, value: string)
      requires Valid() && x in Ids(tree)
      modifies this
      ensures Valid() && cells.Keys >= old(cells).Keys && nextId == old(nextId) + 1
      ensures tree == Retext(old(tree), map[x := old(nextId)], value)
    {
      ghost var before, f, kids := cells, tree, KidsOf(tree, x);
      HoldsAt(before, f, x);
      RetextOne(f, x, nextId, value);
      var node := Deref(x);
      if node.tag.Text? {
        cells := cells[x := node.(tag := Text(value))];
        RepFrame(before, cells, kids, Some(x), node.kids);
        HoldsSetNode(before, cells, f, x, Text(value), kids);
      } else {
        SetElementContent(x, value);
      }
      tree := Retext(f, map[x := nextId], value);
      nextId := nextId + 1;
    }

    method SetElementContent(x: nat, value: string)
      requires Valid() && x in Ids(tree) && x in cells && !cells[x].tag.Text?
      modifies this`cells
      ensures Holds(cells, SetNode(tree, x, TagOf(tree, x), TextNode(nextId, value)))
      ensures old(cells).Keys <= cells.Keys <= old(cells).Keys + {nextId}
    {
      ghost var before := cells;
      HoldsAt(before, tree, x);
      RepLive(before, tree, Some(0), before[0].kids);
      FreeNodeList(Deref(x).kids, KidsOf(tree, x), Some(x));
      SetOnlyText(x, value);
      HoldsSetNode(before, cells, tree, x, TagOf(tree, x), TextNode(nextId, value));
    }

    // The children of x, freed by now, give way to one text node or to nothing.
    method SetOnlyText(x: nat, value: string)
      requires x in cells && cells[x].live && nextId !in cells
      modifies this`cells
      ensures forall i :: i in old(cells) && i != x ==> i in cells && cells[i] == old(cells)[i]
      ensures old(cells).Keys <= cells.Keys <= old(cells).Keys + {nextId}
      ensures x in cells && cells[x] == old(cells)[x].(kids := cells[x].kids)
      ensures Rep(cells, TextNode(nextId, value), Some(x), cells[x].kids)
    {
      if value == "" {
        cells := cells[x := cells[x].(kids := [])];
      } else {
        var text: Cell := Cell(Text(value), Some(x), [], true);
        cells := cells[nextId := text];
        cells := cells[x := cells[x].(kids := [nextId])];
        RepNode(cells, nextId, text, Empty, Empty, []);
      }
    }

    // The update loop: backwards through the node set.
    method UpdateSelectedNodes(nodes: seq<nat>, value: string) returns (n: int)
      requires Valid() && InDocOrder(tree, nodes)
      modifies this
      ensures Valid() && Content() == Updated(old(tree), Elems(nodes), value)
      ensures n == |nodes|
      ensures forall x :: x in nodes && Outermost(old(tree), Elems(nodes), x) ==> ShowsText(tree, x, value)
    {
      n := 0;
      var i := |nodes| - 1;
      ghost var news: map<nat, nat> := map[];
      assert Elems(nodes[i + 1..]) == {};
      RetextAbsent(tree, news, value);
      RepLive(cells, tree, Some(0), cells[0].kids);
      while i >= 0
        invariant -1 <= i < |nodes| && n == |nodes| - 1 - i
        invariant Valid() && nextId >= old(nextId)
        invariant news.Keys == Elems(nodes[i + 1..])
        invariant forall k :: k in news ==> old(nextId) <= news[k]
        invariant tree == Retext(old(tree), news, value)
      {
        var x := nodes[i];
        RetextTurn(old(tree), nodes, i, news, nextId, value);
        news := news[x := nextId];
        SetNodeContent(x, value);
        n := n + 1;
        i := i - 1;
      }
      assert nodes[0..] == nodes;
      EraseRetext(old(tree), news, value);
      forall x | x in nodes && Outermost(old(tree), Elems(nodes), x) ensures ShowsText(tree, x, value) {
        RetextShows(old(tree), news, value, x);
      }
    }

    // xmlReplaceNode: a copy of the fragment takes x's place; x stays allocated, detached.
    method ReplaceNode(x: nat, fragment: Xml)
      requires !freed && forall i :: i in cells ==> i < nextId
      requires WellFormed(fragment) && fragment.Cons? && fragment.next.Nil?
      requires x in cells && cells[x].live && cells[x].parent.Some? && cells[x].parent != Some(x)
      requires cells[x].parent.value in cells && cells[cells[x].parent.value].live
      modifies this`cells, this`nextId
      ensures nextId == old(nextId) + Size(fragment)
      ensures forall i :: i in cells ==> i < nextId
      ensures NodeReplaced(old(cells), cells, x, old(nextId), fragment)
    {
      var node := Deref(x);
      var p := node.parent.value;
      var copy := Build(fragment, node.parent);
      ghost var built, k := cells, old(nextId);
      NumberIds(fragment, k);
      assert copy == [k];
      var above := Deref(p);
      cells := cells[p := above.(kids := Swapped(above.kids, x, copy[0]))][x := node.(parent := None)];
      RepFrame(built, cells, Number(fragment, k), node.parent, copy);
    }

    // One turn of the replace loop, seen from the start of the loop (c0, f0, nodes numbered from lo on are new).
    method ReplaceTurn(x: nat, fragment: Xml, ghost c0: Cells, ghost f0: Forest, ghost news: map<nat, nat>, ghost lo: nat)
      requires Valid() && tree == Substitute(f0, news, fragment)
      requires WellFormed(fragment) && fragment.Cons? && fragment.next.Nil?
      requires Holds(c0, f0) && x in Ids(f0) && x !in news && lo <= nextId
      requires forall i :: i in Ids(f0) ==> i < lo
      requires forall i :: i in news ==> lo <= news[i]
      requires Live(c0) <= Live(cells) && SameButKids(c0, cells, x)
      modifies this
      ensures Valid() && nextId == old(nextId) + Size(fragment)
      ensures tree == Substitute(f0, news[x := old(nextId)], fragment)
      ensures Live(c0) <= Live(cells)
      ensures forall y :: SameButKids(c0, old(cells), y) && y != x ==> SameButKids(c0, cells, y)
    {
      ghost var k, before := nextId, cells;
      HoldsAt(c0, f0, x);
      RepLive(before, tree, Some(0), before[0].kids);
      assert c0[x].parent.value in Live(c0);
      ReplaceNode(x, fragment);
      HoldsReplaceTurn(c0, f0, before, cells, news, x, k, fragment, lo);
      tree := Substitute(f0, news[x := k], fragment);
    }

    // The replace loop: forwards, whatever the order of the node set; only elements count.
    method ReplaceSelectedNodes(nodes: seq<nat>, fragment: Xml) returns (n: int)
      requires Valid() && WellFormed(fragment) && fragment.Cons? && fragment.next.Nil?
      requires forall i :: 0 <= i < |nodes| ==> nodes[i] in Ids(tree)
      requires forall i, j :: 0 <= i < j < |nodes| ==> nodes[i] != nodes[j]
      modifies this
      ensures Valid() && Content() == Replaced(old(tree), ElementsAmong(old(tree), nodes), fragment)
      ensures n == ElementCount(old(tree), nodes)
      ensures Live(old(cells)) <= Live(cells)
    {
      n := 0;
      ghost var news: map<nat, nat> := map[];
      ghost var f0, c0 := tree, cells;
      SubstituteAbsent(tree, news, fragment);
      RepLive(cells, tree, Some(0), cells[0].kids);
      for i := 0 to |nodes|
        invariant Valid() && nextId >= old(nextId)
        invariant news.Keys == ElementsAmong(f0, nodes[..i]) && n == ElementCount(f0, nodes[..i])
        invariant forall k :: k in news ==> old(nextId) <= news[k]
        invariant tree == Substitute(f0, news, fragment)
        invariant Live(c0) <= Live(cells)
        invariant forall j :: i <= j < |nodes| ==> SameButKids(c0, cells, nodes[j])
      {
        var x := nodes[i];
        AmongStep(f0, nodes, i);
        HoldsAt(c0, f0, x);
        if Deref(x).tag.Element? {
          ghost var k := nextId;
          ReplaceTurn(x, fragment, c0, f0, news, old(nextId));
          news := news[x := k];
          n := n + 1;
        }
      }
      assert nodes[..|nodes|] == nodes;
      EraseSubstitute(f0, news, fragment);
    }

    // xmlAddChildList: a copy of the fragment goes after x's last child.
    method AddChildren(x: nat, fragment: Xml)
      requires Valid() && x in Ids(tree) && TagOf(tree, x).Element? && WellFormed(fragment)
      modifies this
      ensures Valid() && nextId == old(nextId) + Size(fragment)
      ensures tree == Extend(old(tree), map[x := old(nextId)], fragment)
      ensures Ids(old(tree)) <= Ids(tree)
      ensures forall i :: i in Ids(old(tree)) ==> TagOf(tree, i) == TagOf(old(tree), i)
    {
      ghost var before, f, k := cells, tree, nextId;
      HoldsAt(before, f, x);
      RepLive(before, f, Some(0), before[0].kids);
      var added := Build(fragment, Some(x));
      ghost var built := cells;
      var node := Deref(x);
      cells := cells[x := node.(kids := node.kids + added)];
      HoldsExtended(before, built, cells, f, x, k, fragment, added);
      ExtendOneKeeps(f, x, k, fragment);
      tree := Extend(f, map[x := k], fragment);
    }

    // The add loop: forwards, whatever the order of the node set; only elements count.
    method AddToSelectedNodes(nodes: seq<nat>, fragment: Xml) returns (n: int)
      requires Valid() && WellFormed(fragment)
      requires forall i :: 0 <= i < |nodes| ==> nodes[i] in Ids(tree)
      requires forall i, j :: 0 <= i < j < |nodes| ==> nodes[i] != nodes[j]
      modifies this
      ensures Valid() && Content() == Added(old(tree), ElementsAmong(old(tree), nodes), fragment)
      ensures n == ElementCount(old(tree), nodes)
    {
      n := 0;
      ghost var news: map<nat, nat> := map[];
      ghost var f0 := tree;
      ExtendAbsent(tree, news, fragment);
      RepLive(cells, tree, Some(0), cells[0].kids);
      for i := 0 to |nodes|
        invariant Valid() && nextId >= old(nextId)
        invariant news.Keys == ElementsAmong(f0, nodes[..i]) && n == ElementCount(f0, nodes[..i])
        invariant forall k :: k in news ==> old(nextId) <= news[k]
        invariant tree == Extend(f0, news, fragment)
        invariant forall j :: 0 <= j < |nodes| ==> nodes[j] in Ids(tree) && TagOf(tree, nodes[j]) == TagOf(f0, nodes[j])
      {
        var x := nodes[i];
        AmongStep(f0, nodes, i);
        HoldsAt(cells, tree, x);
        if Deref(x).tag.Element? {
          ExtendStep(f0, news, x, nextId, fragment);
          news := news[x := nextId];
          AddChildren(x, fragment);
          n := n + 1;
        }
      }
      assert nodes[..|nodes|] == nodes;
      EraseExtend(f0, news, fragment);
    }
  }

  ghost predicate SameButKids(c: Cells, d: Cells, x: nat) {
    x in c && x in d && d[x] == c[x].(kids := d[x].kids)
  }

  // The elements of a node set.
  ghost function ElementsAmong(f: Forest, nodes: seq<nat>): set<nat> {
    set x | x in nodes && x in Ids(f) && TagOf(f, x).Element?
  }

  // How many of the nodes are elements.
  ghost function ElementCount(f: Forest, nodes: seq<nat>): nat {
    if nodes == [] then 0
    else
      var x := nodes[|nodes| - 1];
      ElementCount(f, nodes[..|nodes| - 1]) + if x in Ids(f) && TagOf(f, x).Element? then 1 else 0
  }

  lemma {:induction false} ElementCountIsSize(f: Forest, nodes: seq<nat>)
    requires forall i :: 0 <= i < |nodes| ==> nodes[i] in Ids(f)
    requires forall i, j :: 0 <= i < j < |nodes| ==> nodes[i] != nodes[j]
    ensures ElementCount(f, nodes) == |ElementsAmong(f, nodes)|
  {
    if nodes != [] {
      var k := |nodes| - 1;
      ElementCountIsSize(f, nodes[..k]);
      AmongStep(f, nodes, k);
      assert nodes[..k + 1] == nodes;
    } else {
      assert ElementsAmong(f, nodes) == {};
    }
  }

  lemma AmongStep(f: Forest, nodes: seq<nat>, i: nat)
    requires i < |nodes| && nodes[i] in Ids(f)
    requires forall j :: 0 <= j < i ==> nodes[j] != nodes[i]
    ensures nodes[i] !in ElementsAmong(f, nodes[..i])
    ensures ElementCount(f, nodes[..i + 1]) ==
            ElementCount(f, nodes[..i]) + if TagOf(f, nodes[i]).Element? then 1 else 0
    ensures ElementsAmong(f, nodes[..i + 1]) ==
            ElementsAmong(f, nodes[..i]) + if TagOf(f, nodes[i]).Element? then {nodes[i]} else {}
  {
    assert nodes[..i + 1] == nodes[..i] + [nodes[i]];
    assert nodes[..i + 1][..i] == nodes[..i];
  }

  // Extending at one node keeps every node and its tag, when the copy's identities are new.
  lemma {:induction false} ExtendOneKeeps(f: Forest, x: nat, k: nat, fragment: Xml)
    requires Distinct(f) && forall i :: i in Ids(f) ==> i < k
    ensures var g := Extend(f, map[x := k], fragment);
            && Ids(f) <= Ids(g)
            && (forall i :: i in Ids(g) ==> i in Ids(f) || k <= i)
            && forall i :: i in Ids(f) ==> TagOf(g, i) == TagOf(f, i)
  {
    if f.Node? {
      assert Ids(f) == {f.id} + Ids(f.kids) + Ids(f.next);
      ExtendOneKeeps(f.kids, x, k, fragment);
      ExtendOneKeeps(f.next, x, k, fragment);
      NumberIds(fragment, k);
      var below := Extend(f.kids, map[x := k], fragment);
      JoinFacts(below, Number(fragment, k));
      forall i | i in Ids(f.kids) ensures TagOf(Join(below, Number(fragment, k)), i) == TagOf(below, i) {
        TagJoin(below, Number(fragment, k), i);
      }
    }
  }

  lemma {:induction false} TagJoin(f: Forest, g: Forest, i: nat)
    requires i in Ids(f)
    ensures i in Ids(Join(f, g)) && TagOf(Join(f, g), i) == TagOf(f, i)
  {
    JoinFacts(f, g);
    if f.id != i && i !in Ids(f.kids) { TagJoin(f.next, g, i); }
  }

  lemma {:induction false} LeavesAt(f: Forest, x: nat)
    requires TextLeaves(f) && x in Ids(f)
    ensures TextLeaves(KidsOf(f, x)) && (TagOf(f, x).Text? ==> KidsOf(f, x).Empty?)
  {
    if f.id != x {
      if x in Ids(f.kids) { LeavesAt(f.kids, x); } else { LeavesAt(f.next, x); }
    }
  }

  // In document order no node lies below a later one.
  lemma NotBelowLater(f: Forest, nodes: seq<nat>, i: nat)
    requires Distinct(f) && InDocOrder(f, nodes) && i < |nodes|
    ensures nodes[i] in Ids(f) && nodes[i] !in nodes[i + 1..]
    ensures forall s :: s in nodes[i + 1..] ==> s in Ids(f) && nodes[i] !in Ids(KidsOf(f, s))
  {
    forall s | s in nodes[i + 1..]
      ensures s in Ids(f) && s != nodes[i] && nodes[i] !in Ids(KidsOf(f, s))
    {
      var j :| i < j < |nodes| && nodes[j] == s;
      assert Rank(f, nodes[i]) < Rank(f, nodes[j]);
      if nodes[i] in Ids(KidsOf(f, s)) {
        DescendantsFollow(f, s, nodes[i]);
      }
    }
  }

  // One turn of the update loop, on the tree of before.
  lemma RetextTurn(f: Forest, nodes: seq<nat>, i: nat, news: map<nat, nat>, k: nat, value: string)
    requires Distinct(f) && TextLeaves(f) && InDocOrder(f, nodes) && i < |nodes|
    requires news.Keys == Elems(nodes[i + 1..])
    requires forall j :: j in news ==> news[j] != nodes[i]
    ensures nodes[i] in Ids(Retext(f, news, value))
    ensures Retext(Retext(f, news, value), map[nodes[i] := k], value) == Retext(f, news[nodes[i] := k], value)
    ensures news[nodes[i] := k].Keys == Elems(nodes[i..])
  {
    NotBelowLater(f, nodes, i);
    Survives(f, news.Keys, nodes[i]);
    RetextStep(f, news, nodes[i], k, value);
    assert nodes[i..] == [nodes[i]] + nodes[i + 1..];
  }
}
