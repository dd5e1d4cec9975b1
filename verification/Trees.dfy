// XML trees as the server sees them, and the four edits as one simultaneous
// recursive rewrite each.
module Trees {
  import opened Base

  datatype Tag = Element(name: string) | Text(content: string)

  // A list of sibling trees: the first tree's tag and children, then the
  // siblings that follow it.
  datatype Xml = Nil | Cons(tag: Tag, kids: Xml, next: Xml)

  // The same list inside a document, where every node has an identity.
  datatype Forest = Empty | Node(id: nat, tag: Tag, kids: Forest, next: Forest)

  function Size(x: Xml): nat {
    match x
    case Nil => 0
    case Cons(_, kids, next) => 1 + Size(kids) + Size(next)
  }

  function Concat(x: Xml, y: Xml): Xml {
    match x
    case Nil => y
    case Cons(tag, kids, next) => Cons(tag, kids, Concat(next, y))
  }

  // Forgets identities.
  function Erase(f: Forest): Xml {
    match f
    case Empty => Nil
    case Node(_, tag, kids, next) => Cons(tag, Erase(kids), Erase(next))
  }

  // A fresh copy: nodes numbered from base in document order.
  function Number(x: Xml, base: nat): Forest {
    match x
    case Nil => Empty
    case Cons(tag, kids, next) =>
      Node(base, tag, Number(kids, base + 1), Number(next, base + 1 + Size(kids)))
  }

  function Ids(f: Forest): set<nat> {
    match f
    case Empty => {}
    case Node(id, _, kids, next) => {id} + Ids(kids) + Ids(next)
  }

  ghost predicate Distinct(f: Forest) {
    match f
    case Empty => true
    case Node(id, _, kids, next) =>
      && id !in Ids(kids) && id !in Ids(next) && Ids(kids) !! Ids(next)
      && Distinct(kids) && Distinct(next)
  }

  // The children of node x.
  function KidsOf(f: Forest, x: nat): Forest {
    match f
    case Empty => Empty
    case Node(id, _, kids, next) =>
      if id == x then kids else if x in Ids(kids) then KidsOf(kids, x) else KidsOf(next, x)
  }

  function TagOf(f: Forest, x: nat): Tag
    requires x in Ids(f)
  {
    if f.id == x then f.tag else if x in Ids(f.kids) then TagOf(f.kids, x) else TagOf(f.next, x)
  }

  // Position of x in document order: XPath 1.0, section 5 orders nodes by where
  // they start in the text, so a node comes before its descendants and those
  // before its following siblings.
  function Rank(f: Forest, x: nat): nat
    requires x in Ids(f)
  {
    if f.id == x then 0
    else if x in Ids(f.kids) then 1 + Rank(f.kids, x)
    else 1 + Size(Erase(f.kids)) + Rank(f.next, x)
  }

  // A node set as XPath hands it over: nodes of the document, in document
  // order, no duplicates. Nested nodes are allowed.
  ghost predicate InDocOrder(f: Forest, nodes: seq<nat>) {
    && (forall i :: 0 <= i < |nodes| ==> nodes[i] in Ids(f))
    && (forall i, j :: 0 <= i < j < |nodes| ==> Rank(f, nodes[i]) < Rank(f, nodes[j]))
  }

  // ----- The four edits, each a simultaneous rewrite of the whole tree -----

  // Prune every selected subtree.
  function Deleted(f: Forest, sel: set<nat>): Xml {
    match f
    case Empty => Nil
    case Node(id, tag, kids, next) =>
      if id in sel then Deleted(next, sel)
      else Cons(tag, Deleted(kids, sel), Deleted(next, sel))
  }

  // Give each outermost selected node the new text.
  function Updated(f: Forest, sel: set<nat>, value: string): Xml {
    match f
    case Empty => Nil
    case Node(id, tag, kids, next) =>
      if id !in sel then Cons(tag, Updated(kids, sel, value), Updated(next, sel, value))
      else if tag.Text? then Cons(Text(value), Nil, Updated(next, sel, value))
      else Cons(tag, TextOnly(value), Updated(next, sel, value))
  }

  // The children of an element whose text is set: an empty text leaves none.
  function TextOnly(value: string): Xml {
    if value == "" then Nil else Cons(Text(value), Nil, Nil)
  }

  // Put a copy of the fragment (one tree) in place of each outermost selected node.
  function Replaced(f: Forest, sel: set<nat>, fragment: Xml): Xml {
    match f
    case Empty => Nil
    case Node(id, tag, kids, next) =>
      if id in sel then Concat(fragment, Replaced(next, sel, fragment))
      else Cons(tag, Replaced(kids, sel, fragment), Replaced(next, sel, fragment))
  }

  // Append a copy of the fragment to the children of every selected node.
  function Added(f: Forest, sel: set<nat>, fragment: Xml): Xml {
    match f
    case Empty => Nil
    case Node(id, tag, kids, next) =>
      var below := Added(kids, sel, fragment);
      Cons(tag, if id in sel then Concat(below, fragment) else below, Added(next, sel, fragment))
  }

  // Text nodes have no children.
  predicate WellFormed(x: Xml) {
    match x
    case Nil => true
    case Cons(tag, kids, next) => (tag.Text? ==> kids.Nil?) && WellFormed(kids) && WellFormed(next)
  }

  // ----- Facts about identities -----

  lemma {:induction false} NumberIds(x: Xml, base: nat)
    ensures forall i :: i in Ids(Number(x, base)) <==> base <= i < base + Size(x)
    ensures Distinct(Number(x, base))
    ensures Erase(Number(x, base)) == x
  {
    match x
    case Nil =>
    case Cons(_, kids, next) =>
      NumberIds(kids, base + 1);
      NumberIds(next, base + 1 + Size(kids));
  }

  lemma NumberHas(x: Xml, base: nat, i: nat)
    ensures i in Ids(Number(x, base)) <==> base <= i < base + Size(x)
  {
    NumberIds(x, base);
  }

  // In a fresh copy, identity minus base is the position in document order.
  lemma {:induction false} NumberRank(x: Xml, base: nat, i: nat)
    requires base <= i < base + Size(x)
    ensures i in Ids(Number(x, base))
    ensures Rank(Number(x, base), i) == i - base
  {
    NumberHas(x, base, i);
    NumberHas(x.kids, base + 1, i);
    assert Erase(Number(x.kids, base + 1)) == x.kids by { NumberIds(x.kids, base + 1); }
    if i == base {
    } else if i < base + 1 + Size(x.kids) {
      NumberRank(x.kids, base + 1, i);
    } else {
      NumberRank(x.next, base + 1 + Size(x.kids), i);
    }
  }

  lemma {:induction false} KidsIds(f: Forest, x: nat)
    requires x in Ids(f) && Distinct(f)
    ensures Ids(KidsOf(f, x)) <= Ids(f) && x !in Ids(KidsOf(f, x))
    ensures Distinct(KidsOf(f, x))
  {
    if f.id != x {
      if x in Ids(f.kids) { KidsIds(f.kids, x); } else { KidsIds(f.next, x); }
    }
  }

  // A node comes before all its descendants in document order.
  lemma {:induction false} DescendantsFollow(f: Forest, x: nat, y: nat)
    requires Distinct(f) && x in Ids(f) && y in Ids(KidsOf(f, x))
    ensures y in Ids(f) && Rank(f, x) < Rank(f, y)
  {
    KidsIds(f, x);
    if f.id != x {
      if x in Ids(f.kids) {
        KidsIds(f.kids, x);
        DescendantsFollow(f.kids, x, y);
      } else {
        KidsIds(f.next, x);
        DescendantsFollow(f.next, x, y);
      }
    }
  }

  // ----- The same edits keeping identities, as the in-place loops do them -----

  function Prune(f: Forest, sel: set<nat>): Forest {
    match f
    case Empty => Empty
    case Node(id, tag, kids, next) =>
      if id in sel then Prune(next, sel) else Node(id, tag, Prune(kids, sel), Prune(next, sel))
  }

  // news maps each selected node to the identity of its new text child.
  function Retext(f: Forest, news: map<nat, nat>, value: string): Forest {
    match f
    case Empty => Empty
    case Node(id, tag, kids, next) =>
      var rest := Retext(next, news, value);
      if id !in news then Node(id, tag, Retext(kids, news, value), rest)
      else if tag.Text? then Node(id, Text(value), kids, rest)
      else Node(id, tag, TextNode(news[id], value), rest)
  }

  function TextNode(k: nat, value: string): Forest {
    if value == "" then Empty else Node(k, Text(value), Empty, Empty)
  }

  function Join(f: Forest, g: Forest): Forest {
    match f
    case Empty => g
    case Node(id, tag, kids, next) => Node(id, tag, kids, Join(next, g))
  }

  // news maps each selected node to the first identity of its copy of the fragment.
  function Substitute(f: Forest, news: map<nat, nat>, fragment: Xml): Forest {
    match f
    case Empty => Empty
    case Node(id, tag, kids, next) =>
      var rest := Substitute(next, news, fragment);
      if id in news then Join(Number(fragment, news[id]), rest)
      else Node(id, tag, Substitute(kids, news, fragment), rest)
  }

  function Extend(f: Forest, news: map<nat, nat>, fragment: Xml): Forest {
    match f
    case Empty => Empty
    case Node(id, tag, kids, next) =>
      var below := Extend(kids, news, fragment);
      Node(id, tag, if id in news then Join(below, Number(fragment, news[id])) else below,
           Extend(next, news, fragment))
  }

  lemma {:induction false} EraseJoin(f: Forest, g: Forest)
    ensures Erase(Join(f, g)) == Concat(Erase(f), Erase(g))
    ensures Ids(Join(f, g)) == Ids(f) + Ids(g)
  {
    if f.Node? { EraseJoin(f.next, g); }
  }

  lemma {:induction false} ErasePrune(f: Forest, sel: set<nat>)
    ensures Erase(Prune(f, sel)) == Deleted(f, sel)
  {
    if f.Node? { ErasePrune(f.kids, sel); ErasePrune(f.next, sel); }
  }

  ghost predicate TextLeaves(f: Forest) {
    match f
    case Empty => true
    case Node(_, tag, kids, next) => (tag.Text? ==> kids.Empty?) && TextLeaves(kids) && TextLeaves(next)
  }

  lemma {:induction false} EraseRetext(f: Forest, news: map<nat, nat>, value: string)
    requires TextLeaves(f)
    ensures Erase(Retext(f, news, value)) == Updated(f, news.Keys, value)
  {
    if f.Node? {
      EraseRetext(f.kids, news, value);
      EraseRetext(f.next, news, value);
      if f.id in news {
        assert Erase(TextNode(news[f.id], value)) == TextOnly(value);
      }
    }
  }

  lemma {:induction false} EraseSubstitute(f: Forest, news: map<nat, nat>, fragment: Xml)
    ensures Erase(Substitute(f, news, fragment)) == Replaced(f, news.Keys, fragment)
  {
    if f.Node? {
      EraseSubstitute(f.kids, news, fragment);
      EraseSubstitute(f.next, news, fragment);
      if f.id in news {
        NumberIds(fragment, news[f.id]);
        EraseJoin(Number(fragment, news[f.id]), Substitute(f.next, news, fragment));
      }
    }
  }

  lemma {:induction false} EraseExtend(f: Forest, news: map<nat, nat>, fragment: Xml)
    ensures Erase(Extend(f, news, fragment)) == Added(f, news.Keys, fragment)
  {
    if f.Node? {
      EraseExtend(f.kids, news, fragment);
      EraseExtend(f.next, news, fragment);
      if f.id in news {
        NumberIds(fragment, news[f.id]);
        EraseJoin(Extend(f.kids, news, fragment), Number(fragment, news[f.id]));
      }
    }
  }

  // ----- One selected node at a time -----

  // Node x gets this tag and these children.
  function SetNode(f: Forest, x: nat, tag: Tag, kids: Forest): Forest {
    match f
    case Empty => Empty
    case Node(id, t, ks, next) =>
      if id == x then Node(id, tag, kids, next)
      else Node(id, t, SetNode(ks, x, tag, kids), SetNode(next, x, tag, kids))
  }

  lemma {:induction false} SetNodeAbsent(f: Forest, x: nat, tag: Tag, kids: Forest)
    requires x !in Ids(f)
    ensures SetNode(f, x, tag, kids) == f
  {
    if f.Node? { SetNodeAbsent(f.kids, x, tag, kids); SetNodeAbsent(f.next, x, tag, kids); }
  }

  lemma {:induction false} PruneAbsent(f: Forest, sel: set<nat>)
    requires sel !! Ids(f)
    ensures Prune(f, sel) == f
  {
    if f.Node? { PruneAbsent(f.kids, sel); PruneAbsent(f.next, sel); }
  }

  lemma {:induction false} RetextAbsent(f: Forest, news: map<nat, nat>, value: string)
    requires news.Keys !! Ids(f)
    ensures Retext(f, news, value) == f
  {
    if f.Node? { RetextAbsent(f.kids, news, value); RetextAbsent(f.next, news, value); }
  }

  lemma {:induction false} SubstituteAbsent(f: Forest, news: map<nat, nat>, fragment: Xml)
    requires news.Keys !! Ids(f)
    ensures Substitute(f, news, fragment) == f
  {
    if f.Node? { SubstituteAbsent(f.kids, news, fragment); SubstituteAbsent(f.next, news, fragment); }
  }

  lemma {:induction false} ExtendAbsent(f: Forest, news: map<nat, nat>, fragment: Xml)
    requires news.Keys !! Ids(f)
    ensures Extend(f, news, fragment) == f
  {
    if f.Node? { ExtendAbsent(f.kids, news, fragment); ExtendAbsent(f.next, news, fragment); }
  }

  lemma {:induction false} RetextOne(f: Forest, x: nat, k: nat, value: string)
    requires Distinct(f) && x in Ids(f) && TextLeaves(f)
    ensures Retext(f, map[x := k], value) ==
            if TagOf(f, x).Text? then SetNode(f, x, Text(value), KidsOf(f, x))
            else SetNode(f, x, TagOf(f, x), TextNode(k, value))
  {
    var news := map[x := k];
    if f.id == x {
      RetextAbsent(f.next, news, value);
    } else if x in Ids(f.kids) {
      RetextOne(f.kids, x, k, value);
      RetextAbsent(f.next, news, value);
      SetNodeAbsent(f.next, x, Text(value), KidsOf(f, x));
      SetNodeAbsent(f.next, x, TagOf(f, x), TextNode(k, value));
    } else {
      RetextOne(f.next, x, k, value);
      RetextAbsent(f.kids, news, value);
      SetNodeAbsent(f.kids, x, Text(value), KidsOf(f, x));
      SetNodeAbsent(f.kids, x, TagOf(f, x), TextNode(k, value));
    }
  }

  lemma {:induction false} ExtendOne(f: Forest, x: nat, k: nat, fragment: Xml)
    requires Distinct(f) && x in Ids(f)
    ensures Extend(f, map[x := k], fragment) ==
            SetNode(f, x, TagOf(f, x), Join(KidsOf(f, x), Number(fragment, k)))
  {
    var news := map[x := k];
    var kids := Join(KidsOf(f, x), Number(fragment, k));
    if f.id == x {
      ExtendAbsent(f.kids, news, fragment);
      ExtendAbsent(f.next, news, fragment);
    } else if x in Ids(f.kids) {
      ExtendOne(f.kids, x, k, fragment);
      ExtendAbsent(f.next, news, fragment);
      SetNodeAbsent(f.next, x, TagOf(f, x), kids);
    } else {
      ExtendOne(f.next, x, k, fragment);
      ExtendAbsent(f.kids, news, fragment);
      SetNodeAbsent(f.kids, x, TagOf(f, x), kids);
    }
  }

  // Rewriting for a set, then for one more node, is rewriting for the larger set.

  lemma {:induction false} PruneStep(f: Forest, sel: set<nat>, x: nat)
    ensures Prune(Prune(f, sel), {x}) == Prune(f, sel + {x})
  {
    if f.Node? { PruneStep(f.kids, sel, x); PruneStep(f.next, sel, x); }
  }

  lemma {:induction false} RetextStep(f: Forest, news: map<nat, nat>, x: nat, k: nat, value: string)
    requires x !in news && TextLeaves(f)
    requires forall i :: i in news ==> news[i] != x
    ensures Retext(Retext(f, news, value), map[x := k], value) == Retext(f, news[x := k], value)
  {
    if f.Node? {
      RetextStep(f.kids, news, x, k, value);
      RetextStep(f.next, news, x, k, value);
      if f.id in news && !f.tag.Text? {
        RetextAbsent(TextNode(news[f.id], value), map[x := k], value);
      }
    }
  }

  lemma {:induction false} SubstituteJoin(f: Forest, g: Forest, news: map<nat, nat>, fragment: Xml)
    ensures Substitute(Join(f, g), news, fragment) ==
            Join(Substitute(f, news, fragment), Substitute(g, news, fragment))
  {
    if f.Node? {
      SubstituteJoin(f.next, g, news, fragment);
      if f.id in news {
        JoinAssoc(Number(fragment, news[f.id]), Substitute(f.next, news, fragment), Substitute(g, news, fragment));
      }
    }
  }

  lemma {:induction false} JoinAssoc(f: Forest, g: Forest, h: Forest)
    ensures Join(Join(f, g), h) == Join(f, Join(g, h))
  {
    if f.Node? { JoinAssoc(f.next, g, h); }
  }

  lemma {:induction false} SubstituteStep(f: Forest, news: map<nat, nat>, x: nat, k: nat, fragment: Xml)
    requires x !in news
    requires forall i :: i in news ==> x < news[i]
    ensures Substitute(Substitute(f, news, fragment), map[x := k], fragment) ==
            Substitute(f, news[x := k], fragment)
  {
    if f.Node? {
      SubstituteStep(f.kids, news, x, k, fragment);
      SubstituteStep(f.next, news, x, k, fragment);
      if f.id in news {
        var copy := Number(fragment, news[f.id]);
        NumberIds(fragment, news[f.id]);
        SubstituteAbsent(copy, map[x := k], fragment);
        SubstituteJoin(copy, Substitute(f.next, news, fragment), map[x := k], fragment);
      }
    }
  }

  lemma {:induction false} ExtendJoin(f: Forest, g: Forest, news: map<nat, nat>, fragment: Xml)
    ensures Extend(Join(f, g), news, fragment) ==
            Join(Extend(f, news, fragment), Extend(g, news, fragment))
  {
    if f.Node? { ExtendJoin(f.next, g, news, fragment); }
  }

  lemma {:induction false} ExtendStep(f: Forest, news: map<nat, nat>, x: nat, k: nat, fragment: Xml)
    requires x !in news
    requires forall i :: i in news ==> x < news[i]
    ensures Extend(Extend(f, news, fragment), map[x := k], fragment) == Extend(f, news[x := k], fragment)
  {
    if f.Node? {
      ExtendStep(f.kids, news, x, k, fragment);
      ExtendStep(f.next, news, x, k, fragment);
      if f.id in news {
        var copy := Number(fragment, news[f.id]);
        NumberIds(fragment, news[f.id]);
        ExtendAbsent(copy, map[x := k], fragment);
        ExtendJoin(Extend(f.kids, news, fragment), copy, map[x := k], fragment);
      }
    }
  }

  // A node none of whose selected fellows lies above it survives the rewrite.
  lemma {:induction false} Survives(f: Forest, sel: set<nat>, x: nat)
    requires Distinct(f) && x in Ids(f) && x !in sel
    requires forall s :: s in sel && s in Ids(f) ==> x !in Ids(KidsOf(f, s))
    ensures x in Ids(Prune(f, sel))
    ensures forall news: map<nat, nat>, value: string :: news.Keys == sel ==> x in Ids(Retext(f, news, value))
  {
    if f.id == x {
    } else if x in Ids(f.kids) {
      assert f.id !in sel by { assert KidsOf(f, f.id) == f.kids; }
      forall s | s in sel && s in Ids(f.kids) ensures x !in Ids(KidsOf(f.kids, s)) {
        assert KidsOf(f, s) == KidsOf(f.kids, s);
      }
      Survives(f.kids, sel, x);
    } else {
      forall s | s in sel && s in Ids(f.next) ensures x !in Ids(KidsOf(f.next, s)) {
        assert KidsOf(f, s) == KidsOf(f.next, s);
      }
      Survives(f.next, sel, x);
    }
  }

  // ----- The text of a node -----

  // The texts in document order, one after another.
  function TextOf(f: Forest): string {
    match f
    case Empty => ""
    case Node(_, tag, kids, next) => (if tag.Text? then tag.content else TextOf(kids)) + TextOf(next)
  }

  // A text node is its text; an element has the text of its descendants, and no child without a text.
  ghost predicate ShowsText(f: Forest, x: nat, value: string) {
    && x in Ids(f)
    && if TagOf(f, x).Text? then TagOf(f, x).content == value
       else TextOf(KidsOf(f, x)) == value && (KidsOf(f, x).Node? <==> value != "")
  }

  // No node of sel lies above x.
  ghost predicate Outermost(f: Forest, sel: set<nat>, x: nat) {
    forall s :: s in sel && s in Ids(f) ==> x !in Ids(KidsOf(f, s))
  }

  lemma {:induction false} RetextIds(f: Forest, news: map<nat, nat>, value: string)
    ensures Ids(Retext(f, news, value)) <= Ids(f) + news.Values
  {
    if f.Node? {
      RetextIds(f.kids, news, value);
      RetextIds(f.next, news, value);
      if f.id in news { assert Ids(TextNode(news[f.id], value)) <= {news[f.id]} <= news.Values; }
    }
  }

  // An outermost selected node has the new text.
  lemma {:induction false} RetextShows(f: Forest, news: map<nat, nat>, value: string, x: nat)
    requires Distinct(f) && x in Ids(f) && x in news && x !in news.Values && Outermost(f, news.Keys, x)
    ensures ShowsText(Retext(f, news, value), x, value)
    ensures TagOf(Retext(f, news, value), x).Text? || TagOf(Retext(f, news, value), x) == TagOf(f, x)
  {
    if f.id == x {
      assert TextOf(TextNode(news[x], value)) == value;
    } else if x in Ids(f.kids) {
      assert f.id !in news by { assert KidsOf(f, f.id) == f.kids; }
      forall s | s in news && s in Ids(f.kids) ensures x !in Ids(KidsOf(f.kids, s)) {
        assert KidsOf(f, s) == KidsOf(f.kids, s);
      }
      RetextShows(f.kids, news, value, x);
    } else {
      forall s | s in news && s in Ids(f.next) ensures x !in Ids(KidsOf(f.next, s)) {
        assert KidsOf(f, s) == KidsOf(f.next, s);
      }
      RetextShows(f.next, news, value, x);
      RetextIds(f.kids, news, value);
    }
  }

  lemma {:induction false} PruneIds(f: Forest, sel: set<nat>)
    requires Distinct(f)
    ensures Ids(Prune(f, sel)) <= Ids(f) - sel
    ensures Distinct(Prune(f, sel))
    ensures TextLeaves(f) ==> TextLeaves(Prune(f, sel))
  {
    if f.Node? { PruneIds(f.kids, sel); PruneIds(f.next, sel); }
  }

  // Pruning one node removes it and its descendants, nothing else.
  lemma {:induction false} PruneOneIds(f: Forest, x: nat)
    requires Distinct(f) && x in Ids(f)
    ensures Ids(Prune(f, {x})) == Ids(f) - ({x} + Ids(KidsOf(f, x)))
  {
    KidsIds(f, x);
    if f.id == x {
      PruneAbsent(f.next, {x});
    } else if x in Ids(f.kids) {
      KidsIds(f.kids, x);
      PruneOneIds(f.kids, x);
      PruneAbsent(f.next, {x});
    } else {
      KidsIds(f.next, x);
      PruneOneIds(f.next, x);
      PruneAbsent(f.kids, {x});
    }
  }

  lemma {:induction false} SetNodeIds(f: Forest, x: nat, tag: Tag, kids: Forest)
    requires Distinct(f) && x in Ids(f)
    ensures Ids(SetNode(f, x, tag, kids)) == (Ids(f) - Ids(KidsOf(f, x))) + Ids(kids)
  {
    KidsIds(f, x);
    if f.id == x {
    } else if x in Ids(f.kids) {
      KidsIds(f.kids, x);
      SetNodeIds(f.kids, x, tag, kids);
      SetNodeAbsent(f.next, x, tag, kids);
    } else {
      KidsIds(f.next, x);
      SetNodeIds(f.next, x, tag, kids);
      SetNodeAbsent(f.kids, x, tag, kids);
    }
  }

  lemma {:induction false} SetNodeDistinct(f: Forest, x: nat, tag: Tag, kids: Forest)
    requires Distinct(f) && x in Ids(f) && Distinct(kids)
    requires Ids(kids) !! (Ids(f) - Ids(KidsOf(f, x)))
    ensures Distinct(SetNode(f, x, tag, kids))
  {
    KidsIds(f, x);
    if f.id == x {
    } else if x in Ids(f.kids) {
      KidsIds(f.kids, x);
      assert Ids(kids) !! (Ids(f.kids) - Ids(KidsOf(f.kids, x)));
      SetNodeIds(f.kids, x, tag, kids);
      SetNodeDistinct(f.kids, x, tag, kids);
      SetNodeAbsent(f.next, x, tag, kids);
    } else {
      KidsIds(f.next, x);
      assert Ids(kids) !! (Ids(f.next) - Ids(KidsOf(f.next, x)));
      SetNodeIds(f.next, x, tag, kids);
      SetNodeDistinct(f.next, x, tag, kids);
      SetNodeAbsent(f.kids, x, tag, kids);
    }
  }

  lemma {:induction false} SetNodeLeaves(f: Forest, x: nat, tag: Tag, kids: Forest)
    requires TextLeaves(f) && TextLeaves(kids) && (tag.Text? ==> kids.Empty?)
    ensures TextLeaves(SetNode(f, x, tag, kids))
  {
    if f.Node? && f.id != x {
      SetNodeLeaves(f.kids, x, tag, kids);
      SetNodeLeaves(f.next, x, tag, kids);
    }
  }

  lemma {:induction false} JoinFacts(f: Forest, g: Forest)
    ensures Ids(Join(f, g)) == Ids(f) + Ids(g)
    ensures Distinct(f) && Distinct(g) && Ids(f) !! Ids(g) ==> Distinct(Join(f, g))
    ensures TextLeaves(f) && TextLeaves(g) ==> TextLeaves(Join(f, g))
  {
    if f.Node? { JoinFacts(f.next, g); }
  }

  lemma {:induction false} NumberTextLeaves(x: Xml, base: nat)
    requires WellFormed(x)
    ensures TextLeaves(Number(x, base))
  {
    if x.Cons? { NumberTextLeaves(x.kids, base + 1); NumberTextLeaves(x.next, base + 1 + Size(x.kids)); }
  }

  // Replacing one node by a copy whose identities are all new.
  lemma {:induction false} SubstituteOneIds(f: Forest, x: nat, k: nat, fragment: Xml)
    requires Distinct(f) && x in Ids(f)
    ensures Ids(Substitute(f, map[x := k], fragment)) ==
            (Ids(f) - ({x} + Ids(KidsOf(f, x)))) + Ids(Number(fragment, k))
  {
    var news := map[x := k];
    KidsIds(f, x);
    if f.id == x {
      SubstituteAbsent(f.next, news, fragment);
      JoinFacts(Number(fragment, k), f.next);
    } else if x in Ids(f.kids) {
      KidsIds(f.kids, x);
      SubstituteOneIds(f.kids, x, k, fragment);
      SubstituteAbsent(f.next, news, fragment);
    } else {
      KidsIds(f.next, x);
      SubstituteOneIds(f.next, x, k, fragment);
      SubstituteAbsent(f.kids, news, fragment);
    }
  }

  lemma {:induction false} SubstituteOneDistinct(f: Forest, x: nat, k: nat, fragment: Xml)
    requires Distinct(f) && x in Ids(f) && forall i :: i in Ids(f) ==> i < k
    ensures Distinct(Substitute(f, map[x := k], fragment))
  {
    var news := map[x := k];
    NumberIds(fragment, k);
    if f.id == x {
      SubstituteAbsent(f.next, news, fragment);
      JoinFacts(Number(fragment, k), f.next);
    } else if x in Ids(f.kids) {
      SubstituteOneIds(f.kids, x, k, fragment);
      SubstituteOneDistinct(f.kids, x, k, fragment);
      SubstituteAbsent(f.next, news, fragment);
    } else {
      SubstituteOneIds(f.next, x, k, fragment);
      SubstituteOneDistinct(f.next, x, k, fragment);
      SubstituteAbsent(f.kids, news, fragment);
    }
  }

  lemma {:induction false} SubstituteLeaves(f: Forest, news: map<nat, nat>, fragment: Xml)
    requires TextLeaves(f) && WellFormed(fragment)
    ensures TextLeaves(Substitute(f, news, fragment))
  {
    if f.Node? {
      SubstituteLeaves(f.kids, news, fragment);
      SubstituteLeaves(f.next, news, fragment);
      if f.id in news {
        NumberTextLeaves(fragment, news[f.id]);
        JoinFacts(Number(fragment, news[f.id]), Substitute(f.next, news, fragment));
      }
    }
  }

  // A node that is gone from the substituted tree cannot matter to it.
  lemma {:induction false} SubstituteGone(f: Forest, news: map<nat, nat>, x: nat, k: nat, fragment: Xml)
    requires x !in news && x !in Ids(Substitute(f, news, fragment))
    ensures Substitute(f, news[x := k], fragment) == Substitute(f, news, fragment)
  {
    if f.Node? {
      if f.id in news {
        JoinFacts(Number(fragment, news[f.id]), Substitute(f.next, news, fragment));
        SubstituteGone(f.next, news, x, k, fragment);
      } else {
        SubstituteGone(f.kids, news, x, k, fragment);
        SubstituteGone(f.next, news, x, k, fragment);
      }
    }
  }
}
