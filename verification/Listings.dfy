// Trees as listings, the nodes in document order with their depths, and the four edits on listings: what an
// edit does is said row by row, of the positions that an expression selects.
module Listings {
  import opened Base
  import opened Trees

  datatype Row = Row(depth: nat, tag: Tag)

  function Listing(x: Xml, d: nat): seq<Row> {
    match x
    case Nil => []
    case Cons(tag, kids, next) => [Row(d, tag)] + Listing(kids, d + 1) + Listing(next, d)
  }

  lemma {:induction false} ListingFacts(x: Xml, d: nat)
    ensures |Listing(x, d)| == Size(x)
    ensures forall i :: 0 <= i < |Listing(x, d)| ==> Listing(x, d)[i].depth >= d
  {
    if x.Cons? { ListingFacts(x.kids, d + 1); ListingFacts(x.next, d); }
  }

  // A tree is known by its listing.
  lemma {:induction false} ListingInjective(x: Xml, y: Xml, d: nat)
    requires Listing(x, d) == Listing(y, d)
    ensures x == y
  {
    if x.Cons? && y.Cons? {
      ListingFacts(x.kids, d + 1);
      ListingFacts(y.kids, d + 1);
      ListingTail(x, d);
      ListingTail(y, d);
      SplitAtDepth(Listing(x.kids, d + 1), Listing(x.next, d), Listing(y.kids, d + 1), Listing(y.next, d), d);
      ListingInjective(x.kids, y.kids, d + 1);
      ListingInjective(x.next, y.next, d);
    }
  }

  lemma ListingTail(x: Xml, d: nat)
    requires x.Cons?
    ensures Listing(x, d)[0] == Row(d, x.tag) && Listing(x, d)[1..] == Listing(x.kids, d + 1) + Listing(x.next, d)
    ensures x.next.Cons? ==> Listing(x.next, d)[0].depth == d
  {
  }

  lemma SplitAtDepth(a: seq<Row>, b: seq<Row>, a': seq<Row>, b': seq<Row>, d: nat)
    requires a + b == a' + b'
    requires forall i :: 0 <= i < |a| ==> a[i].depth > d
    requires forall i :: 0 <= i < |a'| ==> a'[i].depth > d
    requires (b != [] ==> b[0].depth == d) && (b' != [] ==> b'[0].depth == d)
    ensures a == a' && b == b'
  {
    assert b != [] ==> (a + b)[|a|].depth == d;
    assert forall i :: 0 <= i < |a'| ==> (a' + b')[i].depth > d;
    assert |a'| <= |a|;
    assert b' != [] ==> (a' + b')[|a'|].depth == d;
    assert forall i :: 0 <= i < |a| ==> (a + b)[i].depth > d;
    assert |a| <= |a'|;
    assert a == (a + b)[..|a|] && a' == (a' + b')[..|a'|];
    assert b == (a + b)[|a|..] && b' == (a' + b')[|a'|..];
  }

  lemma {:induction false} ListingConcat(x: Xml, y: Xml, d: nat)
    ensures Listing(Concat(x, y), d) == Listing(x, d) + Listing(y, d)
  {
    if x.Cons? { ListingConcat(x.next, y, d); }
  }

  // ----- The edits on listings -----

  // Row q is a descendant of row p.
  ghost predicate Below(rows: seq<Row>, p: nat, q: nat) {
    p < q < |rows| && forall k :: p < k <= q ==> rows[k].depth > rows[p].depth
  }

  ghost predicate Covered(rows: seq<Row>, sel: set<nat>, q: nat) {
    exists p: nat {:trigger Below(rows, p, q)} :: p in sel && Below(rows, p, q)
  }

  // Row i is the last of row s and its descendants.
  ghost predicate EndsAt(rows: seq<Row>, s: nat, i: nat) {
    (s == i < |rows| || Below(rows, s, i)) && (i + 1 < |rows| ==> rows[i + 1].depth <= rows[s].depth)
  }

  // The rows from lo to hi, row i with out[i] in its place.
  ghost function Gather(out: seq<seq<Row>>, lo: nat, hi: nat): seq<Row>
    requires hi <= |out|
    decreases hi - lo
  {
    if lo >= hi then [] else out[lo] + Gather(out, lo + 1, hi)
  }

  // What takes the place of an outermost selected row and its descendants: nothing; the row with a new text, for an
  // element one text row below it unless the text is empty; or the rows of a fragment.
  datatype Change = Gone | NewText(value: string) | NewTree(fragment: Xml)

  function Instead(change: Change, row: Row): seq<Row> {
    match change
    case Gone => []
    case NewText(value) =>
      if row.tag.Text? then [Row(row.depth, Text(value))]
      else if value == "" then [row]
      else [row, Row(row.depth + 1, Text(value))]
    case NewTree(fragment) => Listing(fragment, row.depth)
  }

  ghost function ChangedRow(rows: seq<Row>, sel: set<nat>, change: Change, i: nat): seq<Row>
    requires i < |rows|
  {
    if Covered(rows, sel, i) then [] else if i in sel then Instead(change, rows[i]) else [rows[i]]
  }

  // The rows with the outermost selected ones and their descendants changed, the others as they are.
  ghost function ChangedRows(rows: seq<Row>, sel: set<nat>, change: Change): seq<Row> {
    Gather(seq(|rows|, (i: nat) requires i < |rows| => ChangedRow(rows, sel, change, i)), 0, |rows|)
  }

  // Every row stays, and behind the last descendant of each selected row from row lo on come the fragment's rows.
  ghost function RowWithChildren(rows: seq<Row>, sel: set<nat>, fragment: Xml, lo: nat, i: nat): seq<Row>
    requires i < |rows|
  {
    [rows[i]] + Children(rows, sel, fragment, i, lo, i + 1)
  }

  // The new children of the selected rows below s, from row lo on, that end at row i: inner ones first.
  ghost function Children(rows: seq<Row>, sel: set<nat>, fragment: Xml, i: nat, lo: nat, s: nat): seq<Row>
    requires s <= |rows|
  {
    Down(seq(|rows|, (r: nat) requires r < |rows| => OwnChildren(rows, sel, fragment, r, i)), lo, s)
  }

  ghost function Down(parts: seq<seq<Row>>, lo: nat, s: nat): seq<Row>
    requires s <= |parts|
  {
    if s <= lo then [] else parts[s - 1] + Down(parts, lo, s - 1)
  }

  // The new children of row r, when it is selected and ends at row i.
  ghost function OwnChildren(rows: seq<Row>, sel: set<nat>, fragment: Xml, r: nat, i: nat): seq<Row>
    requires r < |rows|
  {
    if r in sel && EndsAt(rows, r, i) then Listing(fragment, rows[r].depth + 1) else []
  }

  ghost function RowsWithChildren(rows: seq<Row>, sel: set<nat>, fragment: Xml): seq<Row> {
    Gather(seq(|rows|, (i: nat) requires i < |rows| => RowWithChildren(rows, sel, fragment, 0, i)), 0, |rows|)
  }

  // ----- Gathering -----

  lemma {:induction false} GatherSplit(out: seq<seq<Row>>, lo: nat, mid: nat, hi: nat)
    requires lo <= mid <= hi <= |out|
    ensures Gather(out, lo, hi) == Gather(out, lo, mid) + Gather(out, mid, hi)
    decreases mid - lo
  {
    if lo < mid { GatherSplit(out, lo + 1, mid, hi); }
  }

  lemma {:induction false} GatherSame(out: seq<seq<Row>>, out': seq<seq<Row>>, lo: nat, hi: nat)
    requires hi <= |out| && hi <= |out'| && forall i: nat :: lo <= i < hi ==> out[i] == out'[i]
    ensures Gather(out, lo, hi) == Gather(out', lo, hi)
    decreases hi - lo
  {
    if lo < hi { GatherSame(out, out', lo + 1, hi); }
  }

  lemma {:induction false} GatherNone(out: seq<seq<Row>>, lo: nat, hi: nat)
    requires hi <= |out| && forall i: nat :: lo <= i < hi ==> out[i] == []
    ensures Gather(out, lo, hi) == []
    decreases hi - lo
  {
    if lo < hi { GatherNone(out, lo + 1, hi); }
  }

  // A row, those of its descendants, those of its siblings.
  lemma GatherThree(out: seq<seq<Row>>, lo: nat, mid: nat, hi: nat, head: seq<Row>, kids: seq<Row>, next: seq<Row>)
    requires lo < mid <= hi <= |out|
    requires out[lo] == head && Gather(out, lo + 1, mid) == kids && Gather(out, mid, hi) == next
    ensures Gather(out, lo, hi) == head + kids + next
    ensures kids == [] ==> Gather(out, lo, hi) == head + next
  {
    GatherSplit(out, lo + 1, mid, hi);
  }

  // ----- A sibling list inside a listing -----

  // The rows from base on list x at depth d, and its siblings end there.
  ghost predicate Window(rows: seq<Row>, x: Xml, base: nat, d: nat) {
    && base + Size(x) <= |rows| && rows[base..base + Size(x)] == Listing(x, d)
    && (base + Size(x) < |rows| ==> rows[base + Size(x)].depth < d)
  }

  lemma WindowParts(rows: seq<Row>, x: Xml, base: nat, d: nat)
    requires Window(rows, x, base, d) && x.Cons?
    ensures rows[base] == Row(d, x.tag)
    ensures Window(rows, x.kids, base + 1, d + 1) && Window(rows, x.next, base + 1 + Size(x.kids), d)
    ensures forall k :: base < k < base + 1 + Size(x.kids) ==> rows[k].depth > d
    ensures x.next.Cons? ==> rows[base + 1 + Size(x.kids)].depth == d
  {
    var n := base + 1 + Size(x.kids);
    ListingFacts(x.kids, d + 1);
    ListingFacts(x.next, d);
    SliceThree(rows, base, Row(d, x.tag), Listing(x.kids, d + 1), Listing(x.next, d));
    forall k | base < k < n ensures rows[k].depth > d {
      assert rows[k] == rows[base + 1..n][k - base - 1];
    }
    if x.next.Cons? { assert rows[n] == rows[n..base + Size(x)][0]; }
  }

  lemma SliceThree<T>(s: seq<T>, base: nat, r: T, a: seq<T>, b: seq<T>)
    requires base + 1 + |a| + |b| <= |s| && s[base..base + 1 + |a| + |b|] == [r] + a + b
    ensures s[base] == r && s[base + 1..base + 1 + |a|] == a && s[base + 1 + |a|..base + 1 + |a| + |b|] == b
  {
    var w := s[base..base + 1 + |a| + |b|];
    assert w[0] == r;
    forall k | 0 <= k < |a| ensures s[base + 1..base + 1 + |a|][k] == a[k] { assert w[1 + k] == a[k]; }
    forall k | 0 <= k < |b| ensures s[base + 1 + |a|..base + 1 + |a| + |b|][k] == b[k] { assert w[1 + |a| + k] == b[k]; }
  }

  // Which rows are descendants of the first row of a window, and of no row before its siblings.
  lemma FirstBelow(rows: seq<Row>, x: Xml, base: nat, d: nat)
    requires Window(rows, x, base, d) && x.Cons?
    ensures forall q: nat :: base < q < base + 1 + Size(x.kids) ==> Below(rows, base, q)
    ensures forall p: nat, q: nat :: base <= p < base + 1 + Size(x.kids) <= q ==> !Below(rows, p, q)
  {
    WindowParts(rows, x, base, d);
    var n := base + 1 + Size(x.kids);
    forall p: nat, q: nat | base <= p < n <= q ensures !Below(rows, p, q) {
      assert n < |rows| ==> rows[n].depth <= d <= rows[p].depth;
    }
  }

  // No selected row from outside covers the window.
  ghost predicate Free(rows: seq<Row>, sel: set<nat>, base: nat) {
    forall p: nat {:trigger Below(rows, p, base)} :: p in sel && p < base ==> !Below(rows, p, base)
  }

  // Then only rows inside it cover rows inside it.
  lemma FreeInside(rows: seq<Row>, sel: set<nat>, base: nat, p: nat, q: nat)
    requires Free(rows, sel, base) && base <= q && p in sel && Below(rows, p, q)
    ensures base <= p
  {
    if p < base {
      assert Below(rows, p, base);
      assert false;
    }
  }

  lemma FreeParts(rows: seq<Row>, sel: set<nat>, x: Xml, base: nat, d: nat)
    requires Window(rows, x, base, d) && x.Cons? && Free(rows, sel, base)
    ensures !Covered(rows, sel, base)
    ensures base !in sel ==> Free(rows, sel, base + 1)
    ensures Free(rows, sel, base + 1 + Size(x.kids))
    ensures base in sel ==> forall q: nat :: base < q < base + 1 + Size(x.kids) ==> Covered(rows, sel, q)
  {
    FirstBelow(rows, x, base, d);
    var n := base + 1 + Size(x.kids);
    forall p: nat | p in sel ensures !Below(rows, p, base) {
      if Below(rows, p, base) { FreeInside(rows, sel, base, p, base); }
    }
    if base !in sel {
      forall p: nat | p in sel && p < base + 1 ensures !Below(rows, p, base + 1) {
        if Below(rows, p, base + 1) { FreeInside(rows, sel, base, p, base + 1); }
      }
    }
    forall p: nat | p in sel && p < n ensures !Below(rows, p, n) {
      if Below(rows, p, n) { FreeInside(rows, sel, base, p, n); }
    }
    forall q: nat | base in sel && base < q < n ensures Covered(rows, sel, q) { assert Below(rows, base, q); }
  }

  // ----- One change on the tree and on its rows -----

  lemma FirstFree(rows: seq<Row>, sel: set<nat>, x: Xml, base: nat, d: nat)
    requires Window(rows, x, base, d) && x.Cons? && Free(rows, sel, base)
    ensures !Covered(rows, sel, base) && rows[base] == Row(d, x.tag) && base + 1 + Size(x.kids) <= |rows|
  {
    WindowParts(rows, x, base, d);
    FreeParts(rows, sel, x, base, d);
  }

  lemma FirstCovers(rows: seq<Row>, sel: set<nat>, x: Xml, base: nat, d: nat, q: nat)
    requires Window(rows, x, base, d) && x.Cons? && base in sel && base < q < base + 1 + Size(x.kids)
    ensures Covered(rows, sel, q)
  {
    FirstBelow(rows, x, base, d);
    assert Below(rows, base, q);
  }

  // What the induction over a window goes down to.
  lemma Inside(rows: seq<Row>, sel: set<nat>, x: Xml, base: nat, d: nat)
    requires Window(rows, x, base, d) && x.Cons? && Free(rows, sel, base)
    ensures Window(rows, x.kids, base + 1, d + 1) && Window(rows, x.next, base + 1 + Size(x.kids), d)
    ensures base !in sel ==> Free(rows, sel, base + 1)
    ensures Free(rows, sel, base + 1 + Size(x.kids))
  {
    WindowParts(rows, x, base, d);
    FreeParts(rows, sel, x, base, d);
  }

  // The change made on the tree at once, the rows of its nodes numbered from base on.
  function Cut(x: Xml, base: nat, d: nat, sel: set<nat>, change: Change): seq<Row> {
    match x
    case Nil => []
    case Cons(tag, kids, next) =>
      (if base in sel then Instead(change, Row(d, tag)) else [Row(d, tag)] + Cut(kids, base + 1, d + 1, sel, change))
      + Cut(next, base + 1 + Size(kids), d, sel, change)
  }

  ghost predicate IsChanged(rows: seq<Row>, sel: set<nat>, change: Change, out: seq<seq<Row>>) {
    && |out| == |rows|
    && forall i: nat {:trigger ChangedRow(rows, sel, change, i)} ::
         i < |rows| ==> out[i] == ChangedRow(rows, sel, change, i)
  }

  // The first node of a window and its descendants.
  lemma ChangedFirst(rows: seq<Row>, sel: set<nat>, change: Change, out: seq<seq<Row>>, x: Xml, base: nat, d: nat)
    requires Window(rows, x, base, d) && x.Cons? && Free(rows, sel, base) && IsChanged(rows, sel, change, out)
    ensures out[base] == if base in sel then Instead(change, Row(d, x.tag)) else [Row(d, x.tag)]
    ensures base in sel ==> Gather(out, base + 1, base + 1 + Size(x.kids)) == []
  {
    FirstFree(rows, sel, x, base, d);
    assert out[base] == ChangedRow(rows, sel, change, base);
    if base in sel {
      var n := base + 1 + Size(x.kids);
      forall q: nat | base < q < n ensures out[q] == [] {
        FirstCovers(rows, sel, x, base, d, q);
        assert out[q] == ChangedRow(rows, sel, change, q);
      }
      GatherNone(out, base + 1, n);
    }
  }

  lemma {:induction false} CutWindow(rows: seq<Row>, sel: set<nat>, change: Change, out: seq<seq<Row>>, x: Xml, base: nat, d: nat)
    requires Window(rows, x, base, d) && Free(rows, sel, base) && IsChanged(rows, sel, change, out)
    ensures Cut(x, base, d, sel, change) == Gather(out, base, base + Size(x))
    decreases x
  {
    if x.Cons? {
      Inside(rows, sel, x, base, d);
      CutWindow(rows, sel, change, out, x.next, base + 1 + Size(x.kids), d);
      if base !in sel { CutWindow(rows, sel, change, out, x.kids, base + 1, d + 1); }
      CutFirst(rows, sel, change, out, x, base, d);
    }
  }

  lemma CutFirst(rows: seq<Row>, sel: set<nat>, change: Change, out: seq<seq<Row>>, x: Xml, base: nat, d: nat)
    requires Window(rows, x, base, d) && x.Cons? && Free(rows, sel, base) && IsChanged(rows, sel, change, out)
    requires var n := base + 1 + Size(x.kids);
             && Cut(x.next, n, d, sel, change) == Gather(out, n, base + Size(x))
             && (base !in sel ==> Cut(x.kids, base + 1, d + 1, sel, change) == Gather(out, base + 1, n))
    ensures Cut(x, base, d, sel, change) == Gather(out, base, base + Size(x))
  {
    ChangedFirst(rows, sel, change, out, x, base, d);
    if base in sel { CutThere(out, x, base, d, sel, change); } else { CutBelow(out, x, base, d, sel, change); }
  }

  // The first node is selected,
  lemma CutThere(out: seq<seq<Row>>, x: Xml, base: nat, d: nat, sel: set<nat>, change: Change)
    requires x.Cons? && base + Size(x) <= |out| && base in sel && out[base] == Instead(change, Row(d, x.tag))
    requires var n := base + 1 + Size(x.kids);
             Gather(out, base + 1, n) == [] && Gather(out, n, base + Size(x)) == Cut(x.next, n, d, sel, change)
    ensures Gather(out, base, base + Size(x)) == Cut(x, base, d, sel, change)
  {
    var n := base + 1 + Size(x.kids);
    GatherThree(out, base, n, base + Size(x), Instead(change, Row(d, x.tag)), [], Cut(x.next, n, d, sel, change));
  }

  // or it is not.
  lemma CutBelow(out: seq<seq<Row>>, x: Xml, base: nat, d: nat, sel: set<nat>, change: Change)
    requires x.Cons? && base + Size(x) <= |out| && base !in sel && out[base] == [Row(d, x.tag)]
    requires var n := base + 1 + Size(x.kids);
             && Gather(out, base + 1, n) == Cut(x.kids, base + 1, d + 1, sel, change)
             && Gather(out, n, base + Size(x)) == Cut(x.next, n, d, sel, change)
    ensures Gather(out, base, base + Size(x)) == Cut(x, base, d, sel, change)
  {
    var n := base + 1 + Size(x.kids);
    GatherThree(out, base, n, base + Size(x), [Row(d, x.tag)], Cut(x.kids, base + 1, d + 1, sel, change),
                Cut(x.next, n, d, sel, change));
  }

  // The rows changed one by one are the rows of the tree changed at once.
  lemma CutRows(t: Xml, sel: set<nat>, change: Change)
    ensures Cut(t, 0, 0, sel, change) == ChangedRows(Listing(t, 0), sel, change)
  {
    var rows := Listing(t, 0);
    ListingFacts(t, 0);
    CutWindow(rows, sel, change, seq(|rows|, (i: nat) requires i < |rows| => ChangedRow(rows, sel, change, i)), t, 0, 0);
  }

  // ----- Add -----

  ghost predicate IsWithChildren(rows: seq<Row>, sel: set<nat>, fragment: Xml, lo: nat, out: seq<seq<Row>>) {
    && |out| == |rows|
    && forall i: nat {:trigger RowWithChildren(rows, sel, fragment, lo, i)} ::
         i < |rows| ==> out[i] == RowWithChildren(rows, sel, fragment, lo, i)
  }

  lemma {:induction false} DownLast(parts: seq<seq<Row>>, lo: nat, s: nat)
    requires lo < s <= |parts|
    ensures Down(parts, lo, s) == Down(parts, lo + 1, s) + parts[lo]
    decreases s
  {
    if lo + 1 < s { DownLast(parts, lo, s - 1); }
  }

  // The outermost row's new children come last.
  lemma ChildrenLast(rows: seq<Row>, sel: set<nat>, fragment: Xml, i: nat, lo: nat, s: nat)
    requires lo < s <= |rows|
    ensures Children(rows, sel, fragment, i, lo, s) ==
            Children(rows, sel, fragment, i, lo + 1, s) + OwnChildren(rows, sel, fragment, lo, i)
  {
    DownLast(seq(|rows|, (r: nat) requires r < |rows| => OwnChildren(rows, sel, fragment, r, i)), lo, s);
  }

  // Rows that do not end at row i have no new children there.
  lemma {:induction false} ChildrenDrop(rows: seq<Row>, sel: set<nat>, fragment: Xml, i: nat, lo: nat, lo': nat, s: nat)
    requires lo <= lo' <= s <= |rows|
    requires forall r: nat {:trigger EndsAt(rows, r, i)} :: lo <= r < lo' ==> r !in sel || !EndsAt(rows, r, i)
    ensures Children(rows, sel, fragment, i, lo, s) == Children(rows, sel, fragment, i, lo', s)
    decreases lo' - lo
  {
    if lo < lo' {
      ChildrenLast(rows, sel, fragment, i, lo, s);
      ChildrenDrop(rows, sel, fragment, i, lo + 1, lo', s);
    }
  }

  // The first row of a window ends at its last descendant, and rows before its siblings do not end among them.
  lemma FirstEnds(rows: seq<Row>, x: Xml, base: nat, d: nat)
    requires Window(rows, x, base, d) && x.Cons?
    ensures forall i: nat :: i < |rows| ==> (EndsAt(rows, base, i) <==> i == base + Size(x.kids))
    ensures forall r: nat, i: nat :: base <= r < base + 1 + Size(x.kids) <= i ==> !EndsAt(rows, r, i)
  {
    FirstBelow(rows, x, base, d);
    WindowParts(rows, x, base, d);
    var n := base + 1 + Size(x.kids);
    forall i: nat | i < |rows| ensures EndsAt(rows, base, i) <==> i == n - 1 {
      if base <= i < n - 1 { assert rows[i + 1].depth > d; }
      if n <= i { assert !Below(rows, base, i); }
    }
    forall r: nat, i: nat | base <= r < n <= i ensures !EndsAt(rows, r, i) { assert !Below(rows, r, i); }
  }

  lemma ChildrenRows(rows: seq<Row>, sel: set<nat>, fragment: Xml, lo: nat) returns (out: seq<seq<Row>>)
    ensures IsWithChildren(rows, sel, fragment, lo, out)
  {
    out := seq(|rows|, (i: nat) requires i < |rows| => RowWithChildren(rows, sel, fragment, lo, i));
  }

  // It is the same to count from base on and from lo on, when none between ends at row i.
  lemma SameChildren(rows: seq<Row>, sel: set<nat>, fragment: Xml, base: nat, lo: nat, i: nat)
    requires base <= lo <= i < |rows| && forall r: nat :: base <= r < lo ==> r !in sel || !EndsAt(rows, r, i)
    ensures RowWithChildren(rows, sel, fragment, base, i) == RowWithChildren(rows, sel, fragment, lo, i)
  {
    ChildrenDrop(rows, sel, fragment, i, base, lo, i + 1);
  }

  // The siblings after the first node of a window.
  lemma ChildrenAfter(rows: seq<Row>, sel: set<nat>, fragment: Xml, out: seq<seq<Row>>, outNext: seq<seq<Row>>,
                      x: Xml, base: nat, d: nat)
    requires Window(rows, x, base, d) && x.Cons?
    requires IsWithChildren(rows, sel, fragment, base, out)
    requires IsWithChildren(rows, sel, fragment, base + 1 + Size(x.kids), outNext)
    ensures var n := base + 1 + Size(x.kids); Gather(out, n, base + Size(x)) == Gather(outNext, n, base + Size(x))
  {
    var n := base + 1 + Size(x.kids);
    forall i: nat | n <= i < base + Size(x) ensures out[i] == outNext[i] {
      FirstEnds(rows, x, base, d);
      SameChildren(rows, sel, fragment, base, n, i);
      assert out[i] == RowWithChildren(rows, sel, fragment, base, i);
      assert outNext[i] == RowWithChildren(rows, sel, fragment, n, i);
    }
    GatherSame(out, outNext, n, base + Size(x));
  }

  // It has its own new children behind those of the rows below it.
  lemma RowAndChildren(rows: seq<Row>, sel: set<nat>, fragment: Xml, base: nat, i: nat)
    requires base <= i < |rows|
    ensures RowWithChildren(rows, sel, fragment, base, i) ==
            (if i == base then [rows[i]] else RowWithChildren(rows, sel, fragment, base + 1, i)) +
            OwnChildren(rows, sel, fragment, base, i)
  {
    var own, below := OwnChildren(rows, sel, fragment, base, i), Children(rows, sel, fragment, i, base + 1, i + 1);
    ChildrenLast(rows, sel, fragment, i, base, i + 1);
    Regroup([rows[i]], below, own);
    if i == base { NoChildren(rows, sel, fragment, i); }
  }

  lemma NoChildren(rows: seq<Row>, sel: set<nat>, fragment: Xml, i: nat)
    requires i < |rows|
    ensures Children(rows, sel, fragment, i, i + 1, i + 1) == []
  {
  }

  lemma Regroup<T>(a: seq<T>, b: seq<T>, c: seq<T>)
    ensures a + (b + c) == a + b + c
    ensures b == [] ==> a + b == a && b + c == c
  {
  }

  // The first row of a window: its tag, and where it ends.
  ghost predicate Heads(rows: seq<Row>, x: Xml, base: nat, d: nat) {
    && x.Cons? && base + 1 + Size(x.kids) <= |rows| && rows[base] == Row(d, x.tag)
    && forall i: nat {:trigger EndsAt(rows, base, i)} :: i < |rows| ==> (EndsAt(rows, base, i) <==> i == base + Size(x.kids))
  }

  lemma WindowHeads(rows: seq<Row>, x: Xml, base: nat, d: nat)
    requires Window(rows, x, base, d) && x.Cons?
    ensures Heads(rows, x, base, d)
  {
    FirstEnds(rows, x, base, d);
    WindowParts(rows, x, base, d);
  }

  // What it adds at row i.
  lemma HeadChildren(rows: seq<Row>, sel: set<nat>, fragment: Xml, x: Xml, base: nat, d: nat, i: nat)
    requires Heads(rows, x, base, d) && base <= i < base + 1 + Size(x.kids)
    ensures RowWithChildren(rows, sel, fragment, base, i) ==
            (if i == base then [Row(d, x.tag)] else RowWithChildren(rows, sel, fragment, base + 1, i)) +
            if base in sel && i == base + Size(x.kids) then Listing(fragment, d + 1) else []
  {
    RowAndChildren(rows, sel, fragment, base, i);
  }

  lemma {:induction false} GatherLast(out: seq<seq<Row>>, lo: nat, hi: nat)
    requires lo < hi <= |out|
    ensures Gather(out, lo, hi) == Gather(out, lo, hi - 1) + out[hi - 1]
    decreases hi - lo
  {
    if lo + 1 < hi { GatherLast(out, lo + 1, hi); }
  }

  // The first node of a window, its descendants, and its new children behind them.
  lemma ChildrenFirst(rows: seq<Row>, sel: set<nat>, fragment: Xml, out: seq<seq<Row>>, outKids: seq<seq<Row>>,
                      x: Xml, base: nat, d: nat)
    requires Heads(rows, x, base, d)
    requires IsWithChildren(rows, sel, fragment, base, out) && IsWithChildren(rows, sel, fragment, base + 1, outKids)
    ensures var n := base + 1 + Size(x.kids);
            Gather(out, base, n) ==
            [Row(d, x.tag)] + Gather(outKids, base + 1, n) + if base in sel then Listing(fragment, d + 1) else []
  {
    var n, tail := base + 1 + Size(x.kids), if base in sel then Listing(fragment, d + 1) else [];
    forall i: nat | base <= i < n
      ensures out[i] == (if i == base then [Row(d, x.tag)] else outKids[i]) + if i == n - 1 then tail else []
    {
      FirstOut(rows, sel, fragment, out, outKids, x, base, d, i);
    }
    GatherFirst(out, outKids, base, n, Row(d, x.tag), tail);
  }

  lemma FirstOut(rows: seq<Row>, sel: set<nat>, fragment: Xml, out: seq<seq<Row>>, outKids: seq<seq<Row>>,
                 x: Xml, base: nat, d: nat, i: nat)
    requires Heads(rows, x, base, d) && base <= i < base + 1 + Size(x.kids)
    requires IsWithChildren(rows, sel, fragment, base, out) && IsWithChildren(rows, sel, fragment, base + 1, outKids)
    ensures out[i] == (if i == base then [Row(d, x.tag)] else outKids[i]) +
                      if base in sel && i == base + Size(x.kids) then Listing(fragment, d + 1) else []
  {
    HeadChildren(rows, sel, fragment, x, base, d, i);
    assert out[i] == RowWithChildren(rows, sel, fragment, base, i);
    assert outKids[i] == RowWithChildren(rows, sel, fragment, base + 1, i);
  }

  lemma GatherFirst(out: seq<seq<Row>>, outKids: seq<seq<Row>>, base: nat, n: nat, row: Row, tail: seq<Row>)
    requires base < n <= |out| == |outKids|
    requires forall i: nat :: base <= i < n ==>
               out[i] == (if i == base then [row] else outKids[i]) + if i == n - 1 then tail else []
    ensures Gather(out, base, n) == [row] + Gather(outKids, base + 1, n) + tail
  {
    if base + 1 == n {
      assert Gather(out, base, n) == out[base] + [] && Gather(outKids, base + 1, n) == [];
      Regroup([row] + tail, [], []);
      Regroup([row], [], tail);
    } else {
      var kids := Gather(outKids, base + 1, n - 1);
      GatherLast(outKids, base + 1, n);
      assert Gather(outKids, base + 1, n) == kids + outKids[n - 1];
      assert out[base] == [row] by { Regroup([row], [], []); }
      assert Gather(out, base + 1, n) == kids + (outKids[n - 1] + tail) by {
        GatherLast(out, base + 1, n);
        SameButTail(out, outKids, base, n, row, tail);
      }
      Regroup(kids, outKids[n - 1], tail);
      Regroup([row], kids + outKids[n - 1], tail);
    }
  }

  lemma SameButTail(out: seq<seq<Row>>, outKids: seq<seq<Row>>, base: nat, n: nat, row: Row, tail: seq<Row>)
    requires base + 1 < n <= |out| == |outKids|
    requires forall i: nat :: base <= i < n ==>
               out[i] == (if i == base then [row] else outKids[i]) + if i == n - 1 then tail else []
    ensures Gather(out, base + 1, n - 1) == Gather(outKids, base + 1, n - 1) && out[n - 1] == outKids[n - 1] + tail
  {
    forall i: nat | base + 1 <= i < n - 1 ensures out[i] == outKids[i] {
      assert out[i] == outKids[i] + [];
    }
    GatherSame(out, outKids, base + 1, n - 1);
  }

  // The addition made on the tree at once, the rows of its nodes numbered from base on.
  function Grow(x: Xml, base: nat, d: nat, sel: set<nat>, fragment: Xml): seq<Row> {
    match x
    case Nil => []
    case Cons(tag, kids, next) =>
      [Row(d, tag)] + Grow(kids, base + 1, d + 1, sel, fragment) + (if base in sel then Listing(fragment, d + 1) else [])
      + Grow(next, base + 1 + Size(kids), d, sel, fragment)
  }

  lemma {:induction false} GrowWindow(rows: seq<Row>, sel: set<nat>, fragment: Xml, x: Xml, base: nat, d: nat)
    returns (out: seq<seq<Row>>)
    requires Window(rows, x, base, d)
    ensures IsWithChildren(rows, sel, fragment, base, out)
    ensures Grow(x, base, d, sel, fragment) == Gather(out, base, base + Size(x))
    decreases x
  {
    out := ChildrenRows(rows, sel, fragment, base);
    if x.Cons? {
      InnerWindows(rows, x, base, d);
      var outKids := GrowWindow(rows, sel, fragment, x.kids, base + 1, d + 1);
      var outNext := GrowWindow(rows, sel, fragment, x.next, base + 1 + Size(x.kids), d);
      GrowFirst(rows, sel, fragment, out, outKids, outNext, x, base, d);
    }
  }

  lemma InnerWindows(rows: seq<Row>, x: Xml, base: nat, d: nat)
    requires Window(rows, x, base, d) && x.Cons?
    ensures Window(rows, x.kids, base + 1, d + 1) && Window(rows, x.next, base + 1 + Size(x.kids), d)
  {
    WindowParts(rows, x, base, d);
  }

  lemma GrowFirst(rows: seq<Row>, sel: set<nat>, fragment: Xml, out: seq<seq<Row>>, outKids: seq<seq<Row>>,
                  outNext: seq<seq<Row>>, x: Xml, base: nat, d: nat)
    requires Window(rows, x, base, d) && x.Cons?
    requires IsWithChildren(rows, sel, fragment, base, out) && IsWithChildren(rows, sel, fragment, base + 1, outKids)
    requires IsWithChildren(rows, sel, fragment, base + 1 + Size(x.kids), outNext)
    requires var n := base + 1 + Size(x.kids);
             && Grow(x.kids, base + 1, d + 1, sel, fragment) == Gather(outKids, base + 1, n)
             && Grow(x.next, n, d, sel, fragment) == Gather(outNext, n, base + Size(x))
    ensures Grow(x, base, d, sel, fragment) == Gather(out, base, base + Size(x))
  {
    WindowHeads(rows, x, base, d);
    ChildrenFirst(rows, sel, fragment, out, outKids, x, base, d);
    ChildrenAfter(rows, sel, fragment, out, outNext, x, base, d);
    GrowJoin(out, x, base, d, sel, fragment);
  }

  lemma GrowJoin(out: seq<seq<Row>>, x: Xml, base: nat, d: nat, sel: set<nat>, fragment: Xml)
    requires x.Cons? && base + Size(x) <= |out|
    requires var n := base + 1 + Size(x.kids);
             && Gather(out, base, n) == [Row(d, x.tag)] + Grow(x.kids, base + 1, d + 1, sel, fragment) +
                                        (if base in sel then Listing(fragment, d + 1) else [])
             && Gather(out, n, base + Size(x)) == Grow(x.next, n, d, sel, fragment)
    ensures Gather(out, base, base + Size(x)) == Grow(x, base, d, sel, fragment)
  {
    GatherSplit(out, base, base + 1 + Size(x.kids), base + Size(x));
  }

  // The rows with the new ones behind them are the rows of the tree with the new children.
  lemma GrowRows(t: Xml, sel: set<nat>, fragment: Xml)
    ensures Grow(t, 0, 0, sel, fragment) == RowsWithChildren(Listing(t, 0), sel, fragment)
  {
    var rows := Listing(t, 0);
    ListingFacts(t, 0);
    var out := GrowWindow(rows, sel, fragment, t, 0, 0);
    var all := seq(|rows|, (i: nat) requires i < |rows| => RowWithChildren(rows, sel, fragment, 0, i));
    forall i: nat | i < |rows| ensures out[i] == all[i] { assert out[i] == RowWithChildren(rows, sel, fragment, 0, i); }
    assert out == all;
  }
}
