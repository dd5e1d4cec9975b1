// The text a query answers with, written into a buffer that grows as needed.
module Reply {
  const OPENING := "<xml><ok>"
  const CLOSING := "</ok></xml>"
  const UNDEFINED_REPLY := "<xml><error>XPATH STRING: undefined</error></xml>"
  const FIRST_BUFFER := 100
  const LOG_SIZE := 100

  // A selected node as it is printed: an element's text form, a text node's content, or nothing.
  datatype Item = Element(dump: string) | Text(content: string) | Other

  datatype XPathResult = Failed(log: string) | Atomic(text: string) | Items(items: seq<Item>) | Undefined

  // C strings hold no NUL; the error log is a small array.
  predicate Printable(s: string) {
    '\0' !in s
  }

  predicate PrintableItem(item: Item) {
    match item
    case Element(dump) => Printable(dump)
    case Text(content) => Printable(content)
    case Other => true
  }

  predicate PrintableResult(r: XPathResult) {
    match r
    case Failed(log) => Printable(log) && |log| < LOG_SIZE
    case Atomic(text) => Printable(text)
    case Items(items) => forall i :: 0 <= i < |items| ==> PrintableItem(items[i])
    case Undefined => true
  }

  // What node number i adds to the reply.
  function Piece(item: Item, i: nat): string {
    match item
    case Element(dump) => dump
    case Text(content) => if content == "" then "" else if i == 0 then content else "; " + content
    case Other => ""
  }

  // The first n items, one after another, behind the opening.
  function Printed(opening: string, items: seq<Item>, n: nat): string
    requires n <= |items|
  {
    if n == 0 then opening else Printed(opening, items, n - 1) + Piece(items[n - 1], n - 1)
  }

  function ReplyText(r: XPathResult): string {
    match r
    case Failed(log) => "<xml><error>" + log + "</error></xml>"
    case Atomic(text) => OPENING + text + CLOSING
    case Items(items) => Printed(OPENING, items, |items|) + CLOSING
    case Undefined => UNDEFINED_REPLY
  }

  // ----- Text nodes are listed with a separator -----

  predicate AllTexts(items: seq<Item>) {
    forall i :: 0 <= i < |items| ==> items[i].Text?
  }

  function NonEmpty(items: seq<Item>, n: nat): seq<string>
    requires n <= |items| && AllTexts(items)
  {
    if n == 0 then []
    else NonEmpty(items, n - 1) + if items[n - 1].content == "" then [] else [items[n - 1].content]
  }

  // The texts behind the opening, "; " before each, the first one perhaps not.
  function Joined(opening: string, texts: seq<string>, bare: bool): string {
    if texts == [] then opening
    else
      var n := |texts| - 1;
      Joined(opening, texts[..n], bare) + if n == 0 && bare then texts[n] else "; " + texts[n]
  }

  lemma JoinedMore(opening: string, texts: seq<string>, bare: bool, last: string)
    ensures Joined(opening, texts + [last], bare) ==
            Joined(opening, texts, bare) + if texts == [] && bare then last else "; " + last
  {
    assert (texts + [last])[..|texts|] == texts;
  }

  lemma {:induction false} FirstListed(items: seq<Item>, n: nat)
    requires 0 < n <= |items| && AllTexts(items) && items[0].content != ""
    ensures NonEmpty(items, n) != []
  {
    if n > 1 { FirstListed(items, n - 1); }
  }

  // A list of text nodes reads as its non-empty texts with "; " between them; if the first
  // text is empty, there is a separator in front too.
  lemma {:induction false} TextsJoined(opening: string, items: seq<Item>, n: nat)
    requires n <= |items| && AllTexts(items)
    ensures Printed(opening, items, n) == Joined(opening, NonEmpty(items, n), n > 0 && items[0].content != "")
  {
    if n > 0 {
      TextsJoined(opening, items, n - 1);
      if items[n - 1].content != "" {
        if n > 1 && items[0].content != "" { FirstListed(items, n - 1); }
        JoinedMore(opening, NonEmpty(items, n - 1), items[0].content != "", items[n - 1].content);
        if n > 1 && NonEmpty(items, n - 1) == [] { assert Joined(opening, [], true) == Joined(opening, [], false); }
      } else {
        assert Printed(opening, items, n - 1) + "" == Printed(opening, items, n - 1);
        assert NonEmpty(items, n - 1) + [] == NonEmpty(items, n - 1);
        if n == 1 { assert NonEmpty(items, 0) == []; }
      }
    }
  }

  // ----- Any list: every item's own text, in order, and separators only between them -----

  function OwnText(item: Item): string {
    match item
    case Element(dump) => dump
    case Text(content) => content
    case Other => ""
  }

  // A separator stands before each non-empty text node that is not the first item.
  function Separators(items: seq<Item>): (r: seq<string>)
    ensures |r| == |items|
  {
    seq(|items|, (i: nat) requires i < |items| => if 0 < i && items[i].Text? && items[i].content != "" then "; " else "")
  }

  // The items' texts from the first on, each behind its separator.
  function Woven(separators: seq<string>, items: seq<Item>): string
    requires |separators| == |items|
  {
    if items == [] then "" else separators[0] + OwnText(items[0]) + Woven(separators[1..], items[1..])
  }

  lemma {:induction false} WovenMore(separators: seq<string>, items: seq<Item>, separator: string, item: Item)
    requires |separators| == |items|
    ensures Woven(separators + [separator], items + [item]) == Woven(separators, items) + separator + OwnText(item)
  {
    if items != [] {
      WovenMore(separators[1..], items[1..], separator, item);
      assert (items + [item])[1..] == items[1..] + [item];
      assert (separators + [separator])[1..] == separators[1..] + [separator];
    } else {
      assert ([separator])[1..] == [] && ([item])[1..] == [];
    }
  }

  lemma WovenSlice(separators: seq<string>, items: seq<Item>, k: nat)
    requires k < |separators| == |items|
    ensures Woven(separators[..k + 1], items[..k + 1]) ==
            Woven(separators[..k], items[..k]) + separators[k] + OwnText(items[k])
  {
    WovenMore(separators[..k], items[..k], separators[k], items[k]);
    assert separators[..k + 1] == separators[..k] + [separators[k]];
    assert items[..k + 1] == items[..k] + [items[k]];
  }

  lemma PieceWoven(items: seq<Item>, k: nat)
    requires k < |items|
    ensures Piece(items[k], k) == Separators(items)[k] + OwnText(items[k])
  {
  }

  lemma {:induction false} ItemsWoven(opening: string, items: seq<Item>, n: nat)
    requires n <= |items|
    ensures Printed(opening, items, n) == opening + Woven(Separators(items)[..n], items[..n])
  {
    if n == 0 {
      assert Woven(Separators(items)[..0], items[..0]) == "";
    } else {
      var k := n - 1;
      ItemsWoven(opening, items, k);
      WovenSlice(Separators(items), items, k);
      PieceWoven(items, k);
      Joins(opening, Woven(Separators(items)[..k], items[..k]), Separators(items)[k], OwnText(items[k]));
    }
  }

  lemma Joins(a: string, b: string, c: string, d: string)
    ensures a + b + (c + d) == a + (b + c + d)
  {
  }

  // A list of anything reads as its items' texts.
  lemma ListWoven(items: seq<Item>)
    ensures ReplyText(Items(items)) == "<xml><ok>" + Woven(Separators(items), items) + "</ok></xml>"
    ensures Printed(OPENING, items, |items|) == OPENING + Woven(Separators(items), items)
  {
    ItemsWoven(OPENING, items, |items|);
    assert Separators(items)[..|items|] == Separators(items) && items[..|items|] == items;
  }

  function Dumps(items: seq<Item>): string
    requires forall i :: 0 <= i < |items| ==> items[i].Element?
  {
    if items == [] then "" else items[0].dump + Dumps(items[1..])
  }

  lemma {:induction false} WovenElements(separators: seq<string>, items: seq<Item>)
    requires |separators| == |items|
    requires forall i :: 0 <= i < |items| ==> items[i].Element? && separators[i] == ""
    ensures Woven(separators, items) == Dumps(items)
  {
    if items != [] { WovenElements(separators[1..], items[1..]); }
  }

  // A list of elements reads as their text forms, nothing between them.
  lemma ElementsListed(items: seq<Item>)
    requires forall i :: 0 <= i < |items| ==> items[i].Element?
    ensures ReplyText(Items(items)) == "<xml><ok>" + Dumps(items) + "</ok></xml>"
  {
    ListWoven(items);
    ElementsWoven(items);
  }

  lemma ElementsWoven(items: seq<Item>)
    requires forall i :: 0 <= i < |items| ==> items[i].Element?
    ensures Woven(Separators(items), items) == Dumps(items)
  {
    WovenElements(Separators(items), items);
  }

  // ----- The buffer -----

  // The buffer holds the C string s.
  predicate Holds(buffer: array<char>, s: string)
    reads buffer
  {
    |s| < buffer.Length && buffer[..|s|] == s && buffer[|s|] == '\0'
  }

  // sprintf at an offset.
  method Print(buffer: array<char>, offset: nat, text: string)
    requires offset + |text| < buffer.Length
    modifies buffer
    ensures Holds(buffer, old(buffer[..offset]) + text)
  {
    forall i | offset <= i < offset + |text| {
      buffer[i] := text[i - offset];
    }
    buffer[offset + |text|] := '\0';
    assert buffer[..offset] == old(buffer[..offset]);
    assert buffer[..offset + |text|] == buffer[..offset] + text;
  }

  // strcat.
  method Append(buffer: array<char>, ghost s: string, text: string)
    requires Holds(buffer, s) && Printable(s) && |s| + |text| < buffer.Length
    modifies buffer
    ensures Holds(buffer, s + text)
  {
    var n := 0;
    assert forall i :: 0 <= i < |s| ==> buffer[i] == s[i];
    while buffer[n] != '\0'
      invariant n <= |s|
      decreases |s| - n
    {
      n := n + 1;
    }
    Print(buffer, n, text);
  }

  // realloc to the size needed, when the buffer is smaller.
  method Fit(buffer: array<char>, ghost s: string, needed: nat) returns (result: array<char>)
    requires Holds(buffer, s)
    ensures result == buffer || fresh(result)
    ensures Holds(result, s) && result.Length == if buffer.Length < needed then needed else buffer.Length
  {
    result := buffer;
    if buffer.Length < needed {
      result := new char[needed];
      forall i | 0 <= i < buffer.Length {
        result[i] := buffer[i];
      }
      assert result[..|s|] == buffer[..|s|];
    }
  }

  // There is room for a closing tag of offset + 2 bytes and a NUL after the first used bytes.
  predicate Roomy(buffer: array<char>, initialOffset: nat, used: nat) {
    buffer.Length >= used + (initialOffset + 2) + 1
  }

  // One turn of the printing loop.
  method PrintItem(buffer: array<char>, item: Item, i: nat, offset: nat, initialOffset: nat, ghost sofar: string)
    returns (n: nat, result: array<char>)
    requires Holds(buffer, sofar) && |sofar| == offset && Roomy(buffer, initialOffset, offset)
    modifies buffer
    ensures result == buffer || fresh(result)
    ensures n == |Piece(item, i)|
    ensures Holds(result, sofar + Piece(item, i)) && Roomy(result, initialOffset, offset + n)
  {
    var lastOffset := initialOffset + 2;
    match item
    case Element(dump) =>
      result := Fit(buffer, sofar, offset + |dump| + lastOffset + 1);
      Print(result, offset, dump);
      n := |dump|;
    case Text(content) =>
      if content == "" {
        assert sofar + "" == sofar;
        return 0, buffer;
      }
      result := Fit(buffer, sofar, offset + |content| + lastOffset + 1 + 2);
      var piece := if i == 0 then content else "; " + content;
      Print(result, offset, piece);
      n := |piece|;
    case Other =>
      assert sofar + "" == sofar;
      return 0, buffer;
  }

  method PrintElementSet(buffer: array<char>, items: seq<Item>, initialOffset: nat, ghost opening: string)
    returns (n: nat, result: array<char>)
    requires Holds(buffer, opening) && |opening| == initialOffset && Roomy(buffer, initialOffset, initialOffset)
    modifies buffer
    ensures result == buffer || fresh(result)
    ensures initialOffset + n == |Printed(opening, items, |items|)|
    ensures Holds(result, Printed(opening, items, |items|)) && Roomy(result, initialOffset, initialOffset + n)
    ensures Holds(result, opening + Woven(Separators(items), items))
  {
    var offset := initialOffset;
    result := buffer;
    for i := 0 to |items|
      invariant result == buffer || fresh(result)
      invariant initialOffset <= offset == |Printed(opening, items, i)|
      invariant Holds(result, Printed(opening, items, i)) && Roomy(result, initialOffset, offset)
    {
      var k;
      k, result := PrintItem(result, items[i], i, offset, initialOffset, Printed(opening, items, i));
      offset := offset + k;
    }
    n := offset - initialOffset;
    ItemsWoven(opening, items, |items|);
    assert Separators(items)[..|items|] == Separators(items) && items[..|items|] == items;
  }

  method PrintAtomic(buffer: array<char>, text: string, initialOffset: nat, ghost opening: string)
    returns (n: nat, result: array<char>)
    requires Holds(buffer, opening) && |opening| == initialOffset && Roomy(buffer, initialOffset, initialOffset)
    modifies buffer
    ensures result == buffer || fresh(result)
    ensures n == |text| && Holds(result, opening + text) && Roomy(result, initialOffset, initialOffset + n)
  {
    if text == "" {
      assert opening + text == opening;
      return 0, buffer;
    }
    result := Fit(buffer, opening, initialOffset + |text| + (initialOffset + 2) + 1);
    Print(result, initialOffset, text);
    n := |text|;
  }

  // The printed parts of a printable result hold no NUL.
  lemma {:induction false} PrintedPrintable(items: seq<Item>, n: nat)
    requires n <= |items| && forall i :: 0 <= i < |items| ==> PrintableItem(items[i])
    ensures Printable(Printed(OPENING, items, n))
  {
    if n > 0 { PrintedPrintable(items, n - 1); }
  }

  // The closing tag, for which there is always room.
  method Close(buffer: array<char>, ghost s: string, used: nat) returns (reply: string)
    requires Holds(buffer, s) && Printable(s) && |s| == used && used + |CLOSING| < buffer.Length
    modifies buffer
    ensures reply == s + CLOSING
  {
    Append(buffer, s, CLOSING);
    reply := buffer[..used + |CLOSING|];
  }

  // Anything but a result is an error; its text is in the buffer.
  method Refuse(buffer: array<char>, ghost s: string, used: nat) returns (reply: string)
    requires Holds(buffer, s) && |s| == used
    ensures reply == "<xml><error>" + s + "</error></xml>"
  {
    reply := "<xml><error>" + buffer[..used] + "</error></xml>";
  }

  method NewBuffer(text: string) returns (buffer: array<char>)
    requires |text| < FIRST_BUFFER
    ensures fresh(buffer) && buffer.Length == FIRST_BUFFER && Holds(buffer, text)
  {
    buffer := new char[FIRST_BUFFER];
    Print(buffer, 0, text);
    assert buffer[..0] + text == text;
  }

  // The reply to apply_xpath: a buffer of 100 bytes to begin with, the opening tag, the
  // result and the closing tag.
  method ApplyXPath(r: XPathResult) returns (reply: string)
    requires PrintableResult(r)
    ensures reply == ReplyText(r)
    ensures r.Failed? ==> reply == "<xml><error>" + r.log + "</error></xml>"
    ensures r.Undefined? ==> reply == "<xml><error>XPATH STRING: undefined</error></xml>"
    ensures r.Atomic? ==> reply == "<xml><ok>" + r.text + "</ok></xml>"
    ensures r.Items? ==> reply == "<xml><ok>" + Woven(Separators(r.items), r.items) + "</ok></xml>"
  {
    match r
    case Failed(log) =>
      var printBuff := NewBuffer(log);
      reply := Refuse(printBuff, log, |log|);
    case Undefined =>
      reply := UNDEFINED_REPLY;
    case Atomic(text) =>
      var printBuff := NewBuffer(OPENING);
      var n, printed := PrintAtomic(printBuff, text, |OPENING|, OPENING);
      reply := Close(printed, OPENING + text, |OPENING| + n);
    case Items(items) =>
      var printBuff := NewBuffer(OPENING);
      var n, printed := PrintElementSet(printBuff, items, |OPENING|, OPENING);
      PrintedPrintable(items, |items|);
      ListWoven(items);
      reply := Close(printed, Printed(OPENING, items, |items|), |OPENING| + n);
  }
}
