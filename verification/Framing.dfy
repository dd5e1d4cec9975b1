// Messages on the wire: a length in seven digits and a space, then the payload.
module Framing {
  import opened Base

  const MSG_LEN_FIELD_WIDTH := 7
  const HEADER := MSG_LEN_FIELD_WIDTH + 1
  const MAX_PAYLOAD := 9_999_999

  // ----- The length field -----

  predicate IsDigit(c: char) {
    '0' <= c <= '9'
  }

  function DigitOf(n: nat): char
    requires n < 10
  {
    '0' + n as char
  }

  function DigitValue(c: char): nat
    requires IsDigit(c)
  {
    c as int - '0' as int
  }

  function Digits(n: nat): (s: string)
    ensures s != [] && forall i :: 0 <= i < |s| ==> IsDigit(s[i])
  {
    (if n < 10 then [] else Digits(n / 10)) + [DigitOf(n % 10)]
  }

  function Zeros(k: nat): (s: string)
    ensures |s| == k && forall i :: 0 <= i < k ==> s[i] == '0'
  {
    seq(k, i => '0')
  }

  function Padded(n: nat): (s: string)
    ensures s != [] && forall i :: 0 <= i < |s| ==> IsDigit(s[i])
  {
    var d := Digits(n);
    (if |d| < MSG_LEN_FIELD_WIDTH then Zeros(MSG_LEN_FIELD_WIDTH - |d|) else []) + d
  }

  // What the format "%.7d " writes.
  function Header(n: nat): string {
    Padded(n) + " "
  }

  function Framed(payload: string): string {
    Header(|payload|) + payload
  }

  function Value(digits: string): nat
    requires forall i :: 0 <= i < |digits| ==> IsDigit(digits[i])
  {
    if digits == [] then 0
    else 10 * Value(digits[..|digits| - 1]) + DigitValue(digits[|digits| - 1])
  }

  function DigitRun(s: string): (d: string)
    ensures d <= s && forall i :: 0 <= i < |d| ==> IsDigit(d[i])
  {
    if s == [] || !IsDigit(s[0]) then [] else [s[0]] + DigitRun(s[1..])
  }

  predicate IsSpace(c: char) {
    c == ' ' || '\t' <= c <= '\r'
  }

  function SkipSpaces(s: string): string {
    if s == [] || !IsSpace(s[0]) then s else SkipSpaces(s[1..])
  }

  // What scanning with "%d" reads.
  function Scan(s: string): Option<int> {
    var t := SkipSpaces(s);
    var signed := t != [] && (t[0] == '-' || t[0] == '+');
    var d := DigitRun(if signed then t[1..] else t);
    if d == [] then None else Some(if signed && t[0] == '-' then -1 * Value(d) else Value(d))
  }

  lemma {:induction false} DigitRunStops(d: string, rest: string)
    requires forall i :: 0 <= i < |d| ==> IsDigit(d[i])
    requires rest != [] && !IsDigit(rest[0])
    ensures DigitRun(d + rest) == d
  {
    if d == [] {
      assert d + rest == rest;
    } else {
      assert (d + rest)[1..] == d[1..] + rest;
      DigitRunStops(d[1..], rest);
    }
  }

  lemma {:induction false} ValueOfDigits(n: nat)
    ensures Value(Digits(n)) == n
  {
    if n >= 10 {
      ValueOfDigits(n / 10);
      assert Digits(n)[..|Digits(n)| - 1] == Digits(n / 10);
    }
  }

  lemma {:induction false} ValueOfPadding(k: nat, d: string)
    requires forall i :: 0 <= i < |d| ==> IsDigit(d[i])
    ensures Value(Zeros(k) + d) == Value(d)
    decreases |d|, k
  {
    var s := Zeros(k) + d;
    if d != [] {
      assert s[..|s| - 1] == Zeros(k) + d[..|d| - 1];
      ValueOfPadding(k, d[..|d| - 1]);
    } else if k > 0 {
      assert s[..|s| - 1] == Zeros(k - 1) + [];
      ValueOfPadding(k - 1, []);
    }
  }

  lemma ScanDigits(d: string, rest: string)
    requires d != [] && forall i :: 0 <= i < |d| ==> IsDigit(d[i])
    requires rest != [] && !IsDigit(rest[0])
    ensures Scan(d + rest) == Some(Value(d))
  {
    var s := d + rest;
    assert IsDigit(s[0]) && SkipSpaces(s) == s by { assert s[0] == d[0]; }
    assert DigitRun(s) == d by { DigitRunStops(d, rest); }
  }

  lemma ValueOfPadded(n: nat)
    ensures Value(Padded(n)) == n
  {
    var d := Digits(n);
    var k := if |d| < MSG_LEN_FIELD_WIDTH then MSG_LEN_FIELD_WIDTH - |d| else 0;
    assert Padded(n) == Zeros(k) + d;
    ValueOfPadding(k, d);
    ValueOfDigits(n);
  }

  // The receiver reads the length back, whatever follows.
  lemma HeaderRoundTrip(n: nat, rest: string)
    ensures Scan(Header(n) + rest) == Some(n)
  {
    assert Header(n) + rest == Padded(n) + (" " + rest);
    ScanDigits(Padded(n), " " + rest);
    ValueOfPadded(n);
  }

  function Pow10(k: nat): (p: nat)
    ensures p > 0
  {
    if k == 0 then 1 else 10 * Pow10(k - 1)
  }

  lemma {:induction false} DigitsWidth(n: nat, k: nat)
    requires k > 0
    ensures |Digits(n)| <= k <==> n < Pow10(k)
  {
    if n >= 10 {
      if k == 1 {
        assert |Digits(n / 10)| > 0;
      } else {
        DigitsWidth(n / 10, k - 1);
      }
    } else {
      assert Pow10(k) >= 10 * Pow10(k - 1);
    }
  }

  // The header has the eight bytes every receiver expects exactly up to the largest payload.
  lemma HeaderWidth(n: nat)
    ensures |Header(n)| == HEADER <==> n <= MAX_PAYLOAD
    ensures |Header(n)| >= HEADER
  {
    DigitsWidth(n, MSG_LEN_FIELD_WIDTH);
    assert Pow10(1) == 10 && Pow10(2) == 100 && Pow10(3) == 1000 && Pow10(4) == 10_000;
    assert Pow10(5) == 100_000 && Pow10(6) == 1_000_000 && Pow10(7) == 10_000_000;
  }

  // Two framed payloads that begin alike are the same.
  lemma FramedOnce(m: string, k: string)
    requires |m| <= MAX_PAYLOAD && |k| <= MAX_PAYLOAD && Framed(m) <= Framed(k)
    ensures m == k
  {
    HeaderWidth(|m|);
    HeaderWidth(|k|);
    HeaderRoundTrip(|m|, m);
    HeaderRoundTrip(|k|, k);
    var f, g := Framed(m), Framed(k);
    assert f[..HEADER] == Header(|m|) && g[..HEADER] == Header(|k|);
    HeaderRoundTrip(|m|, []);
    HeaderRoundTrip(|k|, []);
    assert Header(|m|) + [] == Header(|k|) + [];
    assert f[HEADER..] == m && g[HEADER..] == k;
  }

  // ----- The wire -----

  // Bytes on their way. Sends and receives move any part of what they could.
  class Wire {
    var bytes: string
    var broken: bool

    constructor ()
      ensures bytes == [] && !broken
    {
      bytes, broken := [], false;
    }

    method Send(data: string) returns (n: int)
      requires data != []
      modifies this
      ensures n <= |data|
      ensures n >= 1 ==> bytes == old(bytes) + data[..n] && broken == old(broken)
      ensures n < 1 ==> bytes == old(bytes) && broken
    {
      if broken { return -1; }
      var k: nat :| k <= |data|;
      if k == 0 {
        broken := true;
        return -1;
      }
      bytes := bytes + data[..k];
      n := k;
    }

    // More of what was sent gets here.
    method Arrive(data: string)
      modifies this`bytes
      ensures bytes == old(bytes) + data
    {
      bytes := bytes + data;
    }

    // Nothing comes when nothing is asked for, or when the sender is gone.
    method Recv(buffer: array<char>, at: nat, max: nat) returns (n: nat)
      requires at + max <= buffer.Length
      modifies this`bytes, buffer
      ensures n <= max && n <= |old(bytes)|
      ensures n == 0 <==> max == 0 || old(bytes) == []
      ensures bytes == old(bytes)[n..]
      ensures buffer[..at + n] == old(buffer[..at]) + old(bytes)[..n]
      ensures buffer[at + n..] == old(buffer[at + n..])
    {
      if max == 0 || bytes == [] {
        assert buffer[..at + 0] == buffer[..at] + bytes[..0];
        return 0;
      }
      var k: nat :| 1 <= k <= max && k <= |bytes|;
      n := k;
      forall i | at <= i < at + k {
        buffer[i] := bytes[i - at];
      }
      bytes := bytes[k..];
      assert buffer[..at] == old(buffer[..at]);
      assert buffer[at..at + k] == old(bytes)[..k];
      assert buffer[..at + k] == buffer[..at] + buffer[at..at + k];
    }
  }

  // ----- The two senders -----

  // Offers all of data until at least need bytes of it are gone.
  method SendSome(wire: Wire, data: string, need: nat) returns (ok: bool, sent: nat)
    requires need <= |data|
    modifies wire
    ensures sent <= |data| && wire.bytes == old(wire.bytes) + data[..sent]
    ensures if ok then need <= sent else wire.broken
  {
    sent := 0;
    while sent < need
      invariant sent <= |data| && wire.bytes == old(wire.bytes) + data[..sent]
    {
      var n := wire.Send(data[sent..]);
      if n < 1 { return false, sent; }
      assert data[..sent] + data[sent..][..n] == data[..sent + n];
      sent := sent + n;
    }
    return true, sent;
  }

  // common::SendMessage; its header loop offers the whole header, however long.
  method SendMessage(wire: Wire, message: string) returns (ok: bool)
    modifies wire
    ensures ok ==> exists k :: (HEADER <= k <= |Header(|message|)| &&
                                wire.bytes == old(wire.bytes) + Header(|message|)[..k] + message)
    ensures ok && |message| <= MAX_PAYLOAD ==> wire.bytes == old(wire.bytes) + Framed(message)
    ensures !ok ==> wire.broken
    ensures !ok && |message| <= MAX_PAYLOAD ==> wire.bytes <= old(wire.bytes) + Framed(message)
  {
    var header := Header(|message|);
    HeaderWidth(|message|);
    var sent;
    ok, sent := SendSome(wire, header, HEADER);
    if !ok { return; }
    var k := sent;
    ghost var before := wire.bytes;
    ok, sent := SendSome(wire, message, |message|);
    if ok { assert message[..sent] == message; }
  }

  // srd_sendServer; its header loop offers eight bytes and no more.
  method SendServer(wire: Wire, message: string) returns (ok: bool)
    modifies wire
    ensures ok ==> wire.bytes == old(wire.bytes) + Header(|message|)[..HEADER] + message
    ensures ok && |message| <= MAX_PAYLOAD ==> wire.bytes == old(wire.bytes) + Framed(message)
    ensures !ok ==> wire.broken && wire.bytes <= old(wire.bytes) + Header(|message|)[..HEADER] + message
  {
    HeaderWidth(|message|);
    var header := Header(|message|)[..HEADER];
    var sent;
    ok, sent := SendSome(wire, header, HEADER);
    if !ok { return; }
    ok, sent := SendSome(wire, message, |message|);
    if ok { assert message[..sent] == message; }
  }

  // ----- The two receivers that wait for a whole message -----

  // Bytes in which no length can be found.
  predicate NoLength(bytes: string) {
    |bytes| >= HEADER && !IsDigit(bytes[0]) && !IsSpace(bytes[0]) && bytes[0] != '-' && bytes[0] != '+'
  }

  // At most one message is in flight: the start of the framed m, or bytes without a length.
  predicate InFlight(bytes: string, m: string) {
    1 <= |m| <= MAX_PAYLOAD && (bytes <= Framed(m) || NoLength(bytes))
  }

  lemma ScanInFlight(head: string, bytes: string, rest: string, m: string)
    requires InFlight(bytes, m) && |head| >= HEADER && head <= bytes
    ensures Scan(head + rest) == if bytes <= Framed(m) then Some(|m|) else None
  {
    var s := head + rest;
    assert s[0] == head[0] == bytes[0];
    if bytes <= Framed(m) {
      HeaderWidth(|m|);
      assert head[..HEADER] == Framed(m)[..HEADER] == Header(|m|);
      assert s == Header(|m|) + s[HEADER..];
      HeaderRoundTrip(|m|, s[HEADER..]);
    } else {
      assert SkipSpaces(s) == s && DigitRun(s) == [];
    }
  }

  // The payload and its final NUL are in the buffer.
  predicate Holds(buffer: array<char>, m: string)
    reads buffer
  {
    |m| + HEADER < buffer.Length && buffer[HEADER..HEADER + |m|] == m && buffer[HEADER + |m|] == '\0'
  }

  // sscanf on the buffer, of which the first have bytes have been read.
  method ScanLength(buffer: array<char>, have: nat, ghost bytes: string, ghost m: string) returns (length: Option<int>)
    requires HEADER <= have <= buffer.Length && buffer[..have] <= bytes && InFlight(bytes, m)
    ensures length == if bytes <= Framed(m) then Some(|m|) else None
  {
    ScanInFlight(buffer[..have], bytes, buffer[have..], m);
    assert buffer[..] == buffer[..have] + buffer[have..];
    length := Scan(buffer[..]);
  }

  // realloc of a buffer whose first have bytes matter.
  method Grow(buffer: array<char>, have: nat, size: nat) returns (grown: array<char>)
    requires have <= buffer.Length <= size
    ensures fresh(grown) && grown.Length == size && grown[..have] == buffer[..have]
  {
    grown := new char[size];
    forall i | 0 <= i < buffer.Length {
      grown[i] := buffer[i];
    }
  }

  // The second loop of both receivers: the rest of the message and the final NUL.
  method ReadRest(wire: Wire, buffer: array<char>, buffSize: nat, have: nat, msgSize: nat, ghost m: string) returns (size: int)
    requires HEADER <= have <= buffSize <= buffer.Length && msgSize == |m| <= MAX_PAYLOAD
    requires HEADER + msgSize <= buffSize && HEADER + msgSize < buffer.Length
    requires buffer[..have] + wire.bytes <= Framed(m)
    modifies wire`bytes, buffer
    ensures old(buffer[..have] + wire.bytes) == Framed(m) ==> size == |m| && Holds(buffer, m) && wire.bytes == []
    ensures old(buffer[..have] + wire.bytes) != Framed(m) ==> size == 0
  {
    var numBytesRead := have;
    ghost var all := buffer[..have] + wire.bytes;
    HeaderWidth(|m|);
    while HEADER + msgSize > numBytesRead
      invariant HEADER <= numBytesRead <= buffSize
      invariant buffer[..numBytesRead] + wire.bytes == all
      decreases HEADER + msgSize - numBytesRead
    {
      var n := wire.Recv(buffer, numBytesRead, buffSize - numBytesRead);
      if n < 1 { return 0; }
      numBytesRead := numBytesRead + n;
    }
    assert numBytesRead == HEADER + |m| && wire.bytes == [];
    assert buffer[..numBytesRead] == Framed(m);
    buffer[numBytesRead] := '\0';
    assert buffer[HEADER..HEADER + |m|] == Framed(m)[HEADER..] == m;
    return msgSize;
  }

  // The first loop of both receivers, up to the point where the length is read.
  method ReadHeader(wire: Wire, buffer: array<char>, limit: nat) returns (ok: bool, numBytesRead: nat)
    requires limit <= buffer.Length
    modifies wire`bytes, buffer
    ensures numBytesRead <= limit && buffer[..numBytesRead] + wire.bytes == old(wire.bytes)
    ensures ok <==> limit >= HEADER && |old(wire.bytes)| >= HEADER
    ensures ok <==> numBytesRead >= HEADER
  {
    numBytesRead := 0;
    while numBytesRead < HEADER
      invariant numBytesRead <= limit
      invariant buffer[..numBytesRead] + wire.bytes == old(wire.bytes)
      decreases HEADER - numBytesRead
    {
      var n := wire.Recv(buffer, numBytesRead, limit - numBytesRead);
      if n < 1 { return false, numBytesRead; }
      numBytesRead := numBytesRead + n;
    }
    return true, numBytesRead;
  }

  // The length is read and the buffer made large enough for the message and a NUL.
  method MakeRoom(buffer: array<char>, have: nat, ghost bytes: string, ghost m: string)
    returns (found: bool, msgSize: int, result: array<char>)
    requires HEADER <= have <= buffer.Length && buffer[..have] <= bytes && InFlight(bytes, m)
    ensures result == buffer || fresh(result)
    ensures found <==> bytes <= Framed(m)
    ensures found ==> msgSize == |m| && HEADER + msgSize < result.Length
    ensures have <= result.Length && result[..have] == buffer[..have]
    ensures found ==> result.Length == if HEADER + msgSize + 1 > buffer.Length then HEADER + msgSize + 1 else buffer.Length
  {
    var scanned := ScanLength(buffer, have, bytes, m);
    if scanned.None? { return false, 0, buffer; }
    if HEADER + scanned.value + 1 > buffer.Length {
      result := Grow(buffer, have, HEADER + scanned.value + 1);
    } else {
      result := buffer;
    }
    return true, scanned.value, result;
  }

  // common::ReadSock. It reads the header alone, then the payload, into a larger buffer if need be.
  method ReadSock(wire: Wire, buffer: array<char>, ghost m: string) returns (size: int, result: array<char>)
    requires buffer.Length > HEADER && InFlight(wire.bytes, m)
    modifies wire`bytes, buffer
    ensures result == buffer || fresh(result)
    ensures old(wire.bytes) == Framed(m) ==> size == |m| && Holds(result, m) && wire.bytes == []
    ensures old(wire.bytes) != Framed(m) ==> size == 0
  {
    HeaderWidth(|m|);
    ghost var all := wire.bytes;
    var ok, numBytesRead := ReadHeader(wire, buffer, HEADER);
    if !ok { return 0, buffer; }
    buffer[HEADER] := '\0';
    var msgSize;
    ok, msgSize, result := MakeRoom(buffer, numBytesRead, all, m);
    if !ok { return 0, result; }
    var buffSize := if HEADER + msgSize + 1 > buffer.Length then HEADER + msgSize else buffer.Length;
    size := ReadRest(wire, result, buffSize, numBytesRead, msgSize, m);
  }

  // srd_recvServer. It reads whatever has come, and needs room for the header.
  method RecvServer(wire: Wire, buffer: array<char>, ghost m: string) returns (size: int, result: array<char>)
    requires InFlight(wire.bytes, m)
    modifies wire`bytes, buffer
    ensures result == buffer || fresh(result)
    ensures old(wire.bytes) == Framed(m) && buffer.Length >= HEADER ==> size == |m| && Holds(result, m) && wire.bytes == []
    ensures old(wire.bytes) != Framed(m) || buffer.Length < HEADER ==> size == 0
  {
    HeaderWidth(|m|);
    ghost var all := wire.bytes;
    var ok, numBytesRead := ReadHeader(wire, buffer, buffer.Length);
    if !ok { return 0, buffer; }
    var msgSize;
    ok, msgSize, result := MakeRoom(buffer, numBytesRead, all, m);
    if !ok { return 0, result; }
    size := ReadRest(wire, result, result.Length, numBytesRead, msgSize, m);
  }

  // ----- The server's receiver, which keeps its place between calls -----

  const SERVER_BUFFER := 1024

  // The largest payload whose header, bytes and final NUL fit the first buffer; the growth test leaves the header out.
  const MAX_SERVED := SERVER_BUFFER - HEADER - 1

  datatype Outcome = NeedMore | BadLength | Dropped | Message(text: string)

  class Receiver {
    const wire: Wire
    var recvline: array<char>
    var maxInMsgSize: nat
    var msgSize: int
    var numBytesRead: nat
    // The final NUL was written behind the buffer.
    var overrun: bool

    constructor (wire: Wire)
      ensures this.wire == wire && Idle() && !overrun && fresh(recvline)
    {
      this.wire := wire;
      recvline := new char[SERVER_BUFFER];
      maxInMsgSize, msgSize, numBytesRead, overrun := SERVER_BUFFER, 0, 0, false;
    }

    // Between messages, the buffer as it was at first.
    ghost predicate Idle()
      reads this
    {
      msgSize == 0 && numBytesRead == 0 && maxInMsgSize == recvline.Length == SERVER_BUFFER
    }

    // What has come of the message and what is on the wire.
    ghost function Coming(): string
      reads this, recvline, wire
      requires numBytesRead <= recvline.Length
    {
      recvline[..numBytesRead] + wire.bytes
    }

    // Message m, or the part of it sent so far, is being received.
    ghost predicate Receiving(m: string)
      reads this, recvline, wire
    {
      && numBytesRead <= maxInMsgSize <= recvline.Length
      && InFlight(Coming(), m)
      && (if msgSize == 0 then numBytesRead < HEADER && maxInMsgSize == recvline.Length == SERVER_BUFFER
          else && msgSize == |m| && HEADER <= numBytesRead < HEADER + |m| && Coming() <= Framed(m)
               && (if |m| + 1 > SERVER_BUFFER then maxInMsgSize == |m| else maxInMsgSize == recvline.Length == SERVER_BUFFER))
    }

    // The length, once eight bytes are there; the buffer grows for the payload, not for the header.
    method TakeLength(ghost m: string) returns (found: bool)
      requires HEADER <= numBytesRead <= maxInMsgSize == recvline.Length == SERVER_BUFFER && InFlight(Coming(), m)
      modifies this
      ensures unchanged(`numBytesRead, `overrun) && (recvline == old(recvline) || fresh(recvline))
      ensures found <==> old(Coming()) <= Framed(m)
      ensures !found ==> msgSize == 0 && maxInMsgSize == recvline.Length == SERVER_BUFFER
      ensures found ==> msgSize == |m| && numBytesRead <= maxInMsgSize <= recvline.Length && Coming() == old(Coming())
      ensures found ==> if |m| + 1 > SERVER_BUFFER then maxInMsgSize == |m| else maxInMsgSize == recvline.Length == SERVER_BUFFER
    {
      var scanned := ScanLength(recvline, numBytesRead, Coming(), m);
      if scanned.None? {
        msgSize := 0;
        return false;
      }
      msgSize := scanned.value;
      if msgSize + 1 > maxInMsgSize {
        recvline := Grow(recvline, numBytesRead, msgSize + 1);
        maxInMsgSize := msgSize;
      }
      return true;
    }

    // recv; select has said there is something to read.
    method ReadMore() returns (n: nat)
      requires numBytesRead <= maxInMsgSize <= recvline.Length
      modifies this`numBytesRead, recvline, wire`bytes
      ensures n == 0 <==> old(numBytesRead) == maxInMsgSize || old(wire.bytes) == []
      ensures numBytesRead == old(numBytesRead) + n <= maxInMsgSize
      ensures Coming() == old(Coming()) && |wire.bytes| == |old(wire.bytes)| - n
    {
      n := wire.Recv(recvline, numBytesRead, maxInMsgSize - numBytesRead);
      numBytesRead := numBytesRead + n;
    }

    // The whole message is there: its text is handed on, and the next one begins.
    method HandOn(ghost m: string) returns (r: Outcome)
      requires msgSize == |m| >= 1 && HEADER + |m| <= numBytesRead <= maxInMsgSize == recvline.Length == SERVER_BUFFER
      requires Coming() <= Framed(m) && |m| <= MAX_PAYLOAD
      modifies this`overrun, this`msgSize, this`numBytesRead, recvline
      ensures r == Message(m) && wire.bytes == [] && Idle() && old(Coming()) == Framed(m)
      ensures |m| <= MAX_SERVED + 1 && overrun == (old(overrun) || |m| > MAX_SERVED)
    {
      HeaderWidth(|m|);
      assert recvline[..numBytesRead] == Framed(m);
      assert recvline[HEADER..numBytesRead] == Framed(m)[HEADER..] == m;
      r := Message(recvline[HEADER..numBytesRead]);
      if numBytesRead < recvline.Length {
        recvline[numBytesRead] := '\0';
      } else {
        overrun := true;
      }
      msgSize, numBytesRead := 0, 0;
    }

    // What one call does. It reads at most once, and drops the client only if it has gone
    // or its message does not fit.
    method ProcessMessage(ghost m: string) returns (r: Outcome)
      requires Receiving(m)
      modifies this, recvline, wire`bytes
      ensures recvline == old(recvline) || fresh(recvline)
      ensures r.NeedMore? ==> Receiving(m) && Coming() == old(Coming()) && overrun == old(overrun)
      ensures r.NeedMore? ==> |wire.bytes| < |old(wire.bytes)|
      ensures r.BadLength? ==> Idle() && !(old(Coming()) <= Framed(m)) && overrun == old(overrun)
      ensures r.Dropped? ==> old(wire.bytes) == [] || |m| > MAX_SERVED + 1
      ensures r.Message? ==> r.text == m && old(Coming()) == Framed(m) && wire.bytes == [] && Idle()
      ensures r.Message? ==> |m| <= MAX_SERVED + 1 && overrun == (old(overrun) || |m| > MAX_SERVED)
    {
      var justReadSize := false;
      if msgSize == 0 && numBytesRead < HEADER {
        justReadSize := true;
        var n := ReadMore();
        if n < 1 { return Dropped; }
        if numBytesRead < HEADER { return NeedMore; }
        var found := TakeLength(m);
        if !found {
          numBytesRead := 0;
          return BadLength;
        }
      }
      if HEADER + msgSize > numBytesRead {
        if justReadSize { return NeedMore; }
        var n := ReadMore();
        if n < 1 { return Dropped; }
      }
      if HEADER + msgSize > numBytesRead { return NeedMore; }
      r := HandOn(m);
    }
  }

  // ----- From one end to the other -----

  // More of the message arrives; the receiver has something to read then.
  method Arrival(r: Receiver, pending: string, ghost m: string) returns (rest: string)
    requires r.Receiving(m) && r.Coming() + pending == Framed(m)
    modifies r.wire`bytes
    ensures r.Receiving(m) && r.Coming() + rest == Framed(m) && r.wire.bytes != []
    ensures |rest| + |r.wire.bytes| == |pending| + old(|r.wire.bytes|)
  {
    HeaderWidth(|m|);
    var k: nat :| k <= |pending| && (pending != [] && r.wire.bytes == [] ==> k > 0);
    rest := pending[k..];
    assert pending == pending[..k] + rest;
    r.wire.Arrive(pending[..k]);
    assert r.Coming() == old(r.Coming()) + pending[..k];
  }

  // A client's message reaches the server in pieces of any size, and is read as it comes.
  method Deliver(r: Receiver, sent: string, m: string) returns (out: Outcome)
    requires r.Idle() && r.wire.bytes == [] && 1 <= |m| <= MAX_PAYLOAD && sent == Framed(m)
    modifies r, r.recvline, r.wire`bytes
    ensures r.recvline == old(r.recvline) || fresh(r.recvline)
    ensures if |m| <= MAX_SERVED + 1 then out == Message(m) else out == Dropped
    ensures out.Message? ==> r.Idle() && r.wire.bytes == [] && r.overrun == (old(r.overrun) || |m| > MAX_SERVED)
  {
    var pending := sent;
    out := NeedMore;
    assert r.Coming() == [];
    while out.NeedMore?
      invariant r.recvline == old(r.recvline) || fresh(r.recvline)
      invariant out.NeedMore? ==> r.Receiving(m) && r.Coming() + pending == Framed(m) && r.overrun == old(r.overrun)
      invariant !out.NeedMore? ==> if |m| <= MAX_SERVED + 1 then out == Message(m) else out == Dropped
      invariant out.Message? ==> r.Idle() && r.wire.bytes == [] && r.overrun == (old(r.overrun) || |m| > MAX_SERVED)
      decreases if out.NeedMore? then 1 + |pending| + |r.wire.bytes| else 0
    {
      pending := Arrival(r, pending, m);
      assert r.Coming() <= Framed(m);
      out := r.ProcessMessage(m);
    }
  }

  // A client sends one message after another, each when the last has been served.
  method Session(r: Receiver, messages: seq<string>) returns (served: seq<string>, linked: bool)
    requires r.Idle() && r.wire.bytes == [] && !r.overrun
    requires forall i :: 0 <= i < |messages| ==> 1 <= |messages[i]| <= MAX_PAYLOAD
    modifies r, r.recvline, r.wire`bytes
    ensures served <= messages
    ensures linked ==> (served == messages <==> forall i :: 0 <= i < |messages| ==> |messages[i]| <= MAX_SERVED + 1)
    ensures linked ==> (served == messages && !r.overrun <==> forall i :: 0 <= i < |messages| ==> |messages[i]| <= MAX_SERVED)
  {
    served, linked := [], true;
    for k := 0 to |messages|
      invariant r.recvline == old(r.recvline) || fresh(r.recvline)
      invariant r.Idle() && r.wire.bytes == [] && served == messages[..k]
      invariant forall i :: 0 <= i < k ==> |messages[i]| <= MAX_SERVED + 1
      invariant !r.overrun <==> forall i :: 0 <= i < k ==> |messages[i]| <= MAX_SERVED
    {
      var link := new Wire();
      linked := SendServer(link, messages[k]);
      if !linked { return; }
      var out := Deliver(r, link.bytes, messages[k]);
      if out.Dropped? { return; }
      served := served + [out.text];
    }
  }

  // A reply of the server, sent and received in pieces of any size.
  method Answer(message: string, buffer: array<char>) returns (ok: bool, size: int, result: array<char>)
    requires 1 <= |message| <= MAX_PAYLOAD && buffer.Length >= HEADER
    modifies buffer
    ensures ok ==> size == |message| && Holds(result, message)
  {
    var wire := new Wire();
    ok := SendMessage(wire, message);
    if !ok { return false, 0, buffer; }
    size, result := RecvServer(wire, buffer, message);
  }

  // A message over a back connection.
  method CallBack(message: string, buffer: array<char>) returns (ok: bool, size: int, result: array<char>)
    requires 1 <= |message| <= MAX_PAYLOAD && buffer.Length > HEADER
    modifies buffer
    ensures ok ==> size == |message| && Holds(result, message)
  {
    var wire := new Wire();
    ok := SendMessage(wire, message);
    if !ok { return false, 0, buffer; }
    size, result := ReadSock(wire, buffer, message);
  }

  // The short header of a payload that is too long frames nothing.
  lemma FramedIff(m: string)
    ensures Header(|m|)[..HEADER] + m == Framed(m) <==> |m| <= MAX_PAYLOAD
  {
    HeaderWidth(|m|);
    assert |Header(|m|)[..HEADER] + m| == HEADER + |m|;
  }
}
