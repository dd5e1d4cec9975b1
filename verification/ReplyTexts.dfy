// The texts a client's thread writes into its one reply buffer, and what the client library reads in them.
module ReplyTexts {
  import opened Base
  import opened Framing
  import opened OpSpec
  import opened Server

  // <xml><ok>content</ok></xml>, or an error of some kind.
  datatype Text = Ok(content: string) | Error

  // The format "%d".
  function Decimal(n: int): string {
    if n < 0 then "-" + Digits(-n) else Digits(n)
  }

  // The number the client library reads from a reply; 0 stands for failure.
  function IntResponse(t: Text): int {
    match t
    case Error => 0
    case Ok(content) =>
      match Scan(content)
      case None => 0
      case Some(n) => n
  }

  lemma {:induction false} DigitRunAll(d: string)
    requires forall i :: 0 <= i < |d| ==> IsDigit(d[i])
    ensures DigitRun(d) == d
  {
    if d != [] { DigitRunAll(d[1..]); }
  }

  lemma ScanUnsigned(d: string)
    requires d != [] && forall i :: 0 <= i < |d| ==> IsDigit(d[i])
    ensures Scan(d) == Some(Value(d))
  {
    assert IsDigit(d[0]) && !IsSpace(d[0]);
    assert SkipSpaces(d) == d;
    DigitRunAll(d);
  }

  lemma ScanNegative(d: string)
    requires d != [] && forall i :: 0 <= i < |d| ==> IsDigit(d[i])
    ensures Scan("-" + d).Some? && Scan("-" + d).value == -1 * Value(d)
  {
    var s := "-" + d;
    assert s[0] == '-' && !IsSpace(s[0]) && s[1..] == d;
    assert SkipSpaces(s) == s;
    DigitRunAll(d);
  }

  // A number is read back as it was written.
  lemma ReadsNumber(n: int)
    ensures IntResponse(Ok(Decimal(n))) == n
  {
    if n < 0 {
      ValueOfDigits(-n);
      ScanNegative(Digits(-n));
    } else {
      ValueOfDigits(n);
      ScanUnsigned(Digits(n));
    }
  }

  lemma ReadsOne()
    ensures IntResponse(Ok("1")) == 1
  {
    ReadsNumber(1);
    assert Decimal(1) == "1";
  }

  function OkIf(b: bool, content: string): Option<Text> {
    Some(if b then Ok(content) else Error)
  }

  // What command cmd with this reply writes into the buffer. A refused rollback writes nothing, and
  // neither does a query that is answered from a buffer of its own.
  function Written(cmd: Command, reply: Reply): Option<Text> {
    var n := if reply.Answer? then reply.n else 0;
    match cmd
    case SetStore(name) => OkIf(n == 0, if name.None? then "Data Store set to NULL for this client" else "")
    case LockStore => OkIf(reply.Answer? && n == 0, "")
    case UnlockStore => OkIf(reply.Answer? && n == 0, "")
    case StartTxn => OkIf(n != 0, "1")
    case CommitTxn => OkIf(n > 0, Decimal(n))
    case AbortTxn => OkIf(n != 0, "1")
    case RollbackTxn(_) => if n != 0 then Some(Ok("1")) else None
    case EditNodes(_) => OkIf(reply.Answer? && n >= 0, Decimal(n))
    case Query(_) => if reply == Result(None) then Some(Error) else None
    case CopyStore(_, _) => OkIf(n != 0, "")
    case CreateStore(_, _) => OkIf(n != 0, "")
    case DeleteStore(_) => OkIf(n >= 0, Decimal(n))
    case OpCmd(CreateOp(_)) => OkIf(n != 0, if n == 2 then "Op Data Store already exists - no action" else "")
    case OpCmd(UseOp(_)) => OkIf(n != 0, "")
    case OpCmd(_) => OkIf(n >= 0, Decimal(n))
    case Disconnect => Some(Ok(""))
  }
}
