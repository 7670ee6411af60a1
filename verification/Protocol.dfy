/** The Redis serialization protocol, version 2, as any client reads it: a type
    byte, a line up to carriage return and newline, and what the line announces.
    It is defined apart from the server's printer, which is proved against it. */
module Protocol {
  import opened Bytes
  import opened Decimal
  import opened TableRead
  import opened Resp
  import opened RespLines
  import opened Replies

  /** The position of the next carriage return and newline. */
  function LineEnd(buf: seq<byte>, at: nat): (end: Option<nat>)
    ensures end.Some? ==> at <= end.value && end.value + 2 <= |buf|
    decreases |buf| - at
  {
    if at + 2 > |buf| then None
    else if buf[at] == 0x0d && buf[at + 1] == 0x0a then Some(at)
    else LineEnd(buf, at + 1)
  }

  /** One reply, and the position after it. */
  function ReadReply(buf: seq<byte>, at: nat): (r: Result<(Reply, nat)>)
    ensures r.Ok? ==> at < r.value.1 <= |buf|
    decreases |buf| - at, 0, 0
  {
    match LineEnd(buf, at + 1)
    case None => Err(Eof)
    case Some(end) => ReadAfter(buf, buf[at], buf[at + 1..end], end + 2)
  }

  /** The reply that a line of type `kind` holds or announces. */
  function ReadAfter(buf: seq<byte>, kind: byte, text: seq<byte>, next: nat): (r: Result<(Reply, nat)>)
    requires next <= |buf|
    ensures r.Ok? ==> next <= r.value.1 <= |buf|
    decreases |buf| - next, 2, 0
  {
    if kind == 0x2b then Ok((Simple(text), next))
    else if kind == 0x2d then Ok((Reply.Error(text), next))
    else
      match ParseI64(text)
      case None => Err(Error.Protocol)
      case Some(n) =>
        if kind == 0x3a then Ok((Integer(n), next))
        else if kind == 0x24 && n == -1 then Ok((Nil, next))
        else if kind == 0x24 && 0 <= n then ReadBulk(buf, next, n)
        else if kind == 0x2a && 0 <= n then ReadReplies(buf, next, n, [])
        else Err(Error.Protocol)
  }

  function ReadBulk(buf: seq<byte>, at: nat, n: nat): (r: Result<(Reply, nat)>)
    ensures r.Ok? ==> at < r.value.1 <= |buf|
  {
    if at + n + 2 > |buf| then Err(Eof)
    else if buf[at + n..at + n + 2] != [0x0d, 0x0a] then Err(Error.Protocol)
    else Ok((Bulk(buf[at..at + n]), at + n + 2))
  }

  function ReadReplies(buf: seq<byte>, at: nat, count: nat, items: seq<Reply>): (r: Result<(Reply, nat)>)
    ensures r.Ok? ==> at <= r.value.1 && (at <= |buf| ==> r.value.1 <= |buf|)
    decreases |buf| - at, 1, count
  {
    if count == 0 then Ok((Array(items), at))
    else
      match ReadReply(buf, at)
      case Err(e) => Err(e)
      case Ok((item, next)) => ReadReplies(buf, next, count - 1, items + [item])
  }

  /** Numbers and sizes fit 64 bits, and no text contains the end of a line. */
  predicate Printable(r: Reply)
    decreases r
  {
    match r
    case Simple(text) => NoLineEnd(text)
    case Error(message) => NoLineEnd(message)
    case Integer(n) => -I64_LIMIT <= n < I64_LIMIT
    case Nil => true
    case Bulk(bytes) => |bytes| < I64_LIMIT
    case Array(items) => |items| < I64_LIMIT && forall i :: 0 <= i < |items| ==> Printable(items[i])
  }

  lemma {:induction false} LineEndAt(buf: seq<byte>, at: nat, text: seq<byte>)
    requires NoLineEnd(text) && Holds(buf, at, text + CRLF)
    ensures LineEnd(buf, at) == Some(at + |text|)
    decreases |text|
  {
    if text == [] {
      assert buf[at..at + 2] == CRLF;
    } else {
      assert text + CRLF == [text[0]] + (text[1..] + CRLF);
      HoldsSplit(buf, at, [text[0]], text[1..] + CRLF);
      assert buf[at] == buf[at..at + 1][0] == text[0];
      LineEndAt(buf, at + 1, text[1..]);
    }
  }

  /** A printed line is found with its type and its text. */
  lemma PrintedLine(buf: seq<byte>, at: nat, kind: byte, text: seq<byte>)
    requires NoLineEnd(text) && Holds(buf, at, [kind] + text + CRLF)
    ensures at + |text| + 3 <= |buf|
    ensures ReadReply(buf, at) == ReadAfter(buf, kind, text, at + |text| + 3)
  {
    hide ReadAfter, LineEnd, NoLineEnd;
    assert [kind] + text + CRLF == [kind] + (text + CRLF);
    HoldsSplit(buf, at, [kind], text + CRLF);
    HoldsSplit(buf, at + 1, text, CRLF);
    assert buf[at] == buf[at..at + 1][0] == kind;
    LineEndAt(buf, at + 1, text);
  }

  lemma NumberLine(n: int)
    requires -I64_LIMIT <= n < I64_LIMIT
    ensures NoLineEnd(SignedDigits(n)) && ParseI64(SignedDigits(n)) == Some(n)
  {
    hide SignedDigits, ParseI64;
    SignedNoLineEnd(0x24, n);
    assert forall i :: 0 <= i < |SignedDigits(n)| ==> SignedDigits(n)[i] == ([0x24] + SignedDigits(n))[i + 1];
    if n < 0 { ParseNegative(n); } else { ParsePositive(n); }
  }

  lemma ParsePositive(n: nat)
    requires n < I64_LIMIT
    ensures ParseI64(SignedDigits(n)) == Some(n)
  {
    hide ParseI64;
    ParseBack(n);
  }

  lemma BulkBack(buf: seq<byte>, at: nat, bytes: seq<byte>)
    requires Holds(buf, at, bytes + CRLF)
    ensures ReadBulk(buf, at, |bytes|) == Ok((Bulk(bytes), at + |bytes| + 2))
  {
    HoldsSplit(buf, at, bytes, CRLF);
  }

  /** What the server prints is read as the very reply, however deeply nested, up
      to its end and no further. */
  lemma {:induction false} ReadBack(buf: seq<byte>, at: nat, r: Reply)
    requires Printable(r) && Holds(buf, at, Print(r))
    ensures ReadReply(buf, at) == Ok((r, at + |Print(r)|))
    decreases r, 0
  {
    hide ReadReply, LineEnd, Digits, SignedDigits, ParseI64, ReadBulk, NoLineEnd, Header;
    match r
    case Simple(text) => PrintedLine(buf, at, 0x2b, text);
    case Error(message) => PrintedLine(buf, at, 0x2d, message);
    case Integer(n) => IntegerPrinted(buf, at, n);
    case Nil => NilPrinted(buf, at);
    case Bulk(bytes) => BulkPrinted(buf, at, bytes);
    case Array(items) =>
      AnnouncedBack(buf, at, 0x2a, |items|, PrintAll(items));
      ReadAllBack(buf, at + |Header(STAR, |items|)|, items, []);
      assert [] + items == items;
  }

  /** A line that announces a number, with what follows it. */
  lemma AnnouncedBack(buf: seq<byte>, at: nat, kind: byte, n: nat, body: seq<byte>)
    requires n < I64_LIMIT && Holds(buf, at, Header(kind, n) + body)
    ensures var next := at + |Header(kind, n)|;
            && Holds(buf, next, body) && ParseI64(SignedDigits(n)) == Some(n)
            && ReadReply(buf, at) == ReadAfter(buf, kind, SignedDigits(n), next)
  {
    hide ReadReply, ReadAfter, Digits, SignedDigits, ParseI64, Header, NoLineEnd;
    HeaderIs(kind, n);
    HoldsSplit(buf, at, Header(kind, n), body);
    NumberLine(n);
    PrintedLine(buf, at, kind, SignedDigits(n));
  }

  lemma BulkPrinted(buf: seq<byte>, at: nat, bytes: seq<byte>)
    requires |bytes| < I64_LIMIT && Holds(buf, at, Header(DOLLAR, |bytes|) + (bytes + CRLF))
    ensures ReadReply(buf, at) == Ok((Bulk(bytes), at + |Header(DOLLAR, |bytes|)| + |bytes| + 2))
  {
    hide ReadReply, SignedDigits, ParseI64, ReadBulk, Header;
    AnnouncedBack(buf, at, 0x24, |bytes|, bytes + CRLF);
    BulkBack(buf, at + |Header(DOLLAR, |bytes|)|, bytes);
  }

  lemma IntegerPrinted(buf: seq<byte>, at: nat, n: int)
    requires -I64_LIMIT <= n < I64_LIMIT && Holds(buf, at, Print(Integer(n)))
    ensures ReadReply(buf, at) == Ok((Integer(n), at + |Print(Integer(n))|))
  {
    hide ReadReply, SignedDigits, ParseI64, NoLineEnd;
    NumberLine(n);
    PrintedLine(buf, at, 0x3a, SignedDigits(n));
  }

  lemma NilPrinted(buf: seq<byte>, at: nat)
    requires Holds(buf, at, Print(Nil))
    ensures ReadReply(buf, at) == Ok((Nil, at + |Print(Nil)|))
  {
    hide ReadReply, SignedDigits, ParseI64, NoLineEnd;
    SignedMinusOne();
    NumberLine(-1);
    assert Print(Nil) == [0x24] + SignedDigits(-1) + CRLF;
    PrintedLine(buf, at, 0x24, SignedDigits(-1));
  }

  lemma SignedMinusOne()
    ensures SignedDigits(-1) == [0x2d, 0x31]
  {
    assert Digits(1) == [0x31];
  }

  lemma HeaderIs(kind: byte, n: nat)
    ensures Header(kind, n) == [kind] + SignedDigits(n) + CRLF
  {
  }

  lemma {:induction false} ReadAllBack(buf: seq<byte>, at: nat, items: seq<Reply>, before: seq<Reply>)
    requires forall i :: 0 <= i < |items| ==> Printable(items[i])
    requires Holds(buf, at, PrintAll(items))
    ensures ReadReplies(buf, at, |items|, before) == Ok((Array(before + items), at + |PrintAll(items)|))
    decreases items, |items|
  {
    hide Print, ReadReply, Printable;
    if items == [] {
      assert before + items == before;
    } else {
      HoldsSplit(buf, at, Print(items[0]), PrintAll(items[1..]));
      ReadBack(buf, at, items[0]);
      ReadAllBack(buf, at + |Print(items[0])|, items[1..], before + [items[0]]);
      assert before + [items[0]] + items[1..] == before + items;
    }
  }

  /** In a stream: the printed reply comes first, and the rest is untouched. */
  lemma PrintedIsRead(r: Reply, rest: seq<byte>)
    requires Printable(r)
    ensures ReadReply(Print(r) + rest, 0) == Ok((r, |Print(r)|))
  {
    hide ReadReply, Print, Printable;
    assert Holds(Print(r) + rest, 0, Print(r));
    ReadBack(Print(r) + rest, 0, r);
  }

  /* ---- Commands are arrays of bulk strings ---- */

  function Bulks(parts: seq<seq<byte>>): (items: seq<Reply>)
    ensures |items| == |parts|
  {
    seq(|parts|, i requires 0 <= i < |parts| => Bulk(parts[i]))
  }

  lemma {:induction false} ArgsAreBulks(parts: seq<seq<byte>>)
    ensures Args(parts) == PrintAll(Bulks(parts))
  {
    hide Header;
    if parts != [] {
      assert Bulks(parts)[1..] == Bulks(parts[1..]);
      ArgsAreBulks(parts[1..]);
    }
  }

  /** A command as the client prints it is, to any reader of the protocol, the
      array of its parts as bulk strings. */
  lemma CommandIsAnArray(parts: seq<seq<byte>>, rest: seq<byte>)
    requires CommandFits(parts)
    ensures ReadReply(Command(parts) + rest, 0) == Ok((Array(Bulks(parts)), |Command(parts)|))
  {
    hide Header, ReadReply;
    ArgsAreBulks(parts);
    assert Command(parts) == Print(Array(Bulks(parts)));
    PrintedIsRead(Array(Bulks(parts)), rest);
  }
}
