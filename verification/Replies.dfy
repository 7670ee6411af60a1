/** RESP2 replies: printed by the server, consumed by the benchmark client. */
module Replies {
  import opened Bytes
  import opened Decimal
  import opened TableFile
  import opened TableRead
  import opened Resp

  datatype Reply =
    | Simple(text: seq<byte>)
    | Error(message: seq<byte>)
    | Integer(n: int)
    | Bulk(bytes: seq<byte>)
    | Nil
    | Array(items: seq<Reply>)

  const PLUS_SIGN: byte := 43
  const DASH: byte := 45
  const COLON: byte := 58

  function Print(r: Reply): (s: seq<byte>)
    decreases r, 0
  {
    match r
    case Simple(text) => [PLUS_SIGN] + text + CRLF
    case Error(message) => [DASH] + message + CRLF
    case Integer(n) => [COLON] + SignedDigits(n) + CRLF
    case Nil => [DOLLAR, MINUS, ZERO + 1] + CRLF
    case Bulk(bytes) => Header(DOLLAR, |bytes|) + (bytes + CRLF)
    case Array(items) => Header(STAR, |items|) + PrintAll(items)
  }

  function PrintAll(items: seq<Reply>): seq<byte>
    decreases items, |items|
  {
    if items == [] then [] else Print(items[0]) + PrintAll(items[1..])
  }

  lemma {:induction false} PrintAllAppend(items: seq<Reply>, r: Reply)
    ensures PrintAll(items + [r]) == PrintAll(items) + Print(r)
    decreases |items|
  {
    hide Print;
    if items == [] {
      assert [r][1..] == [] && items + [r] == [r];
      assert PrintAll([r]) == Print(r) + PrintAll([r][1..]);
    } else {
      PrintAllAppend(items[1..], r);
      assert (items + [r])[1..] == items[1..] + [r];
      Regroup(Print(items[0]), PrintAll(items[1..]), Print(r));
    }
  }

  lemma NothingToPrint()
    ensures PrintAll([]) == []
  {
  }

  class Writer {
    var out: seq<byte>

    /** `Reply::write_to`. */
    method WriteReply(r: Reply)
      modifies this
      ensures out == old(out) + Print(r)
      decreases r
    {
      hide Header, PrintAll, SignedDigits;
      assert PrintAll([]) == [] by { NothingToPrint(); }
      match r
      case Simple(text) => out := out + ([PLUS_SIGN] + text + CRLF);
      case Error(message) => out := out + ([DASH] + message + CRLF);
      case Integer(n) => out := out + ([COLON] + SignedDigits(n) + CRLF);
      case Nil => out := out + ([DOLLAR, MINUS, ZERO + 1] + CRLF);
      case Bulk(bytes) =>
        out := out + Header(DOLLAR, |bytes|);
        out := out + bytes;
        out := out + CRLF;
      case Array(items) =>
        out := out + Header(STAR, |items|);
        ghost var head := out;
        for i := 0 to |items|
          invariant out == head + PrintAll(items[..i])
        {
          assert items[..i + 1] == items[..i] + [items[i]];
          PrintAllAppend(items[..i], items[i]);
          WriteReply(items[i]);
        }
        assert items[..|items|] == items;
    }
  }

  /* ---- Consuming ---- */

  function Keep(line: seq<byte>, b: byte): seq<byte> {
    if b == CR then line else line + [b]
  }

  /** The client's `read_line`: up to the newline, carriage returns dropped. */
  function ClientLine(buf: seq<byte>, at: nat, line: seq<byte>): (r: Result<(seq<byte>, nat)>)
    ensures r.Ok? ==> at < r.value.1 <= |buf|
    decreases |buf| - at
  {
    if at >= |buf| then Err(Eof)
    else if buf[at] == LF then Ok((line, at + 1))
    else ClientLine(buf, at + 1, Keep(line, buf[at]))
  }

  /** White space as `str::trim` sees it, in characters below 256. */
  predicate IsBlank(b: byte) {
    9 <= b <= 13 || b == 32 || b == 0x85 || b == 0xa0
  }

  function TrimStart(s: seq<byte>): seq<byte> {
    if s != [] && IsBlank(s[0]) then TrimStart(s[1..]) else s
  }

  function Trim(s: seq<byte>): seq<byte> {
    TrimEnd(TrimStart(s))
  }

  function TrimEnd(s: seq<byte>): seq<byte> {
    if s != [] && IsBlank(s[|s| - 1]) then TrimEnd(s[..|s| - 1]) else s
  }

  function NumberOr(s: seq<byte>, default: int): int {
    match ParseI64(Trim(s)) case Some(n) => n case None => default
  }

  /** `consume_reply`: the position after the reply. */
  function Consume(buf: seq<byte>, at: nat): (r: Result<nat>)
    ensures r.Ok? ==> at < r.value <= |buf|
    decreases |buf| - at, 0, 0
  {
    match ClientLine(buf, at, [])
    case Err(e) => Err(e)
    case Ok((line, next)) =>
      if line != [] && line[0] == DOLLAR then
        var len := NumberOr(line[1..], -1);
        if len < 0 then Ok(next)
        else if next + len + 2 <= |buf| then Ok(next + len + 2)
        else Err(Eof)
      else if line != [] && line[0] == STAR then
        var count := NumberOr(line[1..], 0);
        ConsumeAll(buf, next, if count < 0 then 0 else count)
      else Ok(next)
  }

  function ConsumeAll(buf: seq<byte>, at: nat, count: nat): (r: Result<nat>)
    ensures r.Ok? ==> at <= r.value && (at <= |buf| ==> r.value <= |buf|)
    decreases |buf| - at, 1, count
  {
    if count == 0 then Ok(at)
    else
      match Consume(buf, at)
      case Err(e) => Err(e)
      case Ok(next) => ConsumeAll(buf, next, count - 1)
  }

  class ReplyReader {
    const buf: seq<byte>
    var pos: nat

    constructor (buf: seq<byte>)
      ensures this.buf == buf && pos == 0
    {
      this.buf := buf;
      pos := 0;
    }

    method Line() returns (r: Result<seq<byte>>)
      modifies this
      ensures match ClientLine(buf, old(pos), [])
              case Err(e) => r == Err(e)
              case Ok((line, next)) => r == Ok(line) && pos == next
    {
      var line: seq<byte> := [];
      while true
        invariant ClientLine(buf, old(pos), []) == ClientLine(buf, pos, line)
        decreases |buf| - pos
      {
        if pos >= |buf| { return Err(Eof); }
        var b := buf[pos];
        pos := pos + 1;
        if b == LF { return Ok(line); }
        if b != CR { line := line + [b]; }
      }
    }

    method ConsumeReply() returns (r: Result<()>)
      modifies this
      ensures match Consume(buf, old(pos))
              case Err(e) => r == Err(e)
              case Ok(next) => r == Ok(()) && pos == next
      decreases |buf| - pos
    {
      hide NumberOr, ClientLine;
      var line := Line();
      if line.Err? { return Err(line.error); }
      if line.value != [] && line.value[0] == DOLLAR {
        var len := NumberOr(line.value[1..], -1);
        if len >= 0 {
          if pos + (len + 2) > |buf| { return Err(Eof); }
          pos := pos + (len + 2);
        }
        return Ok(());
      } else if line.value != [] && line.value[0] == STAR {
        var count := NumberOr(line.value[1..], 0);
        var left := if count < 0 then 0 else count;
        ghost var start, total := pos, left;
        while left > 0
          invariant 0 <= left && old(pos) < pos <= |buf|
          invariant ConsumeAll(buf, start, total) == ConsumeAll(buf, pos, left)
          decreases left
        {
          var item := ConsumeReply();
          if item.Err? { return item; }
          left := left - 1;
        }
        return Ok(());
      }
      return Ok(());
    }
  }

  /* ---- Replies are consumed whole ---- */

  predicate HasNewline(s: seq<byte>) {
    exists i :: 0 <= i < |s| && s[i] == LF
  }

  /** Sizes fit their decimal headers, and no text contains a newline. */
  predicate Clean(r: Reply)
    decreases r
  {
    match r
    case Simple(text) => !HasNewline(text)
    case Error(message) => !HasNewline(message)
    case Integer(_) => true
    case Nil => true
    case Bulk(bytes) => |bytes| < I64_LIMIT
    case Array(items) => |items| < I64_LIMIT && forall i :: 0 <= i < |items| ==> Clean(items[i])
  }

  function WithoutCR(s: seq<byte>): seq<byte> {
    if s == [] then [] else (if s[0] == CR then [] else [s[0]]) + WithoutCR(s[1..])
  }

  lemma WithoutCRStep(text: seq<byte>)
    requires text != []
    ensures WithoutCR(text) == (if text[0] == CR then [] else [text[0]]) + WithoutCR(text[1..])
  {
  }

  lemma KeepStep(before: seq<byte>, text: seq<byte>)
    requires text != []
    ensures before + WithoutCR(text) == Keep(before, text[0]) + WithoutCR(text[1..])
  {
    hide WithoutCR;
    WithoutCRStep(text);
  }

  lemma TextStep(text: seq<byte>)
    requires text != [] && !HasNewline(text)
    ensures text[0] != LF && !HasNewline(text[1..]) && text + [LF] == [text[0]] + (text[1..] + [LF])
  {
    assert forall i :: 0 <= i < |text| - 1 ==> text[1..][i] == text[i + 1];
  }

  /** The client's line ends at the first newline. */
  lemma {:induction false} ClientLineBack(buf: seq<byte>, at: nat, text: seq<byte>, before: seq<byte>)
    requires Holds(buf, at, text + [LF]) && !HasNewline(text)
    ensures ClientLine(buf, at, before) == Ok((before + WithoutCR(text), at + |text| + 1))
    decreases |text|
  {
    hide HasNewline, WithoutCR;
    assert buf[at..at + |text + [LF]|][0] == buf[at];
    if text == [] {
      assert WithoutCR([]) == [] by { NoText(); }
      assert before + [] == before;
    } else {
      TextStep(text);
      HoldsSplit(buf, at, [text[0]], text[1..] + [LF]);
      KeepStep(before, text);
      ClientLineBack(buf, at + 1, text[1..], Keep(before, text[0]));
    }
  }

  lemma NoText()
    ensures WithoutCR([]) == []
  {
  }

  lemma {:induction false} WithoutCRAppend(a: seq<byte>)
    requires forall i :: 0 <= i < |a| ==> a[i] != CR
    ensures WithoutCR(a + [CR]) == a
  {
    if a == [] {
      assert (a + [CR])[1..] == [];
    } else {
      assert (a + [CR])[1..] == a[1..] + [CR];
      WithoutCRAppend(a[1..]);
    }
  }

  lemma WithoutCRFirst(kind: byte, s: seq<byte>)
    requires kind != CR
    ensures WithoutCR([kind] + s) != [] && WithoutCR([kind] + s)[0] == kind
  {
  }

  /** A line that starts with neither `$` nor `*` is all that is consumed. */
  lemma ConsumePlainLine(buf: seq<byte>, at: nat, kind: byte, text: seq<byte>)
    requires kind != CR && kind != LF && kind != DOLLAR && kind != STAR
    requires !HasNewline(text) && Holds(buf, at, [kind] + text + CRLF)
    ensures Consume(buf, at) == Ok(at + |text| + 3)
  {
    var line := [kind] + text + [CR];
    assert [kind] + text + CRLF == line + [LF];
    assert line == [kind] + (text + [CR]);
    ClientLineBack(buf, at, line, []);
    WithoutCRFirst(kind, text + [CR]);
    assert [] + WithoutCR(line) == WithoutCR(line);
  }

  lemma NoBlanks(s: seq<byte>)
    requires s != [] && !IsBlank(s[0]) && !IsBlank(s[|s| - 1])
    ensures Trim(s) == s
  {
  }

  /** A header line comes back as its type and its number. */
  lemma HeaderLine(buf: seq<byte>, at: nat, kind: byte, n: nat)
    requires kind != CR && kind != LF && Holds(buf, at, Header(kind, n))
    ensures ClientLine(buf, at, []) == Ok(([kind] + Digits(n), at + |Header(kind, n)|))
  {
    hide Digits;
    var text := [kind] + Digits(n);
    HeaderText(kind, n);
    assert Header(kind, n) == (text + [CR]) + [LF];
    ClientLineBack(buf, at, text + [CR], []);
    WithoutCRAppend(text);
    assert [] + text == text;
  }

  lemma NumberBack(n: nat, default: int)
    requires n < I64_LIMIT
    ensures NumberOr(Digits(n), default) == n
  {
    DigitsBack(n);
    ParseBack(n);
    NoBlanks(Digits(n));
  }

  lemma ConsumeNil(buf: seq<byte>, at: nat)
    requires Holds(buf, at, Print(Nil))
    ensures Consume(buf, at) == Ok(at + |Print(Nil)|)
  {
    var text: seq<byte> := [DOLLAR, MINUS, ZERO + 1];
    assert Print(Nil) == (text + [CR]) + [LF];
    ClientLineBack(buf, at, text + [CR], []);
    WithoutCRAppend(text);
    assert [] + text == text && text[1..] == [MINUS, ZERO + 1];
    MinusOne();
    NoBlanks([MINUS, ZERO + 1]);
  }

  lemma SignedText(n: int)
    ensures !HasNewline(SignedDigits(n))
  {
    DigitsBack(if n < 0 then -n else n);
  }

  /** The client consumes exactly the bytes of a reply, however deeply nested,
      and leaves what follows untouched. */
  lemma {:induction false} ConsumeBack(buf: seq<byte>, at: nat, r: Reply)
    requires Clean(r) && Holds(buf, at, Print(r))
    ensures Consume(buf, at) == Ok(at + |Print(r)|)
    decreases r, 0
  {
    hide NumberOr, ClientLine, Header, Digits, HasNewline;
    match r
    case Simple(text) => ConsumePlainLine(buf, at, PLUS_SIGN, text);
    case Error(message) => ConsumePlainLine(buf, at, DASH, message);
    case Integer(n) =>
      SignedText(n);
      ConsumePlainLine(buf, at, COLON, SignedDigits(n));
    case Nil => ConsumeNil(buf, at);
    case Bulk(bytes) =>
      HoldsSplit(buf, at, Header(DOLLAR, |bytes|), bytes + CRLF);
      HeaderLine(buf, at, DOLLAR, |bytes|);
      NumberBack(|bytes|, -1);
      assert ([DOLLAR] + Digits(|bytes|))[1..] == Digits(|bytes|);
    case Array(items) =>
      HoldsSplit(buf, at, Header(STAR, |items|), PrintAll(items));
      HeaderLine(buf, at, STAR, |items|);
      NumberBack(|items|, 0);
      assert ([STAR] + Digits(|items|))[1..] == Digits(|items|);
      ConsumeAllBack(buf, at + |Header(STAR, |items|)|, items);
  }

  lemma {:induction false} ConsumeAllBack(buf: seq<byte>, at: nat, items: seq<Reply>)
    requires forall i :: 0 <= i < |items| ==> Clean(items[i])
    requires Holds(buf, at, PrintAll(items))
    ensures ConsumeAll(buf, at, |items|) == Ok(at + |PrintAll(items)|)
    decreases items, |items|
  {
    hide Print, Consume, Clean;
    if items != [] {
      HoldsSplit(buf, at, Print(items[0]), PrintAll(items[1..]));
      ConsumeBack(buf, at, items[0]);
      ConsumeAllBack(buf, at + |Print(items[0])|, items[1..]);
    }
  }

  /* ---- And texts with newlines are not ---- */

  lemma {:induction false} LineStopsEarly(buf: seq<byte>, at: nat, nl: nat, before: seq<byte>)
    requires at <= nl < |buf| && buf[nl] == LF
    ensures ClientLine(buf, at, before).Ok? && ClientLine(buf, at, before).value.1 <= nl + 1
    ensures before != [] ==> ClientLine(buf, at, before).value.0 != []
                             && ClientLine(buf, at, before).value.0[0] == before[0]
    decreases nl - at
  {
    if buf[at] != LF {
      LineStopsEarly(buf, at + 1, nl, Keep(before, buf[at]));
    }
  }

  /** An error reply is consumed whole if and only if its text has no newline. The
      text of an unknown-command error is the client's own bytes, so a newline in
      a command name leaves the rest of the reply in the stream. */
  lemma ErrorReplyExactly(message: seq<byte>, rest: seq<byte>)
    ensures Consume(Print(Error(message)) + rest, 0) == Ok(|Print(Error(message))|) <==> !HasNewline(message)
  {
    var p := Print(Error(message));
    var buf := p + rest;
    assert Holds(buf, 0, p);
    if HasNewline(message) {
      var i :| 0 <= i < |message| && message[i] == LF;
      assert buf[0] == DASH && buf[i + 1] == LF;
      assert ClientLine(buf, 0, []) == ClientLine(buf, 1, [DASH]) by { assert [] + [DASH] == [DASH]; }
      LineStopsEarly(buf, 1, i + 1, [DASH]);
    } else {
      ConsumePlainLine(buf, 0, DASH, message);
    }
  }
}
