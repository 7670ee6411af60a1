/** RESP2 framing: commands as the client prints and the server reads them, and
    replies as the server prints and the client consumes them. */
module Resp {
  import opened Bytes
  import opened Decimal
  import opened TableRead

  const MAX_BULK_LEN := 64 * 1024 * 1024
  const MAX_ARGS := 1024

  const CR: byte := 13
  const LF: byte := 10
  const STAR: byte := 42
  const DOLLAR: byte := 36
  const CRLF: seq<byte> := [CR, LF]

  /* ---- Printing commands ---- */

  /** A type byte, a number, and the end of the line. */
  function Header(kind: byte, n: nat): (r: seq<byte>)
    ensures |r| >= 4
  {
    [kind] + Digits(n) + CRLF
  }

  function Arg(part: seq<byte>): seq<byte> {
    Header(DOLLAR, |part|) + (part + CRLF)
  }

  function Args(parts: seq<seq<byte>>): seq<byte> {
    if parts == [] then [] else Arg(parts[0]) + Args(parts[1..])
  }

  function Command(parts: seq<seq<byte>>): seq<byte> {
    Header(STAR, |parts|) + Args(parts)
  }

  lemma {:induction false} ArgsAppend(parts: seq<seq<byte>>, part: seq<byte>)
    ensures Args(parts + [part]) == Args(parts) + Arg(part)
  {
    hide Arg;
    if parts == [] {
      assert [part][1..] == [] && parts + [part] == [part];
      assert Args([part]) == Arg(part) + Args([part][1..]);
    } else {
      ArgsAppend(parts[1..], part);
      assert (parts + [part])[1..] == parts[1..] + [part];
      TableFile.Regroup(Arg(parts[0]), Args(parts[1..]), Arg(part));
    }
  }

  class Client {
    var scratch: seq<byte>

    /** The request half of `call`. */
    method Print(parts: seq<seq<byte>>)
      modifies this
      ensures scratch == Command(parts)
    {
      hide Header;
      scratch := [];
      scratch := scratch + Header(STAR, |parts|);
      ghost var head := scratch;
      for i := 0 to |parts|
        invariant scratch == head + Args(parts[..i])
      {
        assert parts[..i + 1] == parts[..i] + [parts[i]];
        ArgsAppend(parts[..i], parts[i]);
        scratch := scratch + Header(DOLLAR, |parts[i]|);
        scratch := scratch + parts[i];
        scratch := scratch + CRLF;
      }
      assert parts[..|parts|] == parts;
    }
  }

  /* ---- Reading commands ---- */

  /** The position after the next newline, or the end. */
  function AfterNewline(buf: seq<byte>, at: nat): (end: nat)
    requires at <= |buf|
    ensures at <= end <= |buf| && (at < |buf| ==> at < end)
    decreases |buf| - at
  {
    if at == |buf| then at else if buf[at] == LF then at + 1 else AfterNewline(buf, at + 1)
  }

  function StripEnd(line: seq<byte>): seq<byte> {
    if line != [] && (line[|line| - 1] == LF || line[|line| - 1] == CR) then StripEnd(line[..|line| - 1]) else line
  }

  /** `read_line`: the line without its end, and the position after it. */
  function ReadLine(buf: seq<byte>, at: nat): (r: Option<(seq<byte>, nat)>)
    ensures r.Some? ==> at < r.value.1 <= |buf|
  {
    if at >= |buf| then None
    else
      var end := AfterNewline(buf, at);
      Some((StripEnd(buf[at..end]), end))
  }

  function ParseLen(bytes: seq<byte>, max: int): Result<int> {
    match ParseI64(bytes)
    case None => Err(Protocol)
    case Some(n) => if n > max then Err(Protocol) else Ok(n)
  }

  predicate IsSpace(b: byte) {
    b == 32 || b == 9 || b == 10 || b == 12 || b == 13
  }

  /** An inline command: the words of the line, `word` being the one in progress. */
  function Words(line: seq<byte>, word: seq<byte>): seq<seq<byte>> {
    if line == [] then (if word == [] then [] else [word])
    else if IsSpace(line[0]) then (if word == [] then [] else [word]) + Words(line[1..], [])
    else Words(line[1..], word + [line[0]])
  }

  /** One bulk string argument. The two bytes after it are not looked at. */
  function ReadArg(buf: seq<byte>, at: nat): (r: Result<(seq<byte>, nat)>)
    ensures r.Ok? ==> at < r.value.1 <= |buf|
  {
    match ReadLine(buf, at)
    case None => Err(Eof)
    case Some((header, next)) =>
      if header == [] || header[0] != DOLLAR then Err(Protocol)
      else
        match ParseLen(header[1..], MAX_BULK_LEN)
        case Err(e) => Err(e)
        case Ok(len) =>
          if len < 0 then Err(Protocol)
          else
            match Take(buf, next, len)
            case Err(e) => Err(e)
            case Ok(arg) =>
              match Take(buf, next + len, 2)
              case Err(e) => Err(e)
              case Ok(_) => Ok((arg, next + len + 2))
  }

  function ReadArgs(buf: seq<byte>, at: nat, count: nat, args: seq<seq<byte>>)
    : (r: Result<(seq<seq<byte>>, nat)>)
    ensures r.Ok? ==> at <= r.value.1 && (at <= |buf| ==> r.value.1 <= |buf|)
    decreases count
  {
    if count == 0 then Ok((args, at))
    else
      match ReadArg(buf, at)
      case Err(e) => Err(e)
      case Ok((arg, next)) => ReadArgs(buf, next, count - 1, args + [arg])
  }

  /** `read_command`: no command at the end of the stream. */
  function ReadCommand(buf: seq<byte>, at: nat): (r: Result<(Option<seq<seq<byte>>>, nat)>)
    ensures r.Ok? && r.value.0.Some? ==> at < r.value.1 <= |buf|
  {
    match ReadLine(buf, at)
    case None => Ok((None, at))
    case Some((line, next)) =>
      if line == [] || line[0] != STAR then Ok((Some(Words(line, [])), next))
      else
        match ParseLen(line[1..], MAX_ARGS)
        case Err(e) => Err(e)
        case Ok(count) =>
          match ReadArgs(buf, next, if count < 0 then 0 else count, [])
          case Err(e) => Err(e)
          case Ok((args, end)) => Ok((Some(args), end))
  }

  /** The server's end of a connection. */
  class Reader {
    const buf: seq<byte>
    var pos: nat

    constructor (buf: seq<byte>)
      ensures this.buf == buf && pos == 0
    {
      this.buf := buf;
      pos := 0;
    }

    method Line() returns (line: Option<seq<byte>>)
      modifies this
      ensures match ReadLine(buf, old(pos))
              case None => line == None && pos == old(pos)
              case Some((l, next)) => line == Some(l) && pos == next
    {
      if pos >= |buf| { return None; }
      ghost var start := pos;
      var bytes: seq<byte> := [];
      while pos < |buf| && (bytes == [] || bytes[|bytes| - 1] != LF)
        invariant start <= pos <= |buf| && bytes == buf[start..pos]
        invariant bytes != [] && bytes[|bytes| - 1] == LF ==> AfterNewline(buf, start) == pos
        invariant bytes == [] || bytes[|bytes| - 1] != LF ==> AfterNewline(buf, start) == AfterNewline(buf, pos)
      {
        bytes := bytes + [buf[pos]];
        pos := pos + 1;
      }
      ghost var whole := bytes;
      while bytes != [] && (bytes[|bytes| - 1] == LF || bytes[|bytes| - 1] == CR)
        invariant StripEnd(whole) == StripEnd(bytes)
      {
        bytes := bytes[..|bytes| - 1];
      }
      return Some(bytes);
    }

    method Exact(n: nat) returns (r: Result<seq<byte>>)
      requires pos <= |buf|
      modifies this
      ensures r == Take(buf, old(pos), n)
      ensures pos == if r.Ok? then old(pos) + n else old(pos)
    {
      r := Take(buf, pos, n);
      if r.Ok? { pos := pos + n; }
    }

    method NextCommand() returns (r: Result<Option<seq<seq<byte>>>>)
      requires pos <= |buf|
      modifies this
      ensures match ReadCommand(buf, old(pos))
              case Err(e) => r == Err(e)
              case Ok((command, next)) => r == Ok(command) && pos == next
    {
      hide Words, ParseI64, AfterNewline, StripEnd;
      var line := Line();
      if line.None? { return Ok(None); }
      if line.value == [] || line.value[0] != STAR {
        return Ok(Some(Words(line.value, [])));
      }
      var count := ParseLen(line.value[1..], MAX_ARGS);
      if count.Err? { return Err(count.error); }
      var args: seq<seq<byte>> := [];
      var left := if count.value < 0 then 0 else count.value;
      ghost var start := pos;
      ghost var total := left;
      while left > 0
        invariant 0 <= left && pos <= |buf|
        invariant ReadArgs(buf, start, total, []) == ReadArgs(buf, pos, left, args)
        decreases left
      {
        var header := Line();
        if header.None? { return Err(Eof); }
        if header.value == [] || header.value[0] != DOLLAR { return Err(Protocol); }
        var len := ParseLen(header.value[1..], MAX_BULK_LEN);
        if len.Err? { return Err(len.error); }
        if len.value < 0 { return Err(Protocol); }
        var arg := Exact(len.value);
        if arg.Err? { return Err(arg.error); }
        var terminator := Exact(2);
        if terminator.Err? { return Err(terminator.error); }
        args := args + [arg.value];
        left := left - 1;
      }
      return Ok(Some(args));
    }
  }

  /* ---- Commands are read back ---- */

  predicate NoLineEnd(s: seq<byte>) {
    forall i :: 0 <= i < |s| ==> s[i] != LF && s[i] != CR
  }

  lemma {:induction false} NewlineAt(buf: seq<byte>, at: nat, n: nat)
    requires at + n < |buf| && buf[at + n] == LF
    requires forall i :: at <= i < at + n ==> buf[i] != LF
    ensures AfterNewline(buf, at) == at + n + 1
    decreases n
  {
    if n > 0 { NewlineAt(buf, at + 1, n - 1); }
  }

  lemma {:induction false} NoNewline(buf: seq<byte>, at: nat)
    requires at <= |buf| && forall i :: at <= i < |buf| ==> buf[i] != LF
    ensures AfterNewline(buf, at) == |buf|
    decreases |buf| - at
  {
    if at < |buf| { NoNewline(buf, at + 1); }
  }

  lemma StripLine(text: seq<byte>)
    requires NoLineEnd(text)
    ensures StripEnd(text) == text && StripEnd(text + [CR]) == text && StripEnd(text + CRLF) == text
  {
    var c := text + [CR];
    assert c[..|c| - 1] == text;
    assert (text + CRLF)[..|text + CRLF| - 1] == c;
  }

  lemma HeaderText(kind: byte, n: nat)
    requires kind != LF && kind != CR
    ensures NoLineEnd([kind] + Digits(n))
  {
    DigitsBack(n);
  }

  /** A header line is read back whole. */
  lemma ReadHeader(buf: seq<byte>, at: nat, kind: byte, n: nat)
    requires kind != LF && kind != CR && Holds(buf, at, Header(kind, n))
    ensures ReadLine(buf, at) == Some(([kind] + Digits(n), at + |Header(kind, n)|))
  {
    hide Digits;
    var text := [kind] + Digits(n);
    HeaderText(kind, n);
    var h := Header(kind, n);
    assert h == text + CRLF;
    forall i | 0 <= i < |h| ensures buf[at + i] == h[i] {
      assert buf[at..at + |h|][i] == buf[at + i];
    }
    NewlineAt(buf, at, |h| - 1);
    StripLine(text);
  }

  predicate CommandFits(parts: seq<seq<byte>>) {
    |parts| <= MAX_ARGS && forall i :: 0 <= i < |parts| ==> |parts[i]| <= MAX_BULK_LEN
  }

  lemma ReadArgBack(buf: seq<byte>, at: nat, part: seq<byte>)
    requires |part| <= MAX_BULK_LEN && Holds(buf, at, Arg(part))
    ensures ReadArg(buf, at) == Ok((part, at + |Arg(part)|))
  {
    hide Digits, ParseI64, Header, ReadLine;
    var h := Header(DOLLAR, |part|);
    HoldsSplit(buf, at, h, part + CRLF);
    HoldsSplit(buf, at + |h|, part, CRLF);
    ReadHeader(buf, at, DOLLAR, |part|);
    ParseBack(|part|);
    assert ([DOLLAR] + Digits(|part|))[1..] == Digits(|part|);
  }

  lemma {:induction false} ReadArgsBack(buf: seq<byte>, at: nat, parts: seq<seq<byte>>, before: seq<seq<byte>>)
    requires CommandFits(parts) && Holds(buf, at, Args(parts))
    ensures ReadArgs(buf, at, |parts|, before) == Ok((before + parts, at + |Args(parts)|))
    decreases |parts|
  {
    hide Arg, ReadArg;
    if parts == [] {
      assert before + parts == before;
    } else {
      HoldsSplit(buf, at, Arg(parts[0]), Args(parts[1..]));
      ReadArgBack(buf, at, parts[0]);
      ReadArgsBack(buf, at + |Arg(parts[0])|, parts[1..], before + [parts[0]]);
      assert before + [parts[0]] + parts[1..] == before + parts;
    }
  }

  /** A printed command is read back, wherever it is in the stream, and reading
      stops right after it. */
  lemma ReadCommandBack(buf: seq<byte>, at: nat, parts: seq<seq<byte>>)
    requires CommandFits(parts) && Holds(buf, at, Command(parts))
    ensures ReadCommand(buf, at) == Ok((Some(parts), at + |Command(parts)|))
  {
    hide Digits, ParseI64, Header, ReadLine, ReadArgs, Args;
    var h := Header(STAR, |parts|);
    HoldsSplit(buf, at, h, Args(parts));
    ReadHeader(buf, at, STAR, |parts|);
    ParseBack(|parts|);
    assert ([STAR] + Digits(|parts|))[1..] == Digits(|parts|);
    ReadArgsBack(buf, at + |h|, parts, []);
    assert [] + parts == parts;
  }

  function Stream(commands: seq<seq<seq<byte>>>): seq<byte> {
    if commands == [] then [] else Command(commands[0]) + Stream(commands[1..])
  }

  /** Reading commands until the stream ends or one is malformed. */
  function ReadStream(buf: seq<byte>, at: nat, before: seq<seq<seq<byte>>>): Result<seq<seq<seq<byte>>>>
    decreases |buf| - at
  {
    match ReadCommand(buf, at)
    case Err(e) => Err(e)
    case Ok((None, _)) => Ok(before)
    case Ok((Some(command), next)) => ReadStream(buf, next, before + [command])
  }

  /** Pipelined commands are read back as the same sequence with nothing left
      over. */
  lemma {:induction false} ReadStreamBack(buf: seq<byte>, at: nat, commands: seq<seq<seq<byte>>>,
                                          before: seq<seq<seq<byte>>>)
    requires forall i :: 0 <= i < |commands| ==> CommandFits(commands[i])
    requires Holds(buf, at, Stream(commands)) && at + |Stream(commands)| == |buf|
    ensures ReadStream(buf, at, before) == Ok(before + commands)
    decreases |commands|
  {
    hide Command, ReadCommand, CommandFits;
    AtEnd(buf);
    if commands == [] {
      assert before + commands == before;
    } else {
      HoldsSplit(buf, at, Command(commands[0]), Stream(commands[1..]));
      ReadCommandBack(buf, at, commands[0]);
      ReadStreamBack(buf, at + |Command(commands[0])|, commands[1..], before + [commands[0]]);
      assert before + [commands[0]] + commands[1..] == before + commands;
    }
  }

  lemma AtEnd(buf: seq<byte>)
    ensures ReadCommand(buf, |buf|) == Ok((None, |buf|))
  {
  }

  /* ---- A cut command is an error ---- */

  /** A line that ends with the stream. */
  lemma LastLine(buf: seq<byte>, at: nat, line: seq<byte>)
    requires at < |buf| && buf[at..] == line && forall i :: 0 <= i < |line| - 1 ==> line[i] != LF
    ensures ReadLine(buf, at) == Some((StripEnd(line), |buf|))
  {
    hide StripEnd;
    assert forall i :: at <= i < |buf| ==> buf[i] == line[i - at];
    assert buf[at..|buf|] == line;
    if line[|line| - 1] == LF {
      NewlineAt(buf, at, |line| - 1);
    } else {
      NoNewline(buf, at);
    }
  }

  /** Where a header line may be cut: in its text, or in its line end. */
  lemma CutHeader(text: seq<byte>, len: nat)
    requires NoLineEnd(text) && 0 < len <= |text| + 2
    ensures var line := (text + CRLF)[..len];
            && StripEnd(line) == (if len <= |text| then text[..len] else text)
            && forall i :: 0 <= i < len - 1 ==> line[i] != LF
  {
    hide StripEnd;
    StripLine(text);
    if len <= |text| {
      StripLine(text[..len]);
      assert (text + CRLF)[..len] == text[..len];
    } else if len == |text| + 1 {
      assert (text + CRLF)[..len] == text + [CR];
    } else {
      assert (text + CRLF)[..len] == text + CRLF;
    }
  }

  /** What is read of a header line that the stream cuts off, or ends with. */
  lemma ReadCutHeader(buf: seq<byte>, at: nat, kind: byte, n: nat)
    requires kind != LF && kind != CR && at < |buf| <= at + |Header(kind, n)|
    requires buf[at..] == Header(kind, n)[..|buf| - at]
    ensures var k := if |buf| - at - 1 <= |Digits(n)| then |buf| - at - 1 else |Digits(n)|;
            ReadLine(buf, at) == Some(([kind] + Digits(n)[..k], |buf|))
  {
    hide Digits, NoLineEnd, StripEnd, ReadLine;
    var text, len := [kind] + Digits(n), |buf| - at;
    HeaderText(kind, n);
    assert Header(kind, n) == text + CRLF;
    CutHeader(text, len);
    LastLine(buf, at, (text + CRLF)[..len]);
    if len <= |text| {
      assert text[..len] == [kind] + Digits(n)[..len - 1];
    } else {
      assert Digits(n)[..|Digits(n)|] == Digits(n);
    }
  }

  lemma ReadCutArg(buf: seq<byte>, at: nat, part: seq<byte>)
    requires |part| <= MAX_BULK_LEN && at <= |buf| < at + |Arg(part)|
    requires buf[at..] == Arg(part)[..|buf| - at]
    ensures ReadArg(buf, at).Err?
  {
    hide Digits, ParseI64, Header, ReadLine;
    var h := Header(DOLLAR, |part|);
    if at == |buf| {
      NoLine(buf);
    } else if |buf| <= at + |h| {
      assert Arg(part)[..|buf| - at] == h[..|buf| - at];
      ReadCutHeader(buf, at, DOLLAR, |part|);
      var k := if |buf| - at - 1 <= |Digits(|part|)| then |buf| - at - 1 else |Digits(|part|)|;
      assert ([DOLLAR] + Digits(|part|)[..k])[1..] == Digits(|part|)[..k];
      if k == 0 {
        assert Digits(|part|)[..0] == [];
        NothingToParse();
      } else {
        ParseLeading(|part|, k);
      }
    } else {
      assert buf[at..at + |h|] == buf[at..][..|h|] == Arg(part)[..|buf| - at][..|h|] == h;
      ReadHeader(buf, at, DOLLAR, |part|);
      ParseBack(|part|);
      assert ([DOLLAR] + Digits(|part|))[1..] == Digits(|part|);
    }
  }

  lemma NoLine(buf: seq<byte>)
    ensures ReadLine(buf, |buf|) == None
  {
  }

  lemma {:induction false} ReadCutArgs(buf: seq<byte>, at: nat, parts: seq<seq<byte>>, before: seq<seq<byte>>)
    requires CommandFits(parts) && at <= |buf| < at + |Args(parts)|
    requires buf[at..] == Args(parts)[..|buf| - at]
    ensures ReadArgs(buf, at, |parts|, before).Err?
    decreases |parts|
  {
    hide Arg, ReadArg;
    var a, rest := Arg(parts[0]), Args(parts[1..]);
    if |buf| < at + |a| {
      assert Args(parts)[..|buf| - at] == a[..|buf| - at];
      ReadCutArg(buf, at, parts[0]);
    } else {
      assert buf[at..at + |a|] == buf[at..][..|a|] == Args(parts)[..|buf| - at][..|a|] == a;
      ReadArgBack(buf, at, parts[0]);
      var next := at + |a|;
      assert buf[next..] == buf[at..][|a|..] == Args(parts)[..|buf| - at][|a|..] == rest[..|buf| - next];
      ReadCutArgs(buf, next, parts[1..], before + [parts[0]]);
    }
  }

  /** Every proper, nonempty prefix of a command with at least one argument is an
      error: a connection that drops mid-command never runs another command. */
  lemma CutCommandIsAnError(parts: seq<seq<byte>>, cut: nat)
    requires CommandFits(parts) && parts != [] && 0 < cut < |Command(parts)|
    ensures ReadCommand(Command(parts)[..cut], 0).Err?
  {
    hide Digits, ParseI64, Header, ReadLine, ReadArgs, Args;
    var buf := Command(parts)[..cut];
    var h := Header(STAR, |parts|);
    if cut <= |h| {
      assert buf[0..] == h[..cut];
      ReadCutHeader(buf, 0, STAR, |parts|);
      var k := if cut - 1 <= |Digits(|parts|)| then cut - 1 else |Digits(|parts|)|;
      assert ([STAR] + Digits(|parts|)[..k])[1..] == Digits(|parts|)[..k];
      if k == 0 {
        assert Digits(|parts|)[..0] == [];
        NothingToParse();
      } else {
        ParseLeading(|parts|, k);
        NoArgs(buf, ParseI64(Digits(|parts|)[..k]).value);
      }
    } else {
      assert buf[0..|h|] == h;
      ReadHeader(buf, 0, STAR, |parts|);
      ParseBack(|parts|);
      assert ([STAR] + Digits(|parts|))[1..] == Digits(|parts|);
      assert buf[|h|..] == Args(parts)[..cut - |h|];
      ReadCutArgs(buf, |h|, parts, []);
    }
  }

  lemma NoArgs(buf: seq<byte>, count: nat)
    requires count >= 1
    ensures ReadArgs(buf, |buf|, count, []).Err?
  {
  }
}
