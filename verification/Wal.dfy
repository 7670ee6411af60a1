/** The write-ahead log: frames with a length and a checksum, and replay of a log
    that may end in a torn frame. The checksum is any function to 32 bits. */
module Wal {
  import opened Bytes
  import opened Tables
  import opened Store
  import opened TableFile
  import opened TableRead
  import opened Disk

  const CRC_SIZE := 4

  type u32 = x: int | 0 <= x < U32
  type Checksum = seq<byte> -> u32

  function KeyOf(op: Op): Key {
    op.key
  }

  function ValueOf(op: Op): Value {
    match op case Put(_, v) => v case Delete(_) => []
  }

  function OperationByte(op: Op): byte {
    if op.Put? then 0 else 1
  }

  function Payload(op: Op): (r: seq<byte>)
    ensures |r| == 9 + |KeyOf(op)| + |ValueOf(op)|
  {
    Prefixed(KeyOf(op)) + Prefixed(ValueOf(op)) + [OperationByte(op)]
  }

  /** `create_body`. */
  function Frame(crc: Checksum, op: Op): (r: seq<byte>)
    ensures |r| == 17 + |KeyOf(op)| + |ValueOf(op)|
  {
    LE(CRC_SIZE + |Payload(op)|, 4) + LE(crc(Payload(op)), 4) + Payload(op)
  }

  /** The bytes of a frame, for a short key and value. */
  lemma SmallFrame(crc: Checksum, op: Op)
    requires 13 + |KeyOf(op)| + |ValueOf(op)| < 256
    ensures var payload := [|op.key|, 0, 0, 0] + op.key
                           + (match op
                              case Put(_, v) => [|v|, 0, 0, 0] + v + [0]
                              case Delete(_) => [0, 0, 0, 0, 1]);
            Frame(crc, op) == [4 + |payload|, 0, 0, 0] + LE(crc(payload), 4) + payload
  {
    hide LE;
    SmallLE(|KeyOf(op)|);
    SmallLE(|ValueOf(op)|);
    if op.Delete? { assert [0, 0, 0, 0] + [] + [1] == [0, 0, 0, 0, 1]; }
    var payload := [|op.key|, 0, 0, 0] + op.key
                   + (match op case Put(_, v) => [|v|, 0, 0, 0] + v + [0] case Delete(_) => [0, 0, 0, 0, 1]);
    assert Payload(op) == payload;
    SmallLE(4 + |payload|);
  }

  function Log(crc: Checksum, ops: seq<Op>): seq<byte> {
    if ops == [] then [] else Frame(crc, ops[0]) + Log(crc, ops[1..])
  }

  /** The frame's length, which covers the checksum and the payload, fits. */
  predicate FitsFrame(op: Op) {
    CRC_SIZE + 9 + |KeyOf(op)| + |ValueOf(op)| < U32
  }

  predicate AllFit(ops: seq<Op>) {
    forall i :: 0 <= i < |ops| ==> FitsFrame(ops[i])
  }

  /** `parse_record`; slicing past the end of the payload panics. */
  function ParseRecord(payload: seq<byte>): Result<Op> {
    match ReadPrefixed(payload, 0)
    case Err(_) => Err(Panic)
    case Ok((key, afterKey)) =>
      match ReadPrefixed(payload, afterKey)
      case Err(_) => Err(Panic)
      case Ok((value, afterValue)) =>
        if afterValue >= |payload| then Err(Panic)
        else if payload[afterValue] == 0 then Ok(Put(key, value))
        else if payload[afterValue] == 1 then Ok(Delete(key))
        else Err(BadOp)
  }

  /** One frame at `at`: nothing if the file ends first. */
  function ReadFrame(crc: Checksum, file: seq<byte>, at: nat): (r: Result<Option<(Op, nat)>>)
    ensures r.Ok? && r.value.Some? ==> at < r.value.value.1 <= |file|
  {
    match Take(file, at, 4)
    case Err(_) => Ok(None)
    case Ok(lengthBytes) =>
      var length := FromLE(lengthBytes);
      if length < CRC_SIZE then Ok(None)
      else
        match Take(file, at + 4, 4)
        case Err(_) => Ok(None)
        case Ok(checksumBytes) =>
          match Take(file, at + 8, length - CRC_SIZE)
          case Err(_) => Ok(None)
          case Ok(payload) =>
            if crc(payload) != FromLE(checksumBytes) then Err(BadChecksum)
            else
              match ParseRecord(payload)
              case Err(e) => Err(e)
              case Ok(op) => Ok(Some((op, at + 4 + length)))
  }

  function ReadFrom(crc: Checksum, file: seq<byte>, at: nat, records: seq<Op>): Result<seq<Op>>
    decreases |file| - at
  {
    match ReadFrame(crc, file, at)
    case Err(e) => Err(e)
    case Ok(None) => Ok(records)
    case Ok(Some((op, next))) => ReadFrom(crc, file, next, records + [op])
  }

  class WalFile {
    const disk: FileSystem
    const crc: Checksum

    constructor (disk: FileSystem, crc: Checksum)
      ensures this.disk == disk && this.crc == crc
    {
      this.disk := disk;
      this.crc := crc;
    }

    method CreateBody(op: Op) returns (record: seq<byte>)
      ensures record == Frame(crc, op)
    {
      hide LE, Prefixed;
      var payload: seq<byte> := Prefixed(KeyOf(op));
      payload := payload + Prefixed(ValueOf(op));
      payload := payload + [OperationByte(op)];
      var checksum := crc(payload);
      var length := CRC_SIZE + |payload|;
      record := LE(length, 4);
      record := record + LE(checksum, 4);
      record := record + payload;
    }

    method Append(op: Op)
      modifies disk
      ensures disk.files == old(disk.files) && disk.log == old(disk.log) + Frame(crc, op)
      ensures disk.trace == old(disk.trace) + Logging(old(disk.Now()), Frame(crc, op))
    {
      var body := CreateBody(op);
      disk.AppendLog(body);
    }

    method Truncate()
      modifies disk
      ensures disk.files == old(disk.files) && disk.log == [] && disk.trace == old(disk.trace) + [disk.Now()]
    {
      disk.TruncateLog();
    }

    method Read() returns (r: Result<seq<Op>>)
      ensures r == ReadFrom(crc, disk.log, 0, [])
    {
      var file := disk.log;
      hide ReadFrame;
      var records: seq<Op> := [];
      var at := 0;
      while true
        invariant ReadFrom(crc, file, 0, []) == ReadFrom(crc, file, at, records)
        decreases |file| - at
      {
        var frame := ReadFrame(crc, file, at);
        if frame.Err? { return Err(frame.error); }
        if frame.value.None? { return Ok(records); }
        var (op, next) := frame.value.value;
        records := records + [op];
        at := next;
      }
    }
  }

  /* ---- Replay ---- */

  lemma {:induction false} LogConcat(crc: Checksum, a: seq<Op>, b: seq<Op>)
    ensures Log(crc, a + b) == Log(crc, a) + Log(crc, b)
  {
    hide Frame;
    if a == [] {
      assert a + b == b;
    } else {
      LogConcat(crc, a[1..], b);
      assert (a + b)[1..] == a[1..] + b && (a + b)[0] == a[0];
      Regroup(Frame(crc, a[0]), Log(crc, a[1..]), Log(crc, b));
    }
  }

  lemma ParseRecordBack(op: Op)
    requires FitsFrame(op)
    ensures ParseRecord(Payload(op)) == Ok(op)
  {
    hide Prefixed, ReadPrefixed;
    var p := Payload(op);
    var k, v := Prefixed(KeyOf(op)), Prefixed(ValueOf(op));
    HoldsSelf(p);
    HoldsSplit(p, 0, k + v, [OperationByte(op)]);
    HoldsSplit(p, 0, k, v);
    ReadPrefixedBack(p, 0, KeyOf(op));
    ReadPrefixedBack(p, |k|, ValueOf(op));
    assert p[|k| + |v|] == OperationByte(op);
  }

  /** An operation byte other than 0 and 1 is refused. */
  lemma RefusedOperation(key: Key, value: Value, operation: byte)
    requires |key| < U32 && |value| < U32 && operation > 1
    ensures ParseRecord(Prefixed(key) + Prefixed(value) + [operation]) == Err(BadOp)
  {
    hide Prefixed, ReadPrefixed;
    var p := Prefixed(key) + Prefixed(value) + [operation];
    HoldsSelf(p);
    HoldsSplit(p, 0, Prefixed(key) + Prefixed(value), [operation]);
    HoldsSplit(p, 0, Prefixed(key), Prefixed(value));
    ReadPrefixedBack(p, 0, key);
    ReadPrefixedBack(p, |Prefixed(key)|, value);
    assert p[|Prefixed(key)| + |Prefixed(value)|] == operation;
  }

  /** A whole frame is read back. */
  lemma ReadFrameBack(crc: Checksum, file: seq<byte>, at: nat, op: Op)
    requires FitsFrame(op) && Holds(file, at, Frame(crc, op))
    ensures ReadFrame(crc, file, at) == Ok(Some((op, at + |Frame(crc, op)|)))
  {
    hide LE, FromLE, ParseRecord, Payload;
    var p := Payload(op);
    HoldsSplit(file, at, LE(CRC_SIZE + |p|, 4) + LE(crc(p), 4), p);
    HoldsSplit(file, at, LE(CRC_SIZE + |p|, 4), LE(crc(p), 4));
    RoundTrip32(CRC_SIZE + |p|);
    RoundTrip32(crc(p));
    ParseRecordBack(op);
  }

  /** A length that reaches past the end of the file ends the replay. */
  lemma ReadFrameShort(crc: Checksum, file: seq<byte>, at: nat, length: nat)
    requires length < U32 && Holds(file, at, LE(length, 4)) && at + 4 + length > |file|
    ensures ReadFrame(crc, file, at) == Ok(None)
  {
    hide LE, FromLE, ParseRecord;
    RoundTrip32(length);
  }

  /** A frame that the file cuts off anywhere ends the replay. */
  lemma ReadFrameTorn(crc: Checksum, file: seq<byte>, at: nat, op: Op)
    requires FitsFrame(op) && at <= |file| < at + |Frame(crc, op)|
    requires file[at..] == Frame(crc, op)[..|file| - at]
    ensures ReadFrame(crc, file, at) == Ok(None)
  {
    hide LE, FromLE, ParseRecord, Payload;
    var length := CRC_SIZE + |Payload(op)|;
    if |file| >= at + 4 {
      assert file[at..at + 4] == file[at..][..4] == Frame(crc, op)[..4] == LE(length, 4);
      ReadFrameShort(crc, file, at, length);
    }
  }

  lemma {:induction false} ReadLogBack(crc: Checksum, file: seq<byte>, at: nat, ops: seq<Op>, before: seq<Op>)
    requires AllFit(ops) && Holds(file, at, Log(crc, ops))
    ensures ReadFrom(crc, file, at, before) == ReadFrom(crc, file, at + |Log(crc, ops)|, before + ops)
    decreases |ops|
  {
    hide Frame, ReadFrame, FitsFrame;
    if ops == [] {
      assert before + ops == before;
    } else {
      HoldsSplit(file, at, Frame(crc, ops[0]), Log(crc, ops[1..]));
      ReadFrameBack(crc, file, at, ops[0]);
      ReadLogBack(crc, file, at + |Frame(crc, ops[0])|, ops[1..], before + [ops[0]]);
      assert before + [ops[0]] + ops[1..] == before + ops;
    }
  }

  lemma ReadAtEnd(crc: Checksum, file: seq<byte>, records: seq<Op>)
    ensures ReadFrom(crc, file, |file|, records) == Ok(records)
  {
  }

  lemma CutOf(a: seq<byte>, f: seq<byte>, b: seq<byte>, cut: nat)
    requires |a| <= cut <= |a| + |f|
    ensures (a + f + b)[..cut] == a + f[..cut - |a|]
  {
  }

  /** A cut log is its whole frames and a piece of the next one. */
  lemma CutParts(crc: Checksum, ops: seq<Op>, cut: nat, n: nat)
    requires n < |ops| && |Log(crc, ops[..n])| <= cut < |Log(crc, ops[..n + 1])|
    ensures cut - |Log(crc, ops[..n])| < |Frame(crc, ops[n])| && cut <= |Log(crc, ops)|
    ensures Log(crc, ops)[..cut] == Log(crc, ops[..n]) + Frame(crc, ops[n])[..cut - |Log(crc, ops[..n])|]
  {
    hide Frame, Log;
    var a, f, b := ops[..n], [ops[n]], ops[n + 1..];
    assert ops[..n + 1] == a + f && ops == a + f + b;
    LogConcat(crc, a, f);
    LogConcat(crc, a + f, b);
    LogOne(crc, ops[n]);
    CutOf(Log(crc, a), Frame(crc, ops[n]), Log(crc, b), cut);
  }

  /** Replay of a log cut anywhere returns exactly the operations whose frames
      lie wholly before the cut, with their keys, values and kinds intact. */
  lemma CutAnywhere(crc: Checksum, ops: seq<Op>, cut: nat, n: nat)
    requires AllFit(ops) && n <= |ops| && cut <= |Log(crc, ops)|
    requires |Log(crc, ops[..n])| <= cut
    requires n < |ops| ==> cut < |Log(crc, ops[..n + 1])|
    ensures ReadFrom(crc, Log(crc, ops)[..cut], 0, []) == Ok(ops[..n])
  {
    hide Frame, ReadFrame, FitsFrame, Log;
    var file := Log(crc, ops)[..cut];
    var whole := Log(crc, ops[..n]);
    if n < |ops| {
      CutParts(crc, ops, cut, n);
      assert file[|whole|..] == Frame(crc, ops[n])[..cut - |whole|];
      ReadFrameTorn(crc, file, |whole|, ops[n]);
    } else {
      assert ops[..n] == ops && file == whole;
      ReadAtEnd(crc, file, ops[..n]);
    }
    assert Holds(file, 0, whole);
    ReadLogBack(crc, file, 0, ops[..n], []);
    assert [] + ops[..n] == ops[..n];
  }

  lemma LogOne(crc: Checksum, op: Op)
    ensures Log(crc, [op]) == Frame(crc, op)
  {
    hide Frame;
    assert Log(crc, [op]) == Frame(crc, op) + Log(crc, [op][1..]);
    assert [op][1..] == [];
  }

  /** Appending an operation to an intact log adds it to the replay. */
  lemma AppendIsReplayed(crc: Checksum, ops: seq<Op>, op: Op)
    requires AllFit(ops) && FitsFrame(op)
    ensures Log(crc, ops) + Frame(crc, op) == Log(crc, ops + [op])
    ensures ReadFrom(crc, Log(crc, ops) + Frame(crc, op), 0, []) == Ok(ops + [op])
  {
    hide Frame, ReadFrame, FitsFrame;
    LogConcat(crc, ops, [op]);
    LogOne(crc, op);
    var all := ops + [op];
    assert all[..|all|] == all;
    assert Log(crc, all)[..|Log(crc, all)|] == Log(crc, all);
    CutAnywhere(crc, all, |Log(crc, all)|, |all|);
  }

  /** A tail is read with the log before it already replayed. */
  lemma ReadUpTo(crc: Checksum, ops: seq<Op>, tail: seq<byte>)
    requires AllFit(ops)
    ensures ReadFrom(crc, Log(crc, ops) + tail, 0, []) == ReadFrom(crc, Log(crc, ops) + tail, |Log(crc, ops)|, ops)
  {
    hide Log, ReadFrom;
    HoldsSelf(Log(crc, ops) + tail);
    HoldsSplit(Log(crc, ops) + tail, 0, Log(crc, ops), tail);
    ReadLogBack(crc, Log(crc, ops) + tail, 0, ops, []);
    assert [] + ops == ops;
  }

  /** The frame read at `at`, if there is one, is the record in its payload. */
  lemma FrameRead(crc: Checksum, file: seq<byte>, at: nat, length: nat)
    requires CRC_SIZE <= length < U32 && Holds(file, at, LE(length, 4)) && at + 4 + length <= |file|
    ensures var payload := file[at + 8..at + 4 + length];
            && (crc(payload) != FromLE(file[at + 4..at + 8]) ==> ReadFrame(crc, file, at) == Err(BadChecksum))
            && (ReadFrame(crc, file, at).Ok? ==>
                  && ParseRecord(payload).Ok?
                  && ReadFrame(crc, file, at) == Ok(Some((ParseRecord(payload).value, at + 4 + length))))
  {
    hide LE, FromLE, ParseRecord;
    RoundTrip32(length);
  }

  /** A length that does not even cover the checksum ends the log: nothing after it
      is looked at. */
  lemma TooShortEndsTheLog(crc: Checksum, ops: seq<Op>, length: nat, rest: seq<byte>)
    requires AllFit(ops) && length < 4
    ensures ReadFrom(crc, Log(crc, ops) + (LE(length, 4) + rest), 0, []) == Ok(ops)
  {
    hide LE, FromLE, ParseRecord, Log;
    var whole, tail := Log(crc, ops), LE(length, 4) + rest;
    HoldsSelf(whole + tail);
    HoldsSplit(whole + tail, 0, whole, tail);
    HoldsSplit(whole + tail, |whole|, LE(length, 4), rest);
    RoundTrip32(length);
    ReadUpTo(crc, ops, tail);
  }

  /** A complete frame whose checksum does not match is an error, not an end. */
  lemma CorruptFrameIsAnError(crc: Checksum, ops: seq<Op>, payload: seq<byte>, sum: nat, rest: seq<byte>)
    requires AllFit(ops) && CRC_SIZE + |payload| < U32 && sum < U32 && sum != crc(payload)
    ensures ReadFrom(crc, Log(crc, ops) + (LE(CRC_SIZE + |payload|, 4) + LE(sum, 4) + payload + rest), 0, [])
            == Err(BadChecksum)
  {
    hide LE, FromLE, ParseRecord, Log, ReadFrame;
    var whole, length, check := Log(crc, ops), LE(CRC_SIZE + |payload|, 4), LE(sum, 4);
    var bad := length + check + payload + rest;
    var file := whole + bad;
    HoldsSelf(file);
    HoldsSplit(file, 0, whole, bad);
    HoldsSplit(file, |whole|, length + check + payload, rest);
    HoldsSplit(file, |whole|, length + check, payload);
    HoldsSplit(file, |whole|, length, check);
    RoundTrip32(sum);
    FrameRead(crc, file, |whole|, CRC_SIZE + |payload|);
    ReadUpTo(crc, ops, bad);
  }
}
