/** What happens to operations appended after a torn frame. Opening a log leaves
    the torn bytes in the file, and later frames are appended behind them. */
module TornTail {
  import opened Bytes
  import opened Tables
  import opened Store
  import opened TableFile
  import opened TableRead
  import opened Wal

  /** The log for `ops`, the first `kept` bytes of a frame for `torn`, and the
      frames appended after reopening. */
  function TornLog(crc: Checksum, ops: seq<Op>, torn: Op, kept: nat, later: seq<Op>): seq<byte>
    requires kept <= |Frame(crc, torn)|
  {
    Log(crc, ops) + (Frame(crc, torn)[..kept] + Log(crc, later))
  }

  ghost predicate ReplaysAll(crc: Checksum, ops: seq<Op>, torn: Op, kept: nat, later: seq<Op>)
    requires kept <= |Frame(crc, torn)|
  {
    ReadFrom(crc, TornLog(crc, ops, torn, kept, later), 0, []) == Ok(ops + later)
  }

  /* ---- Reading up to the tail, and past its first frame ---- */

  lemma {:induction false} ReadsExtend(crc: Checksum, file: seq<byte>, at: nat, records: seq<Op>)
    requires ReadFrom(crc, file, at, records).Ok?
    ensures records <= ReadFrom(crc, file, at, records).value
    decreases |file| - at
  {
    hide ReadFrame;
    var frame := ReadFrame(crc, file, at);
    if frame.value.Some? {
      ReadsExtend(crc, file, frame.value.value.1, records + [frame.value.value.0]);
    }
  }

  /** The first frame of the tail is not a whole frame for an `op`. */
  ghost predicate ReadsOther(crc: Checksum, file: seq<byte>, at: nat, op: Op) {
    var frame := ReadFrame(crc, file, at);
    frame.Ok? && frame.value.Some? ==> frame.value.value.0 != op
  }

  lemma NotReplayed(crc: Checksum, ops: seq<Op>, tail: seq<byte>, op: Op)
    requires AllFit(ops) && ReadsOther(crc, Log(crc, ops) + tail, |Log(crc, ops)|, op)
    ensures ReadFrom(crc, Log(crc, ops) + tail, 0, []) != Ok(ops + [op])
  {
    hide Log, ReadFrame;
    var file, at := Log(crc, ops) + tail, |Log(crc, ops)|;
    ReadUpTo(crc, ops, tail);
    var frame := ReadFrame(crc, file, at);
    if frame.Ok? && frame.value.Some? {
      var (first, next) := frame.value.value;
      if ReadFrom(crc, file, next, ops + [first]).Ok? {
        ReadsExtend(crc, file, next, ops + [first]);
        assert (ops + [first])[|ops|] == first && (ops + [op])[|ops|] == op;
      }
    }
  }

  /* ---- Fewer than four bytes kept: the length is made of two ---- */

  lemma {:induction false} FromLEAtLeast(b: seq<byte>, i: nat)
    requires i < |b|
    ensures var x: int := b[i]; FromLE(b) >= if i == 0 then x else 256 * x
  {
    if i > 0 { FromLEAtLeast(b[1..], i - 1); }
  }

  const SHORTEST := Delete([])

  lemma ShortestFits()
    ensures FitsFrame(SHORTEST) && AllFit([SHORTEST])
  {
  }

  lemma ShortestFrame(crc: Checksum)
    ensures |Frame(crc, SHORTEST)| == 17 && Frame(crc, SHORTEST)[0] == 13
  {
    assert |Payload(SHORTEST)| == 9;
    assert LE(CRC_SIZE + |Payload(SHORTEST)|, 4)[0] == 13;
  }

  lemma MixedLength(crc: Checksum, whole: seq<byte>, piece: seq<byte>)
    requires 1 <= |piece| < 4
    ensures ReadsOther(crc, whole + (piece + Frame(crc, SHORTEST)), |whole|, SHORTEST)
  {
    hide FromLE, ParseRecord, Frame;
    ShortestFrame(crc);
    var tail := piece + Frame(crc, SHORTEST);
    var file := whole + tail;
    var length := file[|whole|..|whole| + 4];
    assert length[|piece|] == tail[|piece|] == 13;
    FromLEAtLeast(length, |piece|);
  }

  /* ---- Four or more: the length is the torn frame's ---- */

  /** A tail that is shorter than the torn frame was to be. */
  lemma StillShort(crc: Checksum, whole: seq<byte>, torn: Op, kept: nat, more: seq<byte>)
    requires FitsFrame(torn) && 4 <= kept <= |Frame(crc, torn)| && kept + |more| < |Frame(crc, torn)|
    ensures ReadFrame(crc, whole + (Frame(crc, torn)[..kept] + more), |whole|) == Ok(None)
  {
    hide LE, FromLE, Payload, ReadFrame;
    var tail := Frame(crc, torn)[..kept] + more;
    var file := whole + tail;
    var length := CRC_SIZE + |Payload(torn)|;
    assert tail == LE(length, 4) + tail[4..];
    HoldsSelf(file);
    HoldsSplit(file, 0, whole, tail);
    HoldsSplit(file, |whole|, LE(length, 4), tail[4..]);
    ReadFrameShort(crc, file, |whole|, length);
  }

  /** A record's key has the length its first four bytes say, and fits. */
  lemma ParsedKey(payload: seq<byte>)
    requires ParseRecord(payload).Ok?
    ensures |payload| >= 9 + |ParseRecord(payload).value.key|
    ensures |ParseRecord(payload).value.key| == FromLE(payload[..4])
  {
    hide FromLE;
    assert payload[0..4] == payload[..4];
  }

  /** A tail as long as the torn frame or longer: the record read is made of the
      torn frame and of what came after, its key length from bytes 8 to 12. */
  lemma MixedRecord(crc: Checksum, whole: seq<byte>, torn: Op, kept: nat, more: seq<byte>)
    requires FitsFrame(torn) && 4 <= kept < |Frame(crc, torn)| <= kept + |more|
    ensures var tail := Frame(crc, torn)[..kept] + more;
            var payload := tail[8..|Frame(crc, torn)|];
            var frame := ReadFrame(crc, whole + tail, |whole|);
            && (crc(payload) != FromLE(tail[4..8]) ==> frame == Err(BadChecksum))
            && (frame.Ok? ==> frame.value.Some? && |frame.value.value.0.key| == FromLE(tail[8..12])
                              && |frame.value.value.0.key| + 17 <= |Frame(crc, torn)|)
  {
    hide LE, FromLE, Payload, ReadFrame, ParseRecord;
    var tail := Frame(crc, torn)[..kept] + more;
    var file := whole + tail;
    var length := CRC_SIZE + |Payload(torn)|;
    assert tail == LE(length, 4) + tail[4..];
    HoldsSelf(file);
    HoldsSplit(file, 0, whole, tail);
    HoldsSplit(file, |whole|, LE(length, 4), tail[4..]);
    FrameRead(crc, file, |whole|, length);
    var payload := tail[8..|Frame(crc, torn)|];
    assert file[|whole| + 8..|whole| + 4 + length] == payload;
    assert file[|whole| + 4..|whole| + 8] == tail[4..8];
    if ReadFrame(crc, file, |whole|).Ok? {
      ParsedKey(payload);
      assert payload[..4] == tail[8..12];
    }
  }

  /** The first fields of a frame, when enough of it has been kept. */
  lemma FrameFields(crc: Checksum, torn: Op, kept: nat, more: seq<byte>)
    requires 8 <= kept <= |Frame(crc, torn)|
    ensures var tail := Frame(crc, torn)[..kept] + more;
            tail[4..8] == LE(crc(Payload(torn)), 4) && (kept >= 12 ==> tail[8..12] == LE(|torn.key|, 4))
  {
    hide LE, Prefixed;
    var tail, f := Frame(crc, torn)[..kept] + more, Frame(crc, torn);
    assert tail[4..8] == f[4..8] && (kept >= 12 ==> tail[8..12] == f[8..12]);
    assert f[8..] == Payload(torn);
    assert Payload(torn)[..4] == LE(|torn.key|, 4) by { PayloadStart(torn); }
    assert f[8..][..4] == f[8..12];
  }

  lemma PayloadStart(op: Op)
    ensures Payload(op)[..4] == LE(|op.key|, 4)
  {
    hide LE;
    assert Payload(op) == LE(|op.key|, 4) + (op.key + Prefixed(ValueOf(op)) + [OperationByte(op)]);
  }

  lemma KeptKeyLength(crc: Checksum, torn: Op, kept: nat, more: seq<byte>)
    requires FitsFrame(torn) && 12 <= kept <= |Frame(crc, torn)|
    ensures FromLE((Frame(crc, torn)[..kept] + more)[8..12]) == |torn.key|
  {
    hide LE, FromLE, Frame;
    RoundTrip32(|torn.key|);
    FrameFields(crc, torn, kept, more);
  }

  /* ---- Exactly when appends are replayed ---- */

  function Zeros12(): (key: Key)
    ensures |key| == 12
  {
    seq(12, _ => 0)
  }

  /** An operation that is not replayed after a torn frame for `torn`. */
  function Victim(torn: Op, kept: nat): (op: Op)
    ensures FitsFrame(op)
  {
    if kept < 4 || kept < |KeyOf(torn)| + |ValueOf(torn)| || (kept >= 12 && |torn.key| == 12) then SHORTEST
    else Delete(Zeros12())
  }

  lemma VictimNotRead(crc: Checksum, whole: seq<byte>, torn: Op, kept: nat)
    requires FitsFrame(torn) && 1 <= kept < |Frame(crc, torn)|
    ensures ReadsOther(crc, whole + (Frame(crc, torn)[..kept] + Frame(crc, Victim(torn, kept))), |whole|,
                       Victim(torn, kept))
  {
    hide Frame, ReadFrame, FromLE, Payload;
    var op := Victim(torn, kept);
    var more := Frame(crc, op);
    ShortestFrame(crc);
    if kept < 4 {
      MixedLength(crc, whole, Frame(crc, torn)[..kept]);
    } else if kept + |more| < |Frame(crc, torn)| {
      StillShort(crc, whole, torn, kept, more);
    } else {
      MixedRecord(crc, whole, torn, kept, more);
      if kept >= 12 { KeptKeyLength(crc, torn, kept, more); }
    }
  }

  /** Operations appended after reopening are all replayed, whatever they are,
      exactly when the torn append left nothing in the file. */
  lemma ReplaysAllExactly(crc: Checksum, ops: seq<Op>, torn: Op, kept: nat)
    requires AllFit(ops) && FitsFrame(torn) && kept < |Frame(crc, torn)|
    ensures kept == 0 <==> forall later :: AllFit(later) ==> ReplaysAll(crc, ops, torn, kept, later)
  {
    hide Frame, Log, ReadFrom, FitsFrame;
    if kept == 0 {
      forall later | AllFit(later) ensures ReplaysAll(crc, ops, torn, kept, later) {
        assert Frame(crc, torn)[..0] + Log(crc, later) == Log(crc, later);
        WholeLogIsReplayed(crc, ops, later);
      }
    } else {
      var op := Victim(torn, kept);
      VictimNotRead(crc, Log(crc, ops), torn, kept);
      LogOne(crc, op);
      NotReplayed(crc, ops, Frame(crc, torn)[..kept] + Frame(crc, op), op);
      assert AllFit([op]) && !ReplaysAll(crc, ops, torn, kept, [op]);
    }
  }

  lemma WholeLogIsReplayed(crc: Checksum, ops: seq<Op>, later: seq<Op>)
    requires AllFit(ops) && AllFit(later)
    ensures ReadFrom(crc, Log(crc, ops) + Log(crc, later), 0, []) == Ok(ops + later)
  {
    hide Log, FitsFrame;
    var all := ops + later;
    LogConcat(crc, ops, later);
    assert all[..|all|] == all && Log(crc, all)[..|Log(crc, all)|] == Log(crc, all);
    CutAnywhere(crc, all, |Log(crc, all)|, |all|);
  }

  /* ---- What is read instead ---- */

  /** Once the torn frame's length is in the file, nothing appended is replayed
      until the file has grown to where the torn frame would have ended. */
  lemma AppendsAfterTornTailAreLost(crc: Checksum, ops: seq<Op>, torn: Op, kept: nat, later: seq<Op>)
    requires AllFit(ops) && FitsFrame(torn)
    requires 4 <= kept <= |Frame(crc, torn)| && kept + |Log(crc, later)| < |Frame(crc, torn)|
    ensures ReadFrom(crc, TornLog(crc, ops, torn, kept, later), 0, []) == Ok(ops)
  {
    hide Log, Frame, ReadFrame;
    StillShort(crc, Log(crc, ops), torn, kept, Log(crc, later));
    ReadUpTo(crc, ops, Frame(crc, torn)[..kept] + Log(crc, later));
  }

  /** Once it has grown that far, with the torn frame's checksum in the file, the
      whole log is unreadable, unless the payload mixed from the torn frame and
      the later ones has the torn payload's checksum. */
  lemma GrownPastTornTail(crc: Checksum, ops: seq<Op>, torn: Op, kept: nat, later: seq<Op>)
    requires AllFit(ops) && FitsFrame(torn)
    requires 8 <= kept < |Frame(crc, torn)| <= kept + |Log(crc, later)|
    requires crc((Frame(crc, torn)[..kept] + Log(crc, later))[8..|Frame(crc, torn)|]) != crc(Payload(torn))
    ensures ReadFrom(crc, TornLog(crc, ops, torn, kept, later), 0, []) == Err(BadChecksum)
  {
    hide Log, Frame, ReadFrame, FromLE;
    var tail := Frame(crc, torn)[..kept] + Log(crc, later);
    MixedRecord(crc, Log(crc, ops), torn, kept, Log(crc, later));
    KeptChecksum(crc, torn, kept, Log(crc, later));
    ReadUpTo(crc, ops, tail);
  }

  lemma KeptChecksum(crc: Checksum, torn: Op, kept: nat, more: seq<byte>)
    requires 8 <= kept <= |Frame(crc, torn)|
    ensures FromLE((Frame(crc, torn)[..kept] + more)[4..8]) == crc(Payload(torn))
  {
    hide LE, FromLE, Frame, Payload;
    RoundTrip32(crc(Payload(torn)));
    FrameFields(crc, torn, kept, more);
  }

  /* ---- At concrete operations ---- */

  /** One stray byte is enough: the next delete is acknowledged and not replayed. */
  lemma OneByteLosesADelete(crc: Checksum)
    ensures ReadFrom(crc, TornLog(crc, [], SHORTEST, 1, [SHORTEST]), 0, []) != Ok([SHORTEST])
  {
    hide ReadFrom;
    ShortestFits();
    VictimNotRead(crc, [], SHORTEST, 1);
    LogOne(crc, SHORTEST);
    NotReplayed(crc, [], Frame(crc, SHORTEST)[..1] + Frame(crc, SHORTEST), SHORTEST);
    var none: seq<Op> := [];
    assert none + [SHORTEST] == [SHORTEST];
  }

  /** A delete cut one byte short, followed by a whole one, takes every earlier
      operation with it: the log can no longer be read at all. The two payloads
      differ in their last byte only, which CRC-32 always tells apart. */
  lemma OneDeleteSpoilsTheLog(crc: Checksum, ops: seq<Op>)
    requires AllFit(ops)
    requires crc([0, 0, 0, 0, 0, 0, 0, 0, 13]) != crc([0, 0, 0, 0, 0, 0, 0, 0, 1])
    ensures ReadFrom(crc, TornLog(crc, ops, SHORTEST, 16, [SHORTEST]), 0, []) == Err(BadChecksum)
  {
    hide ReadFrom, Frame, Log;
    ShortestFits();
    ShortestFrame(crc);
    LogOne(crc, SHORTEST);
    ShortestPayload(crc);
    var f := Frame(crc, SHORTEST);
    assert (f[..16] + f)[8..17] == f[8..16] + [13] == [0, 0, 0, 0, 0, 0, 0, 0, 13];
    GrownPastTornTail(crc, ops, SHORTEST, 16, [SHORTEST]);
  }

  lemma ShortestPayload(crc: Checksum)
    ensures Payload(SHORTEST) == [0, 0, 0, 0, 0, 0, 0, 0, 1]
    ensures Frame(crc, SHORTEST)[8..16] == [0, 0, 0, 0, 0, 0, 0, 0]
  {
    assert LE(0, 1) == [0] && LE(0, 2) == [0, 0] && LE(0, 3) == [0, 0, 0] && LE(0, 4) == [0, 0, 0, 0];
    assert Frame(crc, SHORTEST)[8..] == Payload(SHORTEST);
  }
}
