/** Point lookup in a table file, and its record iterator. */
module TableGet {
  import opened Bytes
  import opened Tables
  import opened Hash
  import opened Bloom
  import opened TableFile
  import opened TableRead

  /* ---- One record ---- */

  datatype RawRecord = RawRecord(key: seq<byte>, value: seq<byte>, opType: byte)

  /** The next record, and the position after it. */
  function ReadRaw(buf: seq<byte>, at: nat): (r: Result<(RawRecord, nat)>)
    ensures r.Ok? ==> at < r.value.1 == at + 9 + |r.value.0.key| + |r.value.0.value| <= |buf|
  {
    match ReadPrefixed(buf, at)
    case Err(e) => Err(e)
    case Ok((key, afterKey)) =>
      match ReadPrefixed(buf, afterKey)
      case Err(e) => Err(e)
      case Ok((value, afterValue)) =>
        match Take(buf, afterValue, 1)
        case Err(e) => Err(e)
        case Ok(op) => Ok((RawRecord(key, value, op[0]), afterValue + 1))
  }

  function Decode(raw: RawRecord): Result<Option<Value>> {
    if raw.opType == 0 then Ok(Some(raw.value))
    else if raw.opType == 1 then Ok(None)
    else Err(BadOp)
  }

  function Raw(e: Entry): RawRecord {
    RawRecord(e.key, ValueBytes(e.value), OpType(e.value))
  }

  lemma ReadRawBack(buf: seq<byte>, at: nat, e: Entry)
    requires |e.key| < U32 && |ValueBytes(e.value)| < U32 && Holds(buf, at, Record(e))
    ensures ReadRaw(buf, at) == Ok((Raw(e), at + |Record(e)|)) && Decode(Raw(e)) == Ok(e.value)
  {
    hide Prefixed, ReadPrefixed;
    var k, v := Prefixed(e.key), Prefixed(ValueBytes(e.value));
    HoldsSplit(buf, at, k + v, [OpType(e.value)]);
    HoldsSplit(buf, at, k, v);
    ReadPrefixedBack(buf, at, e.key);
    ReadPrefixedBack(buf, at + |k|, ValueBytes(e.value));
  }

  /* ---- Blocks ---- */

  function BlockEnd(table: SSTable, block: nat): nat
    requires block < |table.index|
  {
    if block + 1 < |table.index| then table.index[block + 1].offset else table.indexStart
  }

  /** The bytes of a block. Offsets that go backwards make the code underflow. */
  function LoadBlock(table: SSTable, block: nat): Result<seq<byte>>
    requires block < |table.index|
  {
    var start, end := table.index[block].offset, BlockEnd(table, block);
    if end < start then Err(Panic) else Take(table.file, start, end - start)
  }

  /** The entries of a block. */
  function BlockEntries(entries: seq<Entry>, block: nat): (es: seq<Entry>)
    requires block < |BlockStarts(entries)|
    ensures es != []
  {
    var starts := BlockStarts(entries);
    entries[starts[block]..if block + 1 < |starts| then starts[block + 1] else |entries|]
  }

  /** `table` is an open table for a file that holds `entries`. */
  ghost predicate FileOf(table: SSTable, entries: seq<Entry>) {
    table == TableWith(entries, table.span, table.filter) && FitsFormat(entries, table.filter)
  }

  /** Where in the data a slice of the entries is. */
  lemma DataSlice(file: seq<byte>, entries: seq<Entry>, from: nat, to: nat)
    requires from <= to <= |entries| && Holds(file, 0, Data(entries))
    ensures |Data(entries[..to])| == |Data(entries[..from])| + |Data(entries[from..to])|
    ensures Holds(file, |Data(entries[..from])|, Data(entries[from..to]))
  {
    hide Data;
    var a, b, c := entries[..from], entries[from..to], entries[to..];
    assert entries == entries[..to] + c && entries[..to] == a + b;
    DataConcat(entries[..to], c);
    DataConcat(a, b);
    HoldsSplit(file, 0, Data(entries[..to]), Data(c));
    HoldsSplit(file, 0, Data(a), Data(b));
  }

  lemma LoadBlockBack(table: SSTable, entries: seq<Entry>, block: nat)
    requires FileOf(table, entries) && block < |BlockStarts(entries)|
    ensures block < |table.index|
    ensures LoadBlock(table, block) == Ok(Data(BlockEntries(entries, block)))
  {
    hide Data, BlockStarts, FileBytes, FitsFormat, IndexBytes, FilterBytes, MetaBytes, Trailer, MetaStart, FilterStart;
    var starts := BlockStarts(entries);
    var to := if block + 1 < |starts| then starts[block + 1] else |entries|;
    FileParts(entries, table.filter);
    DataSlice(table.file, entries, starts[block], to);
    assert to == |entries| ==> entries[..to] == entries;
  }

  /* ---- Searching ---- */

  /** `partition_point` for "key not after `key`", by binary search. */
  function Partition(index: seq<IndexEntry>, key: Key, lo: nat, hi: nat): (p: nat)
    requires lo <= hi <= |index|
    ensures lo <= p <= hi
    decreases hi - lo
  {
    if lo == hi then lo
    else
      var mid := (lo + hi) / 2;
      if UpTo(index[mid].key, key) then Partition(index, key, mid + 1, hi) else Partition(index, key, lo, mid)
  }

  ghost predicate SortedIndex(index: seq<IndexEntry>) {
    forall i, j :: 0 <= i < j < |index| ==> Less(index[i].key, index[j].key)
  }

  lemma UpToChain(a: Key, b: Key, c: Key)
    requires Less(a, b) && UpTo(b, c)
    ensures UpTo(a, c)
  {
    if b != c { LessTransitive(a, b, c); }
  }

  lemma NotUpToChain(a: Key, b: Key, c: Key)
    requires !UpTo(a, c) && Less(a, b)
    ensures !UpTo(b, c)
  {
    if UpTo(b, c) { UpToChain(a, b, c); }
  }

  lemma {:induction false} PartitionSplits(index: seq<IndexEntry>, key: Key, lo: nat, hi: nat)
    requires SortedIndex(index) && lo <= hi <= |index|
    requires forall i :: 0 <= i < lo ==> UpTo(index[i].key, key)
    requires forall i :: hi <= i < |index| ==> !UpTo(index[i].key, key)
    ensures var p := Partition(index, key, lo, hi);
            && (forall i :: 0 <= i < p ==> UpTo(index[i].key, key))
            && (forall i :: p <= i < |index| ==> !UpTo(index[i].key, key))
    decreases hi - lo
  {
    hide UpTo, Less;
    if lo < hi {
      var mid := (lo + hi) / 2;
      if UpTo(index[mid].key, key) {
        forall i | 0 <= i < mid ensures UpTo(index[i].key, key) {
          UpToChain(index[i].key, index[mid].key, key);
        }
        PartitionSplits(index, key, mid + 1, hi);
      } else {
        forall i | mid < i < |index| ensures !UpTo(index[i].key, key) {
          NotUpToChain(index[mid].key, index[i].key, key);
        }
        PartitionSplits(index, key, lo, mid);
      }
    }
  }

  /** The scan of one block, which stops early at a larger key. */
  function ScanBlock(buf: seq<byte>, at: nat, key: Key): Result<Found>
    decreases |buf| - at
  {
    if at >= |buf| then Ok(None)
    else
      match ReadRaw(buf, at)
      case Err(e) => Err(e)
      case Ok((raw, next)) =>
        if Less(raw.key, key) then ScanBlock(buf, next, key)
        else if raw.key != key then Ok(None)
        else
          match Decode(raw)
          case Err(e) => Err(e)
          case Ok(value) => Ok(Some(value))
  }

  /** A record of the key with an operation byte other than 0 and 1 is refused. */
  lemma RefusedOperation(key: Key, value: Value, operation: byte, rest: seq<byte>)
    requires |key| < U32 && |value| < U32 && operation > 1
    ensures ScanBlock(Prefixed(key) + Prefixed(value) + [operation] + rest, 0, key) == Err(BadOp)
  {
    hide Prefixed, ReadPrefixed, Less;
    var record := Prefixed(key) + Prefixed(value) + [operation];
    var buf := record + rest;
    HoldsSelf(buf);
    HoldsSplit(buf, 0, record, rest);
    HoldsSplit(buf, 0, Prefixed(key) + Prefixed(value), [operation]);
    HoldsSplit(buf, 0, Prefixed(key), Prefixed(value));
    ReadPrefixedBack(buf, 0, key);
    ReadPrefixedBack(buf, |Prefixed(key)|, value);
    if Less(key, key) { LessAsymmetric(key, key); }
  }

  /** `SSTable::get`. */
  function GetFrom(table: SSTable, key: Key, hash: bv64): Result<Found> {
    if Less(key, table.minKey) || Less(table.maxKey, key) then Ok(None)
    else
      match Test(table.filter, hash, 0)
      case Err(e) => Err(e)
      case Ok(possible) => if possible then SearchBlock(table, key) else Ok(None)
  }

  /** Looking in the block that the sparse index selects. */
  function SearchBlock(table: SSTable, key: Key): Result<Found> {
    var candidate := Partition(table.index, key, 0, |table.index|);
    if candidate == 0 then Ok(None)
    else
      match LoadBlock(table, candidate - 1)
      case Err(e) => Err(e)
      case Ok(buf) => ScanBlock(buf, 0, key)
  }

  method Get(table: SSTable, key: Key, hash: bv64) returns (r: Result<Found>)
    ensures r == GetFrom(table, key, hash)
  {
    hide Less, Test, Partition, LoadBlock, ReadRaw;
    if Less(key, table.minKey) || Less(table.maxKey, key) { return Ok(None); }
    var possible := Test(table.filter, hash, 0);
    if possible.Err? { return Err(possible.error); }
    if !possible.value { return Ok(None); }
    var candidate := Partition(table.index, key, 0, |table.index|);
    if candidate == 0 { return Ok(None); }
    var block := LoadBlock(table, candidate - 1);
    if block.Err? { return Err(block.error); }
    var buf := block.value;
    var pos := 0;
    while pos < |buf|
      invariant ScanBlock(buf, 0, key) == ScanBlock(buf, pos, key)
      decreases |buf| - pos
    {
      var record := ReadRaw(buf, pos);
      if record.Err? { return Err(record.error); }
      var (raw, next) := record.value;
      pos := pos + (9 + |raw.key| + |raw.value|);
      if Less(raw.key, key) { continue; }
      if raw.key != key { break; }
      var value := Decode(raw);
      return if value.Err? then Err(value.error) else Ok(Some(value.value));
    }
    return Ok(None);
  }

  /* ---- The lookup is right ---- */

  lemma NotFoundBefore(entries: seq<Entry>, key: Key)
    requires forall i :: 0 <= i < |entries| ==> entries[i].key != key
    ensures Find(entries, key) == None
  {
    FindSome(entries, key);
  }

  lemma {:induction false} ScanBlockBack(buf: seq<byte>, at: nat, es: seq<Entry>, key: Key)
    requires Sorted(es) && Holds(buf, at, Data(es)) && at + |Data(es)| == |buf|
    requires forall i :: 0 <= i < |es| ==> |es[i].key| < U32 && |ValueBytes(es[i].value)| < U32
    ensures ScanBlock(buf, at, key) == Ok(Find(es, key))
    decreases |es|
  {
    hide Record, Less, ReadRaw, Decode, ValueBytes;
    if es != [] {
      HoldsSplit(buf, at, Record(es[0]), Data(es[1..]));
      ReadRawBack(buf, at, es[0]);
      if Less(es[0].key, key) {
        LessAsymmetric(es[0].key, key);
        ScanBlockBack(buf, at + |Record(es[0])|, es[1..], key);
      } else if es[0].key != key {
        LessTotal(es[0].key, key);
        forall i | 0 <= i < |es| ensures es[i].key != key {
          if i > 0 { LessAsymmetric(key, es[0].key); LessAsymmetric(es[0].key, es[i].key); }
        }
        NotFoundBefore(es, key);
      }
    }
  }

  /** The filter of a table knows every key of the table. */
  ghost predicate KnowsKeys(f: Filter, entries: seq<Entry>) {
    Usable(f) && forall i :: 0 <= i < |entries| ==> Contains(f, Hash64(entries[i].key))
  }

  lemma FilterForKnowsKeys(entries: seq<Entry>, bitsPerKey: nat, numProbes: nat)
    ensures KnowsKeys(FilterFor(entries, bitsPerKey, numProbes), entries)
  {
    hide Contains, Insert, Hash64;
    forall i | 0 <= i < |entries|
      ensures Contains(FilterFor(entries, bitsPerKey, numProbes), Hash64(entries[i].key))
    {
      NoFalseNegatives(Fresh(|entries|, bitsPerKey, numProbes), Hashes(entries), i);
    }
  }

  /** Keys outside the range of a table are not in it. */
  lemma OutsideRange(entries: seq<Entry>, key: Key)
    requires Sorted(entries)
    requires Less(key, MinKey(entries)) || Less(MaxKey(entries), key)
    ensures Find(entries, key) == None
  {
    hide Less;
    forall i | 0 <= i < |entries| ensures entries[i].key != key {
      if entries[i].key == key {
        if Less(key, MinKey(entries)) {
          LessAsymmetric(key, MinKey(entries));
        } else {
          LessAsymmetric(MaxKey(entries), key);
        }
      }
    }
    NotFoundBefore(entries, key);
  }

  lemma UnknownToFilter(f: Filter, entries: seq<Entry>, key: Key)
    requires KnowsKeys(f, entries) && !Contains(f, Hash64(key))
    ensures Find(entries, key) == None
  {
    hide Contains, Hash64;
    NotFoundBefore(entries, key);
  }

  lemma IndexSorted(entries: seq<Entry>)
    requires Sorted(entries)
    ensures SortedIndex(IndexOf(entries))
  {
    hide Less, BlockFull;
  }

  /** A key can only be in the block whose first key is the last one up to it. */
  lemma OnlyInBlock(entries: seq<Entry>, key: Key, from: nat, to: nat)
    requires Sorted(entries) && from < to <= |entries|
    requires UpTo(entries[from].key, key)
    requires to < |entries| ==> !UpTo(entries[to].key, key)
    ensures Find(entries, key) == Find(entries[from..to], key)
  {
    hide Less;
    forall i | 0 <= i < from ensures entries[i].key != key {
      LessAsymmetric(entries[i].key, entries[from].key);
    }
    forall i | to <= i < |entries| ensures entries[i].key != key {
      LessTotal(entries[to].key, key);
      LessAsymmetric(key, entries[to].key);
    }
    var a, b, c := entries[..from], entries[from..to], entries[to..];
    assert entries == a + b + c;
    NotFoundBefore(a, key);
    NotFoundBefore(c, key);
    FindConcat(a + b, c, key);
    FindConcat(a, b, key);
  }

  lemma BeforeFirstBlock(entries: seq<Entry>, key: Key)
    requires Sorted(entries) && !Less(key, MinKey(entries))
    requires IndexOf(entries) != [] ==> !UpTo(IndexOf(entries)[0].key, key)
    ensures Find(entries, key) == None
  {
    hide Less;
    assert entries != [] ==> IndexOf(entries)[0].key == entries[0].key;
    LessTotal(MinKey(entries), key);
  }

  /** Point lookup in the bytes of a table file gives exactly the value, the
      tombstone or the absence that a look through the entries gives. */
  lemma GetIsFind(table: SSTable, entries: seq<Entry>, key: Key)
    requires FileOf(table, entries) && Sorted(entries) && KnowsKeys(table.filter, entries)
    ensures GetFrom(table, key, Hash64(key)) == Ok(Find(entries, key))
  {
    hide Less, Hash64, Contains, Test, BlockStarts, Data, FileBytes, LoadBlock, ScanBlock, Partition;
    hide KnowsKeys, FitsFormat;
    assert Usable(table.filter) by { assert KnowsKeys(table.filter, entries); UsableFilter(table.filter, entries); }
    TestIsContains(table.filter, Hash64(key), 0);
    if Less(key, table.minKey) || Less(table.maxKey, key) {
      OutsideRange(entries, key);
    } else if !Contains(table.filter, Hash64(key)) {
      UnknownToFilter(table.filter, entries, key);
    } else {
      IndexSorted(entries);
      PartitionSplits(table.index, key, 0, |table.index|);
      var candidate := Partition(table.index, key, 0, |table.index|);
      if candidate == 0 {
        BeforeFirstBlock(entries, key);
      } else {
        ScanCandidate(table, entries, key, candidate - 1);
      }
    }
  }

  lemma UsableFilter(f: Filter, entries: seq<Entry>)
    requires KnowsKeys(f, entries)
    ensures Usable(f)
  {
  }

  lemma ScanCandidate(table: SSTable, entries: seq<Entry>, key: Key, block: nat)
    requires FileOf(table, entries) && Sorted(entries) && block < |table.index|
    requires UpTo(table.index[block].key, key)
    requires block + 1 < |table.index| ==> !UpTo(table.index[block + 1].key, key)
    ensures LoadBlock(table, block).Ok?
    ensures ScanBlock(LoadBlock(table, block).value, 0, key) == Ok(Find(entries, key))
  {
    hide Less, UpTo, BlockStarts, Data, FileBytes, LoadBlock, ScanBlock;
    var starts := BlockStarts(entries);
    var es := BlockEntries(entries, block);
    LoadBlockBack(table, entries, block);
    HoldsSelf(Data(es));
    ScanBlockBack(Data(es), 0, es, key);
    OnlyInBlock(entries, key, starts[block], if block + 1 < |starts| then starts[block + 1] else |entries|);
  }
}
