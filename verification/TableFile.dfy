/** The table file format: data blocks, sparse index, bloom filter, metadata and
    trailer, as written by `write_table` and read back by `open`, `get` and the
    record iterator. */
module TableFile {
  import opened Bytes
  import opened Tables
  import opened Hash
  import opened Bloom

  const BLOCK_SIZE := 4096
  const TRAILER_SIZE := 32
  const MAGIC: seq<byte> := [0x4c, 0x53, 0x4d, 0x52, 0x53, 0]
  const FORMAT_VERSION: byte := 1

  datatype IndexEntry = IndexEntry(key: Key, offset: nat)

  datatype SSTable = SSTable(
    file: seq<byte>, span: Span, index: seq<IndexEntry>, indexStart: nat,
    minKey: Key, maxKey: Key, filter: Filter)

  /* ---- What is written ---- */

  function Prefixed(bytes: seq<byte>): (r: seq<byte>)
    ensures |r| == 4 + |bytes|
  {
    LE(|bytes|, 4) + bytes
  }

  function ValueBytes(value: Option<Value>): seq<byte> {
    match value case Some(v) => v case None => []
  }

  function OpType(value: Option<Value>): byte {
    if value.Some? then 0 else 1
  }

  function Record(e: Entry): (r: seq<byte>)
    ensures |r| == 9 + |e.key| + |ValueBytes(e.value)|
  {
    Prefixed(e.key) + Prefixed(ValueBytes(e.value)) + [OpType(e.value)]
  }

  /** The bytes of a record, for a short key and value. */
  lemma SmallRecord(e: Entry)
    requires |e.key| < 256 && |ValueBytes(e.value)| < 256
    ensures Record(e) == [|e.key|, 0, 0, 0] + e.key
                         + (match e.value
                            case Some(v) => [|v|, 0, 0, 0] + v + [0]
                            case None => [0, 0, 0, 0, 1])
  {
    hide LE;
    SmallLE(|e.key|);
    SmallLE(|ValueBytes(e.value)|);
    if e.value.None? { assert [0, 0, 0, 0] + [] + [1] == [0, 0, 0, 0, 1]; }
  }

  function Data(entries: seq<Entry>): seq<byte> {
    if entries == [] then [] else Record(entries[0]) + Data(entries[1..])
  }

  /** Where each block starts: at the first entry, and at every entry that finds
      the block before it full. */
  function BlockStarts(entries: seq<Entry>): (starts: seq<nat>)
    ensures starts == [] <==> entries == []
    ensures forall j :: 0 <= j < |starts| ==> starts[j] < |entries|
    ensures forall i, j :: 0 <= i < j < |starts| ==> starts[i] < starts[j]
    ensures starts != [] ==> starts[0] == 0
  {
    if entries == [] then []
    else
      var front := entries[..|entries| - 1];
      var starts := BlockStarts(front);
      if BlockFull(front, starts) then starts + [|front|] else starts
  }

  predicate BlockFull(entries: seq<Entry>, starts: seq<nat>)
    requires forall j :: 0 <= j < |starts| ==> starts[j] < |entries|
  {
    starts == [] || |Data(entries[starts[|starts| - 1]..])| >= BLOCK_SIZE
  }

  function Index(entries: seq<Entry>, starts: seq<nat>): (index: seq<IndexEntry>)
    requires forall j :: 0 <= j < |starts| ==> starts[j] < |entries|
    ensures |index| == |starts|
    ensures forall j :: 0 <= j < |starts| ==>
              index[j] == IndexEntry(entries[starts[j]].key, |Data(entries[..starts[j]])|)
  {
    seq(|starts|, j requires 0 <= j < |starts| =>
          IndexEntry(entries[starts[j]].key, |Data(entries[..starts[j]])|))
  }

  function IndexBytes(index: seq<IndexEntry>): seq<byte> {
    if index == [] then []
    else Prefixed(index[0].key) + LE(index[0].offset, 8) + IndexBytes(index[1..])
  }

  function WordsBytes(words: seq<bv64>): (r: seq<byte>)
    ensures |r| == 8 * |words|
  {
    if words == [] then [] else LE(words[0] as int, 8) + WordsBytes(words[1..])
  }

  function FilterBytes(f: Filter): (r: seq<byte>)
    ensures |r| == 12 + 8 * |f.words|
  {
    LE(f.numBits, 8) + LE(f.numProbes, 4) + WordsBytes(f.words)
  }

  function MinKey(entries: seq<Entry>): Key {
    if entries == [] then [] else entries[0].key
  }

  function MaxKey(entries: seq<Entry>): Key {
    if entries == [] then [] else entries[|entries| - 1].key
  }

  function MetaBytes(entries: seq<Entry>): seq<byte> {
    Prefixed(MinKey(entries)) + Prefixed(MaxKey(entries))
  }

  function Trailer(indexStart: nat, filterStart: nat, metaStart: nat): (r: seq<byte>)
    ensures |r| == TRAILER_SIZE
  {
    LE(indexStart, 8) + LE(filterStart, 8) + LE(metaStart, 8) + MAGIC + [FORMAT_VERSION, 0]
  }

  function IndexOf(entries: seq<Entry>): seq<IndexEntry> {
    Index(entries, BlockStarts(entries))
  }

  function FilterStart(entries: seq<Entry>): nat {
    |Data(entries)| + |IndexBytes(IndexOf(entries))|
  }

  function MetaStart(entries: seq<Entry>, f: Filter): nat {
    FilterStart(entries) + |FilterBytes(f)|
  }

  /** A whole table file. */
  function FileBytes(entries: seq<Entry>, f: Filter): seq<byte> {
    Data(entries) + IndexBytes(IndexOf(entries)) + FilterBytes(f) + MetaBytes(entries)
    + Trailer(|Data(entries)|, FilterStart(entries), MetaStart(entries, f))
  }

  /** The open table for a file holding `entries` and the filter `f`. */
  function TableWith(entries: seq<Entry>, span: Span, f: Filter): SSTable {
    SSTable(FileBytes(entries, f), span, IndexOf(entries), |Data(entries)|, MinKey(entries), MaxKey(entries), f)
  }

  function Hashes(entries: seq<Entry>): (r: seq<bv64>)
    ensures |r| == |entries|
  {
    seq(|entries|, i requires 0 <= i < |entries| => Hash64(entries[i].key))
  }

  /** The filter of a table: sized from its number of keys, holding all of them,
      tombstones included. */
  function FilterFor(entries: seq<Entry>, bitsPerKey: nat, numProbes: nat): (f: Filter)
    ensures Usable(f)
  {
    InsertAll(Fresh(|entries|, bitsPerKey, numProbes), Hashes(entries))
  }

  /* ---- Writing ---- */

  lemma Regroup(a: seq<byte>, b: seq<byte>, c: seq<byte>)
    ensures a + (b + c) == a + b + c
  {
  }

  lemma {:induction false} DataConcat(a: seq<Entry>, b: seq<Entry>)
    ensures Data(a + b) == Data(a) + Data(b)
  {
    hide Record;
    if a == [] {
      assert a + b == b;
    } else {
      DataConcat(a[1..], b);
      assert (a + b)[1..] == a[1..] + b && (a + b)[0] == a[0];
      Regroup(Record(a[0]), Data(a[1..]), Data(b));
    }
  }

  lemma DataAppend(entries: seq<Entry>, e: Entry)
    ensures Data(entries + [e]) == Data(entries) + Record(e)
  {
    hide Record;
    DataConcat(entries, [e]);
    assert Data([e]) == Record(e) + Data([]) by { assert [e][1..] == []; }
  }

  lemma {:induction false} IndexBytesAppend(index: seq<IndexEntry>, x: IndexEntry)
    ensures IndexBytes(index + [x]) == IndexBytes(index) + (Prefixed(x.key) + LE(x.offset, 8))
  {
    hide Prefixed, LE;
    if index == [] {
      assert (index + [x])[1..] == [];
    } else {
      IndexBytesAppend(index[1..], x);
      assert (index + [x])[1..] == index[1..] + [x];
    }
  }

  lemma {:induction false} WordsBytesAppend(words: seq<bv64>, w: bv64)
    ensures WordsBytes(words + [w]) == WordsBytes(words) + LE(w as int, 8)
  {
    hide LE;
    if words == [] {
      assert (words + [w])[1..] == [];
    } else {
      WordsBytesAppend(words[1..], w);
      assert (words + [w])[1..] == words[1..] + [w];
    }
  }

  /** Offset of the block being filled: equal to the end of the data when the
      next entry opens a block. */
  ghost function OpenBlock(entries: seq<Entry>): nat {
    var starts := BlockStarts(entries);
    if BlockFull(entries, starts) then |Data(entries)| else |Data(entries[..starts[|starts| - 1]])|
  }

  lemma DataSplit(entries: seq<Entry>, i: nat)
    requires i <= |entries|
    ensures |Data(entries)| == |Data(entries[..i])| + |Data(entries[i..])|
  {
    hide Data;
    assert entries == entries[..i] + entries[i..];
    DataConcat(entries[..i], entries[i..]);
  }

  lemma StartsStep(entries: seq<Entry>, n: nat)
    requires n < |entries|
    ensures var before := entries[..n];
            BlockStarts(entries[..n + 1]) ==
            if BlockFull(before, BlockStarts(before)) then BlockStarts(before) + [n] else BlockStarts(before)
  {
    hide BlockFull;
    assert entries[..n + 1][..|entries[..n + 1]| - 1] == entries[..n];
  }

  lemma IndexSame(a: seq<Entry>, b: seq<Entry>, starts: seq<nat>)
    requires forall j :: 0 <= j < |starts| ==> starts[j] < |a| && starts[j] < |b|
    requires a <= b
    ensures Index(a, starts) == Index(b, starts)
  {
    hide Data;
    assert forall j :: 0 <= j < |starts| ==> a[..starts[j]] == b[..starts[j]];
  }

  lemma IndexStep(entries: seq<Entry>, n: nat)
    requires n < |entries|
    ensures var before, after := entries[..n], entries[..n + 1];
            IndexOf(after) == (if BlockFull(before, BlockStarts(before))
                               then IndexOf(before) + [IndexEntry(entries[n].key, |Data(before)|)]
                               else IndexOf(before))
  {
    hide BlockFull, Data, BlockStarts;
    var before, after := entries[..n], entries[..n + 1];
    StartsStep(entries, n);
    IndexSame(before, after, BlockStarts(before));
    assert after[..n] == before;
  }

  lemma OpenBlockIsEnd(entries: seq<Entry>)
    ensures OpenBlock(entries) <= |Data(entries)|
    ensures OpenBlock(entries) == |Data(entries)| <==> BlockFull(entries, BlockStarts(entries))
  {
    hide Data;
    var starts := BlockStarts(entries);
    if starts == [] {
      assert entries[..0] == entries;
    } else {
      var s := starts[|starts| - 1];
      DataSplit(entries, s);
      DataNonEmpty(entries[s..]);
    }
  }

  lemma DataNonEmpty(entries: seq<Entry>)
    ensures |Data(entries)| > 0 <==> entries != []
  {
    hide Record;
  }

  /** The size of the last block. */
  ghost function LastBlock(entries: seq<Entry>): nat
    requires entries != []
  {
    |Data(entries[BlockStarts(entries)[|BlockStarts(entries)| - 1]..])|
  }

  lemma OpenBlockBy(entries: seq<Entry>)
    requires entries != []
    ensures OpenBlock(entries) ==
            if LastBlock(entries) >= BLOCK_SIZE then |Data(entries)| else |Data(entries)| - LastBlock(entries)
  {
    hide Data;
    DataSplit(entries, BlockStarts(entries)[|BlockStarts(entries)| - 1]);
  }

  lemma LastBlockStep(entries: seq<Entry>, n: nat)
    requires n < |entries|
    ensures LastBlock(entries[..n + 1]) == |Data(entries[..n + 1])| - OpenBlock(entries[..n])
  {
    hide Data, BlockFull, BlockStarts;
    var before, after := entries[..n], entries[..n + 1];
    StartsStep(entries, n);
    var starts := BlockStarts(after);
    var s := starts[|starts| - 1];
    DataSplit(after, s);
    assert after[..s] == entries[..s];
    if BlockFull(before, BlockStarts(before)) {
      assert s == n && entries[..s] == before;
    } else {
      assert starts == BlockStarts(before);
      assert before[..s] == entries[..s];
    }
  }

  lemma OpenBlockStep(entries: seq<Entry>, n: nat)
    requires n < |entries|
    ensures var start := OpenBlock(entries[..n]);
            var end := |Data(entries[..n + 1])|;
            OpenBlock(entries[..n + 1]) == if end - start >= BLOCK_SIZE then end else start
  {
    hide Data, OpenBlock, LastBlock, BlockStarts;
    LastBlockStep(entries, n);
    OpenBlockBy(entries[..n + 1]);
  }

  /** Data blocks, with the sparse index, the key range and the filter gathered
      on the way. */
  method WriteData(entries: seq<Entry>, bitsPerKey: nat, numProbes: nat)
    returns (file: seq<byte>, currentOffset: nat, sparseIndex: seq<IndexEntry>,
             minKey: Key, maxKey: Key, filter: BloomFilter)
    ensures file == Data(entries) && currentOffset == |file| && sparseIndex == IndexOf(entries)
    ensures minKey == MinKey(entries) && maxKey == MaxKey(entries)
    ensures fresh(filter) && fresh(filter.bits) && filter.Value() == FilterFor(entries, bitsPerKey, numProbes)
  {
    hide Data, IndexOf, OpenBlock, Insert, InsertAll, Hashes, Fresh, Hash64, Record, Usable;
    file, sparseIndex, minKey, maxKey := [], [], [], [];
    filter := new BloomFilter(|entries|, bitsPerKey, numProbes);
    currentOffset := 0;
    var blockStartOffset := 0;
    ghost var empty := Fresh(|entries|, bitsPerKey, numProbes);
    NothingWritten(entries, empty);
    for n := 0 to |entries|
      invariant file == Data(entries[..n]) && currentOffset == |file|
      invariant sparseIndex == IndexOf(entries[..n]) && blockStartOffset == OpenBlock(entries[..n])
      invariant minKey == MinKey(entries[..n]) && maxKey == MaxKey(entries[..n])
      invariant filter.Valid() && fresh(filter) && fresh(filter.bits)
      invariant filter.Value() == InsertAll(empty, Hashes(entries[..n]))
    {
      var e := entries[n];
      EntryStep(entries, n, empty);
      if currentOffset == 0 {
        minKey := e.key;
      }
      maxKey := e.key;
      filter.InsertHash(Hash64(e.key));
      if blockStartOffset == currentOffset {
        sparseIndex := sparseIndex + [IndexEntry(e.key, currentOffset)];
      }
      file := file + Record(e);
      currentOffset := currentOffset + (9 + |e.key| + |ValueBytes(e.value)|);
      if currentOffset - blockStartOffset >= BLOCK_SIZE {
        blockStartOffset := currentOffset;
      }
    }
    assert entries[..|entries|] == entries;
  }

  /** The index block, and the offset after it, kept by hand. */
  method WriteIndex(sparseIndex: seq<IndexEntry>, indexStart: nat) returns (bytes: seq<byte>, filterStart: nat)
    ensures bytes == IndexBytes(sparseIndex) && filterStart == indexStart + |bytes|
  {
    hide Prefixed, LE;
    bytes, filterStart := [], indexStart;
    for j := 0 to |sparseIndex|
      invariant bytes == IndexBytes(sparseIndex[..j]) && filterStart == indexStart + |bytes|
    {
      assert sparseIndex[..j + 1] == sparseIndex[..j] + [sparseIndex[j]];
      IndexBytesAppend(sparseIndex[..j], sparseIndex[j]);
      bytes := bytes + (Prefixed(sparseIndex[j].key) + LE(sparseIndex[j].offset, 8));
      filterStart := filterStart + (4 + |sparseIndex[j].key| + 8);
    }
    assert sparseIndex[..|sparseIndex|] == sparseIndex;
  }

  method WriteFilter(f: Filter) returns (bytes: seq<byte>)
    ensures bytes == FilterBytes(f)
  {
    hide LE;
    bytes := LE(f.numBits, 8) + LE(f.numProbes, 4);
    ghost var head := bytes;
    for j := 0 to |f.words|
      invariant bytes == head + WordsBytes(f.words[..j])
    {
      assert f.words[..j + 1] == f.words[..j] + [f.words[j]];
      WordsBytesAppend(f.words[..j], f.words[j]);
      bytes := bytes + LE(f.words[j] as int, 8);
    }
    assert f.words[..|f.words|] == f.words;
  }

  /** `write_table`: the file it writes is exactly the layout above, every offset
      in it the true one, and the table it returns is the open table for it. */
  method WriteTable(entries: seq<Entry>, span: Span, bitsPerKey: nat, numProbes: nat) returns (table: SSTable)
    ensures table == TableWith(entries, span, FilterFor(entries, bitsPerKey, numProbes))
  {
    hide Data, IndexBytes, IndexOf, FilterFor, Trailer;
    var data, indexStart, sparseIndex, minKey, maxKey, filter := WriteData(entries, bitsPerKey, numProbes);
    var indexBytes, filterStart := WriteIndex(sparseIndex, indexStart);
    var f := filter.Value();
    var filterBytes := WriteFilter(f);
    var metaStart := filterStart + 12 + |f.words| * 8;
    var file := data + indexBytes + filterBytes;
    file := file + (Prefixed(minKey) + Prefixed(maxKey));
    file := file + Trailer(indexStart, filterStart, metaStart);
    table := SSTable(file, span, sparseIndex, indexStart, minKey, maxKey, f);
  }

  lemma NothingWritten(entries: seq<Entry>, empty: Filter)
    requires Usable(empty)
    ensures Data(entries[..0]) == [] && IndexOf(entries[..0]) == [] && OpenBlock(entries[..0]) == 0
    ensures MinKey(entries[..0]) == [] == MaxKey(entries[..0])
    ensures InsertAll(empty, Hashes(entries[..0])) == empty
  {
    OpenBlockIsEnd(entries[..0]);
  }

  /** What one round of the writer's loop has to match. */
  lemma EntryStep(entries: seq<Entry>, n: nat, fresh_: Filter)
    requires n < |entries| && Usable(fresh_)
    ensures Data(entries[..n + 1]) == Data(entries[..n]) + Record(entries[n])
    ensures |Data(entries[..n])| == 0 <==> n == 0
    ensures OpenBlock(entries[..n]) == |Data(entries[..n])| <==>
            IndexOf(entries[..n + 1]) == IndexOf(entries[..n]) + [IndexEntry(entries[n].key, |Data(entries[..n])|)]
    ensures OpenBlock(entries[..n]) != |Data(entries[..n])| ==> IndexOf(entries[..n + 1]) == IndexOf(entries[..n])
    ensures OpenBlock(entries[..n + 1]) ==
            if |Data(entries[..n + 1])| - OpenBlock(entries[..n]) >= BLOCK_SIZE then |Data(entries[..n + 1])|
            else OpenBlock(entries[..n])
    ensures InsertAll(fresh_, Hashes(entries[..n + 1])) ==
            Insert(InsertAll(fresh_, Hashes(entries[..n])), Hash64(entries[n].key))
    ensures OpenBlock(entries[..n]) <= |Data(entries[..n])| <= |Data(entries[..n + 1])|
  {
    assert entries[..n + 1] == entries[..n] + [entries[n]];
    DataAppend(entries[..n], entries[n]);
    OpenBlockIsEnd(entries[..n]);
    IndexStep(entries, n);
    OpenBlockStep(entries, n);
    HashesStep(entries, n, fresh_);
  }

  lemma HashesStep(entries: seq<Entry>, n: nat, fresh_: Filter)
    requires n < |entries| && Usable(fresh_)
    ensures InsertAll(fresh_, Hashes(entries[..n + 1])) ==
            Insert(InsertAll(fresh_, Hashes(entries[..n])), Hash64(entries[n].key))
  {
    hide Insert, Hash64;
    var after := Hashes(entries[..n + 1]);
    assert after[..|after| - 1] == Hashes(entries[..n]);
    assert after[|after| - 1] == Hash64(entries[n].key);
  }
}
