/** The record iterator of a table: it walks the blocks in order and yields one
    record at a time. */
module TableRecords {
  import opened Bytes
  import opened Tables
  import opened TableFile
  import opened TableRead
  import opened TableGet

  /** Blocks loaded so far, the bytes of the last one, and the place in it. */
  datatype Cursor = Cursor(block: nat, buf: seq<byte>, at: nat)

  const START := Cursor(0, [], 0)

  /** One call of `next_record`: its result and where it leaves the cursor. */
  function Next(table: SSTable, c: Cursor): (r: (Result<Option<Entry>>, Cursor))
    ensures r.0.Ok? && r.0.value.Some? ==>
              r.1.block > c.block || (r.1.block == c.block && r.1.buf == c.buf && c.at < r.1.at <= |c.buf|)
    ensures r.1.block <= c.block || r.1.block <= |table.index|
    ensures r.1.block >= c.block
    decreases |table.index| - c.block
  {
    if c.at >= |c.buf| then
      if c.block >= |table.index| then (Ok(None), c)
      else
        match LoadBlock(table, c.block)
        case Err(e) => (Err(e), c)
        case Ok(buf) => Next(table, Cursor(c.block + 1, buf, 0))
    else
      match ReadRaw(c.buf, c.at)
      case Err(e) => (Err(e), c)
      case Ok((raw, next)) =>
        match Decode(raw)
        case Err(e) => (Err(e), c.(at := next))
        case Ok(value) => (Ok(Some(Entry(raw.key, value))), c.(at := next))
  }

  class Records {
    const table: SSTable
    var block: nat
    var buf: seq<byte>
    var cursor: nat

    function Place(): Cursor
      reads this
    {
      Cursor(block, buf, cursor)
    }

    constructor (table: SSTable)
      ensures this.table == table && Place() == START
    {
      this.table := table;
      block, buf, cursor := 0, [], 0;
    }

    method NextRecord() returns (r: Result<Option<Entry>>)
      modifies this
      ensures (r, Place()) == Next(table, old(Place()))
    {
      hide ReadRaw, Decode, LoadBlock;
      while cursor >= |buf|
        invariant Next(table, old(Place())) == Next(table, Place())
        decreases |table.index| - block
      {
        if block >= |table.index| { return Ok(None); }
        var loaded := LoadBlock(table, block);
        if loaded.Err? { return Err(loaded.error); }
        buf := loaded.value;
        cursor := 0;
        block := block + 1;
      }
      var record := ReadRaw(buf, cursor);
      if record.Err? { return Err(record.error); }
      var (raw, _) := record.value;
      cursor := cursor + (9 + |raw.key| + |raw.value|);
      var value := Decode(raw);
      return if value.Err? then Err(value.error) else Ok(Some(Entry(raw.key, value.value)));
    }
  }

  /** All records from a place on, or the first error. */
  function Rest(table: SSTable, c: Cursor, before: seq<Entry>): Result<seq<Entry>>
    decreases |table.index| - c.block, |c.buf| - c.at
  {
    match Next(table, c).0
    case Err(e) => Err(e)
    case Ok(None) => Ok(before)
    case Ok(Some(e)) =>
      Rest(table, Next(table, c).1, before + [e])
  }

  method ReadAll(table: SSTable) returns (r: Result<seq<Entry>>)
    ensures r == Rest(table, START, [])
  {
    hide Next;
    var records := new Records(table);
    var entries: seq<Entry> := [];
    while true
      invariant records.table == table
      invariant Rest(table, START, []) == Rest(table, records.Place(), entries)
      decreases |table.index| - records.block, |records.buf| - records.cursor
    {
      var e := records.NextRecord();
      if e.Err? { return Err(e.error); }
      if e.value.None? { return Ok(entries); }
      entries := entries + [e.value.value];
    }
  }

  /* ---- Iterating over what was written ---- */

  /** The cursor stands before `entries[i]`. */
  ghost predicate At(entries: seq<Entry>, c: Cursor, i: nat) {
    var starts := BlockStarts(entries);
    && i <= |entries| && c.block <= |starts|
    && if c.block == 0 then c == START && i == 0
       else
         var from := starts[c.block - 1];
         && from <= i <= from + |BlockEntries(entries, c.block - 1)|
         && c.buf == Data(BlockEntries(entries, c.block - 1))
         && c.at == |Data(entries[from..i])|
  }

  /** Inside a block, the next record is the next entry. */
  lemma NextInBlock(entries: seq<Entry>, c: Cursor, i: nat, f: Bloom.Filter)
    requires FitsFormat(entries, f) && At(entries, c, i) && c.block > 0
    requires i < BlockStarts(entries)[c.block - 1] + |BlockEntries(entries, c.block - 1)|
    ensures c.at < |c.buf| && i < |entries|
    ensures ReadRaw(c.buf, c.at) == Ok((Raw(entries[i]), c.at + |Record(entries[i])|))
    ensures Decode(Raw(entries[i])) == Ok(entries[i].value)
    ensures At(entries, c.(at := c.at + |Record(entries[i])|), i + 1)
  {
    hide Record, BlockStarts, FileBytes, Data, Raw, Decode, ReadRaw;
    var from, es := BlockStarts(entries)[c.block - 1], BlockEntries(entries, c.block - 1);
    var k := i - from;
    HoldsSelf(Data(es));
    DataSlice(Data(es), es, k, k + 1);
    SliceOf(entries, from, from + |es|, k);
    DataAppend([], entries[i]);
    assert [] + [entries[i]] == [entries[i]] && Data([]) == [] by { DataEmpty(); }
    assert [] + Record(entries[i]) == Record(entries[i]);
    ReadRawBack(c.buf, c.at, entries[i]);
  }

  lemma SliceOf(entries: seq<Entry>, from: nat, to: nat, k: nat)
    requires from + k < to <= |entries|
    ensures var es := entries[from..to];
            && es[k..k + 1] == [entries[from + k]]
            && es[..k] == entries[from..from + k] && es[..k + 1] == entries[from..from + k + 1]
  {
  }

  lemma DataEmpty()
    ensures Data([]) == []
  {
  }

  /** At the end of a block, the next block starts with the next entry. */
  lemma NextBlock(entries: seq<Entry>, c: Cursor, i: nat)
    requires At(entries, c, i)
    requires c.block > 0 ==> i == BlockStarts(entries)[c.block - 1] + |BlockEntries(entries, c.block - 1)|
    ensures c.at >= |c.buf|
    ensures c.block == |BlockStarts(entries)| ==> i == |entries|
    ensures c.block < |BlockStarts(entries)| ==>
              At(entries, Cursor(c.block + 1, Data(BlockEntries(entries, c.block)), 0), i)
  {
    hide Data;
    var starts := BlockStarts(entries);
    DataEmpty();
    assert c.block < |starts| ==> starts[c.block] == i && entries[i..i] == [];
    if c.block > 0 {
      assert entries[starts[c.block - 1]..i] == BlockEntries(entries, c.block - 1);
    }
  }

  /** The iterator over a written table yields the next entry, or the end. */
  lemma {:induction false} NextBack(table: SSTable, entries: seq<Entry>, c: Cursor, i: nat)
    requires FileOf(table, entries) && At(entries, c, i)
    ensures var (r, n) := Next(table, c);
            if i < |entries| then r == Ok(Some(entries[i])) && At(entries, n, i + 1) else r == Ok(None)
    decreases |table.index| - c.block
  {
    hide BlockStarts, BlockEntries, At, FileOf, LoadBlock, ReadRaw, Decode, Record;
    InFile(table, entries, c, i);
    if c.block > 0 && i < BlockStarts(entries)[c.block - 1] + |BlockEntries(entries, c.block - 1)| {
      NextInBlock(entries, c, i, table.filter);
    } else {
      NextBlock(entries, c, i);
      if c.block < |table.index| {
        LoadBlockBack(table, entries, c.block);
        var n := Cursor(c.block + 1, Data(BlockEntries(entries, c.block)), 0);
        NextBack(table, entries, n, i);
      }
    }
  }

  lemma InFile(table: SSTable, entries: seq<Entry>, c: Cursor, i: nat)
    requires FileOf(table, entries) && At(entries, c, i)
    ensures |table.index| == |BlockStarts(entries)| && c.block <= |table.index| && i <= |entries|
    ensures FitsFormat(entries, table.filter)
    ensures c.block > 0 ==> i <= BlockStarts(entries)[c.block - 1] + |BlockEntries(entries, c.block - 1)|
  {
    hide BlockStarts, BlockEntries, FitsFormat, FileBytes;
  }

  lemma {:induction false} RestBack(table: SSTable, entries: seq<Entry>, c: Cursor, i: nat)
    requires FileOf(table, entries) && At(entries, c, i)
    ensures Rest(table, c, entries[..i]) == Ok(entries)
    decreases |entries| - i
  {
    hide Next, FileOf, BlockStarts, Data;
    NextBack(table, entries, c, i);
    if i < |entries| {
      var n := Next(table, c).1;
      assert entries[..i] + [entries[i]] == entries[..i + 1];
      RestBack(table, entries, n, i + 1);
    } else {
      assert entries[..i] == entries;
    }
  }

  /** Iterating over a written table yields exactly the entries written. */
  lemma ReadAllBack(table: SSTable, entries: seq<Entry>)
    requires FileOf(table, entries)
    ensures Rest(table, START, []) == Ok(entries)
  {
    RestBack(table, entries, START, 0);
    assert entries[..0] == [];
  }
}
