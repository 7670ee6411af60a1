/** Reading table files: opening, point lookup and the record iterator. */
module TableRead {
  import opened Bytes
  import opened Tables
  import opened Bloom
  import opened TableFile

  /* ---- Pieces of a file ---- */

  /** `piece` is in `buf` at position `at`. */
  predicate Holds(buf: seq<byte>, at: nat, piece: seq<byte>) {
    at + |piece| <= |buf| && buf[at..at + |piece|] == piece
  }

  lemma HoldsSplit(buf: seq<byte>, at: nat, a: seq<byte>, b: seq<byte>)
    requires Holds(buf, at, a + b)
    ensures Holds(buf, at, a) && Holds(buf, at + |a|, b)
  {
    assert a == (a + b)[..|a|] && b == (a + b)[|a|..];
  }

  lemma HoldsSelf(buf: seq<byte>)
    ensures Holds(buf, 0, buf)
  {
  }

  /** `read_exact` of `n` bytes. */
  function Take(buf: seq<byte>, at: nat, n: nat): Result<seq<byte>> {
    if at + n <= |buf| then Ok(buf[at..at + n]) else Err(Eof)
  }

  /** `read_prefixed`: the bytes, and the position after them. */
  function ReadPrefixed(buf: seq<byte>, at: nat): (r: Result<(seq<byte>, nat)>)
    ensures r.Ok? ==> r.value.1 == at + 4 + |r.value.0| <= |buf|
  {
    match Take(buf, at, 4)
    case Err(e) => Err(e)
    case Ok(lenBuf) =>
      match Take(buf, at + 4, FromLE(lenBuf))
      case Err(e) => Err(e)
      case Ok(bytes) => Ok((bytes, at + 4 + |bytes|))
  }

  lemma ReadPrefixedBack(buf: seq<byte>, at: nat, bytes: seq<byte>)
    requires |bytes| < U32 && Holds(buf, at, Prefixed(bytes))
    ensures ReadPrefixed(buf, at) == Ok((bytes, at + 4 + |bytes|))
  {
    hide LE, FromLE;
    HoldsSplit(buf, at, LE(|bytes|, 4), bytes);
    RoundTrip32(|bytes|);
  }

  function ReadNumber(buf: seq<byte>, at: nat, width: nat): Result<nat> {
    match Take(buf, at, width)
    case Err(e) => Err(e)
    case Ok(bytes) => Ok(FromLE(bytes))
  }

  lemma ReadNumber64Back(buf: seq<byte>, at: nat, n: nat)
    requires n < U64 && Holds(buf, at, LE(n, 8))
    ensures ReadNumber(buf, at, 8) == Ok(n)
  {
    hide LE, FromLE;
    RoundTrip64(n);
  }

  lemma ReadNumber32Back(buf: seq<byte>, at: nat, n: nat)
    requires n < U32 && Holds(buf, at, LE(n, 4))
    ensures ReadNumber(buf, at, 4) == Ok(n)
  {
    hide LE, FromLE;
    RoundTrip32(n);
  }

  /* ---- Opening ---- */

  function ToWord(n: nat): (w: bv64)
    requires n < U64
  {
    n as bv64
  }

  lemma WordBack(w: bv64)
    ensures 0 <= w as int < U64 && ToWord(w as int) == w
  {
  }

  function ReadWords(file: seq<byte>, at: nat, n: nat, words: seq<bv64>): (r: Result<seq<bv64>>)
    decreases n
  {
    if n == 0 then Ok(words)
    else
      match Take(file, at, 8)
      case Err(e) => Err(e)
      case Ok(bytes) =>
        FromLEBound(bytes);
        Widths();
        ReadWords(file, at + 8, n - 1, words + [ToWord(FromLE(bytes))])
  }

  function ReadIndex(file: seq<byte>, pos: nat, end: nat, index: seq<IndexEntry>): Result<seq<IndexEntry>>
    decreases end - pos
  {
    if pos >= end then Ok(index)
    else
      match ReadPrefixed(file, pos)
      case Err(e) => Err(e)
      case Ok((key, next)) =>
        match ReadNumber(file, next, 8)
        case Err(e) => Err(e)
        case Ok(offset) => ReadIndex(file, next + 8, end, index + [IndexEntry(key, offset)])
  }

  /** `SSTable::open` on the bytes of a file. */
  function ParseTable(file: seq<byte>, span: Span): Result<SSTable> {
    if |file| < TRAILER_SIZE then Err(Eof)
    else
      var t := file[|file| - TRAILER_SIZE..];
      if t[24..30] != MAGIC then Err(BadMagic)
      else if t[30] != FORMAT_VERSION then Err(BadVersion)
      else ParseBlocks(file, span, FromLE(t[0..8]), FromLE(t[8..16]), FromLE(t[16..24]))
  }

  /** What does not end like a table file of this version is refused. */
  lemma RefusedFiles(file: seq<byte>, span: Span)
    ensures |file| < 32 ==> ParseTable(file, span) == Err(Eof)
    ensures |file| >= 32 && file[|file| - 8..|file| - 2] != [0x4c, 0x53, 0x4d, 0x52, 0x53, 0x00] ==>
              ParseTable(file, span) == Err(BadMagic)
    ensures |file| >= 32 && file[|file| - 8..|file| - 2] == [0x4c, 0x53, 0x4d, 0x52, 0x53, 0x00]
            && file[|file| - 2] != 1 ==>
              ParseTable(file, span) == Err(BadVersion)
  {
    hide ParseBlocks, FromLE;
    if |file| >= 32 {
      var t := file[|file| - TRAILER_SIZE..];
      assert t[24..30] == file[|file| - 8..|file| - 2] && t[30] == file[|file| - 2];
    }
  }

  /** And what is written ends so. */
  lemma EndOfFile(entries: seq<Entry>, f: Filter)
    ensures var file := FileBytes(entries, f);
            |file| >= 32 && file[|file| - 8..] == [0x4c, 0x53, 0x4d, 0x52, 0x53, 0x00, 0x01, 0x00]
  {
    hide Data, IndexBytes, IndexOf, FilterBytes, MetaBytes, LE;
    var file := FileBytes(entries, f);
    var t := Trailer(|Data(entries)|, FilterStart(entries), MetaStart(entries, f));
    assert file[|file| - TRAILER_SIZE..] == t;
    assert t[24..] == MAGIC + [FORMAT_VERSION, 0];
    assert file[|file| - 8..] == t[24..];
  }

  function ParseFilter(file: seq<byte>, filterStart: nat): Result<Filter> {
    match ReadNumber(file, filterStart, 8)
    case Err(e) => Err(e)
    case Ok(numBits) =>
      match ReadNumber(file, filterStart + 8, 4)
      case Err(e) => Err(e)
      case Ok(numProbes) =>
        match ReadWords(file, filterStart + 12, numBits / 64, [])
        case Err(e) => Err(e)
        case Ok(words) => Ok(Filter(words, numBits, numProbes))
  }

  function ParseBlocks(file: seq<byte>, span: Span, indexStart: nat, filterStart: nat, metaStart: nat)
    : Result<SSTable>
  {
    match ReadPrefixed(file, metaStart)
    case Err(e) => Err(e)
    case Ok((minKey, next)) =>
      match ReadPrefixed(file, next)
      case Err(e) => Err(e)
      case Ok((maxKey, _)) =>
        match ParseFilter(file, filterStart)
        case Err(e) => Err(e)
        case Ok(filter) =>
          match ReadIndex(file, indexStart, filterStart, [])
          case Err(e) => Err(e)
          case Ok(index) => Ok(SSTable(file, span, index, indexStart, minKey, maxKey, filter))
  }

  method OpenIndex(file: seq<byte>, indexStart: nat, filterStart: nat) returns (r: Result<seq<IndexEntry>>)
    ensures r == ReadIndex(file, indexStart, filterStart, [])
  {
    hide FromLE;
    var sparseIndex: seq<IndexEntry> := [];
    var pos := indexStart;
    while pos < filterStart
      invariant ReadIndex(file, indexStart, filterStart, []) == ReadIndex(file, pos, filterStart, sparseIndex)
      decreases filterStart - pos
    {
      var key := ReadPrefixed(file, pos);
      if key.Err? { return Err(key.error); }
      var offset := ReadNumber(file, key.value.1, 8);
      if offset.Err? { return Err(offset.error); }
      pos := pos + (4 + |key.value.0| + 8);
      sparseIndex := sparseIndex + [IndexEntry(key.value.0, offset.value)];
    }
    return Ok(sparseIndex);
  }

  method OpenFilter(file: seq<byte>, filterStart: nat) returns (r: Result<Filter>)
    ensures r == ParseFilter(file, filterStart)
  {
    hide FromLE, ToWord;
    var numBits := ReadNumber(file, filterStart, 8);
    if numBits.Err? { return Err(numBits.error); }
    var numProbes := ReadNumber(file, filterStart + 8, 4);
    if numProbes.Err? { return Err(numProbes.error); }
    var words: seq<bv64> := [];
    var n := numBits.value / 64;
    for i := 0 to n
      invariant ReadWords(file, filterStart + 12, n, []) == ReadWords(file, filterStart + 12 + 8 * i, n - i, words)
    {
      var bytes := Take(file, filterStart + 12 + 8 * i, 8);
      if bytes.Err? { return Err(bytes.error); }
      FromLEBound(bytes.value);
      Widths();
      words := words + [ToWord(FromLE(bytes.value))];
    }
    return Ok(Filter(words, numBits.value, numProbes.value));
  }

  method OpenTable(file: seq<byte>, span: Span) returns (r: Result<SSTable>)
    ensures r == ParseTable(file, span)
  {
    hide FromLE, ParseFilter, ReadIndex, ReadPrefixed;
    if |file| < TRAILER_SIZE { return Err(Eof); }
    var trailer := file[|file| - TRAILER_SIZE..];
    if trailer[24..30] != MAGIC { return Err(BadMagic); }
    if trailer[30] != FORMAT_VERSION { return Err(BadVersion); }
    var indexStart := FromLE(trailer[0..8]);
    var filterStart := FromLE(trailer[8..16]);
    var metaStart := FromLE(trailer[16..24]);
    var minKey := ReadPrefixed(file, metaStart);
    if minKey.Err? { return Err(minKey.error); }
    var maxKey := ReadPrefixed(file, minKey.value.1);
    if maxKey.Err? { return Err(maxKey.error); }
    var filter := OpenFilter(file, filterStart);
    if filter.Err? { return Err(filter.error); }
    var index := OpenIndex(file, indexStart, filterStart);
    if index.Err? { return Err(index.error); }
    return Ok(SSTable(file, span, index.value, indexStart, minKey.value.0, maxKey.value.0, filter.value));
  }

  /* ---- Opening what was written ---- */

  /** Everything fits the fixed-width fields of the format. */
  ghost predicate FitsFormat(entries: seq<Entry>, f: Filter) {
    && (forall i :: 0 <= i < |entries| ==> |entries[i].key| < U32 && |ValueBytes(entries[i].value)| < U32)
    && |FileBytes(entries, f)| < U64
    && f.numBits == 64 * |f.words| && f.numBits < U64 && f.numProbes < U32
  }

  lemma {:induction false} ReadWordsBack(file: seq<byte>, at: nat, words: seq<bv64>, before: seq<bv64>)
    requires Holds(file, at, WordsBytes(words))
    ensures ReadWords(file, at, |words|, before) == Ok(before + words)
    decreases |words|
  {
    hide LE, FromLE, ToWord;
    if words == [] {
      assert before + words == before;
    } else {
      HoldsSplit(file, at, LE(words[0] as int, 8), WordsBytes(words[1..]));
      WordBack(words[0]);
      RoundTrip64(words[0] as int);
      ReadWordsBack(file, at + 8, words[1..], before + [words[0]]);
      assert before + [words[0]] + words[1..] == before + words;
    }
  }

  lemma {:induction false} ReadIndexBack(file: seq<byte>, pos: nat, index: seq<IndexEntry>, before: seq<IndexEntry>)
    requires Holds(file, pos, IndexBytes(index))
    requires forall i :: 0 <= i < |index| ==> |index[i].key| < U32 && index[i].offset < U64
    ensures ReadIndex(file, pos, pos + |IndexBytes(index)|, before) == Ok(before + index)
    decreases |index|
  {
    hide LE, FromLE, ReadPrefixed, ReadNumber;
    if index == [] {
      assert before + index == before;
    } else {
      var key, offset := index[0].key, index[0].offset;
      var rest := IndexBytes(index[1..]);
      HoldsSplit(file, pos, Prefixed(key) + LE(offset, 8), rest);
      HoldsSplit(file, pos, Prefixed(key), LE(offset, 8));
      ReadPrefixedBack(file, pos, key);
      ReadNumber64Back(file, pos + 4 + |key|, offset);
      ReadIndexBack(file, pos + 12 + |key|, index[1..], before + [index[0]]);
      assert before + [index[0]] + index[1..] == before + index;
    }
  }

  lemma ParseFilterBack(file: seq<byte>, at: nat, f: Filter)
    requires Holds(file, at, FilterBytes(f))
    requires f.numBits == 64 * |f.words| && f.numBits < U64 && f.numProbes < U32
    ensures ParseFilter(file, at) == Ok(f)
  {
    hide LE, ReadNumber, ReadWords;
    HoldsSplit(file, at, LE(f.numBits, 8) + LE(f.numProbes, 4), WordsBytes(f.words));
    HoldsSplit(file, at, LE(f.numBits, 8), LE(f.numProbes, 4));
    ReadNumber64Back(file, at, f.numBits);
    ReadNumber32Back(file, at + 8, f.numProbes);
    ReadWordsBack(file, at + 12, f.words, []);
    assert [] + f.words == f.words;
  }

  /** Where the blocks of a written file are. */
  lemma FileParts(entries: seq<Entry>, f: Filter)
    ensures var file := FileBytes(entries, f);
            && Holds(file, 0, Data(entries))
            && Holds(file, |Data(entries)|, IndexBytes(IndexOf(entries)))
            && Holds(file, FilterStart(entries), FilterBytes(f))
            && Holds(file, MetaStart(entries, f), MetaBytes(entries))
            && |file| >= TRAILER_SIZE
            && file[|file| - TRAILER_SIZE..] == Trailer(|Data(entries)|, FilterStart(entries), MetaStart(entries, f))
            && MetaStart(entries, f) <= |file|
  {
    hide Data, IndexBytes, IndexOf, FilterBytes, MetaBytes, Trailer;
    var file := FileBytes(entries, f);
    var a, b, c, d := Data(entries), IndexBytes(IndexOf(entries)), FilterBytes(f), MetaBytes(entries);
    var t := Trailer(|a|, FilterStart(entries), MetaStart(entries, f));
    HoldsSelf(file);
    HoldsSplit(file, 0, a + b + c + d, t);
    HoldsSplit(file, 0, a + b + c, d);
    HoldsSplit(file, 0, a + b, c);
    HoldsSplit(file, 0, a, b);
  }

  lemma TrailerFields(i: nat, f: nat, m: nat)
    requires i < U64 && f < U64 && m < U64
    ensures var t := Trailer(i, f, m);
            && t[24..30] == MAGIC && t[30] == FORMAT_VERSION
            && FromLE(t[0..8]) == i && FromLE(t[8..16]) == f && FromLE(t[16..24]) == m
  {
    hide LE, FromLE;
    var t := Trailer(i, f, m);
    RoundTrip64(i);
    RoundTrip64(f);
    RoundTrip64(m);
    assert t[0..8] == LE(i, 8) && t[8..16] == LE(f, 8) && t[16..24] == LE(m, 8);
    assert t[24..30] == MAGIC;
  }

  lemma IndexFits(entries: seq<Entry>, f: Filter)
    requires FitsFormat(entries, f)
    ensures forall i :: 0 <= i < |IndexOf(entries)| ==>
              |IndexOf(entries)[i].key| < U32 && IndexOf(entries)[i].offset < U64
  {
    hide BlockStarts, Data, FileBytes;
    FileParts(entries, f);
    var starts := BlockStarts(entries);
    forall i | 0 <= i < |starts| ensures |Data(entries[..starts[i]])| < U64 {
      DataSplit(entries, starts[i]);
    }
  }

  /** Opening a written file gives back the sparse index, the key range and the
      filter it was written with. */
  lemma OpenAfterWrite(entries: seq<Entry>, span: Span, f: Filter)
    requires FitsFormat(entries, f)
    ensures ParseTable(FileBytes(entries, f), span) == Ok(TableWith(entries, span, f))
  {
    hide FileBytes, Trailer, Data, IndexOf, IndexBytes, ParseFilter, ReadIndex, ReadPrefixed, FromLE;
    hide FilterBytes, Prefixed;
    var file := FileBytes(entries, f);
    FileParts(entries, f);
    TrailerFields(|Data(entries)|, FilterStart(entries), MetaStart(entries, f));
    HoldsSplit(file, MetaStart(entries, f), Prefixed(MinKey(entries)), Prefixed(MaxKey(entries)));
    ReadPrefixedBack(file, MetaStart(entries, f), MinKey(entries));
    ReadPrefixedBack(file, MetaStart(entries, f) + 4 + |MinKey(entries)|, MaxKey(entries));
    ParseFilterBack(file, FilterStart(entries), f);
    IndexFits(entries, f);
    ReadIndexBack(file, |Data(entries)|, IndexOf(entries), []);
    assert [] + IndexOf(entries) == IndexOf(entries);
  }
}
