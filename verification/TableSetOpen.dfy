/** Opening the set of tables from whatever the directory holds. */
module TableSetOpen {
  import opened Bytes
  import opened Tables
  import opened TableFile
  import opened TableRead
  import opened TableGet
  import opened Names
  import opened Disk
  import opened Store
  import opened StoreInvariant
  import opened StoreRecovery
  import opened StoreImages
  import opened TableSet
  import opened Wal

  function SpansOf(files: Dir): set<Span> {
    set n | n in files && n.Sst? :: n.span
  }

  /** The directory without its temporary files. */
  function Published(files: Dir): Dir {
    map n | n in files && n.Sst? :: files[n]
  }

  /* ---- Listing ---- */

  function InsertSpan(spans: seq<Span>, s: Span): seq<Span> {
    if spans == [] then [s]
    else if SpanLess(s, spans[0]) then [s] + spans
    else [spans[0]] + InsertSpan(spans[1..], s)
  }

  ghost predicate SpansSorted(spans: seq<Span>) {
    forall i, j :: 0 <= i < j < |spans| ==> SpanLess(spans[i], spans[j])
  }

  lemma {:induction false} InsertSpanSorted(spans: seq<Span>, s: Span)
    requires SpansSorted(spans) && s !in spans
    ensures SpansSorted(InsertSpan(spans, s))
    ensures forall t :: t in InsertSpan(spans, s) <==> t == s || t in spans
  {
    if spans != [] && !SpanLess(s, spans[0]) {
      InsertSpanSorted(spans[1..], s);
      assert spans == [spans[0]] + spans[1..];
      var rest := InsertSpan(spans[1..], s);
      forall i | 0 <= i < |rest| ensures SpanLess(spans[0], rest[i]) {
        assert rest[i] in rest;
        if rest[i] != s {
          var k :| 0 <= k < |spans[1..]| && spans[1..][k] == rest[i];
          assert spans[k + 1] == rest[i];
        }
      }
    }
  }

  ghost predicate HasForeign(files: Dir) {
    exists stem {:trigger Foreign(stem)} :: Foreign(stem) in files
  }

  /** The directory when all names but `names` have been looked at. */
  function LeftOf(files: Dir, names: set<Name>): Dir {
    map n | n in files && (!n.Tmp? || n in names) :: files[n]
  }

  /** The spans among the names that have been looked at, none of them foreign. */
  ghost predicate ListedBut(spans: seq<Span>, files: Dir, names: set<Name>) {
    && SpansSorted(spans)
    && (forall s {:trigger s in spans} {:trigger Sst(s)} :: s in spans <==> Sst(s) in files && Sst(s) !in names)
    && (forall stem {:trigger Foreign(stem)} :: Foreign(stem) in files ==> Foreign(stem) in names)
  }

  lemma ListedNone(files: Dir)
    ensures ListedBut([], files, files.Keys) && LeftOf(files, files.Keys) == files
  {
  }

  lemma ListedMore(spans: seq<Span>, files: Dir, names: set<Name>, name: Name)
    requires ListedBut(spans, files, names) && name in names && name in files
    ensures name.Sst? ==> ListedBut(InsertSpan(spans, name.span), files, names - {name})
    ensures name.Tmp? ==> ListedBut(spans, files, names - {name})
    ensures name.Foreign? ==> HasForeign(files)
    ensures LeftOf(files, names - {name}) == if name.Tmp? then LeftOf(files, names) - {name} else LeftOf(files, names)
  {
    hide SpansSorted, InsertSpan;
    if name.Sst? { InsertSpanSorted(spans, name.span); }
  }

  lemma ListedAll(spans: seq<Span>, files: Dir)
    requires ListedBut(spans, files, {})
    ensures LeftOf(files, {}) == Published(files) && IsListing(spans, SpansOf(files)) && !HasForeign(files)
  {
    hide SpanLess;
    forall s ensures s in SpansOf(files) <==> s in spans {
      assert Sst(s) in files ==> Sst(s).span in SpansOf(files);
    }
  }

  /** Nothing but temporary files is missing from what is left. */
  ghost predicate OnlyTempsGone(files: Dir, left: Dir) {
    && (forall n :: n in left ==> n in files && left[n] == files[n])
    && (forall n :: n in files && !n.Tmp? ==> n in left)
  }

  lemma LeftHasAll(files: Dir, names: set<Name>)
    ensures OnlyTempsGone(files, LeftOf(files, names))
  {
  }

  /** Reading the directory, in any order: temporary files are removed on the way,
      and the spans of the others are sorted. A `.sst` name that does not follow
      the scheme is an error. Of the directory of a stopped store, removing each
      temporary file is a step of the machine's recovery. */
  method ListDirectory(disk: FileSystem, ghost crc: Checksum, ghost s: State)
    returns (r: Result<seq<Span>>, ghost n: State)
    modifies disk
    ensures disk.log == old(disk.log)
    ensures r.Err? <==> HasForeign(old(disk.files))
    ensures r.Ok? ==> disk.files == Published(old(disk.files)) && IsListing(r.value, SpansOf(old(disk.files)))
    ensures OnlyTempsGone(old(disk.files), disk.files)
    ensures old(DirHolds(disk.files, s.files, s.temps)) && s.phase.Scanning? ==>
              && r.Ok? && n == s.(temps := {}) && DirHolds(disk.files, n.files, n.temps)
              && Moves(crc, old(Here(disk, s)), Here(disk, n), [])
  {
    hide DirHolds, Moves, ListedBut, LeftOf, InsertSpan, Published, IsListing, SpansOf, HasForeign, OnlyTempsGone;
    ghost var good := DirHolds(disk.files, s.files, s.temps) && s.phase.Scanning?;
    ghost var files, p := disk.files, Here(disk, s);
    var spans: seq<Span> := [];
    var names := disk.files.Keys;
    n := s;
    MovesNowhere(crc, p);
    ListedNone(files);
    if good { NoForeign(files, s.files, s.temps); }
    while names != {}
      invariant names <= files.Keys && ListedBut(spans, files, names)
      invariant disk.files == LeftOf(files, names) && disk.log == old(disk.log)
      invariant good ==> n == s.(temps := n.temps) && DirHolds(disk.files, n.files, n.temps)
      invariant good ==> Moves(crc, p, Here(disk, n), [])
      decreases names
    {
      var name :| name in names;
      ListedMore(spans, files, names, name);
      if name.Tmp? { StillLeft(files, names, name); }
      names := names - {name};
      match name
      case Sst(span) => spans := InsertSpan(spans, span);
      case Tmp(span) =>
        ghost var m := Here(disk, n);
        disk.Remove(name);
        if good { n := DropMoves(crc, p, m, span, Here(disk, n)); }
      case Foreign(_) =>
        LeftHasAll(files, names);
        return Err(BadName), n;
    }
    ListedAll(spans, files);
    LeftHasAll(files, {});
    if good { NoTemps(files, n.files, n.temps); }
    return Ok(spans), n;
  }

  lemma StillLeft(files: Dir, names: set<Name>, name: Name)
    requires name in files && name in names
    ensures name in LeftOf(files, names)
  {
  }

  lemma NoTemps(files: Dir, contents: Files, temps: set<Span>)
    requires DirHolds(Published(files), contents, temps)
    ensures temps == {}
  {
    hide FileHolds;
    forall span ensures span !in temps {
      assert Tmp(span) !in Published(files);
    }
  }

  lemma NoForeign(files: Dir, contents: Files, temps: set<Span>)
    requires DirHolds(files, contents, temps)
    ensures !HasForeign(files)
  {
  }

  lemma DropMoves(crc: Checksum, p: Point, m: Point, span: Span, after: Point) returns (n: State)
    requires m.state.phase.Scanning? && DirHolds(m.image.files, m.state.files, m.state.temps)
    requires Tmp(span) in m.image.files && Moves(crc, p, m, [])
    requires after == Point(m.state, Removed(m.image, Tmp(span)), m.trace + [after.image])
    ensures n == m.state.(temps := m.state.temps - {span}) && DirHolds(after.image.files, n.files, n.temps)
    ensures Moves(crc, p, after.(state := n), [])
  {
    hide Moves, FileHolds;
    DirDropTemp(m.image.files, m.state.files, m.state.temps, span);
    n := DoRecover(m.state, RemoveTemp(span));
    MovesQuietly(crc, p, m, [], Does(Recover(RemoveTemp(span))), after.(state := n));
  }

  /* ---- Opening ---- */

  /** Each file in order: deleted if some other span contains its own, opened
      otherwise. */
  function OpenFrom(files: Dir, spans: seq<Span>, at: nat, tables: seq<SSTable>): Result<(Dir, seq<SSTable>)>
    decreases |spans| - at
  {
    if at >= |spans| then Ok((files, tables))
    else if Superseded(spans[at], ToSet(spans)) then OpenFrom(files - {Sst(spans[at])}, spans, at + 1, tables)
    else if Sst(spans[at]) !in files then Err(Eof)
    else
      match ParseTable(files[Sst(spans[at])], spans[at])
      case Err(e) => Err(e)
      case Ok(t) => OpenFrom(files, spans, at + 1, tables + [t])
  }

  /** What opening leaves alone. */
  predicate SameStore(n: State, s: State) {
    n.mem == s.mem && n.log == s.log && n.writer == s.writer && n.compactor == s.compactor && n.readers == s.readers
  }

  /** A stopped store whose log has been replayed, and its directory. */
  ghost predicate Stopped(files: Dir, s: State) {
    Inv(s) && s.phase.Scanning? && DirHolds(files, s.files, s.temps)
  }

  /** The machine, at place `at` of the listing. */
  ghost predicate OpeningAt(files: Dir, n: State, spans: seq<Span>, at: nat, tables: seq<SSTable>) {
    Inv(n) && n.phase == Opening(spans, at) && DirHolds(files, n.files, n.temps) && TablesHold(tables, n.live)
  }

  /** Opening any directory computes what `OpenFrom` says. Opening what a crash left
      of a store never fails, and is a run of the machine's recovery through
      exactly the images left on disk. */
  method Open(disk: FileSystem, bitsPerKey: nat, numProbes: nat, ghost crc: Checksum, ghost s: State)
    returns (r: Result<SSTableSet>, ghost spans: seq<Span>, ghost n: State)
    modifies disk
    ensures disk.log == old(disk.log)
    ensures HasForeign(old(disk.files)) ==> r == Err(BadName)
    ensures !HasForeign(old(disk.files)) ==>
              && IsListing(spans, SpansOf(old(disk.files)))
              && match OpenFrom(Published(old(disk.files)), spans, 0, [])
                 case Err(e) => r == Err(e)
                 case Ok((files, tables)) =>
                   && r.Ok? && fresh(r.value) && r.value.disk == disk && disk.files == files
                   && r.value.tables == tables && r.value.nextSeq == NextSeq(spans) && r.value.crc == crc
                   && r.value.bitsPerKey == bitsPerKey && r.value.numProbes == numProbes
    ensures old(Stopped(disk.files, s)) && numProbes < U32 ==>
              && r.Ok? && fresh(r.value) && r.value.Represents(n) && n.phase.Up? && SameStore(n, s)
              && r.value.disk == disk && r.value.crc == crc
              && Moves(crc, old(Here(disk, s)), Here(disk, n), [])
  {
    hide ParseTable, Superseded, Published, Inv, DirHolds, TablesHold, Moves, IsListing, OpenFrom;
    ghost var good := Stopped(disk.files, s);
    ghost var p, dir := Here(disk, s), disk.files;
    var listed;
    listed, n := ListDirectory(disk, crc, s);
    spans := [];
    if listed.Err? { return Err(BadName), spans, n; }
    var listing := listed.value;
    spans := listing;
    var nextSeq := NextSeq(listing);
    var tables: seq<SSTable> := [];
    var at := 0;
    if good { n := ListMoves(crc, p, s, n, disk, spans, dir); }
    while at < |listing|
      invariant disk.log == old(disk.log) && at <= |listing|
      invariant OpenFrom(Published(dir), spans, 0, []) == OpenFrom(disk.files, spans, at, tables)
      invariant good ==> OpeningAt(disk.files, n, spans, at, tables) && n.nextSeq == nextSeq && SameStore(n, s)
      invariant good ==> Moves(crc, p, Here(disk, n), [])
    {
      var span := listing[at];
      assert OpenFrom(disk.files, spans, at, tables) == OpenNext(disk.files, spans, at, tables) by {
        OpenFromNext(disk.files, spans, at, tables);
      }
      if Superseded(span, ToSet(listing)) {
        ghost var m := Here(disk, n);
        disk.Remove(Sst(span));
        if good { n := RemoveMoves(crc, p, m, spans, at, tables, Here(disk, n)); }
      } else {
        if good { HeldTable(disk.files, n, spans, at, tables); }
        if Sst(span) !in disk.files { return Err(Eof), spans, n; }
        var table := TableRead.OpenTable(disk.files[Sst(span)], span);
        if table.Err? { return Err(table.error), spans, n; }
        if good { n := OpenMoves(crc, p, Here(disk, n), spans, at, tables, table.value); }
        tables := tables + [table.value];
      }
      at := at + 1;
    }
    assert OpenFrom(disk.files, spans, at, tables) == Ok((disk.files, tables)) by {
      OpenFromEnd(disk.files, spans, at, tables);
    }
    if good { n := DoneMoves(crc, p, Here(disk, n), spans, at, tables); }
    var found := new SSTableSet(disk, tables, nextSeq, bitsPerKey, numProbes, crc);
    return Ok(found), spans, n;
  }

  /** One place of the listing. */
  function OpenNext(files: Dir, spans: seq<Span>, at: nat, tables: seq<SSTable>): Result<(Dir, seq<SSTable>)>
    requires at < |spans|
  {
    if Superseded(spans[at], ToSet(spans)) then OpenFrom(files - {Sst(spans[at])}, spans, at + 1, tables)
    else if Sst(spans[at]) !in files then Err(Eof)
    else
      match ParseTable(files[Sst(spans[at])], spans[at])
      case Err(e) => Err(e)
      case Ok(t) => OpenFrom(files, spans, at + 1, tables + [t])
  }

  lemma OpenFromNext(files: Dir, spans: seq<Span>, at: nat, tables: seq<SSTable>)
    requires at < |spans|
    ensures OpenFrom(files, spans, at, tables) == OpenNext(files, spans, at, tables)
  {
    hide ParseTable, Superseded;
  }

  lemma OpenFromEnd(files: Dir, spans: seq<Span>, at: nat, tables: seq<SSTable>)
    requires at >= |spans|
    ensures OpenFrom(files, spans, at, tables) == Ok((files, tables))
  {
  }

  /* ---- What is kept, for any directory ---- */

  function Maximal(spans: seq<Span>, at: nat): seq<Span>
    decreases |spans| - at
  {
    if at >= |spans| then []
    else (if Superseded(spans[at], ToSet(spans)) then [] else [spans[at]]) + Maximal(spans, at + 1)
  }

  function SpansOfTables(tables: seq<SSTable>): seq<Span> {
    seq(|tables|, i requires 0 <= i < |tables| => tables[i].span)
  }

  lemma ParsedSpan(file: seq<byte>, span: Span)
    ensures ParseTable(file, span).Ok? ==> ParseTable(file, span).value.span == span
  {
    hide FromLE, ReadPrefixed, ParseFilter, ReadIndex;
  }

  lemma {:induction false} OpensMaximal(files: Dir, spans: seq<Span>, at: nat, tables: seq<SSTable>)
    requires OpenFrom(files, spans, at, tables).Ok?
    ensures SpansOfTables(OpenFrom(files, spans, at, tables).value.1) == SpansOfTables(tables) + Maximal(spans, at)
    decreases |spans| - at
  {
    hide ParseTable, Superseded;
    if at < |spans| {
      if Superseded(spans[at], ToSet(spans)) {
        OpensMaximal(files - {Sst(spans[at])}, spans, at + 1, tables);
      } else {
        var t := ParseTable(files[Sst(spans[at])], spans[at]).value;
        ParsedSpan(files[Sst(spans[at])], spans[at]);
        OpensMaximal(files, spans, at + 1, tables + [t]);
        assert SpansOfTables(tables + [t]) == SpansOfTables(tables) + [spans[at]];
      }
    }
  }

  /** A name that `open` deletes from place `at` of its listing on. */
  predicate Deleted(spans: seq<Span>, at: nat, n: Name)
    decreases |spans| - at
  {
    at < |spans| && ((n == Sst(spans[at]) && Superseded(spans[at], ToSet(spans))) || Deleted(spans, at + 1, n))
  }

  lemma {:induction false} DeletesSuperseded(files: Dir, spans: seq<Span>, at: nat, tables: seq<SSTable>, n: Name)
    requires OpenFrom(files, spans, at, tables).Ok?
    ensures n in OpenFrom(files, spans, at, tables).value.0 <==> n in files && !Deleted(spans, at, n)
    decreases |spans| - at
  {
    hide ParseTable, Superseded;
    if at < |spans| {
      if Superseded(spans[at], ToSet(spans)) {
        DeletesSuperseded(files - {Sst(spans[at])}, spans, at + 1, tables, n);
      } else {
        var t := ParseTable(files[Sst(spans[at])], spans[at]).value;
        DeletesSuperseded(files, spans, at + 1, tables + [t], n);
      }
    }
  }

  lemma {:induction false} DeletedIs(spans: seq<Span>, at: nat, s: Span)
    ensures Deleted(spans, at, Sst(s)) <==>
            Superseded(s, ToSet(spans)) && exists i :: at <= i < |spans| && spans[i] == s
    decreases |spans| - at
  {
    hide Superseded;
    if at < |spans| { DeletedIs(spans, at + 1, s); }
  }

  /** Opening any directory whose table files are readable keeps exactly the spans
      that no other span contains, in order, and deletes exactly the others. */
  lemma OpenKeepsMaximal(dir: Dir, spans: seq<Span>)
    requires IsListing(spans, SpansOf(dir)) && OpenFrom(Published(dir), spans, 0, []).Ok?
    ensures var (left, found) := OpenFrom(Published(dir), spans, 0, []).value;
            && SpansOfTables(found) == Maximal(spans, 0)
            && forall s :: Sst(s) in left <==> Sst(s) in dir && !Superseded(s, SpansOf(dir))
  {
    hide Superseded, OpenFrom;
    OpensMaximal(Published(dir), spans, 0, []);
    assert SpansOfTables([]) == [];
    var (left, found) := OpenFrom(Published(dir), spans, 0, []).value;
    assert ToSet(spans) == SpansOf(dir);
    forall s ensures Sst(s) in left <==> Sst(s) in dir && !Superseded(s, SpansOf(dir)) {
      DeletesSuperseded(Published(dir), spans, 0, [], Sst(s));
      DeletedIs(spans, 0, s);
      if Sst(s) in dir {
        assert Sst(s).span in SpansOf(dir) && s in spans;
        var i :| 0 <= i < |spans| && spans[i] == s;
      }
    }
  }

  /* ---- Opening what a crash left is the machine's recovery ---- */

  lemma ParseHeld(bytes: seq<byte>, entries: seq<Entry>, span: Span)
    requires FileHolds(bytes, entries) && Sorted(entries)
    ensures ParseTable(bytes, span).Ok? && TableHolds(ParseTable(bytes, span).value, Table(span, entries))
  {
    hide ParseTable, FileBytes, FitsFormat, KnowsKeys, Sorted;
    var f :| HeldWith(bytes, entries, f);
    OpenAfterWrite(entries, span, f);
  }

  lemma AtOpening(s: State)
    requires Inv(s) && s.phase.Opening? && s.phase.at < |s.phase.spans|
    requires !Superseded(s.phase.spans[s.phase.at], ToSet(s.phase.spans))
    ensures s.phase.spans[s.phase.at] in s.files && Sorted(s.files[s.phase.spans[s.phase.at]])
  {
  }

  lemma InDir(files: Dir, contents: Files, temps: set<Span>, span: Span)
    requires DirHolds(files, contents, temps) && span in contents
    ensures Sst(span) in files && FileHolds(files[Sst(span)], contents[span])
  {
    hide FileHolds;
    assert contents[span] == contents[span];
  }

  lemma SpansHeld(files: Dir, contents: Files, temps: set<Span>)
    requires DirHolds(files, contents, temps)
    ensures SpansOf(files) == contents.Keys
  {
    hide FileHolds;
    forall s ensures s in SpansOf(files) <==> s in contents {
      assert Sst(s) in files <==> s in contents;
      assert Sst(s) in files ==> Sst(s).span in SpansOf(files);
    }
  }

  lemma RemovedInv(a: State, b: State)
    requires Inv(a) && a.phase.Scanning? && b == a.(temps := {})
    ensures Inv(b) && b.live == []
  {
  }

  lemma ListMoves(crc: Checksum, p: Point, s: State, b: State, disk: FileSystem, spans: seq<Span>, dir: Dir)
    returns (n: State)
    requires Stopped(dir, s) && b == s.(temps := {}) && DirHolds(disk.files, b.files, b.temps)
    requires IsListing(spans, SpansOf(dir)) && Moves(crc, p, Here(disk, b), [])
    ensures OpeningAt(disk.files, n, spans, 0, []) && n.nextSeq == NextSeq(spans) && SameStore(n, s)
    ensures Moves(crc, p, Here(disk, n), [])
  {
    hide Moves, DirHolds, IsListing, Inv;
    SpansHeld(dir, s.files, s.temps);
    RemovedInv(s, b);
    RecoverInv(b, ListDir(spans));
    NothingHolds();
    var q := MemoryMoves(crc, p, Here(disk, b), Recover(ListDir(spans)));
    n := q.state;
  }

  lemma RemoveMoves(crc: Checksum, p: Point, m: Point, spans: seq<Span>, at: nat, tables: seq<SSTable>, after: Point)
    returns (n: State)
    requires OpeningAt(m.image.files, m.state, spans, at, tables) && Moves(crc, p, m, []) && at < |spans|
    requires Superseded(spans[at], ToSet(spans)) && after.image == Removed(m.image, Sst(spans[at]))
    requires after.state == m.state && after.trace == m.trace + [after.image]
    ensures OpeningAt(after.image.files, n, spans, at + 1, tables) && n.nextSeq == m.state.nextSeq
    ensures SameStore(n, m.state) && Moves(crc, p, after.(state := n), [])
  {
    hide Moves, DirHolds, TablesHold, Inv, Superseded;
    n := DoRecover(m.state, RemoveSuperseded);
    RecoverInv(m.state, RemoveSuperseded);
    DirUnlink(m.image.files, m.state.files, m.state.temps, spans[at]);
    MovesQuietly(crc, p, m, [], Does(Recover(RemoveSuperseded)), after.(state := n));
  }

  /** The next file to be opened is there and can be read. */
  lemma HeldTable(files: Dir, n: State, spans: seq<Span>, at: nat, tables: seq<SSTable>)
    requires OpeningAt(files, n, spans, at, tables) && at < |spans| && !Superseded(spans[at], ToSet(spans))
    ensures spans[at] in n.files && Sst(spans[at]) in files && ParseTable(files[Sst(spans[at])], spans[at]).Ok?
    ensures TableHolds(ParseTable(files[Sst(spans[at])], spans[at]).value, Table(spans[at], n.files[spans[at]]))
  {
    hide DirHolds, TablesHold, TableHolds, Inv, Superseded, ParseTable, FileHolds, Sorted;
    AtOpening(n);
    InDir(files, n.files, n.temps, spans[at]);
    ParseHeld(files[Sst(spans[at])], n.files[spans[at]], spans[at]);
  }

  lemma OpenMoves(crc: Checksum, p: Point, m: Point, spans: seq<Span>, at: nat, tables: seq<SSTable>, t: SSTable)
    returns (n: State)
    requires OpeningAt(m.image.files, m.state, spans, at, tables) && Moves(crc, p, m, []) && at < |spans|
    requires !Superseded(spans[at], ToSet(spans)) && spans[at] in m.state.files
    requires TableHolds(t, Table(spans[at], m.state.files[spans[at]]))
    ensures OpeningAt(m.image.files, n, spans, at + 1, tables + [t]) && n.nextSeq == m.state.nextSeq
    ensures SameStore(n, m.state) && Moves(crc, p, m.(state := n), [])
  {
    hide Moves, DirHolds, TablesHold, TableHolds, Inv, Superseded;
    RecoverInv(m.state, OpenTable);
    AppendHolds(tables, m.state.live, t, Table(spans[at], m.state.files[spans[at]]));
    var q := MemoryMoves(crc, p, m, Recover(OpenTable));
    n := q.state;
  }

  lemma DoneMoves(crc: Checksum, p: Point, m: Point, spans: seq<Span>, at: nat, tables: seq<SSTable>)
    returns (n: State)
    requires OpeningAt(m.image.files, m.state, spans, at, tables) && Moves(crc, p, m, []) && at == |spans|
    ensures DirHolds(m.image.files, n.files, n.temps) && TablesHold(tables, n.live) && n.nextSeq == m.state.nextSeq
    ensures SameStore(n, m.state) && n.phase.Up? && Moves(crc, p, m.(state := n), [])
  {
    hide Moves, DirHolds, TablesHold, Inv;
    var q := MemoryMoves(crc, p, m, Recover(OpenDone));
    n := q.state;
  }
}
