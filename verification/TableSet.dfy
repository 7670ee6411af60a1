/** The set of tables over a directory of real files. Every method that changes
    the directory or the list is shown to be a run of the step machine through
    exactly the images it leaves on disk: the ghost state `s` is where the machine
    is before the call, `n` where it is after it. */
module TableSet {
  import opened Bytes
  import opened Tables
  import opened Hash
  import opened TableFile
  import opened TableGet
  import opened TableRecords
  import opened Merge
  import opened PickRun
  import opened Names
  import opened Disk
  import opened Store
  import opened StoreImages
  import opened Wal

  /** No file system takes a larger file. */
  const FILE_LIMIT := 0x2000_0000_0000_0000

  /** The table that a set with this configuration writes for `entries`. */
  function NewTable(entries: seq<Entry>, span: Span, bitsPerKey: nat, numProbes: nat): SSTable {
    TableWith(entries, span, FilterFor(entries, bitsPerKey, numProbes))
  }

  /** And whether its file gets too large to be written. */
  predicate TooBig(entries: seq<Entry>, bitsPerKey: nat, numProbes: nat) {
    |FileBytes(entries, FilterFor(entries, bitsPerKey, numProbes))| >= FILE_LIMIT
  }

  lemma NewTableFile(entries: seq<Entry>, span: Span, bitsPerKey: nat, numProbes: nat)
    ensures var t := NewTable(entries, span, bitsPerKey, numProbes);
            t.span == span && (|t.file| >= FILE_LIMIT <==> TooBig(entries, bitsPerKey, numProbes))
  {
    hide FilterFor, FileBytes;
  }

  ghost predicate EntryFits(e: Entry) {
    |e.key| < U32 && |ValueBytes(e.value)| < U32
  }

  ghost predicate AllEntriesFit(entries: seq<Entry>) {
    forall i :: 0 <= i < |entries| ==> EntryFits(entries[i])
  }

  /** `t` is the open table for a file holding the entries of `lt`. */
  ghost predicate TableHolds(t: SSTable, lt: Table) {
    t.span == lt.span && FileOf(t, lt.entries) && KnowsKeys(t.filter, lt.entries) && Sorted(lt.entries)
  }

  ghost predicate TablesHold(ts: seq<SSTable>, live: seq<Table>) {
    |ts| == |live| && forall i :: 0 <= i < |ts| ==> TableHolds(ts[i], live[i])
  }

  /** A file below the limit that was written from fitting entries can be read
      back, and its filter knows its keys. */
  lemma WrittenHolds(entries: seq<Entry>, span: Span, bitsPerKey: nat, numProbes: nat)
    requires AllEntriesFit(entries) && Sorted(entries) && numProbes < U32
    requires |FileBytes(entries, FilterFor(entries, bitsPerKey, numProbes))| < FILE_LIMIT
    ensures var f := FilterFor(entries, bitsPerKey, numProbes);
            && FileHolds(FileBytes(entries, f), entries)
            && TableHolds(TableWith(entries, span, f), Table(span, entries))
  {
    hide Sorted, KnowsKeys, Bloom.Insert, Data, IndexBytes, MetaBytes, Trailer, IndexOf;
    var f := FilterFor(entries, bitsPerKey, numProbes);
    FilterForKnowsKeys(entries, bitsPerKey, numProbes);
    assert |FilterBytes(f)| <= |FileBytes(entries, f)|;
    assert HeldWith(FileBytes(entries, f), entries, f);
  }

  /* ---- Sorted iteration over the memtable ---- */

  function InsertEntry(entries: seq<Entry>, e: Entry): seq<Entry> {
    if entries == [] then [e]
    else if Less(e.key, entries[0].key) then [e] + entries
    else [entries[0]] + InsertEntry(entries[1..], e)
  }

  lemma {:induction false} InsertEntryFind(entries: seq<Entry>, e: Entry, k: Key)
    requires Find(entries, e.key) == None
    ensures Find(InsertEntry(entries, e), k) == if k == e.key then Some(e.value) else Find(entries, k)
  {
    hide Less;
    if entries != [] && !Less(e.key, entries[0].key) {
      InsertEntryFind(entries[1..], e, k);
    }
  }

  ghost predicate AllAfter(key: Key, entries: seq<Entry>) {
    forall i :: 0 <= i < |entries| ==> Less(key, entries[i].key)
  }

  lemma SortedCons(e: Entry, entries: seq<Entry>)
    requires Sorted(entries) && AllAfter(e.key, entries)
    ensures Sorted([e] + entries)
  {
    hide Less;
  }

  lemma {:induction false} InsertEntryAfter(key: Key, entries: seq<Entry>, e: Entry)
    requires AllAfter(key, entries) && Less(key, e.key)
    ensures AllAfter(key, InsertEntry(entries, e))
  {
    hide Less;
    if entries != [] && !Less(e.key, entries[0].key) {
      InsertEntryAfter(key, entries[1..], e);
    }
  }

  lemma {:induction false} InsertEntrySorted(entries: seq<Entry>, e: Entry)
    requires Sorted(entries) && Find(entries, e.key) == None
    ensures Sorted(InsertEntry(entries, e))
  {
    hide Less;
    if entries != [] {
      if Less(e.key, entries[0].key) {
        forall i | 0 <= i < |entries| ensures Less(e.key, entries[i].key) {
          if i > 0 { LessTransitive(e.key, entries[0].key, entries[i].key); }
        }
        SortedCons(e, entries);
      } else {
        LessTotal(e.key, entries[0].key);
        InsertEntrySorted(entries[1..], e);
        InsertEntryAfter(entries[0].key, entries[1..], e);
        SortedCons(entries[0], InsertEntry(entries[1..], e));
      }
    }
  }

  /** The entries of the memtable in key order. */
  method InOrder(mem: Memtable) returns (entries: seq<Entry>)
    ensures IsFlush(mem, entries)
  {
    hide InsertEntry, Sorted, Less;
    entries := [];
    var rest := mem.Keys;
    ghost var done: set<Key> := {};
    assert Sorted(entries) by { SortedEmpty(); }
    while rest != {}
      invariant rest <= mem.Keys && done == mem.Keys - rest
      invariant Sorted(entries)
      invariant forall k :: Find(entries, k) == if k in done then Some(mem[k]) else None
      decreases |rest|
    {
      var key :| key in rest;
      InsertEntrySorted(entries, Entry(key, mem[key]));
      forall k ensures Find(InsertEntry(entries, Entry(key, mem[key])), k)
                       == if k in done + {key} then Some(mem[k]) else None {
        InsertEntryFind(entries, Entry(key, mem[key]), k);
      }
      entries := InsertEntry(entries, Entry(key, mem[key]));
      rest := rest - {key};
      done := done + {key};
    }
  }

  lemma SortedEmpty()
    ensures Sorted([])
  {
  }

  ghost predicate MemFits(mem: Memtable) {
    forall k :: k in mem ==> EntryFits(Entry(k, mem[k]))
  }

  lemma FlushFits(mem: Memtable, entries: seq<Entry>)
    requires MemFits(mem) && IsFlush(mem, entries)
    ensures AllEntriesFit(entries)
  {
    forall i | 0 <= i < |entries| ensures EntryFits(entries[i]) {
      FindAt(entries, i);
      assert Find(entries, entries[i].key) == MemFind(mem, entries[i].key);
    }
  }

  /* ---- Merged entries fit because the run's do ---- */

  lemma {:induction false} FindFits(entries: seq<Entry>, k: Key)
    requires AllEntriesFit(entries) && Find(entries, k).Some?
    ensures EntryFits(Entry(k, Find(entries, k).value))
  {
    if entries[0].key != k { FindFits(entries[1..], k); }
  }

  lemma {:induction false} NewestFits(run: seq<Table>, k: Key)
    requires forall i :: 0 <= i < |run| ==> AllEntriesFit(run[i].entries)
    requires Newest(run, k).Some?
    ensures EntryFits(Entry(k, Newest(run, k).value))
  {
    hide AllEntriesFit;
    var last := run[|run| - 1];
    if Find(last.entries, k).Some? { FindFits(last.entries, k); } else { NewestFits(run[..|run| - 1], k); }
  }

  lemma MergeFits(run: seq<Table>, dropTombstones: bool, out: seq<Entry>)
    requires forall i :: 0 <= i < |run| ==> AllEntriesFit(run[i].entries)
    requires IsMerge(run, dropTombstones, out)
    ensures AllEntriesFit(out)
  {
    hide EntryFits;
    forall i | 0 <= i < |out| ensures EntryFits(out[i]) {
      FindAt(out, i);
      assert Find(out, out[i].key) == Kept(Newest(run, out[i].key), dropTombstones);
      NewestFits(run, out[i].key);
    }
  }

  lemma TableEntriesFit(t: SSTable, lt: Table)
    requires TableHolds(t, lt)
    ensures AllEntriesFit(lt.entries)
  {
  }

  /** Everything but the directory, the list and the compactor is as before. */
  predicate SameButList(n: State, s: State) {
    n.nextSeq == s.nextSeq && n.phase == s.phase && n.log == s.log && n.mem == s.mem
    && n.writer == s.writer && n.readers == s.readers
  }

  /* ---- The moves behind each method ---- */

  /** The temporary file is written piece by piece. */
  lemma {:induction false} FillMoves(crc: Checksum, p: Point, span: Span, bytes: seq<byte>, q: Point)
    requires Tmp(span) in p.image.files
    requires q == Point(p.state, Written(p.image, Tmp(span), p.image.files[Tmp(span)] + bytes),
                        p.trace + Filling(p.image, Tmp(span), bytes))
    ensures Moves(crc, p, q, [])
    decreases |bytes|
  {
    hide Moves;
    var name := Tmp(span);
    if bytes == [] {
      assert Filling(p.image, name, bytes) == [q.image];
      MovesAct(crc, p, Fills(span), q);
    } else {
      var front := bytes[..|bytes| - 1];
      var m := Point(p.state, Written(p.image, name, p.image.files[name] + front),
                     p.trace + Filling(p.image, name, front));
      FillMoves(crc, p, span, front, m);
      FillingMore(p.image, name, bytes);
      MovesQuietly(crc, p, m, [], Fills(span), q);
    }
  }

  lemma FillingMore(i: Image, name: Name, bytes: seq<byte>)
    requires name in i.files && bytes != []
    ensures Filling(i, name, bytes) ==
            Filling(i, name, bytes[..|bytes| - 1]) + [Written(i, name, i.files[name] + bytes)]
  {
    var front := bytes[..|bytes| - 1];
    assert bytes[..|bytes|] == bytes;
    assert forall k :: 0 <= k <= |front| ==> front[..k] == bytes[..k];
  }

  ghost predicate StartsTemp(s: State, step: Step, span: Span) {
    && Enabled(s, step) && TouchesDisk(step) && EventOf(s, step).Internal?
    && ((step.Write? && step.w.FlushTemp? && span == Span(s.nextSeq, s.nextSeq))
        || (step.Compact? && step.c.MergeTemp?
            && span == SpanOfRun(s.compactor.snap[s.compactor.start..s.compactor.start + s.compactor.count])))
  }

  /** Creating the temporary file is the machine's step. */
  lemma TempMoves(crc: Checksum, p: Point, step: Step, span: Span, bytes: seq<byte>, q: Point)
    requires StartsTemp(p.state, step, span)
    requires q == Point(Apply(p.state, step), Written(p.image, Tmp(span), bytes),
                        p.trace + Writing(p.image, Tmp(span), bytes))
    ensures Moves(crc, p, q, [])
  {
    hide Moves, Enabled, Apply, EventOf;
    var m := Point(q.state, Created(p.image, Tmp(span)), p.trace + [Created(p.image, Tmp(span))]);
    assert TempChanged(p.image, m.image, span);
    MovesAct(crc, p, Does(step), m);
    assert m.image.files[Tmp(span)] + bytes == bytes;
    assert Written(m.image, Tmp(span), bytes) == q.image;
    assert m.trace + Filling(m.image, Tmp(span), bytes) == q.trace;
    FillMoves(crc, m, span, bytes, q);
    MovesQuietlyOn(crc, p, m, q);
  }

  ghost predicate Renames(s: State, step: Step, t: Table) {
    && Enabled(s, step) && TouchesDisk(step) && EventOf(s, step).Internal?
    && ((step.Write? && step.w.FlushPublish? && s.writer.table == t)
        || (step.Compact? && step.c.MergePublish? && s.compactor.table == t))
  }

  /** Giving the complete file its final name is the machine's next step. */
  lemma PublishMoves(crc: Checksum, p: Point, temp: Step, publish: Step, t: Table, bytes: seq<byte>, q: Point)
    requires StartsTemp(p.state, temp, t.span) && Renames(Apply(p.state, temp), publish, t)
    requires FileHolds(bytes, t.entries)
    requires q == Point(Apply(Apply(p.state, temp), publish), Finished(p.image, Tmp(t.span), Sst(t.span), bytes),
                        p.trace + Publishing(p.image, Tmp(t.span), Sst(t.span), bytes))
    ensures Moves(crc, p, q, [])
  {
    hide Moves, Enabled, Apply, EventOf, FileHolds;
    var name := Tmp(t.span);
    var m := Point(Apply(p.state, temp), Written(p.image, name, bytes), p.trace + Writing(p.image, name, bytes));
    TempMoves(crc, p, temp, t.span, bytes, m);
    assert m.image.files - {name} == p.image.files - {name};
    assert TableRenamed(m.image, q.image, t);
    assert m.trace + [q.image] == q.trace;
    MovesQuietly(crc, p, m, [], Does(publish), q);
  }

  lemma FlushMoves(crc: Checksum, p: Point, t: Table, bytes: seq<byte>) returns (q: Point)
    requires var s := p.state; s.writer.Applied? && IsFlush(s.mem, t.entries) && t.span == Span(s.nextSeq, s.nextSeq)
    requires FileHolds(bytes, t.entries)
    ensures var s := p.state;
            q.state == s.(files := s.files[t.span := t.entries], temps := s.temps - {t.span}, nextSeq := s.nextSeq + 1,
                          live := s.live + [t], writer := Pushed(s.writer.op))
    ensures q.image == Finished(p.image, Tmp(t.span), Sst(t.span), bytes)
    ensures q.trace == p.trace + Publishing(p.image, Tmp(t.span), Sst(t.span), bytes)
    ensures Moves(crc, p, q, [])
  {
    hide Moves, IsFlush, FileHolds, Finished, Publishing;
    var s := p.state;
    var temp, publish := Step.Write(FlushTemp(t.entries)), Step.Write(FlushPublish);
    var n := DoWrite(DoWrite(s, FlushTemp(t.entries)), FlushPublish);
    assert s.temps + {t.span} - {t.span} == s.temps - {t.span};
    q := Point(n, Finished(p.image, Tmp(t.span), Sst(t.span), bytes),
               p.trace + Publishing(p.image, Tmp(t.span), Sst(t.span), bytes));
    PublishMoves(crc, p, temp, publish, t, bytes, q);
    q := MemoryMoves(crc, p, q, Step.Write(FlushStoreSeq));
    q := MemoryMoves(crc, p, q, Step.Write(FlushPush));
  }

  lemma FlushFailMoves(crc: Checksum, p: Point, t: Table, bytes: seq<byte>) returns (q: Point)
    requires var s := p.state; s.writer.Applied? && IsFlush(s.mem, t.entries) && t.span == Span(s.nextSeq, s.nextSeq)
    ensures q.state == p.state.(temps := p.state.temps + {t.span}, writer := TempWritten(p.state.writer.op, t))
    ensures q.image == Written(p.image, Tmp(t.span), bytes)
    ensures q.trace == p.trace + Writing(p.image, Tmp(t.span), bytes)
    ensures Moves(crc, p, q, [])
  {
    hide Moves, IsFlush, Written, Writing;
    q := Point(DoWrite(p.state, FlushTemp(t.entries)), Written(p.image, Tmp(t.span), bytes),
               p.trace + Writing(p.image, Tmp(t.span), bytes));
    TempMoves(crc, p, Step.Write(FlushTemp(t.entries)), t.span, bytes, q);
  }

  ghost predicate ReadyToPublish(s: State, t: Table) {
    && s.compactor.Snapped? && s.compactor.count > 0 && s.compactor.start + s.compactor.count <= |s.compactor.snap|
    && t.span == SpanOfRun(s.compactor.snap[s.compactor.start..s.compactor.start + s.compactor.count])
    && CanCompact(s, if t.entries == [] then MergeEmpty else MergeTemp(t.entries))
  }

  lemma MergeMoves(crc: Checksum, p: Point, t: Table, bytes: seq<byte>) returns (q: Point)
    requires ReadyToPublish(p.state, t) && t.entries != [] && FileHolds(bytes, t.entries)
    ensures var s := p.state;
            q.state == s.(files := s.files[t.span := t.entries], temps := s.temps - {t.span},
                          compactor := Merged(s.compactor.start, s.compactor.count, Some(t)))
    ensures q.image == Finished(p.image, Tmp(t.span), Sst(t.span), bytes)
    ensures q.trace == p.trace + Publishing(p.image, Tmp(t.span), Sst(t.span), bytes)
    ensures Moves(crc, p, q, [])
  {
    hide Moves, IsMerge, FileHolds, Finished, Publishing;
    var s := p.state;
    var n := DoCompact(DoCompact(s, MergeTemp(t.entries)), MergePublish);
    assert s.temps + {t.span} - {t.span} == s.temps - {t.span};
    q := Point(n, Finished(p.image, Tmp(t.span), Sst(t.span), bytes),
               p.trace + Publishing(p.image, Tmp(t.span), Sst(t.span), bytes));
    PublishMoves(crc, p, Compact(MergeTemp(t.entries)), Compact(MergePublish), t, bytes, q);
  }

  lemma MergeFailMoves(crc: Checksum, p: Point, t: Table, bytes: seq<byte>) returns (q: Point)
    requires ReadyToPublish(p.state, t) && t.entries != []
    ensures q.state == p.state.(temps := p.state.temps + {t.span}, compactor := Resting)
    ensures q.image == Written(p.image, Tmp(t.span), bytes)
    ensures q.trace == p.trace + Writing(p.image, Tmp(t.span), bytes)
    ensures Moves(crc, p, q, [])
  {
    hide Moves, IsMerge, Written, Writing;
    q := Point(DoCompact(p.state, MergeTemp(t.entries)), Written(p.image, Tmp(t.span), bytes),
               p.trace + Writing(p.image, Tmp(t.span), bytes));
    TempMoves(crc, p, Compact(MergeTemp(t.entries)), t.span, bytes, q);
    q := MemoryMoves(crc, p, q, Compact(MergeFail));
  }

  lemma EmptyMoves(crc: Checksum, p: Point, t: Table) returns (q: Point)
    requires ReadyToPublish(p.state, t) && t.entries == []
    ensures q == p.(state := p.state.(compactor := Merged(p.state.compactor.start, p.state.compactor.count, None)))
    ensures Moves(crc, p, q, [])
  {
    hide Moves, IsMerge;
    MovesNowhere(crc, p);
    q := MemoryMoves(crc, p, p, Compact(MergeEmpty));
  }

  /** A table that has just been written and published. */
  lemma PublishedHolds(files: Dir, contents: Files, temps: set<Span>, entries: seq<Entry>, span: Span,
                       bitsPerKey: nat, numProbes: nat, t: SSTable)
    requires DirHolds(files, contents, temps)
    requires AllEntriesFit(entries) && Sorted(entries) && numProbes < U32
    requires t == NewTable(entries, span, bitsPerKey, numProbes) && !TooBig(entries, bitsPerKey, numProbes)
    ensures DirHolds((files - {Tmp(span)})[Sst(span) := t.file], contents[span := entries], temps - {span})
    ensures TableHolds(t, Table(span, entries)) && FileHolds(t.file, entries)
  {
    hide DirHolds, TableHolds, FileHolds, FilterFor, FileBytes, AllEntriesFit, Sorted;
    WrittenHolds(entries, span, bitsPerKey, numProbes);
    DirPublish(files, contents, temps, span, t.file, entries);
  }

  /* ---- What a flush and a compaction come to ---- */

  /** The state after a flush of `entries`. */
  function Flushed(s: State, entries: seq<Entry>): State
    requires s.writer.Applied?
  {
    var span := Span(s.nextSeq, s.nextSeq);
    s.(files := s.files[span := entries], temps := s.temps - {span}, nextSeq := s.nextSeq + 1,
       live := s.live + [Table(span, entries)], writer := Pushed(s.writer.op))
  }

  /** And after one whose table could not be written. */
  function FlushFailed(s: State, entries: seq<Entry>): State
    requires s.writer.Applied?
  {
    var span := Span(s.nextSeq, s.nextSeq);
    s.(temps := s.temps + {span}, writer := TempWritten(s.writer.op, Table(span, entries)))
  }

  /** What a set holds in memory and on disk. */
  datatype Shelf = Shelf(tables: seq<SSTable>, nextSeq: nat, image: Image)

  /** What is held when a table of `entries` has been published. */
  function Shelved(a: Shelf, entries: seq<Entry>, bitsPerKey: nat, numProbes: nat): Shelf {
    var span := Span(a.nextSeq, a.nextSeq);
    var t := NewTable(entries, span, bitsPerKey, numProbes);
    Shelf(a.tables + [t], a.nextSeq + 1, Finished(a.image, Tmp(span), Sst(span), t.file))
  }

  /** And when its file got too large. */
  function Unshelved(a: Shelf, entries: seq<Entry>, bitsPerKey: nat, numProbes: nat): Shelf
    requires TooBig(entries, bitsPerKey, numProbes)
  {
    var span := Span(a.nextSeq, a.nextSeq);
    NewTableFile(entries, span, bitsPerKey, numProbes);
    var t := NewTable(entries, span, bitsPerKey, numProbes);
    a.(image := Written(a.image, Tmp(span), t.file[..FILE_LIMIT]))
  }

  /** The answer to writing the memtable, and what is held after it. */
  ghost predicate WriteAnswers(mem: Memtable, s: State, a: Shelf, entries: seq<Entry>, r: Result<()>, n: State,
                               b: Shelf, bitsPerKey: nat, numProbes: nat)
  {
    && s.writer.Applied? && IsFlush(mem, entries)
    && if mem == map[] then r == Ok(()) && n == s && b == a
       else if TooBig(entries, bitsPerKey, numProbes) then
         r == Err(TooLarge) && n == FlushFailed(s, entries) && b == Unshelved(a, entries, bitsPerKey, numProbes)
       else r == Ok(()) && n == Flushed(s, entries) && b == Shelved(a, entries, bitsPerKey, numProbes)
  }

  function OutOf(span: Span, merged: seq<Entry>): Option<Table> {
    if merged == [] then None else Some(Table(span, merged))
  }

  /** The tables that take the place of a merged run. */
  function Replacement(span: Span, merged: seq<Entry>, bitsPerKey: nat, numProbes: nat): seq<SSTable> {
    if merged == [] then [] else [NewTable(merged, span, bitsPerKey, numProbes)]
  }

  predicate CannotWrite(merged: seq<Entry>, bitsPerKey: nat, numProbes: nat) {
    merged != [] && TooBig(merged, bitsPerKey, numProbes)
  }

  /** The state when the merge of a run has been published. */
  function WithMerged(s: State, start: nat, count: nat, span: Span, merged: seq<Entry>): State {
    if merged == [] then s.(compactor := Merged(start, count, None))
    else s.(files := s.files[span := merged], temps := s.temps - {span},
            compactor := Merged(start, count, Some(Table(span, merged))))
  }

  function SpanSet(tables: seq<Table>): set<Span> {
    set t | t in tables :: t.span
  }

  /** The state when the merged run has been taken off the list and its files
      unlinked. */
  function Spliced(s: State): State
    requires s.compactor.Merged? && s.compactor.start + s.compactor.count <= |s.live|
  {
    var c := s.compactor;
    s.(files := s.files - SpanSet(s.live[c.start..c.start + c.count]),
       live := Splice(s.live, c.start, c.count, c.out), compactor := Resting)
  }

  /** A list of open tables and the machine's state behind it. */
  datatype Round = Round(tables: seq<SSTable>, state: State)

  /** Compaction of tables `start .. start + count` takes `a` to `b`: exactly these
      tables are replaced, by their merge, and exactly their files are gone. */
  ghost predicate CompactsTo(a: Round, start: nat, count: nat, merged: seq<Entry>, b: Round,
                             bitsPerKey: nat, numProbes: nat)
  {
    && count >= 2 && start + count <= |a.tables| == |a.state.live|
    && var run := a.state.live[start..start + count];
       && IsMerge(run, start == 0, merged) && !CannotWrite(merged, bitsPerKey, numProbes)
       && b.tables == a.tables[..start] + Replacement(SpanOfRun(run), merged, bitsPerKey, numProbes)
                      + a.tables[start + count..]
       && b.state == Spliced(WithMerged(a.state, start, count, SpanOfRun(run), merged))
  }

  /** The merge of these tables is too large for a file; nothing but a temporary
      file is left of it. */
  ghost predicate CompactionFails(a: Round, start: nat, count: nat, merged: seq<Entry>, b: Round,
                                  bitsPerKey: nat, numProbes: nat)
  {
    && count >= 2 && start + count <= |a.tables| == |a.state.live|
    && var run := a.state.live[start..start + count];
       && IsMerge(run, start == 0, merged) && CannotWrite(merged, bitsPerKey, numProbes)
       && b == a.(state := a.state.(temps := a.state.temps + {SpanOfRun(run)}, compactor := Resting))
  }

  /** One after another, the runs that are picked are compacted, and no others. */
  ghost predicate PickedRounds(rounds: seq<Round>, minRun: nat, ratio: real, bitsPerKey: nat, numProbes: nat) {
    && rounds != []
    && forall i :: 0 < i < |rounds| ==> PickedRound(rounds[i - 1], rounds[i], minRun, ratio, bitsPerKey, numProbes)
  }

  ghost predicate PickedRound(a: Round, b: Round, minRun: nat, ratio: real, bitsPerKey: nat, numProbes: nat) {
    exists merged ::
      var run := PickFrom(SizesOf(a.tables), minRun, ratio, 0);
      run.Some? && CompactsTo(a, run.value.0, run.value.1, merged, b, bitsPerKey, numProbes)
  }

  ghost predicate PickedFails(a: Round, b: Round, minRun: nat, ratio: real, bitsPerKey: nat, numProbes: nat) {
    exists merged ::
      var run := PickFrom(SizesOf(a.tables), minRun, ratio, 0);
      run.Some? && CompactionFails(a, run.value.0, run.value.1, merged, b, bitsPerKey, numProbes)
  }

  /** File sizes, as `pick_run` sees them. */
  function SizesOf(tables: seq<SSTable>): (sizes: seq<nat>)
    ensures |sizes| == |tables|
  {
    seq(|tables|, i requires 0 <= i < |tables| => |tables[i].file|)
  }

  lemma RoundAdded(rounds: seq<Round>, b: Round, minRun: nat, ratio: real, bitsPerKey: nat, numProbes: nat)
    requires PickedRounds(rounds, minRun, ratio, bitsPerKey, numProbes)
    requires PickedRound(rounds[|rounds| - 1], b, minRun, ratio, bitsPerKey, numProbes)
    ensures PickedRounds(rounds + [b], minRun, ratio, bitsPerKey, numProbes)
  {
    hide PickedRound;
    var all := rounds + [b];
    forall i | 0 < i < |all| ensures PickedRound(all[i - 1], all[i], minRun, ratio, bitsPerKey, numProbes) {
      if i < |rounds| { assert all[i] == rounds[i] && all[i - 1] == rounds[i - 1]; }
    }
  }

  lemma SpanSetStep(tables: seq<Table>, i: nat)
    requires i < |tables|
    ensures SpanSet(tables[..i + 1]) == SpanSet(tables[..i]) + {tables[i].span}
  {
    assert tables[..i + 1] == tables[..i] + [tables[i]];
  }

  lemma NoSpanSet(files: Files)
    ensures files - SpanSet([]) == files
  {
  }

  lemma DropSpan(files: Files, a: set<Span>, span: Span)
    ensures files - a - {span} == files - (a + {span})
  {
  }

  /** The machine state `s` describes a directory, a list and a counter. */
  ghost predicate Describes(s: State, files: Dir, tables: seq<SSTable>, nextSeq: nat) {
    DirHolds(files, s.files, s.temps) && TablesHold(tables, s.live) && nextSeq == s.nextSeq
  }

  lemma DescribesAlso(s: State, n: State, files: Dir, tables: seq<SSTable>, nextSeq: nat)
    requires Describes(s, files, tables, nextSeq)
    requires n.files == s.files && n.temps == s.temps && n.live == s.live && n.nextSeq == s.nextSeq
    ensures Describes(n, files, tables, nextSeq)
  {
    hide DirHolds, TablesHold;
  }

  /* ---- The set ---- */

  class SSTableSet {
    const disk: FileSystem
    var tables: seq<SSTable>
    var nextSeq: nat
    const bitsPerKey: nat
    const numProbes: nat
    /** The log's checksum, which only the specification mentions. */
    ghost const crc: Checksum

    /** The machine state `s` describes the directory, the list and the counter. */
    ghost predicate Represents(s: State)
      reads this, disk
    {
      Describes(s, disk.files, tables, nextSeq) && numProbes < U32
    }

    function OnShelf(): Shelf
      reads this, disk
    {
      Shelf(tables, nextSeq, disk.Now())
    }

    constructor (disk: FileSystem, tables: seq<SSTable>, nextSeq: nat, bitsPerKey: nat, numProbes: nat,
                 ghost crc: Checksum)
      ensures this.disk == disk && this.tables == tables && this.nextSeq == nextSeq
      ensures this.bitsPerKey == bitsPerKey && this.numProbes == numProbes && this.crc == crc
    {
      this.disk := disk;
      this.tables := tables;
      this.nextSeq := nextSeq;
      this.bitsPerKey := bitsPerKey;
      this.numProbes := numProbes;
      this.crc := crc;
    }

    /** `write_table` on disk: everything goes to the temporary name, and the
        rename publishes it. If the file gets too large, a part of it stays
        behind under the temporary name. */
    method WriteTableFile(span: Span, entries: seq<Entry>) returns (r: Result<SSTable>)
      modifies disk
      ensures var t := NewTable(entries, span, bitsPerKey, numProbes);
              if !TooBig(entries, bitsPerKey, numProbes) then
                && r == Ok(t) && disk.Now() == Finished(old(disk.Now()), Tmp(span), Sst(span), t.file)
                && disk.trace == old(disk.trace) + Publishing(old(disk.Now()), Tmp(span), Sst(span), t.file)
              else
                && FILE_LIMIT <= |t.file|
                && r == Err(TooLarge) && disk.Now() == Written(old(disk.Now()), Tmp(span), t.file[..FILE_LIMIT])
                && disk.trace == old(disk.trace) + Writing(old(disk.Now()), Tmp(span), t.file[..FILE_LIMIT])
    {
      hide FilterFor, TableWith, TooBig;
      ghost var i, trace := disk.Now(), disk.trace;
      var table := WriteTable(entries, span, bitsPerKey, numProbes);
      NewTableFile(entries, span, bitsPerKey, numProbes);
      var bytes := if |table.file| < FILE_LIMIT then table.file else table.file[..FILE_LIMIT];
      disk.Create(Tmp(span));
      assert disk.Now() == Created(i, Tmp(span)) && disk.files[Tmp(span)] == [];
      disk.Write(Tmp(span), bytes);
      assert [] + bytes == bytes;
      assert disk.files == i.files[Tmp(span) := bytes];
      assert disk.trace == trace + Writing(i, Tmp(span), bytes);
      if |table.file| >= FILE_LIMIT { return Err(TooLarge); }
      disk.Rename(Tmp(span), Sst(span));
      assert disk.files == (i.files - {Tmp(span)})[Sst(span) := bytes];
      return Ok(table);
    }

    /** Flushing the memtable: publish its table, store the next sequence number,
        append the table to the list. It fails if and only if the file gets too
        large, and then leaves only a part of it under the temporary name. */
    method Write(mem: Memtable, ghost s: State) returns (r: Result<()>, ghost n: State, ghost entries: seq<Entry>)
      requires Represents(s) && s.writer.Applied? && s.mem == mem && MemFits(mem)
      modifies this, disk
      ensures Represents(n) && Moves(crc, old(Here(disk, s)), Here(disk, n), []) && disk.log == old(disk.log)
      ensures WriteAnswers(mem, s, old(OnShelf()), entries, r, n, OnShelf(), bitsPerKey, numProbes)
    {
      hide DirHolds, TableHolds, TablesHold, Moves, FileHolds, IsFlush, MemFits, NewTable, TooBig, AllEntriesFit;
      hide Sorted, Publishing, Writing;
      ghost var p, files := Here(disk, s), disk.files;
      MovesNowhere(crc, p);
      if mem == map[] {
        NothingFlushed();
        return Ok(()), s, [];
      }
      var sorted := InOrder(mem);
      entries := sorted;
      FlushFits(mem, sorted);
      FlushSorted(mem, sorted);
      var seqNo := nextSeq;
      var span := Span(seqNo, seqNo);
      ghost var t := Table(span, sorted);
      var written := WriteTableFile(span, sorted);
      ghost var q;
      if written.Err? {
        DirCreate(files, s.files, s.temps, span, disk.files[Tmp(span)]);
        q := FlushFailMoves(crc, p, t, disk.files[Tmp(span)]);
        n := q.state;
        return Err(written.error), n, entries;
      }
      PublishedHolds(files, s.files, s.temps, sorted, span, bitsPerKey, numProbes, written.value);
      nextSeq := seqNo + 1;
      tables := tables + [written.value];
      AppendHolds(old(tables), s.live, written.value, t);
      q := FlushMoves(crc, p, t, written.value.file);
      n := q.state;
      return Ok(()), n, entries;
    }

    /** Reads a run of tables through their record iterators. */
    method ReadRun(run: seq<SSTable>, ghost live: seq<Table>) returns (r: Result<seq<Table>>)
      ensures TablesHold(run, live) ==> r == Ok(live)
    {
      hide TableHolds;
      var streams: seq<Table> := [];
      for i := 0 to |run|
        invariant TablesHold(run, live) ==> streams == live[..i]
      {
        var entries := ReadAll(run[i]);
        if TablesHold(run, live) { HeldIsRead(run[i], live[i]); }
        if entries.Err? { return Err(entries.error); }
        streams := streams + [Table(run[i].span, entries.value)];
      }
      assert TablesHold(run, live) ==> live[..|run|] == live;
      return Ok(streams);
    }

    /** Publishes the output of a merge, if it kept anything. */
    method PublishMerged(span: Span, merged: seq<Entry>, ghost s: State)
      returns (r: Result<seq<SSTable>>, ghost n: State)
      requires DirHolds(disk.files, s.files, s.temps) && numProbes < U32
      requires AllEntriesFit(merged) && Sorted(merged)
      requires s.compactor.Snapped? && ReadyToPublish(s, Table(span, merged))
      modifies disk
      ensures DirHolds(disk.files, n.files, n.temps)
      ensures Moves(crc, old(Here(disk, s)), Here(disk, n), []) && disk.log == old(disk.log)
      ensures if CannotWrite(merged, bitsPerKey, numProbes) then
                r == Err(TooLarge) && n == s.(temps := s.temps + {span}, compactor := Resting)
              else
                && r == Ok(Replacement(span, merged, bitsPerKey, numProbes))
                && n == WithMerged(s, s.compactor.start, s.compactor.count, span, merged)
                && TablesHold(r.value, AsList(OutOf(span, merged)))
    {
      hide DirHolds, TableHolds, TablesHold, Moves, FileHolds, NewTable, TooBig, AllEntriesFit, Sorted;
      hide ReadyToPublish, Publishing, Writing;
      ghost var t, p, files := Table(span, merged), Here(disk, s), disk.files;
      ghost var q;
      if merged == [] {
        NothingHolds();
        q := EmptyMoves(crc, p, t);
        n := q.state;
        return Ok([]), n;
      }
      var written := WriteTableFile(span, merged);
      if written.Err? {
        DirCreate(files, s.files, s.temps, span, disk.files[Tmp(span)]);
        q := MergeFailMoves(crc, p, t, disk.files[Tmp(span)]);
        n := q.state;
        return Err(written.error), n;
      }
      PublishedHolds(files, s.files, s.temps, merged, span, bitsPerKey, numProbes, written.value);
      ReplacementHolds(written.value, t);
      q := MergeMoves(crc, p, t, written.value.file);
      n := q.state;
      return Ok([written.value]), n;
    }

    /** Unlinks the inputs of a merge one by one, oldest first. */
    method Unlinks(obsolete: seq<SSTable>, ghost live: seq<Table>, ghost s: State) returns (ghost n: State)
      requires DirHolds(disk.files, s.files, s.temps) && TablesHold(obsolete, live)
      requires s.compactor.Unlinking? && s.compactor.rest == live
      modifies disk
      ensures DirHolds(disk.files, n.files, n.temps)
      ensures Moves(crc, old(Here(disk, s)), Here(disk, n), []) && disk.log == old(disk.log)
      ensures n.compactor.Unlinking? && n.compactor.rest == []
      ensures n == s.(files := s.files - SpanSet(live), compactor := n.compactor)
    {
      hide DirHolds, Moves, SpanSet;
      n := s;
      ghost var p := Here(disk, s);
      MovesNowhere(crc, p);
      NoSpanSet(s.files);
      for i := 0 to |obsolete|
        invariant DirHolds(disk.files, n.files, n.temps)
        invariant Moves(crc, p, Here(disk, n), []) && disk.log == old(disk.log)
        invariant n.compactor.Unlinking? && n.compactor.rest == live[i..]
        invariant n == s.(files := s.files - SpanSet(live[..i]), compactor := n.compactor)
      {
        assert TableHolds(obsolete[i], live[i]);
        DirUnlink(disk.files, n.files, n.temps, live[i].span);
        SpanSetStep(live, i);
        DropSpan(s.files, SpanSet(live[..i]), live[i].span);
        ghost var m := Here(disk, n);
        disk.Remove(Sst(obsolete[i].span));
        n := DoCompact(n, Unlink);
        MovesQuietly(crc, p, m, [], Does(Step.Compact(Unlink)), Here(disk, n));
      }
      assert live[..|obsolete|] == live;
    }

    /** Swaps the list and removes the inputs. */
    method Finish(start: nat, count: nat, replacement: seq<SSTable>, ghost s: State) returns (ghost n: State)
      requires Represents(s) && s.compactor.Merged? && s.compactor.start == start && s.compactor.count == count
      requires start + count <= |tables| && TablesHold(replacement, AsList(s.compactor.out))
      modifies this, disk
      ensures |s.live| == old(|tables|)
      ensures Represents(n) && n == Spliced(s)
      ensures Moves(crc, old(Here(disk, s)), Here(disk, n), []) && disk.log == old(disk.log)
      ensures nextSeq == old(nextSeq)
      ensures tables == old(tables)[..start] + replacement + old(tables)[start + count..]
    {
      hide DirHolds, TableHolds, TablesHold, Moves, SpanSet;
      TablesHoldLength(tables, s.live);
      RunHolds(tables, s.live, start, count);
      SpliceHolds(tables, s.live, start, count, replacement, s.compactor.out);
      ghost var p := Here(disk, s);
      MovesNowhere(crc, p);
      var obsolete := tables[start..start + count];
      ghost var live := s.live[start..start + count];
      tables := tables[..start] + replacement + tables[start + count..];
      ghost var m := MemoryMoves(crc, p, p, Step.Compact(Swap));
      n := Unlinks(obsolete, live, m.state);
      MovesQuietlyOn(crc, p, m, Here(disk, n));
      ghost var q := MemoryMoves(crc, p, Here(disk, n), Step.Compact(CompactDone));
      n := q.state;
    }

    /** The first half of a compaction: snapshot, merge, publish. It fails if and
        only if the file of the merge gets too large. */
    method MergeRun(start: nat, count: nat, ghost s: State)
      returns (r: Result<seq<SSTable>>, ghost n: State, ghost merged: seq<Entry>)
      requires Represents(s) && s.phase.Up? && s.compactor.Resting?
      requires count >= 2 && start + count <= |tables|
      modifies disk
      ensures |s.live| == |tables|
      ensures Represents(n)
      ensures Moves(crc, old(Here(disk, s)), Here(disk, n), []) && disk.log == old(disk.log)
      ensures var run := s.live[start..start + count];
              && IsMerge(run, start == 0, merged)
              && if CannotWrite(merged, bitsPerKey, numProbes) then
                   r == Err(TooLarge) && n == s.(temps := s.temps + {SpanOfRun(run)}, compactor := Resting)
                 else
                   && r == Ok(Replacement(SpanOfRun(run), merged, bitsPerKey, numProbes))
                   && n == WithMerged(s, start, count, SpanOfRun(run), merged)
                   && TablesHold(r.value, AsList(OutOf(SpanOfRun(run), merged)))
    {
      hide DirHolds, TableHolds, TablesHold, Moves, IsMerge, AllEntriesFit, Sorted, CannotWrite, NewTable;
      TablesHoldLength(tables, s.live);
      var run := tables[start..start + count];
      ghost var live := s.live[start..start + count];
      RunHolds(tables, s.live, start, count);
      ghost var p := Here(disk, s);
      MovesNowhere(crc, p);
      ghost var picked := MemoryMoves(crc, p, p, Step.Compact(Pick(start, count)));
      ghost var snapped := MemoryMoves(crc, p, picked, Step.Compact(Snapshot));
      var streams := ReadRun(run, live);
      var output := MergeTables(streams.value, start == 0);
      merged := output;
      RunEntriesFit(run, live);
      MergeFits(live, start == 0, output);
      MergeSorted(live, start == 0, output);
      SpansAgree(run, live);
      var span := Span(run[0].span.first, run[count - 1].span.last);
      r, n := PublishMerged(span, output, snapped.state);
      MovesQuietlyOn(crc, p, snapped, Here(disk, n));
    }

    /** Compaction of tables `start .. start + count`: the merge is published
        before the list is swapped, and the inputs are unlinked after it, oldest
        first. Exactly these tables are replaced; it fails if and only if the file
        of their merge gets too large. */
    method Compact(start: nat, count: nat, ghost s: State)
      returns (r: Result<()>, ghost n: State, ghost merged: seq<Entry>)
      requires Represents(s) && s.phase.Up? && s.compactor.Resting?
      requires count >= 2 && start + count <= |tables|
      modifies this, disk
      ensures |s.live| == old(|tables|)
      ensures Represents(n) && n.compactor.Resting? && SameButList(n, s)
      ensures Moves(crc, old(Here(disk, s)), Here(disk, n), []) && disk.log == old(disk.log)
      ensures IsMerge(s.live[start..start + count], start == 0, merged)
      ensures if CannotWrite(merged, bitsPerKey, numProbes) then
                && r == Err(TooLarge)
                && CompactionFails(Round(old(tables), s), start, count, merged, Round(tables, n), bitsPerKey, numProbes)
              else
                && r == Ok(())
                && CompactsTo(Round(old(tables), s), start, count, merged, Round(tables, n), bitsPerKey, numProbes)
      ensures r.Ok? ==> |tables| <= old(|tables|) - (count - 1)
    {
      hide DirHolds, TableHolds, TablesHold, Moves, IsMerge, CannotWrite, NewTable, SpanSet;
      ghost var p := Here(disk, s);
      var published;
      published, n, merged := MergeRun(start, count, s);
      if published.Err? { return Err(published.error), n, merged; }
      ghost var m := Here(disk, n);
      n := Finish(start, count, published.value, m.state);
      MovesQuietlyOn(crc, p, m, Here(disk, n));
      return Ok(()), n, merged;
    }

    /** The compactor's and the writer's methods interleaved: a flush between a
        compaction's snapshot and its splice appends its table to the list, and
        the splice, at the place picked before, goes into the list so grown. */
    method CompactAroundFlush(start: nat, count: nat, mem: Memtable, ghost s: State)
      returns (compacted: Result<()>, flushed: Result<()>, ghost n: State,
               ghost merged: seq<Entry>, ghost entries: seq<Entry>)
      requires Represents(s) && s.phase.Up? && s.compactor.Resting?
      requires count >= 2 && start + count <= |tables|
      requires s.writer.Applied? && s.mem == mem && MemFits(mem) && mem != map[]
      modifies this, disk
      ensures |s.live| == old(|tables|)
      ensures Represents(n) && n.compactor.Resting? && n.phase == s.phase
      ensures n.log == s.log && n.mem == s.mem && n.readers == s.readers
      ensures Moves(crc, old(Here(disk, s)), Here(disk, n), []) && disk.log == old(disk.log)
      ensures IsMerge(s.live[start..start + count], start == 0, merged)
      ensures compacted == if CannotWrite(merged, bitsPerKey, numProbes) then Err(TooLarge) else Ok(())
      ensures IsFlush(mem, entries)
      ensures flushed == if TooBig(entries, bitsPerKey, numProbes) then Err(TooLarge) else Ok(())
      ensures n.writer == if flushed.Ok? then Pushed(s.writer.op) else FlushFailed(s, entries).writer
      ensures var span := SpanOfRun(s.live[start..start + count]);
              var flush := Span(old(nextSeq), old(nextSeq));
              tables ==
              (if compacted.Ok? then
                 old(tables)[..start] + Replacement(span, merged, bitsPerKey, numProbes) + old(tables)[start + count..]
               else old(tables))
              + (if flushed.Ok? then [NewTable(entries, flush, bitsPerKey, numProbes)] else [])
    {
      hide DirHolds, TableHolds, TablesHold, Moves, MemFits, IsMerge, IsFlush, CannotWrite, TooBig, NewTable, SpanSet;
      hide Splice, SpanOfRun, Replacement, Finished, Written;
      ghost var p := Here(disk, s);
      var published;
      published, n, merged := MergeRun(start, count, s);
      ghost var m := Here(disk, n);
      flushed, n, entries := Write(mem, m.state);
      MovesQuietlyOn(crc, p, m, Here(disk, n));
      if published.Err? { return Err(published.error), flushed, n, merged, entries; }
      ghost var f := Here(disk, n);
      GrownSplice(old(tables), start, count, published.value, tables[old(|tables|)..]);
      n := Finish(start, count, published.value, f.state);
      MovesQuietlyOn(crc, p, f, Here(disk, n));
      return Ok(()), flushed, n, merged, entries;
    }

    /** The compactor's inner loop: exactly the runs that are picked are compacted,
        one after another. It ends, because every compaction shortens the list,
        and it ends with nothing left to pick, or with the error of a picked run
        whose merge is too large, which the thread reports and otherwise ignores. */
    method CompactAll(minRun: nat, ratio: real, ghost s: State)
      returns (r: Result<()>, ghost n: State, ghost rounds: seq<Round>)
      requires Represents(s) && s.phase.Up? && s.compactor.Resting? && minRun >= 2 && ratio >= 0.0
      modifies this, disk
      ensures Represents(n) && n.compactor.Resting? && SameButList(n, s)
      ensures Moves(crc, old(Here(disk, s)), Here(disk, n), []) && disk.log == old(disk.log)
      ensures PickedRounds(rounds, minRun, ratio, bitsPerKey, numProbes) && rounds[0] == Round(old(tables), s)
      ensures var last := rounds[|rounds| - 1];
              if r.Ok? then last == Round(tables, n) && PickFrom(SizesOf(tables), minRun, ratio, 0) == None
              else r == Err(TooLarge) && PickedFails(last, Round(tables, n), minRun, ratio, bitsPerKey, numProbes)
    {
      hide Moves, Represents, PickFrom, Comparable, CompactsTo, CompactionFails, IsMerge, CannotWrite, PickedRounds;
      r, n := Ok(()), s;
      rounds := [Round(tables, s)];
      assert PickedRounds(rounds, minRun, ratio, bitsPerKey, numProbes) by { FirstRound(rounds[0], minRun, ratio); }
      ghost var p := Here(disk, s);
      MovesNowhere(crc, p);
      while true
        invariant Represents(n) && n.compactor.Resting? && SameButList(n, s)
        invariant Moves(crc, p, Here(disk, n), []) && disk.log == old(disk.log)
        invariant rounds != [] && PickedRounds(rounds, minRun, ratio, bitsPerKey, numProbes)
        invariant rounds[0] == Round(old(tables), s) && rounds[|rounds| - 1] == Round(tables, n)
        invariant r.Ok?
        decreases |tables|
      {
        var run := PickRun.Pick(SizesOf(tables), minRun, ratio);
        if run.None? { break; }
        PickedRun(SizesOf(tables), minRun, ratio, 0);
        var (start, count) := run.value;
        ghost var m, merged := Here(disk, n), [];
        r, n, merged := Compact(start, count, m.state);
        MovesQuietlyOn(crc, p, m, Here(disk, n));
        if r.Err? { break; }
        RoundAdded(rounds, Round(tables, n), minRun, ratio, bitsPerKey, numProbes);
        rounds := rounds + [Round(tables, n)];
      }
    }

    /** The newest table with a record of the key decides. */
    method Get(key: Key, ghost live: seq<Table>) returns (r: Result<Option<Value>>)
      ensures TablesHold(tables, live) ==> r == Ok(Lookup(live, key))
    {
      hide TableHolds;
      var hash := ComputeHash64(key);
      var i := |tables|;
      assert TablesHold(tables, live) ==> live[..i] == live;
      while i > 0
        invariant 0 <= i <= |tables|
        invariant TablesHold(tables, live) ==> Newest(live, key) == Newest(live[..i], key)
      {
        i := i - 1;
        var found := TableGet.Get(tables[i], key, hash);
        if TablesHold(tables, live) {
          HeldIsFound(tables[i], live[i], key);
          assert live[..i + 1][..i] == live[..i];
        }
        if found.Err? { return Err(found.error); }
        if found.value.Some? { return Ok(found.value.value); }
      }
      return Ok(None);
    }
  }

  /** Tables appended after a run do not change where it is spliced. */
  lemma GrownSplice(ts: seq<SSTable>, start: nat, count: nat, replacement: seq<SSTable>, more: seq<SSTable>)
    requires start + count <= |ts|
    ensures (ts + more)[..start] + replacement + (ts + more)[start + count..]
            == ts[..start] + replacement + ts[start + count..] + more
  {
  }

  lemma FirstRound(a: Round, minRun: nat, ratio: real)
    ensures forall b, p :: PickedRounds([a], minRun, ratio, b, p)
  {
  }

  lemma NothingFlushed()
    ensures IsFlush(map[], [])
  {
  }

  function AsList(out: Option<Table>): seq<Table> {
    match out case None => [] case Some(t) => [t]
  }

  lemma HeldIsRead(t: SSTable, lt: Table)
    requires TableHolds(t, lt)
    ensures Rest(t, START, []) == Ok(lt.entries) && t.span == lt.span
  {
    ReadAllBack(t, lt.entries);
  }

  lemma HeldIsFound(t: SSTable, lt: Table, key: Key)
    requires TableHolds(t, lt)
    ensures GetFrom(t, key, Hash64(key)) == Ok(Find(lt.entries, key))
  {
    hide GetFrom;
    GetIsFind(t, lt.entries, key);
  }

  lemma TablesHoldLength(ts: seq<SSTable>, live: seq<Table>)
    requires TablesHold(ts, live)
    ensures |ts| == |live|
  {
  }

  lemma RunHolds(ts: seq<SSTable>, live: seq<Table>, start: nat, count: nat)
    requires TablesHold(ts, live) && start + count <= |ts|
    ensures TablesHold(ts[start..start + count], live[start..start + count])
    ensures AllSorted(live[start..start + count])
  {
    hide FileOf, KnowsKeys, Sorted;
  }

  lemma SpansAgree(ts: seq<SSTable>, live: seq<Table>)
    requires TablesHold(ts, live) && ts != []
    ensures Span(ts[0].span.first, ts[|ts| - 1].span.last) == SpanOfRun(live)
  {
  }

  lemma RunEntriesFit(ts: seq<SSTable>, live: seq<Table>)
    requires TablesHold(ts, live)
    ensures forall i :: 0 <= i < |live| ==> AllEntriesFit(live[i].entries)
  {
    hide TableHolds, AllEntriesFit;
    forall i | 0 <= i < |live| ensures AllEntriesFit(live[i].entries) {
      TableEntriesFit(ts[i], live[i]);
    }
  }

  lemma MergeSorted(run: seq<Table>, dropTombstones: bool, out: seq<Entry>)
    requires IsMerge(run, dropTombstones, out)
    ensures Sorted(out)
  {
  }

  lemma ReplacementHolds(t: SSTable, lt: Table)
    requires TableHolds(t, lt)
    ensures TablesHold([t], [lt])
  {
    hide TableHolds;
  }

  lemma NothingHolds()
    ensures TablesHold([], [])
  {
  }

  lemma SpliceHolds(ts: seq<SSTable>, live: seq<Table>, start: nat, count: nat,
                    replacement: seq<SSTable>, out: Option<Table>)
    requires TablesHold(ts, live) && start + count <= |ts|
    requires TablesHold(replacement, AsList(out))
    ensures TablesHold(ts[..start] + replacement + ts[start + count..], Splice(live, start, count, out))
  {
    hide TableHolds;
  }

  lemma FlushSorted(mem: Memtable, entries: seq<Entry>)
    requires IsFlush(mem, entries)
    ensures Sorted(entries)
  {
  }

  lemma AppendHolds(ts: seq<SSTable>, live: seq<Table>, t: SSTable, lt: Table)
    requires TablesHold(ts, live) && TableHolds(t, lt)
    ensures TablesHold(ts + [t], live + [lt])
  {
    hide TableHolds;
  }
}
