/** The database: memtable, log and tables over real bytes. Its ghost state says
    which state of the step machine it is in, so that what the machine was shown
    to keep holds of the bytes, and of every image they pass through. */
module Db {
  import opened Bytes
  import opened Tables
  import opened PickRun
  import opened Disk
  import opened Store
  import opened StoreInvariant
  import opened StoreRecovery
  import opened StoreRefinement
  import opened StoreRuns
  import opened StoreImages
  import opened TableFile
  import opened TableSet
  import opened TableSetOpen
  import opened Wal
  import opened TornTail

  predicate Quiet(s: State) {
    s.phase.Up? && s.writer.Idle? && s.compactor.Resting? && s.readers == map[]
  }

  /* ---- The moves behind put and delete ---- */

  lemma BeginMoves(crc: Checksum, p: Point, op: Op) returns (q: Point)
    requires Quiet(p.state)
    ensures q == p.(state := p.state.(writer := Begun(op))) && Moves(crc, p, q, [Call(op)])
  {
    hide Moves;
    q := p.(state := DoWrite(p.state, Begin(op)));
    MovesAct(crc, p, Does(Step.Write(Begin(op))), q);
  }

  /** The frame arrives in the log byte by byte. */
  lemma {:induction false} TearMoves(crc: Checksum, p: Point, k: nat, q: Point)
    requires p.state.writer.Begun? && FitsFrame(p.state.writer.op) && k <= |Frame(crc, p.state.writer.op)|
    requires q == p.(trace := p.trace + Logging(p.image, Frame(crc, p.state.writer.op))[..k])
    ensures Moves(crc, p, q, [])
  {
    hide Moves, Frame, FitsFrame;
    var images := Logging(p.image, Frame(crc, p.state.writer.op));
    if k == 0 {
      assert q == p;
      MovesNowhere(crc, p);
    } else {
      var m := p.(trace := p.trace + images[..k - 1]);
      TearMoves(crc, p, k - 1, m);
      assert images[..k] == images[..k - 1] + [Torn(crc, p, k - 1)];
      MovesQuietly(crc, p, m, [], Tears(k - 1), q);
    }
  }

  /** When the last byte has arrived the operation is logged. */
  lemma AppendMoves(crc: Checksum, p: Point) returns (q: Point)
    requires p.state.writer.Begun? && FitsFrame(p.state.writer.op)
    ensures var op := p.state.writer.op;
            && q.state == p.state.(log := p.state.log + [op], writer := Logged(op))
            && q.image == p.image.(log := p.image.log + Frame(crc, op))
            && q.trace == p.trace + Logging(p.image, Frame(crc, op))
    ensures Moves(crc, p, q, [])
  {
    hide Moves, Frame, FitsFrame;
    var op := p.state.writer.op;
    var f := Frame(crc, op);
    var m := p.(trace := p.trace + Logging(p.image, f)[..|f|]);
    TearMoves(crc, p, |f|, m);
    q := Point(DoWrite(p.state, LogAppend), p.image.(log := p.image.log + f), p.trace + Logging(p.image, f));
    assert f[..|f|] == f;
    assert q.trace == m.trace + [q.image];
    MovesQuietly(crc, p, m, [], Does(Step.Write(LogAppend)), q);
  }

  lemma AppliedMoves(crc: Checksum, p: Point) returns (q: Point)
    requires p.state.writer.Begun? && FitsFrame(p.state.writer.op)
    ensures var op := p.state.writer.op;
            && q.state == p.state.(log := p.state.log + [op], mem := Insert(p.state.mem, op), writer := Applied(op))
            && q.image == p.image.(log := p.image.log + Frame(crc, op))
            && q.trace == p.trace + Logging(p.image, Frame(crc, op))
    ensures Moves(crc, p, q, [])
  {
    hide Moves, Frame, FitsFrame, Logging;
    q := AppendMoves(crc, p);
    q := MemoryMoves(crc, p, q, Step.Write(MemInsert));
  }

  lemma ReturnMoves(crc: Checksum, p: Point) returns (q: Point)
    requires p.state.writer.Applied? || p.state.writer.Truncated? || p.state.writer.TempWritten?
    ensures q == p.(state := p.state.(writer := Idle)) && Moves(crc, p, q, [Return])
  {
    hide Moves;
    var step := if p.state.writer.TempWritten? then FlushFail else Ack;
    q := p.(state := DoWrite(p.state, step));
    MovesAct(crc, p, Does(Step.Write(step)), q);
  }

  lemma CallReturn(crc: Checksum, p: Point, a: Point, b: Point, q: Point, op: Op)
    requires Moves(crc, p, a, [Call(op)]) && Moves(crc, a, b, []) && Moves(crc, b, q, [Return])
    ensures Moves(crc, p, q, [Call(op), Return])
  {
    hide Moves;
    MovesOn(crc, p, a, b, [Call(op)], []);
    assert [Call(op)] + [] == [Call(op)];
    MovesOn(crc, p, b, q, [Call(op)], [Return]);
    assert [Call(op)] + [Return] == [Call(op), Return];
  }

  lemma InsertFits(mem: Memtable, op: Op)
    requires MemFits(mem) && FitsFrame(op)
    ensures MemFits(Insert(mem, op))
  {
  }

  lemma {:induction false} ReplayFits(ops: seq<Op>)
    requires AllFit(ops)
    ensures MemFits(Replay(ops))
  {
    hide FitsFrame, MemFits;
    if ops == [] {
      NothingFits();
    } else {
      ReplayFits(ops[..|ops| - 1]);
      InsertFits(Replay(ops[..|ops| - 1]), ops[|ops| - 1]);
    }
  }

  lemma NothingFits()
    ensures MemFits(map[])
  {
  }

  /** What the database holds in memory and on disk. */
  datatype View = View(mem: Memtable, size: nat, shelf: Shelf)

  /** How the database is set up. */
  datatype Setup = Setup(crc: Checksum, tableSize: nat, bitsPerKey: nat, numProbes: nat)

  function WithLog(a: Shelf, log: seq<byte>): Shelf {
    a.(image := a.image.(log := log))
  }

  function LoggedView(v: View, op: Op, crc: Checksum): View {
    View(Insert(v.mem, op), v.size + |KeyOf(op)| + |ValueOf(op)|,
         WithLog(v.shelf, v.shelf.image.log + Frame(crc, op)))
  }

  /** A flush that succeeds leaves one more table, and nothing in memtable and log;
      it is an error if and only if the table's file gets too large. */
  ghost predicate FlushAnswers(c: Setup, v: View, entries: seq<Entry>, r: Result<()>, w: View) {
    IsFlush(v.mem, entries)
    && if TooBig(entries, c.bitsPerKey, c.numProbes) then
         r == Err(TooLarge) && w == v.(shelf := Unshelved(v.shelf, entries, c.bitsPerKey, c.numProbes))
       else
         r == Ok(()) && w == View(map[], 0, WithLog(Shelved(v.shelf, entries, c.bitsPerKey, c.numProbes), []))
  }

  /** The answer to `op` and what is held after it: as long as the size does not
      exceed the limit, just one more frame and one more entry; otherwise a flush
      of all that has been recorded. */
  ghost predicate Answers(c: Setup, v: View, op: Op, r: Result<()>, w: View) {
    var logged := LoggedView(v, op, c.crc);
    if logged.size <= c.tableSize then r == Ok(()) && w == logged
    else exists entries :: FlushAnswers(c, logged, entries, r, w)
  }

  /** That leaves nothing open. */
  lemma OneAnswer(c: Setup, v: View, op: Op, r: Result<()>, w: View, r': Result<()>, w': View)
    requires Answers(c, v, op, r, w) && Answers(c, v, op, r', w')
    ensures r == r' && w == w'
  {
    hide TooBig, Shelved, Unshelved, IsFlush, WithLog;
    var logged := LoggedView(v, op, c.crc);
    if logged.size > c.tableSize {
      var a :| FlushAnswers(c, logged, a, r, w);
      var b :| FlushAnswers(c, logged, b, r', w');
      OneFlush(logged.mem, a, b);
    }
  }

  lemma OneFlush(mem: Memtable, a: seq<Entry>, b: seq<Entry>)
    requires IsFlush(mem, a) && IsFlush(mem, b)
    ensures a == b
  {
    forall k ensures Find(a, k) == Find(b, k) {
      assert Find(a, k) == MemFind(mem, k) == Find(b, k);
    }
    SortedUnique(a, b);
  }

  /** Where an operation starts from: `safe` says that the log is intact. */
  datatype Start = Start(at: Point, contents: map<Key, Value>, view: View, safe: bool)

  /** What an operation comes to: its answer and what is then held; the moves of
      the machine through every image it left on disk, an observer seeing the call
      and the return; and if the log was intact, each of these images recovers to
      the map before or to the map after. */
  ghost predicate Outcome(c: Setup, b: Start, op: Op, r: Result<()>, q: Point, after: map<Key, Value>, w: View) {
    && Answers(c, b.view, op, r, w)
    && Moves(c.crc, b.at, q, [Call(op), Return]) && b.at.trace <= q.trace
    && (b.safe ==> EitherRecovers(q.trace[|b.at.trace|..], c.crc, b.contents, after))
  }

  /** The table of this memtable cannot be written. */
  ghost predicate CannotFlush(c: Setup, mem: Memtable) {
    exists entries :: IsFlush(mem, entries) && TooBig(entries, c.bitsPerKey, c.numProbes)
  }

  lemma OutcomeMeans(c: Setup, b: Start, op: Op, r: Result<()>, q: Point, after: map<Key, Value>, w: View)
    requires Outcome(c, b, op, r, q, after, w)
    ensures Moves(c.crc, b.at, q, [Call(op), Return]) && b.at.trace <= q.trace
    ensures b.safe ==> EitherRecovers(q.trace[|b.at.trace|..], c.crc, b.contents, after)
    ensures r.Err? ==> r == Err(TooLarge) && w.size > c.tableSize && CannotFlush(c, w.mem)
  {
    hide Moves, EitherRecovers, TooBig, IsFlush, Shelved, Unshelved, LoggedView;
    if r.Err? {
      var entries :| FlushAnswers(c, LoggedView(b.view, op, c.crc), entries, r, w);
      assert IsFlush(w.mem, entries);
    }
  }

  lemma Returned(c: Setup, b: Start, begun: Point, m: Point, op: Op, r: Result<()>, w: View) returns (q: Point)
    requires Moves(c.crc, b.at, begun, [Call(op)]) && Moves(c.crc, begun, m, [])
    requires Sim(b.at.state, Spec(b.contents, None)) && Answers(c, b.view, op, r, w)
    requires m.state.writer.Applied? || m.state.writer.Truncated? || m.state.writer.TempWritten?
    requires b.safe ==> ImageOf(b.at.image, c.crc, b.at.state, op, 0)
    ensures q == m.(state := m.state.(writer := Idle))
    ensures Sim(q.state, Spec(Effect(b.contents, op), None))
    ensures Outcome(c, b, op, r, q, Effect(b.contents, op), w)
  {
    hide Moves, Sim, ImageOf, EitherRecovers, Answers;
    var crc, p := c.crc, b.at;
    q := ReturnMoves(crc, m);
    CallReturn(crc, p, begun, m, q, op);
    MovesLead(crc, p, q, [Call(op), Return]);
    CallThenReturn(p.state, b.contents, q.state, op);
    MovesGrow(crc, p, q, [Call(op), Return]);
    if b.safe { CrashMidway(crc, p, q, b.contents, op); }
  }

  /** A quiet state with this memtable, standing for the map `m`. */
  ghost predicate Stands(mem: Memtable, s: State, m: map<Key, Value>) {
    AllFit(s.log) && mem == s.mem && MemFits(mem) && Quiet(s) && Sim(s, Spec(m, None))
  }

  lemma StandsFor(mem: Memtable, s: State, m: map<Key, Value>)
    requires AllFit(s.log) && mem == s.mem && MemFits(mem) && Quiet(s) && Sim(s, Spec(m, None))
    ensures Stands(mem, s, m)
  {
  }

  lemma Standing(mem: Memtable, s: State, m: map<Key, Value>)
    requires Stands(mem, s, m)
    ensures AllFit(s.log) && mem == s.mem && MemFits(mem) && Quiet(s) && Sim(s, Spec(m, None))
  {
    hide AllFit, MemFits, Sim;
  }

  class Database {
    var mem: Memtable
    var size: nat
    const disk: FileSystem
    const wal: WalFile
    const tableSize: nat
    const tables: SSTableSet
    /** The machine's state, and the plain map the database stands for. */
    ghost var state: State
    ghost var contents: map<Key, Value>

    /** Reads and writes are right. */
    ghost predicate Usable()
      reads this, tables, tables.disk
    {
      && wal.disk == disk && tables.disk == disk && tables.crc == wal.crc
      && tables.Represents(state) && Stands(mem, state, contents)
    }

    /** And a crash now recovers them: the log is intact, or was cut short by an
        earlier crash and not written to since. */
    ghost predicate Recovers()
      reads this, tables, tables.disk, disk
    {
      Usable() && exists op: Op, kept: nat :: ImageOf(disk.Now(), wal.crc, state, op, kept)
    }

    /** And the log protects later writes too. A database opened after a torn
        append is not protected, until a flush truncates the log. */
    ghost predicate Protected()
      reads this, tables, tables.disk, disk
    {
      Usable() && disk.log == Log(wal.crc, state.log)
    }

    function Held(): View
      reads this, tables, disk
    {
      View(mem, size, Shelf(tables.tables, tables.nextSeq, disk.Now()))
    }

    /** All that an operation starts from. */
    ghost function Before(): Start
      reads this, tables, tables.disk, disk
    {
      Start(Here(disk, state), contents, Held(), Protected())
    }

    function Config(): Setup
      reads this, tables
    {
      Setup(wal.crc, tableSize, tables.bitsPerKey, tables.numProbes)
    }

    constructor (mem: Memtable, disk: FileSystem, wal: WalFile, tableSize: nat, tables: SSTableSet,
                 ghost state: State, ghost contents: map<Key, Value>)
      ensures this.mem == mem && this.size == 0 && this.disk == disk && this.wal == wal && this.tables == tables
      ensures this.tableSize == tableSize && this.state == state && this.contents == contents
    {
      this.mem := mem;
      this.size := 0;
      this.disk := disk;
      this.wal := wal;
      this.tableSize := tableSize;
      this.tables := tables;
      this.state := state;
      this.contents := contents;
    }

    /** Publishes the memtable as a table, clears it and truncates the log, in that
        order: the images left on disk are those of the machine's steps. It fails
        if and only if the table's file gets too large. */
    method Flush(ghost s: State) returns (r: Result<()>, ghost n: State, ghost entries: seq<Entry>)
      requires wal.disk == disk && tables.disk == disk && tables.crc == wal.crc
      requires tables.Represents(s) && AllFit(s.log)
      requires s.writer.Applied? && s.mem == mem && MemFits(mem) && mem != map[]
      modifies this`mem, disk, tables
      ensures tables.Represents(n) && FlushedTo(s, r, n) && mem == n.mem
      ensures Moves(wal.crc, old(Here(disk, s)), Here(disk, n), [])
      ensures FlushAnswers(Config(), old(Held()), entries, r, if r.Ok? then Held().(size := 0) else Held())
    {
      hide Moves, MemFits, AllFit, Describes, WriteAnswers, FlushAnswers, FlushedTo;
      ghost var crc, p, v := wal.crc, Here(disk, s), Held();
      r, n, entries := tables.Write(mem, s);
      ghost var written := n;
      FlushSteps(Config(), v, s, entries, r, n, Held().shelf);
      if r.Err? { return r, n, entries; }
      mem := map[];
      ghost var cleared := MemoryMoves(crc, p, Here(disk, n), Step.Write(FlushClear));
      wal.Truncate();
      n := DoWrite(cleared.state, FlushTruncate);
      DescribesAlso(written, n, disk.files, tables.tables, tables.nextSeq);
      MovesQuietly(crc, p, cleared, [], Does(Step.Write(FlushTruncate)), Here(disk, n));
    }

    /** What `put` and `delete` begin with: the log first, then the memtable. */
    method Record(op: Op) returns (ghost begun: Point, ghost q: Point)
      requires Usable() && FitsFrame(op)
      modifies this`mem, this`size, disk
      ensures Held() == LoggedView(old(Held()), op, wal.crc)
      ensures q == Here(disk, q.state) && tables.Represents(q.state)
      ensures var s := old(state);
              q.state == s.(log := s.log + [op], mem := Insert(s.mem, op), writer := Applied(op))
      ensures AllFit(q.state.log) && mem == q.state.mem && MemFits(mem) && mem != map[]
      ensures old(disk.log) == Log(wal.crc, old(state.log)) ==> disk.log == Log(wal.crc, q.state.log)
      ensures Moves(wal.crc, old(Here(disk, state)), begun, [Call(op)]) && Moves(wal.crc, begun, q, [])
    {
      hide Moves, MemFits, FitsFrame, AllFit, Log, Logging, Frame, Describes, Stands;
      ghost var crc, p := wal.crc, Here(disk, state);
      Standing(mem, state, contents);
      begun := BeginMoves(crc, p, op);
      wal.Append(op);
      size := size + |op.key| + (match op case Put(_, v) => |v| case Delete(_) => 0);
      mem := Insert(mem, op);
      q := AppliedMoves(crc, begun);
      DescribesAlso(p.state, q.state, disk.files, tables.tables, tables.nextSeq);
      LogGrows(crc, p.state.log, op);
      InsertFits(p.state.mem, op);
      assert op.key in mem;
    }

    /** What they end with: a flush if the memtable has grown past its limit. */
    method FlushIfFull(ghost op: Op, ghost v: View, ghost begun: Point, ghost q: Point)
      returns (r: Result<()>, ghost n: State)
      requires wal.disk == disk && tables.disk == disk && tables.crc == wal.crc
      requires Held() == LoggedView(v, op, wal.crc) && mem != map[]
      requires q == Here(disk, q.state) && tables.Represents(q.state) && q.state.writer.Applied?
      requires AllFit(q.state.log) && mem == q.state.mem && MemFits(mem)
      requires Moves(wal.crc, begun, q, [])
      modifies this`mem, this`size, disk, tables
      ensures tables.Represents(n) && mem == n.mem && AllFit(n.log) && MemFits(mem)
      ensures n.phase == q.state.phase && n.compactor == q.state.compactor && n.readers == q.state.readers
      ensures n.writer.Applied? || n.writer.Truncated? || n.writer.TempWritten?
      ensures Moves(wal.crc, begun, Here(disk, n), []) && Answers(Config(), v, op, r, Held())
      ensures if mem == map[] then disk.log == [] && n.log == []
              else disk.log == old(disk.log) && n.log == q.state.log
    {
      hide Moves, MemFits, AllFit, FlushAnswers, Answers, Describes, LoggedView, FlushedTo;
      r, n := Ok(()), q.state;
      UnflushedAnswer(Config(), v, op);
      if size > tableSize {
        ghost var entries;
        r, n, entries := Flush(q.state);
        FlushedMeans(q.state, r, n);
        MovesQuietlyOn(wal.crc, begun, q, Here(disk, n));
        ghost var w := if r.Ok? then Held().(size := 0) else Held();
        FlushedAnswer(Config(), v, op, entries, r, w);
        if r.Ok? { size := 0; }
        assert Held() == w;
      }
    }

    /** `put` and `delete`: the operation is recorded, and the memtable flushed when
        it has grown past its limit. An error means only that the flush could not
        write its table: the operation itself has taken effect. */
    method Apply(op: Op) returns (r: Result<()>)
      requires Usable() && FitsFrame(op)
      modifies this, disk, tables
      ensures Usable() && contents == Effect(old(contents), op)
      ensures Outcome(Config(), old(Before()), op, r, Here(disk, state), contents, Held())
      ensures old(Protected()) || mem == map[] ==> Protected()
    {
      hide Moves, MemFits, Sim, FitsFrame, AllFit, Log, Answers, Describes, Stands, Outcome;
      hide LoggedView, Frame;
      ghost var b := Before();
      Standing(mem, state, contents);
      if b.safe { ProtectedImage(this, op); }
      ghost var begun, q := Record(op);
      ghost var done;
      r, done := FlushIfFull(op, b.view, begun, q);
      NoLog(wal.crc);
      ghost var returned := Returned(Config(), b, begun, Here(disk, done), op, r, Held());
      state := returned.state;
      DescribesAlso(done, state, disk.files, tables.tables, tables.nextSeq);
      contents := Effect(b.contents, op);
      StandsFor(mem, state, contents);
    }

    method Put(key: Key, value: Value) returns (r: Result<()>)
      requires Usable() && FitsFrame(Store.Put(key, value))
      modifies this, disk, tables
      ensures Usable() && contents == old(contents)[key := value]
      ensures Outcome(Config(), old(Before()), Store.Put(key, value), r, Here(disk, state), contents, Held())
      ensures old(Protected()) || mem == map[] ==> Protected()
    {
      hide Outcome;
      r := Apply(Store.Put(key, value));
    }

    method Delete(key: Key) returns (r: Result<()>)
      requires Usable() && FitsFrame(Store.Delete(key))
      modifies this, disk, tables
      ensures Usable() && contents == old(contents) - {key}
      ensures Outcome(Config(), old(Before()), Store.Delete(key), r, Here(disk, state), contents, Held())
      ensures old(Protected()) || mem == map[] ==> Protected()
    {
      hide Outcome;
      r := Apply(Store.Delete(key));
    }

    /** The memtable's entry if there is one, tombstone or not; else the tables. */
    method Get(key: Key) returns (r: Result<Option<Value>>)
      requires Usable()
      ensures r == Ok(Look(contents, key))
    {
      hide DirHolds, TablesHold, MemFits, AllFit;
      assert Overlay(state.mem, state.live, key) == Look(contents, key) by { Reading(state, contents, key); }
      if key in mem { return Ok(mem[key]); }
      r := tables.Get(key, state.live);
    }

    /** One round of the compactor: exactly the runs that are picked are compacted,
        until nothing is left to pick or a picked run's merge is too large. So
        without an error no window of comparable tables is longer than
        `PickRun.NothingPicked` allows. Every image passed recovers to the same
        map, also over a torn log that has not been written to. */
    method CompactorRound(minRun: nat, ratio: real) returns (r: Result<()>, ghost rounds: seq<Round>)
      requires Usable() && minRun >= 2 && ratio >= 0.0
      modifies this`state, disk, tables
      ensures Usable() && contents == old(contents) && mem == old(mem)
      ensures old(Protected()) ==> Protected()
      ensures Moves(wal.crc, old(Here(disk, state)), Here(disk, state), [])
      ensures old(disk.trace) <= disk.trace
      ensures old(Recovers()) ==>
                Recovers() && AllRecover(disk.trace[|old(disk.trace)|..], wal.crc, contents)
      ensures PickedRounds(rounds, minRun, ratio, tables.bitsPerKey, tables.numProbes)
      ensures rounds[0] == old(Round(tables.tables, state))
      ensures var last, now := rounds[|rounds| - 1], Round(tables.tables, state);
              if r.Ok? then last == now && PickFrom(SizesOf(tables.tables), minRun, ratio, 0) == None
              else r == Err(TooLarge) && PickedFails(last, now, minRun, ratio, tables.bitsPerKey, tables.numProbes)
    {
      hide DirHolds, TablesHold, Moves, MemFits, Sim, Log, AllFit, PickFrom, AllRecover, ImageOf;
      hide PickedRounds, PickedFails;
      ghost var crc, p, good := wal.crc, Here(disk, state), Recovers();
      r, state, rounds := tables.CompactAll(minRun, ratio, p.state);
      ghost var q := Here(disk, state);
      MovesLead(crc, p, q, []);
      MovesGrow(crc, p, q, []);
      QuietlySame(p.state, Spec(contents, None), state);
      if good {
        ghost var op: Op, kept: nat :| ImageOf(p.image, crc, p.state, op, kept);
        QuietImages(crc, p, q, [], contents, op, kept);
      }
    }
  }

  /** The state after a flush. */
  ghost predicate FlushedTo(s: State, r: Result<()>, n: State) {
    && AllFit(n.log) && MemFits(n.mem) && s.writer.Applied?
    && n.phase == s.phase && n.compactor == s.compactor && n.readers == s.readers
    && if r.Ok? then n.writer == Truncated(s.writer.op) && n.mem == map[] && n.log == []
       else n.writer.TempWritten? && n.writer.op == s.writer.op && n.mem == s.mem && n.log == s.log
  }

  /** What follows from writing the table: the answer, and that the memtable can
      be cleared and the log truncated. */
  lemma FlushSteps(c: Setup, v: View, s: State, entries: seq<Entry>, r: Result<()>, n: State, b: Shelf)
    requires WriteAnswers(v.mem, s, v.shelf, entries, r, n, b, c.bitsPerKey, c.numProbes)
    requires s.mem == v.mem != map[] && AllFit(s.log) && MemFits(s.mem)
    ensures r.Err? ==> FlushedTo(s, r, n) && n.mem == s.mem && FlushAnswers(c, v, entries, r, v.(shelf := b))
    ensures r.Ok? ==> n.writer.Pushed? && FlushedTo(s, r, DoWrite(DoWrite(n, FlushClear), FlushTruncate))
    ensures r.Ok? ==> FlushAnswers(c, v, entries, r, View(map[], 0, WithLog(b, [])))
  {
    hide TooBig, Shelved, Unshelved, IsFlush, MemFits, AllFit;
    NothingFits();
    assert AllFit([]) by { NoLog(c.crc); }
  }

  lemma FlushedMeans(s: State, r: Result<()>, n: State)
    requires FlushedTo(s, r, n)
    ensures AllFit(n.log) && MemFits(n.mem) && s.writer.Applied?
    ensures n.phase == s.phase && n.compactor == s.compactor && n.readers == s.readers
    ensures if r.Ok? then n.writer == Truncated(s.writer.op) && n.mem == map[] && n.log == []
            else n.writer.TempWritten? && n.writer.op == s.writer.op && n.mem == s.mem && n.log == s.log
  {
    hide AllFit, MemFits;
  }

  lemma UnflushedAnswer(c: Setup, v: View, op: Op)
    ensures LoggedView(v, op, c.crc).size <= c.tableSize ==> Answers(c, v, op, Ok(()), LoggedView(v, op, c.crc))
  {
  }

  lemma FlushedAnswer(c: Setup, v: View, op: Op, entries: seq<Entry>, r: Result<()>, w: View)
    requires LoggedView(v, op, c.crc).size > c.tableSize
    requires FlushAnswers(c, LoggedView(v, op, c.crc), entries, r, w)
    ensures Answers(c, v, op, r, w)
    ensures if r.Ok? then w.mem == map[] && w.shelf.image.log == []
            else w.mem == LoggedView(v, op, c.crc).mem && w.shelf.image.log == LoggedView(v, op, c.crc).shelf.image.log
  {
    hide TooBig, NewTable, IsFlush, FilterFor, FileBytes;
  }

  lemma Reading(s: State, m: map<Key, Value>, key: Key)
    requires Sim(s, Spec(m, None)) && Quiet(s)
    ensures Overlay(s.mem, s.live, key) == Look(m, key)
  {
  }

  ghost predicate WholeLog(log: seq<byte>, crc: Checksum) {
    exists ops :: AllFit(ops) && log == Log(crc, ops)
  }

  /** A whole frame whose checksum does not match, somewhere after whole frames. */
  ghost predicate Corrupt(log: seq<byte>, crc: Checksum) {
    exists ops, payload, sum: nat, rest :: CorruptAfter(log, crc, ops, payload, sum, rest)
  }

  ghost predicate CorruptAfter(log: seq<byte>, crc: Checksum, ops: seq<Op>, payload: seq<byte>, sum: nat,
                               rest: seq<byte>)
  {
    && AllFit(ops) && CRC_SIZE + |payload| < U32 && sum < U32 && sum != crc(payload)
    && log == Log(crc, ops) + (LE(CRC_SIZE + |payload|, 4) + LE(sum, 4) + payload + rest)
  }

  /** A log that has been written to after a torn frame, past the end of it. */
  ghost predicate Overgrown(log: seq<byte>, crc: Checksum) {
    exists ops, torn, kept: nat, later :: OvergrownBy(log, crc, ops, torn, kept, later)
  }

  ghost predicate OvergrownBy(log: seq<byte>, crc: Checksum, ops: seq<Op>, torn: Op, kept: nat, later: seq<Op>) {
    && AllFit(ops) && FitsFrame(torn) && 8 <= kept < |Frame(crc, torn)| <= kept + |Log(crc, later)|
    && crc((Frame(crc, torn)[..kept] + Log(crc, later))[8..|Frame(crc, torn)|]) != crc(Payload(torn))
    && log == TornLog(crc, ops, torn, kept, later)
  }

  lemma UnreadableLogs(log: seq<byte>, crc: Checksum)
    requires Corrupt(log, crc) || Overgrown(log, crc)
    ensures ReadFrom(crc, log, 0, []) == Err(BadChecksum)
  {
    hide ReadFrom, LE, Log, AllFit, FitsFrame, Frame, Payload, TornLog;
    if Corrupt(log, crc) {
      var ops, payload, sum: nat, rest :| CorruptAfter(log, crc, ops, payload, sum, rest);
      CorruptFrameIsAnError(crc, ops, payload, sum, rest);
    } else {
      var ops, torn, kept: nat, later :| OvergrownBy(log, crc, ops, torn, kept, later);
      GrownPastTornTail(crc, ops, torn, kept, later);
    }
  }

  /** `with_config`: replays the log into the memtable, then opens the tables. A
      log that cannot be read is an error, and nothing is touched; otherwise the
      directory decides, and the memtable is what the log says. If directory and
      log are what a crash left of a store that recovers to `m`, opening succeeds,
      the database stands for `m`, and every image that opening passes through
      recovers to `m` again. It is protected if no part of a frame was left at the
      end of the log. */
  method Open(disk: FileSystem, crc: Checksum, tableSize: nat, bitsPerKey: nat, numProbes: nat,
              ghost m: map<Key, Value>) returns (r: Result<Database>, ghost spans: seq<Span>)
    requires numProbes < U32
    modifies disk
    ensures disk.log == old(disk.log)
    ensures r.Ok? ==> fresh(r.value) && fresh(r.value.wal) && fresh(r.value.tables) && r.value.disk == disk
    ensures r.Ok? ==> r.value.Config() == Setup(crc, tableSize, bitsPerKey, numProbes)
    ensures match ReadFrom(crc, old(disk.log), 0, [])
            case Err(e) => r == Err(e) && unchanged(disk)
            case Ok(ops) =>
              if HasForeign(old(disk.files)) then r == Err(BadName)
              else
                && IsListing(spans, SpansOf(old(disk.files)))
                && match OpenFrom(TableSetOpen.Published(old(disk.files)), spans, 0, [])
                   case Err(e) => r == Err(e)
                   case Ok((files, tables)) =>
                     && r.Ok?
                     && var shelf := Shelf(tables, NextSeq(spans), Image(files, old(disk.log)));
                        r.value.Held() == View(Replay(ops), 0, shelf)
    ensures Corrupt(old(disk.log), crc) || Overgrown(old(disk.log), crc) ==> r == Err(BadChecksum) && unchanged(disk)
    ensures old(Recoverable(disk.Now(), crc, m)) ==>
              && r.Ok? && r.value.Recovers() && r.value.contents == m
              && old(disk.trace) <= disk.trace && AllRecover(disk.trace[|old(disk.trace)|..], crc, m)
              && (old(WholeLog(disk.log, crc)) ==> r.value.Protected())
  {
    hide DirHolds, TablesHold, Moves, MemFits, Sim, Log, Frame, AllFit, FitsFrame, ReadFrom, AllRecover, Inv, OpenFrom;
    hide ImageOf, WholeLog, Recoverable, Corrupt, Overgrown, IsListing, HasForeign;
    ghost var good, p := Recoverable(disk.Now(), crc, m), Here(disk, Init());
    ghost var s: State, op: Op, kept: nat := Init(), Store.Delete([]), 0;
    spans := [];
    var wal := new WalFile(disk, crc);
    var records := wal.Read();
    if Corrupt(disk.log, crc) || Overgrown(disk.log, crc) { UnreadableLogs(disk.log, crc); }
    if good {
      s, op, kept := WhatRecovers(p.image, crc, m);
      p := Here(disk, s);
    }
    if records.Err? { return Err(records.error), spans; }
    var mem: Memtable := map[];
    for i := 0 to |records.value|
      invariant mem == Replay(records.value[..i])
    {
      assert records.value[..i + 1][..i] == records.value[..i];
      mem := Insert(mem, records.value[i]);
    }
    assert records.value[..|records.value|] == records.value;
    if good { s := ReplayMoves(crc, p, m); }
    var tables, listed, n := TableSetOpen.Open(disk, bitsPerKey, numProbes, crc, s);
    spans := listed;
    if good {
      MovesQuietlyOn(crc, p, p.(state := s), Here(disk, n));
      QuietImages(crc, p, Here(disk, n), [], m, op, kept);
      ReplayFits(s.log);
      if WholeLog(disk.log, crc) { SameLog(disk.Now(), crc, n, op, kept); }
    }
    if tables.Err? { return Err(tables.error), spans; }
    var db := new Database(mem, disk, wal, tableSize, tables.value, n, m);
    assert good ==> db.Usable() && ImageOf(db.disk.Now(), db.wal.crc, db.state, op, kept);
    return Ok(db), spans;
  }

  /** Replaying the log is the first step of recovery. */
  lemma ReplayMoves(crc: Checksum, p: Point, m: map<Key, Value>) returns (n: State)
    requires p.state.phase.Down? && Sim(p.state, Spec(m, None))
    ensures n == p.state.(mem := Replay(p.state.log), phase := Scanning) && Inv(n)
    ensures Moves(crc, p, p.(state := n), [])
    ensures p.state.writer.Idle? && p.state.compactor.Resting? && p.state.readers == map[]
  {
    hide Moves;
    MovesNowhere(crc, p);
    RecoverInv(p.state, ReplayLog);
    var q := MemoryMoves(crc, p, p, Recover(ReplayLog));
    n := q.state;
  }

  lemma TornLogIsReplayed(crc: Checksum, ops: seq<Op>, op: Op, kept: nat)
    requires AllFit(ops) && FitsFrame(op) && kept < |Frame(crc, op)|
    ensures ReadFrom(crc, Log(crc, ops) + Frame(crc, op)[..kept], 0, []) == Ok(ops)
  {
    hide Log, Frame, FitsFrame, ReadFrom;
    var all := ops + [op];
    var cut := |Log(crc, ops)| + kept;
    LogGrows(crc, ops, op);
    assert all[..|ops|] == ops && all[..|ops| + 1] == all;
    assert Log(crc, all)[..cut] == Log(crc, ops) + Frame(crc, op)[..kept];
    CutAnywhere(crc, all, cut, |ops|);
  }

  /** The stopped store behind an image that recovers, and what is replayed. */
  lemma WhatRecovers(i: Image, crc: Checksum, m: map<Key, Value>) returns (s: State, op: Op, kept: nat)
    requires Recoverable(i, crc, m)
    ensures ImageOf(i, crc, s, op, kept) && s.phase.Down? && Sim(s, Spec(m, None))
    ensures DirHolds(i.files, s.files, s.temps) && AllFit(s.log) && ReadFrom(crc, i.log, 0, []) == Ok(s.log)
  {
    hide Sim, DirHolds, Log, Frame, FitsFrame, ReadFrom, AllFit;
    s, op, kept :| ImageOf(i, crc, s, op, kept) && s.phase.Down? && Sim(s, Spec(m, None));
    TornLogIsReplayed(crc, s.log, op, kept);
  }

  /** A log without a torn tail is the log of what is replayed from it. */
  lemma SameLog(i: Image, crc: Checksum, s: State, op: Op, kept: nat)
    requires ImageOf(i, crc, s, op, kept) && WholeLog(i.log, crc)
    ensures i.log == Log(crc, s.log)
  {
    hide DirHolds, Log, Frame, FitsFrame, ReadFrom, AllFit;
    var whole :| AllFit(whole) && i.log == Log(crc, whole);
    TornLogIsReplayed(crc, s.log, op, kept);
    TornLogIsReplayed(crc, whole, op, 0);
    assert Log(crc, whole) + Frame(crc, op)[..0] == i.log;
  }

  /** What a crash leaves between operations recovers to the map. */
  lemma CrashBetween(db: Database)
    requires db.Recovers()
    ensures Recoverable(db.disk.Now(), db.wal.crc, db.contents)
  {
    hide Sim, MemFits, ImageOf;
    var op: Op, kept: nat :| ImageOf(db.disk.Now(), db.wal.crc, db.state, op, kept);
    CrashRecovers(db.disk.Now(), db.wal.crc, db.state, op, kept, Spec(db.contents, None));
  }

  lemma ProtectedRecovers(db: Database)
    requires db.Protected()
    ensures db.Recovers()
  {
    hide Sim, MemFits, DirHolds, Log, AllFit;
    ProtectedImage(db, Store.Delete([]));
  }

  lemma ProtectedImage(db: Database, op: Op)
    requires db.Protected() && FitsFrame(op)
    ensures ImageOf(db.disk.Now(), db.wal.crc, db.state, op, 0)
  {
    hide Sim, MemFits, DirHolds, Log, AllFit, Frame, FitsFrame;
    assert db.disk.log == db.disk.log + Frame(db.wal.crc, op)[..0];
  }
}
