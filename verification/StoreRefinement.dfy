/** The store, with all its interleavings and crashes, is one plain map. */
module StoreRefinement {
  import opened Bytes
  import opened Tables
  import opened Store
  import opened StoreInvariant
  import opened StoreRecovery

  /** The map as it will be once the operation in flight, if it has got far
      enough to survive a crash (`durable`) or to be seen (`visible`), is done. */
  function Durable(writer: Writer): bool {
    !writer.Idle? && !writer.Begun?
  }

  function Visible(writer: Writer): bool {
    Durable(writer) && !writer.Logged?
  }

  function Target(spec: Spec, done: bool): map<Key, Value> {
    if done && spec.pending.Some? then Effect(spec.m, spec.pending.value) else spec.m
  }

  ghost predicate Agrees(mem: Memtable, tables: seq<Table>, m: map<Key, Value>) {
    forall k :: Overlay(mem, tables, k) == Look(m, k)
  }

  ghost predicate PendingOk(writer: Writer, pending: Option<Op>) {
    if writer.Idle? then pending == None else pending == Some(writer.op)
  }

  /** The tables still to be probed hold the map's answer. */
  ghost predicate ReaderOk(r: Reader, m: map<Key, Value>) {
    r.next <= |r.snap| && Lookup(r.snap[..r.next], r.key) == Look(m, r.key)
  }

  ghost predicate ReadersOk(readers: map<nat, Reader>, m: map<Key, Value>) {
    forall id :: id in readers ==> ReaderOk(readers[id], m)
  }

  /** The refinement: a running store reads as the map, every reader will return
      the map's value, and a stopped store will read as the map once reopened. */
  ghost predicate Sim(s: State, spec: Spec) {
    && Inv(s)
    && PendingOk(s.writer, spec.pending)
    && if s.phase.Up? then
         Agrees(s.mem, s.live, Target(spec, Visible(s.writer))) && ReadersOk(s.readers, spec.m)
       else
         Agrees(Replay(s.log), StackOf(s.files), spec.m)
  }

  /* ---- What a crash would recover ---- */

  /** Finished merges on disk, and what is left of emptied runs, answer alike. */
  lemma BaseAnswers(c: Compactor, live: seq<Table>, files: Files, key: Key)
    requires CompactorOk(c, live, files)
    ensures Lookup(Base(c, live), key) == Lookup(live, key)
  {
    if c.Merged? && c.out.Some? {
      SpliceKeepsAnswers(live, c.start, c.count, c.out.value.entries, c.out, key);
    } else if c.Unlinking? && c.out.None? {
      NewestConcat(c.rest, live, key);
    }
  }

  /** A table that is not yet on the list holds nothing but the memtable. */
  lemma ExtraAnswers(writer: Writer, mem: Memtable, log: seq<Op>, live: seq<Table>, nextSeq: nat,
                     base: seq<Table>, key: Key)
    requires WriterOk(writer, log, mem, live, nextSeq)
    requires key !in mem || Extra(writer) == []
    ensures Lookup(base + Extra(writer), key) == Lookup(base, key)
  {
    NewestConcat(base, Extra(writer), key);
    if Extra(writer) != [] {
      NewestOne(writer.table, key);
      assert Find(writer.table.entries, key) == MemFind(mem, key);
    }
  }

  lemma StackAnswers(s: State, key: Key)
    requires Inv(s) && s.phase.Up?
    requires key !in s.mem || Extra(s.writer) == []
    ensures Lookup(Stack(s), key) == Lookup(s.live, key)
  {
    ExtraAnswers(s.writer, s.mem, s.log, s.live, s.nextSeq, Base(s.compactor, s.live), key);
    BaseAnswers(s.compactor, s.live, s.files, key);
  }

  /** Reading the replayed log over the recovered list gives the running
      store's answer, plus the logged operation once it is in the log. */
  lemma CrashView(s: State, key: Key)
    requires Inv(s) && s.phase.Up?
    ensures s.writer.Logged? ==>
              Overlay(Replay(s.log), Stack(s), key) == Overlay(Insert(s.mem, s.writer.op), s.live, key)
    ensures !s.writer.Logged? ==> Overlay(Replay(s.log), Stack(s), key) == Overlay(s.mem, s.live, key)
  {
    if key !in Replay(s.log) || s.writer.Cleared? {
      StackAnswers(s, key);
    }
  }

  lemma InsertView(mem: Memtable, tables: seq<Table>, m: map<Key, Value>, op: Op)
    requires Agrees(mem, tables, m)
    ensures Agrees(Insert(mem, op), tables, Effect(m, op))
  {
    forall k ensures Overlay(Insert(mem, op), tables, k) == Look(Effect(m, op), k) {
      assert Overlay(mem, tables, k) == Look(m, k);
    }
  }

  /* ---- Each step is allowed by the plain map ---- */

  /** The plain map after a step of the store. */
  ghost function After(s: State, spec: Spec, step: Step): Spec {
    match step
    case Write(Begin(op)) => Spec(spec.m, Some(op))
    case Write(Ack) => Spec(Target(spec, true), None)
    case Write(FlushFail) => Spec(Target(spec, true), None)
    case Crash => Spec(Target(spec, Durable(s.writer)), None)
    case _ => spec
  }

  lemma CrashRefines(s: State, spec: Spec)
    requires Sim(s, spec)
    ensures Sim(Crashed(s), After(s, spec, Crash)) && Allowed(spec, Failure, After(s, spec, Crash))
  {
    CrashInv(s);
    if s.phase.Up? {
      RunningStack(s);
      var m := After(s, spec, Crash).m;
      if s.writer.Logged? { InsertView(s.mem, s.live, spec.m, s.writer.op); }
      forall k ensures Overlay(Replay(s.log), Stack(s), k) == Look(m, k) {
        CrashView(s, k);
        assert Overlay(s.mem, s.live, k) == Look(Target(spec, Visible(s.writer)), k);
      }
    }
  }

  lemma RecoverRefines(s: State, spec: Spec, step: RecoverStep)
    requires Sim(s, spec) && CanRecover(s, step)
    ensures Sim(DoRecover(s, step), spec)
  {
    RecoverInv(s, step);
    if step.OpenDone? {
      OpenDoneList(s);
    }
  }

  /** A reader's answer does not depend on the tables it has already probed. */
  lemma ReaderProbe(r: Reader)
    requires 0 < r.next <= |r.snap|
    ensures var f := Find(r.snap[r.next - 1].entries, r.key);
            Newest(r.snap[..r.next], r.key) == if f.Some? then f else Newest(r.snap[..r.next - 1], r.key)
  {
    assert r.snap[..r.next][..r.next - 1] == r.snap[..r.next - 1];
  }

  lemma ReadersKept(s: State, m: map<Key, Value>, step: ReadStep)
    requires CanRead(s, step) && ReadersOk(s.readers, m) && Agrees(s.mem, s.live, m)
    ensures ReadersOk(DoRead(s, step).readers, m)
  {
    hide ReaderOk, Agrees;
    match step
    case GetSnapshot(id, k) => SnapshotOk(s.mem, s.live, m, k);
    case GetProbe(id) => ProbedOk(s.readers[id], m);
    case _ =>
  }

  lemma SnapshotOk(mem: Memtable, live: seq<Table>, m: map<Key, Value>, key: Key)
    requires Agrees(mem, live, m) && key !in mem
    ensures ReaderOk(Reader(key, live, |live|), m)
  {
    assert Overlay(mem, live, key) == Look(m, key);
    assert live[..|live|] == live;
  }

  lemma ProbedOk(r: Reader, m: map<Key, Value>)
    requires ReaderOk(r, m) && 0 < r.next <= |r.snap| && Find(r.snap[r.next - 1].entries, r.key).None?
    ensures ReaderOk(Reader(r.key, r.snap, r.next - 1), m)
  {
    ReaderProbe(r);
  }

  lemma ReadAnswer(s: State, m: map<Key, Value>, step: ReadStep)
    requires CanRead(s, step) && ReadersOk(s.readers, m) && Agrees(s.mem, s.live, m)
    ensures Allowed(Spec(m, None), EventOf(s, Read(step)), Spec(m, None))
  {
    match step
    case GetMem(k) =>
      assert Overlay(s.mem, s.live, k) == Look(m, k);
    case GetDone(id) =>
      if s.readers[id].next > 0 { ReaderProbe(s.readers[id]); }
    case _ =>
  }

  lemma ReadRefines(s: State, spec: Spec, step: ReadStep)
    requires Sim(s, spec) && CanRead(s, step)
    ensures Sim(DoRead(s, step), spec) && Allowed(spec, EventOf(s, Read(step)), spec)
  {
    assert s.phase.Up? && s.writer.Idle?;
    ReadInv(s, step);
    ReadersKept(s, spec.m, step);
    ReadAnswer(s, spec.m, step);
  }

  lemma PushView(mem: Memtable, live: seq<Table>, t: Table, m: map<Key, Value>)
    requires IsFlush(mem, t.entries) && Agrees(mem, live, m)
    ensures Agrees(mem, live + [t], m)
  {
    forall k ensures Overlay(mem, live + [t], k) == Look(m, k) {
      assert Overlay(mem, live, k) == Look(m, k);
      NewestConcat(live, [t], k);
      NewestOne(t, k);
      assert Find(t.entries, k) == MemFind(mem, k);
    }
  }

  lemma ClearView(mem: Memtable, live: seq<Table>, m: map<Key, Value>)
    requires Flushed(mem, live) && Agrees(mem, live, m)
    ensures Agrees(map[], live, m)
  {
    forall k ensures Overlay(map[], live, k) == Look(m, k) {
      assert Overlay(mem, live, k) == Look(m, k);
    }
  }

  /** What the writer's steps do to the reading of memory and list. */
  lemma WriteView(s: State, spec: Spec, step: WriteStep)
    requires CanWrite(s, step) && PendingOk(s.writer, spec.pending)
    requires Agrees(s.mem, s.live, Target(spec, Visible(s.writer)))
    requires WriterOk(s.writer, s.log, s.mem, s.live, s.nextSeq)
    ensures var n := DoWrite(s, step);
            Agrees(n.mem, n.live, Target(After(s, spec, Write(step)), Visible(n.writer)))
  {
    match step
    case MemInsert => InsertView(s.mem, s.live, spec.m, s.writer.op);
    case FlushPush => PushView(s.mem, s.live, s.writer.table, Target(spec, true));
    case FlushClear => ClearView(s.mem, s.live, Target(spec, true));
    case _ =>
  }

  lemma WriteRefines(s: State, spec: Spec, step: WriteStep)
    requires Sim(s, spec) && CanWrite(s, step)
    ensures Sim(DoWrite(s, step), After(s, spec, Write(step)))
    ensures Allowed(spec, EventOf(s, Write(step)), After(s, spec, Write(step)))
  {
    WriteInv(s, step);
    WriteView(s, spec, step);
    NoReaders(s, spec, step);
  }

  lemma NoReaders(s: State, spec: Spec, step: WriteStep)
    requires CanWrite(s, step) && ReadersOk(s.readers, spec.m) && (s.readers != map[] ==> s.writer.Idle?)
    requires PendingOk(s.writer, spec.pending)
    ensures ReadersOk(DoWrite(s, step).readers, After(s, spec, Write(step)).m)
    ensures PendingOk(DoWrite(s, step).writer, After(s, spec, Write(step)).pending)
    ensures Allowed(spec, EventOf(s, Write(step)), After(s, spec, Write(step)))
  {
  }

  /** Compaction is invisible. */
  lemma CompactRefines(s: State, spec: Spec, step: CompactStep)
    requires Sim(s, spec) && CanCompact(s, step)
    ensures Sim(DoCompact(s, step), spec)
  {
    CompactInv(s, step);
    CompactView(s, step);
  }

  lemma CompactView(s: State, step: CompactStep)
    requires CanCompact(s, step) && CompactorOk(s.compactor, s.live, s.files)
    ensures forall k {:trigger Overlay(s.mem, s.live, k)}
              {:trigger Overlay(DoCompact(s, step).mem, DoCompact(s, step).live, k)} ::
              Overlay(DoCompact(s, step).mem, DoCompact(s, step).live, k) == Overlay(s.mem, s.live, k)
  {
    if step.Swap? {
      forall k ensures Overlay(DoCompact(s, step).mem, DoCompact(s, step).live, k) == Overlay(s.mem, s.live, k) {
        SwapAnswers(s, k);
      }
    }
  }

  /** One step of the store is one step, or no step, of the plain map. */
  lemma StepRefines(s: State, spec: Spec, step: Step)
    requires Sim(s, spec) && Enabled(s, step)
    ensures Sim(Apply(s, step), After(s, spec, step))
    ensures Allowed(spec, EventOf(s, step), After(s, spec, step))
  {
    match step
    case Write(w) => WriteRefines(s, spec, w);
    case Read(r) => ReadRefines(s, spec, r);
    case Compact(c) => CompactRefines(s, spec, c);
    case Recover(v) => RecoverRefines(s, spec, v);
    case Crash => CrashRefines(s, spec);
  }

  /** Any run from a state that stands for the map `a` is explained by the plain
      map, and ends in a state that stands for the explanation's final map. */
  lemma {:induction false} RunRefines(s: State, spec: Spec, steps: seq<Step>) returns (last: Spec)
    requires Sim(s, spec) && Runs(s, steps)
    ensures Explains(spec, Events(s, steps), last) && Sim(Final(s, steps), last)
    decreases |steps|
  {
    if steps == [] {
      last := spec;
    } else {
      StepRefines(s, spec, steps[0]);
      var mid := After(s, spec, steps[0]);
      last := RunRefines(Apply(s, steps[0]), mid, steps[1..]);
      var rest := Events(Apply(s, steps[0]), steps[1..]);
      assert ([EventOf(s, steps[0])] + rest)[1..] == rest;
    }
  }

  lemma InitSim()
    ensures Sim(Init(), Spec(map[], None))
  {
    var s := Init();
    assert IsStack(s.files, []);
    StackUnique(s.files, [], StackOf(s.files));
  }

  /** The main theorem: every run of the store from an empty directory, with any
      interleaving of the writer, readers and compactor and any number of
      crashes and (partial) recoveries, shows only what a plain map could show. */
  lemma StoreIsAMap(steps: seq<Step>)
    requires Runs(Init(), steps)
    ensures exists last :: Explains(Spec(map[], None), Events(Init(), steps), last) && Sim(Final(Init(), steps), last)
  {
    InitSim();
    var last := RunRefines(Init(), Spec(map[], None), steps);
  }
}
