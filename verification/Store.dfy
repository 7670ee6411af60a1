/** The storage engine as a step machine: one writer (holding the database
    lock), any number of readers, the compactor thread, crashes at any point,
    and recovery one file operation at a time. Every step is one effect on the
    disk or on the shared memory, so a run is any interleaving of them. */
module Store {
  import opened Bytes
  import opened Tables

  datatype Op = Put(key: Key, value: Value) | Delete(key: Key)

  type Memtable = map<Key, Option<Value>>

  function Insert(mem: Memtable, op: Op): Memtable {
    match op
    case Put(k, v) => mem[k := Some(v)]
    case Delete(k) => mem[k := None]
  }

  function Replay(log: seq<Op>): Memtable {
    if log == [] then map[] else Insert(Replay(log[..|log| - 1]), log[|log| - 1])
  }

  function MemFind(mem: Memtable, key: Key): Found {
    if key in mem then Some(mem[key]) else None
  }

  /** A memtable read over a list of tables. */
  function Overlay(mem: Memtable, tables: seq<Table>, key: Key): Option<Value> {
    if key in mem then mem[key] else Lookup(tables, key)
  }

  ghost predicate IsFlush(mem: Memtable, entries: seq<Entry>) {
    Sorted(entries) && forall k :: Find(entries, k) == MemFind(mem, k)
  }

  /** Where `put` or `delete` of `op` has got to. */
  datatype Writer =
    | Idle
    | Begun(op: Op)
    | Logged(op: Op)
    | Applied(op: Op)
    | TempWritten(op: Op, table: Table)
    | Published(op: Op, table: Table)
    | SeqStored(op: Op, table: Table)
    | Pushed(op: Op)
    | Cleared(op: Op)
    | Truncated(op: Op)

  /** Where `compact` has got to. `out == None` is a merge that kept nothing. */
  datatype Compactor =
    | Resting
    | Picked(start: nat, count: nat)
    | Snapped(start: nat, count: nat, snap: seq<Table>)
    | TempMade(start: nat, count: nat, snap: seq<Table>, table: Table)
    | Merged(start: nat, count: nat, out: Option<Table>)
    | Unlinking(rest: seq<Table>, out: Option<Table>, unlinked: nat)

  /** A `get` that missed the memtable and is walking its snapshot of the list;
      tables `next ..` have already been found not to hold the key. */
  datatype Reader = Reader(key: Key, snap: seq<Table>, next: nat)

  datatype Phase = Up | Down | Scanning | Opening(spans: seq<Span>, at: nat)

  datatype State = State(
    files: Files, temps: set<Span>, log: seq<Op>,
    phase: Phase, mem: Memtable, live: seq<Table>, nextSeq: nat,
    writer: Writer, compactor: Compactor, readers: map<nat, Reader>)

  function Init(): State {
    State(map[], {}, [], Down, map[], [], 0, Idle, Resting, map[])
  }

  datatype WriteStep =
    | Begin(op: Op) | LogAppend | MemInsert | Ack
    | FlushTemp(entries: seq<Entry>) | FlushFail | FlushPublish | FlushStoreSeq | FlushPush | FlushClear
    | FlushTruncate

  datatype ReadStep = GetMem(key: Key) | GetSnapshot(id: nat, key: Key) | GetProbe(id: nat) | GetDone(id: nat)

  datatype CompactStep =
    | Pick(start: nat, count: nat) | Snapshot | MergeTemp(out: seq<Entry>) | MergeFail | MergePublish | MergeEmpty
    | Swap | Unlink | CompactDone

  datatype RecoverStep =
    | ReplayLog | RemoveTemp(span: Span) | ListDir(spans: seq<Span>) | RemoveSuperseded | OpenTable | OpenDone

  datatype Step = Write(w: WriteStep) | Read(r: ReadStep) | Compact(c: CompactStep) | Recover(v: RecoverStep) | Crash

  function SpanOfRun(run: seq<Table>): Span
    requires run != []
  {
    Span(run[0].span.first, run[|run| - 1].span.last)
  }

  predicate SpanLess(a: Span, b: Span) {
    a.first < b.first || (a.first == b.first && a.last < b.last)
  }

  /** `spans` is the result of `spans.sort()` over the directory's table files. */
  ghost predicate IsListing(spans: seq<Span>, names: set<Span>) {
    && (forall i, j :: 0 <= i < j < |spans| ==> SpanLess(spans[i], spans[j]))
    && (forall s :: s in names <==> s in spans)
  }

  /** The largest `last + 1` over the directory's files, 0 if there are none. */
  function NextSeq(spans: seq<Span>): nat {
    if spans == [] then 0
    else
      var rest := NextSeq(spans[..|spans| - 1]);
      var here := spans[|spans| - 1].last + 1;
      if here > rest then here else rest
  }

  function ToSet(spans: seq<Span>): set<Span> {
    set s | s in spans
  }

  /* ---- put, delete and flush ---- */

  ghost predicate CanWrite(s: State, step: WriteStep) {
    match step
    case Begin(_) => s.phase.Up? && s.writer.Idle? && s.readers == map[]
    case LogAppend => s.writer.Begun?
    case MemInsert => s.writer.Logged?
    case Ack => s.writer.Applied? || s.writer.Truncated?
    case FlushTemp(entries) => s.writer.Applied? && IsFlush(s.mem, entries)
    case FlushFail => s.writer.TempWritten?
    case FlushPublish => s.writer.TempWritten?
    case FlushStoreSeq => s.writer.Published?
    case FlushPush => s.writer.SeqStored?
    case FlushClear => s.writer.Pushed?
    case FlushTruncate => s.writer.Cleared?
  }

  ghost function DoWrite(s: State, step: WriteStep): State
    requires CanWrite(s, step)
  {
    match step
    case Begin(op) => s.(writer := Begun(op))
    case LogAppend => s.(log := s.log + [s.writer.op], writer := Logged(s.writer.op))
    case MemInsert => s.(mem := Insert(s.mem, s.writer.op), writer := Applied(s.writer.op))
    case Ack => s.(writer := Idle)
    case FlushTemp(entries) =>
      var span := Span(s.nextSeq, s.nextSeq);
      s.(temps := s.temps + {span}, writer := TempWritten(s.writer.op, Table(span, entries)))
    case FlushFail => s.(writer := Idle)
    case FlushPublish =>
      var t := s.writer.table;
      s.(files := s.files[t.span := t.entries], temps := s.temps - {t.span}, writer := Published(s.writer.op, t))
    case FlushStoreSeq => s.(nextSeq := s.writer.table.span.last + 1, writer := SeqStored(s.writer.op, s.writer.table))
    case FlushPush => s.(live := s.live + [s.writer.table], writer := Pushed(s.writer.op))
    case FlushClear => s.(mem := map[], writer := Cleared(s.writer.op))
    case FlushTruncate => s.(log := [], writer := Truncated(s.writer.op))
  }

  /* ---- get ---- */

  ghost predicate CanRead(s: State, step: ReadStep) {
    match step
    case GetMem(k) => s.phase.Up? && s.writer.Idle? && k in s.mem
    case GetSnapshot(id, k) => s.phase.Up? && s.writer.Idle? && k !in s.mem && id !in s.readers
    case GetProbe(id) =>
      && id in s.readers && 0 < s.readers[id].next <= |s.readers[id].snap|
      && Find(s.readers[id].snap[s.readers[id].next - 1].entries, s.readers[id].key).None?
    case GetDone(id) =>
      && id in s.readers && s.readers[id].next <= |s.readers[id].snap|
      && (s.readers[id].next == 0
          || Find(s.readers[id].snap[s.readers[id].next - 1].entries, s.readers[id].key).Some?)
  }

  ghost function DoRead(s: State, step: ReadStep): State
    requires CanRead(s, step)
  {
    match step
    case GetMem(_) => s
    case GetSnapshot(id, k) => s.(readers := s.readers[id := Reader(k, s.live, |s.live|)])
    case GetProbe(id) =>
      var r := s.readers[id];
      s.(readers := s.readers[id := Reader(r.key, r.snap, r.next - 1)])
    case GetDone(id) => s.(readers := s.readers - {id})
  }

  /* ---- compaction ---- */

  ghost predicate CanCompact(s: State, step: CompactStep) {
    match step
    case Pick(start, count) => s.phase.Up? && s.compactor.Resting? && count >= 2 && start + count <= |s.live|
    case Snapshot => s.compactor.Picked?
    case MergeTemp(out) =>
      && s.compactor.Snapped?
      && var c := s.compactor;
      && c.count > 0 && c.start + c.count <= |c.snap| && out != []
      && IsMerge(c.snap[c.start..c.start + c.count], c.start == 0, out)
    case MergeFail => s.compactor.TempMade?
    case MergePublish => s.compactor.TempMade?
    case MergeEmpty =>
      && s.compactor.Snapped?
      && var c := s.compactor;
      && c.start + c.count <= |c.snap|
      && IsMerge(c.snap[c.start..c.start + c.count], c.start == 0, [])
    case Swap => s.compactor.Merged? && s.compactor.start + s.compactor.count <= |s.live|
    case Unlink => s.compactor.Unlinking? && s.compactor.rest != []
    case CompactDone => s.compactor.Unlinking? && s.compactor.rest == []
  }

  ghost function DoCompact(s: State, step: CompactStep): State
    requires CanCompact(s, step)
  {
    match step
    case Pick(start, count) => s.(compactor := Picked(start, count))
    case Snapshot => s.(compactor := Snapped(s.compactor.start, s.compactor.count, s.live))
    case MergeTemp(out) =>
      var c := s.compactor;
      var span := SpanOfRun(c.snap[c.start..c.start + c.count]);
      s.(temps := s.temps + {span}, compactor := TempMade(c.start, c.count, c.snap, Table(span, out)))
    case MergeFail => s.(compactor := Resting)
    case MergePublish =>
      var c := s.compactor;
      s.(files := s.files[c.table.span := c.table.entries], temps := s.temps - {c.table.span},
         compactor := Merged(c.start, c.count, Some(c.table)))
    case MergeEmpty => s.(compactor := Merged(s.compactor.start, s.compactor.count, None))
    case Swap =>
      var c := s.compactor;
      s.(live := Splice(s.live, c.start, c.count, c.out),
         compactor := Unlinking(s.live[c.start..c.start + c.count], c.out, 0))
    case Unlink =>
      var c := s.compactor;
      s.(files := s.files - {c.rest[0].span}, compactor := Unlinking(c.rest[1..], c.out, c.unlinked + 1))
    case CompactDone => s.(compactor := Resting)
  }

  /* ---- crash and recovery ---- */

  function Crashed(s: State): State {
    State(s.files, s.temps, s.log, Down, map[], [], 0, Idle, Resting, map[])
  }

  ghost predicate CanRecover(s: State, step: RecoverStep) {
    match step
    case ReplayLog => s.phase.Down?
    case RemoveTemp(span) => s.phase.Scanning? && span in s.temps
    case ListDir(spans) => s.phase.Scanning? && s.temps == {} && IsListing(spans, s.files.Keys)
    case RemoveSuperseded =>
      && s.phase.Opening? && s.phase.at < |s.phase.spans|
      && Superseded(s.phase.spans[s.phase.at], ToSet(s.phase.spans))
    case OpenTable =>
      && s.phase.Opening? && s.phase.at < |s.phase.spans|
      && !Superseded(s.phase.spans[s.phase.at], ToSet(s.phase.spans))
      && s.phase.spans[s.phase.at] in s.files
    case OpenDone => s.phase.Opening? && s.phase.at == |s.phase.spans|
  }

  ghost function DoRecover(s: State, step: RecoverStep): State
    requires CanRecover(s, step)
  {
    match step
    case ReplayLog => s.(mem := Replay(s.log), phase := Scanning)
    case RemoveTemp(span) => s.(temps := s.temps - {span})
    case ListDir(spans) => s.(phase := Opening(spans, 0), nextSeq := NextSeq(spans))
    case RemoveSuperseded =>
      s.(files := s.files - {s.phase.spans[s.phase.at]}, phase := Opening(s.phase.spans, s.phase.at + 1))
    case OpenTable =>
      var span := s.phase.spans[s.phase.at];
      s.(live := s.live + [Table(span, s.files[span])], phase := Opening(s.phase.spans, s.phase.at + 1))
    case OpenDone => s.(phase := Up)
  }

  /* ---- runs ---- */

  ghost predicate Enabled(s: State, step: Step) {
    match step
    case Write(w) => CanWrite(s, w)
    case Read(r) => CanRead(s, r)
    case Compact(c) => CanCompact(s, c)
    case Recover(v) => CanRecover(s, v)
    case Crash => true
  }

  ghost function Apply(s: State, step: Step): State
    requires Enabled(s, step)
  {
    match step
    case Write(w) => DoWrite(s, w)
    case Read(r) => DoRead(s, r)
    case Compact(c) => DoCompact(s, c)
    case Recover(v) => DoRecover(s, v)
    case Crash => Crashed(s)
  }

  /** `steps` can be taken one after another from `s`. */
  ghost predicate Runs(s: State, steps: seq<Step>)
    decreases |steps|
  {
    steps == [] || (Enabled(s, steps[0]) && Runs(Apply(s, steps[0]), steps[1..]))
  }

  ghost function Final(s: State, steps: seq<Step>): State
    requires Runs(s, steps)
    decreases |steps|
  {
    if steps == [] then s else Final(Apply(s, steps[0]), steps[1..])
  }

  /* ---- The specification: one plain map ---- */

  /** The map, and the operation that has been called but has not returned. */
  datatype Spec = Spec(m: map<Key, Value>, pending: Option<Op>)

  datatype Event = Internal | Call(op: Op) | Return | Got(key: Key, result: Option<Value>) | Failure

  function Effect(m: map<Key, Value>, op: Op): map<Key, Value> {
    match op
    case Put(k, v) => m[k := v]
    case Delete(k) => m - {k}
  }

  function Look(m: map<Key, Value>, key: Key): Option<Value> {
    if key in m then Some(m[key]) else None
  }

  /** What a plain map may do: an operation takes effect when it returns (also
      with an error, if all that failed was writing the flushed table), a get
      returns the map's value, and a crash loses nothing that has returned; an
      operation in flight at the crash may be present or absent afterwards. */
  ghost predicate Allowed(a: Spec, event: Event, b: Spec) {
    match event
    case Internal => b == a
    case Call(op) => a.pending.None? && b == Spec(a.m, Some(op))
    case Return => a.pending.Some? && b == Spec(Effect(a.m, a.pending.value), None)
    case Got(k, result) => a.pending.None? && result == Look(a.m, k) && b == a
    case Failure => b.pending.None? && (b.m == a.m || (a.pending.Some? && b.m == Effect(a.m, a.pending.value)))
  }

  /** What an observer sees of a step. */
  ghost function EventOf(s: State, step: Step): Event
    requires Enabled(s, step)
  {
    match step
    case Write(Begin(op)) => Call(op)
    case Write(Ack) => Return
    case Write(FlushFail) => Return
    case Read(GetMem(k)) => Got(k, s.mem[k])
    case Read(GetDone(id)) =>
      var r := s.readers[id];
      Got(r.key, if r.next == 0 then None else Answer(Find(r.snap[r.next - 1].entries, r.key)))
    case Crash => Failure
    case _ => Internal
  }

  ghost function Events(s: State, steps: seq<Step>): seq<Event>
    requires Runs(s, steps)
    decreases |steps|
  {
    if steps == [] then [] else [EventOf(s, steps[0])] + Events(Apply(s, steps[0]), steps[1..])
  }

  /** The plain map can produce exactly these events, ending in `b`. */
  ghost predicate Explains(a: Spec, events: seq<Event>, b: Spec)
    decreases |events|
  {
    if events == [] then a == b
    else exists mid :: Allowed(a, events[0], mid) && Explains(mid, events[1..], b)
  }
}
