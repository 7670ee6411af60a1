/** What every step of the store keeps: which files are on disk for which
    reason, which list a crash would recover, and where the writer's flush and
    the compactor stand towards both. */
module StoreInvariant {
  import opened Bytes
  import opened Tables
  import opened Store

  /** The flushed table that is on disk but not yet on the list. */
  function Extra(writer: Writer): seq<Table> {
    match writer
    case Published(_, t) => [t]
    case SeqStored(_, t) => [t]
    case _ => []
  }

  /** The table list with the compactor's progress on disk applied to it. */
  function Base(compactor: Compactor, live: seq<Table>): seq<Table> {
    match compactor
    case Merged(start, count, Some(t)) =>
      if start + count <= |live| then Splice(live, start, count, Some(t)) else []
    case Unlinking(rest, None, _) => rest + live
    case _ => live
  }

  /** The list that would be recovered if the store crashed now. */
  function Stack(s: State): seq<Table> {
    Base(s.compactor, s.live) + Extra(s.writer)
  }

  /** Table files that a recovery would delete: inputs of a published merge. */
  ghost predicate Leftover(compactor: Compactor, live: seq<Table>, span: Span) {
    match compactor
    case Merged(start, count, Some(t)) => Listed(span, live)
    case Unlinking(rest, Some(t), _) => Listed(span, rest)
    case _ => false
  }

  ghost predicate GoodFiles(files: Files) {
    forall s :: s in files ==> files[s] != [] && Sorted(files[s])
  }

  ghost predicate Below(tables: seq<Table>, seqNo: nat) {
    forall i :: 0 <= i < |tables| ==> tables[i].span.last < seqNo
  }

  ghost predicate Hidden(tables: seq<Table>) {
    forall k :: Newest(tables, k) == None || Newest(tables, k) == Some(None)
  }

  /** Every file is on the list a crash would recover, or is left over. */
  ghost predicate Accounted(files: Files, stack: seq<Table>, compactor: Compactor, live: seq<Table>) {
    forall f {:trigger Listed(f, stack)} :: f in files ==> Listed(f, stack) || Leftover(compactor, live, f)
  }

  ghost predicate DiskOk(files: Files, live: seq<Table>, stack: seq<Table>, compactor: Compactor) {
    Ordered(live) && OnDisk(files, live) && IsStack(files, stack) && Accounted(files, stack, compactor, live)
  }

  /** The memtable holds the answers of the tables it was flushed into. */
  ghost predicate Flushed(mem: Memtable, live: seq<Table>) {
    forall k :: k in mem ==> Lookup(live, k) == mem[k]
  }

  ghost predicate FlushTable(t: Table, mem: Memtable) {
    t.entries != [] && t.span.first == t.span.last && IsFlush(mem, t.entries)
  }

  /** The writer: replaying the log gives the memtable, except between the log
      append and the insert, and between clearing and truncating. */
  ghost predicate WriterOk(writer: Writer, log: seq<Op>, mem: Memtable, live: seq<Table>, nextSeq: nat) {
    match writer
    case Logged(op) => log != [] && log[|log| - 1] == op && Replay(log[..|log| - 1]) == mem
    case Applied(op) => Replay(log) == mem && mem != map[]
    case TempWritten(op, t) => Replay(log) == mem && FlushTable(t, mem) && t.span.last == nextSeq
    case Published(op, t) => Replay(log) == mem && FlushTable(t, mem) && t.span.last == nextSeq
    case SeqStored(op, t) =>
      Replay(log) == mem && FlushTable(t, mem) && t.span.last + 1 == nextSeq && Below(live, t.span.first)
    case Pushed(op) => Replay(log) == mem && Flushed(mem, live)
    case Cleared(op) => mem == map[] && Flushed(Replay(log), live)
    case Truncated(op) => mem == map[] && log == []
    case _ => Replay(log) == mem
  }

  /** Files that a merge's output supersedes, on their way out. */
  ghost predicate Superseding(t: Table, rest: seq<Table>, live: seq<Table>, files: Files) {
    && Ordered(rest) && Listed(t.span, live)
    && forall i :: 0 <= i < |rest| ==> Within(rest[i].span, t.span) && rest[i].span != t.span && rest[i].span in files
  }

  ghost predicate CompactorOk(compactor: Compactor, live: seq<Table>, files: Files) {
    match compactor
    case Resting => true
    case Picked(start, count) => count >= 2 && start + count <= |live|
    case Snapped(start, count, snap) => count >= 2 && start + count <= |snap| && snap <= live
    case TempMade(start, count, snap, t) =>
      && count >= 2 && start + count <= |snap| && snap <= live
      && t.entries != [] && t.span == SpanOfRun(snap[start..start + count])
      && IsMerge(snap[start..start + count], start == 0, t.entries)
    case Merged(start, count, out) =>
      && count >= 2 && start + count <= |live|
      && (out.Some? ==> out.value.entries != [] && out.value.span == SpanOfRun(live[start..start + count]))
      && (out.None? ==> start == 0)
      && IsMerge(live[start..start + count], start == 0, if out.Some? then out.value.entries else [])
    case Unlinking(rest, Some(t), _) => Superseding(t, rest, live, files)
    case Unlinking(rest, None, _) => Hidden(rest)
  }

  /** Directory, list and compactor; `extra` is the table being flushed. */
  ghost predicate ListOk(files: Files, live: seq<Table>, extra: seq<Table>, c: Compactor, nextSeq: nat) {
    && DiskOk(files, live, Base(c, live) + extra, c) && CompactorOk(c, live, files)
    && Below(live, nextSeq) && Below(Base(c, live), nextSeq)
  }

  ghost predicate RunningOk(s: State) {
    && ListOk(s.files, s.live, Extra(s.writer), s.compactor, s.nextSeq)
    && WriterOk(s.writer, s.log, s.mem, s.live, s.nextSeq)
    && (s.readers != map[] ==> s.writer.Idle?)
  }

  ghost predicate HasStack(files: Files) {
    exists stack :: IsStack(files, stack)
  }

  /** The list that opening the directory produces. */
  ghost function StackOf(files: Files): (stack: seq<Table>)
    requires HasStack(files)
    ensures IsStack(files, stack)
  {
    var stack :| IsStack(files, stack); stack
  }

  /** The listing that `open` works through, compared with the list to build. */
  ghost predicate ListingOk(spans: seq<Span>, stack: seq<Table>) {
    && (forall i, j :: 0 <= i < j < |spans| ==> SpanLess(spans[i], spans[j]))
    && (forall i :: 0 <= i < |spans| ==> (Superseded(spans[i], ToSet(spans)) <==> !Listed(spans[i], stack)))
  }

  /** `open` is at `spans[at]`: what it has deleted was not on the list. */
  ghost predicate DeletedOk(files: Files, stack: seq<Table>, spans: seq<Span>, at: nat) {
    && at <= |spans|
    && (forall f :: f in files ==> f in spans)
    && (forall i :: at <= i < |spans| ==> spans[i] in files)
    && (forall i :: 0 <= i < at && spans[i] in files ==> Listed(spans[i], stack))
  }

  /** `open` is at `spans[at]`: what it has opened is a prefix of the list. */
  ghost predicate OpenedOk(live: seq<Table>, stack: seq<Table>, seen: seq<Span>) {
    && |live| <= |stack| && live == stack[..|live|]
    && (forall j :: 0 <= j < |stack| ==> (j < |live| <==> stack[j].span in seen))
  }

  ghost predicate OpeningOk(s: State, spans: seq<Span>, at: nat)
    requires HasStack(s.files)
  {
    var stack := StackOf(s.files);
    && ListingOk(spans, stack) && DeletedOk(s.files, stack, spans, at)
    && OpenedOk(s.live, stack, spans[..at]) && s.nextSeq == SeqAfter(stack)
  }

  ghost predicate RecoveringOk(s: State) {
    && HasStack(s.files)
    && s.writer.Idle? && s.compactor.Resting? && s.readers == map[]
    && match s.phase
       case Opening(spans, at) => s.mem == Replay(s.log) && OpeningOk(s, spans, at)
       case Scanning => s.mem == Replay(s.log) && s.live == []
       case _ => s.mem == map[] && s.live == []
  }

  ghost predicate Inv(s: State) {
    && GoodFiles(s.files)
    && if s.phase.Up? then RunningOk(s) else RecoveringOk(s)
  }

  /** The directory of a running store stands for `Stack(s)`. */
  lemma RunningStack(s: State)
    requires Inv(s) && s.phase.Up?
    ensures HasStack(s.files) && StackOf(s.files) == Stack(s)
  {
    StackUnique(s.files, StackOf(s.files), Stack(s));
  }

  /* ---- One lemma for each kind of step ---- */

  lemma ReadInv(s: State, step: ReadStep)
    requires Inv(s) && CanRead(s, step) && s.phase.Up?
    ensures Inv(DoRead(s, step))
  {
  }

  /** Steps of the writer that touch neither the directory nor the list. */
  predicate QuietStep(step: WriteStep) {
    step.Begin? || step.LogAppend? || step.MemInsert? || step.Ack? || step.FlushTemp? || step.FlushFail?
    || step.FlushClear? || step.FlushTruncate?
  }

  lemma QuietStepWriter(s: State, step: WriteStep)
    requires CanWrite(s, step) && QuietStep(step)
    requires WriterOk(s.writer, s.log, s.mem, s.live, s.nextSeq)
    ensures var n := DoWrite(s, step); WriterOk(n.writer, n.log, n.mem, n.live, n.nextSeq)
  {
    var n := DoWrite(s, step);
    if step.LogAppend? {
      assert n.log[..|n.log| - 1] == s.log;
    }
    if step.MemInsert? {
      assert s.writer.op.key in n.mem;
    }
    if step.FlushTemp? {
      var k :| k in s.mem;
      assert Find(step.entries, k) == MemFind(s.mem, k);
    }
  }

  lemma QuietStepInv(s: State, step: WriteStep)
    requires Inv(s) && CanWrite(s, step) && QuietStep(step)
    requires s.phase.Up?
    ensures Inv(DoWrite(s, step))
  {
    QuietStepWriter(s, step);
  }

  lemma ListedMore(span: Span, a: seq<Table>, b: seq<Table>)
    ensures Listed(span, a) || Listed(span, b) <==> Listed(span, a + b)
  {
    if Listed(span, a) {
      var i :| 0 <= i < |a| && a[i].span == span;
      assert (a + b)[i].span == span;
    } else if Listed(span, b) {
      var i :| 0 <= i < |b| && b[i].span == span;
      assert (a + b)[|a| + i].span == span;
    }
  }

  lemma CoveredMore(span: Span, a: seq<Table>, b: seq<Table>)
    ensures Covered(span, a) || Covered(span, b) <==> Covered(span, a + b)
  {
    if Covered(span, a) {
      var i :| 0 <= i < |a| && Within(span, a[i].span);
      assert Within(span, (a + b)[i].span);
    } else if Covered(span, b) {
      var i :| 0 <= i < |b| && Within(span, b[i].span);
      assert Within(span, (a + b)[|a| + i].span);
    }
  }

  lemma BeyondStack(files: Files, stack: seq<Table>, span: Span)
    requires IsStack(files, stack) && Below(stack, span.first)
    ensures span !in files || span.last < span.first
  {
    forall f | f in files ensures f.last < span.first {
      assert Covered(f, stack);
    }
  }

  lemma PublishKeepsStack(files: Files, stack: seq<Table>, t: Table)
    requires IsStack(files, stack) && Below(stack, t.span.first) && t.span.first <= t.span.last
    ensures t.span !in files && IsStack(files[t.span := t.entries], stack + [t])
  {
    BeyondStack(files, stack, t.span);
    forall f | f in files[t.span := t.entries] ensures f.first <= f.last && Covered(f, stack + [t]) {
      CoveredMore(f, stack, [t]);
      if f == t.span {
        assert [t][0].span == f;
      } else {
        assert Covered(f, stack);
      }
    }
  }

  lemma PublishAccounted(files: Files, stack: seq<Table>, c: Compactor, live: seq<Table>, t: Table)
    requires Accounted(files, stack, c, live)
    ensures Accounted(files[t.span := t.entries], stack + [t], c, live)
  {
    forall f | f in files[t.span := t.entries]
      ensures Listed(f, stack + [t]) || Leftover(c, live, f)
    {
      ListedMore(f, stack, [t]);
      if f == t.span {
        assert [t][0].span == f;
      } else {
        assert Listed(f, stack) || Leftover(c, live, f);
      }
    }
  }

  /** Publishing a flushed table puts it last on the list. */
  lemma PublishKeepsDisk(files: Files, live: seq<Table>, stack: seq<Table>, c: Compactor, t: Table)
    requires DiskOk(files, live, stack, c)
    requires Below(stack, t.span.first) && t.span.first <= t.span.last
    ensures t.span !in files
    ensures DiskOk(files[t.span := t.entries], live, stack + [t], c)
  {
    PublishKeepsStack(files, stack, t);
    PublishAccounted(files, stack, c, live, t);
  }

  lemma PublishList(files: Files, live: seq<Table>, c: Compactor, t: Table, nextSeq: nat)
    requires ListOk(files, live, [], c, nextSeq) && t.span == Span(nextSeq, nextSeq)
    ensures ListOk(files[t.span := t.entries], live, [t], c, nextSeq)
  {
    assert Base(c, live) + [] == Base(c, live);
    PublishKeepsDisk(files, live, Base(c, live), c, t);
  }

  lemma PublishFlushInv(s: State)
    requires Inv(s) && s.phase.Up? && s.writer.TempWritten?
    ensures Inv(DoWrite(s, FlushPublish))
  {
    PublishList(s.files, s.live, s.compactor, s.writer.table, s.nextSeq);
  }

  lemma StoreSeqInv(s: State)
    requires Inv(s) && s.phase.Up? && s.writer.Published?
    ensures Inv(DoWrite(s, FlushStoreSeq))
  {
    var n := DoWrite(s, FlushStoreSeq);
    assert Stack(n) == Stack(s);
  }

  lemma PushAccounted(files: Files, stack: seq<Table>, c: Compactor, live: seq<Table>, t: Table)
    requires Accounted(files, stack, c, live)
    ensures Accounted(files, stack, c, live + [t])
  {
    forall f | f in files ensures Listed(f, stack) || Leftover(c, live + [t], f) {
      assert Listed(f, stack) || Leftover(c, live, f);
      ListedMore(f, live, [t]);
    }
  }

  lemma PushDisk(files: Files, live: seq<Table>, base: seq<Table>, t: Table, c: Compactor)
    requires DiskOk(files, live, base + [t], c) && Below(live, t.span.first)
    ensures DiskOk(files, live + [t], base + [t], c)
  {
    PushAccounted(files, base + [t], c, live, t);
    assert (base + [t])[|base|] == t;
  }

  lemma PushFlushed(mem: Memtable, live: seq<Table>, t: Table)
    requires IsFlush(mem, t.entries)
    ensures Flushed(mem, live + [t])
  {
    forall k | k in mem ensures Lookup(live + [t], k) == mem[k] {
      NewestConcat(live, [t], k);
      NewestOne(t, k);
      assert Find(t.entries, k) == MemFind(mem, k);
    }
  }

  lemma PushList(files: Files, live: seq<Table>, c: Compactor, t: Table, nextSeq: nat)
    requires ListOk(files, live, [t], c, nextSeq) && Below(live, t.span.first) && t.span.last < nextSeq
    ensures ListOk(files, live + [t], [], c, nextSeq)
    ensures Base(c, live + [t]) + [] == Base(c, live) + [t]
  {
    PushStack(c, live, t, files);
    PushDisk(files, live, Base(c, live), t, c);
    PushCompactor(c, live, t, files);
    assert Base(c, live + [t]) + [] == Base(c, live) + [t];
  }

  /** Appending to the list moves the table from the writer to the list. */
  lemma PushInv(s: State)
    requires Inv(s) && s.phase.Up? && s.writer.SeqStored?
    ensures Stack(DoWrite(s, FlushPush)) == Stack(s)
    ensures Inv(DoWrite(s, FlushPush))
  {
    PushList(s.files, s.live, s.compactor, s.writer.table, s.nextSeq);
    PushFlushed(s.mem, s.live, s.writer.table);
  }

  lemma PushStack(c: Compactor, live: seq<Table>, t: Table, files: Files)
    requires CompactorOk(c, live, files)
    ensures Base(c, live + [t]) == Base(c, live) + [t]
  {
    if c.Merged? {
      assert (live + [t])[..c.start] == live[..c.start];
      assert (live + [t])[c.start + c.count..] == live[c.start + c.count..] + [t];
    }
  }

  lemma PushCompactor(c: Compactor, live: seq<Table>, t: Table, files: Files)
    requires CompactorOk(c, live, files)
    ensures CompactorOk(c, live + [t], files)
  {
    if c.Merged? {
      assert (live + [t])[c.start..c.start + c.count] == live[c.start..c.start + c.count];
    }
    if c.Unlinking? && c.out.Some? {
      ListedMore(c.out.value.span, live, [t]);
    }
  }

  lemma PlanKeepsDisk(files: Files, live: seq<Table>, stack: seq<Table>, c: Compactor, d: Compactor)
    requires DiskOk(files, live, stack, c)
    requires !(c.Merged? && c.out.Some?) && !(c.Unlinking? && c.rest != [])
    ensures DiskOk(files, live, stack, d)
  {
    forall f | f in files ensures Listed(f, stack) {
      assert !Leftover(c, live, f);
      assert Listed(f, stack);
    }
  }

  /** The compactor's plans: picking a run, taking a snapshot, merging it. */
  lemma PlanList(files: Files, live: seq<Table>, extra: seq<Table>, c: Compactor, nextSeq: nat, d: Compactor)
    requires ListOk(files, live, extra, c, nextSeq) && CompactorOk(d, live, files)
    requires c.Resting? || c.Picked? || c.Snapped? || c.TempMade? || (c.Unlinking? && c.rest == [])
    requires d.Resting? || d.Picked? || d.Snapped? || d.TempMade?
    ensures ListOk(files, live, extra, d, nextSeq)
  {
    assert [] + live == live;
    PlanKeepsDisk(files, live, live + extra, c, d);
  }

  lemma PlanInv(s: State, step: CompactStep)
    requires Inv(s) && CanCompact(s, step) && s.phase.Up?
    requires step.Pick? || step.Snapshot? || step.MergeTemp? || step.MergeFail? || step.CompactDone?
    ensures Inv(DoCompact(s, step))
  {
    PlanList(s.files, s.live, Extra(s.writer), s.compactor, s.nextSeq, DoCompact(s, step).compactor);
  }

  /** A table spanning a run covers the run's tables, and is none of them. */
  lemma SpanCoversRun(live: seq<Table>, start: nat, count: nat, t: Table)
    requires count >= 2 && start + count <= |live| && Ordered(live)
    requires t.span == SpanOfRun(live[start..start + count])
    ensures t.span.first <= t.span.last && !Listed(t.span, live)
    ensures forall i :: start <= i < start + count ==> Within(live[i].span, t.span) && live[i].span != t.span
  {
    assert t.span == Span(live[start].span.first, live[start + count - 1].span.last);
    forall i | 0 <= i < |live| ensures live[i].span != t.span {
      assert live[start].span.last < live[start + 1].span.first;
      if i > start { assert live[start].span.last < live[i].span.first; }
      if i < start { assert live[i].span.last < live[start].span.first; }
    }
  }

  /** The list with a run replaced by a table of the run's span. */
  lemma SpliceOrdered(live: seq<Table>, start: nat, count: nat, t: Table)
    requires count >= 2 && start + count <= |live| && Ordered(live)
    requires t.span == SpanOfRun(live[start..start + count])
    ensures Ordered(Splice(live, start, count, Some(t)))
  {
    var b := Splice(live, start, count, Some(t));
    SpanCoversRun(live, start, count, t);
    assert t.span == Span(live[start].span.first, live[start + count - 1].span.last);
    assert b[start] == t;
    forall i, j | 0 <= i < j < |b| ensures b[i].span.last < b[j].span.first {
      var first := if i < start then live[i] else if i == start then live[start + count - 1] else live[i + count - 1];
      var last := if j < start then live[j] else if j == start then live[start] else live[j + count - 1];
      assert b[i].span.last == first.span.last && b[j].span.first == last.span.first;
    }
    assert forall i :: 0 <= i < |b| && i != start ==> b[i] == live[if i < start then i else i + count - 1];
  }

  lemma SpliceListed(live: seq<Table>, start: nat, count: nat, t: Option<Table>, f: Span)
    requires start + count <= |live|
    ensures Listed(f, Splice(live, start, count, t)) <==>
            Listed(f, live[..start]) || (t.Some? && t.value.span == f) || Listed(f, live[start + count..])
    ensures Listed(f, live) <==>
            Listed(f, live[..start]) || Listed(f, live[start..start + count]) || Listed(f, live[start + count..])
  {
    var mid := match t case None => [] case Some(u) => [u];
    ListedMore(f, live[..start], mid);
    ListedMore(f, live[..start] + mid, live[start + count..]);
    assert t.Some? ==> mid[0] == t.value;
    assert live == live[..start] + live[start..start + count] + live[start + count..];
    ListedMore(f, live[..start], live[start..start + count]);
    ListedMore(f, live[..start] + live[start..start + count], live[start + count..]);
  }

  lemma ListedCovered(f: Span, tables: seq<Table>)
    requires Listed(f, tables)
    ensures Covered(f, tables)
  {
    var i :| 0 <= i < |tables| && tables[i].span == f;
    assert Within(f, tables[i].span);
  }

  lemma SpliceConcat(live: seq<Table>, extra: seq<Table>, start: nat, count: nat, t: Option<Table>)
    requires start + count <= |live|
    ensures Splice(live, start, count, t) + extra == Splice(live + extra, start, count, t)
    ensures (live + extra)[start..start + count] == live[start..start + count]
  {
  }

  lemma MergeOnDisk(files: Files, stack: seq<Table>, start: nat, count: nat, t: Table)
    requires OnDisk(files, stack) && start + count <= |stack| && !Listed(t.span, stack)
    ensures OnDisk(files[t.span := t.entries], stack)
    ensures OnDisk(files[t.span := t.entries], Splice(stack, start, count, Some(t)))
  {
    var b := Splice(stack, start, count, Some(t));
    assert forall i :: 0 <= i < start ==> b[i] == stack[i];
    assert b[start] == t;
    assert forall i :: start < i < |b| ==> b[i] == stack[i + count - 1];
  }

  /** Whatever is under the old list is under the new one. */
  lemma MergeCovers(stack: seq<Table>, start: nat, count: nat, t: Table, f: Span)
    requires count >= 2 && start + count <= |stack| && Ordered(stack)
    requires t.span == SpanOfRun(stack[start..start + count])
    requires Listed(f, stack)
    ensures Covered(f, Splice(stack, start, count, Some(t)))
  {
    var b := Splice(stack, start, count, Some(t));
    SpanCoversRun(stack, start, count, t);
    var i :| 0 <= i < |stack| && stack[i].span == f;
    if i < start {
      assert b[i] == stack[i] && Within(f, b[i].span);
    } else if i < start + count {
      assert b[start] == t && Within(f, b[start].span);
    } else {
      assert b[i - count + 1] == stack[i] && Within(f, b[i - count + 1].span);
    }
  }

  /** Publishing a merge's output makes its inputs leftovers. */
  lemma MergePublishStack(files: Files, stack: seq<Table>, start: nat, count: nat, t: Table)
    requires IsStack(files, stack) && count >= 2 && start + count <= |stack|
    requires forall f {:trigger Listed(f, stack)} :: f in files ==> Listed(f, stack)
    requires t.span == SpanOfRun(stack[start..start + count])
    ensures IsStack(files[t.span := t.entries], Splice(stack, start, count, Some(t)))
    ensures t.span !in files
  {
    var b := Splice(stack, start, count, Some(t));
    SpanCoversRun(stack, start, count, t);
    SpliceOrdered(stack, start, count, t);
    assert t.span in files ==> Listed(t.span, stack);
    MergeOnDisk(files, stack, start, count, t);
    forall f | f in files[t.span := t.entries] ensures f.first <= f.last && Covered(f, b) {
      if f == t.span {
        assert b[start] == t;
      } else {
        assert Covered(f, stack) && Listed(f, stack);
        MergeCovers(stack, start, count, t, f);
      }
    }
  }

  lemma MergeAccounted(files: Files, live: seq<Table>, extra: seq<Table>, start: nat, count: nat, t: Table)
    requires start + count <= |live|
    requires forall f {:trigger Listed(f, live + extra)} :: f in files ==> Listed(f, live + extra)
    ensures Accounted(files[t.span := t.entries], Splice(live, start, count, Some(t)) + extra,
                      Merged(start, count, Some(t)), live)
  {
    var stack := Splice(live, start, count, Some(t)) + extra;
    forall f | f in files[t.span := t.entries] ensures Listed(f, stack) || Listed(f, live) {
      SpliceListed(live, start, count, Some(t), f);
      ListedMore(f, Splice(live, start, count, Some(t)), extra);
      ListedMore(f, live, extra);
      assert f == t.span || Listed(f, live + extra);
    }
  }

  lemma MergePublishList(files: Files, live: seq<Table>, extra: seq<Table>, c: Compactor, nextSeq: nat)
    requires ListOk(files, live, extra, c, nextSeq) && c.TempMade?
    ensures ListOk(files[c.table.span := c.table.entries], live, extra,
                   Merged(c.start, c.count, Some(c.table)), nextSeq)
  {
    hide Below, IsMerge;
    assert c.snap[c.start..c.start + c.count] == live[c.start..c.start + c.count];
    SpliceConcat(live, extra, c.start, c.count, Some(c.table));
    MergePublishStack(files, live + extra, c.start, c.count, c.table);
    MergeAccounted(files, live, extra, c.start, c.count, c.table);
    assert OnDisk(files[c.table.span := c.table.entries], live);
    SpliceBelow(live, c.start, c.count, Some(c.table), nextSeq);
  }

  lemma MergePublishInv(s: State)
    requires Inv(s) && s.phase.Up? && s.compactor.TempMade?
    ensures Inv(DoCompact(s, MergePublish))
  {
    MergePublishList(s.files, s.live, Extra(s.writer), s.compactor, s.nextSeq);
    assert Sorted(s.compactor.table.entries);
  }

  lemma SpliceBelow(live: seq<Table>, start: nat, count: nat, t: Option<Table>, seqNo: nat)
    requires count >= 1 && start + count <= |live| && Below(live, seqNo)
    requires t.Some? ==> t.value.span == SpanOfRun(live[start..start + count])
    ensures Below(Splice(live, start, count, t), seqNo)
  {
  }

  /** A merge that keeps nothing started at the oldest table. */
  lemma MergeEmptyList(files: Files, live: seq<Table>, extra: seq<Table>, c: Compactor, nextSeq: nat)
    requires ListOk(files, live, extra, c, nextSeq) && c.Snapped? && GoodFiles(files)
    requires IsMerge(c.snap[c.start..c.start + c.count], c.start == 0, [])
    ensures ListOk(files, live, extra, Merged(c.start, c.count, None), nextSeq)
  {
    var run := c.snap[c.start..c.start + c.count];
    assert run == live[c.start..c.start + c.count];
    assert run[|run| - 1] == live[c.start + c.count - 1];
    if c.start != 0 {
      MergeNonEmpty(run, []);
    }
    PlanKeepsDisk(files, live, live + extra, c, Merged(c.start, c.count, None));
  }

  lemma MergeEmptyInv(s: State)
    requires Inv(s) && s.phase.Up? && CanCompact(s, MergeEmpty)
    ensures Inv(DoCompact(s, MergeEmpty))
  {
    MergeEmptyList(s.files, s.live, Extra(s.writer), s.compactor, s.nextSeq);
  }

  /** Swapping the list in leaves every answer as it was. */
  lemma SwapAnswers(s: State, key: Key)
    requires CompactorOk(s.compactor, s.live, s.files) && s.compactor.Merged?
    ensures Lookup(DoCompact(s, Swap).live, key) == Lookup(s.live, key)
  {
    var c := s.compactor;
    SpliceKeepsAnswers(s.live, c.start, c.count, if c.out.Some? then c.out.value.entries else [], c.out, key);
  }

  lemma SwapParts(live: seq<Table>, count: nat)
    requires count <= |live|
    ensures live[0..0 + count] + Splice(live, 0, count, None) == live
  {
  }

  lemma SwapBase(live: seq<Table>, start: nat, count: nat, out: Option<Table>)
    requires start + count <= |live| && (out.None? ==> start == 0)
    ensures Base(Unlinking(live[start..start + count], out, 0), Splice(live, start, count, out))
            == Base(Merged(start, count, out), live)
  {
    if out.None? { SwapParts(live, count); }
  }

  lemma SwapStack(s: State)
    requires CompactorOk(s.compactor, s.live, s.files) && s.compactor.Merged?
    ensures Stack(DoCompact(s, Swap)) == Stack(s)
  {
    SwapBase(s.live, s.compactor.start, s.compactor.count, s.compactor.out);
  }

  lemma SwapAccounted(files: Files, live: seq<Table>, stack: seq<Table>, start: nat, count: nat, out: Option<Table>)
    requires start + count <= |live|
    requires Accounted(files, stack, Merged(start, count, out), live)
    requires forall f {:trigger Listed(f, stack)} :: Listed(f, Splice(live, start, count, out)) ==> Listed(f, stack)
    ensures Accounted(files, stack, Unlinking(live[start..start + count], out, 0), Splice(live, start, count, out))
  {
    forall f | f in files
      ensures Listed(f, stack)
              || Leftover(Unlinking(live[start..start + count], out, 0), Splice(live, start, count, out), f)
    {
      assert Listed(f, stack) || Leftover(Merged(start, count, out), live, f);
      SpliceListed(live, start, count, out, f);
    }
  }

  lemma SwapSuperseding(files: Files, live: seq<Table>, start: nat, count: nat, t: Table)
    requires count >= 2 && start + count <= |live| && t.span == SpanOfRun(live[start..start + count])
    requires Ordered(live) && OnDisk(files, live)
    ensures Superseding(t, live[start..start + count], Splice(live, start, count, Some(t)), files)
  {
    var next, rest := Splice(live, start, count, Some(t)), live[start..start + count];
    SpanCoversRun(live, start, count, t);
    assert next[start] == t;
    assert forall i :: 0 <= i < |rest| ==> rest[i] == live[start + i];
  }

  /** The list after the swap, when the merge published a table. */
  lemma SwapDiskSome(files: Files, live: seq<Table>, extra: seq<Table>, start: nat, count: nat, t: Table)
    requires count >= 2 && start + count <= |live| && t.span == SpanOfRun(live[start..start + count])
    requires DiskOk(files, live, Splice(live, start, count, Some(t)) + extra, Merged(start, count, Some(t)))
    ensures var next, rest := Splice(live, start, count, Some(t)), live[start..start + count];
            && DiskOk(files, next, next + extra, Unlinking(rest, Some(t), 0))
            && Superseding(t, rest, next, files)
  {
    var next := Splice(live, start, count, Some(t));
    SwapSuperseding(files, live, start, count, t);
    OnDiskPart(files, [], next, extra);
    OrderedPart(next, extra);
    forall f ensures Listed(f, next) ==> Listed(f, next + extra) {
      ListedMore(f, next, extra);
    }
    SwapAccounted(files, live, next + extra, start, count, Some(t));
  }

  lemma OnDiskPart(files: Files, a: seq<Table>, b: seq<Table>, c: seq<Table>)
    requires OnDisk(files, a + b + c) || (a == [] && OnDisk(files, b + c))
    ensures OnDisk(files, b)
  {
    assert forall i :: 0 <= i < |b| ==> b[i] == (a + b + c)[|a| + i];
    if a == [] { assert a + b + c == b + c; }
  }

  lemma OrderedPart(a: seq<Table>, b: seq<Table>)
    requires Ordered(a + b)
    ensures Ordered(a)
  {
    assert forall i :: 0 <= i < |a| ==> a[i] == (a + b)[i];
  }

  /** The list after the swap, when the merge kept nothing. */
  lemma SwapDiskNone(files: Files, live: seq<Table>, extra: seq<Table>, count: nat)
    requires 2 <= count <= |live| && IsMerge(live[0..0 + count], true, [])
    requires DiskOk(files, live, live + extra, Merged(0, count, None))
    ensures DiskOk(files, Splice(live, 0, count, None), live + extra, Unlinking(live[0..0 + count], None, 0))
    ensures Hidden(live[0..0 + count])
  {
    var run, next := live[0..0 + count], Splice(live, 0, count, None);
    SwapParts(live, count);
    forall k ensures Newest(run, k) == None || Newest(run, k) == Some(None) {
      TombstoneSuffix(run, 0, k);
      assert run[0..] == run;
    }
    assert next == live[count..];
    forall f | f in files ensures Listed(f, live + extra) {
      assert Listed(f, live + extra);
    }
  }

  lemma SwapWriter(s: State)
    requires CompactorOk(s.compactor, s.live, s.files) && s.compactor.Merged?
    requires WriterOk(s.writer, s.log, s.mem, s.live, s.nextSeq)
    ensures WriterOk(s.writer, s.log, s.mem, DoCompact(s, Swap).live, s.nextSeq)
  {
    forall k ensures Lookup(DoCompact(s, Swap).live, k) == Lookup(s.live, k) {
      SwapAnswers(s, k);
    }
    if s.writer.SeqStored? {
      SpliceBelow(s.live, s.compactor.start, s.compactor.count, s.compactor.out, s.writer.table.span.first);
    }
  }

  lemma SwapList(files: Files, live: seq<Table>, extra: seq<Table>, c: Compactor, nextSeq: nat)
    requires c.Merged? && ListOk(files, live, extra, c, nextSeq)
    ensures ListOk(files, Splice(live, c.start, c.count, c.out), extra,
                   Unlinking(live[c.start..c.start + c.count], c.out, 0), nextSeq)
  {
    hide DiskOk, Superseding, Hidden, IsMerge, Below;
    SpliceBelow(live, c.start, c.count, c.out, nextSeq);
    if c.out.Some? {
      assert c == Merged(c.start, c.count, Some(c.out.value));
      SwapDiskSome(files, live, extra, c.start, c.count, c.out.value);
    } else {
      assert c == Merged(0, c.count, None);
      SwapDiskNone(files, live, extra, c.count);
      SwapParts(live, c.count);
    }
  }

  lemma SwapRunning(s: State)
    requires ListOk(s.files, s.live, Extra(s.writer), s.compactor, s.nextSeq) && CanCompact(s, Swap)
    ensures var n := DoCompact(s, Swap); ListOk(n.files, n.live, Extra(n.writer), n.compactor, n.nextSeq)
  {
    hide DiskOk, CompactorOk, Below;
    SwapList(s.files, s.live, Extra(s.writer), s.compactor, s.nextSeq);
  }

  lemma SwapInv(s: State)
    requires Inv(s) && s.phase.Up? && CanCompact(s, Swap)
    ensures Inv(DoCompact(s, Swap))
  {
    SwapWriter(s);
    SwapRunning(s);
  }

  lemma NotOnList(stack: seq<Table>, i: nat, f: Span)
    requires Ordered(stack) && i < |stack|
    requires Within(f, stack[i].span) && f != stack[i].span && f.first <= f.last
    ensures !Listed(f, stack)
  {
    forall j | 0 <= j < |stack| ensures stack[j].span != f {
      if j < i { assert stack[j].span.last < stack[i].span.first; }
      if j > i { assert stack[i].span.last < stack[j].span.first; }
    }
  }

  /** Unlinking a leftover input. */
  lemma UnlinkLeftoverDisk(files: Files, live: seq<Table>, extra: seq<Table>,
                           rest: seq<Table>, t: Table, unlinked: nat)
    requires rest != [] && Superseding(t, rest, live, files)
    requires DiskOk(files, live, live + extra, Unlinking(rest, Some(t), unlinked))
    ensures DiskOk(files - {rest[0].span}, live, live + extra, Unlinking(rest[1..], Some(t), unlinked + 1))
  {
    var f, stack := rest[0].span, live + extra;
    var i :| 0 <= i < |live| && live[i].span == t.span;
    assert stack[i] == live[i];
    NotOnList(stack, i, f);
    DropKeepsStack(files, stack, f);
    OnDiskPart(files - {f}, [], live, extra);
    forall g | g in files - {f} ensures Listed(g, stack) || Listed(g, rest[1..]) {
      assert Listed(g, stack) || Leftover(Unlinking(rest, Some(t), unlinked), live, g);
      ListedMore(g, [rest[0]], rest[1..]);
      assert rest == [rest[0]] + rest[1..];
    }
  }

  lemma SupersedingTail(t: Table, rest: seq<Table>, live: seq<Table>, files: Files)
    requires rest != [] && Superseding(t, rest, live, files)
    ensures Superseding(t, rest[1..], live, files - {rest[0].span})
  {
    assert forall i :: 0 <= i < |rest| - 1 ==> rest[1..][i] == rest[i + 1];
    assert forall i :: 0 < i < |rest| ==> rest[0].span.last < rest[i].span.first;
  }

  lemma HiddenTail(rest: seq<Table>)
    requires rest != [] && Hidden(rest)
    ensures Hidden(rest[1..])
  {
    forall k ensures Newest(rest[1..], k) == None || Newest(rest[1..], k) == Some(None) {
      NewestConcat([rest[0]], rest[1..], k);
      assert rest == [rest[0]] + rest[1..];
    }
  }

  /** Removing the oldest table's file removes it from the list. */
  lemma UnlinkOldest(files: Files, t: Table, tail: seq<Table>)
    requires IsStack(files, [t] + tail)
    requires forall f {:trigger Listed(f, [t] + tail)} :: f in files ==> Listed(f, [t] + tail)
    ensures IsStack(files - {t.span}, tail)
    ensures forall f {:trigger Listed(f, tail)} :: f in files - {t.span} ==> Listed(f, tail)
  {
    var whole := [t] + tail;
    assert forall i :: 0 <= i < |tail| ==> tail[i] == whole[i + 1];
    forall i | 0 <= i < |tail| ensures tail[i].span != t.span {
      assert whole[0].span.last < whole[i + 1].span.first;
    }
    forall f | f in files - {t.span} ensures Listed(f, tail) && Covered(f, tail) && f.first <= f.last {
      assert Covered(f, whole) && Listed(f, whole);
      ListedMore(f, [t], tail);
      ListedCovered(f, tail);
    }
  }

  /** Unlinking, oldest first, an input of a merge that kept nothing. */
  lemma UnlinkHiddenDisk(files: Files, live: seq<Table>, extra: seq<Table>, rest: seq<Table>, unlinked: nat)
    requires rest != []
    requires DiskOk(files, live, rest + live + extra, Unlinking(rest, None, unlinked))
    ensures DiskOk(files - {rest[0].span}, live, rest[1..] + live + extra, Unlinking(rest[1..], None, unlinked + 1))
  {
    var tail := rest[1..] + live + extra;
    assert rest + live + extra == [rest[0]] + tail;
    UnlinkOldest(files, rest[0], tail);
    OnDiskPart(files - {rest[0].span}, rest[1..], live, extra);
  }

  lemma UnlinkList(files: Files, live: seq<Table>, extra: seq<Table>, c: Compactor, nextSeq: nat)
    requires ListOk(files, live, extra, c, nextSeq) && c.Unlinking? && c.rest != []
    ensures ListOk(files - {c.rest[0].span}, live, extra, Unlinking(c.rest[1..], c.out, c.unlinked + 1), nextSeq)
  {
    if c.out.Some? {
      UnlinkLeftoverDisk(files, live, extra, c.rest, c.out.value, c.unlinked);
      SupersedingTail(c.out.value, c.rest, live, files);
    } else {
      UnlinkHiddenDisk(files, live, extra, c.rest, c.unlinked);
      HiddenTail(c.rest);
      assert forall i :: 0 <= i < |c.rest[1..] + live| ==> (c.rest[1..] + live)[i] == (c.rest + live)[i + 1];
    }
  }

  lemma UnlinkInv(s: State)
    requires Inv(s) && s.phase.Up? && CanCompact(s, Unlink)
    ensures Inv(DoCompact(s, Unlink))
  {
    UnlinkList(s.files, s.live, Extra(s.writer), s.compactor, s.nextSeq);
  }
}
