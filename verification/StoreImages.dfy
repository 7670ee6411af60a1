/** From the step machine to bytes: what each step does to the directory and the
    log, and that every image passed on the way, by any interleaving of steps and
    also in the middle of a write, recovers to a map that the run allows. */
module StoreImages {
  import opened Bytes
  import opened Tables
  import opened Bloom
  import opened TableFile
  import opened TableRead
  import opened TableGet
  import opened Names
  import opened Disk
  import opened Store
  import opened StoreRefinement
  import opened StoreRuns
  import opened Wal

  /* ---- Images of machine states ---- */

  /** `bytes` is a table file holding `entries`. */
  ghost predicate FileHolds(bytes: seq<byte>, entries: seq<Entry>) {
    exists f: Filter :: HeldWith(bytes, entries, f)
  }

  ghost predicate HeldWith(bytes: seq<byte>, entries: seq<Entry>, f: Filter) {
    bytes == FileBytes(entries, f) && FitsFormat(entries, f) && KnowsKeys(f, entries)
  }

  /** The directory holds exactly these published and temporary files. */
  ghost predicate DirHolds(files: Dir, contents: Files, temps: set<Span>) {
    && (forall sp {:trigger Sst(sp)} :: Sst(sp) in files <==> sp in contents)
    && (forall sp {:trigger contents[sp]} :: sp in contents ==> FileHolds(files[Sst(sp)], contents[sp]))
    && (forall sp {:trigger Tmp(sp)} :: Tmp(sp) in files <==> sp in temps)
    && (forall stem {:trigger Foreign(stem)} :: Foreign(stem) !in files)
  }

  /** An image of the machine in state `s`, whose log ends in the first `kept`
      bytes of a frame for `op`; with `kept == 0` nothing is torn. */
  ghost predicate ImageOf(i: Image, crc: Checksum, s: State, op: Op, kept: nat) {
    && DirHolds(i.files, s.files, s.temps) && AllFit(s.log) && FitsFrame(op)
    && kept < |Frame(crc, op)| && i.log == Log(crc, s.log) + Frame(crc, op)[..kept]
  }

  /** Opening the image gives a store that stands for `m`. */
  ghost predicate Recoverable(i: Image, crc: Checksum, m: map<Key, Value>) {
    exists s: State, op: Op, kept: nat ::
      ImageOf(i, crc, s, op, kept) && s.phase.Down? && Sim(s, Spec(m, None))
  }

  /* ---- What each effect on the directory means ---- */

  lemma DirCreate(files: Dir, contents: Files, temps: set<Span>, span: Span, bytes: seq<byte>)
    requires DirHolds(files, contents, temps)
    ensures DirHolds(files[Tmp(span) := bytes], contents, temps + {span})
  {
    hide FileHolds;
  }

  lemma DirPublish(files: Dir, contents: Files, temps: set<Span>, span: Span, bytes: seq<byte>, entries: seq<Entry>)
    requires DirHolds(files, contents, temps) && FileHolds(bytes, entries)
    ensures DirHolds((files - {Tmp(span)})[Sst(span) := bytes], contents[span := entries], temps - {span})
  {
    hide FileHolds;
  }

  lemma DirUnlink(files: Dir, contents: Files, temps: set<Span>, span: Span)
    requires DirHolds(files, contents, temps)
    ensures DirHolds(files - {Sst(span)}, contents - {span}, temps)
  {
    hide FileHolds;
  }

  lemma DirDropTemp(files: Dir, contents: Files, temps: set<Span>, span: Span)
    requires DirHolds(files, contents, temps)
    ensures DirHolds(files - {Tmp(span)}, contents, temps - {span})
  {
    hide FileHolds;
  }

  /* ---- What each step does to the bytes ---- */

  /** Only the temporary file for `span` differs, and its content is anything. */
  ghost predicate TempChanged(a: Image, b: Image, span: Span) {
    b.log == a.log && Tmp(span) in b.files && b.files == a.files[Tmp(span) := b.files[Tmp(span)]]
  }

  /** The temporary file for `t` holds all of `t` and gets its final name. */
  ghost predicate TableRenamed(a: Image, b: Image, t: Table) {
    && Tmp(t.span) in a.files && FileHolds(a.files[Tmp(t.span)], t.entries)
    && b == a.(files := (a.files - {Tmp(t.span)})[Sst(t.span) := a.files[Tmp(t.span)]])
  }

  /** The steps that are effects on the disk; all others are on memory only. */
  predicate TouchesDisk(step: Step) {
    match step
    case Write(LogAppend) => true
    case Write(FlushTemp(_)) => true
    case Write(FlushPublish) => true
    case Write(FlushTruncate) => true
    case Compact(MergeTemp(_)) => true
    case Compact(MergePublish) => true
    case Compact(Unlink) => true
    case Recover(RemoveTemp(_)) => true
    case Recover(RemoveSuperseded) => true
    case _ => false
  }

  ghost predicate StepBytes(crc: Checksum, s: State, step: Step, a: Image, b: Image)
    requires Enabled(s, step)
  {
    match step
    case Write(LogAppend) => FitsFrame(s.writer.op) && b == a.(log := a.log + Frame(crc, s.writer.op))
    case Write(FlushTemp(_)) => TempChanged(a, b, Span(s.nextSeq, s.nextSeq))
    case Write(FlushPublish) => TableRenamed(a, b, s.writer.table)
    case Write(FlushTruncate) => b == a.(log := [])
    case Compact(MergeTemp(_)) =>
      var c := s.compactor;
      TempChanged(a, b, SpanOfRun(c.snap[c.start..c.start + c.count]))
    case Compact(MergePublish) => TableRenamed(a, b, s.compactor.table)
    case Compact(Unlink) => b == Removed(a, Sst(s.compactor.rest[0].span))
    case Recover(RemoveTemp(span)) => b == Removed(a, Tmp(span))
    case Recover(RemoveSuperseded) => b == Removed(a, Sst(s.phase.spans[s.phase.at]))
    case _ => b == a
  }

  lemma WriteStepDir(crc: Checksum, s: State, step: WriteStep, a: Image, b: Image)
    requires DirHolds(a.files, s.files, s.temps) && CanWrite(s, step) && StepBytes(crc, s, Step.Write(step), a, b)
    ensures var n := DoWrite(s, step); DirHolds(b.files, n.files, n.temps)
  {
    hide DirHolds, FileHolds, Frame, FitsFrame, IsFlush;
    match step
    case FlushTemp(_) =>
      var span := Span(s.nextSeq, s.nextSeq);
      DirCreate(a.files, s.files, s.temps, span, b.files[Tmp(span)]);
    case FlushPublish =>
      var t := s.writer.table;
      DirPublish(a.files, s.files, s.temps, t.span, a.files[Tmp(t.span)], t.entries);
    case _ =>
  }

  lemma CompactStepDir(crc: Checksum, s: State, step: CompactStep, a: Image, b: Image)
    requires DirHolds(a.files, s.files, s.temps) && CanCompact(s, step) && StepBytes(crc, s, Compact(step), a, b)
    ensures var n := DoCompact(s, step); DirHolds(b.files, n.files, n.temps)
  {
    hide DirHolds, FileHolds, IsMerge;
    match step
    case MergeTemp(_) =>
      var span := SpanOfRun(s.compactor.snap[s.compactor.start..s.compactor.start + s.compactor.count]);
      DirCreate(a.files, s.files, s.temps, span, b.files[Tmp(span)]);
    case MergePublish =>
      var t := s.compactor.table;
      DirPublish(a.files, s.files, s.temps, t.span, a.files[Tmp(t.span)], t.entries);
    case Unlink => DirUnlink(a.files, s.files, s.temps, s.compactor.rest[0].span);
    case _ =>
  }

  lemma RecoverStepDir(crc: Checksum, s: State, step: RecoverStep, a: Image, b: Image)
    requires DirHolds(a.files, s.files, s.temps) && CanRecover(s, step) && StepBytes(crc, s, Recover(step), a, b)
    ensures var n := DoRecover(s, step); DirHolds(b.files, n.files, n.temps)
  {
    hide DirHolds, IsListing, Superseded;
    match step
    case RemoveTemp(span) => DirDropTemp(a.files, s.files, s.temps, span);
    case RemoveSuperseded => DirUnlink(a.files, s.files, s.temps, s.phase.spans[s.phase.at]);
    case _ =>
  }

  lemma StepDir(crc: Checksum, s: State, step: Step, a: Image, b: Image)
    requires DirHolds(a.files, s.files, s.temps) && Enabled(s, step) && StepBytes(crc, s, step, a, b)
    ensures var n := Apply(s, step); DirHolds(b.files, n.files, n.temps)
  {
    hide DirHolds, CanWrite, CanCompact, CanRecover, DoWrite, DoCompact, DoRecover;
    match step
    case Write(w) => WriteStepDir(crc, s, w, a, b);
    case Compact(c) => CompactStepDir(crc, s, c, a, b);
    case Recover(v) => RecoverStepDir(crc, s, v, a, b);
    case _ => assert b == a;
  }

  predicate TouchesLog(step: Step) {
    step == Step.Write(LogAppend) || step == Step.Write(FlushTruncate)
  }

  /** Every step takes an image of the machine to an image of the machine. With a
      torn tail in the log this needs the log to be left alone. */
  lemma StepImage(crc: Checksum, s: State, step: Step, a: Image, b: Image, op: Op, kept: nat)
    requires ImageOf(a, crc, s, op, kept) && Enabled(s, step) && StepBytes(crc, s, step, a, b)
    requires kept == 0 || !TouchesLog(step)
    ensures ImageOf(b, crc, Apply(s, step), op, kept)
  {
    hide DirHolds, FileHolds, Frame, FitsFrame, Log, AllFit, Apply, StepBytes, Enabled;
    StepDir(crc, s, step, a, b);
    StepLog(crc, s, step, a, b);
    if step == Step.Write(LogAppend) {
      LogGrows(crc, s.log, s.writer.op);
    } else if step == Step.Write(FlushTruncate) {
      NoLog(crc);
    }
  }

  lemma StepLog(crc: Checksum, s: State, step: Step, a: Image, b: Image)
    requires Enabled(s, step) && StepBytes(crc, s, step, a, b)
    ensures var n := Apply(s, step);
            if step == Step.Write(LogAppend) then
              && s.writer.Begun? && FitsFrame(s.writer.op)
              && b.log == a.log + Frame(crc, s.writer.op) && n.log == s.log + [s.writer.op]
            else if step == Step.Write(FlushTruncate) then b.log == [] && n.log == []
            else b.log == a.log && n.log == s.log
  {
    hide Frame, FitsFrame, FileHolds, IsFlush, IsMerge, IsListing, Superseded;
  }

  lemma NoLog(crc: Checksum)
    ensures Log(crc, []) == [] && AllFit([])
  {
  }

  lemma LogGrows(crc: Checksum, ops: seq<Op>, op: Op)
    requires AllFit(ops) && FitsFrame(op)
    ensures Log(crc, ops) + Frame(crc, op) == Log(crc, ops + [op]) && AllFit(ops + [op])
  {
    hide Log, Frame, FitsFrame;
    AppendIsReplayed(crc, ops, op);
  }

  /** An image of any state that stands for a map recovers to that map, with the
      operation in flight if and only if its whole frame has reached the log. */
  lemma CrashRecovers(i: Image, crc: Checksum, s: State, op: Op, kept: nat, spec: Spec)
    requires ImageOf(i, crc, s, op, kept) && Sim(s, spec)
    ensures Recoverable(i, crc, Target(spec, Durable(s.writer)))
  {
    hide Sim, DirHolds, Log, Frame, AllFit, FitsFrame;
    CrashRefines(s, spec);
    assert ImageOf(i, crc, Crashed(s), op, kept);
  }

  /** An empty directory and no log are the image of an empty store. */
  lemma NothingIsAnImage(crc: Checksum, op: Op)
    requires FitsFrame(op)
    ensures ImageOf(Image(map[], []), crc, Init(), op, 0)
  {
  }

  /* ---- Runs through images ---- */

  /** A step of the machine, or a moment inside one: part of a temporary file has
      been written, or the first `kept` bytes of the frame being appended. */
  datatype Act = Does(step: Step) | Fills(span: Span) | Tears(kept: nat)

  /** The machine's state, the disk, and every image passed so far. */
  datatype Point = Point(state: State, image: Image, trace: seq<Image>)

  ghost function Here(disk: FileSystem, s: State): Point
    reads disk
  {
    Point(s, disk.Now(), disk.trace)
  }

  ghost predicate Moved(crc: Checksum, p: Point, act: Act, q: Point) {
    match act
    case Does(step) =>
      && Enabled(p.state, step) && q.state == Apply(p.state, step)
      && StepBytes(crc, p.state, step, p.image, q.image)
      && q.trace == (if TouchesDisk(step) then p.trace + [q.image] else p.trace)
    case Fills(span) =>
      && Tmp(span) in p.image.files && TempChanged(p.image, q.image, span)
      && q == Point(p.state, q.image, p.trace + [q.image])
    case Tears(kept) =>
      && p.state.writer.Begun? && FitsFrame(p.state.writer.op) && kept < |Frame(crc, p.state.writer.op)|
      && q == p.(trace := p.trace + [Torn(crc, p, kept)])
  }

  function Torn(crc: Checksum, p: Point, kept: nat): Image
    requires p.state.writer.Begun? && kept < |Frame(crc, p.state.writer.op)|
  {
    p.image.(log := p.image.log + Frame(crc, p.state.writer.op)[..kept])
  }

  ghost function ActEvent(s: State, act: Act): Event
    requires act.Does? ==> Enabled(s, act.step)
  {
    match act
    case Does(step) => EventOf(s, step)
    case _ => Internal
  }

  ghost predicate Path(crc: Checksum, p: Point, path: seq<(Act, Point)>, q: Point, seen: seq<Event>)
    decreases |path|
  {
    if path == [] then q == p && seen == []
    else
      var (act, mid) := path[0];
      && Moved(crc, p, act, mid)
      && var event := ActEvent(p.state, act);
         if event.Internal? then Path(crc, mid, path[1..], q, seen)
         else seen != [] && seen[0] == event && Path(crc, mid, path[1..], q, seen[1..])
  }

  /** The store can get from `p` to `q`, passing exactly the images added to the
      trace, in their order, and all an observer sees is `seen`. */
  ghost predicate Moves(crc: Checksum, p: Point, q: Point, seen: seq<Event>) {
    exists path :: Path(crc, p, path, q, seen)
  }

  function Shown(event: Event): seq<Event> {
    if event.Internal? then [] else [event]
  }

  lemma MovesNowhere(crc: Checksum, p: Point)
    ensures Moves(crc, p, p, [])
  {
    assert Path(crc, p, [], p, []);
  }

  lemma MovesAct(crc: Checksum, p: Point, act: Act, q: Point)
    requires Moved(crc, p, act, q)
    ensures Moves(crc, p, q, Shown(ActEvent(p.state, act)))
  {
    hide Moved, ActEvent;
    assert act.Does? ==> Enabled(p.state, act.step) by { EnabledWhenMoved(crc, p, act, q); }
    var event := ActEvent(p.state, act);
    assert Path(crc, q, [], q, []);
    assert [(act, q)][1..] == [] && [event][1..] == [];
    assert Path(crc, p, [(act, q)], q, Shown(event));
  }

  lemma EnabledWhenMoved(crc: Checksum, p: Point, act: Act, q: Point)
    requires Moved(crc, p, act, q)
    ensures act.Does? ==> Enabled(p.state, act.step)
  {
  }

  lemma {:induction false} PathOn(crc: Checksum, p: Point, x: seq<(Act, Point)>, m: Point,
                                  y: seq<(Act, Point)>, q: Point, a: seq<Event>, b: seq<Event>)
    requires Path(crc, p, x, m, a) && Path(crc, m, y, q, b)
    ensures Path(crc, p, x + y, q, a + b)
    decreases |x|
  {
    hide Moved, ActEvent;
    if x == [] {
      assert x + y == y && a + b == b;
    } else {
      assert (x + y)[0] == x[0] && (x + y)[1..] == x[1..] + y;
      var (act, mid) := x[0];
      EnabledWhenMoved(crc, p, act, mid);
      if ActEvent(p.state, act).Internal? {
        PathOn(crc, mid, x[1..], m, y, q, a, b);
      } else {
        PathOn(crc, mid, x[1..], m, y, q, a[1..], b);
        assert (a + b)[1..] == a[1..] + b;
      }
    }
  }

  lemma MovesOn(crc: Checksum, p: Point, m: Point, q: Point, a: seq<Event>, b: seq<Event>)
    requires Moves(crc, p, m, a) && Moves(crc, m, q, b)
    ensures Moves(crc, p, q, a + b)
  {
    hide Path;
    var x :| Path(crc, p, x, m, a);
    var y :| Path(crc, m, y, q, b);
    PathOn(crc, p, x, m, y, q, a, b);
  }

  lemma MovesQuietlyOn(crc: Checksum, p: Point, m: Point, q: Point)
    requires Moves(crc, p, m, []) && Moves(crc, m, q, [])
    ensures Moves(crc, p, q, [])
  {
    hide Moves;
    MovesOn(crc, p, m, q, [], []);
    var none: seq<Event> := [];
    assert none + none == none;
  }

  /** One more act that an observer does not see. */
  lemma MovesQuietly(crc: Checksum, p: Point, m: Point, seen: seq<Event>, act: Act, q: Point)
    requires Moves(crc, p, m, seen) && Moved(crc, m, act, q)
    requires act.Does? ==> Enabled(m.state, act.step)
    requires ActEvent(m.state, act).Internal?
    ensures Moves(crc, p, q, seen)
  {
    hide Moves, Moved, ActEvent;
    MovesAct(crc, m, act, q);
    MovesOn(crc, p, m, q, seen, []);
    assert seen + [] == seen;
  }

  /** A step on memory only. */
  lemma MemoryMoves(crc: Checksum, p: Point, m: Point, step: Step) returns (q: Point)
    requires Moves(crc, p, m, []) && Enabled(m.state, step) && !TouchesDisk(step) && EventOf(m.state, step).Internal?
    ensures q == m.(state := Apply(m.state, step)) && Moves(crc, p, q, [])
  {
    hide Moves, Enabled, Apply, EventOf;
    q := m.(state := Apply(m.state, step));
    MovesQuietly(crc, p, m, [], Does(step), q);
  }

  /** It is a run of the machine. */
  lemma {:induction false} PathLeads(crc: Checksum, p: Point, path: seq<(Act, Point)>, q: Point, seen: seq<Event>)
    requires Path(crc, p, path, q, seen)
    ensures Leads(p.state, q.state, seen)
    decreases |path|
  {
    hide Leads, StepBytes, Frame, Enabled, Apply, EventOf;
    if path == [] {
      LeadsNowhere(p.state);
    } else {
      var (act, mid) := path[0];
      var rest := if ActEvent(p.state, act).Internal? then seen else seen[1..];
      PathLeads(crc, mid, path[1..], q, rest);
      if act.Does? {
        LeadsStep(p.state, act.step);
      } else {
        LeadsNowhere(p.state);
      }
      LeadsOn(p.state, mid.state, q.state, Shown(ActEvent(p.state, act)), rest);
      assert Shown(ActEvent(p.state, act)) + rest == seen;
    }
  }

  lemma MovesLead(crc: Checksum, p: Point, q: Point, seen: seq<Event>)
    requires Moves(crc, p, q, seen)
    ensures Leads(p.state, q.state, seen)
  {
    hide Path, Leads;
    var path :| Path(crc, p, path, q, seen);
    PathLeads(crc, p, path, q, seen);
  }

  lemma {:induction false} PathGrows(crc: Checksum, p: Point, path: seq<(Act, Point)>, q: Point, seen: seq<Event>)
    requires Path(crc, p, path, q, seen)
    ensures p.trace <= q.trace
    decreases |path|
  {
    hide StepBytes, Frame, Enabled, Apply;
    if path != [] {
      var (act, mid) := path[0];
      PathGrows(crc, mid, path[1..], q, if ActEvent(p.state, act).Internal? then seen else seen[1..]);
    }
  }

  lemma MovesGrow(crc: Checksum, p: Point, q: Point, seen: seq<Event>)
    requires Moves(crc, p, q, seen)
    ensures p.trace <= q.trace
  {
    hide Path;
    var path :| Path(crc, p, path, q, seen);
    PathGrows(crc, p, path, q, seen);
  }

  /* ---- Every image recovers ---- */

  /** Reads and crashes write nothing to the log. */
  predicate NoWrites(seen: seq<Event>) {
    forall i :: 0 <= i < |seen| ==> seen[i].Got? || seen[i].Failure?
  }

  /** A torn tail stays as it is when nothing is to be appended or truncated. */
  predicate Settled(s: State, seen: seq<Event>, kept: nat) {
    kept == 0 || (NoWrites(seen) && s.writer.Idle?)
  }

  lemma SettledStep(s: State, step: Step, seen: seq<Event>, kept: nat)
    requires Enabled(s, step) && Settled(s, seen, kept)
    requires EventOf(s, step).Internal? || (seen != [] && seen[0] == EventOf(s, step))
    ensures kept == 0 || (!TouchesLog(step) && Apply(s, step).writer.Idle?)
  {
  }

  /** One act: the image it adds, if any, recovers to the map as it is after it,
      and the rest goes on from it. */
  lemma ActImage(crc: Checksum, p: Point, act: Act, q: Point, spec: Spec, seen: seq<Event>, op: Op, kept: nat)
    returns (next: Spec)
    requires Moved(crc, p, act, q) && ImageOf(p.image, crc, p.state, op, kept) && Sim(p.state, spec)
    requires Settled(p.state, seen, kept)
    requires ActEvent(p.state, act).Internal? || (seen != [] && seen[0] == ActEvent(p.state, act))
    ensures ImageOf(q.image, crc, q.state, op, kept) && Sim(q.state, next)
    ensures Allowed(spec, ActEvent(p.state, act), next)
    ensures kept == 0 || q.state.writer.Idle?
    ensures p.trace <= q.trace && |q.trace| <= |p.trace| + 1
    ensures |q.trace| > |p.trace| ==> Recoverable(q.trace[|p.trace|], crc, Target(next, Durable(q.state.writer)))
  {
    hide Sim, DirHolds, FileHolds, Frame, FitsFrame, Log, AllFit, Recoverable, Allowed;
    match act
    case Does(step) =>
      SettledStep(p.state, step, seen, kept);
      StepImage(crc, p.state, step, p.image, q.image, op, kept);
      StepRefines(p.state, spec, step);
      next := After(p.state, spec, step);
      CrashRecovers(q.image, crc, q.state, op, kept, next);
    case Fills(span) =>
      next := spec;
      NothingHappens(spec);
      FillImage(p.image, crc, p.state, op, kept, q.image, span);
      CrashRecovers(q.image, crc, q.state, op, kept, spec);
    case Tears(at) =>
      next := spec;
      NothingHappens(spec);
      TornImage(p.image, crc, p.state, op, p.state.writer.op, at);
      CrashRecovers(Torn(crc, p, at), crc, p.state, p.state.writer.op, at, spec);
  }

  lemma NothingHappens(spec: Spec)
    ensures Allowed(spec, Internal, spec)
  {
  }

  lemma TornImage(i: Image, crc: Checksum, s: State, old_: Op, op: Op, kept: nat)
    requires ImageOf(i, crc, s, old_, 0) && FitsFrame(op) && kept < |Frame(crc, op)|
    ensures ImageOf(i.(log := i.log + Frame(crc, op)[..kept]), crc, s, op, kept)
  {
    hide DirHolds, Frame, FitsFrame, Log, AllFit;
    assert i.log == Log(crc, s.log);
  }

  lemma FillImage(i: Image, crc: Checksum, s: State, op: Op, kept: nat, j: Image, span: Span)
    requires ImageOf(i, crc, s, op, kept) && Tmp(span) in i.files && TempChanged(i, j, span)
    ensures ImageOf(j, crc, s, op, kept)
  {
    hide FileHolds, Frame, FitsFrame, Log, AllFit;
    DirCreate(i.files, s.files, s.temps, span, j.files[Tmp(span)]);
    assert s.temps + {span} == s.temps;
  }

  lemma InternalSame(spec: Spec, next: Spec)
    requires Allowed(spec, Internal, next)
    ensures next == spec
  {
  }

  /** The plain map before and after each event. */
  ghost predicate IsHistory(spec: Spec, seen: seq<Event>, history: seq<Spec>) {
    && |history| == |seen| + 1 && history[0] == spec
    && forall j :: 0 <= j < |seen| ==> Allowed(history[j], seen[j], history[j + 1])
  }

  /** Of the way from `p` to `q`, image `i` is the one that `act` adds, on the step
      from `m` to `n`: the first `k` events have been seen when it has been
      passed, and the others are still to be seen. */
  ghost predicate PassedBy(crc: Checksum, p: Point, q: Point, seen: seq<Event>, i: nat,
                           m: Point, act: Act, n: Point, k: nat)
  {
    && |m.trace| == i && |n.trace| == i + 1 && n.trace <= q.trace
    && k <= |seen| && (act.Does? ==> Enabled(m.state, act.step)) && |Shown(ActEvent(m.state, act))| <= k
    && var j := k - |Shown(ActEvent(m.state, act))|;
       && seen[j..k] == Shown(ActEvent(m.state, act))
       && Moves(crc, p, m, seen[..j]) && Moved(crc, m, act, n) && Moves(crc, n, q, seen[k..])
  }

  /** Image `i` recovers to the map as it was when the image was passed, with the
      operation in flight if and only if its whole frame had reached the log. */
  ghost predicate RecoversAsPassed(crc: Checksum, p: Point, q: Point, seen: seq<Event>, history: seq<Spec>, i: nat)
    requires |history| == |seen| + 1 && i < |q.trace|
  {
    exists m: Point, act: Act, n: Point, k: nat ::
      && PassedBy(crc, p, q, seen, i, m, act, n, k)
      && Recoverable(q.trace[i], crc, Target(history[k], Durable(n.state.writer)))
  }

  lemma PassedFirst(crc: Checksum, p: Point, act: Act, n: Point, q: Point, seen: seq<Event>, rest: seq<Event>)
    requires Moved(crc, p, act, n) && Moves(crc, n, q, rest) && (act.Does? ==> Enabled(p.state, act.step))
    requires seen == Shown(ActEvent(p.state, act)) + rest && |n.trace| == |p.trace| + 1
    ensures PassedBy(crc, p, q, seen, |p.trace|, p, act, n, |Shown(ActEvent(p.state, act))|)
  {
    hide Moves, Moved, ActEvent, Shown;
    MovesNowhere(crc, p);
    MovesGrow(crc, n, q, rest);
    var k := |Shown(ActEvent(p.state, act))|;
    assert seen[..0] == [] && seen[0..k] == Shown(ActEvent(p.state, act)) && seen[k..] == rest;
  }

  /** What is passed after the first event, if there is one, is passed. */
  lemma PassedLater(crc: Checksum, p: Point, mid: Point, first: seq<Event>, q: Point, seen: seq<Event>,
                    rest: seq<Event>, i: nat, m: Point, act: Act, n: Point, k: nat)
    requires Moves(crc, p, mid, first) && seen == first + rest && PassedBy(crc, mid, q, rest, i, m, act, n, k)
    ensures PassedBy(crc, p, q, seen, i, m, act, n, |first| + k)
  {
    hide Moves, Moved, ActEvent, Shown;
    var j := k - |Shown(ActEvent(m.state, act))|;
    MovesOn(crc, p, mid, m, first, rest[..j]);
    assert seen[..|first| + j] == first + rest[..j];
    assert seen[|first| + j..|first| + k] == rest[j..k];
    assert seen[|first| + k..] == rest[k..];
  }

  lemma RecoversLater(crc: Checksum, p: Point, mid: Point, first: seq<Event>, q: Point, seen: seq<Event>,
                      rest: seq<Event>, before: seq<Spec>, history: seq<Spec>, all: seq<Spec>, i: nat)
    requires Moves(crc, p, mid, first) && seen == first + rest && |history| == |rest| + 1 && i < |q.trace|
    requires |before| == |first| && all == before + history
    requires RecoversAsPassed(crc, mid, q, rest, history, i)
    ensures RecoversAsPassed(crc, p, q, seen, all, i)
  {
    hide Moves, Moved, ActEvent, Shown, Recoverable;
    var m: Point, act: Act, n: Point, k: nat :|
      && PassedBy(crc, mid, q, rest, i, m, act, n, k)
      && Recoverable(q.trace[i], crc, Target(history[k], Durable(n.state.writer)));
    PassedLater(crc, p, mid, first, q, seen, rest, i, m, act, n, k);
    assert all[|first| + k] == history[k];
  }

  lemma RecoversFirst(crc: Checksum, p: Point, q: Point, seen: seq<Event>, history: seq<Spec>, i: nat,
                      act: Act, n: Point, k: nat)
    requires |history| == |seen| + 1 && i < |q.trace| && k <= |seen|
    requires PassedBy(crc, p, q, seen, i, p, act, n, k)
    requires Recoverable(q.trace[i], crc, Target(history[k], Durable(n.state.writer)))
    ensures RecoversAsPassed(crc, p, q, seen, history, i)
  {
    hide PassedBy, Recoverable;
  }

  lemma StartOfHistory(spec: Spec)
    ensures IsHistory(spec, [], [spec])
  {
  }

  /** The history from one act on, with what was before it. */
  lemma HistoryGoesOn(spec: Spec, event: Event, next: Spec, rest: seq<Event>, seen: seq<Event>,
                      later: seq<Spec>, history: seq<Spec>)
    requires Allowed(spec, event, next) && IsHistory(next, rest, later) && seen == Shown(event) + rest
    requires history == (if event.Internal? then later else [spec] + later)
    ensures IsHistory(spec, seen, history) && |later| == |rest| + 1 && |history| == |seen| + 1
    ensures history[|Shown(event)|] == next && history[|seen|] == later[|rest|]
  {
    hide Allowed;
    if event.Internal? {
      InternalSame(spec, next);
      assert seen == rest;
    } else {
      forall j | 0 <= j < |seen| ensures Allowed(history[j], seen[j], history[j + 1]) {
        if j > 0 { assert history[j] == later[j - 1] && history[j + 1] == later[j] && seen[j] == rest[j - 1]; }
      }
    }
  }

  lemma PathMoves(crc: Checksum, p: Point, path: seq<(Act, Point)>, q: Point, seen: seq<Event>)
    requires Path(crc, p, path, q, seen)
    ensures Moves(crc, p, q, seen)
  {
    hide Path;
  }

  lemma {:induction false} PathImages(crc: Checksum, p: Point, path: seq<(Act, Point)>, q: Point, seen: seq<Event>,
                                      spec: Spec, op: Op, kept: nat) returns (history: seq<Spec>)
    requires Path(crc, p, path, q, seen) && ImageOf(p.image, crc, p.state, op, kept) && Sim(p.state, spec)
    requires Settled(p.state, seen, kept)
    ensures IsHistory(spec, seen, history) && p.trace <= q.trace
    ensures forall i :: |p.trace| <= i < |q.trace| ==> RecoversAsPassed(crc, p, q, seen, history, i)
    ensures ImageOf(q.image, crc, q.state, op, kept) && Sim(q.state, history[|seen|])
    decreases |path|
  {
    hide Sim, Moved, Moves, ImageOf, PassedBy, RecoversAsPassed, Recoverable, Allowed, IsHistory;
    if path == [] {
      history := [spec];
      assert IsHistory(spec, [], [spec]) by { StartOfHistory(spec); }
    } else {
      var (act, mid) := path[0];
      EnabledWhenMoved(crc, p, act, mid);
      var event := ActEvent(p.state, act);
      var next := ActImage(crc, p, act, mid, spec, seen, op, kept);
      var rest := if event.Internal? then seen else seen[1..];
      assert seen == Shown(event) + rest;
      var later := PathImages(crc, mid, path[1..], q, rest, next, op, kept);
      var before := if event.Internal? then [] else [spec];
      history := before + later;
      HistoryGoesOn(spec, event, next, rest, seen, later, history);
      MovesAct(crc, p, act, mid);
      PathMoves(crc, mid, path[1..], q, rest);
      forall i | |p.trace| <= i < |q.trace| ensures RecoversAsPassed(crc, p, q, seen, history, i) {
        if i < |mid.trace| {
          PassedFirst(crc, p, act, mid, q, seen, rest);
          assert q.trace[i] == mid.trace[i];
          RecoversFirst(crc, p, q, seen, history, i, act, mid, |Shown(event)|);
        } else {
          RecoversLater(crc, p, mid, Shown(event), q, seen, rest, before, later, history, i);
        }
      }
    }
  }

  /** From any image of a store that stands for a map: there is one history of the
      plain map for the events seen, and every image passed, by any interleaving of
      steps and in the middle of any write, recovers to that history's map as it
      was when the image was passed. Over a torn log tail this holds of any reads,
      compactions, crashes and recoveries, until the log is written to. */
  lemma EveryImageRecovers(crc: Checksum, p: Point, q: Point, seen: seq<Event>, spec: Spec, op: Op, kept: nat)
    returns (history: seq<Spec>)
    requires Moves(crc, p, q, seen) && ImageOf(p.image, crc, p.state, op, kept) && Sim(p.state, spec)
    requires Settled(p.state, seen, kept)
    ensures IsHistory(spec, seen, history) && p.trace <= q.trace
    ensures forall i :: |p.trace| <= i < |q.trace| ==> RecoversAsPassed(crc, p, q, seen, history, i)
    ensures ImageOf(q.image, crc, q.state, op, kept) && Sim(q.state, history[|seen|])
  {
    hide Path, Sim, ImageOf, RecoversAsPassed, IsHistory;
    var path :| Path(crc, p, path, q, seen);
    history := PathImages(crc, p, path, q, seen, spec, op, kept);
  }

  const NOTHING := Point(Init(), Image(map[], []), [])

  /** The main theorem, down to bytes: of every run of the store from an empty
      directory, with any interleaving of the writer, readers and compactor and
      any number of crashes between two effects on the disk, there is one history
      of a plain map, and every image passed recovers to the map of that history
      after exactly the events seen so far, with the operation in flight if and
      only if its whole frame had reached the log. */
  lemma BytesAreAMap(crc: Checksum, q: Point, seen: seq<Event>) returns (history: seq<Spec>)
    requires Moves(crc, NOTHING, q, seen)
    ensures IsHistory(Spec(map[], None), seen, history)
    ensures forall i :: 0 <= i < |q.trace| ==> RecoversAsPassed(crc, NOTHING, q, seen, history, i)
    ensures Recoverable(q.image, crc, Target(history[|seen|], Durable(q.state.writer)))
  {
    hide Sim, ImageOf, RecoversAsPassed, Allowed, Moves, Recoverable;
    var op := Delete([]);
    InitSim();
    NothingIsAnImage(crc, op);
    history := EveryImageRecovers(crc, NOTHING, q, seen, Spec(map[], None), op, 0);
    CrashRecovers(q.image, crc, q.state, op, 0, history[|seen|]);
  }

  /** The same for every way of reaching an image: whatever act adds an image to a
      run that has shown `seen`, the image recovers to the map after `seen` and the
      event of that act, if it has one. */
  lemma NextImageRecovers(crc: Checksum, m: Point, act: Act, q: Point, seen: seq<Event>)
    returns (before: Spec, now: Spec)
    requires Moves(crc, NOTHING, m, seen) && Moved(crc, m, act, q)
    requires act.Does? ==> Enabled(m.state, act.step)
    ensures Explains(Spec(map[], None), seen, before) && Allowed(before, ActEvent(m.state, act), now)
    ensures m.trace <= q.trace
    ensures AllRecover(q.trace[|m.trace|..], crc, Target(now, Durable(q.state.writer)))
  {
    hide Sim, ImageOf, RecoversAsPassed, Moves, Moved, Recoverable, Allowed, Explains, ActEvent;
    var op, event := Delete([]), ActEvent(m.state, act);
    InitSim();
    NothingIsAnImage(crc, op);
    var history := EveryImageRecovers(crc, NOTHING, m, seen, Spec(map[], None), op, 0);
    before := history[|seen|];
    HistoryExplains(Spec(map[], None), seen, history);
    now := ActImage(crc, m, act, q, before, [event], op, 0);
  }

  lemma {:induction false} HistoryExplains(spec: Spec, seen: seq<Event>, history: seq<Spec>)
    requires IsHistory(spec, seen, history)
    ensures Explains(spec, seen, history[|seen|])
    decreases |seen|
  {
    hide Allowed;
    if seen != [] {
      HistoryExplains(history[1], seen[1..], history[1..]);
    }
  }

  ghost predicate AllRecover(images: seq<Image>, crc: Checksum, m: map<Key, Value>) {
    forall i :: 0 <= i < |images| ==> Recoverable(images[i], crc, m)
  }

  /** Without writes, every image recovers to the same map: no compaction, opening,
      reading or further crash loses anything, also over a torn tail. */
  lemma QuietImages(crc: Checksum, p: Point, q: Point, seen: seq<Event>, m: map<Key, Value>, op: Op, kept: nat)
    requires Moves(crc, p, q, seen) && ImageOf(p.image, crc, p.state, op, kept) && Sim(p.state, Spec(m, None))
    requires p.state.writer.Idle? && NoWrites(seen)
    ensures p.trace <= q.trace && AllRecover(q.trace[|p.trace|..], crc, m)
    ensures ImageOf(q.image, crc, q.state, op, kept) && Sim(q.state, Spec(m, None))
    ensures forall i :: 0 <= i < |seen| && seen[i].Got? ==> seen[i].result == Look(m, seen[i].key)
  {
    hide Sim, ImageOf, Moves, Recoverable, RecoversAsPassed, IsHistory, NoWrites;
    var history := EveryImageRecovers(crc, p, q, seen, Spec(m, None), op, kept);
    SameThroughout(m, seen, history, |seen|);
    forall i | |p.trace| <= i < |q.trace| ensures Recoverable(q.trace[i], crc, m) {
      var k, done := WhenPassed(crc, p, q, seen, history, i);
      SameThroughout(m, seen, history, k);
    }
  }

  lemma WhenPassed(crc: Checksum, p: Point, q: Point, seen: seq<Event>, history: seq<Spec>, i: nat)
    returns (k: nat, done: bool)
    requires |history| == |seen| + 1 && i < |q.trace| && RecoversAsPassed(crc, p, q, seen, history, i)
    ensures k <= |seen| && Recoverable(q.trace[i], crc, Target(history[k], done))
  {
    hide Moves, Moved, ActEvent, Shown, Recoverable;
    var m: Point, act: Act, n: Point, j: nat :|
      && PassedBy(crc, p, q, seen, i, m, act, n, j)
      && Recoverable(q.trace[i], crc, Target(history[j], Durable(n.state.writer)));
    k, done := j, Durable(n.state.writer);
  }

  lemma {:induction false} SameThroughout(m: map<Key, Value>, seen: seq<Event>, history: seq<Spec>, k: nat)
    requires IsHistory(Spec(m, None), seen, history) && NoWrites(seen) && k <= |seen|
    ensures |history| == |seen| + 1 && history[k] == Spec(m, None)
    ensures forall i :: 0 <= i < k && seen[i].Got? ==> seen[i].result == Look(m, seen[i].key)
  {
    if k > 0 {
      SameThroughout(m, seen, history, k - 1);
      assert Allowed(history[k - 1], seen[k - 1], history[k]);
    }
  }

  /** Each image recovers to the map before an operation or to the one after it. */
  ghost predicate EitherRecovers(images: seq<Image>, crc: Checksum, before: map<Key, Value>, after: map<Key, Value>) {
    forall i :: 0 <= i < |images| ==> Recoverable(images[i], crc, before) || Recoverable(images[i], crc, after)
  }

  /** A crash anywhere inside an operation leaves an image that recovers to the
      map with or without it. */
  lemma CrashMidway(crc: Checksum, p: Point, q: Point, m: map<Key, Value>, op: Op)
    requires Moves(crc, p, q, [Call(op), Return]) && Sim(p.state, Spec(m, None))
    requires ImageOf(p.image, crc, p.state, op, 0)
    ensures p.trace <= q.trace && EitherRecovers(q.trace[|p.trace|..], crc, m, Effect(m, op))
  {
    hide Sim, ImageOf, Moves, Recoverable, RecoversAsPassed, IsHistory;
    var seen := [Call(op), Return];
    var history := EveryImageRecovers(crc, p, q, seen, Spec(m, None), op, 0);
    DuringCall(m, op, history);
    forall i | |p.trace| <= i < |q.trace|
      ensures Recoverable(q.trace[i], crc, m) || Recoverable(q.trace[i], crc, Effect(m, op))
    {
      var k, done := WhenPassed(crc, p, q, seen, history, i);
      assert history[k] in history;
    }
  }

  lemma DuringCall(m: map<Key, Value>, op: Op, history: seq<Spec>)
    requires IsHistory(Spec(m, None), [Call(op), Return], history)
    ensures history == [Spec(m, None), Spec(m, Some(op)), Spec(Effect(m, op), None)]
  {
    assert Allowed(history[0], Call(op), history[1]) && Allowed(history[1], Return, history[2]);
  }
}
