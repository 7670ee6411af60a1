/** Consequences of the invariant and the refinement over whole runs. */
module StoreProperties {
  import opened Bytes
  import opened Tables
  import opened Store
  import opened StoreInvariant
  import opened StoreRecovery
  import opened StoreRefinement

  lemma {:induction false} RunInv(s: State, steps: seq<Step>)
    requires Inv(s) && Runs(s, steps)
    ensures Inv(Final(s, steps))
    decreases |steps|
  {
    if steps != [] {
      StepInv(s, steps[0]);
      RunInv(Apply(s, steps[0]), steps[1..]);
    }
  }

  /** Live spans stay disjoint, in order and below the next sequence number, no
      directory entry is lost, and no file is on disk without a reason. */
  lemma LiveSpansOrdered(steps: seq<Step>)
    requires Runs(Init(), steps)
    ensures var s := Final(Init(), steps);
            s.phase.Up? ==>
              && Ordered(s.live) && Below(s.live, s.nextSeq) && OnDisk(s.files, s.live)
              && (forall f :: f in s.files ==> Listed(f, Stack(s)) || Leftover(s.compactor, s.live, f))
  {
    InitSim();
    RunInv(Init(), steps);
  }

  /** The run can be merged, and can be spliced out of the list it was picked
      from even after flushes have appended to that list. */
  ghost predicate RunInRange(c: Compactor, live: seq<Table>) {
    && (c.Snapped? ==> 2 <= c.count && c.start + c.count <= |c.snap|)
    && (c.Merged? ==> c.start + c.count <= |live| && (c.out.None? ==> c.start == 0))
  }

  /** `open` always has a next step: what it decides to open is still there. */
  ghost predicate OpenAdvances(s: State) {
    s.phase.Opening? ==>
      || CanRecover(s, OpenDone)
      || (s.phase.at < |s.phase.spans| && (CanRecover(s, RemoveSuperseded) || CanRecover(s, OpenTable)))
  }

  lemma ChecksHoldAt(s: State)
    requires Inv(s)
    ensures RunInRange(s.compactor, s.live) && OpenAdvances(s)
  {
  }

  /** The checks the code makes on the way can never fail, in any run. */
  lemma ChecksHold(steps: seq<Step>)
    requires Runs(Init(), steps)
    ensures RunInRange(Final(Init(), steps).compactor, Final(Init(), steps).live)
    ensures OpenAdvances(Final(Init(), steps))
  {
    InitSim();
    RunInv(Init(), steps);
    ChecksHoldAt(Final(Init(), steps));
  }

  /* ---- Recovery is repeatable ---- */

  predicate RecoveryOnly(steps: seq<Step>) {
    forall i :: 0 <= i < |steps| ==> steps[i].Crash? || steps[i].Recover?
  }

  /** A store that is just being, or has just been, opened. */
  ghost predicate AsOpened(s: State, stack: seq<Table>) {
    && Inv(s) && HasStack(s.files) && StackOf(s.files) == stack
    && (s.phase.Up? ==> s.live == stack && s.nextSeq == SeqAfter(stack))
  }

  lemma AsOpenedStep(s: State, step: Step, stack: seq<Table>)
    requires AsOpened(s, stack) && Enabled(s, step) && (step.Crash? || step.Recover?)
    ensures AsOpened(Apply(s, step), stack) && Apply(s, step).log == s.log
  {
    if step.Crash? {
      CrashInv(s);
    } else {
      RecoverInv(s, step.v);
      if step.v.OpenDone? { OpenDoneList(s); }
    }
  }

  lemma {:induction false} RecoveryKeepsList(s: State, steps: seq<Step>, stack: seq<Table>)
    requires AsOpened(s, stack) && Runs(s, steps) && RecoveryOnly(steps)
    ensures AsOpened(Final(s, steps), stack) && Final(s, steps).log == s.log
    decreases |steps|
  {
    if steps != [] {
      AsOpenedStep(s, steps[0], stack);
      RecoveryKeepsList(Apply(s, steps[0]), steps[1..], stack);
    }
  }

  /** However often recovery is itself interrupted by crashes, once it completes
      it has produced the list and the next sequence number that an
      uninterrupted one would have: those of the directory it began with. */
  lemma RecoveryIsRepeatable(s: State, a: seq<Step>, b: seq<Step>)
    requires Inv(s) && s.phase.Down?
    requires Runs(s, a) && RecoveryOnly(a) && Final(s, a).phase.Up?
    requires Runs(s, b) && RecoveryOnly(b) && Final(s, b).phase.Up?
    ensures Final(s, a).live == Final(s, b).live == StackOf(s.files)
    ensures Final(s, a).nextSeq == Final(s, b).nextSeq == SeqAfter(StackOf(s.files))
  {
    RecoveryKeepsList(s, a, StackOf(s.files));
    RecoveryKeepsList(s, b, StackOf(s.files));
  }

  lemma {:induction false} RecoveryKeepsMap(s: State, steps: seq<Step>, m: map<Key, Value>)
    requires Sim(s, Spec(m, None)) && !s.phase.Up? && Runs(s, steps) && RecoveryOnly(steps)
    ensures Sim(Final(s, steps), Spec(m, None)) && Final(s, steps).writer.Idle?
    decreases |steps|
  {
    hide Sim;
    assert s.writer.Idle? by { IdleWhenDown(s, m); }
    if steps != [] {
      var n := Apply(s, steps[0]);
      StepRefines(s, Spec(m, None), steps[0]);
      if n.phase.Up? {
        UpAgain(n, steps[1..], m);
      } else {
        RecoveryKeepsMap(n, steps[1..], m);
      }
    }
  }

  /** A store that is up and idle takes no recovery step, but may crash again. */
  lemma {:induction false} UpAgain(s: State, steps: seq<Step>, m: map<Key, Value>)
    requires Sim(s, Spec(m, None)) && s.phase.Up? && Runs(s, steps) && RecoveryOnly(steps)
    requires s.writer.Idle?
    ensures Sim(Final(s, steps), Spec(m, None)) && Final(s, steps).writer.Idle?
    decreases |steps|
  {
    hide Sim;
    if steps != [] {
      StepRefines(s, Spec(m, None), steps[0]);
      RecoveryKeepsMap(Apply(s, steps[0]), steps[1..], m);
    }
  }

  lemma IdleWhenDown(s: State, m: map<Key, Value>)
    requires Sim(s, Spec(m, None))
    ensures s.writer.Idle?
  {
  }

  /** A crash at any point of any operation, flush or compaction, however often
      recovery is itself cut short: once the store is up again, every key reads as
      in the map with everything that had reached the log, and nothing else. */
  lemma CrashThenReopen(s: State, spec: Spec, steps: seq<Step>, key: Key)
    requires Sim(s, spec) && Runs(Crashed(s), steps) && RecoveryOnly(steps)
    requires Final(Crashed(s), steps).phase.Up?
    ensures var n := Final(Crashed(s), steps);
            Overlay(n.mem, n.live, key) == Look(Target(spec, Durable(s.writer)), key)
  {
    CrashRefines(s, spec);
    RecoveryKeepsMap(Crashed(s), steps, Target(spec, Durable(s.writer)));
  }

  /* ---- Returned writes survive ---- */

  predicate NoCallOn(events: seq<Event>, key: Key) {
    forall i :: 0 <= i < |events| && events[i].Call? ==> events[i].op.key != key
  }

  predicate AllGetsSay(events: seq<Event>, key: Key, answer: Option<Value>) {
    forall i :: 0 <= i < |events| && events[i].Got? && events[i].key == key ==> events[i].result == answer
  }

  lemma {:induction false} UntouchedKey(a: Spec, events: seq<Event>, b: Spec, key: Key)
    requires Explains(a, events, b) && NoCallOn(events, key)
    requires a.pending.Some? ==> a.pending.value.key != key
    ensures AllGetsSay(events, key, Look(a.m, key)) && Look(b.m, key) == Look(a.m, key)
    decreases |events|
  {
    if events != [] {
      var mid :| Allowed(a, events[0], mid) && Explains(mid, events[1..], b);
      assert Look(mid.m, key) == Look(a.m, key);
      UntouchedKey(mid, events[1..], b, key);
      assert events == [events[0]] + events[1..];
    }
  }

  /** Once a write has returned, every get of its key returns what it wrote,
      through any flushes, compactions and crashes, until the key is written
      again. */
  lemma ReturnedWriteSurvives(s: State, spec: Spec, steps: seq<Step>, key: Key)
    requires Sim(s, spec) && spec.pending.Some? && spec.pending.value.key == key
    requires Enabled(s, Write(Ack)) && Runs(Apply(s, Write(Ack)), steps)
    requires NoCallOn(Events(Apply(s, Write(Ack)), steps), key)
    ensures AllGetsSay(Events(Apply(s, Write(Ack)), steps), key,
                       match spec.pending.value case Put(_, v) => Some(v) case Delete(_) => None)
  {
    var n, after := Apply(s, Write(Ack)), After(s, spec, Write(Ack));
    StepRefines(s, spec, Write(Ack));
    var last := RunRefines(n, after, steps);
    UntouchedKey(after, Events(n, steps), last, key);
  }

  /* ---- How many compactions there can be ---- */

  function Completed(steps: seq<Step>): nat {
    if steps == [] then 0 else (if steps[0] == Compact(CompactDone) then 1 else 0) + Completed(steps[1..])
  }

  function Flushes(steps: seq<Step>): nat {
    if steps == [] then 0 else (if steps[0] == Write(FlushPublish) then 1 else 0) + Flushes(steps[1..])
  }

  predicate PicksAtLeast(steps: seq<Step>, minRun: nat) {
    forall i :: 0 <= i < |steps| && steps[i].Compact? && steps[i].c.Pick? ==> steps[i].c.count >= minRun
  }

  /** The compaction in progress was picked with at least `minRun` tables. */
  predicate PickedAtLeast(c: Compactor, minRun: nat) {
    match c
    case Resting => true
    case Unlinking(rest, out, unlinked) => out.None? ==> unlinked + |rest| >= minRun
    case _ => c.count >= minRun
  }

  /** Tables the compaction in progress has already taken off the list. */
  function Credit(c: Compactor, minRun: nat): int {
    match c
    case Merged(_, _, Some(_)) => minRun - 1
    case Unlinking(_, Some(_), _) => minRun - 1
    case Unlinking(_, None, unlinked) => unlinked
    case _ => 0
  }

  ghost function Potential(s: State, minRun: nat): int
    requires Inv(s)
  {
    if s.phase.Up? then |Stack(s)| + Credit(s.compactor, minRun) else |StackOf(s.files)|
  }

  lemma CreditStep(s: State, step: CompactStep, minRun: nat)
    requires CanCompact(s, step) && minRun >= 1 && CompactorOk(s.compactor, s.live, s.files)
    requires PickedAtLeast(s.compactor, minRun) && (step.Pick? ==> step.count >= minRun)
    ensures PickedAtLeast(DoCompact(s, step).compactor, minRun)
    ensures |Stack(DoCompact(s, step))| + Credit(DoCompact(s, step).compactor, minRun)
            + (if step.CompactDone? then minRun - 1 else 0)
            <= |Stack(s)| + Credit(s.compactor, minRun)
  {
    if step.Swap? { SwapStack(s); }
  }

  lemma PotentialWrite(s: State, step: WriteStep, minRun: nat)
    requires Inv(s) && CanWrite(s, step)
    ensures Inv(DoWrite(s, step)) && DoWrite(s, step).compactor == s.compactor
    ensures Potential(DoWrite(s, step), minRun) <= Potential(s, minRun) + (if step.FlushPublish? then 1 else 0)
  {
    WriteInv(s, step);
    if step.FlushPush? { PushInv(s); }
  }

  lemma PotentialCompact(s: State, step: CompactStep, minRun: nat)
    requires Inv(s) && CanCompact(s, step) && minRun >= 1
    requires PickedAtLeast(s.compactor, minRun) && (step.Pick? ==> step.count >= minRun)
    ensures Inv(DoCompact(s, step)) && PickedAtLeast(DoCompact(s, step).compactor, minRun)
    ensures Potential(DoCompact(s, step), minRun) + (if step.CompactDone? then minRun - 1 else 0)
            <= Potential(s, minRun)
  {
    CompactInv(s, step);
    CreditStep(s, step, minRun);
  }

  lemma PotentialRecover(s: State, step: RecoverStep, minRun: nat)
    requires Inv(s) && CanRecover(s, step)
    ensures Inv(DoRecover(s, step)) && DoRecover(s, step).compactor == s.compactor
    ensures Potential(DoRecover(s, step), minRun) == Potential(s, minRun)
  {
    RecoverInv(s, step);
    if step.OpenDone? { OpenDoneList(s); }
  }

  lemma PotentialCrash(s: State, minRun: nat)
    requires Inv(s) && minRun >= 1
    ensures Inv(Crashed(s)) && Potential(Crashed(s), minRun) <= Potential(s, minRun)
  {
    CrashInv(s);
    if s.phase.Up? { RunningStack(s); }
  }

  lemma PotentialStep(s: State, step: Step, minRun: nat)
    requires Inv(s) && Enabled(s, step) && minRun >= 1
    requires PickedAtLeast(s.compactor, minRun)
    requires step.Compact? && step.c.Pick? ==> step.c.count >= minRun
    ensures Inv(Apply(s, step)) && PickedAtLeast(Apply(s, step).compactor, minRun)
    ensures Potential(Apply(s, step), minRun) + (if step == Compact(CompactDone) then minRun - 1 else 0)
            <= Potential(s, minRun) + (if step == Write(FlushPublish) then 1 else 0)
  {
    match step
    case Write(w) => PotentialWrite(s, w, minRun);
    case Read(r) => ReadInv(s, r);
    case Compact(c) => PotentialCompact(s, c, minRun);
    case Recover(v) => PotentialRecover(s, v, minRun);
    case Crash => PotentialCrash(s, minRun);
  }

  /** Each completed compaction has paid for `minRun - 1` tables, through any
      number of crashes: so there can be no more of them than tables allow. */
  lemma {:induction false} CompactionsBounded(s: State, steps: seq<Step>, minRun: nat)
    requires Inv(s) && Runs(s, steps) && minRun >= 1
    requires PickedAtLeast(s.compactor, minRun) && PicksAtLeast(steps, minRun)
    ensures Completed(steps) * (minRun - 1) <= Potential(s, minRun) + Flushes(steps)
    decreases |steps|
  {
    if steps != [] {
      var n := Apply(s, steps[0]);
      PotentialStep(s, steps[0], minRun);
      CompactionsBounded(n, steps[1..], minRun);
      assert (1 + Completed(steps[1..])) * (minRun - 1) == minRun - 1 + Completed(steps[1..]) * (minRun - 1);
    }
  }

  /** From a stopped store: completed compactions times `minRun - 1` is at most
      the tables it started with plus the flushes published. */
  lemma CompactionsPaidFor(s: State, steps: seq<Step>, minRun: nat)
    requires Inv(s) && s.phase.Down? && Runs(s, steps) && minRun >= 1 && PicksAtLeast(steps, minRun)
    ensures HasStack(s.files)
    ensures Completed(steps) * (minRun - 1) <= |StackOf(s.files)| + Flushes(steps)
  {
    CompactionsBounded(s, steps, minRun);
  }
}
