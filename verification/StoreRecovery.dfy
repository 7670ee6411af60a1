/** Recovery: opening a directory one file operation at a time always rebuilds
    the list the directory stands for, whatever a crash left in it. */
module StoreRecovery {
  import opened Tables
  import opened Store
  import opened StoreInvariant

  lemma {:induction false} NextSeqIsMax(spans: seq<Span>)
    ensures forall i :: 0 <= i < |spans| ==> spans[i].last < NextSeq(spans)
    ensures spans == [] ==> NextSeq(spans) == 0
    ensures spans != [] ==> exists i :: 0 <= i < |spans| && NextSeq(spans) == spans[i].last + 1
  {
    if spans != [] {
      var front := spans[..|spans| - 1];
      NextSeqIsMax(front);
      if NextSeq(spans) != spans[|spans| - 1].last + 1 {
        assert front != [];
        var i :| 0 <= i < |front| && NextSeq(front) == front[i].last + 1;
        assert spans[i] == front[i];
      }
      forall i | 0 <= i < |spans| ensures spans[i].last < NextSeq(spans) {
        if i < |front| { assert spans[i] == front[i]; }
      }
    }
  }

  lemma NextSeqOfStack(files: Files, stack: seq<Table>, spans: seq<Span>)
    requires IsStack(files, stack) && IsListing(spans, files.Keys)
    ensures NextSeq(spans) == SeqAfter(stack)
  {
    NextSeqIsMax(spans);
    forall i | 0 <= i < |spans| ensures stack != [] && spans[i].last <= stack[|stack| - 1].span.last {
      assert spans[i] in spans && Covered(spans[i], stack);
      var j :| 0 <= j < |stack| && Within(spans[i], stack[j].span);
      assert stack[j].span.last <= stack[|stack| - 1].span.last;
    }
    if stack != [] {
      assert stack[|stack| - 1].span in spans;
    }
  }

  lemma ListDirInv(s: State, spans: seq<Span>)
    requires Inv(s) && CanRecover(s, ListDir(spans))
    ensures Inv(DoRecover(s, ListDir(spans)))
  {
    var stack := StackOf(s.files);
    NextSeqOfStack(s.files, stack, spans);
    assert ToSet(spans) == s.files.Keys;
    forall i | 0 <= i < |spans| ensures Superseded(spans[i], ToSet(spans)) <==> !Listed(spans[i], stack) {
      SupersededIsUnlisted(s.files, stack, spans[i]);
    }
  }

  lemma SeenMore(spans: seq<Span>, at: nat, span: Span)
    requires at < |spans|
    ensures span in spans[..at + 1] <==> span in spans[..at] || span == spans[at]
  {
    assert spans[..at + 1] == spans[..at] + [spans[at]];
  }

  lemma DeleteSuperseded(files: Files, live: seq<Table>, stack: seq<Table>, spans: seq<Span>, at: nat)
    requires IsStack(files, stack) && ListingOk(spans, stack) && DeletedOk(files, stack, spans, at)
    requires at < |spans| && OpenedOk(live, stack, spans[..at]) && Superseded(spans[at], ToSet(spans))
    ensures IsStack(files - {spans[at]}, stack)
    ensures DeletedOk(files - {spans[at]}, stack, spans, at + 1) && OpenedOk(live, stack, spans[..at + 1])
  {
    DropKeepsStack(files, stack, spans[at]);
    forall j | 0 <= j < |stack| ensures j < |live| <==> stack[j].span in spans[..at + 1] {
      assert !Listed(spans[at], stack);
      SeenMore(spans, at, stack[j].span);
    }
  }

  lemma RemoveSupersededInv(s: State)
    requires Inv(s) && CanRecover(s, RemoveSuperseded)
    ensures Inv(DoRecover(s, RemoveSuperseded))
    ensures StackOf(DoRecover(s, RemoveSuperseded).files) == StackOf(s.files)
  {
    var n := DoRecover(s, RemoveSuperseded);
    var stack := StackOf(s.files);
    DeleteSuperseded(s.files, s.live, stack, s.phase.spans, s.phase.at);
    StackUnique(n.files, stack, StackOf(n.files));
  }

  lemma FirstUnopened(files: Files, live: seq<Table>, stack: seq<Table>, spans: seq<Span>, at: nat) returns (m: nat)
    requires OnDisk(files, stack) && DeletedOk(files, stack, spans, at)
    requires |live| < |stack| && OpenedOk(live, stack, spans[..at])
    ensures at <= m < |spans| && spans[m] == stack[|live|].span
  {
    var next := stack[|live|].span;
    assert next in files && next in spans && next !in spans[..at];
    assert forall i :: 0 <= i < at ==> spans[..at][i] == spans[i];
    m :| 0 <= m < |spans| && spans[m] == next;
  }

  lemma NotYetSeen(spans: seq<Span>, at: nat)
    requires at < |spans|
    requires forall i, j :: 0 <= i < j < |spans| ==> SpanLess(spans[i], spans[j])
    ensures spans[at] !in spans[..at]
  {
    assert forall i :: 0 <= i < at ==> SpanLess(spans[..at][i], spans[at]);
  }

  /** The next file that is not superseded is the next table of the list. */
  lemma NextOpened(files: Files, live: seq<Table>, stack: seq<Table>, spans: seq<Span>, at: nat)
    requires IsStack(files, stack) && ListingOk(spans, stack) && DeletedOk(files, stack, spans, at)
    requires at < |spans| && OpenedOk(live, stack, spans[..at]) && !Superseded(spans[at], ToSet(spans))
    ensures |live| < |stack| && stack[|live|].span == spans[at]
  {
    NotYetSeen(spans, at);
    assert Listed(spans[at], stack);
    var j :| 0 <= j < |stack| && stack[j].span == spans[at];
    assert j >= |live|;
    var m := FirstUnopened(files, live, stack, spans, at);
    if m > at {
      assert SpanLess(spans[at], spans[m]);
      assert stack[|live|].span.last < stack[j].span.first || j == |live|;
    }
  }

  lemma OpenNext(files: Files, live: seq<Table>, stack: seq<Table>, spans: seq<Span>, at: nat)
    requires IsStack(files, stack) && ListingOk(spans, stack) && DeletedOk(files, stack, spans, at)
    requires at < |spans| && OpenedOk(live, stack, spans[..at]) && !Superseded(spans[at], ToSet(spans))
    requires spans[at] in files
    ensures DeletedOk(files, stack, spans, at + 1)
    ensures OpenedOk(live + [Table(spans[at], files[spans[at]])], stack, spans[..at + 1])
  {
    NextOpened(files, live, stack, spans, at);
    assert Listed(spans[at], stack);
    assert stack[..|live| + 1] == stack[..|live|] + [stack[|live|]];
    forall j | 0 <= j < |stack| ensures j < |live| + 1 <==> stack[j].span in spans[..at + 1] {
      SeenMore(spans, at, stack[j].span);
    }
  }

  lemma OpenTableInv(s: State)
    requires Inv(s) && CanRecover(s, OpenTable)
    ensures Inv(DoRecover(s, OpenTable))
  {
    OpenNext(s.files, s.live, StackOf(s.files), s.phase.spans, s.phase.at);
  }

  /** Once every file has been dealt with, the list is complete. */
  lemma OpenDoneList(s: State)
    requires Inv(s) && CanRecover(s, OpenDone)
    ensures s.live == StackOf(s.files) && s.nextSeq == SeqAfter(s.live)
    ensures forall f :: f in s.files ==> Listed(f, s.live)
  {
    var stack, spans := StackOf(s.files), s.phase.spans;
    assert spans[..s.phase.at] == spans;
    assert forall j :: 0 <= j < |stack| ==> stack[j].span in s.files;
    forall f | f in s.files ensures Listed(f, stack) {
      assert f in spans;
      var i :| 0 <= i < |spans| && spans[i] == f;
    }
  }

  lemma OpenDoneInv(s: State)
    requires Inv(s) && CanRecover(s, OpenDone)
    ensures Inv(DoRecover(s, OpenDone))
  {
    var n := DoRecover(s, OpenDone);
    OpenDoneList(s);
    assert Stack(n) == s.live;
    forall i | 0 <= i < |s.live| ensures s.live[i].span.last < s.nextSeq {
      if i < |s.live| - 1 { assert s.live[i].span.last < s.live[|s.live| - 1].span.first; }
    }
  }

  lemma CrashInv(s: State)
    requires Inv(s)
    ensures Inv(Crashed(s))
  {
    if s.phase.Up? { RunningStack(s); }
  }

  lemma RecoverInv(s: State, step: RecoverStep)
    requires Inv(s) && CanRecover(s, step)
    ensures Inv(DoRecover(s, step)) && !s.phase.Up?
    ensures HasStack(s.files) && HasStack(DoRecover(s, step).files)
    ensures StackOf(DoRecover(s, step).files) == StackOf(s.files)
    ensures DoRecover(s, step).log == s.log
  {
    match step
    case ListDir(spans) => ListDirInv(s, spans);
    case RemoveSuperseded => RemoveSupersededInv(s);
    case OpenTable => OpenTableInv(s);
    case OpenDone => OpenDoneInv(s);
    case _ =>
  }

  lemma WriteInv(s: State, step: WriteStep)
    requires Inv(s) && CanWrite(s, step)
    ensures Inv(DoWrite(s, step)) && s.phase.Up?
  {
    match step
    case FlushPublish => PublishFlushInv(s);
    case FlushStoreSeq => StoreSeqInv(s);
    case FlushPush => PushInv(s);
    case _ => QuietStepInv(s, step);
  }

  lemma CompactInv(s: State, step: CompactStep)
    requires Inv(s) && CanCompact(s, step)
    ensures Inv(DoCompact(s, step)) && s.phase.Up?
  {
    match step
    case MergePublish => MergePublishInv(s);
    case MergeEmpty => MergeEmptyInv(s);
    case Swap => SwapInv(s);
    case Unlink => UnlinkInv(s);
    case _ => PlanInv(s, step);
  }

  /** Every step of the store, running or recovering, keeps the invariant. */
  lemma StepInv(s: State, step: Step)
    requires Inv(s) && Enabled(s, step)
    ensures Inv(Apply(s, step))
  {
    match step
    case Write(w) => WriteInv(s, w);
    case Read(r) => ReadInv(s, r);
    case Compact(c) => CompactInv(s, c);
    case Recover(v) => RecoverInv(s, v);
    case Crash => CrashInv(s);
  }
}
