/** What a set of tables means, with the file format left out: a table is its
    sorted records, a list of tables is read newest first, and a directory is
    read as the list of its containment-maximal spans. */
module Tables {
  import opened Bytes

  type Key = seq<byte>
  type Value = seq<byte>

  /** `value == None` is a tombstone. */
  datatype Entry = Entry(key: Key, value: Option<Value>)

  /** `Some(None)` is a tombstone found, `None` no record at all. */
  type Found = Option<Option<Value>>

  function Find(entries: seq<Entry>, key: Key): Found {
    if entries == [] then None
    else if entries[0].key == key then Some(entries[0].value)
    else Find(entries[1..], key)
  }

  ghost predicate Sorted(entries: seq<Entry>) {
    forall i, j :: 0 <= i < j < |entries| ==> Less(entries[i].key, entries[j].key)
  }

  datatype Span = Span(first: nat, last: nat)

  predicate Within(a: Span, b: Span) {
    b.first <= a.first && a.last <= b.last
  }

  datatype Table = Table(span: Span, entries: seq<Entry>)

  /** The record of the newest (last) table that has one. */
  function Newest(tables: seq<Table>, key: Key): Found {
    if tables == [] then None
    else
      var found := Find(tables[|tables| - 1].entries, key);
      if found.Some? then found else Newest(tables[..|tables| - 1], key)
  }

  function Answer(found: Found): Option<Value> {
    if found.Some? then found.value else None
  }

  function Lookup(tables: seq<Table>, key: Key): Option<Value> {
    Answer(Newest(tables, key))
  }

  /** What a merge must keep of a key's newest record. */
  function Kept(found: Found, dropTombstones: bool): Found {
    if dropTombstones && found == Some(None) then None else found
  }

  ghost predicate IsMerge(run: seq<Table>, dropTombstones: bool, out: seq<Entry>) {
    && Sorted(out)
    && forall k :: Find(out, k) == Kept(Newest(run, k), dropTombstones)
  }

  /** The list after replacing tables `start .. start + count`. */
  function Splice(tables: seq<Table>, start: nat, count: nat, replacement: Option<Table>): seq<Table>
    requires start + count <= |tables|
  {
    tables[..start]
    + (match replacement case None => [] case Some(t) => [t])
    + tables[start + count..]
  }

  /* ---- Find ---- */

  lemma {:induction false} FindSome(entries: seq<Entry>, key: Key)
    ensures Find(entries, key).Some? <==> exists i :: 0 <= i < |entries| && entries[i].key == key
  {
    if entries != [] && entries[0].key != key {
      FindSome(entries[1..], key);
      if i :| 0 <= i < |entries| && entries[i].key == key {
        assert entries[1..][i - 1].key == key;
      }
    }
  }

  lemma {:induction false} FindAt(entries: seq<Entry>, i: nat)
    requires Sorted(entries) && i < |entries|
    ensures Find(entries, entries[i].key) == Some(entries[i].value)
  {
    if i != 0 {
      LessAsymmetric(entries[0].key, entries[i].key);
      FindAt(entries[1..], i - 1);
    }
  }

  lemma {:induction false} FindConcat(a: seq<Entry>, b: seq<Entry>, key: Key)
    ensures Find(a + b, key) == if Find(a, key).Some? then Find(a, key) else Find(b, key)
  {
    if a == [] {
      assert a + b == b;
    } else {
      FindConcat(a[1..], b, key);
      assert (a + b)[1..] == a[1..] + b;
    }
  }

  lemma HeadFound(a: seq<Entry>)
    ensures a != [] ==> Find(a, a[0].key).Some?
  {
  }

  /** A sorted table is determined by its lookups. */
  lemma {:induction false} SortedUnique(a: seq<Entry>, b: seq<Entry>)
    requires Sorted(a) && Sorted(b)
    requires forall k :: Find(a, k) == Find(b, k)
    ensures a == b
  {
    if a == [] || b == [] {
      HeadFound(a);
      HeadFound(b);
    } else {
      FirstKeyLeast(a, b);
      FirstKeyLeast(b, a);
      LessTotal(a[0].key, b[0].key);
      assert Find(a, a[0].key) == Find(b, b[0].key);
      forall k ensures Find(a[1..], k) == Find(b[1..], k) {
        if k == a[0].key {
          AfterFirst(a, k);
          AfterFirst(b, k);
        } else {
          assert Find(a, k) == Find(b, k);
        }
      }
      SortedUnique(a[1..], b[1..]);
      assert a == [a[0]] + a[1..] && b == [b[0]] + b[1..];
    }
  }

  lemma AfterFirst(a: seq<Entry>, k: Key)
    requires Sorted(a) && a != [] && k == a[0].key
    ensures Find(a[1..], k) == None
  {
    FindSome(a[1..], k);
    if i :| 0 <= i < |a[1..]| && a[1..][i].key == k {
      LessAsymmetric(a[0].key, a[i + 1].key);
    }
  }

  lemma FirstKeyLeast(a: seq<Entry>, b: seq<Entry>)
    requires Sorted(a) && a != [] && b != []
    requires forall k :: Find(a, k) == Find(b, k)
    ensures !Less(b[0].key, a[0].key)
  {
    assert Find(b, b[0].key).Some? && Find(a, b[0].key).Some?;
    FindSome(a, b[0].key);
    var i :| 0 <= i < |a| && a[i].key == b[0].key;
    if Less(b[0].key, a[0].key) {
      LessAsymmetric(b[0].key, a[0].key);
      LessAsymmetric(a[0].key, a[i].key);
    }
  }

  /* ---- Newest ---- */

  lemma {:induction false} NewestConcat(a: seq<Table>, b: seq<Table>, key: Key)
    ensures Newest(a + b, key) == if Newest(b, key).Some? then Newest(b, key) else Newest(a, key)
  {
    if b == [] {
      assert a + b == a;
    } else {
      var n := |b| - 1;
      assert (a + b)[|a + b| - 1] == b[n];
      assert (a + b)[..|a + b| - 1] == a + b[..n];
      NewestConcat(a, b[..n], key);
    }
  }

  lemma NewestOne(t: Table, key: Key)
    ensures Newest([t], key) == Find(t.entries, key)
  {
    assert [t][..0] == [];
  }

  lemma NewestOptional(t: Option<Table>, entries: seq<Entry>, key: Key)
    requires t.Some? ==> t.value.entries == entries
    requires t.None? ==> entries == []
    ensures Newest(match t case None => [] case Some(u) => [u], key) == Find(entries, key)
  {
    if t.Some? { NewestOne(t.value, key); }
  }

  lemma NewestThree(a: seq<Table>, b: seq<Table>, c: seq<Table>, key: Key)
    ensures Newest(a + b + c, key) ==
            if Newest(c, key).Some? then Newest(c, key)
            else if Newest(b, key).Some? then Newest(b, key)
            else Newest(a, key)
  {
    NewestConcat(a + b, c, key);
    NewestConcat(a, b, key);
  }

  /** Replacing an adjacent run by its merge changes no answer, provided
      tombstones are dropped only when the run starts at the oldest table. */
  lemma SpliceKeepsAnswers(tables: seq<Table>, start: nat, count: nat,
                           out: seq<Entry>, replacement: Option<Table>, key: Key)
    requires start + count <= |tables|
    requires IsMerge(tables[start..start + count], start == 0, out)
    requires replacement.Some? ==> replacement.value.entries == out
    requires replacement.None? ==> out == []
    ensures Lookup(Splice(tables, start, count, replacement), key) == Lookup(tables, key)
  {
    var pre, run, post := tables[..start], tables[start..start + count], tables[start + count..];
    var mid := match replacement case None => [] case Some(t) => [t];
    assert tables == pre + run + post;
    NewestThree(pre, run, post, key);
    NewestThree(pre, mid, post, key);
    NewestOptional(replacement, out, key);
  }

  /** A run whose merge is empty hides every key it mentions, and so does what
      is left of it once some of its oldest tables are gone. */
  lemma TombstoneSuffix(run: seq<Table>, from: nat, key: Key)
    requires from <= |run| && IsMerge(run, true, [])
    ensures Newest(run[from..], key) == None || Newest(run[from..], key) == Some(None)
  {
    assert run == run[..from] + run[from..];
    NewestConcat(run[..from], run[from..], key);
    assert Find([], key) == Kept(Newest(run, key), true);
  }

  /** Only a merge that drops tombstones can come out empty. */
  lemma MergeNonEmpty(run: seq<Table>, out: seq<Entry>)
    requires IsMerge(run, false, out)
    requires run != [] && run[|run| - 1].entries != []
    ensures out != []
  {
    var e := run[|run| - 1].entries[0];
    assert Find(run[|run| - 1].entries, e.key).Some?;
    assert Newest(run, e.key).Some?;
    assert Find(out, e.key) == Kept(Newest(run, e.key), false);
  }

  /* ---- Spans and the list a directory stands for ---- */

  type Files = map<Span, seq<Entry>>

  ghost predicate Ordered(tables: seq<Table>) {
    && (forall i :: 0 <= i < |tables| ==> tables[i].span.first <= tables[i].span.last)
    && (forall i, j :: 0 <= i < j < |tables| ==> tables[i].span.last < tables[j].span.first)
  }

  ghost predicate OnDisk(files: Files, tables: seq<Table>) {
    forall i :: 0 <= i < |tables| ==> tables[i].span in files && files[tables[i].span] == tables[i].entries
  }

  ghost predicate Covered(span: Span, tables: seq<Table>) {
    exists i :: 0 <= i < |tables| && Within(span, tables[i].span)
  }

  ghost predicate Listed(span: Span, tables: seq<Table>) {
    exists i :: 0 <= i < |tables| && tables[i].span == span
  }

  /** `stack` is the list that opening the directory `files` must produce. */
  ghost predicate IsStack(files: Files, stack: seq<Table>) {
    && Ordered(stack)
    && OnDisk(files, stack)
    && (forall s {:trigger Covered(s, stack)} :: s in files ==> s.first <= s.last && Covered(s, stack))
  }

  /** The test `open` makes: contained in the span of some other file. */
  predicate Superseded(span: Span, spans: set<Span>) {
    exists t :: t in spans && t != span && Within(span, t)
  }

  lemma SupersededIsUnlisted(files: Files, stack: seq<Table>, s: Span)
    requires IsStack(files, stack) && s in files
    ensures Superseded(s, files.Keys) <==> !Listed(s, stack)
  {
    assert Covered(s, stack);
    if Listed(s, stack) {
      var i :| 0 <= i < |stack| && stack[i].span == s;
      forall t | t in files && Within(s, t) ensures t == s {
        assert Covered(t, stack);
        var j :| 0 <= j < |stack| && Within(t, stack[j].span);
        assert i == j;
      }
    } else {
      var i :| 0 <= i < |stack| && Within(s, stack[i].span);
      assert stack[i].span in files && stack[i].span != s;
    }
  }

  /** Deleting a file that is not on the list does not change the list. */
  lemma DropKeepsStack(files: Files, stack: seq<Table>, s: Span)
    requires IsStack(files, stack) && !Listed(s, stack)
    ensures IsStack(files - {s}, stack)
  {
  }

  lemma StackFirstEqual(files: Files, a: seq<Table>, b: seq<Table>, i: nat)
    requires IsStack(files, a) && IsStack(files, b)
    requires i < |a| && i <= |b| && a[..i] == b[..i]
    ensures i < |b| && b[i].span.first <= a[i].span.first
  {
    var s := a[i].span;
    assert Listed(s, a);
    SupersededIsUnlisted(files, a, s);
    SupersededIsUnlisted(files, b, s);
    assert forall k :: 0 <= k < i ==> a[k] == a[..i][k] && b[k] == b[..i][k];
    var j :| 0 <= j < |b| && b[j].span == s;
  }

  lemma {:induction false} StackUniqueFrom(files: Files, a: seq<Table>, b: seq<Table>, i: nat)
    requires IsStack(files, a) && IsStack(files, b)
    requires i <= |a| && i <= |b| && a[..i] == b[..i]
    ensures a == b
    decreases |a| - i
  {
    if i < |a| {
      StackFirstEqual(files, a, b, i);
      StackFirstEqual(files, b, a, i);
      assert a[i].span in files && b[i].span in files;
      SupersededIsUnlisted(files, a, a[i].span);
      SupersededIsUnlisted(files, b, a[i].span);
      var j :| 0 <= j < |b| && b[j].span == a[i].span;
      assert j == i;
      assert a[..i + 1] == a[..i] + [a[i]] && b[..i + 1] == b[..i] + [b[i]];
      StackUniqueFrom(files, a, b, i + 1);
    } else if i < |b| {
      StackFirstEqual(files, b, a, i);
    }
  }

  /** A directory stands for at most one list. */
  lemma StackUnique(files: Files, a: seq<Table>, b: seq<Table>)
    requires IsStack(files, a) && IsStack(files, b)
    ensures a == b
  {
    StackUniqueFrom(files, a, b, 0);
  }

  /** `next_seq` after `open`: one past the largest last sequence number. */
  function SeqAfter(tables: seq<Table>): nat {
    if tables == [] then 0 else tables[|tables| - 1].span.last + 1
  }
}
