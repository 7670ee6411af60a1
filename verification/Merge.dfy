/** The k-way merge of a compaction: every stream has a cursor, and each round
    takes the smallest key under any cursor, with the value of the last stream
    that is at that key. */
module Merge {
  import opened Bytes
  import opened Tables

  ghost predicate AllSorted(tables: seq<Table>) {
    forall i :: 0 <= i < |tables| ==> Sorted(tables[i].entries)
  }

  predicate Cursors(tables: seq<Table>, pos: seq<nat>) {
    |pos| == |tables| && forall i :: 0 <= i < |pos| ==> pos[i] <= |tables[i].entries|
  }

  /** Cursor `i` has not reached the end of its stream. */
  predicate HasHead(tables: seq<Table>, pos: seq<nat>, i: nat)
    requires Cursors(tables, pos) && i < |tables|
  {
    pos[i] < |tables[i].entries|
  }

  function Head(tables: seq<Table>, pos: seq<nat>, i: nat): Entry
    requires Cursors(tables, pos) && i < |tables| && HasHead(tables, pos, i)
  {
    tables[i].entries[pos[i]]
  }

  predicate AtKey(tables: seq<Table>, pos: seq<nat>, i: nat, key: Key)
    requires Cursors(tables, pos) && i < |tables|
  {
    HasHead(tables, pos, i) && Head(tables, pos, i).key == key
  }

  /** The newest record of `key` behind the cursors of the first `n` streams. */
  ghost function Behind(tables: seq<Table>, pos: seq<nat>, n: nat, key: Key): Found
    requires Cursors(tables, pos) && n <= |tables|
  {
    if n == 0 then None
    else
      var found := Find(tables[n - 1].entries[..pos[n - 1]], key);
      if found.Some? then found else Behind(tables, pos, n - 1, key)
  }

  /** The newest record of `key` under the cursors of the first `n` streams. */
  ghost function Under(tables: seq<Table>, pos: seq<nat>, n: nat, key: Key): Found
    requires Cursors(tables, pos) && n <= |tables|
  {
    if n == 0 then None
    else if AtKey(tables, pos, n - 1, key) then Some(Head(tables, pos, n - 1).value)
    else Under(tables, pos, n - 1, key)
  }

  /** `next` is `pos` with the first `n` cursors that are at `key` moved on. */
  ghost predicate Advanced(tables: seq<Table>, pos: seq<nat>, next: seq<nat>, n: nat, key: Key)
    requires Cursors(tables, pos) && n <= |tables|
  {
    && |next| == |pos|
    && forall i :: 0 <= i < |pos| ==>
         next[i] == if i < n && AtKey(tables, pos, i, key) then pos[i] + 1 else pos[i]
  }

  /** Everything up to `low`, and nothing else, is behind the cursors. */
  ghost predicate SplitAt(tables: seq<Table>, pos: seq<nat>, low: Option<Key>)
    requires Cursors(tables, pos)
  {
    match low
    case None => forall i :: 0 <= i < |pos| ==> pos[i] == 0
    case Some(l) =>
      && (forall i, j :: 0 <= i < |pos| && 0 <= j < pos[i] ==> UpTo(tables[i].entries[j].key, l))
      && (forall i :: 0 <= i < |pos| && HasHead(tables, pos, i) ==> Less(l, Head(tables, pos, i).key))
  }

  lemma {:induction false} AllBehind(tables: seq<Table>, pos: seq<nat>, n: nat, key: Key)
    requires Cursors(tables, pos) && n <= |tables|
    requires forall i :: 0 <= i < |pos| ==> pos[i] == |tables[i].entries|
    ensures Behind(tables, pos, n, key) == Newest(tables[..n], key)
  {
    if n != 0 {
      AllBehind(tables, pos, n - 1, key);
      assert tables[..n][..n - 1] == tables[..n - 1];
      assert tables[n - 1].entries[..pos[n - 1]] == tables[n - 1].entries;
    }
  }

  lemma {:induction false} NoneBehind(tables: seq<Table>, pos: seq<nat>, n: nat, key: Key)
    requires Cursors(tables, pos) && n <= |tables|
    requires forall i :: 0 <= i < |pos| ==> pos[i] == 0
    ensures Behind(tables, pos, n, key) == None
  {
    if n != 0 {
      NoneBehind(tables, pos, n - 1, key);
    }
  }

  /** A key that is not up to `low` is not behind any cursor. */
  lemma NotBehindOne(tables: seq<Table>, pos: seq<nat>, low: Option<Key>, i: nat, key: Key)
    requires Cursors(tables, pos) && i < |tables| && SplitAt(tables, pos, low)
    requires low.Some? ==> Less(low.value, key)
    ensures Find(tables[i].entries[..pos[i]], key) == None
  {
    FindSome(tables[i].entries[..pos[i]], key);
    if j :| 0 <= j < pos[i] && tables[i].entries[..pos[i]][j].key == key {
      assert UpTo(tables[i].entries[j].key, low.value);
      LessAsymmetric(low.value, key);
    }
  }

  /** Moving on every cursor that is at `key` changes the record behind the
      cursors for that key only. */
  lemma {:induction false} BehindAdvanced(tables: seq<Table>, pos: seq<nat>, next: seq<nat>, low: Option<Key>,
                                          key: Key, n: nat, k: Key)
    requires Cursors(tables, pos) && Cursors(tables, next) && n <= |tables|
    requires SplitAt(tables, pos, low) && (low.Some? ==> Less(low.value, key))
    requires Advanced(tables, pos, next, |tables|, key)
    ensures Behind(tables, next, n, k) ==
            if k == key then Under(tables, pos, n, key) else Behind(tables, pos, n, k)
  {
    if n != 0 {
      var i := n - 1;
      BehindAdvanced(tables, pos, next, low, key, i, k);
      NotBehindOne(tables, pos, low, i, key);
      if AtKey(tables, pos, i, key) {
        assert tables[i].entries[..next[i]] == tables[i].entries[..pos[i]] + [Head(tables, pos, i)];
        FindConcat(tables[i].entries[..pos[i]], [Head(tables, pos, i)], k);
      }
    }
  }

  lemma UpToBelow(a: Key, l: Key, key: Key)
    requires UpTo(a, l) && Less(l, key)
    ensures UpTo(a, key)
  {
    if a != l { LessTransitive(a, l, key); }
  }

  /** Once the cursors at the smallest head have moved on, they split at it. */
  lemma SplitAdvanced(tables: seq<Table>, pos: seq<nat>, next: seq<nat>, low: Option<Key>, key: Key)
    requires AllSorted(tables) && Cursors(tables, pos) && Cursors(tables, next)
    requires SplitAt(tables, pos, low) && (low.Some? ==> Less(low.value, key))
    requires Advanced(tables, pos, next, |tables|, key)
    requires forall i :: 0 <= i < |tables| && HasHead(tables, pos, i) ==> !Less(Head(tables, pos, i).key, key)
    ensures SplitAt(tables, next, Some(key))
  {
    forall i, j | 0 <= i < |next| && 0 <= j < next[i] ensures UpTo(tables[i].entries[j].key, key) {
      if j < pos[i] {
        UpToBelow(tables[i].entries[j].key, low.value, key);
      }
    }
    forall i | 0 <= i < |next| && HasHead(tables, next, i) ensures Less(key, Head(tables, next, i).key) {
      if AtKey(tables, pos, i, key) {
        assert next[i] == pos[i] + 1;
      } else {
        LessTotal(key, Head(tables, pos, i).key);
      }
    }
  }

  lemma AppendSorted(merged: seq<Entry>, e: Entry, low: Option<Key>)
    requires Sorted(merged) && (low.None? ==> merged == [])
    requires low.Some? ==> Less(low.value, e.key)
    requires forall m :: 0 <= m < |merged| ==> UpTo(merged[m].key, low.value)
    ensures Sorted(merged + [e])
    ensures forall m :: 0 <= m < |merged + [e]| ==> UpTo((merged + [e])[m].key, e.key)
  {
    forall m | 0 <= m < |merged| ensures Less(merged[m].key, e.key) {
      if merged[m].key != low.value { LessTransitive(merged[m].key, low.value, e.key); }
    }
  }

  /** What the cursors have passed is what has been written out. */
  ghost predicate WrittenOut(tables: seq<Table>, pos: seq<nat>, dropTombstones: bool, merged: seq<Entry>)
    requires Cursors(tables, pos)
  {
    forall k :: Find(merged, k) == Kept(Behind(tables, pos, |tables|, k), dropTombstones)
  }

  lemma WrittenAdvanced(tables: seq<Table>, pos: seq<nat>, next: seq<nat>, low: Option<Key>, key: Key,
                        dropTombstones: bool, merged: seq<Entry>, value: Option<Value>)
    requires Cursors(tables, pos) && Cursors(tables, next)
    requires SplitAt(tables, pos, low) && (low.Some? ==> Less(low.value, key))
    requires Advanced(tables, pos, next, |tables|, key)
    requires WrittenOut(tables, pos, dropTombstones, merged)
    requires Under(tables, pos, |tables|, key) == Some(value)
    ensures WrittenOut(tables, next, dropTombstones,
                       if value.None? && dropTombstones then merged else merged + [Entry(key, value)])
  {
    var out := if value.None? && dropTombstones then merged else merged + [Entry(key, value)];
    forall k ensures Find(out, k) == Kept(Behind(tables, next, |tables|, k), dropTombstones) {
      BehindAdvanced(tables, pos, next, low, key, |tables|, k);
      FindConcat(merged, [Entry(key, value)], k);
      NotBehind(tables, pos, low, |tables|, key);
    }
  }

  lemma {:induction false} NotBehind(tables: seq<Table>, pos: seq<nat>, low: Option<Key>, n: nat, key: Key)
    requires Cursors(tables, pos) && n <= |tables| && SplitAt(tables, pos, low)
    requires low.Some? ==> Less(low.value, key)
    ensures Behind(tables, pos, n, key) == None
  {
    if n != 0 {
      NotBehind(tables, pos, low, n - 1, key);
      NotBehindOne(tables, pos, low, n - 1, key);
    }
  }

  ghost function Remaining(tables: seq<Table>, pos: seq<nat>, n: nat): nat
    requires Cursors(tables, pos) && n <= |tables|
  {
    if n == 0 then 0 else |tables[n - 1].entries| - pos[n - 1] + Remaining(tables, pos, n - 1)
  }

  lemma {:induction false} RemainingLess(tables: seq<Table>, pos: seq<nat>, next: seq<nat>, key: Key, n: nat)
    requires Cursors(tables, pos) && Cursors(tables, next) && n <= |tables|
    requires Advanced(tables, pos, next, |tables|, key)
    ensures Remaining(tables, next, n) <= Remaining(tables, pos, n)
    ensures Under(tables, pos, n, key).Some? ==> Remaining(tables, next, n) < Remaining(tables, pos, n)
  {
    if n != 0 { RemainingLess(tables, pos, next, key, n - 1); }
  }

  /** The smallest key under any cursor. */
  method Smallest(tables: seq<Table>, pos: seq<nat>) returns (smallest: Option<Key>)
    requires Cursors(tables, pos)
    ensures smallest.None? <==> forall i :: 0 <= i < |tables| ==> !HasHead(tables, pos, i)
    ensures smallest.Some? ==> Under(tables, pos, |tables|, smallest.value).Some?
    ensures smallest.Some? ==> exists i :: 0 <= i < |tables| && AtKey(tables, pos, i, smallest.value)
    ensures smallest.Some? ==>
              forall i :: 0 <= i < |tables| && HasHead(tables, pos, i) ==>
                !Less(Head(tables, pos, i).key, smallest.value)
  {
    smallest := None;
    for n := 0 to |tables|
      invariant smallest.None? <==> forall i :: 0 <= i < n ==> !HasHead(tables, pos, i)
      invariant smallest.Some? ==> Under(tables, pos, n, smallest.value).Some?
      invariant smallest.Some? ==> exists i :: 0 <= i < n && AtKey(tables, pos, i, smallest.value)
      invariant smallest.Some? ==>
                  forall i :: 0 <= i < n && HasHead(tables, pos, i) ==>
                    !Less(Head(tables, pos, i).key, smallest.value)
    {
      if HasHead(tables, pos, n) {
        var key := Head(tables, pos, n).key;
        if smallest.None? || Less(key, smallest.value) {
          forall i | 0 <= i <= n && HasHead(tables, pos, i) ensures !Less(Head(tables, pos, i).key, key) {
            if i < n {
              if Less(Head(tables, pos, i).key, key) {
                LessTransitive(Head(tables, pos, i).key, key, smallest.value);
              }
            } else if Less(key, key) {
              LessAsymmetric(key, key);
            }
          }
          assert AtKey(tables, pos, n, key);
          smallest := Some(key);
        }
      }
    }
  }

  /** Takes `key` from every stream that is at it; the last one's value wins. */
  method TakeKey(tables: seq<Table>, pos: seq<nat>, key: Key) returns (next: seq<nat>, newest: Found)
    requires Cursors(tables, pos)
    ensures Cursors(tables, next) && Advanced(tables, pos, next, |tables|, key)
    ensures newest == Under(tables, pos, |tables|, key)
  {
    next := pos;
    newest := None;
    for n := 0 to |tables|
      invariant Cursors(tables, next) && Advanced(tables, pos, next, n, key)
      invariant newest == Under(tables, pos, n, key)
    {
      if HasHead(tables, next, n) && Head(tables, next, n).key == key {
        newest := Some(Head(tables, next, n).value);
        next := next[n := next[n] + 1];
      }
    }
  }

  /** Tables arrive oldest first. The result is sorted, and holds for each key
      of any table the record of the newest table that has one, less the keys
      whose newest record is a tombstone if those are to be dropped. */
  method MergeTables(tables: seq<Table>, dropTombstones: bool) returns (merged: seq<Entry>)
    requires AllSorted(tables)
    ensures IsMerge(tables, dropTombstones, merged)
  {
    var pos: seq<nat> := seq(|tables|, _ => 0);
    merged := [];
    ghost var low: Option<Key> := None;
    forall k ensures Behind(tables, pos, |tables|, k) == None {
      NoneBehind(tables, pos, |tables|, k);
    }
    while true
      invariant Cursors(tables, pos) && SplitAt(tables, pos, low)
      invariant Sorted(merged) && (low.None? ==> merged == [])
      invariant low.Some? ==> forall m :: 0 <= m < |merged| ==> UpTo(merged[m].key, low.value)
      invariant WrittenOut(tables, pos, dropTombstones, merged)
      decreases Remaining(tables, pos, |tables|)
    {
      var smallest := Smallest(tables, pos);
      if smallest.None? {
        forall i | 0 <= i < |pos| ensures pos[i] == |tables[i].entries| {
          assert !HasHead(tables, pos, i);
        }
        forall k ensures Behind(tables, pos, |tables|, k) == Newest(tables, k) {
          AllBehind(tables, pos, |tables|, k);
          assert tables[..|tables|] == tables;
        }
        return;
      }
      var key := smallest.value;
      var next, newest := TakeKey(tables, pos, key);
      WrittenAdvanced(tables, pos, next, low, key, dropTombstones, merged, newest.value);
      SplitAdvanced(tables, pos, next, low, key);
      RemainingLess(tables, pos, next, key, |tables|);
      AppendSorted(merged, Entry(key, newest.value), low);
      if low.Some? {
        forall m | 0 <= m < |merged| ensures UpTo(merged[m].key, key) {
          UpToBelow(merged[m].key, low.value, key);
        }
      }
      if !(newest.value.None? && dropTombstones) {
        merged := merged + [Entry(key, newest.value)];
      }
      pos := next;
      low := Some(key);
    }
  }

  /** A merge's contract leaves no freedom: it has exactly one result. */
  lemma MergeUnique(run: seq<Table>, dropTombstones: bool, a: seq<Entry>, b: seq<Entry>)
    requires IsMerge(run, dropTombstones, a) && IsMerge(run, dropTombstones, b)
    ensures a == b
  {
    assert forall k :: Find(a, k) == Find(b, k);
    SortedUnique(a, b);
  }
}
