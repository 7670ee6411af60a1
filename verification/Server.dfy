/** The DEL arm of the command dispatcher. */
module Server {
  import opened Bytes
  import opened Tables
  import opened Store
  import opened Wal
  import opened Disk
  import opened StoreImages
  import opened Db

  function KeySet(keys: seq<Key>): set<Key> {
    set k | k in keys
  }

  /** The listed keys that are present. */
  function Present(m: map<Key, Value>, keys: seq<Key>): set<Key> {
    set k | k in keys && k in m
  }

  lemma KeySetStep(keys: seq<Key>, i: nat)
    requires i < |keys|
    ensures KeySet(keys[..i + 1]) == KeySet(keys[..i]) + {keys[i]}
  {
    assert keys[..i + 1] == keys[..i] + [keys[i]];
  }

  lemma PresentStep(m: map<Key, Value>, keys: seq<Key>, i: nat)
    requires i < |keys|
    ensures Present(m, keys[..i + 1]) ==
            if keys[i] in m && keys[i] !in Present(m, keys[..i]) then Present(m, keys[..i]) + {keys[i]}
            else Present(m, keys[..i])
  {
    assert keys[..i + 1] == keys[..i] + [keys[i]];
  }

  lemma NoKeys(m: map<Key, Value>, keys: seq<Key>)
    ensures KeySet(keys[..0]) == {} && Present(m, keys[..0]) == {}
  {
  }

  /** After deleting the first `i` keys, the next one is found if and only if it is
      present and was not among them. */
  lemma StillThere(m: map<Key, Value>, keys: seq<Key>, i: nat)
    requires i < |keys|
    ensures Look(m - KeySet(keys[..i]), keys[i]).Some? <==> keys[i] in m && keys[i] !in Present(m, keys[..i])
  {
  }

  lemma DropOne(m: map<Key, Value>, keys: seq<Key>, i: nat)
    requires i < |keys|
    ensures m - KeySet(keys[..i]) - {keys[i]} == m - KeySet(keys[..i + 1])
    ensures Look(m - KeySet(keys[..i]), keys[i]).None? ==> m - KeySet(keys[..i]) == m - KeySet(keys[..i + 1])
  {
    KeySetStep(keys, i);
  }

  /** The image recovers to the map without the first few of the listed keys. */
  ghost predicate RecoversWithout(i: Image, crc: Checksum, m: map<Key, Value>, keys: seq<Key>) {
    exists n: nat :: n <= |keys| && Recoverable(i, crc, m - KeySet(keys[..n]))
  }

  ghost predicate AllRecoverWithout(images: seq<Image>, crc: Checksum, m: map<Key, Value>, keys: seq<Key>) {
    forall i :: 0 <= i < |images| ==> RecoversWithout(images[i], crc, m, keys)
  }

  lemma NoImages(crc: Checksum, m: map<Key, Value>, keys: seq<Key>)
    ensures AllRecoverWithout([], crc, m, keys)
  {
  }

  lemma MoreWithout(crc: Checksum, m: map<Key, Value>, keys: seq<Key>, n: nat,
                    a: seq<Image>, b: seq<Image>, images: seq<Image>)
    requires n < |keys| && images == a + b && AllRecoverWithout(a, crc, m, keys)
    requires EitherRecovers(b, crc, m - KeySet(keys[..n]), m - KeySet(keys[..n + 1]))
    ensures AllRecoverWithout(images, crc, m, keys)
  {
    hide Recoverable, KeySet;
    forall i | 0 <= i < |images| ensures RecoversWithout(images[i], crc, m, keys) {
      if i < |a| {
        assert images[i] == a[i];
      } else {
        assert images[i] == b[i - |a|];
      }
    }
  }

  /** The writes DEL makes: one delete for each listed key that is present, where it
      is listed first. */
  function Calls(m: map<Key, Value>, keys: seq<Key>): seq<Event> {
    if keys == [] then []
    else
      var n := |keys| - 1;
      Calls(m, keys[..n])
      + (if keys[n] in m && keys[n] !in keys[..n] then [Call(Store.Delete(keys[n])), Return] else [])
  }

  lemma CallsStep(m: map<Key, Value>, keys: seq<Key>, i: nat)
    requires i < |keys|
    ensures Calls(m, keys[..i + 1]) ==
            if Look(m - KeySet(keys[..i]), keys[i]).Some?
            then Calls(m, keys[..i]) + [Call(Store.Delete(keys[i])), Return]
            else Calls(m, keys[..i])
  {
    assert keys[..i + 1][..i] == keys[..i];
    assert Calls(m, keys[..i]) + [] == Calls(m, keys[..i]);
  }

  /** What has become of the store when the first `n` keys have been looked at: it
      has made these writes and no others, and if its log was intact, each image it
      has left on disk recovers to the map without the first few keys. */
  ghost predicate DeletedSoFar(crc: Checksum, b: Start, q: Point, keys: seq<Key>, n: nat) {
    && n <= |keys| && b.at.trace <= q.trace && Moves(crc, b.at, q, Calls(b.contents, keys[..n]))
    && (b.safe ==> AllRecoverWithout(q.trace[|b.at.trace|..], crc, b.contents, keys))
  }

  lemma NothingDeleted(crc: Checksum, b: Start, keys: seq<Key>)
    ensures DeletedSoFar(crc, b, b.at, keys, 0)
  {
    hide Moves, AllRecoverWithout;
    MovesNowhere(crc, b.at);
    NoImages(crc, b.contents, keys);
    assert b.at.trace[|b.at.trace|..] == [];
  }

  lemma KeySkipped(crc: Checksum, b: Start, q: Point, keys: seq<Key>, i: nat)
    requires i < |keys| && DeletedSoFar(crc, b, q, keys, i) && Look(b.contents - KeySet(keys[..i]), keys[i]).None?
    ensures DeletedSoFar(crc, b, q, keys, i + 1)
  {
    hide Moves, AllRecoverWithout, Calls, KeySet;
    CallsStep(b.contents, keys, i);
  }

  lemma KeyDeleted(c: Setup, b: Start, a: Start, q: Point, keys: seq<Key>, i: nat, r: Result<()>, w: View)
    requires i < |keys| && DeletedSoFar(c.crc, b, a.at, keys, i) && Look(a.contents, keys[i]).Some?
    requires a.contents == b.contents - KeySet(keys[..i]) && (b.safe ==> a.safe)
    requires Outcome(c, a, Store.Delete(keys[i]), r, q, b.contents - KeySet(keys[..i + 1]), w)
    ensures DeletedSoFar(c.crc, b, q, keys, i + 1)
    ensures r.Err? ==> r == Err(TooLarge) && w.size > c.tableSize && CannotFlush(c, w.mem)
  {
    hide Moves, AllRecoverWithout, Calls, KeySet, Outcome, EitherRecovers, CannotFlush;
    var crc, m := c.crc, b.contents;
    OutcomeMeans(c, a, Store.Delete(keys[i]), r, q, m - KeySet(keys[..i + 1]), w);
    CallsStep(m, keys, i);
    MovesOn(crc, b.at, a.at, q, Calls(m, keys[..i]), [Call(Store.Delete(keys[i])), Return]);
    var n, k := |b.at.trace|, |a.at.trace|;
    assert q.trace[n..] == a.at.trace[n..] + q.trace[k..];
    if b.safe { MoreWithout(crc, m, keys, i, a.at.trace[n..], q.trace[k..], q.trace[n..]); }
  }

  /** Keys are looked up one at a time, and only those found are deleted and
      counted: a key listed twice counts once, and an absent one writes nothing.
      Whatever flushes happen on the way, the listed keys are gone and nothing
      else has changed. A flush that fails, because its table gets too large,
      stops the loop after a key that has been deleted, and a crash leaves the map
      without the first few of the listed keys. */
  method Del(db: Database, keys: seq<Key>) returns (r: Result<nat>)
    requires db.Usable() && forall i :: 0 <= i < |keys| ==> FitsFrame(Store.Delete(keys[i]))
    modifies db, db.disk, db.tables
    ensures db.Usable() && (old(db.Protected()) ==> db.Protected())
    ensures match r
            case Ok(removed) =>
              && removed == |Present(old(db.contents), keys)|
              && db.contents == old(db.contents) - KeySet(keys)
              && DeletedSoFar(db.wal.crc, old(db.Before()), Here(db.disk, db.state), keys, |keys|)
            case Err(e) =>
              && e == TooLarge && db.size > db.tableSize && CannotFlush(db.Config(), db.mem)
              && exists i :: 0 <= i < |keys| && StoppedAfter(old(db.contents), keys, i, db.contents)
                             && DeletedSoFar(db.wal.crc, old(db.Before()), Here(db.disk, db.state), keys, i + 1)
  {
    hide FitsFrame, KeySet, Present, Look, Database.Usable, Database.Protected, Outcome, CannotFlush, DeletedSoFar;
    var removed := 0;
    ghost var b, c := db.Before(), db.Config();
    NoKeys(b.contents, keys);
    NothingDeleted(c.crc, b, keys);
    for i := 0 to |keys|
      invariant db.Usable() && (old(db.Protected()) ==> db.Protected()) && db.contents == b.contents - KeySet(keys[..i])
      invariant removed == |Present(b.contents, keys[..i])|
      invariant DeletedSoFar(c.crc, b, Here(db.disk, db.state), keys, i)
    {
      StillThere(b.contents, keys, i);
      PresentStep(b.contents, keys, i);
      DropOne(b.contents, keys, i);
      var value := db.Get(keys[i]);
      if value.value.Some? {
        ghost var a := db.Before();
        var deleted := db.Delete(keys[i]);
        KeyDeleted(c, b, a, Here(db.disk, db.state), keys, i, deleted, db.Held());
        if deleted.Err? {
          assert StoppedAfter(b.contents, keys, i, db.contents);
          return Err(deleted.error);
        }
        removed := removed + 1;
      } else {
        KeySkipped(c.crc, b, Here(db.disk, db.state), keys, i);
      }
    }
    assert keys[..|keys|] == keys;
    return Ok(removed);
  }

  /** The last key looked at was there, and it and those before it are gone. */
  predicate StoppedAfter(m: map<Key, Value>, keys: seq<Key>, i: nat, left: map<Key, Value>)
    requires i < |keys|
  {
    keys[i] in m && left == m - KeySet(keys[..i + 1])
  }
}
