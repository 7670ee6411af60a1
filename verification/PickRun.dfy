/** Choosing what to compact: the table sizes are cut greedily into runs of
    comparable size, and the first run that is long enough is picked. */
module PickRun {
  import opened Bytes

  /** A table of size `a` is not too large to be merged with one of size `b`. */
  predicate AtMost(a: nat, b: nat, ratio: real) {
    a as real <= b as real * ratio
  }

  lemma AtMostMonotone(a: nat, b: nat, a': nat, b': nat, ratio: real)
    requires AtMost(a, b, ratio) && a' <= a && b <= b' && ratio >= 0.0
    ensures AtMost(a', b', ratio)
  {
    assert b as real * ratio <= b' as real * ratio;
  }

  /** Tables `from .. to` are of comparable size: none is larger than any other
      times the ratio. */
  ghost predicate Comparable(sizes: seq<nat>, ratio: real, from: nat, to: nat) {
    from <= to <= |sizes|
    && forall i, j :: from <= i < to && from <= j < to ==> AtMost(sizes[i], sizes[j], ratio)
  }

  function MinOf(s: seq<nat>): (m: nat)
    requires s != []
    ensures m in s && forall i :: 0 <= i < |s| ==> m <= s[i]
  {
    if |s| == 1 then s[0]
    else
      var m := MinOf(s[1..]);
      if s[0] < m then s[0] else m
  }

  function MaxOf(s: seq<nat>): (m: nat)
    requires s != []
    ensures m in s && forall i :: 0 <= i < |s| ==> s[i] <= m
  {
    if |s| == 1 then s[0]
    else
      var m := MaxOf(s[1..]);
      if s[0] > m then s[0] else m
  }

  /** The test the code makes: largest against smallest times the ratio. */
  predicate Fits(sizes: seq<nat>, ratio: real, from: nat, to: nat)
    requires from < to <= |sizes|
  {
    AtMost(MaxOf(sizes[from..to]), MinOf(sizes[from..to]), ratio)
  }

  lemma FitsIsComparable(sizes: seq<nat>, ratio: real, from: nat, to: nat)
    requires from < to <= |sizes| && ratio >= 0.0
    ensures Fits(sizes, ratio, from, to) <==> Comparable(sizes, ratio, from, to)
  {
    hide AtMost;
    var w := sizes[from..to];
    var lo, hi := MinOf(w), MaxOf(w);
    if Fits(sizes, ratio, from, to) {
      forall i, j | from <= i < to && from <= j < to ensures AtMost(sizes[i], sizes[j], ratio) {
        assert w[i - from] <= hi && lo <= w[j - from];
        AtMostMonotone(hi, lo, sizes[i], sizes[j], ratio);
      }
    }
    if Comparable(sizes, ratio, from, to) {
      var i :| 0 <= i < |w| && w[i] == hi;
      var j :| 0 <= j < |w| && w[j] == lo;
      assert sizes[from + i] == hi && sizes[from + j] == lo;
    }
  }

  /** Where the run that starts at `start` and has reached `end` stops growing. */
  function RunEnd(sizes: seq<nat>, ratio: real, start: nat, end: nat): (stop: nat)
    requires start < end <= |sizes|
    ensures end <= stop <= |sizes|
    decreases |sizes| - end
  {
    if end < |sizes| && Fits(sizes, ratio, start, end + 1) then RunEnd(sizes, ratio, start, end + 1) else end
  }

  lemma {:induction false} RunEndStops(sizes: seq<nat>, ratio: real, start: nat, end: nat)
    requires start < end <= |sizes| && ratio >= 0.0
    requires end > start + 1 ==> Comparable(sizes, ratio, start, end)
    ensures var stop := RunEnd(sizes, ratio, start, end);
            && (stop > start + 1 ==> Comparable(sizes, ratio, start, stop))
            && (stop < |sizes| ==> !Comparable(sizes, ratio, start, stop + 1))
    decreases |sizes| - end
  {
    hide AtMost, Fits;
    if end < |sizes| {
      FitsIsComparable(sizes, ratio, start, end + 1);
      if Fits(sizes, ratio, start, end + 1) { RunEndStops(sizes, ratio, start, end + 1); }
    }
  }

  /** The first greedy run from `start` on with at least `minRun` tables. */
  function PickFrom(sizes: seq<nat>, minRun: nat, ratio: real, start: nat): Option<(nat, nat)>
    requires start <= |sizes|
    decreases |sizes| - start
  {
    if start == |sizes| then None
    else
      var end := RunEnd(sizes, ratio, start, start + 1);
      if end - start >= minRun then Some((start, end - start)) else PickFrom(sizes, minRun, ratio, end)
  }

  /** The inner loop: extends the run while the next table still fits. */
  method Grow(sizes: seq<nat>, ratio: real, start: nat) returns (end: nat)
    requires start < |sizes|
    ensures end == RunEnd(sizes, ratio, start, start + 1)
  {
    hide MinOf, MaxOf, AtMost;
    end := start + 1;
    while end < |sizes|
      invariant start < end <= |sizes|
      invariant RunEnd(sizes, ratio, start, start + 1) == RunEnd(sizes, ratio, start, end)
    {
      var smallest := MinOf(sizes[start..end + 1]);
      var largest := MaxOf(sizes[start..end + 1]);
      if !AtMost(largest, smallest, ratio) {
        break;
      }
      end := end + 1;
    }
  }

  method Pick(sizes: seq<nat>, minRun: nat, ratio: real) returns (run: Option<(nat, nat)>)
    ensures run == PickFrom(sizes, minRun, ratio, 0)
  {
    hide RunEnd;
    var start := 0;
    while start < |sizes|
      invariant start <= |sizes| && PickFrom(sizes, minRun, ratio, 0) == PickFrom(sizes, minRun, ratio, start)
    {
      var end := Grow(sizes, ratio, start);
      if end - start >= minRun {
        return Some((start, end - start));
      }
      start := if end > start + 1 then end else start + 1;
    }
    return None;
  }

  /** A picked run is long enough, of comparable size, and cannot be extended
      with the next table. */
  lemma {:induction false} PickedRun(sizes: seq<nat>, minRun: nat, ratio: real, start: nat)
    requires start <= |sizes| && ratio >= 0.0
    ensures var run := PickFrom(sizes, minRun, ratio, start);
            run.Some? ==>
              var (first, count) := run.value;
              && first >= start && count >= minRun && 0 < count && first + count <= |sizes|
              && (count >= 2 ==> Comparable(sizes, ratio, first, first + count))
              && (first + count < |sizes| ==> !Comparable(sizes, ratio, first, first + count + 1))
    decreases |sizes| - start
  {
    hide AtMost, Fits, RunEnd;
    if start < |sizes| {
      RunEndStops(sizes, ratio, start, start + 1);
      PickedRun(sizes, minRun, ratio, RunEnd(sizes, ratio, start, start + 1));
    }
  }

  /** Tables `from .. to` are comparable, and would not be with the next one. */
  ghost predicate GreedyRun(sizes: seq<nat>, ratio: real, from: nat, to: nat) {
    && from < to <= |sizes| && (to > from + 1 ==> Comparable(sizes, ratio, from, to))
    && (to < |sizes| ==> !Comparable(sizes, ratio, from, to + 1))
  }

  /** Greedy runs one after another, from each cut to the next. */
  ghost predicate GreedyCuts(sizes: seq<nat>, ratio: real, cuts: seq<nat>) {
    cuts != [] && forall j :: 0 <= j < |cuts| - 1 ==> GreedyRun(sizes, ratio, cuts[j], cuts[j + 1])
  }

  /** The runs before the last one are too short. */
  predicate ShortBefore(cuts: seq<nat>, minRun: nat, last: int) {
    forall j :: 0 <= j < last && j < |cuts| - 1 ==> cuts[j + 1] - cuts[j] < minRun
  }

  /** What is picked is the first of the greedy runs that is long enough. */
  lemma {:induction false} FirstLongEnough(sizes: seq<nat>, minRun: nat, ratio: real, start: nat)
    returns (cuts: seq<nat>)
    requires start <= |sizes| && ratio >= 0.0
    ensures cuts != [] && cuts[0] == start && GreedyCuts(sizes, ratio, cuts)
    ensures PickFrom(sizes, minRun, ratio, start) == None ==>
              cuts[|cuts| - 1] == |sizes| && ShortBefore(cuts, minRun, |cuts| - 1)
    ensures PickFrom(sizes, minRun, ratio, start).Some? ==>
              && |cuts| >= 2 && ShortBefore(cuts, minRun, |cuts| - 2) && cuts[|cuts| - 1] - cuts[|cuts| - 2] >= minRun
              && PickFrom(sizes, minRun, ratio, start).value ==
                 (cuts[|cuts| - 2], cuts[|cuts| - 1] - cuts[|cuts| - 2])
    decreases |sizes| - start
  {
    hide AtMost, RunEnd, GreedyRun, GreedyCuts, ShortBefore;
    cuts := [start];
    NoCuts(sizes, minRun, ratio, start);
    if start < |sizes| {
      var end := RunEnd(sizes, ratio, start, start + 1);
      assert GreedyRun(sizes, ratio, start, end) by { RunEndIsGreedy(sizes, ratio, start); }
      var rest := [end];
      NoCuts(sizes, minRun, ratio, end);
      if end - start < minRun { rest := FirstLongEnough(sizes, minRun, ratio, end); }
      cuts := [start] + rest;
      var picked := PickFrom(sizes, minRun, ratio, end).Some? && end - start < minRun;
      MoreCuts(sizes, minRun, ratio, start, rest, if picked then |rest| - 2 else |rest| - 1);
    }
  }

  lemma RunEndIsGreedy(sizes: seq<nat>, ratio: real, start: nat)
    requires start < |sizes| && ratio >= 0.0
    ensures GreedyRun(sizes, ratio, start, RunEnd(sizes, ratio, start, start + 1))
  {
    hide RunEnd, Comparable;
    RunEndStops(sizes, ratio, start, start + 1);
  }

  lemma NoCuts(sizes: seq<nat>, minRun: nat, ratio: real, start: nat)
    ensures GreedyCuts(sizes, ratio, [start]) && ShortBefore([start], minRun, 0)
  {
  }

  lemma MoreCuts(sizes: seq<nat>, minRun: nat, ratio: real, start: nat, rest: seq<nat>, last: int)
    requires ShortBefore(rest, minRun, last)
    requires GreedyCuts(sizes, ratio, rest) && GreedyRun(sizes, ratio, start, rest[0])
    ensures GreedyCuts(sizes, ratio, [start] + rest)
    ensures rest[0] - start < minRun ==> ShortBefore([start] + rest, minRun, last + 1)
    ensures ShortBefore([start] + rest, minRun, 0)
  {
    hide GreedyRun;
    var cuts := [start] + rest;
    assert forall j :: 0 < j < |cuts| ==> cuts[j] == rest[j - 1];
  }

  /** When nothing is picked, no window of comparable tables has more than
      `2 * minRun - 3`: it cannot contain a whole greedy run together with the
      table after it, so it has at most the end of one and the start of the
      next. */
  lemma {:induction false} NothingPicked(sizes: seq<nat>, minRun: nat, ratio: real, start: nat, from: nat, to: nat)
    requires minRun >= 2 && ratio >= 0.0 && start <= from < to <= |sizes|
    requires PickFrom(sizes, minRun, ratio, start) == None
    requires Comparable(sizes, ratio, from, to)
    ensures to - from <= 2 * minRun - 3
    decreases |sizes| - start
  {
    hide AtMost, Fits, RunEnd;
    var end := RunEnd(sizes, ratio, start, start + 1);
    assert from == start && end < to ==> Comparable(sizes, ratio, start, end + 1);
    RunEndStops(sizes, ratio, start, start + 1);
    if from >= end {
      NothingPicked(sizes, minRun, ratio, end, from, to);
    } else if to > end {
      var next := RunEnd(sizes, ratio, end, end + 1);
      assert next < to ==> Comparable(sizes, ratio, end, next + 1);
      RunEndStops(sizes, ratio, end, end + 1);
      assert PickFrom(sizes, minRun, ratio, end) == None;
    }
  }

  /* ---- The oldest run that is long enough ---- */

  /** What is promised about `pick_run`: if some tables from `from` on are
      comparable and at least `minRun` in number, a run is picked, and it starts
      no later. */
  ghost predicate KeepsPromise(sizes: seq<nat>, minRun: nat, ratio: real) {
    forall from, to {:trigger Comparable(sizes, ratio, from, to)} ::
      0 <= from < to && Comparable(sizes, ratio, from, to) && to - from >= minRun ==>
        PickFrom(sizes, minRun, ratio, 0).Some? && PickFrom(sizes, minRun, ratio, 0).value.0 <= from
  }

  ghost predicate AllAtLeast(sizes: seq<nat>, least: nat) {
    forall i :: 0 <= i < |sizes| ==> sizes[i] >= least
  }

  /** At a ratio of at most 1 comparable tables are equally large, so tables that
      overlap a comparable run are comparable with all of it. */
  lemma EqualOverlap(sizes: seq<nat>, ratio: real, a: nat, b: nat, c: nat, d: nat)
    requires 0.0 <= ratio <= 1.0 && a <= c < b <= d
    requires Comparable(sizes, ratio, a, b) && Comparable(sizes, ratio, c, d)
    ensures Comparable(sizes, ratio, a, d)
  {
    hide AtMost;
    forall i, j | a <= i < d && a <= j < d ensures AtMost(sizes[i], sizes[j], ratio) {
      assert AtMost(sizes[c], sizes[c], ratio);
      SameSize(sizes, ratio, a, b, c, d, i);
      SameSize(sizes, ratio, a, b, c, d, j);
    }
  }

  lemma SameSize(sizes: seq<nat>, ratio: real, a: nat, b: nat, c: nat, d: nat, i: nat)
    requires 0.0 <= ratio <= 1.0 && a <= c < b <= d && a <= i < d
    requires Comparable(sizes, ratio, a, b) && Comparable(sizes, ratio, c, d)
    ensures sizes[i] == sizes[c]
  {
    hide AtMost;
    assert AtMost(sizes[i], sizes[c], ratio) && AtMost(sizes[c], sizes[i], ratio);
    NotLarger(sizes[i], sizes[c], ratio);
    NotLarger(sizes[c], sizes[i], ratio);
  }

  lemma NotLarger(a: nat, b: nat, ratio: real)
    requires 0.0 <= ratio <= 1.0 && AtMost(a, b, ratio)
    ensures a <= b
  {
    assert b as real * ratio <= b as real;
  }

  /** With `minRun` up to 2, or a ratio up to 1, a comparable window lies within
      one greedy run, or what of it does not is too short to matter. */
  lemma {:induction false} OldestFrom(sizes: seq<nat>, minRun: nat, ratio: real, start: nat, from: nat, to: nat)
    requires (minRun <= 2 || ratio <= 1.0) && ratio >= 0.0 && start <= from < to <= |sizes|
    requires Comparable(sizes, ratio, from, to) && to - from >= minRun
    ensures PickFrom(sizes, minRun, ratio, start).Some? && PickFrom(sizes, minRun, ratio, start).value.0 <= from
    decreases |sizes| - start
  {
    hide AtMost, Fits, RunEnd;
    var end := RunEnd(sizes, ratio, start, start + 1);
    RunEndStops(sizes, ratio, start, start + 1);
    if end - start < minRun {
      if from >= end {
        OldestFrom(sizes, minRun, ratio, end, from, to);
      } else if to > end {
        assert Comparable(sizes, ratio, from, end + 1);
        if from > start { EqualOverlap(sizes, ratio, start, end, from, end + 1); }
        assert false;
      }
    }
  }

  /** One table of size `a`, then `b`s, then `c`s. */
  function Staircase(minRun: nat, a: nat, b: nat, c: nat): seq<nat>
    requires minRun >= 2
  {
    seq(2 * minRun - 2, i => if i == 0 then a else if i < minRun - 1 then b else c)
  }

  /** The largest table comparable with one of size `a`. */
  function Largest(a: nat, ratio: real): (b: nat)
    requires ratio >= 1.0
    ensures a <= b && AtMost(b, a, ratio) && !AtMost(b + 1, a, ratio)
  {
    var b := (a as real * ratio).Floor;
    assert a as real <= a as real * ratio;
    b
  }

  /** A size of at least `least` from which two steps up are out of reach. */
  function Foot(ratio: real, least: nat): (a: nat)
    requires ratio > 1.0
    ensures a >= least && a as real * (ratio - 1.0) >= 2.0
  {
    var n := (2.0 / (ratio - 1.0)).Floor + 1;
    var a := if n > least then n else least;
    assert 2.0 / (ratio - 1.0) * (ratio - 1.0) == 2.0;
    ScaleUp(2.0 / (ratio - 1.0), a as real, ratio - 1.0);
    a
  }

  lemma ScaleUp(p: real, q: real, d: real)
    requires p <= q && d > 0.0
    ensures p * d <= q * d
  {
  }

  lemma TwoSteps(a: nat, b: nat, c: nat, ratio: real)
    requires ratio > 1.0 && a as real * (ratio - 1.0) >= 2.0
    requires b == Largest(a, ratio) && c == Largest(b, ratio)
    ensures !AtMost(c, a, ratio)
  {
    var x, y, z := a as real, b as real, c as real;
    assert y + 1.0 > x * ratio && z + 1.0 > y * ratio;
    StepsApart(x, y, z, ratio);
  }

  lemma StepsApart(x: real, y: real, z: real, ratio: real)
    requires ratio > 1.0 && x * (ratio - 1.0) >= 2.0
    requires y + 1.0 > x * ratio && z + 1.0 > y * ratio
    ensures z > x * ratio
  {
    var p := x * ratio;
    assert x * (ratio - 1.0) == p - x;
    ScaleUp(2.0, p - x, ratio);
    assert (p - x) * ratio == p * ratio - p;
    ScaleUp(p - 1.0, y, ratio);
    assert (p - 1.0) * ratio == p * ratio - ratio;
  }

  lemma {:induction false} RunEndIs(sizes: seq<nat>, ratio: real, start: nat, end: nat, stop: nat)
    requires start < end <= stop <= |sizes| && ratio >= 0.0
    requires stop > start + 1 ==> Comparable(sizes, ratio, start, stop)
    requires stop < |sizes| ==> !Comparable(sizes, ratio, start, stop + 1)
    ensures RunEnd(sizes, ratio, start, end) == stop
    decreases stop - end
  {
    hide AtMost, Fits;
    if end < |sizes| {
      FitsIsComparable(sizes, ratio, start, end + 1);
      if end < stop { RunEndIs(sizes, ratio, start, end + 1, stop); }
    }
  }

  predicate Alike(a: nat, b: nat, ratio: real) {
    AtMost(a, a, ratio) && AtMost(b, b, ratio) && AtMost(a, b, ratio) && AtMost(b, a, ratio)
  }

  /** `b` is comparable with `a` and with `c`, but `c` is too large for `a`. */
  predicate Steps(a: nat, b: nat, c: nat, ratio: real) {
    ratio >= 0.0 && Alike(a, b, ratio) && Alike(b, c, ratio) && !AtMost(c, a, ratio)
  }

  lemma LargestSteps(a: nat, ratio: real)
    requires ratio > 1.0 && a as real * (ratio - 1.0) >= 2.0
    ensures Steps(a, Largest(a, ratio), Largest(Largest(a, ratio), ratio), ratio)
  {
    hide AtMost;
    var b := Largest(a, ratio);
    var c := Largest(b, ratio);
    TwoSteps(a, b, c, ratio);
    AtMostSelf(a, ratio);
    AtMostSelf(b, ratio);
    AtMostSelf(c, ratio);
    AtMostMonotone(a, a, a, b, ratio);
    AtMostMonotone(b, b, b, c, ratio);
  }

  lemma AtMostSelf(a: nat, ratio: real)
    requires ratio >= 1.0
    ensures AtMost(a, a, ratio)
  {
  }

  lemma StaircaseMissed(minRun: nat, a: nat, b: nat, c: nat, ratio: real)
    requires minRun >= 3 && Steps(a, b, c, ratio)
    ensures PickFrom(Staircase(minRun, a, b, c), minRun, ratio, 0) == None
    ensures Comparable(Staircase(minRun, a, b, c), ratio, 1, 1 + (2 * minRun - 3))
  {
    hide AtMost, Fits, RunEnd;
    var sizes := Staircase(minRun, a, b, c);
    var half := minRun - 1;
    assert sizes[0] == a && sizes[half] == c;
    assert !Comparable(sizes, ratio, 0, half + 1);
    RunEndIs(sizes, ratio, 0, 1, half);
    RunEndIs(sizes, ratio, half, half + 1, 2 * half);
    assert PickFrom(sizes, minRun, ratio, 2 * half) == None;
    assert PickFrom(sizes, minRun, ratio, half) == None;
  }

  /** The bound of `NothingPicked` cannot be improved, for any `minRun` of at
      least 3, at any ratio above 1, however large all tables are: there are
      tables with a comparable window of exactly `2 * minRun - 3`, which is at
      least `minRun`, of which nothing is picked. */
  lemma BoundIsTight(minRun: nat, ratio: real, least: nat) returns (sizes: seq<nat>)
    requires minRun >= 3 && ratio > 1.0
    ensures AllAtLeast(sizes, least) && PickFrom(sizes, minRun, ratio, 0) == None
    ensures Comparable(sizes, ratio, 1, 1 + (2 * minRun - 3)) && 2 * minRun - 3 >= minRun
  {
    hide AtMost, PickFrom, Comparable;
    var a := Foot(ratio, least);
    var b := Largest(a, ratio);
    var c := Largest(b, ratio);
    LargestSteps(a, ratio);
    StaircaseMissed(minRun, a, b, c, ratio);
    sizes := Staircase(minRun, a, b, c);
  }

  /** The oldest run that is long enough is picked, whatever the tables, exactly
      when `minRun` is at most 2 or the ratio is at most 1. A lower bound on the
      size of all tables, such as the size of a file's fixed parts, changes
      nothing. */
  lemma PromiseKeptExactly(minRun: nat, ratio: real, least: nat)
    requires ratio >= 0.0
    ensures (forall sizes :: AllAtLeast(sizes, least) ==> KeepsPromise(sizes, minRun, ratio))
            <==> minRun <= 2 || ratio <= 1.0
  {
    hide AtMost, PickFrom;
    if minRun <= 2 || ratio <= 1.0 {
      forall sizes ensures KeepsPromise(sizes, minRun, ratio) {
        forall from, to | 0 <= from < to && Comparable(sizes, ratio, from, to) && to - from >= minRun
          ensures PickFrom(sizes, minRun, ratio, 0).Some? && PickFrom(sizes, minRun, ratio, 0).value.0 <= from
        {
          OldestFrom(sizes, minRun, ratio, 0, from, to);
        }
      }
    } else {
      var sizes := BoundIsTight(minRun, ratio, least);
      assert !KeepsPromise(sizes, minRun, ratio);
    }
  }

  ghost predicate ComparablePair(sizes: seq<nat>, ratio: real, i: nat) {
    Comparable(sizes, ratio, i, i + 2)
  }

  /** With `minRun == 2` the picked run starts at the oldest two neighbours of
      comparable size, and nothing is picked only if there are none. */
  lemma PairsAreNeverMissed(sizes: seq<nat>, ratio: real)
    requires ratio >= 0.0
    ensures PickFrom(sizes, 2, ratio, 0).Some? ==> ComparablePair(sizes, ratio, PickFrom(sizes, 2, ratio, 0).value.0)
    ensures forall i: nat :: ComparablePair(sizes, ratio, i) ==>
              PickFrom(sizes, 2, ratio, 0).Some? && PickFrom(sizes, 2, ratio, 0).value.0 <= i
  {
    hide AtMost, PickFrom;
    PickedRun(sizes, 2, ratio, 0);
    forall i: nat | ComparablePair(sizes, ratio, i)
      ensures PickFrom(sizes, 2, ratio, 0).Some? && PickFrom(sizes, 2, ratio, 0).value.0 <= i
    {
      OldestFrom(sizes, 2, ratio, 0, i, i + 2);
    }
  }
}
