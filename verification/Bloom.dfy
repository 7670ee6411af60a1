/** The bloom filter: an array of 64-bit words, probed by double hashing. */
module Bloom {
  import opened Bits
  import opened Bytes

  /** The filter as a value: what is written to a table file. */
  datatype Filter = Filter(words: seq<bv64>, numBits: nat, numProbes: nat)

  /** A filter that can be probed: the divisor is not zero and every bit has a
      word. */
  predicate Usable(f: Filter) {
    0 < f.numBits <= 64 * |f.words|
  }

  /* ---- Words ---- */

  predicate BitOf(w: bv64, s: bv8)
    requires s < 64
  {
    (w >> s) & 1 == 1
  }

  function WithBit(w: bv64, s: bv8): bv64
    requires s < 64
  {
    w | ((1 as bv64) << s)
  }

  lemma WithBitOf(w: bv64, s: bv8, t: bv8)
    requires s < 64 && t < 64
    ensures BitOf(WithBit(w, s), t) <==> s == t || BitOf(w, t)
  {
  }

  lemma NoBits(s: bv8)
    requires s < 64
    ensures !BitOf(0, s)
  {
  }

  /** A bit's place in its word. */
  function Shift(bit: nat): (s: bv8)
    ensures s < 64
  {
    hide Narrow;
    BelowSixtyFour(Narrow(bit % 64));
    Narrow(bit % 64)
  }

  lemma ShiftInjective(a: nat, b: nat)
    requires Shift(a) == Shift(b)
    ensures a % 64 == b % 64
  {
    hide Narrow;
  }

  predicate IsSet(words: seq<bv64>, bit: nat)
    requires bit < 64 * |words|
  {
    BitOf(words[bit / 64], Shift(bit))
  }

  function SetBit(words: seq<bv64>, bit: nat): (r: seq<bv64>)
    requires bit < 64 * |words|
    ensures |r| == |words|
  {
    words[bit / 64 := WithBit(words[bit / 64], Shift(bit))]
  }

  /** Setting a bit sets that bit and no other. */
  lemma SetBitExact(words: seq<bv64>, bit: nat, other: nat)
    requires bit < 64 * |words| && other < 64 * |words|
    ensures IsSet(SetBit(words, bit), other) <==> other == bit || IsSet(words, other)
  {
    hide BitOf, WithBit, Shift;
    WithBitOf(words[bit / 64], Shift(bit), Shift(other));
    if Shift(bit) == Shift(other) { ShiftInjective(bit, other); }
  }

  /* ---- Probing ---- */

  function Low(hash: bv64): (r: nat)
    ensures r < U32
  {
    hash as int % U32
  }

  function High(hash: bv64): (r: nat)
    ensures r < U32
  {
    hash as int / U32 % U32
  }

  /** `n | 1` on 32 bits. */
  function WithLowBit(n: nat): (r: nat)
    requires n < U32
    ensures r < U32 && r % 2 == 1
  {
    if n % 2 == 0 then n + 1 else n
  }

  function Stride(hash: bv64): (r: nat)
    ensures r < U32
  {
    WithLowBit(High(hash))
  }

  lemma TimesAtMost(a: nat, b: nat, n: nat)
    requires a <= b
    ensures a * n <= b * n
  {
  }

  function Probe(f: Filter, hash: bv64, i: nat): (bit: nat)
    requires f.numBits > 0
    ensures bit < f.numBits
  {
    (Low(hash) + i * Stride(hash)) % f.numBits
  }

  /** Probe `i` is the low half of the hash plus `i` times its high half with the
      lowest bit set, which before the modulus fits easily in 64 bits. */
  lemma ProbeFits(f: Filter, hash: bv64, i: nat)
    requires f.numBits > 0 && i < 30
    ensures var low, high := hash as int % 0x1_0000_0000, hash as int / 0x1_0000_0000;
            var sum := low + i * (high / 2 * 2 + 1);
            high < 0x1_0000_0000 && sum < 0x20_0000_0000 && Probe(f, hash, i) == sum % f.numBits
  {
    hide Low, High;
    HalvesOf(hash);
    TimesAtMost(i, 29, Stride(hash));
  }

  lemma HalvesOf(hash: bv64)
    ensures hash as int / 0x1_0000_0000 < 0x1_0000_0000
    ensures Low(hash) == hash as int % 0x1_0000_0000 && High(hash) == hash as int / 0x1_0000_0000
  {
    assert hash as int < U64;
  }

  predicate Contains(f: Filter, hash: bv64)
    requires Usable(f)
  {
    forall i :: 0 <= i < f.numProbes ==> IsSet(f.words, Probe(f, hash, i))
  }

  /** `contains` on any filter, from probe `i` on: it stops at the first bit that
      is not set, and panics at a probe that cannot be made before that. */
  function Test(f: Filter, hash: bv64, i: nat): Result<bool>
    requires i <= f.numProbes
    decreases f.numProbes - i
  {
    if i == f.numProbes then Ok(true)
    else if f.numBits == 0 then Err(Panic)
    else
      var bit := Probe(f, hash, i);
      if bit / 64 >= |f.words| then Err(Panic)
      else if !IsSet(f.words, bit) then Ok(false)
      else Test(f, hash, i + 1)
  }

  /** On a usable filter it never panics, and says whether every probed bit is set. */
  lemma {:induction false} TestIsContains(f: Filter, hash: bv64, i: nat)
    requires Usable(f) && i <= f.numProbes
    requires forall j :: 0 <= j < i ==> IsSet(f.words, Probe(f, hash, j))
    ensures Test(f, hash, i) == Ok(Contains(f, hash))
    decreases f.numProbes - i
  {
    hide IsSet, Probe;
    if i < f.numProbes && IsSet(f.words, Probe(f, hash, i)) {
      TestIsContains(f, hash, i + 1);
    }
  }

  /** `bit` is one of the first `n` probes of `hash`. */
  predicate Probed(f: Filter, hash: bv64, n: nat, bit: nat)
    requires f.numBits > 0
  {
    exists i :: 0 <= i < n && Probe(f, hash, i) == bit
  }

  function InsertFirst(f: Filter, hash: bv64, n: nat): (r: Filter)
    requires Usable(f)
    ensures |r.words| == |f.words| && r.numBits == f.numBits && r.numProbes == f.numProbes
  {
    if n == 0 then f
    else
      var g := InsertFirst(f, hash, n - 1);
      g.(words := SetBit(g.words, Probe(f, hash, n - 1)))
  }

  function Insert(f: Filter, hash: bv64): (r: Filter)
    requires Usable(f)
    ensures |r.words| == |f.words| && r.numBits == f.numBits && r.numProbes == f.numProbes
  {
    InsertFirst(f, hash, f.numProbes)
  }

  lemma {:induction false} InsertFirstExact(f: Filter, hash: bv64, n: nat, bit: nat)
    requires Usable(f) && bit < f.numBits
    ensures IsSet(InsertFirst(f, hash, n).words, bit) <==> IsSet(f.words, bit) || Probed(f, hash, n, bit)
  {
    hide IsSet, SetBit, Probe;
    if n != 0 {
      var g := InsertFirst(f, hash, n - 1);
      InsertFirstExact(f, hash, n - 1, bit);
      SetBitExact(g.words, Probe(f, hash, n - 1), bit);
    }
  }

  /** Inserting sets exactly the bits that the hash probes. */
  lemma InsertExact(f: Filter, hash: bv64, bit: nat)
    requires Usable(f) && bit < f.numBits
    ensures IsSet(Insert(f, hash).words, bit) <==> IsSet(f.words, bit) || Probed(f, hash, f.numProbes, bit)
  {
    InsertFirstExact(f, hash, f.numProbes, bit);
  }

  lemma InsertContains(f: Filter, hash: bv64)
    requires Usable(f)
    ensures Contains(Insert(f, hash), hash)
  {
    hide IsSet, Probe, InsertFirst;
    var g := Insert(f, hash);
    forall i | 0 <= i < g.numProbes ensures IsSet(g.words, Probe(g, hash, i)) {
      SameProbe(f, g, hash, i);
      InsertExact(f, hash, Probe(f, hash, i));
    }
  }

  lemma InsertKeeps(f: Filter, hash: bv64, old_: bv64)
    requires Usable(f) && Contains(f, old_)
    ensures Contains(Insert(f, hash), old_)
  {
    hide IsSet, Probe, InsertFirst;
    var g := Insert(f, hash);
    forall i | 0 <= i < g.numProbes ensures IsSet(g.words, Probe(g, old_, i)) {
      SameProbe(f, g, old_, i);
      InsertExact(f, hash, Probe(f, old_, i));
    }
  }

  lemma SameProbe(f: Filter, g: Filter, hash: bv64, i: nat)
    requires f.numBits == g.numBits > 0
    ensures Probe(f, hash, i) == Probe(g, hash, i)
  {
  }

  function InsertAll(f: Filter, hashes: seq<bv64>): (r: Filter)
    requires Usable(f)
    ensures |r.words| == |f.words| && r.numBits == f.numBits && r.numProbes == f.numProbes
  {
    if hashes == [] then f else Insert(InsertAll(f, hashes[..|hashes| - 1]), hashes[|hashes| - 1])
  }

  /** No false negatives: whatever was inserted is contained. */
  lemma {:induction false} NoFalseNegatives(f: Filter, hashes: seq<bv64>, i: nat)
    requires Usable(f) && i < |hashes|
    ensures Contains(InsertAll(f, hashes), hashes[i])
  {
    hide Contains, Insert;
    var n := |hashes| - 1;
    if i == n {
      InsertContains(InsertAll(f, hashes[..n]), hashes[n]);
    } else {
      NoFalseNegatives(f, hashes[..n], i);
      InsertKeeps(InsertAll(f, hashes[..n]), hashes[n], hashes[i]);
    }
  }

  /** What a filter without any insertion contains: nothing. */
  lemma FreshContainsNothing(f: Filter, hash: bv64)
    requires Usable(f) && f.numProbes >= 1
    requires forall w :: 0 <= w < |f.words| ==> f.words[w] == 0
    ensures !Contains(f, hash)
  {
    var bit := Probe(f, hash, 0);
    NoBits(Shift(bit));
    assert !IsSet(f.words, bit);
  }

  /* ---- Sizing ---- */

  /** `usize::saturating_mul`. */
  function SaturatingMul(a: nat, b: nat): nat {
    if a * b < U64 then a * b else U64 - 1
  }

  function WordsFor(numKeys: nat, bitsPerKey: nat): (n: nat)
  {
    var asked := SaturatingMul(numKeys, bitsPerKey);
    var requested := if asked > 64 then asked else 64;
    (requested + 63) / 64
  }

  /** There are at least as many bits as asked for, 64 at the least, and less
      than one word too many; what is asked for saturates at 64 bits. */
  lemma WordsForEnough(numKeys: nat, bitsPerKey: nat)
    ensures var bits, asked := 64 * WordsFor(numKeys, bitsPerKey), SaturatingMul(numKeys, bitsPerKey);
            && asked <= numKeys * bitsPerKey && (asked < numKeys * bitsPerKey ==> asked == U64 - 1)
            && 64 <= bits && asked <= bits && (bits < asked + 64 || bits == 64)
  {
  }

  function Fresh(numKeys: nat, bitsPerKey: nat, numProbes: nat): (f: Filter)
    ensures Usable(f)
  {
    var n := WordsFor(numKeys, bitsPerKey);
    Filter(seq(n, _ => 0), 64 * n, numProbes)
  }

  /** The filter while a table is being written. */
  class BloomFilter {
    var bits: array<bv64>
    const numBits: nat
    const numProbes: nat

    ghost predicate Valid()
      reads this
    {
      0 < numBits == 64 * bits.Length
    }

    function Value(): Filter
      reads this, bits
    {
      Filter(bits[..], numBits, numProbes)
    }

    constructor (numKeys: nat, bitsPerKey: nat, numProbes: nat)
      ensures Valid() && fresh(bits)
      ensures Value() == Fresh(numKeys, bitsPerKey, numProbes)
    {
      var asked := SaturatingMul(numKeys, bitsPerKey);
      var requested := if asked > 64 then asked else 64;
      var words := (requested + 63) / 64;
      bits := new bv64[words](_ => 0);
      numBits := words * 64;
      this.numProbes := numProbes;
      new;
      assert bits[..] == Fresh(numKeys, bitsPerKey, numProbes).words;
    }

    method InsertHash(hash: bv64)
      requires Valid()
      modifies bits
      ensures Valid() && bits == old(bits) && Value() == Insert(old(Value()), hash)
    {
      hide WithBit, Probe, Shift;
      ghost var before := Value();
      for i := 0 to numProbes
        invariant Value() == InsertFirst(before, hash, i)
      {
        var bit := Probe(Value(), hash, i);
        SameProbe(before, Value(), hash, i);
        bits[bit / 64] := WithBit(bits[bit / 64], Shift(bit));
      }
    }
  }
}
