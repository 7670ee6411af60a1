/** FNV-1a with a MurmurHash3 finalizer, on 64-bit words. */
module Hash {
  import opened Bits
  import opened Bytes

  const FNV_OFFSET_BASIS: bv64 := 0xcbf2_9ce4_8422_2325

  function Widen(x: byte): bv64 {
    Narrow(x) as bv64
  }

  function Xor(x: bv64, y: bv64): bv64 {
    x ^ y
  }

  function Fold(hash: bv64): bv64 {
    hash ^ (hash >> 33)
  }

  function TimesPrime(hash: bv64): bv64 {
    hash * 0x0000_0100_0000_01b3
  }

  function Times1(hash: bv64): bv64 {
    hash * 0xff51_afd7_ed55_8ccd
  }

  function Times2(hash: bv64): bv64 {
    hash * 0xc4ce_b9fe_1a85_ec53
  }

  // Multiplication by the inverses of the three odd constants modulo 2^64.

  function OverPrime(hash: bv64): bv64 {
    hash * 0xce96_5057_aff6_957b
  }

  function Over1(hash: bv64): bv64 {
    hash * 0x4f74_430c_22a5_4005
  }

  function Over2(hash: bv64): bv64 {
    hash * 0x9cb4_b2f8_1293_37db
  }

  /** One FNV-1a round. */
  function Round(hash: bv64, x: byte): bv64 {
    TimesPrime(Xor(hash, Widen(x)))
  }

  function Fnv(bytes: seq<byte>): bv64 {
    if bytes == [] then FNV_OFFSET_BASIS
    else Round(Fnv(bytes[..|bytes| - 1]), bytes[|bytes| - 1])
  }

  function Mix(hash: bv64): bv64 {
    Fold(Times2(Fold(Times1(Fold(hash)))))
  }

  function Hash64(bytes: seq<byte>): bv64 {
    Mix(Fnv(bytes))
  }

  method ComputeMix(h: bv64) returns (hash: bv64)
    ensures hash == Mix(h)
  {
    hide Fold, Times1, Times2;
    hash := h;
    hash := Fold(hash);
    hash := Times1(hash);
    hash := Fold(hash);
    hash := Times2(hash);
    hash := Fold(hash);
  }

  method ComputeHash64(bytes: seq<byte>) returns (result: bv64)
    ensures result == Hash64(bytes)
  {
    hide Xor, TimesPrime, Widen, Mix;
    var hash := FNV_OFFSET_BASIS;
    for i := 0 to |bytes|
      invariant hash == Fnv(bytes[..i])
    {
      assert bytes[..i + 1][..i] == bytes[..i];
      hash := Xor(hash, Widen(bytes[i]));
      hash := TimesPrime(hash);
    }
    assert bytes[..|bytes|] == bytes;
    result := ComputeMix(hash);
  }

  /* ---- Every stage can be undone ---- */

  lemma FoldOfFold(x: bv64)
    ensures Fold(x ^ (x >> 33)) == x
  {
  }

  lemma FoldTwice(x: bv64)
    ensures Fold(Fold(x)) == x
  {
    FoldOfFold(x);
  }

  lemma PrimeConstants(x: bv64)
    ensures OverPrime(x * 0x0000_0100_0000_01b3) == x
  {
  }

  lemma PrimeUndone(x: bv64)
    ensures OverPrime(TimesPrime(x)) == x
  {
    hide OverPrime;
    PrimeConstants(x);
  }

  lemma Constants1(x: bv64)
    ensures Over1(x * 0xff51_afd7_ed55_8ccd) == x && Times1(x * 0x4f74_430c_22a5_4005) == x
  {
  }

  lemma Undone1(x: bv64)
    ensures Over1(Times1(x)) == x
  {
    hide Over1;
    Constants1(x);
  }

  lemma Redone1(x: bv64)
    ensures Times1(Over1(x)) == x
  {
    hide Times1;
    Constants1(x);
  }

  lemma Constants2(x: bv64)
    ensures Over2(x * 0xc4ce_b9fe_1a85_ec53) == x && Times2(x * 0x9cb4_b2f8_1293_37db) == x
  {
  }

  lemma Undone2(x: bv64)
    ensures Over2(Times2(x)) == x
  {
    hide Over2;
    Constants2(x);
  }

  lemma Redone2(x: bv64)
    ensures Times2(Over2(x)) == x
  {
    hide Times2;
    Constants2(x);
  }

  function Unmix(hash: bv64): bv64 {
    Fold(Over1(Fold(Over2(Fold(hash)))))
  }

  /** The finalizer is a bijection on 64-bit words. */
  lemma MixBijective(x: bv64)
    ensures Unmix(Mix(x)) == x && Mix(Unmix(x)) == x
  {
    hide Fold, Times1, Times2, Over1, Over2;
    FoldTwice(x);
    FoldTwice(Times1(Fold(x)));
    FoldTwice(Times2(Fold(Times1(Fold(x)))));
    Undone1(Fold(x));
    Undone2(Fold(Times1(Fold(x))));
    FoldTwice(Over2(Fold(x)));
    FoldTwice(Over1(Fold(Over2(Fold(x)))));
    Redone2(Fold(x));
    Redone1(Fold(Over2(Fold(x))));
  }

  lemma WordsInjective(x: bv8, y: bv8)
    requires x as bv64 == y as bv64
    ensures x == y
  {
  }

  lemma WidenInjective(x: byte, y: byte)
    requires Widen(x) == Widen(y)
    ensures x == y
  {
    hide Narrow;
    WordsInjective(Narrow(x), Narrow(y));
  }

  lemma XorCancels(x: bv64, y: bv64)
    ensures Xor(x ^ y, y) == x && Xor(x ^ y, x) == y
  {
  }

  lemma XorUndone(x: bv64, y: bv64)
    ensures Xor(Xor(x, y), y) == x && Xor(Xor(x, y), x) == y
  {
    XorCancels(x, y);
  }

  /** A round is injective in the hash for each byte, and in the byte for each
      hash. */
  lemma RoundInjective(h: bv64, x: byte, g: bv64, y: byte)
    requires Round(h, x) == Round(g, y)
    ensures h == g <==> x == y
  {
    hide TimesPrime, OverPrime, Xor, Widen;
    PrimeUndone(Xor(h, Widen(x)));
    PrimeUndone(Xor(g, Widen(y)));
    XorUndone(h, Widen(x));
    XorUndone(g, Widen(y));
    if h == g { WidenInjective(x, y); }
  }

  lemma {:induction false} FnvDiffers(a: seq<byte>, b: seq<byte>, i: nat)
    requires |a| == |b| && i < |a| && a[i] != b[i]
    requires forall j :: 0 <= j < |a| && j != i ==> a[j] == b[j]
    ensures Fnv(a) != Fnv(b)
  {
    hide Round;
    var n := |a| - 1;
    if i == n {
      assert a[..n] == b[..n];
    } else {
      FnvDiffers(a[..n], b[..n], i);
    }
    if Fnv(a) == Fnv(b) {
      RoundInjective(Fnv(a[..n]), a[n], Fnv(b[..n]), b[n]);
    }
  }

  /** Two keys of equal length that differ in exactly one byte never collide. */
  lemma OneByteNeverCollides(a: seq<byte>, b: seq<byte>, i: nat)
    requires |a| == |b| && i < |a| && a[i] != b[i]
    requires forall j :: 0 <= j < |a| && j != i ==> a[j] == b[j]
    ensures Hash64(a) != Hash64(b)
  {
    hide Mix, Unmix, Fnv;
    FnvDiffers(a, b, i);
    MixBijective(Fnv(a));
    MixBijective(Fnv(b));
  }

  /* ---- The constants: the hashes the repository pins for the empty key and `a` ---- */

  lemma StagesAre(x: bv64, y: bv64)
    ensures Fold(x) == x ^ (x >> 33) && Xor(x, y) == x ^ y
    ensures Times1(x) == x * 0xff51_afd7_ed55_8ccd && Times2(x) == x * 0xc4ce_b9fe_1a85_ec53
    ensures TimesPrime(x) == x * 0x0000_0100_0000_01b3
  {
  }

  lemma MixOfEmpty()
    ensures Mix(0xcbf2_9ce4_8422_2325) == 0xefd0_1f60_ba99_2926
  {
    hide Fold, Times1, Times2;
    StagesAre(0xcbf2_9ce4_8422_2325, 0);
    StagesAre(0xcbf2_9ce4_e1db_6d57, 0);
    StagesAre(0xecba_3df2_b565_22ab, 0);
    StagesAre(0xecba_3df2_c338_3c52, 0);
    StagesAre(0xefd0_1f60_cd71_2696, 0);
  }

  lemma MixOfA()
    ensures Mix(0xaf63_dc4c_8601_ec8c) == 0x82a2_a958_a9be_ce5b
  {
    hide Fold, Times1, Times2;
    StagesAre(0xaf63_dc4c_8601_ec8c, 0);
    StagesAre(0xaf63_dc4c_d1b0_02aa, 0);
    StagesAre(0xed81_70de_6fd9_1a22, 0);
    StagesAre(0xed81_70de_1919_a24d, 0);
    StagesAre(0x82a2_a958_e8ef_9af7, 0);
  }

  lemma PinnedHashes()
    ensures Hash64([]) == 0xefd0_1f60_ba99_2926
    ensures Hash64([0x61]) == 0x82a2_a958_a9be_ce5b
  {
    hide Mix, Xor, TimesPrime, Narrow;
    MixOfEmpty();
    assert [0x61][..0] == [];
    IsA(Narrow(0x61));
    StagesAre(0xcbf2_9ce4_8422_2325, 0x61);
    StagesAre(0xcbf2_9ce4_8422_2344, 0);
    MixOfA();
  }
}
