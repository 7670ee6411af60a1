/** Eight-bit words. */
module Bits {

  /** The word whose value is `x`. */
  function Narrow(x: int): (w: bv8)
    requires 0 <= x < 256
    ensures w as int == x
  {
    if x == 0 then 0 else Narrow(x - 1) + 1
  }

  lemma BelowSixtyFour(w: bv8)
    requires w as int < 64
    ensures w < 64
  {
  }

  lemma IsA(w: bv8)
    requires w as int == 0x61
    ensures w == 0x61
  {
  }
}

/** Byte strings: the little-endian integer fields every file format here is
    made of, and the lexicographic order that keys are sorted in. */
module Bytes {

  type byte = x: int | 0 <= x < 256

  datatype Option<+T> = None | Some(value: T)

  datatype Error = Eof | BadMagic | BadVersion | BadOp | BadChecksum | Panic | Protocol | TooLarge | BadName

  datatype Result<+T> = Ok(value: T) | Err(error: Error)

  const U32 := 0x1_0000_0000
  const U64 := 0x1_0000_0000_0000_0000

  /** The first `width` base-256 digits of `n`, least significant first. A value
      that needs more digits is truncated, as a Rust `as u32` cast does. */
  function LE(n: nat, width: nat): (b: seq<byte>)
    ensures |b| == width
  {
    if width == 0 then [] else [n % 256] + LE(n / 256, width - 1)
  }

  function FromLE(b: seq<byte>): nat {
    if b == [] then 0 else b[0] + 256 * FromLE(b[1..])
  }

  ghost function Pow256(width: nat): (p: nat)
    ensures p > 0
  {
    if width == 0 then 1 else 256 * Pow256(width - 1)
  }

  lemma {:induction false} FromLEofLE(n: nat, width: nat)
    requires n < Pow256(width)
    ensures FromLE(LE(n, width)) == n
  {
    if width != 0 {
      FromLEofLE(n / 256, width - 1);
      assert LE(n, width)[1..] == LE(n / 256, width - 1);
    }
  }

  lemma {:induction false} FromLEBound(b: seq<byte>)
    ensures FromLE(b) < Pow256(|b|)
  {
    if b != [] {
      FromLEBound(b[1..]);
    }
  }

  lemma Widths()
    ensures Pow256(4) == U32 && Pow256(8) == U64
  {
    assert Pow256(2) == 0x1_0000;
    assert Pow256(4) == 256 * 256 * Pow256(2);
    assert Pow256(6) == 256 * 256 * Pow256(4);
    assert Pow256(8) == 256 * 256 * Pow256(6);
  }

  lemma RoundTrip32(n: nat)
    requires n < U32
    ensures FromLE(LE(n, 4)) == n
  {
    Widths();
    FromLEofLE(n, 4);
  }

  lemma RoundTrip64(n: nat)
    requires n < U64
    ensures FromLE(LE(n, 8)) == n
  {
    Widths();
    FromLEofLE(n, 8);
  }

  /** The least significant byte comes first. */
  lemma SmallLE(n: nat)
    requires n < 256
    ensures LE(n, 4) == [n, 0, 0, 0]
  {
    assert LE(0, 1) == [0] && LE(0, 2) == [0, 0] && LE(0, 3) == [0, 0, 0];
  }

  /** The order of Rust's `[u8]`: lexicographic, a proper prefix first. */
  predicate Less(a: seq<byte>, b: seq<byte>) {
    b != [] && (a == [] || a[0] < b[0] || (a[0] == b[0] && Less(a[1..], b[1..])))
  }

  /** `a` comes no later than `b`. */
  predicate UpTo(a: seq<byte>, b: seq<byte>) {
    a == b || Less(a, b)
  }

  lemma {:induction false} LessTotal(a: seq<byte>, b: seq<byte>)
    ensures Less(a, b) || a == b || Less(b, a)
  {
    if a != [] && b != [] && a[0] == b[0] {
      LessTotal(a[1..], b[1..]);
      assert a == [a[0]] + a[1..] && b == [b[0]] + b[1..];
    }
  }

  lemma {:induction false} LessAsymmetric(a: seq<byte>, b: seq<byte>)
    requires Less(a, b)
    ensures !Less(b, a) && a != b
  {
    if a != [] && a[0] == b[0] {
      LessAsymmetric(a[1..], b[1..]);
    }
  }

  lemma {:induction false} LessTransitive(a: seq<byte>, b: seq<byte>, c: seq<byte>)
    requires Less(a, b) && Less(b, c)
    ensures Less(a, c)
  {
    if a != [] && a[0] == b[0] == c[0] {
      LessTransitive(a[1..], b[1..], c[1..]);
    }
  }
}
