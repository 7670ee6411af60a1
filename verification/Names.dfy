/** Table file names: `sstable-{first:06}-{last:06}`, with `.sst` when published
    and `.sst.tmp` before. */
module Names {
  import opened Bytes
  import opened Decimal
  import opened Tables

  /** The names the store itself writes, and those with the extension `sst` that do
      not follow its scheme. */
  datatype Name = Sst(span: Span) | Tmp(span: Span) | Foreign(stem: seq<byte>)

  const PREFIX: seq<byte> := [115, 115, 116, 97, 98, 108, 101, 45]
  const SST: seq<byte> := [46, 115, 115, 116]
  const TMP: seq<byte> := [46, 116, 109, 112]

  function Zeros(n: nat): (s: seq<byte>)
    ensures |s| == n && AllDigits(s)
  {
    seq(n, _ => ZERO)
  }

  /** `{n:06}`: padded with zeros to at least six digits. */
  function Padded(n: nat): seq<byte> {
    var d := Digits(n);
    if |d| < 6 then Zeros(6 - |d|) + d else d
  }

  function Stem(span: Span): seq<byte> {
    PREFIX + Padded(span.first) + [MINUS] + Padded(span.last)
  }

  function FileName(name: Name): seq<byte> {
    match name
    case Sst(span) => Stem(span) + SST
    case Tmp(span) => Stem(span) + SST + TMP
    case Foreign(stem) => stem + SST
  }

  predicate WellNamed(name: Name) {
    match name
    case Foreign(stem) => ParseSpan(stem) == None
    case _ => name.span.first < U64 && name.span.last < U64
  }

  function ParseU64(s: seq<byte>): Option<nat> {
    var digits := if s != [] && s[0] == PLUS then s[1..] else s;
    if digits == [] || !AllDigits(digits) || ValueOf(digits) >= U64 then None else Some(ValueOf(digits))
  }

  /** The position of the first dash. */
  function DashAt(s: seq<byte>): (i: nat)
    ensures i <= |s|
  {
    if s == [] || s[0] == MINUS then 0 else 1 + DashAt(s[1..])
  }

  function ParseSpan(stem: seq<byte>): Option<Span> {
    if !(PREFIX <= stem) then None
    else
      var rest := stem[|PREFIX|..];
      var i := DashAt(rest);
      if i == |rest| then None
      else
        match (ParseU64(rest[..i]), ParseU64(rest[i + 1..]))
        case (Some(first), Some(last)) => Some(Span(first, last))
        case _ => None
  }

  lemma {:induction false} ZerosValue(n: nat, d: seq<byte>)
    requires AllDigits(d)
    ensures AllDigits(Zeros(n) + d) && ValueOf(Zeros(n) + d) == ValueOf(d)
    decreases |d|, n
  {
    var s := Zeros(n) + d;
    if d != [] {
      assert s[..|s| - 1] == Zeros(n) + d[..|d| - 1];
      ZerosValue(n, d[..|d| - 1]);
    } else if n > 0 {
      assert s[..|s| - 1] == Zeros(n - 1) + [];
      ZerosValue(n - 1, []);
    } else {
      assert s == d;
    }
  }

  lemma PaddedBack(n: nat)
    ensures AllDigits(Padded(n)) && Padded(n) != [] && ValueOf(Padded(n)) == n
  {
    DigitsBack(n);
    if |Digits(n)| < 6 { ZerosValue(6 - |Digits(n)|, Digits(n)); }
  }

  lemma {:induction false} DashAfterDigits(d: seq<byte>, rest: seq<byte>)
    requires AllDigits(d)
    ensures DashAt(d + [MINUS] + rest) == |d|
  {
    var s := d + [MINUS] + rest;
    if d != [] {
      assert s[1..] == d[1..] + [MINUS] + rest;
      DashAfterDigits(d[1..], rest);
    }
  }

  /** The span a file was written for is the span read back from its name. */
  lemma ParseSpanBack(span: Span)
    requires span.first < U64 && span.last < U64
    ensures ParseSpan(Stem(span)) == Some(span)
  {
    hide Padded, DashAt, Digits, ValueOf;
    var a, b := Padded(span.first), Padded(span.last);
    PaddedBack(span.first);
    PaddedBack(span.last);
    var rest := a + [MINUS] + b;
    assert Stem(span) == PREFIX + rest;
    assert Stem(span)[|PREFIX|..] == rest;
    DashAfterDigits(a, b);
    assert rest[..|a|] == a && rest[|a| + 1..] == b;
    assert ParseU64(a) == Some(span.first) && ParseU64(b) == Some(span.last);
  }

  /** Only names of the scheme are taken: after the prefix two numbers of at most 64
      bits with a dash between them. */
  lemma ParseSpanOnly(stem: seq<byte>)
    requires ParseSpan(stem).Some?
    ensures exists a, b :: && ParseU64(a) == Some(ParseSpan(stem).value.first)
                           && ParseU64(b) == Some(ParseSpan(stem).value.last)
                           && stem == [115, 115, 116, 97, 98, 108, 101, 45] + a + [45] + b
  {
    hide ParseU64;
    var rest := stem[|PREFIX|..];
    var i := DashAt(rest);
    DashIs(rest);
    var a, b := rest[..i], rest[i + 1..];
    assert stem == PREFIX + a + [MINUS] + b;
  }

  lemma {:induction false} DashIs(s: seq<byte>)
    requires DashAt(s) < |s|
    ensures s[DashAt(s)] == MINUS
  {
    if s[0] != MINUS { DashIs(s[1..]); }
  }

  /** Different names are different files, and a published table's is never that
      of a temporary or a foreign one: a directory is a map from names. */
  lemma NamesDiffer(a: Name, b: Name)
    requires WellNamed(a) && WellNamed(b) && FileName(a) == FileName(b)
    ensures a == b
  {
    hide Stem, ParseSpan;
    var x, y := FileName(a), FileName(b);
    assert x[|x| - 1] == (if a.Tmp? then 112 else 116) && y[|y| - 1] == (if b.Tmp? then 112 else 116);
    var n := if a.Tmp? then |x| - 8 else |x| - 4;
    assert StemOf(a) == x[..n] && StemOf(b) == y[..n];
    if !a.Foreign? { ParseSpanBack(a.span); }
    if !b.Foreign? { ParseSpanBack(b.span); }
  }

  function StemOf(name: Name): seq<byte> {
    match name case Foreign(stem) => stem case _ => Stem(name.span)
  }
}
