/** Decimal numbers, as `write!("{}")` prints them and `str::parse::<i64>` reads
    them. */
module Decimal {
  import opened Bytes

  const I64_LIMIT := 0x8000_0000_0000_0000
  const PLUS: byte := 43
  const MINUS: byte := 45
  const ZERO: byte := 48

  predicate IsDigit(b: byte) {
    ZERO <= b < ZERO + 10
  }

  predicate AllDigits(s: seq<byte>) {
    forall i :: 0 <= i < |s| ==> IsDigit(s[i])
  }

  function Digits(n: nat): (s: seq<byte>)
    ensures s != []
  {
    if n < 10 then [ZERO + n] else Digits(n / 10) + [ZERO + n % 10]
  }

  function SignedDigits(n: int): seq<byte> {
    if n < 0 then [MINUS] + Digits(-n) else Digits(n)
  }

  function ValueOf(s: seq<byte>): nat
    requires AllDigits(s)
  {
    if s == [] then 0 else ValueOf(s[..|s| - 1]) * 10 + (s[|s| - 1] - ZERO)
  }

  /** The digits after an optional sign. */
  function Unsigned(s: seq<byte>): seq<byte> {
    if s != [] && (s[0] == PLUS || s[0] == MINUS) then s[1..] else s
  }

  function ParseI64(s: seq<byte>): (r: Option<int>)
    ensures r.Some? ==> -I64_LIMIT <= r.value < I64_LIMIT
  {
    var digits := Unsigned(s);
    if digits == [] || !AllDigits(digits) then None
    else
      var n := ValueOf(digits);
      if s[0] == MINUS then (if n <= I64_LIMIT then Some(-(n as int)) else None)
      else if n < I64_LIMIT then Some(n) else None
  }

  lemma {:induction false} DigitsBack(n: nat)
    ensures AllDigits(Digits(n)) && ValueOf(Digits(n)) == n
  {
    if n >= 10 {
      DigitsBack(n / 10);
      var s := Digits(n);
      assert s[..|s| - 1] == Digits(n / 10);
    } else {
      assert Digits(n)[..0] == [];
    }
  }

  lemma NoSign(s: seq<byte>)
    requires s != [] && IsDigit(s[0])
    ensures Unsigned(s) == s && s[0] != MINUS
  {
  }

  lemma ParseDigits(s: seq<byte>)
    requires AllDigits(s) && s != [] && ValueOf(s) < I64_LIMIT
    ensures ParseI64(s) == Some(ValueOf(s))
  {
    NoSign(s);
  }

  lemma ParseBack(n: nat)
    requires n < I64_LIMIT
    ensures ParseI64(Digits(n)) == Some(n)
  {
    DigitsBack(n);
    ParseDigits(Digits(n));
  }

  /** The leading digits of a number are a number, no larger, and positive if the
      number is. */
  lemma {:induction false} LeadingDigits(n: nat, k: nat)
    requires 1 <= k <= |Digits(n)|
    ensures AllDigits(Digits(n)[..k]) && ValueOf(Digits(n)[..k]) <= n
    ensures n >= 1 ==> ValueOf(Digits(n)[..k]) >= 1
  {
    DigitsBack(n);
    if k == |Digits(n)| {
      assert Digits(n)[..k] == Digits(n);
    } else {
      assert Digits(n)[..k] == Digits(n / 10)[..k];
      LeadingDigits(n / 10, k);
    }
  }

  lemma ParseLeading(n: nat, k: nat)
    requires 1 <= k <= |Digits(n)| && n < I64_LIMIT
    ensures ParseI64(Digits(n)[..k]).Some? && ParseI64(Digits(n)[..k]).value <= n
    ensures 0 <= ParseI64(Digits(n)[..k]).value && (n >= 1 ==> 1 <= ParseI64(Digits(n)[..k]).value)
  {
    LeadingDigits(n, k);
    ParseDigits(Digits(n)[..k]);
  }

  lemma NothingToParse()
    ensures ParseI64([]) == None
  {
  }

  lemma MinusOne()
    ensures ParseI64([MINUS, ZERO + 1]) == Some(-1)
  {
    var s: seq<byte> := [MINUS, ZERO + 1];
    DigitsBack(1);
    assert Unsigned(s) == [ZERO + 1] == Digits(1);
  }
}
