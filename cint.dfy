/** Machine-level arithmetic shared by the C and C# parts of the server:
    fixed-width integers, truncating division, bytes and decimal text. */
module CInt {

  const INT_MAX: int := 0x7fff_ffff
  const INT_MIN: int := -0x8000_0000
  const LONG_MAX: int := 0x7fff_ffff_ffff_ffff
  const LONG_MIN: int := -0x8000_0000_0000_0000

  /** An unsigned 8-bit value (`unsigned char`, one byte on the wire). */
  type byte = x: int | 0 <= x < 256

  /** Linux `errno` values the server returns, negated, as error codes. */
  const ENOENT: int := 2
  const ENOMEM: int := 12
  const ENOTBLK: int := 15
  const EEXIST: int := 17
  const EINVAL: int := 22
  const ENOSPC: int := 28
  const EPIPE: int := 32
  const ENOTSOCK: int := 88
  const ENOPROTOOPT: int := 92
  const EOPNOTSUPP: int := 95
  const ENOBUFS: int := 105

  predicate IsInt32(x: int) { INT_MIN <= x <= INT_MAX }

  /** Two's-complement wrap-around of a 32-bit `int` (C# unchecked arithmetic). */
  function Wrap32(x: int): (r: int)
    ensures IsInt32(r)
    ensures IsInt32(x) ==> r == x
    ensures (r - x) % 0x1_0000_0000 == 0
  {
    (x + 0x8000_0000) % 0x1_0000_0000 - 0x8000_0000
  }

  /** C's `/`: the quotient rounded toward zero. */
  function CDiv(a: int, b: int): int
    requires b > 0
  {
    if a >= 0 then a / b else -((-a) / b)
  }

  /** C's `%`: the remainder takes the sign of the dividend. */
  function CRem(a: int, b: int): int
    requires b > 0
  {
    a - CDiv(a, b) * b
  }

  lemma CDivRem(a: int, b: int)
    requires b > 0
    ensures a == CDiv(a, b) * b + CRem(a, b)
    ensures a >= 0 ==> 0 <= CRem(a, b) < b && CDiv(a, b) == a / b
    ensures a < 0 ==> -b < CRem(a, b) <= 0
  {
  }

  /** Euclidean division is determined by any decomposition with a remainder in [0, b). */
  lemma DivModOfDecomposition(a: int, b: int, q: int, r: int)
    requires b > 0 && 0 <= r < b && a == q * b + r
    ensures a / b == q && a % b == r
  {
    var q0, r0 := a / b, a % b;
    assert q0 * b + r0 == q * b + r;
    if q0 > q {
      MulGap(q0, q, b);
      assert false;
    } else if q0 < q {
      MulGap(q, q0, b);
      assert false;
    }
  }

  lemma MulGap(p: int, q: int, b: int)
    requires p > q && b > 0
    ensures p * b >= q * b + b
  {
    MulAtLeast(p - q, b);
    assert (p - q) * b == p * b - q * b;
  }

  /** Multiplying by a positive number keeps the order. */
  lemma MulMono(a: int, b: int, w: int)
    requires w > 0
    ensures a <= b ==> a * w <= b * w
  {
    if a < b {
      MulGap(b, a, w);
    }
  }

  lemma {:induction false} MulAtLeast(d: int, b: int)
    requires d >= 1 && b > 0
    ensures d * b >= b
    decreases d
  {
    if d > 1 {
      MulAtLeast(d - 1, b);
      assert d * b == (d - 1) * b + b;
    }
  }

  function Pow2(k: nat): (p: nat)
    ensures p >= 1
  {
    if k == 0 then 1 else 2 * Pow2(k - 1)
  }

  /** Bitwise `^` of the `k` low bits of `a` and `b`. */
  function BitXor(a: nat, b: nat, k: nat): (r: nat)
    ensures r < Pow2(k)
  {
    if k == 0 then 0
    else (if a % 2 != b % 2 then 1 else 0) + 2 * BitXor(a / 2, b / 2, k - 1)
  }

  /** `a ^ b` on two bytes. */
  function Xor8(a: byte, b: byte): (r: byte)
  {
    assert Pow2(8) == 256;
    BitXor(a, b, 8)
  }

  /** Applying the same mask twice gives the value back. */
  lemma {:induction false} BitXorTwice(a: nat, m: nat, k: nat)
    requires a < Pow2(k)
    ensures BitXor(BitXor(a, m, k), m, k) == a
    decreases k
  {
    if k > 0 {
      var x := BitXor(a, m, k);
      assert x / 2 == BitXor(a / 2, m / 2, k - 1);
      BitXorTwice(a / 2, m / 2, k - 1);
    }
  }

  lemma Xor8Twice(a: byte, m: byte)
    ensures Xor8(Xor8(a, m), m) == a
  {
    assert Pow2(8) == 256;
    BitXorTwice(a, m, 8);
  }

  /** The decimal digits of a natural number, most significant first. */
  function Digits(n: nat): (s: string)
    ensures 1 <= |s|
    ensures forall i :: 0 <= i < |s| ==> '0' <= s[i] <= '9'
    decreases n
  {
    if n < 10 then [DigitChar(n)] else Digits(n / 10) + [DigitChar(n % 10)]
  }

  function DigitChar(d: nat): (c: char)
    requires d < 10
    ensures '0' <= c <= '9' && c as int - '0' as int == d
  {
    ('0' as int + d) as char
  }

  /** The value of a string of decimal digits. */
  function DigitsValue(s: string): int
    requires forall i :: 0 <= i < |s| ==> '0' <= s[i] <= '9'
  {
    if |s| == 0 then 0 else DigitsValue(s[..|s| - 1]) * 10 + (s[|s| - 1] as int - '0' as int)
  }

  lemma {:induction false} DigitsRoundTrip(n: nat)
    ensures DigitsValue(Digits(n)) == n
    decreases n
  {
    if n >= 10 {
      var s := Digits(n);
      assert s[..|s| - 1] == Digits(n / 10);
      DigitsRoundTrip(n / 10);
    }
  }

  /** `printf("%d", n)`. */
  function Decimal(n: int): (s: string)
    ensures 1 <= |s|
  {
    if n < 0 then "-" + Digits(-n) else Digits(n)
  }

  lemma {:induction false} DigitsLength(n: nat, k: nat)
    requires n < Pow10(k)
    requires k >= 1
    ensures |Digits(n)| <= k
    decreases k
  {
    if n >= 10 {
      assert n / 10 < Pow10(k - 1);
      DigitsLength(n / 10, k - 1);
    }
  }

  function Pow10(k: nat): (p: nat)
    ensures p >= 1
  {
    if k == 0 then 1 else 10 * Pow10(k - 1)
  }

  /** A 32-bit `int` takes at most 11 characters in decimal ("-2147483648"). */
  lemma DecimalInt32Length(n: int)
    requires IsInt32(n)
    ensures |Decimal(n)| <= 11
  {
    assert Pow10(10) == 10_000_000_000;
    if n < 0 {
      DigitsLength(-n, 10);
    } else {
      DigitsLength(n, 10);
    }
  }
}
