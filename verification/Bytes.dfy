// Shared vocabulary: bytes, optional values, and uint32_t masks.
module Bytes {

  newtype byte = x: int | 0 <= x < 256

  datatype Option<+T> = None | Some(value: T)

  const CR: byte := 13
  const LF: byte := 10
  const SPACE: byte := 32

  const UINT32_RANGE: nat := 0x1_0000_0000

  predicate NulFree(s: seq<byte>) {
    forall i :: 0 <= i < |s| ==> s[i] != 0
  }

  function Pow2(n: nat): (p: nat)
    ensures p > 0
  {
    if n == 0 then 1 else 2 * Pow2(n - 1)
  }

  /** Decimal digits, as printf("%u") writes them. */
  function Decimal(n: nat): (s: seq<byte>)
    ensures |s| > 0 && forall i :: 0 <= i < |s| ==> 48 <= s[i] <= 57
  {
    if n < 10 then [(48 + n) as byte] else Decimal(n / 10) + [(48 + n % 10) as byte]
  }

  function Pow10(n: nat): (p: nat)
    ensures p > 0
  {
    if n == 0 then 1 else 10 * Pow10(n - 1)
  }

  lemma {:induction false} DecimalLength(n: nat, digits: nat)
    requires digits > 0 && n < Pow10(digits)
    ensures |Decimal(n)| <= digits
    decreases digits
  {
    if n >= 10 {
      assert Pow10(digits) == 10 * Pow10(digits - 1);
      DecimalLength(n / 10, digits - 1);
    }
  }

  function Min(x: nat, y: nat): nat {
    if x < y then x else y
  }

  /** The bitwise & of two unsigned numbers. */
  function BitAnd(x: nat, y: nat): nat {
    if x == 0 || y == 0 then 0 else 2 * BitAnd(x / 2, y / 2) + (x % 2) * (y % 2)
  }

  lemma {:induction false} MaskBound(x: nat, y: nat)
    ensures BitAnd(x, y) <= y
  {
    if x != 0 && y != 0 {
      MaskBound(x / 2, y / 2);
    }
  }

  lemma MaskOneMore(x: nat, p: nat)
    requires x > 0 && p > 0
    ensures BitAnd(x, 2 * p - 1) == 2 * BitAnd(x / 2, p - 1) + x % 2
  {
    assert (2 * p - 1) / 2 == p - 1 && (2 * p - 1) % 2 == 1;
  }

  lemma MaskTwice(x: nat, p: nat)
    requires x > 0 && p > 0 && BitAnd(x / 2, p - 1) == x / 2 % p
    ensures BitAnd(x, 2 * p - 1) == x % (2 * p)
  {
    MaskOneMore(x, p);
    hide BitAnd;
    RemainderByDoubling(x, p);
  }

  /** Masking with a power of two less one is taking the remainder. */
  lemma {:induction false} MaskIsRemainder(x: nat, n: nat)
    ensures BitAnd(x, Pow2(n) - 1) == x % Pow2(n)
    decreases n
  {
    if x == 0 {
      DivisionIsUnique(0, Pow2(n), 0, 0);
    } else if n > 0 {
      MaskIsRemainder(x / 2, n - 1);
      MaskTwice(x, Pow2(n - 1));
      hide BitAnd;
    }
  }

  lemma RemainderByDoubling(x: nat, p: nat)
    requires p > 0
    ensures x % (2 * p) == 2 * (x / 2 % p) + x % 2
  {
    var h := x / 2;
    var q := h / p;
    calc {
      x;
      2 * h + x % 2;
      2 * (p * q + h % p) + x % 2;
      2 * (p * q) + (2 * (h % p) + x % 2);
    }
    assert 2 * (p * q) == q * (2 * p);
    DivisionIsUnique(x, 2 * p, q, 2 * (h % p) + x % 2);
  }

  lemma DivisionIsUnique(x: nat, d: nat, q: nat, r: nat)
    requires x == q * d + r && r < d
    ensures x / d == q && x % d == r
  {
    var k := x / d - q;
    assert k * d == r - x % d;
    AtLeastOne(k, d);
  }

  lemma AtLeastOne(k: int, d: nat)
    ensures k >= 1 ==> k * d >= d
    ensures k <= -1 ==> k * d + d <= 0
  {
  }
}
