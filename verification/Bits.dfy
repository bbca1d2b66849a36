/** Java's 64-bit `long` operators, bit by bit, on words 0 .. 2^64 - 1. */
module Bits {

  const WORD: int := 0x1_0000_0000_0000_0000
  const HALF: int := 0x8000_0000_0000_0000

  function Pow2(k: nat): (r: nat)
    ensures r >= 1
  {
    if k == 0 then 1 else 2 * Pow2(k - 1)
  }

  /** The word of a long: its two's complement bits. */
  function ToWord(x: int): nat {
    x % WORD
  }

  /** The long of a word. */
  function ToLong(w: nat): int {
    if w < HALF then w else w - WORD
  }

  /** The long of a word is the one number of 64 bits with sign that has these bits. */
  lemma LongOfWord(w: nat)
    requires w < WORD
    ensures -HALF <= ToLong(w) < HALF && ToWord(ToLong(w)) == w
  {
  }

  /** `a | b` */
  function Or(a: nat, b: nat): nat
    decreases a + b
  {
    if a == 0 && b == 0 then 0
    else 2 * Or(a / 2, b / 2) + (if a % 2 == 1 || b % 2 == 1 then 1 else 0)
  }

  /** `a & b` */
  function And(a: nat, b: nat): nat {
    if a == 0 || b == 0 then 0
    else 2 * And(a / 2, b / 2) + (if a % 2 == 1 && b % 2 == 1 then 1 else 0)
  }

  /** `w << k`, with the bits shifted out lost. */
  function Shl(w: nat, k: nat): nat {
    (w * Pow2(k)) % WORD
  }

  /** `x >> k` of a long: the sign is kept. */
  function Shr(x: int, k: nat): int {
    x / Pow2(k)
  }

  lemma {:induction false} OrZero(a: nat)
    ensures Or(a, 0) == a && Or(0, a) == a
  {
    if a > 0 {
      OrZero(a / 2);
    }
  }

  /** Where no bit is shared, or is addition. */
  lemma {:induction false} OrIsSum(high: nat, low: nat, k: nat)
    requires low < Pow2(k)
    ensures Or(high * Pow2(k), low) == high * Pow2(k) + low
    decreases k
  {
    if k == 0 {
      OrZero(high);
    } else {
      var a := high * Pow2(k);
      assert a == 2 * (high * Pow2(k - 1));
      assert a / 2 == high * Pow2(k - 1) && a % 2 == 0;
      OrIsSum(high, low / 2, k - 1);
      if a == 0 && low == 0 {
      } else {
        assert Or(a, low) == 2 * Or(a / 2, low / 2) + low % 2;
      }
    }
  }

  /** Masking with `k` ones is the remainder modulo 2^k. */
  lemma {:induction false} AndMask(a: nat, k: nat)
    ensures And(a, Pow2(k) - 1) == a % Pow2(k)
    decreases k
  {
    if k > 0 {
      var m := Pow2(k - 1);
      AndMask(a / 2, k - 1);
      assert And(a, 2 * m - 1) == 2 * And(a / 2, m - 1) + a % 2 by {
        assert (2 * m - 1) / 2 == m - 1 && (2 * m - 1) % 2 == 1;
        if a > 0 {
          AndUnfold(a, 2 * m - 1);
        }
      }
      RemainderStep(a, m);
    }
  }

  lemma AndUnfold(a: nat, b: nat)
    ensures And(a, b) == 2 * And(a / 2, b / 2) + (if a % 2 == 1 && b % 2 == 1 then 1 else 0)
  {
  }

  lemma RemainderStep(a: nat, m: nat)
    requires m > 0
    ensures a % (2 * m) == 2 * (a / 2 % m) + a % 2
  {
    var q, r := a / 2 / m, a / 2 % m;
    assert a / 2 == m * q + r;
    assert (2 * m) * q == 2 * (m * q);
    RemainderUnique(a, 2 * m, q, 2 * r + a % 2);
  }

  lemma RemainderUnique(x: int, y: int, q: int, r: int)
    requires 0 <= r < y && x == y * q + r
    ensures x % y == r
  {
    var d := q - x / y;
    assert x == y * (x / y) + x % y;
    assert y * d == y * q - y * (x / y);
    Multiples(y, d);
  }

  lemma Multiples(y: int, d: int)
    requires y > 0
    ensures d >= 1 ==> y * d >= y
    ensures d <= -1 ==> y * d <= -y
    ensures d == 0 ==> y * d == 0
  {
  }
}
