/** 64-bit words as numbers: bit tests, and setting one bit. */
module Bits {

  function Pow2(k: nat): (p: nat)
    ensures p >= 1
  {
    if k == 0 then 1 else 2 * Pow2(k - 1)
  }

  /** (w >> k) & 1 */
  predicate Bit(w: nat, k: nat) {
    (w / Pow2(k)) % 2 == 1
  }

  /** w | (1 << k) */
  function SetBit(w: nat, k: nat): nat {
    if Bit(w, k) then w else w + Pow2(k)
  }

  type Word = w: nat | w < 0x1_0000_0000_0000_0000

  lemma {:induction false} Pow2Monotone(a: nat, b: nat)
    requires a <= b
    ensures Pow2(a) <= Pow2(b)
    decreases b - a
  {
    if a < b {
      Pow2Monotone(a, b - 1);
    }
  }

  lemma Pow2Of64()
    ensures Pow2(64) == 0x1_0000_0000_0000_0000
  {
    assert Pow2(8) == 256;
    assert Pow2(16) == 65536;
    Pow2Splits(16, 16);
    Pow2Splits(32, 32);
  }

  lemma {:induction false} Pow2Splits(a: nat, b: nat)
    ensures Pow2(a + b) == Pow2(a) * Pow2(b)
    decreases b
  {
    if b > 0 {
      Pow2Splits(a, b - 1);
      assert Pow2(a) * (2 * Pow2(b - 1)) == 2 * (Pow2(a) * Pow2(b - 1));
    }
  }

  lemma SmallHasNoBit(w: nat, k: nat)
    requires w < Pow2(k)
    ensures !Bit(w, k)
  {
    DivUnique(w, Pow2(k), 0, w);
  }

  lemma DivShift(w: nat, c: nat, d: nat)
    requires d > 0
    ensures (w + c * d) / d == w / d + c
  {
    var q, r := w / d, w % d;
    assert w + c * d == (q + c) * d + r;
    DivUnique(w + c * d, d, q + c, r);
  }

  lemma DivUnique(n: nat, d: nat, q: nat, r: nat)
    requires d > 0 && n == q * d + r && r < d
    ensures n / d == q
  {
    var q', r' := n / d, n % d;
    assert q' * d + r' == q * d + r;
    assert q' < q ==> (q' + 1) * d <= q * d;
    assert q < q' ==> (q + 1) * d <= q' * d;
  }

  /** Adding 2^k above a number below 2^k sets bit k and no other. */
  lemma TopBit(w: nat, k: nat, j: nat)
    requires w < Pow2(k) && j <= k
    ensures Bit(w + Pow2(k), j) <==> j == k || Bit(w, j)
  {
    Pow2Splits(j, k - j);
    ParityOfSum(w, Pow2(k - j), Pow2(j), w + Pow2(k));
  }

  lemma ParityOfSum(w: nat, c: nat, d: nat, sum: nat)
    requires d > 0 && sum == w + d * c && (c == 1 || c % 2 == 0)
    ensures c == 1 && w < d ==> (sum / d) % 2 == 1
    ensures c % 2 == 0 ==> (sum / d) % 2 == (w / d) % 2
  {
    DivShift(w, c, d);
    assert d * c == c * d;
    if w < d {
      DivUnique(w, d, 0, w);
    }
  }
}
