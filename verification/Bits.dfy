/** Bitwise operations on natural numbers.

The C sources work on 8-, 32- and 64-bit unsigned words.  Here a word is a natural number
with a bound, and every bitwise operation is defined one binary digit at a time.  A fact
about an operation is proved digit by digit (SameBits).
*/
module Bits {

  type byte = n: nat | n < 0x100
  type word = n: nat | n < 0x1_0000_0000

  function Pow2(k: nat): (p: nat)
    ensures p >= 1
  {
    if k == 0 then 1 else 2 * Pow2(k - 1)
  }

  /** Binary digit `k` of `w`. */
  predicate Bit(w: nat, k: nat)
  {
    if k == 0 then w % 2 == 1 else Bit(w / 2, k - 1)
  }

  function Shl(w: nat, n: nat): nat { if n == 0 then w else 2 * Shl(w, n - 1) }

  function Shr(w: nat, n: nat): nat { if n == 0 then w else Shr(w / 2, n - 1) }

  function Digit(b: bool): nat { if b then 1 else 0 }

  function Or(a: nat, b: nat): nat
    decreases a + b
  {
    if a == 0 && b == 0 then 0
    else Digit(a % 2 == 1 || b % 2 == 1) + 2 * Or(a / 2, b / 2)
  }

  function And(a: nat, b: nat): nat
    decreases a + b
  {
    if a == 0 && b == 0 then 0
    else Digit(a % 2 == 1 && b % 2 == 1) + 2 * And(a / 2, b / 2)
  }

  function Xor(a: nat, b: nat): nat
    decreases a + b
  {
    if a == 0 && b == 0 then 0
    else Digit((a % 2 == 1) != (b % 2 == 1)) + 2 * Xor(a / 2, b / 2)
  }

  // ----- digits decide the number

  lemma {:induction false} ZeroHasNoBits(k: nat)
    ensures !Bit(0, k)
  {
    if k > 0 { ZeroHasNoBits(k - 1); }
  }

  /** Two numbers with the same binary digits are equal. */
  lemma {:induction false} SameBits(a: nat, b: nat)
    requires forall k: nat :: Bit(a, k) == Bit(b, k)
    ensures a == b
    decreases a + b
  {
    if a + b > 0 {
      assert Bit(a, 0) == Bit(b, 0);
      forall k: nat ensures Bit(a / 2, k) == Bit(b / 2, k) {
        assert Bit(a, k + 1) == Bit(b, k + 1);
      }
      SameBits(a / 2, b / 2);
    }
  }

  /** A number below 2^n has no binary digit at or above position n. */
  lemma {:induction false} HighBitsClear(w: nat, n: nat, k: nat)
    requires w < Pow2(n) && n <= k
    ensures !Bit(w, k)
  {
    if n == 0 { ZeroHasNoBits(k); } else { HighBitsClear(w / 2, n - 1, k - 1); }
  }

  /** A binary digit at position n makes a number at least 2^n. */
  lemma {:induction false} BitNeedsSize(w: nat, n: nat)
    requires Bit(w, n)
    ensures Pow2(n) <= w
  {
    if n > 0 { BitNeedsSize(w / 2, n - 1); }
  }

  lemma {:induction false} PowMono(i: nat, j: nat)
    requires i <= j
    ensures Pow2(i) <= Pow2(j)
    decreases j - i
  {
    if i < j { PowMono(i + 1, j); }
  }

  lemma PowPlus8(n: nat)
    ensures Pow2(n + 8) == 256 * Pow2(n)
  {
    assert Pow2(n + 2) == 4 * Pow2(n) && Pow2(n + 4) == 4 * Pow2(n + 2);
    assert Pow2(n + 6) == 4 * Pow2(n + 4) && Pow2(n + 8) == 4 * Pow2(n + 6);
  }

  lemma PowValues()
    ensures Pow2(8) == 0x100 && Pow2(16) == 0x1_0000 && Pow2(24) == 0x100_0000
    ensures Pow2(32) == 0x1_0000_0000
  {
    PowPlus8(0);
    PowPlus8(8);
    PowPlus8(16);
    PowPlus8(24);
  }

  // ----- the operations act digit by digit

  lemma OrHalves(a: nat, b: nat)
    ensures Or(a, b) / 2 == Or(a / 2, b / 2) && Or(a, b) % 2 == Digit(a % 2 == 1 || b % 2 == 1)
  {
  }

  lemma {:induction false} BitOr(a: nat, b: nat, k: nat)
    ensures Bit(Or(a, b), k) <==> Bit(a, k) || Bit(b, k)
  {
    OrHalves(a, b);
    if k > 0 { BitOr(a / 2, b / 2, k - 1); }
  }

  lemma AndHalves(a: nat, b: nat)
    ensures And(a, b) / 2 == And(a / 2, b / 2) && And(a, b) % 2 == Digit(a % 2 == 1 && b % 2 == 1)
  {
  }

  lemma {:induction false} BitAnd(a: nat, b: nat, k: nat)
    ensures Bit(And(a, b), k) <==> Bit(a, k) && Bit(b, k)
  {
    AndHalves(a, b);
    if k > 0 { BitAnd(a / 2, b / 2, k - 1); }
  }

  lemma XorHalves(a: nat, b: nat)
    ensures Xor(a, b) / 2 == Xor(a / 2, b / 2) && Xor(a, b) % 2 == Digit((a % 2 == 1) != (b % 2 == 1))
  {
  }

  lemma {:induction false} BitXor(a: nat, b: nat, k: nat)
    ensures Bit(Xor(a, b), k) <==> Bit(a, k) != Bit(b, k)
  {
    XorHalves(a, b);
    if k > 0 { BitXor(a / 2, b / 2, k - 1); }
  }

  lemma {:induction false} BitShl(w: nat, n: nat, k: nat)
    ensures Bit(Shl(w, n), k) <==> k >= n && Bit(w, k - n)
  {
    if n > 0 {
      assert Shl(w, n) / 2 == Shl(w, n - 1) && Shl(w, n) % 2 == 0;
      if k > 0 { BitShl(w, n - 1, k - 1); }
    }
  }

  lemma {:induction false} BitShr(w: nat, n: nat, k: nat)
    ensures Bit(Shr(w, n), k) == Bit(w, n + k)
  {
    if n > 0 { BitShr(w / 2, n - 1, k); }
  }

  /** Complement within n digits. */
  lemma {:induction false} BitNot(n: nat, w: nat, k: nat)
    requires w < Pow2(n)
    ensures Bit(Pow2(n) - 1 - w, k) <==> k < n && !Bit(w, k)
  {
    if n == 0 {
      ZeroHasNoBits(k);
    } else {
      var c := Pow2(n) - 1 - w;
      assert c / 2 == Pow2(n - 1) - 1 - w / 2 && c % 2 == 1 - w % 2;
      if k > 0 { BitNot(n - 1, w / 2, k - 1); }
    }
  }

  /** The digits of a number split at position n: low part, then high part. */
  lemma {:induction false} BitJoin(n: nat, a: nat, b: nat, k: nat)
    requires a < Pow2(n)
    ensures Bit(a + Shl(b, n), k) == if k < n then Bit(a, k) else Bit(b, k - n)
    decreases n
  {
    if n > 0 {
      assert (a + Shl(b, n)) / 2 == a / 2 + Shl(b, n - 1) && (a + Shl(b, n)) % 2 == a % 2;
      if k > 0 { BitJoin(n - 1, a / 2, b, k - 1); }
    }
  }

  lemma {:induction false} BitPow2(n: nat, k: nat)
    ensures Bit(Pow2(n), k) <==> k == n
  {
    if n == 0 {
      if k > 0 { ZeroHasNoBits(k - 1); }
    } else {
      assert Pow2(n) / 2 == Pow2(n - 1) && Pow2(n) % 2 == 0;
      if k > 0 { BitPow2(n - 1, k - 1); }
    }
  }

  // ----- bounds

  lemma {:induction false} XorBelow(a: nat, b: nat, n: nat)
    requires a < Pow2(n) && b < Pow2(n)
    ensures Xor(a, b) < Pow2(n)
  {
    if n > 0 { XorBelow(a / 2, b / 2, n - 1); }
  }

  lemma {:induction false} OrBelow(a: nat, b: nat, n: nat)
    requires a < Pow2(n) && b < Pow2(n)
    ensures Or(a, b) < Pow2(n)
  {
    if n > 0 { OrBelow(a / 2, b / 2, n - 1); }
  }

  lemma {:induction false} AndBelow(a: nat, b: nat, n: nat)
    requires a < Pow2(n) && b < Pow2(n)
    ensures And(a, b) < Pow2(n)
  {
    if n > 0 { AndBelow(a / 2, b / 2, n - 1); }
  }

  lemma {:induction false} JoinBelow(n: nat, a: nat, m: nat, b: nat)
    requires a < Pow2(n) && b < Pow2(m)
    ensures a + Shl(b, n) < Pow2(n + m)
    decreases n
  {
    if n > 0 { JoinBelow(n - 1, a / 2, m, b); }
  }

  lemma {:induction false} ShrBelow(w: nat, n: nat, m: nat)
    requires w < Pow2(n + m)
    ensures Shr(w, n) < Pow2(m)
    decreases n
  {
    if n > 0 { ShrBelow(w / 2, n - 1, m); }
  }

  // ----- algebra

  /** Applying the same mask twice restores the number. */
  lemma XorCancels(a: nat, b: nat)
    ensures Xor(Xor(a, b), b) == a
  {
    forall k: nat ensures Bit(Xor(Xor(a, b), b), k) == Bit(a, k) {
      BitXor(Xor(a, b), b, k);
      BitXor(a, b, k);
    }
    SameBits(Xor(Xor(a, b), b), a);
  }

  lemma {:induction false} ShlAdd(x: nat, y: nat, n: nat)
    ensures Shl(x + y, n) == Shl(x, n) + Shl(y, n)
  {
    if n > 0 { ShlAdd(x, y, n - 1); }
  }

  lemma {:induction false} ShlShl(x: nat, m: nat, n: nat)
    ensures Shl(Shl(x, m), n) == Shl(x, m + n)
  {
    if n > 0 { ShlShl(x, m, n - 1); }
  }

  lemma {:induction false} ShlOne(n: nat)
    ensures Shl(1, n) == Pow2(n) && Shl(0, n) == 0
  {
    if n > 0 { ShlOne(n - 1); }
  }

  /** A number is its low part plus its shifted high part. */
  lemma {:induction false} SplitAt(w: nat, n: nat)
    ensures w >= Shl(Shr(w, n), n) && w - Shl(Shr(w, n), n) < Pow2(n)
  {
    if n > 0 { SplitAt(w / 2, n - 1); }
  }

  /** Shifting right is division by a power of two. */
  lemma {:induction false} ShrIsDiv(w: nat, n: nat)
    ensures Shr(w, n) == w / Pow2(n)
  {
    if n > 0 {
      ShrIsDiv(w / 2, n - 1);
      HalfThenDiv(w, Pow2(n - 1));
    }
  }

  lemma HalfThenDiv(w: nat, q: nat)
    requires q > 0
    ensures w / (2 * q) == (w / 2) / q
  {
    var d := w / 2;
    var e, r := d / q, d % q;
    assert d == q * e + r;
    assert (2 * q) * e == 2 * (q * e);
    DivUnique(w, 2 * q, e, 2 * r + w % 2);
  }

  lemma DivUnique(w: int, m: int, e: int, r: int)
    requires m > 0 && w == m * e + r && 0 <= r < m
    ensures w / m == e && w % m == r
  {
    var f, g := w / m, w % m;
    assert m * (e - f) == g - r by { assert m * (e - f) == m * e - m * f; }
    MultipleInRange(m, e - f);
  }

  lemma MultipleInRange(m: int, x: int)
    requires m > 0 && -m < m * x < m
    ensures x == 0
  {
  }

  lemma {:induction false} ShlMono(p: nat, q: nat, n: nat)
    requires p < q
    ensures Shl(p, n) + Pow2(n) <= Shl(q, n)
  {
    if n > 0 { ShlMono(p, q, n - 1); }
  }

  lemma ModBit(x: nat, n: nat, k: nat)
    requires k < n
    ensures Bit(x % Pow2(n), k) == Bit(x, k)
  {
    SplitAt(x, n);
    var q, r := Shr(x, n), x - Shl(Shr(x, n), n);
    BitJoin(n, r, q, k);
    ShlMod(q, n, r);
  }

  lemma {:induction false} ShlIsMul(q: nat, n: nat)
    ensures Shl(q, n) == Pow2(n) * q
  {
    if n > 0 { ShlIsMul(q, n - 1); }
  }

  lemma ShlMod(q: nat, n: nat, r: nat)
    requires r < Pow2(n)
    ensures (r + Shl(q, n)) % Pow2(n) == r
  {
    ShlIsMul(q, n);
    DivUnique(r + Shl(q, n), Pow2(n), q, r);
  }

  /** The lowest eight digits are the number modulo 256. */
  lemma SameLowByte(x: nat, y: nat)
    requires forall k: nat :: k < 8 ==> Bit(x, k) == Bit(y, k)
    ensures x % 256 == y % 256
  {
    PowValues();
    forall k: nat ensures Bit(x % 256, k) == Bit(y % 256, k) {
      if k < 8 {
        ModBit(x, 8, k);
        ModBit(y, 8, k);
      } else {
        HighBitsClear(x % 256, 8, k);
        HighBitsClear(y % 256, 8, k);
      }
    }
    SameBits(x % 256, y % 256);
  }
}
