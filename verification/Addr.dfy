/** Address arithmetic of addr.c: masks, comparison, increment and CIDR matching.

An address has four 32-bit words, kept here as ntohl gives them; an IPv4 address uses the
first.  `Number` is the address as an integer of 32 or 128 binary digits.
*/
module Addr {
  import opened Bits
  import opened Wire

  datatype Family = Inet | Inet6 | OtherFamily

  /** Number of address bits, or 0 for a family that the code does not know. */
  function Width(af: Family): nat { match af case Inet => 32 case Inet6 => 128 case OtherFamily => 0 }

  /** The words that hold the address. */
  function Used(af: Family): nat { match af case Inet => 1 case Inet6 => 4 case OtherFamily => 0 }

  datatype Address = Address(af: Family, words: seq<word>, scope: word)

  predicate Valid(a: Address) { |a.words| == 4 }

  /** The number whose base-2^32 digits, most significant first, are `ws`. */
  function FromWords(ws: seq<word>): nat
  {
    if ws == [] then 0 else ws[|ws| - 1] + Shl(FromWords(ws[..|ws| - 1]), 32)
  }

  function Number(a: Address): nat
    requires Valid(a)
  {
    FromWords(a.words[..Used(a.af)])
  }

  // ----- digits of words and numbers

  /** Digit 32 * i + k, from the least significant, is digit k of the i-th word from the end. */
  lemma {:induction false} BitOfWords(ws: seq<word>, i: nat, k: nat)
    requires k < 32
    ensures Bit(FromWords(ws), 32 * i + k) <==> i < |ws| && Bit(ws[|ws| - 1 - i], k)
  {
    PowValues();
    if ws == [] {
      ZeroHasNoBits(32 * i + k);
    } else {
      BitJoin(32, ws[|ws| - 1], FromWords(ws[..|ws| - 1]), 32 * i + k);
      if i > 0 { BitOfWords(ws[..|ws| - 1], i - 1, k); }
    }
  }

  lemma {:induction false} WordsBelow(ws: seq<word>)
    ensures FromWords(ws) < Pow2(32 * |ws|)
  {
    PowValues();
    if ws != [] {
      WordsBelow(ws[..|ws| - 1]);
      JoinBelow(32, ws[|ws| - 1], 32 * (|ws| - 1), FromWords(ws[..|ws| - 1]));
    }
  }

  /** Digit k of the i-th word from the end is the same in both numbers. */
  predicate AgreeAt(x: nat, y: nat, i: nat, k: nat) { Bit(x, 32 * i + k) == Bit(y, 32 * i + k) }

  lemma SameWordBits(x: nat, y: nat)
    requires forall i: nat, k: nat :: k < 32 ==> AgreeAt(x, y, i, k)
    ensures x == y
  {
    forall n: nat ensures Bit(x, n) == Bit(y, n) {
      assert AgreeAt(x, y, n / 32, n % 32);
      assert 32 * (n / 32) + n % 32 == n;
    }
    SameBits(x, y);
  }

  function AndWord(x: word, y: word): word { PowValues(); AndBelow(x, y, 32); And(x, y) }

  function OrWord(x: word, y: word): word { PowValues(); OrBelow(x, y, 32); Or(x, y) }

  function AndWords(a: seq<word>, b: seq<word>): (c: seq<word>)
    requires |a| == |b|
    ensures |c| == |a|
  {
    seq(|a|, i requires 0 <= i < |a| => AndWord(a[i], b[i]))
  }

  function OrWords(a: seq<word>, b: seq<word>): (c: seq<word>)
    requires |a| == |b|
    ensures |c| == |a|
  {
    seq(|a|, i requires 0 <= i < |a| => OrWord(a[i], b[i]))
  }

  lemma AndDigit(a: seq<word>, b: seq<word>, i: nat, k: nat)
    requires |a| == |b| && k < 32
    ensures Bit(FromWords(AndWords(a, b)), 32 * i + k) ==
            (Bit(FromWords(a), 32 * i + k) && Bit(FromWords(b), 32 * i + k))
  {
    BitOfWords(a, i, k);
    BitOfWords(b, i, k);
    BitOfWords(AndWords(a, b), i, k);
    if i < |a| { BitAnd(a[|a| - 1 - i], b[|a| - 1 - i], k); }
  }

  lemma AndNumber(a: seq<word>, b: seq<word>)
    requires |a| == |b|
    ensures FromWords(AndWords(a, b)) == And(FromWords(a), FromWords(b))
  {
    var c, x, y := FromWords(AndWords(a, b)), FromWords(a), FromWords(b);
    forall i: nat, k: nat | k < 32 ensures AgreeAt(c, And(x, y), i, k) {
      BitAnd(x, y, 32 * i + k);
      AndDigit(a, b, i, k);
    }
    SameWordBits(c, And(x, y));
  }

  lemma OrDigit(a: seq<word>, b: seq<word>, i: nat, k: nat)
    requires |a| == |b| && k < 32
    ensures Bit(FromWords(OrWords(a, b)), 32 * i + k) ==
            (Bit(FromWords(a), 32 * i + k) || Bit(FromWords(b), 32 * i + k))
  {
    BitOfWords(a, i, k);
    BitOfWords(b, i, k);
    BitOfWords(OrWords(a, b), i, k);
    if i < |a| { BitOr(a[|a| - 1 - i], b[|a| - 1 - i], k); }
  }

  lemma OrNumber(a: seq<word>, b: seq<word>)
    requires |a| == |b|
    ensures FromWords(OrWords(a, b)) == Or(FromWords(a), FromWords(b))
  {
    var c, x, y := FromWords(OrWords(a, b)), FromWords(a), FromWords(b);
    forall i: nat, k: nat | k < 32 ensures AgreeAt(c, Or(x, y), i, k) {
      BitOr(x, y, 32 * i + k);
      OrDigit(a, b, i, k);
    }
    SameWordBits(c, Or(x, y));
  }

  // ----- masks

  /** The number with ones exactly from position m up to below w. */
  function MaskNumber(w: nat, m: nat): nat
    requires m <= w
  {
    PowMono(m, w);
    Pow2(w) - Pow2(m)
  }

  lemma {:induction false} MaskBits(w: nat, m: nat, k: nat)
    requires m <= w
    ensures Bit(MaskNumber(w, m), k) <==> m <= k < w
    decreases w
  {
    if m == 0 {
      ZeroHasNoBits(k);
      BitNot(w, 0, k);
    } else {
      PowMono(m - 1, w - 1);
      assert MaskNumber(w, m) / 2 == MaskNumber(w - 1, m - 1) && MaskNumber(w, m) % 2 == 0;
      if k > 0 { MaskBits(w - 1, m - 1, k - 1); }
    }
  }

  /** The leading l ones of one word, as the code computes them. */
  function MaskWord(l: nat): word
    requires 0 < l <= 32
  {
    Shl(0xffff_ffff, 32 - l) % 0x1_0000_0000
  }

  lemma MaskWordBits(l: nat, k: nat)
    requires 0 < l <= 32 && k < 32
    ensures Bit(MaskWord(l), k) <==> 32 - l <= k
  {
    var s := Shl(0xffff_ffff, 32 - l);
    PowValues();
    ModBit(s, 32, k);
    BitShl(0xffff_ffff, 32 - l, k);
    if k >= 32 - l { MaskBits(32, 0, k - (32 - l)); }
  }

  /** Word i of a netmask of length l. */
  function MaskAt(l: nat, i: nat): word
  {
    if l >= 32 * (i + 1) then 0xffff_ffff else if l <= 32 * i then 0 else MaskWord(l - 32 * i)
  }

  lemma MaskAtBits(l: nat, i: nat, k: nat)
    requires k < 32
    ensures Bit(MaskAt(l, i), k) <==> 32 * (i + 1) - l <= k
  {
    if l >= 32 * (i + 1) {
      PowValues();
      MaskBits(32, 0, k);
    } else if l <= 32 * i {
      ZeroHasNoBits(k);
    } else {
      MaskWordBits(l - 32 * i, k);
    }
  }

  function MaskWords(l: nat, n: nat): seq<word> { seq(n, i requires 0 <= i < n => MaskAt(l, i)) }

  /** A netmask of length l over n words has the number 2^w - 2^(w-l). */
  lemma NetmaskNumber(l: nat, n: nat)
    requires l <= 32 * n
    ensures FromWords(MaskWords(l, n)) == MaskNumber(32 * n, 32 * n - l)
  {
    var ws, v := MaskWords(l, n), MaskNumber(32 * n, 32 * n - l);
    forall i: nat, k: nat | k < 32 ensures AgreeAt(FromWords(ws), v, i, k) {
      MaskBits(32 * n, 32 * n - l, 32 * i + k);
      BitOfWords(ws, i, k);
      if i < n { MaskAtBits(l, n - 1 - i, k); }
    }
    SameWordBits(FromWords(ws), v);
  }

  /** Masking keeps the network part: the number with its last m digits cleared. */
  lemma MaskedNumber(x: nat, mask: nat, w: nat, m: nat)
    requires x < Pow2(w) && m <= w && mask == MaskNumber(w, m)
    ensures And(x, mask) == Shl(Shr(x, m), m)
  {
    forall k: nat ensures Bit(And(x, mask), k) == Bit(Shl(Shr(x, m), m), k) {
      BitAnd(x, mask, k);
      MaskBits(w, m, k);
      BitShl(Shr(x, m), m, k);
      if k >= m { BitShr(x, m, k - m); }
      if k >= w { HighBitsClear(x, w, k); }
    }
    SameBits(And(x, mask), Shl(Shr(x, m), m));
  }

  /** Setting the host part to ones gives the last address of the network. */
  lemma FilledNumber(x: nat, h: nat, m: nat)
    requires h == Pow2(m) - 1
    ensures Or(x, h) == Shl(Shr(x, m), m) + h
  {
    var y := h + Shl(Shr(x, m), m);
    forall k: nat ensures Bit(Or(x, h), k) == Bit(y, k) {
      BitOr(x, h, k);
      BitJoin(m, h, Shr(x, m), k);
      MaskBits(m, 0, k);
      if k >= m { BitShr(x, m, k - m); }
    }
    SameBits(Or(x, h), y);
  }

  /** The host part is zero exactly when AND with the host mask is. */
  lemma HostZeroIff(x: nat, h: nat, m: nat)
    requires h == Pow2(m) - 1
    ensures And(x, h) == 0 <==> x == Shl(Shr(x, m), m)
  {
    SplitAt(x, m);
    var r := x - Shl(Shr(x, m), m);
    forall k: nat ensures Bit(And(x, h), k) == Bit(r, k) {
      BitAnd(x, h, k);
      MaskBits(m, 0, k);
      BitJoin(m, r, Shr(x, m), k);
      if k >= m { HighBitsClear(r, m, k); }
    }
    SameBits(And(x, h), r);
  }

  // ----- networks as ranges of numbers

  /** The numbers with the same first digits are those between the first and the last
      address of the network. */
  lemma NetworkIsRange(x: nat, q: nat, m: nat)
    ensures Shr(x, m) == q <==> Shl(q, m) <= x <= Shl(q, m) + (Pow2(m) - 1)
  {
    SplitAt(x, m);
    var p := Shr(x, m);
    if p < q { ShlMono(p, q, m); } else if q < p { ShlMono(q, p, m); }
  }

  // ----- what the operations compute

  /** The first n words of `a` masked with those of `b`, the rest of `a` unchanged. */
  function Masked(a: seq<word>, b: seq<word>, n: nat): (c: seq<word>)
    requires n <= |a| == |b|
    ensures |c| == |a|
  {
    AndWords(a[..n], b[..n]) + a[n..]
  }

  function Filled(a: seq<word>, b: seq<word>, n: nat): (c: seq<word>)
    requires n <= |a| == |b|
    ensures |c| == |a|
  {
    OrWords(a[..n], b[..n]) + a[n..]
  }

  lemma MaskedStep(a: seq<word>, b: seq<word>, n: nat)
    requires n < |a| == |b|
    ensures Masked(a, b, n)[n] == a[n] && Masked(a, b, n)[n := AndWord(a[n], b[n])] == Masked(a, b, n + 1)
  {
  }

  lemma FilledStep(a: seq<word>, b: seq<word>, n: nat)
    requires n < |a| == |b|
    ensures Filled(a, b, n)[n] == a[n] && Filled(a, b, n)[n := OrWord(a[n], b[n])] == Filled(a, b, n + 1)
  {
  }

  function InvertWord(x: word): word { 0xffff_ffff - x }

  function Inverted(a: seq<word>, n: nat): (c: seq<word>)
    requires n <= |a|
    ensures |c| == |a|
  {
    seq(|a|, i requires 0 <= i < |a| => if i < n then InvertWord(a[i]) else a[i])
  }

  function Netmask(af: Family, l: nat): (m: Address)
    ensures Valid(m) && m.af == af
  {
    Address(af, MaskWords(l, 4), 0)
  }

  function Hostmask(af: Family, l: nat): (m: Address)
    ensures Valid(m) && m.af == af
  {
    Address(af, Inverted(MaskWords(l, 4), Used(af)), 0)
  }

  /** The last address of the network of length l around `a`. */
  function LastOf(a: Address, l: nat): (b: Address)
    requires Valid(a)
    ensures Valid(b) && b.af == a.af && b.scope == a.scope
  {
    a.(words := Filled(a.words, Hostmask(a.af, l).words, Used(a.af)))
  }

  lemma {:induction false} InvertedNumber(ws: seq<word>)
    ensures FromWords(Inverted(ws, |ws|)) + FromWords(ws) == Pow2(32 * |ws|) - 1
  {
    if ws != [] {
      var n := |ws| - 1;
      var p := ws[..n];
      assert Inverted(ws, n + 1)[..n] == Inverted(p, n);
      InvertedNumber(p);
      ShlAdd(FromWords(Inverted(p, n)), FromWords(p), 32);
      TopCarry(32 * n, Pow2(32 * n) - 1, 32);
      PowValues();
    }
  }

  function HostWords(l: nat, n: nat): (c: seq<word>)
    ensures |c| == n
  {
    Inverted(MaskWords(l, n), n)
  }

  /** The host mask of length l over n words is the number 2^(32n-l) - 1. */
  lemma HostmaskNumber(l: nat, n: nat)
    requires l <= 32 * n
    ensures FromWords(HostWords(l, n)) == Pow2(32 * n - l) - 1
  {
    NetmaskNumber(l, n);
    InvertedNumber(MaskWords(l, n));
  }

  lemma NumberBelow(a: Address)
    requires Valid(a)
    ensures Number(a) < Pow2(Width(a.af))
  {
    WordsBelow(a.words[..Used(a.af)]);
  }

  /** AND with the netmask keeps the quotient by 2^(W-l) and clears the rest. */
  lemma MaskedWords(ws: seq<word>, b: seq<word>, m: nat)
    requires |ws| == |b| && m <= 32 * |ws| && FromWords(b) == MaskNumber(32 * |ws|, m)
    ensures FromWords(AndWords(ws, b)) == Shl(Shr(FromWords(ws), m), m)
  {
    AndNumber(ws, b);
    WordsBelow(ws);
    MaskedNumber(FromWords(ws), FromWords(b), 32 * |ws|, m);
  }

  lemma FilledWords(ws: seq<word>, b: seq<word>, m: nat)
    requires |ws| == |b| && FromWords(b) == Pow2(m) - 1
    ensures FromWords(OrWords(ws, b)) == Shl(Shr(FromWords(ws), m), m) + (Pow2(m) - 1)
  {
    OrNumber(ws, b);
    FilledNumber(FromWords(ws), FromWords(b), m);
  }

  lemma HostPartOfWords(ws: seq<word>, b: seq<word>, m: nat)
    requires |ws| == |b| && FromWords(b) == Pow2(m) - 1
    ensures FromWords(AndWords(ws, b)) == 0 <==> FromWords(ws) == Shl(Shr(FromWords(ws), m), m)
  {
    AndNumber(ws, b);
    HostZeroIff(FromWords(ws), FromWords(b), m);
  }

  /** Shifting right and left divides and multiplies. */
  lemma ShiftsDivide(x: nat, m: nat)
    ensures Shr(x, m) == x / Pow2(m) && Shl(Shr(x, m), m) == Pow2(m) * (x / Pow2(m))
    ensures x == Shl(Shr(x, m), m) <==> x % Pow2(m) == 0
  {
    ShrIsDiv(x, m);
    ShlIsMul(Shr(x, m), m);
    assert x == Pow2(m) * (x / Pow2(m)) + x % Pow2(m);
  }

  lemma MaskedIs(a: Address, l: nat)
    requires Valid(a) && l <= Width(a.af)
    ensures var m := Width(a.af) - l;
            Number(a.(words := Masked(a.words, Netmask(a.af, l).words, Used(a.af)))) ==
            Pow2(m) * (Number(a) / Pow2(m))
  {
    var n, b := Used(a.af), Netmask(a.af, l).words;
    assert b[..n] == MaskWords(l, n);
    assert Masked(a.words, b, n)[..n] == AndWords(a.words[..n], b[..n]);
    NetmaskNumber(l, n);
    MaskedWords(a.words[..n], b[..n], Width(a.af) - l);
    ShiftsDivide(Number(a), Width(a.af) - l);
  }

  lemma LastIs(a: Address, l: nat)
    requires Valid(a) && l <= Width(a.af)
    ensures var m := Width(a.af) - l;
            Number(LastOf(a, l)) == Pow2(m) * (Number(a) / Pow2(m)) + (Pow2(m) - 1)
  {
    var n, b := Used(a.af), Hostmask(a.af, l).words;
    assert b[..n] == HostWords(l, n);
    assert LastOf(a, l).words[..n] == OrWords(a.words[..n], b[..n]);
    HostmaskNumber(l, n);
    FilledWords(a.words[..n], b[..n], Width(a.af) - l);
    ShiftsDivide(Number(a), Width(a.af) - l);
  }

  /** The last W - l binary digits are zero. */
  predicate HostZero(a: Address, l: nat)
    requires Valid(a) && l <= Width(a.af)
  {
    Number(a) % Pow2(Width(a.af) - l) == 0
  }

  lemma HostPart(a: Address, l: nat)
    requires Valid(a) && l <= Width(a.af)
    ensures var c := Masked(a.words, Hostmask(a.af, l).words, Used(a.af));
            FromWords(c[..Used(a.af)]) == 0 <==> HostZero(a, l)
  {
    var n, b := Used(a.af), Hostmask(a.af, l).words;
    assert b[..n] == HostWords(l, n);
    assert Masked(a.words, b, n)[..n] == AndWords(a.words[..n], b[..n]);
    HostmaskNumber(l, n);
    HostPartOfWords(a.words[..n], b[..n], Width(a.af) - l);
    ShiftsDivide(Number(a), Width(a.af) - l);
  }

  lemma {:induction false} ZeroNumber(ws: seq<word>)
    ensures FromWords(ws) == 0 <==> forall i :: 0 <= i < |ws| ==> ws[i] == 0
  {
    if ws != [] {
      var p := ws[..|ws| - 1];
      ZeroNumber(p);
      ShlIsMul(FromWords(p), 32);
      PowValues();
      assert (forall i :: 0 <= i < |ws| ==> ws[i] == 0) <==> (forall i :: 0 <= i < |p| ==> p[i] == 0) && ws[|ws| - 1] == 0;
    }
  }

  // ----- order

  predicate Known(af: Family) { af != OtherFamily }

  /** An IPv4 address has no zone; two IPv6 addresses agree when their zones are the same. */
  predicate ScopesAgree(a: Address, b: Address) { a.af == Inet6 ==> a.scope == b.scope }

  predicate Same(a: Address, b: Address)
    requires Valid(a) && Valid(b)
  {
    a.af == b.af && Number(a) == Number(b) && ScopesAgree(a, b)
  }

  /** IPv4 before IPv6, then by number, then by zone. */
  predicate Before(a: Address, b: Address)
    requires Valid(a) && Valid(b)
  {
    (a.af == Inet && b.af == Inet6)
    || (a.af == b.af &&
        (Number(a) < Number(b) || (Number(a) == Number(b) && a.af == Inet6 && a.scope < b.scope)))
  }

  /** On the two known families this is a strict total order, up to Same. */
  lemma OrderLaws(a: Address, b: Address, c: Address)
    requires Valid(a) && Valid(b) && Valid(c) && Known(a.af) && Known(b.af) && Known(c.af)
    ensures Before(a, b) || Same(a, b) || Before(b, a)
    ensures Before(a, b) ==> !Same(a, b) && !Before(b, a)
    ensures Before(a, b) && Before(b, c) ==> Before(a, c)
  {
  }

  /** The bytes of the address in memory order. */
  function Octets(ws: seq<word>): (s: seq<byte>)
    ensures |s| == 4 * |ws|
  {
    if ws == [] then [] else Octets(ws[..|ws| - 1]) + Put32(ws[|ws| - 1])
  }

  lemma {:induction false} FromBytesAppend(s: seq<byte>, t: seq<byte>)
    ensures FromBytes(s + t) == FromBytes(t) + Shl(FromBytes(s), 8 * |t|)
  {
    if t == [] {
      assert s + t == s;
    } else {
      var u := t[..|t| - 1];
      FromBytesAppend(s, u);
      assert (s + t)[..|s + t| - 1] == s + u;
      ShlShl(FromBytes(s), 8 * |u|, 8);
      ShlIsMul(Shl(FromBytes(s), 8 * |u|), 8);
      PowValues();
    }
  }

  lemma {:induction false} OctetsNumber(ws: seq<word>)
    ensures FromBytes(Octets(ws)) == FromWords(ws)
  {
    if ws != [] {
      var p := ws[..|ws| - 1];
      OctetsNumber(p);
      FromBytesAppend(Octets(p), Put32(ws[|ws| - 1]));
      PowValues();
      RoundTrip(ws[|ws| - 1], 4);
    }
  }

  /** The first byte that differs decides which number is larger. */
  lemma {:induction false} FirstDifference(s: seq<byte>, t: seq<byte>, k: nat)
    requires |s| == |t| && k < |s| && s[..k] == t[..k] && s[k] < t[k]
    ensures FromBytes(s) < FromBytes(t)
  {
    var n := |s| - 1;
    if k < n {
      assert s[..n][..k] == s[..k] && t[..n][..k] == t[..k];
      FirstDifference(s[..n], t[..n], k);
    }
  }

  // ----- increment

  function PlusOne(x: word): word { var n: nat := x; (n + 1) % 0x1_0000_0000 }

  /** Add one at the last word and carry towards the first. */
  function IncWords(ws: seq<word>): (r: seq<word>)
    ensures |r| == |ws|
  {
    if ws == [] then []
    else
      var n := |ws| - 1;
      if ws[n] < 0xffff_ffff then ws[..n] + [ws[n] + 1] else IncWords(ws[..n]) + [0]
  }

  lemma {:induction false} IncNumber(ws: seq<word>)
    ensures FromWords(ws) < Pow2(32 * |ws|)
    ensures FromWords(IncWords(ws)) == if FromWords(ws) + 1 == Pow2(32 * |ws|) then 0 else FromWords(ws) + 1
  {
    WordsBelow(ws);
    if ws != [] {
      var n := |ws| - 1;
      var p, r := ws[..n], IncWords(ws);
      IncNumber(p);
      assert r[..n] == if ws[n] < 0xffff_ffff then p else IncWords(p);
      WordsBelow(r);
      PowValues();
      ShlAdd(FromWords(p), 1, 32);
      ShlOne(32);
      TopCarry(32 * n, FromWords(p), 32);
    }
  }

  /** Adding 2^n to x * 2^n leaves the range only when x is the largest of m digits. */
  lemma TopCarry(m: nat, x: nat, n: nat)
    requires x < Pow2(m)
    ensures Shl(x, n) + Pow2(n) == Pow2(m + n) <==> x + 1 == Pow2(m)
  {
    ShlOne(m);
    ShlShl(1, m, n);
    ShlOne(m + n);
    ShlAdd(x, 1, n);
    ShlOne(n);
    if x + 1 < Pow2(m) { ShlMono(x + 1, Pow2(m), n); }
  }

  function Incremented(a: Address): (b: Address)
    requires Valid(a)
    ensures Valid(b) && b.af == a.af && b.scope == a.scope
  {
    var n := Used(a.af);
    a.(words := IncWords(a.words[..n]) + a.words[n..])
  }

  /** addr_increment adds one modulo 2^W. */
  lemma IncrementIs(a: Address)
    requires Valid(a)
    ensures Number(Incremented(a)) == (Number(a) + 1) % Pow2(Width(a.af))
  {
    var n := Used(a.af);
    IncNumber(a.words[..n]);
    assert Incremented(a).words[..n] == IncWords(a.words[..n]);
    WrapOnce(Number(a), Pow2(Width(a.af)));
  }

  lemma WrapOnce(x: nat, m: nat)
    requires x < m
    ensures (x + 1) % m == if x + 1 == m then 0 else x + 1
  {
    if x + 1 < m { DivUnique(x + 1, m, 0, x + 1); } else { DivUnique(x + 1, m, 1, 0); }
  }

  function Steps(a: Address, k: nat): (b: Address)
    requires Valid(a)
    ensures Valid(b) && b.af == a.af && b.scope == a.scope
  {
    if k == 0 then a else Incremented(Steps(a, k - 1))
  }

  /** Below the top of the family, k increments add k. */
  lemma {:induction false} StepsAdd(a: Address, k: nat)
    requires Valid(a) && Number(a) + k < Pow2(Width(a.af))
    ensures Number(Steps(a, k)) == Number(a) + k
  {
    if k > 0 {
      StepsAdd(a, k - 1);
      IncrementIs(Steps(a, k - 1));
      WrapOnce(Number(a) + k - 1, Pow2(Width(a.af)));
    }
  }

  // ----- CIDR matching

  /** The host is in the network: same family, same zone, same quotient by 2^(W-l). */
  predicate InNetwork(host: Address, net: Address, l: nat)
    requires Valid(host) && Valid(net) && l <= Width(net.af)
  {
    var size := Pow2(Width(net.af) - l);
    host.af == net.af && ScopesAgree(host, net) && Number(host) / size == Number(net) / size
  }

  /** A network is the interval, in address order, from its first to its last address, as far
      as it is of the same family and zone. */
  lemma NetworkIsInterval(host: Address, net: Address, l: nat)
    requires Valid(host) && Valid(net) && l <= Width(net.af) && HostZero(net, l)
    ensures InNetwork(host, net, l) <==>
            && host.af == net.af && ScopesAgree(host, net)
            && !Before(host, net) && !Before(LastOf(net, l), host)
  {
    var m := Width(net.af) - l;
    LastIs(net, l);
    ShiftsDivide(Number(net), m);
    ShiftsDivide(Number(host), m);
    NetworkIsRange(Number(host), Shr(Number(net), m), m);
  }

  /** Masking a host gives `net` exactly when `net` has no host part and the quotients agree. */
  lemma MaskedEqualsIff(x: nat, y: nat, m: nat)
    ensures Pow2(m) * (x / Pow2(m)) == y <==> y % Pow2(m) == 0 && x / Pow2(m) == y / Pow2(m)
  {
    ShiftsDivide(x, m);
    ShiftsDivide(y, m);
    ShlInjective(Shr(x, m), Shr(y, m), m);
    ShrOfShl(Shr(x, m), m);
  }

  lemma NetworkFits(net: Address, l: nat)
    requires Valid(net) && l <= Width(net.af) && HostZero(net, l)
    ensures Number(net) + Pow2(Width(net.af) - l) <= Pow2(Width(net.af))
  {
    var m := Width(net.af) - l;
    var q := Shr(Number(net), m);
    ShiftsDivide(Number(net), m);
    NumberBelow(net);
    ShrBelow(Number(net), m, l);
    ShlOne(l);
    ShlShl(1, l, m);
    ShlOne(m + l);
    ShlMono(q, Pow2(l), m);
  }

  /** The network is what repeated increments from its first address visit before 2^(W-l) steps. */
  lemma IncrementsEnumerate(host: Address, net: Address, l: nat)
    requires Valid(host) && Valid(net) && l <= Width(net.af) && HostZero(net, l)
    ensures InNetwork(host, net, l) <==>
            exists k: nat :: k < Pow2(Width(net.af) - l) && Same(Steps(net, k), host)
  {
    var m := Width(net.af) - l;
    var q := Shr(Number(net), m);
    NetworkFits(net, l);
    ShiftsDivide(Number(net), m);
    ShiftsDivide(Number(host), m);
    NetworkIsRange(Number(host), q, m);
    if InNetwork(host, net, l) {
      var k: nat := Number(host) - Number(net);
      StepsAdd(net, k);
      assert Same(Steps(net, k), host);
    }
    forall k: nat | k < Pow2(m) && Same(Steps(net, k), host) ensures InNetwork(host, net, l) {
      StepsAdd(net, k);
    }
  }

  /** struct xaddr. */
  class XAddr {
    var af: Family
    var words: seq<word>
    var scope: word

    predicate Ok() reads this { |words| == 4 }

    function Value(): (a: Address)
      reads this
      requires Ok()
      ensures Valid(a)
    {
      Address(af, words, scope)
    }

    constructor (a: Address)
      requires Valid(a)
      ensures Ok() && Value() == a
    {
      af, words, scope := a.af, a.words, a.scope;
    }

    constructor Uninitialised()
      ensures Ok()
    {
      words := [0, 0, 0, 0];
    }

    /** addr_netmask: nothing is written when the length does not fit the family. */
    method SetNetmask(family: Family, masklen: nat) returns (r: int)
      requires Ok()
      modifies this
      ensures Ok()
      ensures r == if Known(family) && masklen <= Width(family) then 0 else -1
      ensures Value() == if r == 0 then Netmask(family, masklen) else old(Value())
    {
      if !Known(family) || masklen > Width(family) { return -1; }
      af, words, scope := family, [0, 0, 0, 0], 0;
      if family == Inet {
        if masklen != 0 { words := words[0 := MaskWord(masklen)]; }
        PowValues();
        assert words == MaskWords(masklen, 4);
        return 0;
      }
      var i, l: nat := 0, masklen;
      while i < 4 && l >= 32
        invariant 0 <= i <= 4 && l == masklen - 32 * i && Ok()
        invariant af == family && scope == 0
        invariant forall j :: 0 <= j < 4 ==> words[j] == if j < i then 0xffff_ffff else 0
      {
        words := words[i := 0xffff_ffff];
        i, l := i + 1, l - 32;
      }
      if i < 4 && l != 0 { words := words[i := MaskWord(l)]; }
      assert words == MaskWords(masklen, 4);
      return 0;
    }

    method Invert() returns (r: int)
      requires Ok()
      modifies this`words
      ensures Ok() && words == Inverted(old(words), Used(af))
      ensures r == if Known(af) then 0 else -1
    {
      match af
      case Inet =>
        words := words[0 := InvertWord(words[0])];
        r := 0;
      case Inet6 =>
        for i := 0 to 4
          invariant Ok() && words == Inverted(old(words), i)
        {
          words := words[i := InvertWord(words[i])];
        }
        r := 0;
      case OtherFamily =>
        r := -1;
    }

    method SetHostmask(family: Family, masklen: nat) returns (r: int)
      requires Ok()
      modifies this
      ensures Ok()
      ensures r == if Known(family) && masklen <= Width(family) then 0 else -1
      ensures Value() == if r == 0 then Hostmask(family, masklen) else old(Value())
    {
      r := SetNetmask(family, masklen);
      if r == -1 { return; }
      r := Invert();
    }

    method CopyFrom(a: XAddr)
      requires a.Ok()
      modifies this
      ensures Ok() && Value() == old(a.Value())
    {
      af, words, scope := a.af, a.words, a.scope;
    }

    /** The first words of this address combined with those of `b`, in place. */
    method AndWith(b: XAddr) returns (r: int)
      requires Ok() && b.Ok()
      modifies this`words
      ensures words == Masked(old(words), old(b.words), Used(af)) && r == if Known(af) then 0 else -1
    {
      ghost var left, right := words, b.words;
      assert words == Masked(left, right, 0);
      if af == Inet {
        MaskedStep(left, right, 0);
        words := words[0 := AndWord(words[0], b.words[0])];
        return 0;
      } else if af == Inet6 {
        for i := 0 to 4
          invariant words == Masked(left, right, i) && (b != this ==> b.words == right)
        {
          MaskedStep(left, right, i);
          words := words[i := AndWord(words[i], b.words[i])];
        }
        return 0;
      } else {
        return -1;
      }
    }

    /** addr_and and addr_or copy `a` first, so a destination that is also `b` combines `a` with
        itself; a destination that is also `a` is harmless. */
    method SetAnd(a: XAddr, b: XAddr) returns (r: int)
      requires Ok() && a.Ok() && b.Ok()
      modifies this
      ensures Ok()
      ensures r == if old(a.af == b.af && Known(a.af)) then 0 else -1
      ensures old(a.af != b.af) ==> Value() == old(Value())
      ensures old(a.af == b.af) ==>
              var other := if b == this then old(a.words) else old(b.words);
              Value() == old(a.Value()).(words := Masked(old(a.words), other, Used(old(a.af))))
    {
      if a.af != b.af { return -1; }
      CopyFrom(a);
      r := AndWith(b);
    }

    /** The first words of this address combined with those of `b`, in place. */
    method OrWith(b: XAddr) returns (r: int)
      requires Ok() && b.Ok()
      modifies this`words
      ensures words == Filled(old(words), old(b.words), Used(af)) && r == if Known(af) then 0 else -1
    {
      ghost var left, right := words, b.words;
      assert words == Filled(left, right, 0);
      if af == Inet {
        FilledStep(left, right, 0);
        words := words[0 := OrWord(words[0], b.words[0])];
        return 0;
      } else if af == Inet6 {
        for i := 0 to 4
          invariant words == Filled(left, right, i) && (b != this ==> b.words == right)
        {
          FilledStep(left, right, i);
          words := words[i := OrWord(words[i], b.words[i])];
        }
        return 0;
      } else {
        return -1;
      }
    }

    method SetOr(a: XAddr, b: XAddr) returns (r: int)
      requires Ok() && a.Ok() && b.Ok()
      modifies this
      ensures Ok()
      ensures r == if old(a.af == b.af && Known(a.af)) then 0 else -1
      ensures old(a.af != b.af) ==> Value() == old(Value())
      ensures old(a.af == b.af) ==>
              var other := if b == this then old(a.words) else old(b.words);
              Value() == old(a.Value()).(words := Filled(old(a.words), other, Used(old(a.af))))
    {
      if a.af != b.af { return -1; }
      CopyFrom(a);
      r := OrWith(b);
    }

    /** addr_cmp: for the two known families the sign of the result is the order of addresses. */
    method Compare(b: XAddr) returns (r: int)
      requires Ok() && b.Ok()
      ensures Known(af) && Known(b.af) ==>
              (r < 0 <==> Before(Value(), b.Value())) && (r == 0 <==> Same(Value(), b.Value()))
      ensures !Known(af) ==> r == -1
      ensures Known(af) && !Known(b.af) ==> r == if af == Inet6 then 1 else -1
    {
      if af != b.af { return if af == Inet6 then 1 else -1; }
      match af
      case Inet =>
        OneWord(words);
        OneWord(b.words);
        r := if words[0] == b.words[0] then 0 else if words[0] > b.words[0] then 1 else -1;
      case Inet6 =>
        var s, t := Octets(words), Octets(b.words);
        assert words[..4] == words && b.words[..4] == b.words;
        OctetsNumber(words);
        OctetsNumber(b.words);
        for i := 0 to 16
          invariant s[..i] == t[..i]
        {
          var x: int, y: int := s[i], t[i];
          if x - y != 0 {
            if x < y { FirstDifference(s, t, i); } else { FirstDifference(t, s, i); }
            return x - y;
          }
        }
        assert s == s[..16] && t == t[..16];
        r := if scope == b.scope then 0 else if scope > b.scope then 1 else -1;
      case OtherFamily =>
        r := -1;
    }

    method IsAll0s() returns (r: int)
      requires Ok()
      ensures r == if Known(af) && Number(Value()) == 0 then 0 else -1
    {
      ZeroNumber(words[..Used(af)]);
      match af
      case Inet =>
        assert words[..1][0] == words[0];
        r := if words[0] == 0 then 0 else -1;
      case Inet6 =>
        for i := 0 to 4
          invariant forall j :: 0 <= j < i ==> words[j] == 0
        {
          if words[i] != 0 {
            assert words[..4][i] != 0;
            return -1;
          }
        }
        r := 0;
      case OtherFamily =>
        r := -1;
    }

    /** The loop of addr_increment over the words of an IPv6 address. */
    method Carry()
      requires Ok()
      modifies this`words
      ensures words == IncWords(old(words))
    {
      ghost var was := words;
      assert was[..4] == was;
      for i := 0 to 4
        invariant Carrying(was, words, 4 - i, true)
      {
        CarryStep(was, words, 3 - i);
        var n := PlusOne(words[3 - i]);
        words := words[3 - i := n];
        if n != 0 {
          CarryDone(was, words, 3 - i, false);
          return;
        }
      }
      CarryDone(was, words, 0, true);
    }

    method Increment()
      requires Ok()
      modifies this`words
      ensures Ok() && Value() == Incremented(old(Value()))
      ensures Number(Value()) == (Number(old(Value())) + 1) % Pow2(Width(af))
    {
      ghost var was := words;
      IncrementIs(Value());
      match af
      case Inet =>
        words := words[0 := PlusOne(words[0])];
        IncLast(was[..1]);
        assert was[..1][..0] == [];
        assert words == IncWords(was[..1]) + was[1..];
      case Inet6 =>
        Carry();
        assert was[..4] == was;
        assert words == IncWords(was[..4]) + was[4..];
      case OtherFamily =>
        assert words == IncWords(was[..0]) + was[0..];
    }

    method HostIsAll0s(masklen: nat) returns (r: int)
      requires Ok()
      ensures r == 0 <==> Known(af) && masklen <= Width(af) && HostZero(Value(), masklen)
      ensures r == 0 || r == -1
    {
      var addr := new XAddr(Value());
      var mask := new XAddr.Uninitialised();
      var result := new XAddr.Uninitialised();
      r := mask.SetHostmask(af, masklen);
      if r == -1 { return; }
      r := result.SetAnd(addr, mask);
      if r == -1 { return; }
      HostPart(Value(), masklen);
      r := result.IsAll0s();
    }

    /** addr_host_to_all1s: the destination of the OR is its own first operand. */
    method HostToAll1s(masklen: nat) returns (r: int)
      requires Ok()
      modifies this
      ensures Ok()
      ensures r == if Known(old(af)) && masklen <= Width(old(af)) then 0 else -1
      ensures Value() == if r == 0 then LastOf(old(Value()), masklen) else old(Value())
    {
      var mask := new XAddr.Uninitialised();
      r := mask.SetHostmask(af, masklen);
      if r == -1 { return; }
      r := SetOr(this, mask);
    }

    /** addr_netmatch, called on the host: 0 exactly when `net` is a network address of that
        length and the host lies in it. */
    method Netmatch(net: XAddr, masklen: nat) returns (r: int)
      requires Ok() && net.Ok()
      ensures r == 0 <==>
              Known(net.af) && masklen <= Width(net.af) && HostZero(net.Value(), masklen) &&
              InNetwork(Value(), net.Value(), masklen)
    {
      if af != net.af { return -1; }
      var mask := new XAddr.Uninitialised();
      var result := new XAddr.Uninitialised();
      r := mask.SetNetmask(af, masklen);
      if r == -1 { return; }
      r := result.SetAnd(this, mask);
      if r == -1 { return; }
      MaskedIs(Value(), masklen);
      MaskedEqualsIff(Number(Value()), Number(net.Value()), Width(af) - masklen);
      r := result.Compare(net);
    }
  }

  lemma PlusOneIs(x: word)
    ensures PlusOne(x) == if x < 0xffff_ffff then x + 1 else 0
  {
  }

  lemma {:induction false} IncLast(s: seq<word>)
    requires s != []
    ensures var j := |s| - 1;
            var n := PlusOne(s[j]);
            IncWords(s) == (if n != 0 then s[..j] else IncWords(s[..j])) + [n]
  {
    PlusOneIs(s[|s| - 1]);
  }

  /** The carry loop with the words from j on done: a carry, if any, is still to reach the others. */
  predicate Carrying(was: seq<word>, now: seq<word>, j: nat, carry: bool)
  {
    && j <= |was| == |now|
    && now[..j] == was[..j]
    && IncWords(was) == (if carry then IncWords(was[..j]) else was[..j]) + now[j..]
  }

  lemma CarryDone(was: seq<word>, now: seq<word>, j: nat, carry: bool)
    requires Carrying(was, now, j, carry) && (j == 0 || !carry)
    ensures now == IncWords(was)
  {
    assert now == now[..j] + now[j..] && was[..0] == [];
  }

  /** One turn of the carry loop at word j. */
  lemma CarryStep(was: seq<word>, now: seq<word>, j: nat)
    requires Carrying(was, now, j + 1, true)
    ensures var n := PlusOne(now[j]); Carrying(was, now[j := n], j, n == 0)
  {
    var n, s, tail := PlusOne(now[j]), was[..j + 1], now[j + 1..];
    var next, front := now[j := n], if n == 0 then IncWords(was[..j]) else was[..j];
    assert now[j] == now[..j + 1][j] == s[j] && next[..j] == now[..j + 1][..j];
    assert s[..j] == was[..j];
    IncLast(s);
    assert next[j..] == [n] + tail;
    assert (front + [n]) + tail == front + ([n] + tail);
  }

  lemma OneWord(ws: seq<word>)
    requires |ws| == 4
    ensures FromWords(ws[..1]) == ws[0]
  {
    assert ws[..1][..0] == [];
    ShlOne(32);
  }

  lemma ShlInjective(p: nat, q: nat, n: nat)
    ensures Shl(p, n) == Shl(q, n) <==> p == q
  {
    if p < q { ShlMono(p, q, n); } else if q < p { ShlMono(q, p, n); }
  }

  lemma {:induction false} ShrOfShl(q: nat, n: nat)
    ensures Shr(Shl(q, n), n) == q
  {
    if n > 0 { ShrOfShl(q, n - 1); }
  }
}
