/** The growable bit map of bitmap.c: an array of 32-bit words, least significant first,
that stands for a finite set of naturals, and its big-endian import and export. */
module Bitmap {
  import opened Bits
  import opened Wire

  const BITMAP_MAX := 0x100_0000

  // ----- words, numbers and sets

  /** The number whose base-2^32 digits, least significant first, are `ws`. */
  function Value(ws: seq<word>): nat
  {
    if ws == [] then 0 else ws[0] + Shl(Value(ws[1..]), 32)
  }

  /** The set whose members are the positions of the binary ones of `v`. */
  ghost function Members(v: nat): set<nat> { set n | 0 <= n < v && Bit(v, n) }

  lemma {:induction false} BelowPow(n: nat)
    ensures n < Pow2(n)
  {
    if n > 0 { BelowPow(n - 1); }
  }

  lemma MemberIffBit(v: nat, n: nat)
    ensures n in Members(v) <==> Bit(v, n)
  {
    if Bit(v, n) {
      BitNeedsSize(v, n);
      BelowPow(n);
    }
  }

  /** A set determines its number, so equal numbers and equal sets mean the same. */
  lemma SameMembers(a: nat, b: nat)
    requires Members(a) == Members(b)
    ensures a == b
  {
    forall k: nat ensures Bit(a, k) == Bit(b, k) {
      MemberIffBit(a, k);
      MemberIffBit(b, k);
    }
    SameBits(a, b);
  }

  /** Digit 32 * i + k of the value is digit k of word i. */
  lemma {:induction false} BitOfWord(ws: seq<word>, i: nat, k: nat)
    requires k < 32
    ensures Bit(Value(ws), 32 * i + k) <==> i < |ws| && Bit(ws[i], k)
  {
    PowValues();
    if ws == [] {
      ZeroHasNoBits(32 * i + k);
    } else {
      BitJoin(32, ws[0], Value(ws[1..]), 32 * i + k);
      if i > 0 { BitOfWord(ws[1..], i - 1, k); }
    }
  }

  lemma MemberOfWord(ws: seq<word>, n: nat)
    ensures n in Members(Value(ws)) <==> n / 32 < |ws| && Bit(ws[n / 32], n % 32)
  {
    MemberIffBit(Value(ws), n);
    BitOfWord(ws, n / 32, n % 32);
  }

  lemma {:induction false} ZeroWords(ws: seq<word>)
    requires forall i :: 0 <= i < |ws| ==> ws[i] == 0
    ensures Value(ws) == 0
  {
    if ws != [] {
      ZeroWords(ws[1..]);
      ShlOne(32);
    }
  }

  /** Appending zero words changes nothing. */
  lemma {:induction false} ValuePadded(ws: seq<word>, more: seq<word>)
    requires forall i :: 0 <= i < |more| ==> more[i] == 0
    ensures Value(ws + more) == Value(ws)
  {
    if ws == [] {
      assert ws + more == more;
      ZeroWords(more);
    } else {
      assert (ws + more)[1..] == ws[1..] + more;
      ValuePadded(ws[1..], more);
    }
  }

  /** Adding to one word adds to the value at that word's place. */
  lemma {:induction false} ValueAdd(ws: seq<word>, i: nat, x: nat)
    requires i < |ws| && ws[i] + x < 0x1_0000_0000
    ensures Value(ws[i := ws[i] + x]) == Value(ws) + Shl(x, 32 * i)
    decreases i
  {
    if i > 0 {
      assert ws[i := ws[i] + x][1..] == ws[1..][i - 1 := ws[i] + x];
      ValueAdd(ws[1..], i - 1, x);
      ShlAdd(Value(ws[1..]), Shl(x, 32 * (i - 1)), 32);
      ShlShl(x, 32 * (i - 1), 32);
    } else {
      assert ws[0 := ws[0] + x][1..] == ws[1..];
    }
  }

  // ----- binary length

  /** Number of binary digits. */
  function BitLen(v: nat): nat { if v == 0 then 0 else 1 + BitLen(v / 2) }

  function ByteLen(v: nat): nat { (BitLen(v) + 7) / 8 }

  lemma {:induction false} BitLenBounds(v: nat)
    ensures v < Pow2(BitLen(v))
    ensures v > 0 ==> BitLen(v) > 0 && Pow2(BitLen(v) - 1) <= v && Bit(v, BitLen(v) - 1)
  {
    if v > 0 { BitLenBounds(v / 2); }
  }

  lemma BitLenUnique(v: nat, n: nat)
    requires n > 0 && Bit(v, n - 1) && forall k: nat :: n <= k ==> !Bit(v, k)
    ensures BitLen(v) == n
  {
    BitNeedsSize(v, n - 1);
    BitLenBounds(v);
    if BitLen(v) < n { HighBitsClear(v, BitLen(v), n - 1); }
  }

  /** The binary length is one more than the largest member. */
  lemma BitLenIsMaximum(v: nat, n: nat)
    requires n in Members(v)
    ensures n < BitLen(v) && BitLen(v) - 1 in Members(v)
  {
    BitLenBounds(v);
    MemberIffBit(v, n);
    MemberIffBit(v, BitLen(v) - 1);
    if n >= BitLen(v) { HighBitsClear(v, BitLen(v), n); }
  }

  /** With the top word not zero, the binary length is that word's, above all lower words. */
  lemma BitLenOfTop(ws: seq<word>, top: nat)
    requires top < |ws| && ws[top] > 0 && forall i :: top < i < |ws| ==> ws[i] == 0
    ensures BitLen(Value(ws)) == 32 * top + BitLen(ws[top])
  {
    var v, b := Value(ws), BitLen(ws[top]);
    PowValues();
    BitLenBounds(ws[top]);
    if b > 32 { PowMono(32, b - 1); assert false; }
    BitOfWord(ws, top, b - 1);
    forall n: nat | 32 * top + b <= n ensures !Bit(v, n) {
      var i, k := n / 32, n % 32;
      BitOfWord(ws, i, k);
      if i == top { HighBitsClear(ws[top], b, k); } else if i < |ws| { ZeroHasNoBits(k); }
    }
    BitLenUnique(v, 32 * top + b);
  }

  /** Doubling while the top digit n is clear keeps a number below 2^(n+1), and every
      doubling adds one binary digit. */
  lemma DoubleStaysBelow(w: nat, n: nat)
    requires 0 < w < Pow2(n + 1) && !Bit(w, n)
    ensures 2 * w < Pow2(n + 1) && BitLen(2 * w) == BitLen(w) + 1 && BitLen(w) <= n
  {
    var b := BitLen(w);
    BitLenBounds(w);
    PowMono(b, n);
    assert (2 * w) / 2 == w;
  }

  lemma TopDigitSet(w: nat, n: nat)
    requires w < Pow2(n + 1) && Bit(w, n)
    ensures BitLen(w) == n + 1
  {
    forall k: nat | n + 1 <= k ensures !Bit(w, k) { HighBitsClear(w, n + 1, k); }
    BitLenUnique(w, n + 1);
  }

  function Doubled(w: word): word { (w * 2) % 0x1_0000_0000 }

  lemma DoubledWord(w: word)
    requires w > 0 && !Bit(w, 31)
    ensures Doubled(w) > 0 && BitLen(Doubled(w)) == BitLen(w) + 1 <= 32
  {
    PowValues();
    DoubleStaysBelow(w, 31);
    NoWrap(w);
  }

  lemma NoWrap(w: word)
    requires 2 * w < 0x1_0000_0000
    ensures Doubled(w) == 2 * w
  {
  }

  lemma FullWord(w: word)
    requires Bit(w, 31)
    ensures BitLen(w) == 32
  {
    PowValues();
    TopDigitSet(w, 31);
  }

  // ----- big-endian bytes

  /** The shortest big-endian form. */
  function Export(v: nat): seq<byte> { ToBytes(v, ByteLen(v)) }

  function DropZeros(s: seq<byte>): seq<byte>
  {
    if s != [] && s[0] == 0 then DropZeros(s[1..]) else s
  }

  lemma ExportFits(v: nat)
    ensures v < Pow2(8 * ByteLen(v))
    ensures v > 0 ==> ByteLen(v) > 0 && Pow2(8 * (ByteLen(v) - 1)) <= v
  {
    BitLenBounds(v);
    PowMono(BitLen(v), 8 * ByteLen(v));
    if v > 0 { PowMono(8 * (ByteLen(v) - 1), BitLen(v) - 1); }
  }

  /** Importing an export gives the number back, and no shorter string spells it. */
  lemma ImportExport(v: nat)
    ensures FromBytes(Export(v)) == v
    ensures forall s :: FromBytes(s) == v ==> |Export(v)| <= |s|
  {
    ExportFits(v);
    RoundTrip(v, ByteLen(v));
    forall s | FromBytes(s) == v ensures ByteLen(v) <= |s| {
      FromBytesBelow(s);
      if |s| < ByteLen(v) { PowMono(8 * |s|, 8 * (ByteLen(v) - 1)); }
    }
  }

  lemma {:induction false} FromBytesFront(s: seq<byte>)
    requires s != []
    ensures FromBytes(s) == Shl(s[0], 8 * (|s| - 1)) + FromBytes(s[1..])
  {
    if |s| > 1 {
      var n := |s| - 1;
      FromBytesFront(s[..n]);
      assert s[..n][1..] == s[1..][..n - 1];
      Shl8(s[0], 8 * (n - 1));
    }
  }

  lemma Shl8(x: nat, n: nat)
    ensures Shl(x, n + 8) == 256 * Shl(x, n)
  {
    assert Shl(x, n + 2) == 4 * Shl(x, n) && Shl(x, n + 4) == 4 * Shl(x, n + 2);
    assert Shl(x, n + 6) == 4 * Shl(x, n + 4) && Shl(x, n + 8) == 4 * Shl(x, n + 6);
  }

  lemma {:induction false} ShlAtLeast(x: nat, n: nat)
    requires x > 0
    ensures Shl(x, n) >= Pow2(n)
  {
    if n > 0 { ShlAtLeast(x, n - 1); }
  }

  lemma ByteLenUnique(v: nat, n: nat)
    requires n > 0 && Pow2(8 * (n - 1)) <= v < Pow2(8 * n)
    ensures ByteLen(v) == n
  {
    var m := ByteLen(v);
    ExportFits(v);
    if m < n { PowMono(8 * m, 8 * (n - 1)); } else if n < m { PowMono(8 * n, 8 * (m - 1)); }
  }

  /** Exporting an import drops the leading zero bytes. */
  lemma {:induction false} ExportImport(s: seq<byte>)
    ensures Export(FromBytes(s)) == DropZeros(s)
  {
    if s != [] {
      FromBytesFront(s);
      if s[0] == 0 {
        ShlOne(8 * (|s| - 1));
        ExportImport(s[1..]);
      } else {
        FromBytesBelow(s);
        ShlAtLeast(s[0], 8 * (|s| - 1));
        ByteLenUnique(FromBytes(s), |s|);
        ToFromBytes(s);
      }
    }
  }

  /** An export can be imported again exactly when no member reaches 2^24. */
  lemma {:induction false} ReimportableIff(v: nat)
    ensures |Export(v)| <= BITMAP_MAX / 8 <==> forall n :: n in Members(v) ==> n < BITMAP_MAX
  {
    var b := BitLen(v);
    BitLenBounds(v);
    if v > 0 { MemberIffBit(v, b - 1); }
    forall n | n in Members(v) ensures n < b { BitLenIsMaximum(v, n); }
    ByteLenBound(b);
  }

  lemma ByteLenBound(b: nat)
    ensures (b + 7) / 8 <= BITMAP_MAX / 8 <==> b <= BITMAP_MAX
  {
  }

  /** Position 2^24 can be set, but the map can then no longer be imported. */
  lemma LargestBitNotImportable()
    ensures |Export(Pow2(BITMAP_MAX))| > BITMAP_MAX / 8
  {
    BitPow2(BITMAP_MAX, BITMAP_MAX);
    MemberIffBit(Pow2(BITMAP_MAX), BITMAP_MAX);
    ReimportableIff(Pow2(BITMAP_MAX));
  }

  // ----- what the word operations do to the set

  function OneBit(k: nat): (w: word)
    requires k < 32
  {
    PowMono(k, 31);
    PowValues();
    Pow2(k)
  }

  function SetIn(w: word, k: nat): (r: word)
    requires k < 32
  {
    PowValues();
    OrBelow(w, OneBit(k), 32);
    Or(w, OneBit(k))
  }

  /** AND with the complement of one bit. */
  function ClearIn(w: word, k: nat): (r: word)
    requires k < 32
  {
    PowValues();
    AndBelow(w, 0xffff_ffff - OneBit(k), 32);
    And(w, 0xffff_ffff - OneBit(k))
  }

  lemma SetMember(ws: seq<word>, n: nat)
    requires n / 32 < |ws|
    ensures Members(Value(ws[n / 32 := SetIn(ws[n / 32], n % 32)])) == Members(Value(ws)) + {n}
  {
    var i, k := n / 32, n % 32;
    var us := ws[i := SetIn(ws[i], k)];
    forall m: nat ensures m in Members(Value(us)) <==> m in Members(Value(ws)) || m == n {
      MemberOfWord(us, m);
      MemberOfWord(ws, m);
      BitOr(ws[i], OneBit(k), m % 32);
      BitPow2(k, m % 32);
    }
  }

  lemma ClearMember(ws: seq<word>, n: nat)
    requires n / 32 < |ws|
    ensures Members(Value(ws[n / 32 := ClearIn(ws[n / 32], n % 32)])) == Members(Value(ws)) - {n}
  {
    var i, k := n / 32, n % 32;
    var us := ws[i := ClearIn(ws[i], k)];
    PowValues();
    forall m: nat ensures m in Members(Value(us)) <==> m in Members(Value(ws)) && m != n {
      MemberOfWord(us, m);
      MemberOfWord(ws, m);
      BitAnd(ws[i], 0xffff_ffff - OneBit(k), m % 32);
      BitNot(32, OneBit(k), m % 32);
      BitPow2(k, m % 32);
    }
  }

  // ----- bytes of words

  /** Byte 4 * i + j of the value, counted from the least significant, is byte j of word i. */
  lemma ByteOfWord(ws: seq<word>, i: nat, j: nat)
    requires i < |ws| && j < 4
    ensures Shr(Value(ws), 8 * (4 * i + j)) % 256 == Shr(ws[i], 8 * j) % 256
  {
    var v, m := Value(ws), 8 * (4 * i + j);
    forall k: nat | k < 8 ensures Bit(Shr(v, m), k) == Bit(Shr(ws[i], 8 * j), k) {
      BitShr(v, m, k);
      BitShr(ws[i], 8 * j, k);
      BitOfWord(ws, i, 8 * j + k);
    }
    SameLowByte(Shr(v, m), Shr(ws[i], 8 * j));
  }

  lemma {:induction false} ToBytesAt(v: nat, n: nat, m: nat)
    requires m < n
    ensures ToBytes(v, n)[n - 1 - m] == Shr(v, 8 * m) % 256
  {
    if m > 0 {
      ToBytesAt(v / 256, n - 1, m - 1);
      Shr8(v, 8 * (m - 1));
    }
  }

  lemma Shr8(v: nat, n: nat)
    ensures Shr(v, n + 8) == Shr(v / 256, n)
  {
    assert Shr(v, n + 8) == Shr(v / 4, n + 6) && Shr(v / 4, n + 6) == Shr(v / 16, n + 4);
    assert Shr(v / 16, n + 4) == Shr(v / 64, n + 2) && Shr(v / 64, n + 2) == Shr(v / 256, n);
  }

  /** The lowest k bytes of v stand at the end of the first `need` bytes of p. */
  ghost predicate WrittenBack(p: seq<byte>, v: nat, need: nat, k: nat)
  {
    k <= need <= |p| && forall x :: need - k <= x < need ==> p[x] == Shr(v, 8 * (need - 1 - x)) % 256
  }

  lemma AllWritten(p: seq<byte>, v: nat, need: nat)
    requires WrittenBack(p, v, need, need)
    ensures p[..need] == ToBytes(v, need)
  {
    forall x | 0 <= x < need ensures p[x] == ToBytes(v, need)[x] { ToBytesAt(v, need, need - 1 - x); }
  }

  // ----- putting bytes into words

  lemma ByteInPlace(b: byte, j: nat)
    requires j < 4
    ensures Shl(b, 8 * j) < Pow2(8 * (j + 1)) <= Pow2(32)
  {
    PowValues();
    JoinBelow(8 * j, 0, 8, b);
    PowMono(8 * (j + 1), 32);
  }

  /** OR of a byte shifted to place j. */
  function OrByte(w: word, b: byte, j: nat): (r: word)
    requires j < 4
  {
    ByteInPlace(b, j);
    PowValues();
    OrBelow(w, Shl(b, 8 * j), 32);
    Or(w, Shl(b, 8 * j))
  }

  /** OR of numbers without a common digit is their sum. */
  lemma {:induction false} OrAdds(a: nat, b: nat)
    requires forall k: nat :: !(Bit(a, k) && Bit(b, k))
    ensures Or(a, b) == a + b
    decreases a + b
  {
    if a + b > 0 {
      assert !(Bit(a, 0) && Bit(b, 0));
      forall k: nat ensures !(Bit(a / 2, k) && Bit(b / 2, k)) { assert !(Bit(a, k + 1) && Bit(b, k + 1)); }
      OrAdds(a / 2, b / 2);
    }
  }

  lemma NextPlaceIsZero(ws: seq<word>, i: nat, j: nat, high: nat, b: byte, k: nat)
    requires i < |ws| && j < 4 && Value(ws) == Shl(high, 8 * (4 * i + j + 1))
    ensures !(Bit(ws[i], k) && Bit(Shl(b, 8 * j), k))
  {
    ByteInPlace(b, j);
    if k < 8 * (j + 1) {
      BitOfWord(ws, i, k);
      BitShl(high, 8 * (4 * i + j + 1), 32 * i + k);
    } else {
      HighBitsClear(Shl(b, 8 * j), 8 * (j + 1), k);
    }
  }

  /** Bytes are merged from the most significant on: below the place of the next byte all
      digits are still zero, so OR adds the byte at its place. */
  lemma MergeByte(ws: seq<word>, i: nat, j: nat, high: nat, b: byte)
    requires i < |ws| && j < 4 && Value(ws) == Shl(high, 8 * (4 * i + j + 1))
    ensures Value(ws[i := OrByte(ws[i], b, j)]) == Shl(256 * high + b, 8 * (4 * i + j))
  {
    var m, x := 8 * (4 * i + j), Shl(b, 8 * j);
    forall k: nat ensures !(Bit(ws[i], k) && Bit(x, k)) { NextPlaceIsZero(ws, i, j, high, b, k); }
    OrAdds(ws[i], x);
    assert OrByte(ws[i], b, j) == ws[i] + x;
    ValueAdd(ws, i, x);
    ShlShl(b, 8 * j, 32 * i);
    ShlAdd(256 * high, b, m);
    Shl8(high, 0);
    ShlShl(high, 8, m);
  }

  // ----- the map

  function Least(a: nat, b: nat): nat { if a <= b then a else b }

  class BitMap {
    var d: array<word>
    var top: nat

    ghost predicate Valid()
      reads this, d
    {
      top < d.Length && forall i :: top < i < d.Length ==> d[i] == 0
    }

    ghost function Number(): nat
      reads this, d
    {
      Value(d[..])
    }

    ghost function Set(): set<nat>
      reads this, d
    {
      Members(Number())
    }

    constructor ()
      ensures Valid() && fresh(d) && Number() == 0 && Set() == {}
    {
      d := new word[1](_ => 0);
      top := 0;
      new;
      ZeroWords(d[..]);
    }

    method Zero()
      requires Valid()
      modifies this, d
      ensures Valid() && d == old(d) && Number() == 0 && Set() == {}
      ensures forall i :: 0 <= i < d.Length ==> d[i] == 0
    {
      for i := 0 to d.Length
        modifies d
        invariant forall j :: 0 <= j < i ==> d[j] == 0
      {
        d[i] := 0;
      }
      top := 0;
      ZeroWords(d[..]);
    }

    method TestBit(n: word) returns (r: bool)
      requires Valid()
      ensures r <==> n in Set()
    {
      MemberOfWord(d[..], n);
      if n / 32 > top {
        ZeroHasNoBits(n % 32);
        return false;
      }
      BitShr(d[n / 32], n % 32, 0);
      r := Shr(d[n / 32], n % 32) % 2 == 1;
    }

    /** Makes room for position n; growth keeps every member. */
    method Reserve(n: nat) returns (ok: bool)
      requires Valid()
      modifies this
      ensures Valid() && top == old(top) && Number() == old(Number())
      ensures ok <==> n <= BITMAP_MAX
      ensures ok ==> n / 32 < d.Length
      ensures d == old(d) || fresh(d)
    {
      if n > BITMAP_MAX { return false; }
      var nlen := n / 32 + 1;
      if d.Length < nlen {
        var tmp := new word[nlen](i requires 0 <= i < nlen reads this, d => if i < d.Length then d[i] else 0);
        assert tmp[..] == d[..] + tmp[d.Length..];
        ValuePadded(d[..], tmp[d.Length..]);
        d := tmp;
      }
      ok := true;
    }

    method SetBit(n: nat) returns (ok: bool)
      requires Valid()
      modifies this, d
      ensures Valid() && (d == old(d) || fresh(d))
      ensures ok <==> n <= BITMAP_MAX
      ensures Set() == if ok then old(Set()) + {n} else old(Set())
    {
      ok := Reserve(n);
      if !ok { return; }
      var offset := n / 32;
      if offset > top { top := offset; }
      SetMember(d[..], n);
      ghost var before := d[..];
      d[offset] := SetIn(d[offset], n % 32);
      assert d[..] == before[offset := SetIn(before[offset], n % 32)];
    }

    /** Lowers `top` to the highest word that is not zero. */
    method Retop()
      requires Valid()
      modifies this`top
      ensures Valid() && top <= old(top) && (top == 0 || d[top] != 0)
    {
      while top > 0 && d[top] == 0
        invariant Valid() && top <= old(top)
      {
        top := top - 1;
      }
    }

    method ClearBit(n: nat)
      requires Valid()
      modifies this, d
      ensures Valid() && d == old(d)
      ensures Set() == if n <= BITMAP_MAX then old(Set()) - {n} else old(Set())
    {
      if n > BITMAP_MAX { return; }
      var offset := n / 32;
      if offset > top {
        MemberOfWord(d[..], n);
        ZeroHasNoBits(n % 32);
        return;
      }
      ClearMember(d[..], n);
      ghost var before := d[..];
      d[offset] := ClearIn(d[offset], n % 32);
      assert d[..] == before[offset := ClearIn(before[offset], n % 32)];
      Retop();
    }

    /** One more than the largest member (BitLenIsMaximum), or zero for the empty set. */
    method Nbits() returns (bits: nat)
      requires Valid()
      modifies this`top
      ensures Valid() && bits == BitLen(Number()) <= 32 * (top + 1)
    {
      Retop();
      if top == 0 && d[0] == 0 {
        ZeroWords(d[..]);
        return 0;
      }
      BitLenOfTop(d[..], top);
      PowValues();
      bits := (top + 1) * 32;
      var zeros := LeadingZeros(d[top]);
      bits := bits - zeros;
    }

    /** The shift loop: how often the word is doubled until its top bit is set. */
    method LeadingZeros(x: word) returns (zeros: nat)
      requires x > 0
      ensures zeros + BitLen(x) == 32
    {
      var w := x;
      zeros := 0;
      while !Bit(w, 31)
        invariant 0 < w && BitLen(w) == zeros + BitLen(x)
        decreases 32 - BitLen(w)
      {
        DoubledWord(w);
        w := Doubled(w);
        zeros := zeros + 1;
      }
      FullWord(w);
    }

    /** Writes the shortest big-endian form at the start of `p`, if `l` bytes are enough. */
    method ToString(p: array<byte>, l: nat) returns (ok: bool)
      requires Valid() && l <= p.Length && p as object != d as object
      modifies this`top, p
      ensures Valid() && Number() == old(Number())
      ensures ok <==> l >= |Export(Number())|
      ensures ok ==> p[..|Export(Number())|] == Export(Number())
      ensures forall i :: (if ok then |Export(Number())| else 0) <= i < p.Length ==> p[i] == old(p[i])
    {
      var bits := Nbits();
      var need := (bits + 7) / 8;
      if l < need { return false; }
      ghost var v := Number();
      var i, k := 0, 0;
      while i < top + 1
        modifies p
        invariant 0 <= i <= top + 1 && k == Least(4 * i, need)
        invariant WrittenBack(p[..], v, need, k)
        invariant forall m :: need <= m < p.Length ==> p[m] == old(p[m])
      {
        k := WriteWord(p, need, i, k);
        i := i + 1;
      }
      ok := true;
      AllWritten(p[..], v, need);
    }

    /** The bytes of one word, from the end backwards, until all needed bytes are there. */
    method WriteWord(p: array<byte>, need: nat, i: nat, start: nat) returns (k: nat)
      requires i < d.Length && need <= p.Length && start == Least(4 * i, need) && p as object != d as object
      requires WrittenBack(p[..], Number(), need, start)
      modifies p
      ensures k == Least(4 * (i + 1), need) && WrittenBack(p[..], Number(), need, k)
      ensures forall m :: need <= m < p.Length ==> p[m] == old(p[m])
    {
      k := start;
      for j := 0 to 4
        invariant k == Least(4 * i + j, need) && WrittenBack(p[..], Number(), need, k)
        invariant forall m :: need <= m < p.Length ==> p[m] == old(p[m])
      {
        if k >= need { break; }
        ByteOfWord(d[..], i, j);
        ghost var before := p[..];
        p[need - 1 - k] := Shr(d[i], 8 * j) % 256;
        assert p[..] == before[need - 1 - k := p[need - 1 - k]];
        k := k + 1;
      }
    }

    /** Replaces the set by the one that a big-endian string denotes. */
    method FromString(s: seq<byte>) returns (ok: bool)
      requires Valid()
      modifies this, d
      ensures Valid() && (d == old(d) || fresh(d))
      ensures ok <==> |s| <= BITMAP_MAX / 8
      ensures Number() == if ok then FromBytes(s) else old(Number())
    {
      var l := |s|;
      if l > BITMAP_MAX / 8 { return false; }
      ok := Reserve(l * 8);
      Zero();
      if l == 0 { return; }
      top := (l + 3) / 4 - 1;
      Fill(s);
      Retop();
    }

    /** Distributes the bytes over the words, the first byte to the top word. */
    method Fill(s: seq<byte>)
      requires Valid() && s != [] && top == (|s| + 3) / 4 - 1 && Number() == 0
      modifies d
      ensures Valid() && Number() == FromBytes(s)
    {
      var l := |s|;
      var offset, shift := top, ((l + 3) % 4) * 8;
      ShlOne(8 * l);
      for i := 0 to l
        invariant i < l ==> l - 1 - i == 4 * offset + shift / 8 && shift % 8 == 0 && 0 <= shift < 32 && 0 <= offset
        invariant Valid() && offset <= top
        invariant Number() == Shl(FromBytes(s[..i]), 8 * (l - i))
      {
        assert s[..i + 1][..i] == s[..i];
        MergeAt(offset, shift / 8, FromBytes(s[..i]), s[i], l - i);
        if shift == 0 {
          offset := offset - 1;
          shift := 24;
        } else {
          shift := shift - 8;
        }
      }
      assert s[..l] == s;
    }

    /** Merges the byte at place j of word i, all lower places being zero. */
    method MergeAt(i: nat, j: nat, ghost high: nat, b: byte, ghost left: nat)
      requires Valid() && i <= top && j < 4 && left == 4 * i + j + 1 && Number() == Shl(high, 8 * left)
      modifies d
      ensures Valid() && Number() == Shl(256 * high + b, 8 * (left - 1))
    {
      MergeByte(d[..], i, j, high, b);
      ghost var before := d[..];
      d[i] := OrByte(d[i], b, j);
      assert d[..] == before[i := d[i]];
    }
  }
}
