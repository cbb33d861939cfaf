/** Counter mode of cipher-aesctr.c over any block cipher. */
module Ctr {
  import opened Bits
  import opened Wire
  import opened Keystream

  const AES_BLOCK_SIZE: nat := 16

  /** The counter after one increment, least significant byte last. */
  function Incremented(s: seq<byte>): (r: seq<byte>)
    ensures |r| == |s|
  {
    if s == [] then []
    else
      var n := |s| - 1;
      if s[n] < 0xff then s[..n] + [s[n] + 1] else Incremented(s[..n]) + [0]
  }

  /** It is addition of one to the number, modulo 256^len. */
  lemma {:induction false} IncrementedIs(v: nat, n: nat)
    ensures Incremented(ToBytes(v, n)) == ToBytes(v + 1, n)
  {
    if n > 0 {
      var s := ToBytes(v, n);
      IncrementedIs(v / 256, n - 1);
      assert s[..n - 1] == ToBytes(v / 256, n - 1) && s[n - 1] == v % 256;
      if v % 256 < 255 {
        assert (v + 1) / 256 == v / 256 && (v + 1) % 256 == v % 256 + 1;
      } else {
        assert (v + 1) / 256 == v / 256 + 1 && (v + 1) % 256 == 0;
      }
    }
  }

  lemma {:induction false} IncrementedNumber(s: seq<byte>)
    ensures FromBytes(s) < Pow2(8 * |s|)
    ensures FromBytes(Incremented(s)) == if FromBytes(s) + 1 == Pow2(8 * |s|) then 0 else FromBytes(s) + 1
  {
    FromBytesBelow(s);
    if s != [] {
      var n := |s| - 1;
      var p := s[..n];
      IncrementedNumber(p);
      PowPlus8(8 * n);
      assert Incremented(s)[..n] == if s[n] < 0xff then p else Incremented(p);
    }
  }

  function AddByte(x: byte, add: byte): byte { var n: nat := x; (n + add) % 256 }

  /** One folding step of the constant-time zero test. */
  function Fold(x: nat, n: nat): nat { And(Or(x, Shr(x, n)), Pow2(n) - 1) }

  lemma {:induction false} OnesBits(n: nat, k: nat)
    ensures Bit(Pow2(n) - 1, k) <==> k < n
  {
    BitNot(n, 0, k);
    ZeroHasNoBits(k);
  }

  lemma FoldBits(x: nat, n: nat, k: nat)
    ensures Bit(Fold(x, n), k) <==> k < n && (Bit(x, k) || Bit(x, n + k))
  {
    BitAnd(Or(x, Shr(x, n)), Pow2(n) - 1, k);
    BitOr(x, Shr(x, n), k);
    BitShr(x, n, k);
    OnesBits(n, k);
  }

  /** Folding halves the width and is zero exactly on zero. */
  lemma FoldKeepsZero(x: nat, n: nat)
    requires x < Pow2(n + n)
    ensures Fold(x, n) < Pow2(n) && (Fold(x, n) == 0 <==> x == 0)
  {
    var f := Fold(x, n);
    if f >= Pow2(n) {
      var k := TopBit(f, n);
      FoldBits(x, n, k);
    }
    forall k: nat ensures f == 0 ==> Bit(x, k) == Bit(0, k) {
      ZeroHasNoBits(k);
      FoldBits(x, n, k);
      if k >= n {
        ZeroHasNoBits(k - n);
        FoldBits(x, n, k - n);
      }
      if k >= n + n { HighBitsClear(x, n + n, k); }
    }
    if f == 0 { SameBits(x, 0); }
    forall k: nat ensures x == 0 ==> Bit(f, k) == Bit(0, k) {
      ZeroHasNoBits(k);
      ZeroHasNoBits(n + k);
      FoldBits(x, n, k);
    }
    if x == 0 { SameBits(f, 0); }
  }

  /** A number not below 2^n has a binary digit at or above position n. */
  lemma {:induction false} TopBit(w: nat, n: nat) returns (k: nat)
    requires w >= Pow2(n)
    ensures k >= n && Bit(w, k)
    decreases w
  {
    if w == 1 {
      PowMono(0, n);
      k := 0;
    } else {
      k := TopBit(w / 2, if n == 0 then 0 else n - 1);
      k := k + 1;
    }
  }

  /** The three folds of a byte leave 0 or 1. */
  lemma ZeroTest(x: byte)
    ensures var y := Fold(Fold(Fold(x, 4), 2), 1); y == if x == 0 then 0 else 1
  {
    PowValues();
    FoldKeepsZero(x, 4);
    FoldKeepsZero(Fold(x, 4), 2);
    FoldKeepsZero(Fold(Fold(x, 4), 2), 1);
  }

  /** What either loop still has to do to the first bytes: add the carry, or nothing. */
  function Carried(s: seq<byte>, carry: bool): (r: seq<byte>)
    ensures |r| == |s|
  {
    if carry then Incremented(s) else s
  }

  /** Either loop with the bytes from i on done: the carry, if any, is still to reach the others. */
  predicate Progress(was: seq<byte>, now: seq<byte>, i: nat, carry: bool)
  {
    && i <= |was| == |now|
    && now[..i] == was[..i]
    && Incremented(was) == Carried(was[..i], carry) + now[i..]
  }

  lemma ProgressStarts(was: seq<byte>)
    ensures Progress(was, was, |was|, true)
  {
    assert was[..|was|] == was;
  }

  lemma ProgressEnds(was: seq<byte>, now: seq<byte>, i: nat, carry: bool)
    requires Progress(was, now, i, carry) && (i == 0 || !carry)
    ensures now == Incremented(was)
  {
    assert now == now[..i] + now[i..];
    assert was[..0] == [];
  }

  lemma CarriedLast(s: seq<byte>, carry: bool, b: byte)
    requires s != [] && b == AddByte(s[|s| - 1], if carry then 1 else 0)
    ensures Carried(s, carry) == Carried(s[..|s| - 1], carry && b == 0) + [b]
  {
    assert s == s[..|s| - 1] + [s[|s| - 1]];
  }

  /** One turn of either loop, at byte i. */
  lemma ProgressStep(was: seq<byte>, now: seq<byte>, i: nat, carry: bool)
    requires Progress(was, now, i + 1, carry)
    ensures var b := AddByte(now[i], if carry then 1 else 0);
            Progress(was, now[i := b], i, carry && b == 0)
  {
    var b, s, tail := AddByte(now[i], if carry then 1 else 0), was[..i + 1], now[i + 1..];
    var next, front := now[i := b], Carried(was[..i], carry && b == 0);
    assert Carried(s, carry) == front + [b] by {
      assert now[i] == now[..i + 1][i] == s[i] && s[..i] == was[..i];
      CarriedLast(s, carry, b);
    }
    assert next[..i] == was[..i] by { assert next[..i] == now[..i + 1][..i] && s[..i] == was[..i]; }
    assert next[i..] == [b] + tail;
    Assoc(front, [b], tail);
  }

  method AddAt(ctr: array<byte>, i: nat, add: byte) returns (sum: byte)
    requires i < ctr.Length
    modifies ctr
    ensures sum == AddByte(old(ctr[..])[i], add) && ctr[..] == old(ctr[..])[i := sum]
  {
    sum := AddByte(ctr[i], add);
    ctr[i] := sum;
  }

  /** aesctr_inc as compiled by default. */
  method IncEarlyExit(ctr: array<byte>)
    modifies ctr
    ensures ctr[..] == Incremented(old(ctr[..]))
  {
    ghost var was := ctr[..];
    ProgressStarts(was);
    for i := ctr.Length downto 0
      invariant Progress(was, ctr[..], i, true)
    {
      ProgressStep(was, ctr[..], i, true);
      var sum := AddAt(ctr, i, 1);
      if sum != 0 {
        ProgressEnds(was, ctr[..], i, false);
        return;
      }
    }
    ProgressEnds(was, ctr[..], 0, true);
  }

  /** The branch-free test of a byte. */
  method IsZero(b: byte) returns (flag: nat)
    ensures flag == if b == 0 then 1 else 0
  {
    ZeroTest(b);
    var x: nat := b;
    x := Fold(x, 4);
    x := Fold(x, 2);
    x := Fold(x, 1);
    flag := Xor(x, 1);
  }

  /** aesctr_inc under CONSTANT_TIME_INCREMENT: every byte is written, whatever the carry. */
  method IncConstantTime(ctr: array<byte>)
    modifies ctr
    ensures ctr[..] == Incremented(old(ctr[..]))
  {
    ghost var was := ctr[..];
    ProgressStarts(was);
    var add: byte := 1;
    for i := ctr.Length downto 0
      invariant add <= 1 && Progress(was, ctr[..], i, add == 1)
    {
      ProgressStep(was, ctr[..], i, add == 1);
      var sum := AddAt(ctr, i, add);
      var carry := IsZero(sum);
      add := add * carry;
    }
    ProgressEnds(was, ctr[..], 0, add == 1);
  }

  lemma {:induction false} IterateLength(ctr: seq<byte>, k: nat)
    ensures |Iterate(Incremented, ctr, k)| == |ctr|
  {
    if k > 0 { IterateLength(ctr, k - 1); }
  }

  /** The counter after k increments. */
  function Advanced(ctr: seq<byte>, k: nat): (r: seq<byte>)
    ensures |r| == |ctr|
  {
    IterateLength(ctr, k);
    Iterate(Incremented, ctr, k)
  }

  /** The low len bytes of the counter's number plus k. */
  function CounterPlus(ctr: seq<byte>, k: nat): seq<byte> { ToBytes(FromBytes(ctr) + k, |ctr|) }

  /** k increments add k modulo 256^len. */
  lemma {:induction false} AdvancedIs(ctr: seq<byte>, k: nat)
    ensures Advanced(ctr, k) == CounterPlus(ctr, k)
  {
    if k == 0 {
      ToFromBytes(ctr);
    } else {
      AdvancedIs(ctr, k - 1);
      IncrementedIs(FromBytes(ctr) + k - 1, |ctr|);
    }
  }

  /** Key block number k after the counter `ctr`. */
  function KeyBlock(e: Block -> Block, ctr: Block, k: nat): Block { e(Advanced(ctr, k)) }

  /** The key blocks from the counter `ctr` on. */
  ghost function KeyStream(e: Block -> Block, ctr: Block): (f: nat -> seq<byte>)
    ensures Sized(f, AES_BLOCK_SIZE)
  {
    (k: nat) => KeyBlock(e, ctr, k)
  }

  /** What a call makes of the message `m` when it starts with the counter `ctr`. */
  ghost function Encrypted(e: Block -> Block, ctr: Block, m: seq<byte>): (c: seq<byte>)
    ensures |c| == |m|
  {
    Stream(KeyStream(e, ctr), AES_BLOCK_SIZE, 0, m)
  }

  /** Byte i is XORed with byte i mod 16 of the encryption of counter + i / 16. */
  lemma EncryptedByte(e: Block -> Block, ctr: Block, m: seq<byte>, i: nat, c: Block)
    requires i < |m| && c == CounterPlus(ctr, i / 16)
    ensures Encrypted(e, ctr, m)[i] == XorByte(m[i], e(c)[i % 16])
  {
    StreamAt(KeyStream(e, ctr), AES_BLOCK_SIZE, 0, m, i);
    AdvancedIs(ctr, i / 16);
  }

  /** A buffer of which the first i bytes are encrypted, after one more. */
  lemma EncryptedMore(e: Block -> Block, ctr: Block, m: seq<byte>, i: nat, was: seq<byte>)
    requires i < |m| && i < |was|
    ensures var x := XorByte(m[i], KeyBlock(e, ctr, i / 16)[i % 16]);
            (Encrypted(e, ctr, m[..i]) + was[i..])[i := x] == Encrypted(e, ctr, m[..i + 1]) + was[i + 1..]
  {
    var done, x := Encrypted(e, ctr, m[..i]), XorByte(m[i], KeyBlock(e, ctr, i / 16)[i % 16]);
    assert m[..i + 1][..i] == m[..i];
    assert Encrypted(e, ctr, m[..i + 1]) == done + [x];
    Splice(done, was, x);
  }

  /** A block is begun exactly at its first byte. */
  lemma BlocksStep(i: nat)
    ensures i % 16 == 0 ==> Blocks(i, 16) == i / 16
    ensures Blocks(i + 1, 16) == i / 16 + 1
    ensures (i + 1) % 16 != 0 ==> (i + 1) / 16 == i / 16 && (i + 1) % 16 == i % 16 + 1
  {
  }

  method XorAt(m: array<byte>, c: array<byte>, i: nat, k: byte)
    requires i < m.Length && i < c.Length
    modifies c
    ensures c[..] == old(c[..])[i := XorByte(old(m[i..])[0], k)]
    ensures m[i + 1..] == old(m[i..])[1..]
  {
    c[i] := XorByte(m[i], k);
  }

  /** struct aesctr_ctx: the key schedule is the function `encrypt`. */
  class Context {
    const encrypt: Block -> Block
    const ctr: array<byte>

    predicate Valid() { ctr.Length == AES_BLOCK_SIZE }

    constructor (encrypt: Block -> Block, iv: Block)
      ensures Valid() && this.encrypt == encrypt && fresh(ctr) && ctr[..] == iv
    {
      this.encrypt := encrypt;
      var a := new byte[AES_BLOCK_SIZE](i requires 0 <= i < 16 => iv[i]);
      ctr := a;
      new;
      assert ctr[..] == iv;
    }

    /** The key block for byte i: a new one at the first byte of a block, else the one at hand. */
    method KeyBlockAt(buf: Block, i: nat, ghost start: Block) returns (k: Block)
      requires Valid() && ctr[..] == Advanced(start, Blocks(i, 16))
      requires i % 16 != 0 ==> buf == KeyBlock(encrypt, start, i / 16)
      modifies ctr
      ensures k == KeyBlock(encrypt, start, i / 16) && ctr[..] == Advanced(start, Blocks(i + 1, 16))
    {
      k := buf;
      BlocksStep(i);
      if i % 16 == 0 {
        k := encrypt(ctr[..]);
        IncEarlyExit(ctr);
      } else {
        BlocksStep(i - 1);
      }
    }

    /** Byte i, when the ones before it are done and those from it on are intact in the source. */
    method EncryptByte(m: array<byte>, c: array<byte>, i: nat, buf: Block,
                       ghost start: Block, ghost msg: seq<byte>, ghost was: seq<byte>)
      requires i < m.Length == |msg| && i < c.Length == |was| && buf == KeyBlock(encrypt, start, i / 16)
      requires c[..] == Encrypted(encrypt, start, msg[..i]) + was[i..] && m[i..] == msg[i..]
      modifies c
      ensures c[..] == Encrypted(encrypt, start, msg[..i + 1]) + was[i + 1..] && m[i + 1..] == msg[i + 1..]
    {
      EncryptedMore(encrypt, start, msg, i, was);
      XorAt(m, c, i, buf[i % 16]);
    }

    /** aesctr_encrypt_bytes; `c` may be the same buffer as `m`. */
    method EncryptBytes(m: array<byte>, c: array<byte>, bytes: nat)
      requires Valid() && bytes <= m.Length && bytes <= c.Length && m != ctr && c != ctr
      modifies c, ctr
      ensures c[..] == Encrypted(encrypt, old(ctr[..]), old(m[..bytes])) + old(c[bytes..])
      ensures ctr[..] == Advanced(old(ctr[..]), Blocks(bytes, AES_BLOCK_SIZE))
    {
      ghost var start: Block, msg, was := ctr[..], m[..], c[..];
      var buf: Block := seq(16, i => 0);
      var i := 0;
      while i < bytes
        invariant 0 <= i <= bytes
        invariant i % 16 != 0 ==> buf == KeyBlock(encrypt, start, i / 16)
        invariant ctr[..] == Advanced(start, Blocks(i, 16))
        invariant c[..] == Encrypted(encrypt, start, msg[..i]) + was[i..]
        invariant m[i..] == msg[i..]
      {
        buf := KeyBlockAt(buf, i, start);
        BlocksStep(i);
        EncryptByte(m, c, i, buf, start, msg, was);
        i := i + 1;
      }
    }
  }

  /** From the same counter, encrypting is its own inverse. */
  lemma EncryptTwice(e: Block -> Block, ctr: Block, m: seq<byte>)
    ensures Encrypted(e, ctr, Encrypted(e, ctr, m)) == m
  {
    StreamTwice(KeyStream(e, ctr), AES_BLOCK_SIZE, 0, m);
  }

  function Later(ctr: Block, k: nat): Block { Advanced(ctr, k) }

  ghost function Streams(e: Block -> Block): Block -> nat -> seq<byte> { ctr => KeyStream(e, ctr) }

  lemma StreamsCount(e: Block -> Block)
    ensures Counts(Streams(e), Later, AES_BLOCK_SIZE)
  {
    assert AllSized(Streams(e), AES_BLOCK_SIZE);
    var keys, later := Streams(e), Later;
    forall ctr: Block, q: nat, k: nat ensures keys(ctr)(q + k) == keys(later(ctr, q))(k) {
      BlockLater(e, ctr, q, k);
    }
  }

  lemma BlockLater(e: Block -> Block, ctr: Block, q: nat, k: nat)
    ensures Streams(e)(ctr)(q + k) == Streams(e)(Later(ctr, q))(k)
  {
    IterateTwice(Incremented, ctr, q, k);
  }

  /** Two calls, the first on whole blocks, are one call on the joined message. */
  lemma EncryptJoined(e: Block -> Block, ctr: Block, a: seq<byte>, b: seq<byte>)
    requires |a| % 16 == 0
    ensures Encrypted(e, ctr, a + b) == Encrypted(e, ctr, a) + Encrypted(e, Advanced(ctr, Blocks(|a|, 16)), b)
  {
    StreamsCount(e);
    CallsJoined(Streams(e), Later, AES_BLOCK_SIZE, ctr, a, b);
  }

  /** A message cut at multiples of 16 over any number of calls is encrypted as by one call. */
  lemma EncryptCalls(e: Block -> Block, ctr: Block, ms: seq<seq<byte>>)
    requires AtBoundaries(ms, 16)
    ensures Counts(Streams(e), Later, 16) && Calls(Streams(e), Later, 16, ctr, ms) == Encrypted(e, ctr, Concat(ms))
  {
    StreamsCount(e);
    CallsAreOne(Streams(e), Later, 16, ctr, ms);
  }
}
