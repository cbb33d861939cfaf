/** Authenticated encryption of packets, cipher-chachapoly.c.

Poly1305 is any function from a message and a 32-byte key to a 16-byte tag.
*/
module ChachaPoly {
  import opened Bits
  import opened Wire
  import opened Keystream
  import opened Wrappers
  import C = ChaCha

  type Tag = t: seq<byte> | |t| == 16 witness seq(16, i => 0)

  datatype Status = Success | MacInvalid | MessageIncomplete

  /** What a context fixes for all its packets. */
  datatype Suite = Suite(core: C.State -> C.State, mac: (seq<byte>, seq<byte>) -> Tag,
                         mainKey: C.KeyWords, headerKey: C.KeyWords)

  // ----- packets as values

  /** The packet sequence number as a nonce: eight bytes, most significant first. */
  function Nonce(seqnr: word): (iv: seq<byte>)
    ensures |iv| == 8
  {
    ToBytes(seqnr, 8)
  }

  const ONE: seq<byte> := [1, 0, 0, 0, 0, 0, 0, 0]

  ghost function PolyKey(u: Suite, seqnr: word): (k: seq<byte>)
    ensures |k| == 32
  {
    C.Encrypted(u.core, C.Seeded(u.mainKey, Nonce(seqnr), None), C.Zeros(32))
  }

  ghost function Header(u: Suite, seqnr: word, h: seq<byte>): (c: seq<byte>)
    ensures |c| == |h|
  {
    C.Encrypted(u.core, C.Seeded(u.headerKey, Nonce(seqnr), None), h)
  }

  ghost function Payload(u: Suite, seqnr: word, p: seq<byte>): (c: seq<byte>)
    ensures |c| == |p|
  {
    C.Encrypted(u.core, C.Seeded(u.mainKey, Nonce(seqnr), Some(ONE)), p)
  }

  /** Header and payload under their own keys; the same function encrypts and decrypts. */
  ghost function Body(u: Suite, seqnr: word, m: seq<byte>, aadlen: nat): (c: seq<byte>)
    requires aadlen <= |m|
    ensures |c| == |m|
  {
    Header(u, seqnr, m[..aadlen]) + Payload(u, seqnr, m[aadlen..])
  }

  ghost function Seal(u: Suite, seqnr: word, m: seq<byte>, aadlen: nat): (packet: seq<byte>)
    requires aadlen <= |m|
    ensures |packet| == |m| + 16
  {
    var c := Body(u, seqnr, m, aadlen);
    c + u.mac(c, PolyKey(u, seqnr))
  }

  ghost function Open(u: Suite, seqnr: word, packet: seq<byte>, aadlen: nat): (m: Option<seq<byte>>)
    requires aadlen + 16 <= |packet|
    ensures m.Some? ==> |m.value| + 16 == |packet|
  {
    var c := packet[..|packet| - 16];
    if u.mac(c, PolyKey(u, seqnr)) != packet[|packet| - 16..] then None else Some(Body(u, seqnr, c, aadlen))
  }

  lemma BodyTwice(u: Suite, seqnr: word, m: seq<byte>, aadlen: nat)
    requires aadlen <= |m|
    ensures Body(u, seqnr, Body(u, seqnr, m, aadlen), aadlen) == m
  {
    var h, p := m[..aadlen], m[aadlen..];
    var c := Body(u, seqnr, m, aadlen);
    assert c[..aadlen] == Header(u, seqnr, h) && c[aadlen..] == Payload(u, seqnr, p);
    C.EncryptTwice(u.core, C.Seeded(u.headerKey, Nonce(seqnr), None), h);
    C.EncryptTwice(u.core, C.Seeded(u.mainKey, Nonce(seqnr), Some(ONE)), p);
    assert h + p == m;
  }

  /** A packet is accepted, with a certain content, exactly when it is the sealing of that content. */
  lemma OpenIff(u: Suite, seqnr: word, packet: seq<byte>, aadlen: nat, m: seq<byte>)
    requires aadlen + 16 <= |packet| && |m| + 16 == |packet|
    ensures Open(u, seqnr, packet, aadlen) == Some(m) <==> packet == Seal(u, seqnr, m, aadlen)
  {
    var c, tag := packet[..|packet| - 16], packet[|packet| - 16..];
    assert packet == c + tag;
    BodyTwice(u, seqnr, m, aadlen);
    BodyTwice(u, seqnr, c, aadlen);
    if packet == Seal(u, seqnr, m, aadlen) {
      assert c == Body(u, seqnr, m, aadlen);
    }
  }

  /** What get_length makes of the first bytes of a packet. */
  ghost function LengthOf(u: Suite, seqnr: word, cp: seq<byte>): word
    requires |cp| >= 4
  {
    Peek32(Header(u, seqnr, cp[..4]))
  }

  /** The first bytes of a message are encrypted the same whatever follows them. */
  lemma HeaderPrefix(u: Suite, seqnr: word, h: seq<byte>, n: nat)
    requires n <= |h|
    ensures Header(u, seqnr, h)[..n] == Header(u, seqnr, h[..n])
  {
    StreamPrefix(C.KeyStream(u.core, C.Seeded(u.headerKey, Nonce(seqnr), None)), 64, 0, h, n);
  }

  /** The receiver recovers the length field before it can check the tag. */
  lemma LengthRecovered(u: Suite, seqnr: word, length: word, rest: seq<byte>, p: seq<byte>)
    ensures var h := Put32(length) + rest;
            LengthOf(u, seqnr, Seal(u, seqnr, h + p, |h|)) == length
  {
    var h := Put32(length) + rest;
    var packet := Seal(u, seqnr, h + p, |h|);
    assert (h + p)[..|h|] == h && h[..4] == Put32(length);
    assert packet[..4] == Header(u, seqnr, h)[..4];
    HeaderPrefix(u, seqnr, h, 4);
    C.EncryptTwice(u.core, C.Seeded(u.headerKey, Nonce(seqnr), None), h[..4]);
    PeekPut(length, []);
    assert Put32(length) + [] == Put32(length);
  }

  // ----- which block of the key stream meets which byte

  /** The state with that key and nonce and that block counter. */
  ghost predicate Blocked(s: C.State, key: C.KeyWords, seqnr: word, counter: nat)
  {
    s[..12] == key && s[14..] == C.Words(Nonce(seqnr)) && C.CounterOf(s) == counter % (C.WORDS * C.WORDS)
  }

  lemma OneIs()
    ensures C.Words(ONE) == [1, 0]
  {
    assert C.Load([1, 0, 0, 0]) == 1 by { LoadSmall(1); }
    assert C.Load([0, 0, 0, 0]) == 0 by { LoadSmall(0); }
    assert ONE[0..4] == [1, 0, 0, 0] && ONE[4..8] == [0, 0, 0, 0];
  }

  lemma {:induction false} ShlZero(n: nat)
    ensures Shl(0, n) == 0
  {
    if n > 0 { ShlZero(n - 1); }
  }

  lemma OrZero(b: nat)
    ensures Or(b, 0) == b
  {
    forall k: nat ensures Bit(Or(b, 0), k) == Bit(b, k) {
      BitOr(b, 0, k);
      ZeroHasNoBits(k);
    }
    SameBits(Or(b, 0), b);
  }

  lemma LoadSmall(b: byte)
    ensures C.Load([b, 0, 0, 0]) == b
  {
    ShlZero(8);
    ShlZero(16);
    ShlZero(24);
    OrZero(b);
  }

  lemma SeededBlock(key: C.KeyWords, seqnr: word, one: bool, k: nat)
    ensures var s := C.Advanced(C.Seeded(key, Nonce(seqnr), if one then Some(ONE) else None), k);
            Blocked(s, key, seqnr, Digit(one) + k)
  {
    var start := C.Seeded(key, Nonce(seqnr), if one then Some(ONE) else None);
    OneIs();
    assert start[..12] == key && start[14..] == C.Words(Nonce(seqnr)) && C.CounterOf(start) == Digit(one);
    C.AdvancedIs(start, k);
  }

  /** Byte i of the payload meets byte i mod 64 of the block with counter 1 + i / 64. */
  lemma PayloadByte(u: Suite, seqnr: word, p: seq<byte>, i: nat)
    requires i < |p|
    ensures exists s: C.State :: Blocked(s, u.mainKey, seqnr, 1 + i / 64)
                                 && Payload(u, seqnr, p)[i] == XorByte(p[i], C.Bytes(u.core(s))[i % 64])
  {
    var start := C.Seeded(u.mainKey, Nonce(seqnr), Some(ONE));
    SeededBlock(u.mainKey, seqnr, true, i / 64);
    C.EncryptedByte(u.core, start, p, i);
  }

  /** The header is encrypted under its own key, from counter 0 on. */
  lemma HeaderByte(u: Suite, seqnr: word, h: seq<byte>, i: nat)
    requires i < |h|
    ensures exists s: C.State :: Blocked(s, u.headerKey, seqnr, i / 64)
                                 && Header(u, seqnr, h)[i] == XorByte(h[i], C.Bytes(u.core(s))[i % 64])
  {
    var start := C.Seeded(u.headerKey, Nonce(seqnr), None);
    SeededBlock(u.headerKey, seqnr, false, i / 64);
    C.EncryptedByte(u.core, start, h, i);
  }

  /** The key of the tag is the first half of block 0, which no payload byte meets. */
  lemma PolyKeyIs(u: Suite, seqnr: word)
    ensures exists s: C.State :: Blocked(s, u.mainKey, seqnr, 0) && PolyKey(u, seqnr) == C.Bytes(u.core(s))[..32]
  {
    var start := C.Seeded(u.mainKey, Nonce(seqnr), None);
    SeededBlock(u.mainKey, seqnr, false, 0);
    var key := PolyKey(u, seqnr);
    forall i | 0 <= i < 32 ensures key[i] == C.Bytes(u.core(start))[i] {
      C.EncryptedByte(u.core, start, C.Zeros(32), i);
      XorZero(C.Bytes(u.core(start))[i]);
    }
  }

  lemma XorZero(b: byte)
    ensures XorByte(0, b) == b
  {
    forall k: nat ensures Bit(Xor(0, b), k) == Bit(b, k) {
      BitXor(0, b, k);
      ZeroHasNoBits(k);
    }
    SameBits(Xor(0, b), b);
  }

  /** The packet ends in the tag of all the encrypted bytes before it, under the key of PolyKeyIs. */
  lemma SealedTag(u: Suite, seqnr: word, m: seq<byte>, aadlen: nat)
    requires aadlen <= |m|
    ensures var packet := Seal(u, seqnr, m, aadlen);
            exists s: C.State :: Blocked(s, u.mainKey, seqnr, 0)
                                 && packet[|m|..] == u.mac(packet[..|m|], C.Bytes(u.core(s))[..32])
  {
    PolyKeyIs(u, seqnr);
    var packet, c := Seal(u, seqnr, m, aadlen), Body(u, seqnr, m, aadlen);
    assert packet[..|m|] == c && packet[|m|..] == u.mac(c, PolyKey(u, seqnr));
  }

  /** The nonce is the sequence number in four bytes after four zero bytes. */
  lemma NonceIs(seqnr: word)
    ensures Nonce(seqnr) == [0, 0, 0, 0] + Put32(seqnr)
  {
    var n: nat := seqnr;
    PowValues();
    HighBytes(n, 4, 4);
    assert C.Zeros(4) == [0, 0, 0, 0];
  }

  lemma {:induction false} HighBytes(v: nat, n: nat, k: nat)
    requires v < Pow2(8 * k)
    ensures ToBytes(v, n + k) == C.Zeros(n) + ToBytes(v, k)
    decreases n + k
  {
    if k > 0 {
      PowPlus8(8 * (k - 1));
      HighBytes(v / 256, n, k - 1);
      Assoc(C.Zeros(n), ToBytes(v / 256, k - 1), [v % 256]);
    } else if n > 0 {
      HighBytes(0, n - 1, 0);
      assert C.Zeros(n - 1) + [] + [0] == C.Zeros(n);
    }
  }

  /** Two blocks of one key and nonce coincide only when their counters do, so that within 2^64
      blocks neither the tag's key nor any payload block is used twice. */
  lemma BlocksApart(s: C.State, t: C.State, key: C.KeyWords, seqnr: word, c: nat, d: nat)
    requires Blocked(s, key, seqnr, c) && Blocked(t, key, seqnr, d)
    ensures s == t <==> c % (C.WORDS * C.WORDS) == d % (C.WORDS * C.WORDS)
  {
    if C.CounterOf(s) == C.CounterOf(t) {
      assert s == s[..12] + [s[12], s[13]] + s[14..] && t == t[..12] + [t[12], t[13]] + t[14..];
    }
  }

  // ----- the code

  lemma SameMiddle(s: seq<byte>, t: seq<byte>, from: nat, n: nat)
    requires from + n <= |s| == |t| && s[from..] == t[from..]
    ensures s[from..from + n] == t[..from + n][from..]
  {
    assert s[from..from + n] == s[from..][..n] && t[..from + n][from..] == t[from..][..n];
  }

  /** struct chachapoly_ctx. */
  class Cipher {
    const mainCtx: C.Context
    const headerCtx: C.Context
    const mac: (seq<byte>, seq<byte>) -> Tag

    ghost predicate Valid() { mainCtx != headerCtx && mainCtx.core == headerCtx.core && C.Computes(mainCtx.core) }

    /** The keys; the counters and nonces that earlier packets left do not matter. */
    function Keys(): Suite
      reads mainCtx, headerCtx
    {
      Suite(mainCtx.core, mac, mainCtx.input[..12], headerCtx.input[..12])
    }

    /** The rest of chachapoly_new, on a key of the right length. */
    constructor (key: seq<byte>, mac: (seq<byte>, seq<byte>) -> Tag)
      requires |key| == 64
      ensures Valid() && fresh(mainCtx) && fresh(headerCtx)
      ensures Keys() == Suite(C.Core, mac, C.KeyOf(key[..32], 256), C.KeyOf(key[32..], 256))
    {
      var main := new C.Context();
      var header := new C.Context();
      main.KeySetup(key[..32], 256);
      header.KeySetup(key[32..], 256);
      mainCtx, headerCtx, this.mac := main, header, mac;
    }

    /** chachapoly_new gives nothing for a key that is not two 256-bit keys. */
    static method New(key: seq<byte>, mac: (seq<byte>, seq<byte>) -> Tag) returns (c: Cipher?)
      ensures c == null <==> |key| != 64
      ensures c != null ==> fresh(c) && fresh(c.mainCtx) && fresh(c.headerCtx) && c.Valid()
      ensures c != null ==> c.Keys() == Suite(C.Core, mac, C.KeyOf(key[..32], 256), C.KeyOf(key[32..], 256))
    {
      if |key| != 64 { return null; }
      c := new Cipher(key, mac);
    }

    /** Run one context from a fresh nonce and counter. */
    method Run(ctx: C.Context, seqnr: word, counter: Option<seq<byte>>, m: array<byte>, c: array<byte>, off: nat, n: nat)
      requires C.Computes(ctx.core) && (counter.Some? ==> |counter.value| == 8)
      requires off + n <= m.Length && off + n <= c.Length
      modifies ctx, c
      ensures ctx.input[..12] == old(ctx.input)[..12]
      ensures c[..] == Overwrite(old(c[..]), off,
                                 C.Encrypted(ctx.core, C.Seeded(old(ctx.input)[..12], Nonce(seqnr), counter),
                                             old(m[off..off + n])))
      ensures m[off + n..] == old(m[off + n..])
    {
      ctx.IvSetup(Nonce(seqnr), counter);
      C.AdvancedIs(ctx.input, Blocks(n, 64));
      ghost var was, out := c[..], C.Encrypted(ctx.core, ctx.input, m[off..off + n]);
      ctx.EncryptBytes(m, off, c, off, n);
      OverwriteTail(was, off, out, off + n, |was|);
      assert c[off + n..] == c[..][off + n..|was|];
    }

    method MakePolyKey(seqnr: word) returns (key: seq<byte>)
      requires Valid()
      modifies mainCtx
      ensures mainCtx.input[..12] == old(mainCtx.input)[..12] && key == PolyKey(old(Keys()), seqnr)
    {
      var buf := new byte[32](i => 0);
      assert buf[0..32] == C.Zeros(32);
      Run(mainCtx, seqnr, None, buf, buf, 0, 32);
      key := buf[..];
    }

    method CryptHeader(seqnr: word, dest: array<byte>, src: array<byte>, aadlen: nat)
      requires Valid() && aadlen <= src.Length && aadlen <= dest.Length
      modifies dest, headerCtx
      ensures Keys() == old(Keys()) && src[aadlen..] == old(src[aadlen..])
      ensures dest[..] == Overwrite(old(dest[..]), 0, Header(old(Keys()), seqnr, old(src[..aadlen])))
    {
      assert src[0..0 + aadlen] == src[..aadlen];
      if aadlen != 0 { Run(headerCtx, seqnr, None, src, dest, 0, aadlen); }
    }

    /** Header, then payload, from src to dest. */
    method CryptBody(seqnr: word, dest: array<byte>, src: array<byte>, len: nat, aadlen: nat)
      requires Valid() && aadlen + len <= src.Length && aadlen + len <= dest.Length
      modifies dest, mainCtx, headerCtx
      ensures Keys() == old(Keys())
      ensures dest[..] == Overwrite(old(dest[..]), 0, Body(old(Keys()), seqnr, old(src[..aadlen + len]), aadlen))
    {
      ghost var u, was, all, m := Keys(), dest[..], src[..], src[..aadlen + len];
      assert m[..aadlen] == src[..aadlen];
      CryptHeader(seqnr, dest, src, aadlen);
      ghost var h, p := Header(u, seqnr, m[..aadlen]), Payload(u, seqnr, m[aadlen..]);
      SameMiddle(src[..], all, aadlen, len);
      Run(mainCtx, seqnr, Some(ONE), src, dest, aadlen, len);
      OverwriteAt(was, 0, h, p);
    }

    method AppendTag(dest: array<byte>, end: nat, key: seq<byte>)
      requires end + 16 <= dest.Length
      modifies dest
      ensures dest[..] == Overwrite(old(dest[..]), end, mac(old(dest[..end]), key))
    {
      var tag := mac(dest[..end], key);
      forall i | 0 <= i < 16 { dest[end + i] := tag[i]; }
    }

    method TagMatches(src: array<byte>, end: nat, key: seq<byte>) returns (ok: bool)
      requires end + 16 <= src.Length
      ensures ok <==> mac(src[..end], key) == src[end..end + 16]
    {
      var expected := mac(src[..end], key);
      ok := expected == src[end..end + 16];
    }

    /** chachapoly_crypt; `dest` may be the same buffer as `src`. */
    method Crypt(seqnr: word, dest: array<byte>, src: array<byte>, len: nat, aadlen: nat, encrypt: bool)
      returns (r: Status)
      requires Valid()
      requires aadlen + len + (if encrypt then 0 else 16) <= src.Length
      requires aadlen + len + (if encrypt then 16 else 0) <= dest.Length
      modifies dest, mainCtx, headerCtx
      ensures Keys() == old(Keys())
      ensures encrypt ==> r == Success
      ensures encrypt ==>
              dest[..] == Overwrite(old(dest[..]), 0, Seal(old(Keys()), seqnr, old(src[..aadlen + len]), aadlen))
      ensures !encrypt ==>
              match Open(old(Keys()), seqnr, old(src[..aadlen + len + 16]), aadlen)
              case None => r == MacInvalid && dest[..] == old(dest[..])
              case Some(m) => r == Success && dest[..] == Overwrite(old(dest[..]), 0, m)
    {
      var end := aadlen + len;
      ghost var u, was, m := Keys(), dest[..], src[..end];
      var polyKey := MakePolyKey(seqnr);
      if !encrypt {
        ghost var packet := src[..end + 16];
        assert packet[..|packet| - 16] == m && packet[|packet| - 16..] == src[end..end + 16];
        var ok := TagMatches(src, end, polyKey);
        if !ok { return MacInvalid; }
      }
      CryptBody(seqnr, dest, src, len, aadlen);
      if encrypt {
        ghost var body := Body(u, seqnr, m, aadlen);
        assert dest[..end] == Overwrite(was, 0, body)[..end] == body;
        AppendTag(dest, end, polyKey);
        OverwriteAt(was, 0, body, mac(body, polyKey));
      }
      r := Success;
    }

    /** chachapoly_get_length. */
    method GetLength(seqnr: word, cp: array<byte>, len: nat) returns (r: Status, length: word)
      requires Valid() && len <= cp.Length
      modifies headerCtx
      ensures Keys() == old(Keys())
      ensures r == if len < 4 then MessageIncomplete else Success
      ensures r == Success ==> length == LengthOf(old(Keys()), seqnr, cp[..len])
    {
      if len < 4 { return MessageIncomplete, 0; }
      var buf := new byte[4];
      assert cp[0..4] == cp[..len][..4];
      Run(headerCtx, seqnr, None, cp, buf, 0, 4);
      assert buf[..] == Header(old(Keys()), seqnr, cp[..len][..4]);
      return Success, Peek32(buf[..]);
    }
  }
}
