/** Cipher block chaining of cipher-aes.c over any block cipher.

Section 6.3 of RFC 4253 chains the last block of one packet into the next; here that is the
initialisation vector which the context carries from call to call.
*/
module Cbc {
  import opened Bits
  import opened Wire
  import opened Keystream

  function XorBlock(a: Block, b: Block): Block { XorBytes(a, b) }

  lemma XorBlockCancels(a: Block, b: Block)
    ensures XorBlock(XorBlock(a, b), b) == a
  {
    XorBytesCancels(a, b);
  }

  /** The blocks of `p`, chained and encrypted; bytes after the last whole block are left out. */
  function Encrypted(e: Block -> Block, iv: Block, p: seq<byte>): (c: seq<byte>)
    ensures |c| <= |p|
    decreases |p|
  {
    if |p| < 16 then []
    else
      var c := e(XorBlock(p[..16], iv));
      c + Encrypted(e, c, p[16..])
  }

  function Decrypted(d: Block -> Block, iv: Block, c: seq<byte>): (p: seq<byte>)
    ensures |p| <= |c|
    decreases |c|
  {
    if |c| < 16 then [] else XorBlock(d(c[..16]), iv) + Decrypted(d, c[..16], c[16..])
  }

  /** The vector for what follows the ciphertext `c`: its last block. */
  function Next(iv: Block, c: seq<byte>): Block { if |c| < 16 then iv else c[|c| - 16..] }

  // ----- block by block

  /** Block i of whole blocks. */
  function BlockAt(p: seq<byte>, i: nat): Block
    requires 16 * i + 16 <= |p|
  {
    p[16 * i..16 * i + 16]
  }

  /** Every block is XORed with the ciphertext block before it, the first with the vector, and
      encrypted. */
  lemma {:induction false} EncryptedBlock(e: Block -> Block, iv: Block, p: seq<byte>, k: nat, i: nat)
    requires |p| == 16 * k && i < k
    ensures var c := Encrypted(e, iv, p);
            |c| == |p| && BlockAt(c, i) == e(XorBlock(BlockAt(p, i), if i == 0 then iv else BlockAt(c, i - 1)))
    decreases k
  {
    var first, rest := e(XorBlock(p[..16], iv)), p[16..];
    if k == 1 {
      assert Encrypted(e, first, rest) == [];
    } else {
      EncryptedBlock(e, first, rest, k - 1, if i == 0 then 0 else i - 1);
      var c := Encrypted(e, first, rest);
      ShiftBlocks(first, c, i);
      if i > 0 {
        ShiftBlocks(p[..16], rest, i);
        assert p[..16] + rest == p;
        if i > 1 { ShiftBlocks(first, c, i - 1); }
      }
    }
  }

  lemma ShiftBlocks(first: Block, rest: seq<byte>, i: nat)
    requires 16 * i + 16 <= 16 + |rest|
    ensures BlockAt(first + rest, i) == if i == 0 then first else BlockAt(rest, i - 1)
  {
  }

  /** Every block is decrypted and XORed with the ciphertext block before it, the first with the
      vector. */
  lemma {:induction false} DecryptedBlock(d: Block -> Block, iv: Block, c: seq<byte>, k: nat, i: nat)
    requires |c| == 16 * k && i < k
    ensures var p := Decrypted(d, iv, c);
            |p| == |c| && BlockAt(p, i) == XorBlock(d(BlockAt(c, i)), if i == 0 then iv else BlockAt(c, i - 1))
    decreases k
  {
    var first: Block, rest := c[..16], c[16..];
    if k == 1 {
      assert Decrypted(d, first, rest) == [];
    } else {
      DecryptedBlock(d, first, rest, k - 1, if i == 0 then 0 else i - 1);
      ShiftBlocks(XorBlock(d(first), iv), Decrypted(d, first, rest), i);
      assert first + rest == c;
      ShiftBlocks(first, rest, i);
      if i > 0 { ShiftBlocks(first, rest, i - 1); }
    }
  }

  // ----- decryption undoes encryption, and calls can be joined

  ghost predicate Inverse(e: Block -> Block, d: Block -> Block) { forall x: Block :: d(e(x)) == x }

  lemma {:induction false} DecryptedLength(d: Block -> Block, iv: Block, c: seq<byte>, k: nat)
    requires |c| == 16 * k
    ensures |Decrypted(d, iv, c)| == |c|
    decreases k
  {
    if k > 0 { DecryptedLength(d, c[..16], c[16..], k - 1); }
  }

  lemma {:induction false} DecryptEncrypt(e: Block -> Block, d: Block -> Block, iv: Block, p: seq<byte>, k: nat)
    requires Inverse(e, d) && |p| == 16 * k
    ensures Decrypted(d, iv, Encrypted(e, iv, p)) == p
    decreases k
  {
    if k > 0 {
      var x: Block := p[..16];
      var c := e(XorBlock(x, iv));
      var rest := Encrypted(e, c, p[16..]);
      DecryptEncrypt(e, d, c, p[16..], k - 1);
      assert Encrypted(e, iv, p)[..16] == c && Encrypted(e, iv, p)[16..] == rest;
      assert d(c) == XorBlock(x, iv);
      XorBlockCancels(x, iv);
    }
  }

  lemma NextAfter(iv: Block, c: Block, rest: seq<byte>)
    requires |rest| >= 16 || rest == []
    ensures Next(iv, c + rest) == Next(c, rest)
  {
    if rest == [] {
      assert c + rest == c;
    } else {
      assert (c + rest)[|c + rest| - 16..] == rest[|rest| - 16..];
    }
  }

  lemma WholeOrEmpty(e: Block -> Block, iv: Block, p: seq<byte>)
    ensures |Encrypted(e, iv, p)| >= 16 || Encrypted(e, iv, p) == []
  {
  }

  /** One call on a + b is a call on a and then, with the carried vector, a call on b. */
  lemma {:induction false} EncryptJoined(e: Block -> Block, iv: Block, a: seq<byte>, b: seq<byte>, k: nat)
    requires |a| == 16 * k
    ensures Encrypted(e, iv, a + b) == Encrypted(e, iv, a) + Encrypted(e, Next(iv, Encrypted(e, iv, a)), b)
    decreases k
  {
    if k == 0 {
      assert a + b == b;
    } else {
      var c, rest := e(XorBlock(a[..16], iv)), a[16..];
      assert (a + b)[..16] == a[..16] && (a + b)[16..] == rest + b;
      EncryptJoined(e, c, rest, b, k - 1);
      var out := Encrypted(e, c, rest);
      WholeOrEmpty(e, c, rest);
      NextAfter(iv, c, out);
      Assoc(c, out, Encrypted(e, Next(c, out), b));
    }
  }

  lemma {:induction false} DecryptJoined(d: Block -> Block, iv: Block, a: seq<byte>, b: seq<byte>, k: nat)
    requires |a| == 16 * k
    ensures Decrypted(d, iv, a + b) == Decrypted(d, iv, a) + Decrypted(d, Next(iv, a), b)
    decreases k
  {
    if k == 0 {
      assert a + b == b;
    } else {
      var c: Block, rest := a[..16], a[16..];
      assert (a + b)[..16] == c && (a + b)[16..] == rest + b && a == c + rest;
      DecryptJoined(d, c, rest, b, k - 1);
      NextAfter(iv, c, rest);
      Assoc(XorBlock(d(c), iv), Decrypted(d, c, rest), Decrypted(d, Next(c, rest), b));
    }
  }

  ghost predicate AllWhole(ms: seq<seq<byte>>) { forall i :: 0 <= i < |ms| ==> |ms[i]| % 16 == 0 }

  /** Successive calls on one context, each starting from the vector the last one left. */
  ghost function EncryptCalls(e: Block -> Block, iv: Block, ms: seq<seq<byte>>): (out: seq<seq<byte>>)
    ensures |out| == |ms|
    decreases |ms|
  {
    if ms == [] then []
    else
      var c := Encrypted(e, iv, ms[0]);
      [c] + EncryptCalls(e, Next(iv, c), ms[1..])
  }

  ghost function DecryptCalls(d: Block -> Block, iv: Block, cs: seq<seq<byte>>): (out: seq<seq<byte>>)
    ensures |out| == |cs|
    decreases |cs|
  {
    if cs == [] then [] else [Decrypted(d, iv, cs[0])] + DecryptCalls(d, Next(iv, cs[0]), cs[1..])
  }

  /** Decrypting any sequence of calls inverts encrypting it, call by call. */
  lemma {:induction false} CallsInvert(e: Block -> Block, d: Block -> Block, iv: Block, ms: seq<seq<byte>>)
    requires Inverse(e, d) && AllWhole(ms)
    ensures DecryptCalls(d, iv, EncryptCalls(e, iv, ms)) == ms
    decreases |ms|
  {
    if ms != [] {
      var c := Encrypted(e, iv, ms[0]);
      var out := EncryptCalls(e, iv, ms);
      assert out[0] == c && out[1..] == EncryptCalls(e, Next(iv, c), ms[1..]);
      DecryptEncrypt(e, d, iv, ms[0], |ms[0]| / 16);
      CallsInvert(e, d, Next(iv, c), ms[1..]);
    }
  }

  lemma {:induction false} ConcatWhole(ms: seq<seq<byte>>)
    requires AllWhole(ms)
    ensures |Concat(ms)| % 16 == 0
    decreases |ms|
  {
    if ms != [] { ConcatWhole(ms[1..]); }
  }

  /** Where a stream is cut into calls, at block boundaries, does not show in the ciphertext. */
  lemma {:induction false} EncryptCallsJoin(e: Block -> Block, iv: Block, ms: seq<seq<byte>>)
    requires AllWhole(ms)
    ensures Concat(EncryptCalls(e, iv, ms)) == Encrypted(e, iv, Concat(ms))
    decreases |ms|
  {
    if ms != [] {
      var c := Encrypted(e, iv, ms[0]);
      var out := EncryptCalls(e, iv, ms);
      assert out[0] == c && out[1..] == EncryptCalls(e, Next(iv, c), ms[1..]);
      EncryptCallsJoin(e, Next(iv, c), ms[1..]);
      EncryptJoined(e, iv, ms[0], Concat(ms[1..]), |ms[0]| / 16);
    }
  }

  /** Nor in the plaintext, even when the two ends cut the stream differently. */
  lemma {:induction false} DecryptCallsJoin(d: Block -> Block, iv: Block, cs: seq<seq<byte>>)
    requires AllWhole(cs)
    ensures Concat(DecryptCalls(d, iv, cs)) == Decrypted(d, iv, Concat(cs))
    decreases |cs|
  {
    if cs != [] {
      var out := DecryptCalls(d, iv, cs);
      assert out[0] == Decrypted(d, iv, cs[0]) && out[1..] == DecryptCalls(d, Next(iv, cs[0]), cs[1..]);
      DecryptCallsJoin(d, Next(iv, cs[0]), cs[1..]);
      DecryptJoined(d, iv, cs[0], Concat(cs[1..]), |cs[0]| / 16);
    }
  }

  /** A receiver may cut the ciphertext stream at other block boundaries than the sender. */
  lemma RecutStream(e: Block -> Block, d: Block -> Block, iv: Block, ms: seq<seq<byte>>, cs: seq<seq<byte>>)
    requires Inverse(e, d) && AllWhole(ms) && AllWhole(cs)
    requires Concat(cs) == Concat(EncryptCalls(e, iv, ms))
    ensures Concat(DecryptCalls(d, iv, cs)) == Concat(ms)
  {
    EncryptCallsJoin(e, iv, ms);
    DecryptCallsJoin(d, iv, cs);
    ConcatWhole(ms);
    DecryptEncrypt(e, d, iv, Concat(ms), |Concat(ms)| / 16);
  }

  // ----- the code

  /** ssh_rijndael_cbc ends the program on a length that is not whole blocks. */
  datatype Outcome = Done | Fatal

  method Put(dest: array<byte>, off: nat, b: Block)
    requires off + 16 <= dest.Length
    modifies dest
    ensures dest[..] == Overwrite(old(dest[..]), off, b)
  {
    forall j | 0 <= j < 16 { dest[off + j] := b[j]; }
  }

  method XorBuffers(plain: Block, cprev: Block) returns (buf: Block)
    ensures buf == XorBlock(plain, cprev)
  {
    var out: seq<byte> := [];
    for j := 0 to 16
      invariant out == XorBytes(plain[..j], cprev[..j])
    {
      out := out + [XorByte(plain[j], cprev[j])];
    }
    buf := out;
  }

  /** The inner loop of decryption, in place. */
  method XorInto(dest: array<byte>, off: nat, ivp: Block)
    requires off + 16 <= dest.Length
    modifies dest
    ensures dest[..] == Overwrite(old(dest[..]), off, XorBlock(old(dest[off..off + 16]), ivp))
  {
    ghost var was, x := dest[..], XorBlock(dest[off..off + 16], ivp);
    for j := 0 to 16
      invariant forall i :: 0 <= i < dest.Length ==>
                  dest[i] == if off <= i < off + j then x[i - off] else was[i]
    {
      dest[off + j] := XorByte(dest[off + j], ivp[j]);
    }
  }

  /** The output and the vector when the blocks of `p` are encrypted, chained to `cprev`, into
      the buffer `out` from n on. */
  ghost function Left(e: Block -> Block, cprev: Block, p: seq<byte>, n: nat, out: seq<byte>): (seq<byte>, Block)
    requires n + |p| <= |out|
  {
    var c := Encrypted(e, cprev, p);
    (Overwrite(out, n, c), Next(cprev, c))
  }

  lemma LeftStep(e: Block -> Block, cprev: Block, p: seq<byte>, n: nat, out: seq<byte>, c: Block)
    requires 16 <= |p| && n + |p| <= |out| && c == e(XorBlock(p[..16], cprev))
    ensures Left(e, c, p[16..], n + 16, Overwrite(out, n, c)) == Left(e, cprev, p, n, out)
  {
    var rest := Encrypted(e, c, p[16..]);
    OverwriteAt(out, n, c, rest);
    WholeOrEmpty(e, c, p[16..]);
    NextAfter(cprev, c, rest);
  }

  /** struct ssh_rijndael_ctx with the direction it was set up for. */
  class Context {
    const encrypting: bool
    const e: Block -> Block
    const d: Block -> Block
    var iv: Block

    constructor (encrypting: bool, e: Block -> Block, d: Block -> Block, iv: Block)
      ensures this.encrypting == encrypting && this.e == e && this.d == d && this.iv == iv
    {
      this.encrypting, this.e, this.d, this.iv := encrypting, e, d, iv;
    }

    method EncryptBlock(cprev: Block, src: array<byte>, n: nat, dest: array<byte>) returns (c: Block)
      requires n + 16 <= src.Length && n + 16 <= dest.Length
      modifies dest
      ensures c == e(XorBlock(old(src[n..n + 16]), cprev)) && dest[..] == Overwrite(old(dest[..]), n, c)
      ensures src[n + 16..] == old(src[n + 16..])
    {
      var buf := XorBuffers(src[n..n + 16], cprev);
      c := e(buf);
      Put(dest, n, c);
    }

    /** The forward loop; each block is chained to the one before it. */
    method EncryptBlocks(dest: array<byte>, src: array<byte>, blocks: nat)
      requires 16 * blocks <= dest.Length && 16 * blocks <= src.Length
      modifies dest, this`iv
      ensures dest[..] == Overwrite(old(dest[..]), 0, Encrypted(e, old(iv), old(src[..16 * blocks])))
      ensures iv == Next(old(iv), Encrypted(e, old(iv), old(src[..16 * blocks])))
    {
      ghost var len := 16 * blocks;
      ghost var p, was := src[..], dest[..];
      ghost var target := Left(e, iv, p[..len], 0, was);
      assert p[0..len] == p[..len];
      var cprev := iv;
      for i := 0 to blocks
        invariant src[16 * i..] == p[16 * i..]
        invariant Left(e, cprev, p[16 * i..len], 16 * i, dest[..]) == target
      {
        var n := 16 * i;
        ghost var before, out := src[..], dest[..];
        assert before[n..n + 16] == before[n..][..16] == p[n..][..16] == p[n..len][..16];
        var c := EncryptBlock(cprev, src, n, dest);
        assert before[n + 16..] == before[n..][16..] == p[n + 16..];
        LeftStep(e, cprev, p[n..len], n, out, c);
        assert p[n..len][16..] == p[n + 16..len];
        cprev := c;
      }
      assert p[len..len] == [] && Overwrite(dest[..], len, []) == dest[..];
      iv := cprev;
    }

    /** The output when the first n bytes, of which the source still holds the ciphertext, are decrypted. */
    ghost function LeftBefore(src: array<byte>, n: nat, dest: array<byte>): seq<byte>
      requires n <= src.Length && n <= dest.Length
      reads src, dest, this
    {
      Overwrite(dest[..], 0, Decrypted(d, iv, src[..n]))
    }

    /** One turn of the backward loop: block n is read, with its predecessor, before it is overwritten. */
    method DecryptBlock(dest: array<byte>, src: array<byte>, i: nat)
      requires 16 * i + 16 <= dest.Length && 16 * i + 16 <= src.Length
      modifies dest
      ensures LeftBefore(src, 16 * i, dest) == old(LeftBefore(src, 16 * i + 16, dest))
    {
      var n := 16 * i;
      ghost var was, c := dest[..], src[..n + 16];
      ghost var x: Block, prev: Block := c[n..], Next(iv, c[..n]);
      assert src[n..n + 16] == x;
      DecryptLast(d, iv, c, i);
      Put(dest, n, d(src[n..n + 16]));
      assert n > 0 ==> src[n - 16..n] == c[..n][n - 16..];
      assert dest[n..n + 16] == d(x);
      XorInto(dest, n, if n == 0 then iv else src[n - 16..n]);
      assert dest[..] == Overwrite(was, n, XorBlock(d(x), prev));
      OverwriteFront(was, 0, Decrypted(d, iv, c[..n]), XorBlock(d(x), prev));
      assert src[..n] == c[..n];
    }

    method DecryptBlocks(dest: array<byte>, src: array<byte>, blocks: nat)
      requires 16 * blocks <= dest.Length && 16 * blocks <= src.Length && blocks > 0
      modifies dest, this`iv
      ensures dest[..] == Overwrite(old(dest[..]), 0, Decrypted(d, old(iv), old(src[..16 * blocks])))
      ensures iv == old(src[16 * blocks - 16..16 * blocks])
    {
      var len := 16 * blocks;
      ghost var target := LeftBefore(src, len, dest);
      var buf: Block := src[len - 16..len];
      for i := blocks downto 0
        invariant LeftBefore(src, 16 * i, dest) == target && iv == old(iv)
      {
        DecryptBlock(dest, src, i);
      }
      assert src[..0] == [] && Overwrite(dest[..], 0, []) == dest[..];
      iv := buf;
    }

    /** ssh_rijndael_cbc; `dest` may be the same buffer as `src`. */
    method Crypt(dest: array<byte>, src: array<byte>, len: nat) returns (r: Outcome)
      requires len <= dest.Length && len <= src.Length
      modifies dest, this`iv
      ensures r == if len % 16 == 0 then Done else Fatal
      ensures r == Fatal ==> dest[..] == old(dest[..]) && iv == old(iv)
      ensures r == Done ==>
              dest[..] == Overwrite(old(dest[..]), 0,
                                    if encrypting then Encrypted(e, old(iv), old(src[..len]))
                                    else Decrypted(d, old(iv), old(src[..len])))
      ensures r == Done ==>
              iv == Next(old(iv), if encrypting then Encrypted(e, old(iv), old(src[..len])) else old(src[..len]))
    {
      var blocks := len / 16;
      if len == 0 { return Done; }
      if len % 16 != 0 { return Fatal; }
      assert len == 16 * blocks;
      if encrypting { EncryptBlocks(dest, src, blocks); } else { DecryptBlocks(dest, src, blocks); }
      r := Done;
    }
  }

  /** The last block of what is decrypted. */
  lemma DecryptLast(d: Block -> Block, iv: Block, c: seq<byte>, i: nat)
    requires |c| == 16 * i + 16
    ensures |Decrypted(d, iv, c[..16 * i])| == 16 * i
    ensures Decrypted(d, iv, c) ==
            Decrypted(d, iv, c[..16 * i]) + XorBlock(d(c[16 * i..]), Next(iv, c[..16 * i]))
  {
    var a, b := c[..16 * i], c[16 * i..];
    assert c == a + b && b[..16] == b && b[16..] == [];
    DecryptedLength(d, iv, a, i);
    DecryptJoined(d, iv, a, b, i);
  }
}
