/** Encryption by XOR with a stream of key blocks, as the CTR and ChaCha code do it. */
module Keystream {
  import opened Bits

  /** A block of a 128-bit block cipher. */
  type Block = s: seq<byte> | |s| == 16 witness seq(16, i => 0)

  function Iterate<T>(f: T -> T, s: T, n: nat): T { if n == 0 then s else f(Iterate(f, s, n - 1)) }

  lemma {:induction false} IterateTwice<T>(f: T -> T, s: T, j: nat, k: nat)
    ensures Iterate(f, Iterate(f, s, j), k) == Iterate(f, s, j + k)
  {
    if k > 0 { IterateTwice(f, s, j, k - 1); }
  }

  function XorByte(a: byte, b: byte): byte { PowValues(); XorBelow(a, b, 8); Xor(a, b) }

  /** `a` XOR the first |a| bytes of `k`. */
  function XorBytes(a: seq<byte>, k: seq<byte>): (c: seq<byte>)
    requires |a| <= |k|
    ensures |c| == |a|
  {
    seq(|a|, i requires 0 <= i < |a| => XorByte(a[i], k[i]))
  }

  lemma XorBytesCancels(a: seq<byte>, k: seq<byte>)
    requires |a| <= |k|
    ensures XorBytes(XorBytes(a, k), k) == a
  {
    forall i | 0 <= i < |a| ensures XorBytes(XorBytes(a, k), k)[i] == a[i] { XorCancels(a[i], k[i]); }
  }

  /** Key blocks of n bytes, numbered without bound; a counter that wraps repeats them. */
  ghost predicate Sized(block: nat -> seq<byte>, n: nat)
  {
    forall c: nat :: |block(c)| == n
  }

  /** The message XOR a key that has a byte for every position. */
  ghost function Mask(key: nat -> byte, m: seq<byte>): (s: seq<byte>)
    ensures |s| == |m|
  {
    if m == [] then [] else Mask(key, m[..|m| - 1]) + [XorByte(m[|m| - 1], key(|m| - 1))]
  }

  lemma {:induction false} MaskAt(key: nat -> byte, m: seq<byte>, i: nat)
    requires i < |m|
    ensures Mask(key, m)[i] == XorByte(m[i], key(i))
  {
    if i < |m| - 1 { MaskAt(key, m[..|m| - 1], i); }
  }

  lemma {:induction false} MaskTwice(key: nat -> byte, m: seq<byte>)
    ensures Mask(key, Mask(key, m)) == m
  {
    if m != [] {
      var i, c := |m| - 1, Mask(key, m);
      assert c[..i] == Mask(key, m[..i]) && c[i] == XorByte(m[i], key(i));
      MaskTwice(key, m[..i]);
      XorCancels(m[i], key(i));
      assert m == m[..i] + [m[i]];
    }
  }

  lemma {:induction false} MaskPrefix(key: nat -> byte, m: seq<byte>, k: nat)
    requires k <= |m|
    ensures Mask(key, m)[..k] == Mask(key, m[..k])
  {
    if k == |m| {
      assert m[..k] == m;
    } else {
      var i := |m| - 1;
      MaskPrefix(key, m[..i], k);
      assert m[..i][..k] == m[..k];
    }
  }

  lemma {:induction false} MaskSame(f: nat -> byte, g: nat -> byte, m: seq<byte>)
    requires forall i: nat :: i < |m| ==> f(i) == g(i)
    ensures Mask(f, m) == Mask(g, m)
  {
    if m != [] { MaskSame(f, g, m[..|m| - 1]); }
  }

  /** The rest of a message meets the key from where the first part ended. */
  lemma {:induction false} MaskSplit(f: nat -> byte, g: nat -> byte, a: seq<byte>, b: seq<byte>)
    requires forall i: nat :: i < |b| ==> g(i) == f(|a| + i)
    ensures Mask(f, a + b) == Mask(f, a) + Mask(g, b)
    decreases |b|
  {
    if b == [] {
      assert a + b == a;
    } else {
      var i := |b| - 1;
      MaskSplit(f, g, a, b[..i]);
      assert (a + b)[..|a + b| - 1] == a + b[..i];
      assert g(i) == f(|a| + i);
    }
  }

  /** Byte i of the key stream: byte i % n of block number c + i / n. */
  ghost function KeyByte(block: nat -> seq<byte>, n: nat, c: nat, i: nat): byte
    requires n > 0 && Sized(block, n)
  {
    block(c + i / n)[i % n]
  }

  ghost function KeyFrom(block: nat -> seq<byte>, n: nat, c: nat): nat -> byte
    requires n > 0 && Sized(block, n)
  {
    (i: nat) => KeyByte(block, n, c, i)
  }

  /** Byte i of the message meets byte i % n of block number c + i / n. */
  ghost function Stream(block: nat -> seq<byte>, n: nat, c: nat, m: seq<byte>): (s: seq<byte>)
    requires n > 0 && Sized(block, n)
    ensures |s| == |m|
  {
    Mask(KeyFrom(block, n, c), m)
  }

  lemma StreamAt(block: nat -> seq<byte>, n: nat, c: nat, m: seq<byte>, i: nat)
    requires n > 0 && Sized(block, n) && i < |m|
    ensures Stream(block, n, c, m)[i] == XorByte(m[i], block(c + i / n)[i % n])
  {
    MaskAt(KeyFrom(block, n, c), m, i);
  }

  function Blocks(len: nat, n: nat): nat
    requires n > 0
  {
    (len + n - 1) / n
  }

  /** The first bytes are encrypted the same whatever follows them. */
  lemma StreamPrefix(block: nat -> seq<byte>, n: nat, c: nat, m: seq<byte>, k: nat)
    requires n > 0 && Sized(block, n) && k <= |m|
    ensures Stream(block, n, c, m)[..k] == Stream(block, n, c, m[..k])
  {
    MaskPrefix(KeyFrom(block, n, c), m, k);
  }

  /** Encrypting twice from the same counter gives the message back. */
  lemma StreamTwice(block: nat -> seq<byte>, n: nat, c: nat, m: seq<byte>)
    requires n > 0 && Sized(block, n)
    ensures Stream(block, n, c, Stream(block, n, c, m)) == m
  {
    MaskTwice(KeyFrom(block, n, c), m);
  }

  lemma AddMultiple(q: nat, n: nat, i: nat)
    requires n > 0
    ensures (n * q + i) / n == q + i / n && (n * q + i) % n == i % n
  {
    assert n * q + i == n * (q + i / n) + i % n by {
      assert n * (q + i / n) == n * q + n * (i / n);
    }
    DivUnique(n * q + i, n, q + i / n, i % n);
  }

  /** A message cut after q whole blocks is encrypted as two calls, the second from counter c + q. */
  lemma StreamSplit(block: nat -> seq<byte>, n: nat, c: nat, a: seq<byte>, b: seq<byte>, q: nat)
    requires n > 0 && Sized(block, n) && |a| == n * q
    ensures Stream(block, n, c, a + b) == Stream(block, n, c, a) + Stream(block, n, c + q, b)
  {
    var f, g := KeyFrom(block, n, c), KeyFrom(block, n, c + q);
    forall i: nat | i < |b| ensures g(i) == f(|a| + i) { KeyLater(block, n, c, q, i); }
    MaskSplit(f, g, a, b);
  }

  lemma KeyLater(block: nat -> seq<byte>, n: nat, c: nat, q: nat, i: nat)
    requires n > 0 && Sized(block, n)
    ensures KeyByte(block, n, c + q, i) == KeyByte(block, n, c, n * q + i)
  {
    AddMultiple(q, n, i);
    assert c + (q + i / n) == (c + q) + i / n;
  }

  lemma WholeBlocks(len: nat, n: nat)
    requires n > 0
    ensures len % n == 0 ==> len == n * Blocks(len, n)
    ensures len <= n * Blocks(len, n) < len + n
  {
    var q, r := len / n, len % n;
    assert len == n * q + r;
    if r == 0 {
      DivUnique(len + n - 1, n, q, n - 1);
    } else {
      assert n * (q + 1) == n * q + n;
      DivUnique(len + n - 1, n, q + 1, r - 1);
    }
  }

  /** Key blocks numbered from a later start. */
  lemma StreamShift(early: nat -> seq<byte>, late: nat -> seq<byte>, n: nat, q: nat, m: seq<byte>)
    requires n > 0 && Sized(early, n) && Sized(late, n)
    requires forall k: nat :: early(q + k) == late(k)
    ensures Stream(early, n, q, m) == Stream(late, n, 0, m)
  {
    var f, g := KeyFrom(early, n, q), KeyFrom(late, n, 0);
    forall i: nat | i < |m| ensures f(i) == g(i) { assert early(q + i / n) == late(i / n); }
    MaskSame(f, g, m);
  }

  /** At most one block of message meets one key block. */
  lemma StreamShort(block: nat -> seq<byte>, n: nat, c: nat, m: seq<byte>)
    requires n > 0 && Sized(block, n) && |m| <= n
    ensures Stream(block, n, c, m) == XorBytes(m, block(c))
  {
    var f := KeyFrom(block, n, c);
    forall i: nat | i < |m| ensures Stream(block, n, c, m)[i] == XorByte(m[i], block(c)[i]) {
      DivUnique(i, n, 0, i);
      MaskAt(f, m, i);
    }
  }

  function Concat(ms: seq<seq<byte>>): seq<byte> { if ms == [] then [] else ms[0] + Concat(ms[1..]) }

  lemma CutAfter(block: nat -> seq<byte>, n: nat, a: seq<byte>, b: seq<byte>)
    requires n > 0 && Sized(block, n) && |a| % n == 0
    ensures Stream(block, n, 0, a + b) == Stream(block, n, 0, a) + Stream(block, n, Blocks(|a|, n), b)
  {
    WholeBlocks(|a|, n);
    StreamSplit(block, n, 0, a, b, Blocks(|a|, n));
  }

  /** Every message but the last is a whole number of blocks. */
  predicate AtBoundaries(ms: seq<seq<byte>>, n: nat)
    requires n > 0
    decreases |ms|
  {
    |ms| > 1 ==> |ms[0]| % n == 0 && AtBoundaries(ms[1..], n)
  }

  // ----- successive calls on one context

  /** `keys(s)` are the key blocks from the counter s on, and `later(s, q)` is the counter q
      blocks further. */
  ghost predicate Counts<S(!new)>(keys: S -> nat -> seq<byte>, later: (S, nat) -> S, n: nat)
  {
    AllSized(keys, n) && Shifts(keys, later)
  }

  ghost predicate AllSized<S(!new)>(keys: S -> nat -> seq<byte>, n: nat) { forall s :: Sized(keys(s), n) }

  ghost predicate Shifts<S(!new)>(keys: S -> nat -> seq<byte>, later: (S, nat) -> S)
  {
    forall s, q: nat, k: nat :: keys(s)(q + k) == keys(later(s, q))(k)
  }

  /** Two calls, the first on whole blocks, are one call on the joined message. */
  lemma CallsJoined<S(!new)>(keys: S -> nat -> seq<byte>, later: (S, nat) -> S, n: nat, s: S,
                             a: seq<byte>, b: seq<byte>)
    requires n > 0 && Counts(keys, later, n) && |a| % n == 0
    ensures Stream(keys(s), n, 0, a + b) ==
            Stream(keys(s), n, 0, a) + Stream(keys(later(s, Blocks(|a|, n))), n, 0, b)
  {
    CutAfter(keys(s), n, a, b);
    StreamShift(keys(s), keys(later(s, Blocks(|a|, n))), n, Blocks(|a|, n), b);
  }

  /** Each call starts from the counter that the one before left. */
  ghost function Calls<S(!new)>(keys: S -> nat -> seq<byte>, later: (S, nat) -> S, n: nat, s: S,
                                ms: seq<seq<byte>>): seq<byte>
    requires n > 0 && Counts(keys, later, n)
    decreases |ms|
  {
    if ms == [] then []
    else Stream(keys(s), n, 0, ms[0]) + Calls(keys, later, n, later(s, Blocks(|ms[0]|, n)), ms[1..])
  }

  /** A message cut at multiples of n over any number of calls is encrypted as by one call. */
  lemma {:induction false} CallsAreOne<S(!new)>(keys: S -> nat -> seq<byte>, later: (S, nat) -> S, n: nat, s: S,
                                                ms: seq<seq<byte>>)
    requires n > 0 && Counts(keys, later, n) && AtBoundaries(ms, n)
    ensures Calls(keys, later, n, s, ms) == Stream(keys(s), n, 0, Concat(ms))
    decreases |ms|
  {
    if |ms| == 1 {
      assert Concat(ms) == ms[0];
    } else if |ms| > 1 {
      CallsAreOne(keys, later, n, later(s, Blocks(|ms[0]|, n)), ms[1..]);
      CallsJoined(keys, later, n, s, ms[0], Concat(ms[1..]));
    }
  }

  // ----- buffers

  /** The bytes of `was` with those from `off` on replaced by `b`. */
  function Overwrite(was: seq<byte>, off: nat, b: seq<byte>): (r: seq<byte>)
    requires off + |b| <= |was|
    ensures |r| == |was|
  {
    was[..off] + b + was[off + |b|..]
  }

  lemma OverwriteAt(was: seq<byte>, off: nat, a: seq<byte>, b: seq<byte>)
    requires off + |a| + |b| <= |was|
    ensures Overwrite(Overwrite(was, off, a), off + |a|, b) == Overwrite(was, off, a + b)
  {
  }

  lemma OverwriteTail(was: seq<byte>, off: nat, b: seq<byte>, from: nat, to: nat)
    requires off + |b| <= from <= to <= |was|
    ensures Overwrite(was, off, b)[from..to] == was[from..to]
  {
  }

  lemma OverwriteFront(was: seq<byte>, n: nat, b: seq<byte>, t: seq<byte>)
    requires n + |b| + |t| <= |was|
    ensures Overwrite(Overwrite(was, n + |b|, t), n, b) == Overwrite(was, n, b + t)
  {
  }

  /** A buffer whose first bytes are done, after one more. */
  lemma Splice(done: seq<byte>, was: seq<byte>, x: byte)
    requires |done| < |was|
    ensures (done + was[|done|..])[|done|] == was[|done|]
    ensures (done + was[|done|..])[|done| := x] == done + [x] + was[|done| + 1..]
  {
  }
}
