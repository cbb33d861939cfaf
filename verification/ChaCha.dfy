/** The stream cipher of chacha.c. */
module ChaCha {
  import opened Bits
  import opened Keystream
  import opened Wrappers

  type State = s: seq<word> | |s| == 16 witness seq(16, i => 0)

  // ----- the block function

  function Plus(v: word, w: word): word { var n: nat := v; (n + w) % 0x1_0000_0000 }

  function XorWord(v: word, w: word): word { PowValues(); XorBelow(v, w, 32); Xor(v, w) }

  function Rotl(v: word, n: nat): word
    requires 0 < n < 32
  {
    PowValues();
    ShrBelow(v, 32 - n, n);
    PowMono(n, 32);
    OrBelow(Shl(v, n) % 0x1_0000_0000, Shr(v, 32 - n), 32);
    Or(Shl(v, n) % 0x1_0000_0000, Shr(v, 32 - n))
  }

  datatype Quad = Quad(a: word, b: word, c: word, d: word)

  function QuarterRound(q: Quad): Quad
  {
    var a1 := Plus(q.a, q.b);
    var d1 := Rotl(XorWord(q.d, a1), 16);
    var c1 := Plus(q.c, d1);
    var b1 := Rotl(XorWord(q.b, c1), 12);
    var a2 := Plus(a1, b1);
    var d2 := Rotl(XorWord(d1, a2), 8);
    var c2 := Plus(c1, d2);
    Quad(a2, Rotl(XorWord(b1, c2), 7), c2, d2)
  }

  predicate Places(a: nat, b: nat, c: nat, d: nat)
  {
    a < 16 && b < 16 && c < 16 && d < 16 && a != b && a != c && a != d && b != c && b != d && c != d
  }

  function At(s: State, a: nat, b: nat, c: nat, d: nat): Quad
    requires Places(a, b, c, d)
  {
    Quad(s[a], s[b], s[c], s[d])
  }

  function Put(s: State, a: nat, b: nat, c: nat, d: nat, q: Quad): State
    requires Places(a, b, c, d)
  {
    s[a := q.a][b := q.b][c := q.c][d := q.d]
  }

  function Quarter(s: State, a: nat, b: nat, c: nat, d: nat): State
    requires Places(a, b, c, d)
  {
    Put(s, a, b, c, d, QuarterRound(At(s, a, b, c, d)))
  }

  function ColumnRound(s: State): State
  {
    Quarter(Quarter(Quarter(Quarter(s, 0, 4, 8, 12), 1, 5, 9, 13), 2, 6, 10, 14), 3, 7, 11, 15)
  }

  function DiagonalRound(s: State): State
  {
    Quarter(Quarter(Quarter(Quarter(s, 0, 5, 10, 15), 1, 6, 11, 12), 2, 7, 8, 13), 3, 4, 9, 14)
  }

  function DoubleRound(s: State): State { DiagonalRound(ColumnRound(s)) }

  function AddState(x: State, s: State): State { seq(16, i requires 0 <= i < 16 => Plus(x[i], s[i])) }

  /** Ten double rounds, and the input added back word by word. */
  function Core(s: State): State { AddState(Iterate(DoubleRound, s, 10), s) }

  // ----- the rounds lose nothing

  lemma RotlBits(v: word, n: nat, k: nat)
    requires 0 < n < 32
    ensures Bit(Rotl(v, n), k) <==> k < 32 && Bit(v, if k < n then k + (32 - n) else k - n)
  {
    PowValues();
    var hi, lo := Shl(v, n) % 0x1_0000_0000, Shr(v, 32 - n);
    BitOr(hi, lo, k);
    BitShr(v, 32 - n, k);
    BitShl(v, n, k);
    if k < 32 { ModBit(Shl(v, n), 32, k); } else { HighBitsClear(hi, 32, k); }
    if k >= n { HighBitsClear(v, 32, 32 - n + k); }
  }

  /** Rotating the rest of the way round restores the word. */
  lemma RotlBack(v: word, n: nat)
    requires 0 < n < 32
    ensures Rotl(Rotl(v, n), 32 - n) == v
  {
    forall k: nat ensures Bit(Rotl(Rotl(v, n), 32 - n), k) == Bit(v, k) {
      RotlBits(Rotl(v, n), 32 - n, k);
      if k < 32 {
        RotlBits(v, n, if k < 32 - n then k + n else k - (32 - n));
      } else {
        PowValues();
        HighBitsClear(v, 32, k);
      }
    }
    SameBits(Rotl(Rotl(v, n), 32 - n), v);
  }

  function Minus(v: word, w: word): word { var n: int := v; (n - w) % 0x1_0000_0000 }

  function Unquarter(q: Quad): Quad
  {
    var b1 := XorWord(Rotl(q.b, 25), q.c);
    var c1 := Minus(q.c, q.d);
    var d1 := XorWord(Rotl(q.d, 24), q.a);
    var a1 := Minus(q.a, b1);
    Quad(Minus(a1, XorWord(Rotl(b1, 20), c1)), XorWord(Rotl(b1, 20), c1), Minus(c1, d1), XorWord(Rotl(d1, 16), a1))
  }

  lemma MixBack(x: word, y: word, n: nat)
    requires 0 < n < 32
    ensures XorWord(Rotl(Rotl(XorWord(x, y), n), 32 - n), y) == x
  {
    RotlBack(XorWord(x, y), n);
    XorCancels(x, y);
  }

  lemma PlusBack(v: word, w: word)
    ensures Minus(Plus(v, w), w) == v
  {
  }

  /** A quarter round can be undone, so two different inputs never meet. */
  lemma QuarterBack(q: Quad)
    ensures Unquarter(QuarterRound(q)) == q
  {
    var a1 := Plus(q.a, q.b);
    var d1 := Rotl(XorWord(q.d, a1), 16);
    var c1 := Plus(q.c, d1);
    var b1 := Rotl(XorWord(q.b, c1), 12);
    var a2 := Plus(a1, b1);
    var d2 := Rotl(XorWord(d1, a2), 8);
    var c2 := Plus(c1, d2);
    MixBack(b1, c2, 7);
    PlusBack(c1, d2);
    MixBack(d1, a2, 8);
    PlusBack(a1, b1);
    MixBack(q.b, c1, 12);
    PlusBack(q.c, d1);
    MixBack(q.d, a1, 16);
    PlusBack(q.a, q.b);
  }

  lemma QuarterInjective(s: State, t: State, a: nat, b: nat, c: nat, d: nat)
    requires Places(a, b, c, d) && Quarter(s, a, b, c, d) == Quarter(t, a, b, c, d)
    ensures s == t
  {
    var p, q := At(s, a, b, c, d), At(t, a, b, c, d);
    var s', t' := Quarter(s, a, b, c, d), Quarter(t, a, b, c, d);
    assert At(s', a, b, c, d) == QuarterRound(p) && At(t', a, b, c, d) == QuarterRound(q);
    QuarterBack(p);
    QuarterBack(q);
    forall i | 0 <= i < 16 ensures s[i] == t[i] { assert s'[i] == t'[i]; }
  }

  lemma ColumnInjective(s: State, t: State)
    requires ColumnRound(s) == ColumnRound(t)
    ensures s == t
  {
    var s1, t1 := Quarter(s, 0, 4, 8, 12), Quarter(t, 0, 4, 8, 12);
    var s2, t2 := Quarter(s1, 1, 5, 9, 13), Quarter(t1, 1, 5, 9, 13);
    var s3, t3 := Quarter(s2, 2, 6, 10, 14), Quarter(t2, 2, 6, 10, 14);
    QuarterInjective(s3, t3, 3, 7, 11, 15);
    QuarterInjective(s2, t2, 2, 6, 10, 14);
    QuarterInjective(s1, t1, 1, 5, 9, 13);
    QuarterInjective(s, t, 0, 4, 8, 12);
  }

  lemma DiagonalInjective(s: State, t: State)
    requires DiagonalRound(s) == DiagonalRound(t)
    ensures s == t
  {
    var s1, t1 := Quarter(s, 0, 5, 10, 15), Quarter(t, 0, 5, 10, 15);
    var s2, t2 := Quarter(s1, 1, 6, 11, 12), Quarter(t1, 1, 6, 11, 12);
    var s3, t3 := Quarter(s2, 2, 7, 8, 13), Quarter(t2, 2, 7, 8, 13);
    QuarterInjective(s3, t3, 3, 4, 9, 14);
    QuarterInjective(s2, t2, 2, 7, 8, 13);
    QuarterInjective(s1, t1, 1, 6, 11, 12);
    QuarterInjective(s, t, 0, 5, 10, 15);
  }

  lemma DoubleInjective(s: State, t: State)
    requires DoubleRound(s) == DoubleRound(t)
    ensures s == t
  {
    DiagonalInjective(ColumnRound(s), ColumnRound(t));
    ColumnInjective(s, t);
  }

  ghost predicate Injective(f: State -> State) { forall s: State, t: State :: f(s) == f(t) ==> s == t }

  lemma {:induction false} IterateInjective(f: State -> State, s: State, t: State, n: nat)
    requires Injective(f) && Iterate(f, s, n) == Iterate(f, t, n)
    ensures s == t
  {
    if n > 0 { IterateInjective(f, s, t, n - 1); }
  }

  /** Any number of double rounds is a permutation of the states. */
  lemma RoundsInjective(s: State, t: State, n: nat)
    requires Iterate(DoubleRound, s, n) == Iterate(DoubleRound, t, n)
    ensures s == t
  {
    forall x: State, y: State | DoubleRound(x) == DoubleRound(y) ensures x == y { DoubleInjective(x, y); }
    assert Injective(DoubleRound);
    IterateInjective(DoubleRound, s, t, n);
  }

  // ----- words and bytes, least significant byte first

  function ByteOf(v: word, k: nat): byte { Shr(v, 8 * k) % 256 }

  lemma ByteBits(v: word, k: nat, b: nat)
    requires b < 8
    ensures Bit(ByteOf(v, k), b) == Bit(v, 8 * k + b)
  {
    PowValues();
    ModBit(Shr(v, 8 * k), 8, b);
    BitShr(v, 8 * k, b);
  }

  /** The word of four bytes, assembled by shifts and OR. */
  function Load(p: seq<byte>): word
    requires |p| == 4
  {
    LoadBelow(p);
    Or(Or(Or(p[0], Shl(p[1], 8)), Shl(p[2], 16)), Shl(p[3], 24))
  }

  lemma ShiftBelow(b: byte, n: nat, w: nat)
    requires n + 8 <= w
    ensures Shl(b, n) < Pow2(w)
  {
    PowValues();
    JoinBelow(n, 0, 8, b);
    PowMono(n + 8, w);
  }

  lemma LoadBelow(p: seq<byte>)
    requires |p| == 4
    ensures Or(Or(Or(p[0], Shl(p[1], 8)), Shl(p[2], 16)), Shl(p[3], 24)) < 0x1_0000_0000
  {
    PowValues();
    ShiftBelow(p[0], 0, 32);
    ShiftBelow(p[1], 8, 32);
    ShiftBelow(p[2], 16, 32);
    ShiftBelow(p[3], 24, 32);
    OrBelow(p[0], Shl(p[1], 8), 32);
    OrBelow(Or(p[0], Shl(p[1], 8)), Shl(p[2], 16), 32);
    OrBelow(Or(Or(p[0], Shl(p[1], 8)), Shl(p[2], 16)), Shl(p[3], 24), 32);
  }

  /** Digit b of byte k, seen in the assembled word. */
  lemma LoadBits(p: seq<byte>, k: nat, b: nat)
    requires |p| == 4 && k < 4 && b < 8
    ensures Bit(Load(p), 8 * k + b) == Bit(p[k], b)
  {
    var n := 8 * k + b;
    BitOr(p[0], Shl(p[1], 8), n);
    BitOr(Or(p[0], Shl(p[1], 8)), Shl(p[2], 16), n);
    BitOr(Or(Or(p[0], Shl(p[1], 8)), Shl(p[2], 16)), Shl(p[3], 24), n);
    ShiftedBits(p[0], 0, k, b);
    ShiftedBits(p[1], 1, k, b);
    ShiftedBits(p[2], 2, k, b);
    ShiftedBits(p[3], 3, k, b);
  }

  lemma ShiftedBits(x: byte, j: nat, k: nat, b: nat)
    requires b < 8
    ensures Bit(Shl(x, 8 * j), 8 * k + b) <==> j == k && Bit(x, b)
  {
    PowValues();
    BitShl(x, 8 * j, 8 * k + b);
    if j < k { HighBitsClear(x, 8, 8 * k + b - 8 * j); }
  }

  /** XOR of words is XOR of their bytes. */
  lemma XorLoaded(v: word, p: seq<byte>, k: nat)
    requires |p| == 4 && k < 4
    ensures ByteOf(XorWord(v, Load(p)), k) == XorByte(p[k], ByteOf(v, k))
  {
    forall b: nat | b < 8 ensures Bit(ByteOf(XorWord(v, Load(p)), k), b) == Bit(XorByte(p[k], ByteOf(v, k)), b) {
      ByteBits(XorWord(v, Load(p)), k, b);
      BitXor(v, Load(p), 8 * k + b);
      LoadBits(p, k, b);
      ByteBits(v, k, b);
      BitXor(p[k], ByteOf(v, k), b);
    }
    SameLowByte(ByteOf(XorWord(v, Load(p)), k), XorByte(p[k], ByteOf(v, k)));
  }

  /** The 64 bytes of a state. */
  function Bytes(x: State): (b: seq<byte>)
    ensures |b| == 64
  {
    seq(64, i requires 0 <= i < 64 => ByteOf(x[i / 4], i % 4))
  }

  function XorState(x: State, m: seq<byte>): State
    requires |m| == 64
  {
    seq(16, i requires 0 <= i < 16 => XorWord(x[i], Load(m[4 * i..4 * i + 4])))
  }

  lemma XorStateBytes(x: State, m: seq<byte>)
    requires |m| == 64
    ensures Bytes(XorState(x, m)) == XorBytes(m, Bytes(x))
  {
    var y := XorState(x, m);
    forall i | 0 <= i < 64 ensures Bytes(y)[i] == XorByte(m[i], Bytes(x)[i]) {
      XorStateByte(x, m, i / 4, i % 4);
    }
  }

  lemma XorStateByte(x: State, m: seq<byte>, j: nat, k: nat)
    requires |m| == 64 && j < 16 && k < 4
    ensures Bytes(XorState(x, m))[4 * j + k] == XorByte(m[4 * j + k], Bytes(x)[4 * j + k])
  {
    var p := m[4 * j..4 * j + 4];
    assert p[k] == m[4 * j + k];
    XorLoaded(x[j], p, k);
    ByteAt(x, j, k);
    ByteAt(XorState(x, m), j, k);
  }

  // ----- the counter

  const WORDS: nat := 0x1_0000_0000

  /** Add one to word 12 and, when it wraps, to word 13. */
  function Next(s: State): State
  {
    var low := Plus(s[12], 1);
    if low == 0 then s[12 := low][13 := Plus(s[13], 1)] else s[12 := low]
  }

  function Advanced(s: State, k: nat): State { Iterate(Next, s, k) }

  function CounterOf(s: State): nat { var hi: nat := s[13]; s[12] + WORDS * hi }

  /** Outside the counter nothing changes. */
  predicate SameKey(s: State, t: State) { s[..12] == t[..12] && s[14..] == t[14..] }

  lemma NextIs(s: State)
    ensures SameKey(s, Next(s))
    ensures CounterOf(Next(s)) == if CounterOf(s) + 1 == WORDS * WORDS then 0 else CounterOf(s) + 1
  {
  }

  lemma CounterBelow(s: State)
    ensures CounterOf(s) < WORDS * WORDS && CounterOf(s) % (WORDS * WORDS) == CounterOf(s)
  {
  }

  lemma StepMod(x: nat, m: nat)
    requires m > 0
    ensures (x + 1) % m == if x % m + 1 == m then 0 else x % m + 1
  {
    var q, r := x / m, x % m;
    assert x == m * q + r;
    if r + 1 == m {
      assert m * (q + 1) == m * q + m;
      DivUnique(x + 1, m, q + 1, 0);
    } else {
      DivUnique(x + 1, m, q, r + 1);
    }
  }

  /** k blocks advance the 64-bit counter by k. */
  lemma {:induction false} AdvancedIs(s: State, k: nat)
    ensures SameKey(s, Advanced(s, k))
    ensures CounterOf(Advanced(s, k)) == (CounterOf(s) + k) % (WORDS * WORDS)
  {
    if k == 0 {
      CounterBelow(s);
    } else {
      var t := Advanced(s, k - 1);
      AdvancedIs(s, k - 1);
      CounterBelow(t);
      NextIs(t);
      StepMod(CounterOf(s) + k - 1, WORDS * WORDS);
    }
  }

  // ----- keys and nonces

  /** The words of a string of bytes, four at a time. */
  function Words(p: seq<byte>): (w: seq<word>)
    requires |p| % 4 == 0
    ensures |w| == |p| / 4
  {
    seq(|p| / 4, i requires 0 <= i < |p| / 4 => Load(p[4 * i..4 * i + 4]))
  }

  /** "expand 32-byte k" and "expand 16-byte k". */
  const SIGMA: seq<byte> := [101, 120, 112, 97, 110, 100, 32, 51, 50, 45, 98, 121, 116, 101, 32, 107]
  const TAU: seq<byte> := [101, 120, 112, 97, 110, 100, 32, 49, 54, 45, 98, 121, 116, 101, 32, 107]

  /** The twelve words that a key fixes. */
  type KeyWords = w: seq<word> | |w| == 12 witness seq(12, i => 0)

  function KeyOf(k: seq<byte>, kbits: nat): KeyWords
    requires |k| >= if kbits == 256 then 32 else 16
  {
    if kbits == 256 then Words(SIGMA) + Words(k[..32]) else Words(TAU) + Words(k[..16]) + Words(k[..16])
  }

  /** A key with a counter, zero when absent, and a nonce. */
  function Seeded(key: KeyWords, iv: seq<byte>, counter: Option<seq<byte>>): State
    requires |iv| == 8 && (counter.Some? ==> |counter.value| == 8)
  {
    key + (match counter case None => [0, 0] case Some(c) => Words(c)) + Words(iv)
  }

  /** Bytes are not lost in their words. */
  lemma LoadBytes(p: seq<byte>, k: nat)
    requires |p| == 4 && k < 4
    ensures ByteOf(Load(p), k) == p[k]
  {
    forall b: nat | b < 8 ensures Bit(ByteOf(Load(p), k), b) == Bit(p[k], b) {
      ByteBits(Load(p), k, b);
      LoadBits(p, k, b);
    }
    SameLowByte(ByteOf(Load(p), k), p[k]);
  }

  function Zeros(n: nat): seq<byte> { seq(n, i => 0) }

  lemma ByteAt(s: State, j: nat, k: nat)
    requires j < 16 && k < 4
    ensures Bytes(s)[4 * j + k] == ByteOf(s[j], k)
  {
  }

  /** The bytes of words that were loaded are the bytes they were loaded from. */
  lemma BytesOfWords(s: State, at: nat, p: seq<byte>)
    requires |p| % 4 == 0 && 4 * at + |p| <= 64 && s[at..at + |p| / 4] == Words(p)
    ensures Bytes(s)[4 * at..4 * at + |p|] == p
  {
    forall i | 0 <= i < |p| ensures Bytes(s)[4 * at + i] == p[i] {
      ByteOfWord(s, at, p, i / 4, i % 4);
    }
  }

  lemma ByteOfWord(s: State, at: nat, p: seq<byte>, j: nat, k: nat)
    requires |p| % 4 == 0 && 4 * at + |p| <= 64 && s[at..at + |p| / 4] == Words(p) && 4 * j < |p| && k < 4
    ensures Bytes(s)[4 * at + (4 * j + k)] == p[4 * j + k]
  {
    assert s[at + j] == s[at..at + |p| / 4][j] == Load(p[4 * j..4 * j + 4]);
    LoadBytes(p[4 * j..4 * j + 4], k);
    ByteAt(s, at + j, k);
    assert 4 * at + (4 * j + k) == 4 * (at + j) + k;
  }

  /** Words that are the same have the same bytes. */
  lemma SameBytes(s: State, t: State, from: nat, to: nat)
    requires from <= to <= 16 && s[from..to] == t[from..to]
    ensures Bytes(s)[4 * from..4 * to] == Bytes(t)[4 * from..4 * to]
  {
    forall i | 4 * from <= i < 4 * to ensures Bytes(s)[i] == Bytes(t)[i] {
      assert s[i / 4] == s[from..to][i / 4 - from];
    }
  }

  lemma {:induction false} WordsAppend(p: seq<byte>, q: seq<byte>)
    requires |p| % 4 == 0 && |q| % 4 == 0
    ensures Words(p + q) == Words(p) + Words(q)
  {
    var a, b := Words(p + q), Words(p) + Words(q);
    forall i | 0 <= i < |a| ensures a[i] == b[i] {
      if i < |p| / 4 {
        assert (p + q)[4 * i..4 * i + 4] == p[4 * i..4 * i + 4];
      } else {
        var j := i - |p| / 4;
        assert (p + q)[4 * i..4 * i + 4] == q[4 * j..4 * j + 4];
      }
    }
  }

  /** Words 4 to 7, then 8 to 11, then 0 to 3 of a state replaced. */
  lemma ThreeFours(s: seq<word>, a: seq<word>, b: seq<word>, c: seq<word>)
    requires |s| == 16 && |a| == 4 && |b| == 4 && |c| == 4
    ensures var t := s[..4] + b + s[8..];
            var u := t[..8] + c + t[12..];
            var v := u[..0] + a + u[4..];
            v[..12] == a + (b + c) && v[12..] == s[12..]
  {
  }

  lemma KeyWordsOf(k: seq<byte>, kbits: nat)
    requires |k| >= if kbits == 256 then 32 else 16
    ensures var rest := if kbits == 256 then k[16..] else k;
            KeyOf(k, kbits) == Words(if kbits == 256 then SIGMA else TAU) + (Words(k[..16]) + Words(rest[..16]))
  {
    if kbits == 256 {
      WordsAppend(k[..16], k[16..32]);
      assert k[..32] == k[..16] + k[16..32] && k[16..][..16] == k[16..32];
    }
  }

  /** The key, as the bytes of the state. */
  lemma KeyBytes(s: State, was: State, k: seq<byte>, kbits: nat)
    requires |k| >= if kbits == 256 then 32 else 16
    requires s[..12] == KeyOf(k, kbits) && s[12..] == was[12..]
    ensures Bytes(s) == (if kbits == 256 then SIGMA + k[..32] else TAU + k[..16] + k[..16]) + Bytes(was)[48..]
  {
    var p := if kbits == 256 then SIGMA + k[..32] else TAU + k[..16] + k[..16];
    KeyIsWords(k, kbits);
    FrontBytes(s, p);
    SameBytes(s, was, 12, 16);
    TwoParts(Bytes(s));
  }

  lemma FrontBytes(s: State, p: seq<byte>)
    requires |p| == 48 && s[..12] == Words(p)
    ensures Bytes(s)[..48] == p
  {
    assert s[0..12] == Words(p);
    BytesOfWords(s, 0, p);
  }

  lemma TwoParts(b: seq<byte>)
    requires |b| == 64
    ensures b == b[..48] + b[48..64]
  {
  }

  lemma KeyIsWords(k: seq<byte>, kbits: nat)
    requires |k| >= if kbits == 256 then 32 else 16
    ensures KeyOf(k, kbits) == Words(if kbits == 256 then SIGMA + k[..32] else TAU + k[..16] + k[..16])
  {
    if kbits == 256 {
      WordsAppend(SIGMA, k[..32]);
    } else {
      WordsAppend(TAU, k[..16]);
      WordsAppend(TAU + k[..16], k[..16]);
    }
  }

  lemma ZeroBytes(s: State)
    requires s[12] == 0 && s[13] == 0
    ensures Bytes(s)[48..56] == Zeros(8)
  {
    forall i | 48 <= i < 56 ensures Bytes(s)[i] == 0 { ZeroByte(i % 4); }
  }

  lemma ZeroByte(k: nat)
    ensures ByteOf(0, k) == 0
  {
    ShrIsDiv(0, 8 * k);
  }

  /** The counter and the nonce, as the bytes of the state. */
  lemma SeedBytes(was: State, iv: seq<byte>, counter: Option<seq<byte>>)
    requires |iv| == 8 && (counter.Some? ==> |counter.value| == 8)
    ensures var s := Seeded(was[..12], iv, counter);
            Bytes(s) == Bytes(was)[..48] + (if counter.None? then Zeros(8) else counter.value) + iv
  {
    var s := Seeded(was[..12], iv, counter);
    SameBytes(s, was, 0, 12);
    assert s[14..16] == Words(iv);
    BytesOfWords(s, 14, iv);
    CounterBytes(was, iv, counter);
    ThreeParts(Bytes(s));
  }

  lemma ThreeParts(b: seq<byte>)
    requires |b| == 64
    ensures b == b[..48] + b[48..56] + b[56..64]
  {
  }

  lemma CounterBytes(was: State, iv: seq<byte>, counter: Option<seq<byte>>)
    requires |iv| == 8 && (counter.Some? ==> |counter.value| == 8)
    ensures Bytes(Seeded(was[..12], iv, counter))[48..56] == if counter.None? then Zeros(8) else counter.value
  {
    var s := Seeded(was[..12], iv, counter);
    if counter.Some? {
      assert s[12..14] == Words(counter.value);
      BytesOfWords(s, 12, counter.value);
    } else {
      ZeroBytes(s);
    }
  }

  lemma WordsInjective(p: seq<byte>, q: seq<byte>)
    requires |p| % 4 == 0 && |q| % 4 == 0 && Words(p) == Words(q)
    ensures p == q
  {
    assert |p| == 4 * |Words(p)| && |q| == 4 * |Words(q)|;
    forall i | 0 <= i < |p| ensures p[i] == q[i] {
      var j, k := i / 4, i % 4;
      assert Words(p)[j] == Words(q)[j];
      LoadBytes(p[4 * j..4 * j + 4], k);
      LoadBytes(q[4 * j..4 * j + 4], k);
    }
  }

  /** Different nonces start from different states, and the rounds keep them different. */
  lemma NoncesStayApart(key: KeyWords, iv: seq<byte>, iv': seq<byte>, c: Option<seq<byte>>, n: nat)
    requires |iv| == 8 && |iv'| == 8 && iv != iv' && (c.Some? ==> |c.value| == 8)
    ensures Iterate(DoubleRound, Seeded(key, iv, c), n) != Iterate(DoubleRound, Seeded(key, iv', c), n)
  {
    var s, t := Seeded(key, iv, c), Seeded(key, iv', c);
    assert s[14..] == Words(iv) && t[14..] == Words(iv');
    if Iterate(DoubleRound, s, n) == Iterate(DoubleRound, t, n) {
      RoundsInjective(s, t, n);
      WordsInjective(iv, iv');
    }
  }

  // ----- messages; `core` is the block function

  function KeyBlock(core: State -> State, s: State, k: nat): (b: seq<byte>)
    ensures |b| == 64
  {
    Bytes(core(Advanced(s, k)))
  }

  /** The key blocks from state s on. */
  ghost function KeyStream(core: State -> State, s: State): (f: nat -> seq<byte>)
    ensures Sized(f, 64)
  {
    (k: nat) => KeyBlock(core, s, k)
  }

  /** Byte i of the message meets byte i mod 64 of the block with counter + i / 64. */
  ghost function Encrypted(core: State -> State, s: State, m: seq<byte>): (c: seq<byte>)
    ensures |c| == |m|
  {
    Stream(KeyStream(core, s), 64, 0, m)
  }

  /** Byte i is XORed with byte i mod 64 of the block of the state i / 64 blocks on. */
  lemma EncryptedByte(core: State -> State, s: State, m: seq<byte>, i: nat)
    requires i < |m|
    ensures Encrypted(core, s, m)[i] == XorByte(m[i], Bytes(core(Advanced(s, i / 64)))[i % 64])
  {
    StreamAt(KeyStream(core, s), 64, 0, m, i);
  }

  lemma EncryptTwice(core: State -> State, s: State, m: seq<byte>)
    ensures Encrypted(core, s, Encrypted(core, s, m)) == m
  {
    StreamTwice(KeyStream(core, s), 64, 0, m);
  }

  lemma EncryptNothing(core: State -> State, s: State, out: seq<byte>, co: nat)
    requires co <= |out|
    ensures Overwrite(out, co, Encrypted(core, s, [])) == out && Advanced(s, Blocks(0, 64)) == s
  {
    assert Blocks(0, 64) == 0 && Encrypted(core, s, []) == [];
  }

  ghost function Streams(core: State -> State): State -> nat -> seq<byte> { s => KeyStream(core, s) }

  lemma StreamsCount(core: State -> State)
    ensures Counts(Streams(core), Advanced, 64)
  {
    StreamsSized(core);
    StreamsShift(core);
  }

  lemma StreamsSized(core: State -> State)
    ensures AllSized(Streams(core), 64)
  {
  }

  lemma StreamsShift(core: State -> State)
    ensures Shifts(Streams(core), Advanced)
  {
    var keys, later := Streams(core), Advanced;
    forall s: State, q: nat, k: nat ensures keys(s)(q + k) == keys(later(s, q))(k) {
      BlockLater(core, keys, later, s, q, k);
    }
  }

  lemma BlockLater(core: State -> State, keys: State -> nat -> seq<byte>, later: (State, nat) -> State,
                   s: State, q: nat, k: nat)
    requires keys == Streams(core) && later == Advanced
    ensures keys(s)(q + k) == keys(later(s, q))(k)
  {
    IterateTwice(Next, s, q, k);
  }

  /** Two calls, the first on whole blocks, are one call on the joined message. */
  lemma EncryptJoined(core: State -> State, s: State, a: seq<byte>, b: seq<byte>)
    requires |a| % 64 == 0
    ensures Encrypted(core, s, a + b) ==
            Encrypted(core, s, a) + Encrypted(core, Advanced(s, Blocks(|a|, 64)), b)
  {
    StreamsCount(core);
    CallsJoined(Streams(core), Advanced, 64, s, a, b);
  }

  /** A message cut at multiples of 64 over any number of calls is encrypted as by one call. */
  lemma EncryptCalls(core: State -> State, s: State, ms: seq<seq<byte>>)
    requires AtBoundaries(ms, 64)
    ensures Counts(Streams(core), Advanced, 64)
    ensures Calls(Streams(core), Advanced, 64, s, ms) == Encrypted(core, s, Concat(ms))
  {
    StreamsCount(core);
    CallsAreOne(Streams(core), Advanced, 64, s, ms);
  }

  // ----- the code

  /** The loop over the twenty rounds, two at a time. */
  method TwentyRounds(double: State -> State, j: State) returns (x: State)
    ensures x == Iterate(double, j, 10)
  {
    x := j;
    var i := 20;
    while i > 0
      invariant 0 <= i <= 20 && i % 2 == 0
      invariant x == Iterate(double, j, (20 - i) / 2)
    {
      x := double(x);
      i := i - 2;
    }
  }

  method Permute(j: State) returns (x: State)
    ensures x == Core(j)
  {
    x := TwentyRounds(DoubleRound, j);
    x := AddState(x, j);
  }

  function WordBytes(v: word): seq<byte> { [ByteOf(v, 0), ByteOf(v, 1), ByteOf(v, 2), ByteOf(v, 3)] }

  method PutWord(c: array<byte>, off: nat, v: word)
    requires off + 4 <= c.Length
    modifies c
    ensures c[..] == Overwrite(old(c[..]), off, WordBytes(v))
  {
    c[off], c[off + 1], c[off + 2], c[off + 3] := ByteOf(v, 0), ByteOf(v, 1), ByteOf(v, 2), ByteOf(v, 3);
  }

  /** A buffer that holds the first i words of y, after one more. */
  /** `out` is `was` with the first i words of y stored from `co` on. */
  ghost predicate Stored(was: seq<byte>, co: nat, y: State, i: nat, out: seq<byte>)
  {
    i <= 16 && co + 64 <= |was| && out == Overwrite(was, co, Bytes(y)[..4 * i])
  }

  lemma StoreStep(was: seq<byte>, co: nat, y: State, i: nat, out: seq<byte>)
    requires i < 16 && Stored(was, co, y, i, out)
    ensures Stored(was, co, y, i + 1, Overwrite(out, co + 4 * i, WordBytes(y[i])))
  {
    assert Bytes(y)[..4 * (i + 1)] == Bytes(y)[..4 * i] + WordBytes(y[i]);
    OverwriteAt(was, co, Bytes(y)[..4 * i], WordBytes(y[i]));
  }

  /** One block: every word is read before any byte is written, so `c` may be `m`. */
  method CryptBlock(x: State, m: array<byte>, mo: nat, c: array<byte>, co: nat)
    requires mo + 64 <= m.Length && co + 64 <= c.Length
    modifies c
    ensures c[..] == Overwrite(old(c[..]), co, XorBytes(old(m[mo..mo + 64]), Bytes(x)))
  {
    ghost var was := c[..];
    var y := XorState(x, m[mo..mo + 64]);
    XorStateBytes(x, m[mo..mo + 64]);
    assert was == Overwrite(was, co, Bytes(y)[..0]);
    for i := 0 to 16
      invariant Stored(was, co, y, i, c[..])
    {
      StoreStep(was, co, y, i, c[..]);
      PutWord(c, co + 4 * i, y[i]);
    }
    assert Bytes(y)[..64] == Bytes(y);
  }

  method CopyBytes(src: array<byte>, so: nat, dst: array<byte>, d: nat, n: nat)
    requires so + n <= src.Length && d + n <= dst.Length && src != dst
    modifies dst
    ensures dst[..] == Overwrite(old(dst[..]), d, old(src[so..so + n]))
  {
    ghost var was := dst[..];
    for i := 0 to n
      invariant dst[..] == Overwrite(was, d, src[so..so + i])
    {
      OverwriteNext(was, d, src[so..so + i], src[so + i]);
      assert src[so..so + i] + [src[so + i]] == src[so..so + (i + 1)];
      dst[d + i] := src[so + i];
    }
  }

  lemma OverwriteNext(was: seq<byte>, off: nat, b: seq<byte>, x: byte)
    requires off + |b| < |was|
    ensures Overwrite(was, off, b)[off + |b| := x] == Overwrite(was, off, b + [x])
  {
  }

  /** A last piece of fewer than 64 bytes goes through a temporary block. */
  method CryptTail(x: State, m: array<byte>, mo: nat, c: array<byte>, co: nat, n: nat)
    requires n < 64 && mo + n <= m.Length && co + n <= c.Length
    modifies c
    ensures c[..] == Overwrite(old(c[..]), co, XorBytes(old(m[mo..mo + n]), Bytes(x)))
  {
    var tmp := new byte[64];
    CopyBytes(m, mo, tmp, 0, n);
    ghost var block := tmp[0..64];
    assert block[..n] == m[mo..mo + n];
    CryptBlock(x, tmp, 0, tmp, 0);
    assert tmp[0..n] == XorBytes(block, Bytes(x))[..n] == XorBytes(block[..n], Bytes(x));
    CopyBytes(tmp, 0, c, co, n);
  }

  /** The key block of x over the next n bytes; what follows them in the source stays. */
  method CryptPiece(x: State, m: array<byte>, mo: nat, c: array<byte>, co: nat, n: nat)
    requires n <= 64 && mo + n <= m.Length && co + n <= c.Length && (m == c ==> mo == co)
    modifies c
    ensures c[..] == Overwrite(old(c[..]), co, XorBytes(old(m[mo..mo + n]), Bytes(x)))
    ensures m[mo + n..] == old(m[mo + n..])
  {
    ghost var was, out := c[..], XorBytes(m[mo..mo + n], Bytes(x));
    if n < 64 { CryptTail(x, m, mo, c, co, n); } else { CryptBlock(x, m, mo, c, co); }
    OverwriteTail(was, co, out, co + n, |was|);
    assert c[co + n..] == c[..][co + n..|was|];
  }

  predicate Sixteen(s: seq<word>) { |s| == 16 }

  /** `f` is the block function.  The trigger keeps the rounds out of proofs that only need
      some block function: this is unfolded at a state only where Sixteen is mentioned. */
  ghost predicate Computes(f: State -> State)
  {
    forall s: State {:trigger Sixteen(s)} :: Sixteen(s) ==> f(s) == Core(s)
  }

  /** struct chacha_ctx. */
  class Context {
    const core: State -> State
    var input: State

    constructor ()
      ensures core == Core && Computes(core)
    {
      core := Core;
    }

    /** Four words of the state from sixteen bytes. */
    method SetFour(at: nat, p: seq<byte>)
      requires at <= 12 && |p| == 16
      modifies this`input
      ensures input == old(input)[..at] + Words(p) + old(input)[at + 4..]
    {
      input := input[at := Load(p[0..4])];
      input := input[at + 1 := Load(p[4..8])];
      input := input[at + 2 := Load(p[8..12])];
      input := input[at + 3 := Load(p[12..16])];
    }

    /** chacha_keysetup: the bytes of the state are the constant, the key, twice if it is short,
        and what the counter and the nonce were. */
    method KeySetup(k: seq<byte>, kbits: nat)
      requires |k| >= if kbits == 256 then 32 else 16
      modifies this`input
      ensures input[..12] == KeyOf(k, kbits) && input[12..] == old(input)[12..]
      ensures Bytes(input) == (if kbits == 256 then SIGMA + k[..32] else TAU + k[..16] + k[..16]) + Bytes(old(input))[48..]
    {
      ghost var was := input;
      SetKeyWords(k, kbits);
      KeyBytes(input, was, k, kbits);
    }

    method SetKeyWords(k: seq<byte>, kbits: nat)
      requires |k| >= if kbits == 256 then 32 else 16
      modifies this`input
      ensures input[..12] == KeyOf(k, kbits) && input[12..] == old(input)[12..]
    {
      KeyWordsOf(k, kbits);
      if kbits == 256 {
        SetTwelve(k[..16], k[16..][..16], SIGMA);
      } else {
        SetTwelve(k[..16], k[..16], TAU);
      }
    }

    /** Words 4 to 7 first, then 8 to 11, then the constants. */
    method SetTwelve(first: seq<byte>, second: seq<byte>, constants: seq<byte>)
      requires |first| == 16 && |second| == 16 && |constants| == 16
      modifies this`input
      ensures input[..12] == Words(constants) + (Words(first) + Words(second)) && input[12..] == old(input)[12..]
    {
      ThreeFours(input, Words(constants), Words(first), Words(second));
      SetFour(4, first);
      SetFour(8, second);
      SetFour(0, constants);
    }

    /** chacha_ivsetup: the bytes of the state are what the key was, the counter, zero when absent,
        and the nonce. */
    method IvSetup(iv: seq<byte>, counter: Option<seq<byte>>)
      requires |iv| == 8 && (counter.Some? ==> |counter.value| == 8)
      modifies this`input
      ensures input == Seeded(old(input)[..12], iv, counter)
      ensures Bytes(input) ==
              Bytes(old(input))[..48] + (if counter.None? then Zeros(8) else counter.value) + iv
      ensures counter.None? ==> CounterOf(input) == 0
    {
      ghost var was := input;
      input := input[12 := if counter.None? then 0 else Load(counter.value[0..4])];
      input := input[13 := if counter.None? then 0 else Load(counter.value[4..8])];
      input := input[14 := Load(iv[0..4])];
      input := input[15 := Load(iv[4..8])];
      assert input == Seeded(was[..12], iv, counter);
      SeedBytes(was, iv, counter);
    }

    /** The key block of state j: the source computes it in the loop. */
    method Block(j: State) returns (x: State)
      requires Computes(core)
      ensures x == core(j)
    {
      assert Sixteen(j);
      x := Permute(j);
    }

    /** One turn of the block loop on the source `src`, of which the bytes from `at` on are intact. */
    method CryptNext(j: State, m: array<byte>, at: nat, end: nat, c: array<byte>, pos: nat, n: nat,
                     ghost src: seq<byte>, ghost target: (seq<byte>, State))
      returns (k: State)
      requires Computes(core) && at < end <= m.Length == |src| && n == (if end - at < 64 then end - at else 64)
      requires (m == c ==> at == pos) && m[at..] == src[at..]
      requires Remains(core, j, src, at, end, c[..], pos, target)
      modifies c
      ensures Remains(core, k, src, at + n, end, c[..], pos + n, target)
      ensures m[at + n..] == src[at + n..]
    {
      ghost var out, msg := c[..], src[at..end];
      var x := Block(j);
      FrontOf(m[..], src, at, n);
      assert msg[..n] == src[at..at + n] && msg[n..] == src[at + n..end];
      CryptPiece(x, m, at, c, pos, n);
      k := Next(j);
    }

    /** The block loop, for at least one byte. */
    method CryptLoop(m: array<byte>, mo: nat, c: array<byte>, co: nat, bytes: nat, ghost target: (seq<byte>, State))
      requires Computes(core)
      requires 0 < bytes && mo + bytes <= m.Length && co + bytes <= c.Length && (m == c ==> mo == co)
      requires Remains(core, input, m[..], mo, mo + bytes, c[..], co, target)
      modifies c, this`input
      ensures (c[..], input) == target
    {
      ghost var src := m[..];
      var j, at, pos, end := input, mo, co, mo + bytes;
      while true
        invariant mo <= at < end && at - mo == pos - co && m[at..] == src[at..]
        invariant Remains(core, j, src, at, end, c[..], pos, target)
        decreases end - at
      {
        var n := if end - at < 64 then end - at else 64;
        j := CryptNext(j, m, at, end, c, pos, n, src, target);
        at, pos := at + n, pos + n;
        if at == end { break; }
      }
      input := j;
    }

    method CryptPieces(m: array<byte>, mo: nat, c: array<byte>, co: nat, bytes: nat)
      requires Computes(core)
      requires 0 < bytes && mo + bytes <= m.Length && co + bytes <= c.Length && (m == c ==> mo == co)
      modifies c, this`input
      ensures c[..] == Overwrite(old(c[..]), co, Pieces(core, old(input), old(m[mo..mo + bytes])))
      ensures input == Advanced(old(input), Blocks(bytes, 64))
    {
      ghost var target := Left(core, input, m[mo..mo + bytes], c[..], co);
      LeftIs(core, input, m[mo..mo + bytes], c[..], co);
      assert m[..][mo..mo + bytes] == m[mo..mo + bytes];
      CryptLoop(m, mo, c, co, bytes, target);
    }

    /** chacha_encrypt_bytes; `c` may be the same place as `m`. */
    method EncryptBytes(m: array<byte>, mo: nat, c: array<byte>, co: nat, bytes: nat)
      requires Computes(core)
      requires mo + bytes <= m.Length && co + bytes <= c.Length && (m == c ==> mo == co)
      modifies c, this`input
      ensures c[..] == Overwrite(old(c[..]), co, Encrypted(core, old(input), old(m[mo..mo + bytes])))
      ensures input == Advanced(old(input), Blocks(bytes, 64))
    {
      if bytes == 0 {
        assert m[mo..mo + bytes] == [];
        EncryptNothing(core, input, c[..], co);
        return;
      }
      PiecesAreStream(core, input, m[mo..mo + bytes]);
      CryptPieces(m, mo, c, co, bytes);
    }
  }

  lemma FrontOf(s: seq<byte>, t: seq<byte>, at: nat, n: nat)
    requires at + n <= |s| == |t| && s[at..] == t[at..]
    ensures s[at..at + n] == t[at..at + n] && s[at + n..] == t[at + n..]
  {
    assert s[at..at + n] == s[at..][..n] && s[at + n..] == s[at..][n..];
  }

  /** The output and the state when the message `m` is encrypted, piece by piece, from state j
      into the buffer `out` from `pos` on. */
  ghost function Left(core: State -> State, j: State, m: seq<byte>, out: seq<byte>, pos: nat): (seq<byte>, State)
    requires pos + |m| <= |out|
    decreases |m|
  {
    if m == [] then (out, j)
    else
      var n := if |m| < 64 then |m| else 64;
      Left(core, Next(j), m[n..], Overwrite(out, pos, XorBytes(m[..n], Bytes(core(j)))), pos + n)
  }

  /** What is left of the message, encrypted from state j, makes the output and the state `target`. */
  ghost predicate Remains(core: State -> State, j: State, src: seq<byte>, at: nat, end: nat,
                          out: seq<byte>, pos: nat, target: (seq<byte>, State))
  {
    && at <= end <= |src| && pos + (end - at) <= |out|
    && Left(core, j, src[at..end], out, pos) == target
  }

  lemma {:induction false} LeftIs(core: State -> State, j: State, m: seq<byte>, out: seq<byte>, pos: nat)
    requires pos + |m| <= |out|
    ensures Left(core, j, m, out, pos) == (Overwrite(out, pos, Pieces(core, j, m)), Advanced(j, Blocks(|m|, 64)))
    decreases |m|
  {
    if m == [] {
      assert Overwrite(out, pos, []) == out;
    } else {
      var n := if |m| < 64 then |m| else 64;
      var piece := XorBytes(m[..n], Bytes(core(j)));
      LeftIs(core, Next(j), m[n..], Overwrite(out, pos, piece), pos + n);
      BlocksStep(j, |m|, n);
      OverwriteAt(out, pos, piece, Pieces(core, Next(j), m[n..]));
    }
  }

  lemma BlocksStep(j: State, left: nat, n: nat)
    requires 0 < left && n == if left < 64 then left else 64
    ensures Advanced(Next(j), Blocks(left - n, 64)) == Advanced(j, Blocks(left, 64))
  {
    var q := Blocks(left - n, 64);
    assert Blocks(left, 64) == 1 + q;
    IterateTwice(Next, j, 1, q);
    assert Advanced(j, 1) == Next(j);
  }

  /** The message block by block, with the counter stepped between blocks. */
  function Pieces(core: State -> State, s: State, m: seq<byte>): (c: seq<byte>)
    ensures |c| == |m|
    decreases |m|
  {
    if m == [] then []
    else
      var n := if |m| < 64 then |m| else 64;
      XorBytes(m[..n], Bytes(core(s))) + Pieces(core, Next(s), m[n..])
  }

  /** Block by block is byte by byte. */
  lemma {:induction false} PiecesAreStream(core: State -> State, s: State, m: seq<byte>)
    ensures Pieces(core, s, m) == Encrypted(core, s, m)
    decreases |m|
  {
    if m != [] {
      var n := if |m| < 64 then |m| else 64;
      var first, rest := m[..n], m[n..];
      assert m == first + rest;
      StreamShort(KeyStream(core, s), 64, 0, first);
      PiecesAreStream(core, Next(s), rest);
      if n == 64 {
        EncryptJoined(core, s, first, rest);
        assert Blocks(64, 64) == 1 && Advanced(s, 1) == Next(s);
      } else {
        assert rest == [] && m == first;
      }
    }
  }
}
