/** What the rounds of ChaCha compute, apart from how they are written: which words each quarter
round reads and writes, rotation as an exchange of the two parts of a word, and the test vectors
of sections 2.1.1 and 2.2.1 of RFC 8439. */
module ChaChaVectors {
  import opened Bits
  import opened ChaCha
  import opened Keystream

  // ----- which words a round mixes

  /** A quarter round changes its four words and no other. */
  lemma QuarterTouches(s: State, a: nat, b: nat, c: nat, d: nat)
    requires Places(a, b, c, d)
    ensures At(Quarter(s, a, b, c, d), a, b, c, d) == QuarterRound(At(s, a, b, c, d))
    ensures forall i :: 0 <= i < 16 && i != a && i != b && i != c && i != d ==> Quarter(s, a, b, c, d)[i] == s[i]
  {
    PutTouches(s, a, b, c, d, QuarterRound(At(s, a, b, c, d)));
  }

  lemma PutTouches(s: State, a: nat, b: nat, c: nat, d: nat, q: Quad)
    requires Places(a, b, c, d)
    ensures At(Put(s, a, b, c, d, q), a, b, c, d) == q
    ensures forall i :: 0 <= i < 16 && i != a && i != b && i != c && i != d ==> Put(s, a, b, c, d, q)[i] == s[i]
  {
  }

  function QuarterWith(f: Quad -> Quad, s: State, a: nat, b: nat, c: nat, d: nat): State
    requires Places(a, b, c, d)
  {
    Put(s, a, b, c, d, f(At(s, a, b, c, d)))
  }

  function ColumnsWith(f: Quad -> Quad, s: State): State
  {
    var t := QuarterWith(f, QuarterWith(f, s, 0, 4, 8, 12), 1, 5, 9, 13);
    QuarterWith(f, QuarterWith(f, t, 2, 6, 10, 14), 3, 7, 11, 15)
  }

  function DiagonalsWith(f: Quad -> Quad, s: State): State
  {
    var t := QuarterWith(f, QuarterWith(f, s, 0, 5, 10, 15), 1, 6, 11, 12);
    QuarterWith(f, QuarterWith(f, t, 2, 7, 8, 13), 3, 4, 9, 14)
  }

  /** Column j of the state as a four by four matrix. */
  function Column(s: State, j: nat): Quad
    requires j < 4
  {
    At(s, j, 4 + j, 8 + j, 12 + j)
  }

  /** The diagonal that starts in column j and goes round. */
  function Diagonal(s: State, j: nat): Quad
    requires j < 4
  {
    At(s, j, 4 + (j + 1) % 4, 8 + (j + 2) % 4, 12 + (j + 3) % 4)
  }

  lemma ColumnsLaw(f: Quad -> Quad, s: State, j: nat)
    requires j < 4
    ensures Column(ColumnsWith(f, s), j) == f(Column(s, j))
  {
  }

  lemma DiagonalsLaw(f: Quad -> Quad, s: State, j: nat)
    requires j < 4
    ensures Diagonal(DiagonalsWith(f, s), j) == f(Diagonal(s, j))
  {
  }

  lemma ColumnsAre(s: State)
    ensures ColumnRound(s) == ColumnsWith(QuarterRound, s)
  {
  }

  lemma DiagonalsAre(s: State)
    ensures DiagonalRound(s) == DiagonalsWith(QuarterRound, s)
  {
  }

  /** Quarter j of the first half of a double round mixes column j, and nothing else does. */
  lemma ColumnsMix(s: State, j: nat)
    requires j < 4
    ensures Column(ColumnRound(s), j) == QuarterRound(Column(s, j))
  {
    ColumnsAre(s);
    ColumnsLaw(QuarterRound, s, j);
  }

  /** Quarter j of the second half mixes the diagonal that starts in column j. */
  lemma DiagonalsMix(s: State, j: nat)
    requires j < 4
    ensures Diagonal(DiagonalRound(s), j) == QuarterRound(Diagonal(s, j))
  {
    DiagonalsAre(s);
    DiagonalsLaw(QuarterRound, s, j);
  }

  /** The columns are all there is to a state. */
  lemma ColumnsDecide(t: State, u: State)
    requires forall j: nat :: j < 4 ==> Column(t, j) == Column(u, j)
    ensures t == u
  {
    forall i | 0 <= i < 16 ensures t[i] == u[i] { assert Column(t, i % 4) == Column(u, i % 4); }
  }

  /** A double round mixes the columns first and then the diagonals of what that gives. */
  lemma ColumnsThenDiagonals(s: State, t: State, j: nat)
    requires (forall k: nat :: k < 4 ==> Column(t, k) == QuarterRound(Column(s, k))) && j < 4
    ensures Diagonal(DoubleRound(s), j) == QuarterRound(Diagonal(t, j))
  {
    var u := ColumnRound(s);
    forall k: nat | k < 4 ensures Column(t, k) == Column(u, k) { ColumnsMix(s, k); }
    ColumnsDecide(t, u);
    DiagonalsMix(u, j);
  }

  /** The block function adds the input back after ten double rounds, word by word. */
  lemma BlockWord(s: State, i: nat)
    requires i < 16
    ensures var r: nat, w: nat := Iterate(DoubleRound, s, 10)[i], s[i]; Core(s)[i] == (r + w) % 0x1_0000_0000
  {
  }

  // ----- rotation

  /** Rotating left by n exchanges the upper n and the lower 32 - n digits. */
  lemma RotlExchanges(upper: nat, lower: nat, n: nat, v: word)
    requires 0 < n < 32 && upper < Pow2(n) && lower < Pow2(32 - n) && v == lower + Shl(upper, 32 - n)
    ensures Rotl(v, n) == upper + Shl(lower, n)
  {
    forall k: nat ensures Bit(Rotl(v, n), k) == Bit(upper + Shl(lower, n), k) {
      RotlBits(v, n, k);
      BitJoin(n, upper, lower, k);
      BitJoin(32 - n, lower, upper, if k < n then k + (32 - n) else k - n);
      if k >= 32 { HighBitsClear(lower, 32 - n, k - n); }
    }
    SameBits(Rotl(v, n), upper + Shl(lower, n));
  }

  /** The same with the powers of two written out. */
  lemma RotlIs(upper: nat, lower: nat, n: nat, low: nat, high: nat, v: word)
    requires 0 < n < 32 && high == Pow2(n) && low == Pow2(32 - n)
    requires upper < high && lower < low && v == lower + upper * low
    ensures Rotl(v, n) == upper + lower * high
  {
    assert Shl(upper, 32 - n) == upper * low by { ShlIsMul(upper, 32 - n); }
    assert Shl(lower, n) == lower * high by { ShlIsMul(lower, n); }
    RotlExchanges(upper, lower, n, v);
  }

  lemma Powers()
    ensures Pow2(7) == 0x80 && Pow2(25) == 0x200_0000 && Pow2(8) == 0x100 && Pow2(24) == 0x100_0000
    ensures Pow2(4) == 0x10 && Pow2(12) == 0x1000 && Pow2(20) == 0x10_0000 && Pow2(16) == 0x1_0000
  {
    PowValues();
    assert Pow2(12) == 16 * Pow2(8) && Pow2(20) == 16 * Pow2(16);
    assert 2 * Pow2(7) == Pow2(8) && Pow2(25) == 2 * Pow2(24);
  }

  // ----- operations that act on the digits

  function Twice(a: nat, x: nat): nat { 2 * a + x }

  function Sixteen(a: nat, x: nat): nat { 16 * a + x }

  /** f combines numbers one binary digit at a time, as XOR does. */
  ghost predicate Binary(f: (nat, nat) -> nat)
  {
    && f(0, 0) == 0
    && forall a: nat, b: nat, x: nat, y: nat {:trigger f(Twice(a, x), Twice(b, y))} ::
         x < 2 && y < 2 ==> f(Twice(a, x), Twice(b, y)) == Twice(f(a, b), Digit(x != y))
  }

  /** And so one hexadecimal digit at a time. */
  ghost predicate Hexadecimal(f: (nat, nat) -> nat)
  {
    && f(0, 0) == 0
    && forall a: nat, b: nat, x: nat, y: nat {:trigger f(Sixteen(a, x), Sixteen(b, y))} ::
         x < 16 && y < 16 ==> f(Sixteen(a, x), Sixteen(b, y)) == Sixteen(f(a, b), f(x, y))
  }

  lemma XorIsBinary()
    ensures Binary(Xor)
  {
    forall a: nat, b: nat, x: nat, y: nat | x < 2 && y < 2
      ensures Xor(Twice(a, x), Twice(b, y)) == Twice(Xor(a, b), Digit(x != y))
    {
      XorTwice(a, b, x, y);
    }
  }

  lemma XorTwice(a: nat, b: nat, x: nat, y: nat)
    requires x < 2 && y < 2
    ensures Xor(Twice(a, x), Twice(b, y)) == Twice(Xor(a, b), Digit(x != y))
  {
    var v, w := Twice(a, x), Twice(b, y);
    assert v / 2 == a && w / 2 == b && v % 2 == x && w % 2 == y;
    XorHalves(v, w);
  }

  function Four(a: nat, p: nat, q: nat, r: nat, s: nat): nat { Twice(Twice(Twice(Twice(a, p), q), r), s) }

  lemma FourBits(x: nat) returns (p: nat, q: nat, r: nat, s: nat)
    requires x < 16
    ensures p < 2 && q < 2 && r < 2 && s < 2 && x == Four(0, p, q, r, s)
  {
    p, q, r, s := x / 8, x / 4 % 2, x / 2 % 2, x % 2;
  }

  lemma FourIs(a: nat, p: nat, q: nat, r: nat, s: nat)
    ensures Four(a, p, q, r, s) == Sixteen(a, Four(0, p, q, r, s))
  {
  }

  lemma BinaryFour(f: (nat, nat) -> nat, a: nat, p: nat, q: nat, r: nat, s: nat,
                   b: nat, p': nat, q': nat, r': nat, s': nat)
    requires Binary(f) && p < 2 && q < 2 && r < 2 && s < 2 && p' < 2 && q' < 2 && r' < 2 && s' < 2
    ensures f(Four(a, p, q, r, s), Four(b, p', q', r', s')) ==
            Four(f(a, b), Digit(p != p'), Digit(q != q'), Digit(r != r'), Digit(s != s'))
  {
  }

  lemma HexadecimalDigit(f: (nat, nat) -> nat, a: nat, b: nat, x: nat, y: nat)
    requires Binary(f) && x < 16 && y < 16
    ensures f(Sixteen(a, x), Sixteen(b, y)) == Sixteen(f(a, b), f(x, y))
  {
    var p, q, r, s := FourBits(x);
    var p', q', r', s' := FourBits(y);
    FourIs(a, p, q, r, s);
    FourIs(b, p', q', r', s');
    BinaryFour(f, a, p, q, r, s, b, p', q', r', s');
    BinaryFour(f, 0, p, q, r, s, 0, p', q', r', s');
    FourIs(f(a, b), Digit(p != p'), Digit(q != q'), Digit(r != r'), Digit(s != s'));
  }

  lemma BinaryIsHexadecimal(f: (nat, nat) -> nat)
    requires Binary(f)
    ensures Hexadecimal(f)
  {
    forall a: nat, b: nat, x: nat, y: nat | x < 16 && y < 16
      ensures f(Sixteen(a, x), Sixteen(b, y)) == Sixteen(f(a, b), f(x, y))
    {
      HexadecimalDigit(f, a, b, x, y);
    }
  }

  /** A word by its hexadecimal digits. */
  datatype Hex = Hex(a: nat, b: nat, c: nat, d: nat, e: nat, f: nat, g: nat, h: nat)

  function Value(x: Hex): nat
  {
    Sixteen(Sixteen(Sixteen(Sixteen(Sixteen(Sixteen(Sixteen(x.a, x.b), x.c), x.d), x.e), x.f), x.g), x.h)
  }

  predicate Proper(x: Hex)
  {
    x.a < 16 && x.b < 16 && x.c < 16 && x.d < 16 && x.e < 16 && x.f < 16 && x.g < 16 && x.h < 16
  }

  /** The digits of z are those of x combined with those of y. */
  ghost predicate Combines(f: (nat, nat) -> nat, x: Hex, y: Hex, z: Hex)
  {
    && z.a == f(x.a, y.a) && z.b == f(x.b, y.b) && z.c == f(x.c, y.c) && z.d == f(x.d, y.d)
    && z.e == f(x.e, y.e) && z.f == f(x.f, y.f) && z.g == f(x.g, y.g) && z.h == f(x.h, y.h)
  }

  lemma CombinesValues(f: (nat, nat) -> nat, x: Hex, y: Hex, z: Hex)
    requires Hexadecimal(f) && Proper(x) && Proper(y) && Combines(f, x, y, z)
    ensures f(Value(x), Value(y)) == Value(z)
  {
  }

  /** The digits of z are those of x XOR those of y. */
  ghost predicate XorsTo(x: Hex, y: Hex, z: Hex)
  {
    && z.a == Xor(x.a, y.a) && z.b == Xor(x.b, y.b) && z.c == Xor(x.c, y.c) && z.d == Xor(x.d, y.d)
    && z.e == Xor(x.e, y.e) && z.f == Xor(x.f, y.f) && z.g == Xor(x.g, y.g) && z.h == Xor(x.h, y.h)
  }

  lemma XorValues(x: Hex, y: Hex, z: Hex)
    requires Proper(x) && Proper(y) && XorsTo(x, y, z)
    ensures Xor(Value(x), Value(y)) == Value(z)
  {
    XorIsBinary();
    BinaryIsHexadecimal(Xor);
    assert Combines(Xor, x, y, z);
    CombinesValues(Xor, x, y, z);
  }

  /** XOR and rotation of words given by their digits: the result exchanges the upper and the lower
      part of the XOR. */
  lemma Mixed(v: word, w: word, x: Hex, y: Hex, z: Hex, upper: nat, lower: nat, n: nat, high: nat, low: nat)
    requires v == Value(x) && w == Value(y) && Proper(x) && Proper(y) && XorsTo(x, y, z)
    requires 0 < n < 32 && high == Pow2(n) && low == Pow2(32 - n)
    requires upper < high && lower < low && Value(z) == lower + upper * low
    ensures Rotl(XorWord(v, w), n) == upper + lower * high
  {
    XorValues(x, y, z);
    RotlIs(upper, lower, n, low, high, XorWord(v, w));
  }

  // ----- the vector of section 2.1.1

  lemma Quarter1(v: word, w: word)
    requires v == 0x0123_4567 && w == 0x1213_1415
    ensures Rotl(XorWord(v, w), 16) == 0x5172_1330
  {
    Powers();
    Mixed(v, w, Hex(0, 1, 2, 3, 4, 5, 6, 7), Hex(1, 2, 1, 3, 1, 4, 1, 5),
          Hex(1, 3, 3, 0, 5, 1, 7, 2), 0x1330, 0x5172, 16, 0x10000, 0x10000);
  }

  lemma Quarter2(v: word, w: word)
    requires v == 0x0102_0304 && w == 0xecff_8273
    ensures Rotl(XorWord(v, w), 12) == 0xd817_7edf
  {
    Powers();
    Mixed(v, w, Hex(0, 1, 0, 2, 0, 3, 0, 4), Hex(14, 12, 15, 15, 8, 2, 7, 3),
          Hex(14, 13, 15, 13, 8, 1, 7, 7), 0xedf, 0xd8177, 12, 0x1000, 0x100000);
  }

  lemma Quarter3(v: word, w: word)
    requires v == 0x5172_1330 && w == 0xea2a_92f4
    ensures Rotl(XorWord(v, w), 8) == 0x5881_c4bb
  {
    Powers();
    Mixed(v, w, Hex(5, 1, 7, 2, 1, 3, 3, 0), Hex(14, 10, 2, 10, 9, 2, 15, 4),
          Hex(11, 11, 5, 8, 8, 1, 12, 4), 0xbb, 0x5881c4, 8, 0x100, 0x1000000);
  }

  lemma Quarter4(v: word, w: word)
    requires v == 0xd817_7edf && w == 0x4581_472e
    ensures Rotl(XorWord(v, w), 7) == 0xcb1c_f8ce
  {
    Powers();
    Mixed(v, w, Hex(13, 8, 1, 7, 7, 14, 13, 15), Hex(4, 5, 8, 1, 4, 7, 2, 14),
          Hex(9, 13, 9, 6, 3, 9, 15, 1), 0x4e, 0x19639f1, 7, 0x80, 0x2000000);
  }

  /** The test vector for the quarter round. */
  lemma QuarterVector(q: Quad)
    requires q == Quad(0x1111_1111, 0x0102_0304, 0x9b8d_6f43, 0x0123_4567)
    ensures QuarterRound(q) == Quad(0xea2a_92f4, 0xcb1c_f8ce, 0x4581_472e, 0x5881_c4bb)
  {
    var a1 := Plus(q.a, q.b);
    Quarter1(q.d, a1);
    var d1 := Rotl(XorWord(q.d, a1), 16);
    var c1 := Plus(q.c, d1);
    Quarter2(q.b, c1);
    var b1 := Rotl(XorWord(q.b, c1), 12);
    var a2 := Plus(a1, b1);
    Quarter3(d1, a2);
    var c2 := Plus(c1, Rotl(XorWord(d1, a2), 8));
    Quarter4(b1, c2);
  }

  // ----- the vector of section 2.2.1

  lemma StateQuarter1(v: word, w: word)
    requires v == 0x3d63_1689 && w == 0x7bc3_d2fd
    ensures Rotl(XorWord(v, w), 16) == 0xc474_46a0
  {
    Powers();
    Mixed(v, w, Hex(3, 13, 6, 3, 1, 6, 8, 9), Hex(7, 11, 12, 3, 13, 2, 15, 13),
          Hex(4, 6, 10, 0, 12, 4, 7, 4), 0x46a0, 0xc474, 16, 0x10000, 0x10000);
  }

  lemma StateQuarter2(v: word, w: word)
    requires v == 0x2a5f_714c && w == 0x17ab_6e07
    ensures Rotl(XorWord(v, w), 12) == 0x41f4_b3df
  {
    Powers();
    Mixed(v, w, Hex(2, 10, 5, 15, 7, 1, 4, 12), Hex(1, 7, 10, 11, 6, 14, 0, 7),
          Hex(3, 13, 15, 4, 1, 15, 4, 11), 0x3df, 0x41f4b, 12, 0x1000, 0x100000);
  }

  lemma StateQuarter3(v: word, w: word)
    requires v == 0xc474_46a0 && w == 0xbdb8_86dc
    ensures Rotl(XorWord(v, w), 8) == 0xccc0_7c79
  {
    Powers();
    Mixed(v, w, Hex(12, 4, 7, 4, 4, 6, 10, 0), Hex(11, 13, 11, 8, 8, 6, 13, 12),
          Hex(7, 9, 12, 12, 12, 0, 7, 12), 0x79, 0xccc07c, 8, 0x100, 0x1000000);
  }

  lemma StateQuarter4(v: word, w: word)
    requires v == 0x41f4_b3df && w == 0xe46b_ea80
    ensures Rotl(XorWord(v, w), 7) == 0xcfac_afd2
  {
    Powers();
    Mixed(v, w, Hex(4, 1, 15, 4, 11, 3, 13, 15), Hex(14, 4, 6, 11, 14, 10, 8, 0),
          Hex(10, 5, 9, 15, 5, 9, 5, 15), 0x52, 0x19f595f, 7, 0x80, 0x2000000);
  }

  /** The quarter round of words 2, 7, 8 and 13 in the test vector for the state. */
  lemma StateQuarter(q: Quad)
    requires q == Quad(0x5164_61b1, 0x2a5f_714c, 0x5337_2767, 0x3d63_1689)
    ensures QuarterRound(q) == Quad(0xbdb8_86dc, 0xcfac_afd2, 0xe46b_ea80, 0xccc0_7c79)
  {
    var a1 := Plus(q.a, q.b);
    StateQuarter1(q.d, a1);
    var d1 := Rotl(XorWord(q.d, a1), 16);
    var c1 := Plus(q.c, d1);
    StateQuarter2(q.b, c1);
    var b1 := Rotl(XorWord(q.b, c1), 12);
    var a2 := Plus(a1, b1);
    StateQuarter3(d1, a2);
    var c2 := Plus(c1, Rotl(XorWord(d1, a2), 8));
    StateQuarter4(b1, c2);
  }

  ghost predicate VectorWords(s: State)
  {
    At(s, 2, 7, 8, 13) == Quad(0x5164_61b1, 0x2a5f_714c, 0x5337_2767, 0x3d63_1689)
  }

  /** The test vector for a quarter round on the state, whatever its other words are: they stay. */
  lemma StateVector(s: State)
    requires VectorWords(s)
    ensures Quarter(s, 2, 7, 8, 13) ==
            Put(s, 2, 7, 8, 13, Quad(0xbdb8_86dc, 0xcfac_afd2, 0xe46b_ea80, 0xccc0_7c79))
  {
    StateQuarter(At(s, 2, 7, 8, 13));
  }

  lemma ThirdDiagonal(f: Quad -> Quad, s: State)
    ensures At(DiagonalsWith(f, s), 2, 7, 8, 13) == f(At(s, 2, 7, 8, 13))
  {
  }

  /** That quarter round is the third diagonal of a double round. */
  lemma DiagonalVector(s: State)
    requires VectorWords(s)
    ensures At(DiagonalRound(s), 2, 7, 8, 13) == Quad(0xbdb8_86dc, 0xcfac_afd2, 0xe46b_ea80, 0xccc0_7c79)
  {
    StateQuarter(At(s, 2, 7, 8, 13));
    DiagonalsAre(s);
    ThirdDiagonal(QuarterRound, s);
  }

  // ----- the constants

  /** The constants are the characters of their strings. */
  lemma ConstantsSpell()
    ensures |SIGMA| == 16 && forall i :: 0 <= i < 16 ==> SIGMA[i] == "expand 32-byte k"[i] as nat
    ensures |TAU| == 16 && forall i :: 0 <= i < 16 ==> TAU[i] == "expand 16-byte k"[i] as nat
  {
  }
}
