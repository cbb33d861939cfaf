/** Big-endian numbers, as sshbuf's PEEK and POKE macros and OpenSSH's bit maps use them. */
module Wire {
  import opened Bits

  /** The number whose base-256 digits, most significant first, are `s`. */
  function FromBytes(s: seq<byte>): nat
  {
    if s == [] then 0 else 256 * FromBytes(s[..|s| - 1]) + s[|s| - 1]
  }

  /** The lowest `n` base-256 digits of `v`, most significant first. */
  function ToBytes(v: nat, n: nat): (s: seq<byte>)
    ensures |s| == n
  {
    if n == 0 then [] else ToBytes(v / 256, n - 1) + [v % 256]
  }

  /** Reading back what was written. */
  lemma {:induction false} RoundTrip(v: nat, n: nat)
    requires v < Pow2(8 * n)
    ensures FromBytes(ToBytes(v, n)) == v
  {
    if n > 0 {
      PowPlus8(8 * (n - 1));
      RoundTrip(v / 256, n - 1);
      assert ToBytes(v, n)[..n - 1] == ToBytes(v / 256, n - 1);
    }
  }

  lemma {:induction false} FromBytesBelow(s: seq<byte>)
    ensures FromBytes(s) < Pow2(8 * |s|)
  {
    if s != [] {
      FromBytesBelow(s[..|s| - 1]);
      PowPlus8(8 * (|s| - 1));
    }
  }

  /** Writing what was read. */
  lemma {:induction false} ToFromBytes(s: seq<byte>)
    ensures ToBytes(FromBytes(s), |s|) == s
  {
    if s != [] {
      ToFromBytes(s[..|s| - 1]);
      assert s == s[..|s| - 1] + [s[|s| - 1]];
    }
  }

  function Put32(v: word): (s: seq<byte>)
    ensures |s| == 4
  {
    ToBytes(v, 4)
  }

  function Peek32(s: seq<byte>): (v: word)
    requires |s| >= 4
  {
    FromBytesBelow(s[..4]);
    PowValues();
    FromBytes(s[..4])
  }

  lemma PeekPut(v: word, rest: seq<byte>)
    ensures Peek32(Put32(v) + rest) == v && (Put32(v) + rest)[4..] == rest
  {
    PowValues();
    RoundTrip(v, 4);
    assert (Put32(v) + rest)[..4] == Put32(v);
  }

  lemma Assoc(x: seq<byte>, y: seq<byte>, z: seq<byte>)
    ensures (x + y) + z == x + (y + z)
  {
  }
}
