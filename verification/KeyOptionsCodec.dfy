/** The wire form of key options: sshauthopt_serialise and sshauthopt_deserialise with the
sshbuf primitives they use. */
module KeyOptionsCodec {
  import opened Bits
  import opened Wire
  import opened Wrappers
  import opened KeyOptions

  const SIZE_MAX := 0x800_0000      // SSHBUF_SIZE_MAX
  const INT_MAX := 0x7fff_ffff

  datatype Parsed<+T> = Bad | Got(value: T, rest: seq<byte>)

  // ----- strings

  function EncString(s: seq<byte>): seq<byte> { ToBytes(|s|, 4) + s }

  function GetString(b: seq<byte>): (r: Parsed<seq<byte>>)
    ensures r.Got? ==> |r.rest| + |r.value| + 4 == |b|
  {
    if |b| < 4 then Bad
    else
      var n := Peek32(b);
      if n > SIZE_MAX - 4 || |b| - 4 < n then Bad else Got(b[4..4 + n], b[4 + n..])
  }

  predicate InnerNul(s: seq<byte>) { s != [] && 0 in s[..|s| - 1] }

  /** The C string in `s`, which a NUL at the end would end. */
  function Terminated(s: seq<byte>): CString
    requires !InnerNul(s)
  {
    if s == [] then s
    else
      assert s == s[..|s| - 1] + [s[|s| - 1]];
      if s[|s| - 1] == 0 then s[..|s| - 1] else s
  }

  /** A NUL is tolerated at the end only, and there it ends the C string. */
  function GetCString(b: seq<byte>): (r: Parsed<CString>)
    ensures r.Got? ==> |r.rest| + 4 <= |b|
  {
    match GetString(b)
    case Bad => Bad
    case Got(s, rest) => if InnerNul(s) then Bad else Got(Terminated(s), rest)
  }

  lemma StringRoundTrip(s: seq<byte>, tail: seq<byte>)
    requires |s| <= SIZE_MAX - 4
    ensures GetString(EncString(s) + tail) == Got(s, tail)
  {
    var b := EncString(s) + tail;
    PeekPut(|s|, s + tail);
    assert b == Put32(|s|) + (s + tail);
    assert b[4..4 + |s|] == s && b[4 + |s|..] == tail;
  }

  lemma CStringRoundTrip(s: CString, tail: seq<byte>)
    requires |s| <= SIZE_MAX - 4
    ensures GetCString(EncString(s) + tail) == Got(s, tail)
  {
    StringRoundTrip(s, tail);
  }

  // ----- nullable strings: the flag tells NULL from the empty string

  function EncNullable(s: Option<CString>): seq<byte>
  {
    if s.None? then [1] + EncString([]) else [0] + EncString(s.value)
  }

  function GetNullable(b: seq<byte>): (r: Parsed<Option<CString>>)
    ensures r.Got? ==> |r.rest| <= |b|
  {
    if b == [] then Bad
    else match GetCString(b[1..])
      case Bad => Bad
      case Got(s, rest) => Got(if b[0] != 0 then None else Some(s), rest)
  }

  lemma FlagThenString(flag: byte, e: seq<byte>, t: CString, tail: seq<byte>)
    requires GetCString(e + tail) == Got(t, tail)
    ensures GetNullable([flag] + e + tail) == Got(if flag != 0 then None else Some(t), tail)
  {
    var b := [flag] + e + tail;
    assert b[1..] == e + tail;
  }

  lemma NullableRoundTrip(s: Option<CString>, tail: seq<byte>)
    requires |EncNullable(s)| <= SIZE_MAX
    ensures GetNullable(EncNullable(s) + tail) == Got(s, tail)
  {
    if s.None? {
      CStringRoundTrip([], tail);
      FlagThenString(1, EncString([]), [], tail);
    } else {
      CStringRoundTrip(s.value, tail);
      FlagThenString(0, EncString(s.value), s.value, tail);
    }
  }

  // ----- arrays: a count, then all the strings inside one string

  function EncAll(a: seq<CString>): seq<byte>
  {
    if a == [] then [] else EncAll(a[..|a| - 1]) + EncString(a[|a| - 1])
  }

  function EncArray(a: seq<CString>): seq<byte> { ToBytes(|a|, 4) + EncString(EncAll(a)) }

  function GetAll(n: nat, b: seq<byte>): (r: Parsed<seq<CString>>)
    ensures r.Got? ==> |r.value| == n
  {
    if n == 0 then Got([], b)
    else match GetAll(n - 1, b)
      case Bad => Bad
      case Got(front, more) =>
        match GetCString(more)
        case Bad => Bad
        case Got(s, rest) => Got(front + [s], rest)
  }

  function GetArray(b: seq<byte>): (r: Parsed<seq<CString>>)
    ensures r.Got? ==> |r.rest| <= |b|
  {
    if |b| < 4 then Bad
    else match GetString(b[4..])
      case Bad => Bad
      case Got(inner, rest) =>
        if Peek32(b) > INT_MAX then Bad
        else match GetAll(Peek32(b), inner)
          case Bad => Bad
          case Got(a, _) => Got(a, rest)
  }

  lemma {:induction false} EncAllSize(a: seq<CString>)
    ensures |EncAll(a)| >= 4 * |a|
    ensures forall i :: 0 <= i < |a| ==> |a[i]| + 4 <= |EncAll(a)|
  {
    if a != [] { EncAllSize(a[..|a| - 1]); }
  }

  lemma {:induction false} AllRoundTrip(a: seq<CString>, tail: seq<byte>)
    requires |EncAll(a)| <= SIZE_MAX
    ensures GetAll(|a|, EncAll(a) + tail) == Got(a, tail)
  {
    if a != [] {
      var n := |a| - 1;
      var front, last := a[..n], EncString(a[n]);
      EncAllSize(a);
      Assoc(EncAll(front), last, tail);
      AllRoundTrip(front, last + tail);
      CStringRoundTrip(a[n], tail);
      assert front + [a[n]] == a;
    } else {
      assert EncAll(a) + tail == tail;
    }
  }

  lemma ArrayRoundTrip(a: seq<CString>, tail: seq<byte>)
    requires |EncArray(a)| <= SIZE_MAX
    ensures GetArray(EncArray(a) + tail) == Got(a, tail)
  {
    EncAllSize(a);
    var inner := EncAll(a);
    assert EncArray(a) + tail == Put32(|a|) + (EncString(inner) + tail);
    PeekPut(|a|, EncString(inner) + tail);
    StringRoundTrip(inner, tail);
    AllRoundTrip(a, []);
    assert inner + [] == inner;
  }

  // ----- the fixed part: nine flags, expiry, tunnel device

  function U8(x: int): byte { x % 256 }

  function Signed(v: word): int { if v > INT_MAX then v - 0x1_0000_0000 else v }

  function Flags(flags: seq<int>): seq<byte>
  {
    seq(|flags|, i requires 0 <= i < |flags| => U8(flags[i]))
  }

  function EncHead(o: Options): (s: seq<byte>)
    ensures |s| == 22
  {
    Flags([o.permitPortForwarding, o.permitAgentForwarding, o.permitX11Forwarding, o.permitPty,
           o.permitUserRc, o.restricted, o.certAuthority, o.noRequireUserPresence, o.requireVerify])
    + ToBytes(o.validBefore, 8)
    + [if o.forceTunDevice == -1 then 1 else 0]
    + ToBytes(if o.forceTunDevice < 0 then 0 else o.forceTunDevice, 4)
  }

  /** The options with the fixed part of `b` and nothing else set. */
  function GetHead(b: seq<byte>): Options
    requires |b| >= 22
  {
    Options(b[0], b[1], b[2], b[3], b[4], b[5], b[6], b[7], b[8], FromBytes(b[9..17]),
            if b[17] != 0 then -1 else Signed(Peek32(b[18..22])),
            None, None, None, None, [], [], [])
  }

  /** What fits the C types of the options structure. */
  predicate Typed(o: Options) { o.validBefore < Pow2(64) && o.forceTunDevice <= INT_MAX }

  /** What is left of the fixed part after one trip. */
  function Norm(o: Options): Options
  {
    o.(permitPortForwarding := U8(o.permitPortForwarding), permitAgentForwarding := U8(o.permitAgentForwarding),
       permitX11Forwarding := U8(o.permitX11Forwarding), permitPty := U8(o.permitPty),
       permitUserRc := U8(o.permitUserRc), restricted := U8(o.restricted), certAuthority := U8(o.certAuthority),
       noRequireUserPresence := U8(o.noRequireUserPresence), requireVerify := U8(o.requireVerify),
       forceTunDevice := if o.forceTunDevice < -1 then 0 else o.forceTunDevice)
  }

  function Fixed(o: Options): Options
  {
    o.(certPrincipals := None, forceCommand := None, requiredFromHostCert := None,
       requiredFromHostKeys := None, env := [], permitOpen := [], permitListen := [])
  }

  lemma HeadRoundTrip(o: Options, tail: seq<byte>)
    requires Typed(o)
    ensures GetHead(EncHead(o) + tail) == Fixed(Norm(o))
  {
    var b := EncHead(o) + tail;
    var tun := if o.forceTunDevice < 0 then 0 else o.forceTunDevice;
    assert b[9..17] == ToBytes(o.validBefore, 8);
    assert b[18..22] == Put32(tun) + [];
    RoundTrip(o.validBefore, 8);
    PeekPut(tun, []);
  }

  // ----- the whole structure

  function EncStrings(o: Options): seq<byte>
  {
    EncNullable(o.certPrincipals) + EncNullable(o.forceCommand)
    + EncNullable(o.requiredFromHostCert) + EncNullable(o.requiredFromHostKeys)
  }

  function EncArrays(o: Options): seq<byte>
  {
    EncArray(o.env) + EncArray(o.permitOpen) + EncArray(o.permitListen)
  }

  function Encode(o: Options): seq<byte> { EncHead(o) + EncStrings(o) + EncArrays(o) }

  function GetStrings(o: Options, b: seq<byte>): Parsed<Options>
  {
    var r1 := GetNullable(b);
    if r1.Bad? then Bad else
    var r2 := GetNullable(r1.rest);
    if r2.Bad? then Bad else
    var r3 := GetNullable(r2.rest);
    if r3.Bad? then Bad else
    var r4 := GetNullable(r3.rest);
    if r4.Bad? then Bad else
    Got(o.(certPrincipals := r1.value, forceCommand := r2.value,
           requiredFromHostCert := r3.value, requiredFromHostKeys := r4.value), r4.rest)
  }

  function GetArrays(o: Options, b: seq<byte>): Parsed<Options>
  {
    var r1 := GetArray(b);
    if r1.Bad? then Bad else
    var r2 := GetArray(r1.rest);
    if r2.Bad? then Bad else
    var r3 := GetArray(r2.rest);
    if r3.Bad? then Bad else
    Got(o.(env := r1.value, permitOpen := r2.value, permitListen := r3.value), r3.rest)
  }

  function Decode(b: seq<byte>): Parsed<Options>
  {
    if |b| < 22 then Bad
    else match GetStrings(GetHead(b), b[22..])
      case Bad => Bad
      case Got(o, rest) => GetArrays(o, rest)
  }

  lemma StringsRoundTrip(o: Options, p: Options, tail: seq<byte>)
    requires |EncStrings(o)| <= SIZE_MAX
    ensures GetStrings(p, EncStrings(o) + tail)
            == Got(p.(certPrincipals := o.certPrincipals, forceCommand := o.forceCommand,
                      requiredFromHostCert := o.requiredFromHostCert,
                      requiredFromHostKeys := o.requiredFromHostKeys), tail)
  {
    var e1, e2 := EncNullable(o.certPrincipals), EncNullable(o.forceCommand);
    var e3, e4 := EncNullable(o.requiredFromHostCert), EncNullable(o.requiredFromHostKeys);
    NullableRoundTrip(o.certPrincipals, e2 + (e3 + (e4 + tail)));
    NullableRoundTrip(o.forceCommand, e3 + (e4 + tail));
    NullableRoundTrip(o.requiredFromHostCert, e4 + tail);
    NullableRoundTrip(o.requiredFromHostKeys, tail);
    Assoc4(e1, e2, e3, e4, tail);
  }

  lemma Assoc4(a: seq<byte>, b: seq<byte>, c: seq<byte>, d: seq<byte>, tail: seq<byte>)
    ensures a + b + c + d + tail == a + (b + (c + (d + tail)))
  {
  }

  lemma ArraysRoundTrip(o: Options, p: Options, tail: seq<byte>)
    requires |EncArrays(o)| <= SIZE_MAX
    ensures GetArrays(p, EncArrays(o) + tail)
            == Got(p.(env := o.env, permitOpen := o.permitOpen, permitListen := o.permitListen), tail)
  {
    var x, y, z := EncArray(o.env), EncArray(o.permitOpen), EncArray(o.permitListen);
    var t3 := z + tail;
    var t2 := y + t3;
    Assoc(x + y, z, tail);
    Assoc(x, y, t3);
    ArrayRoundTrip(o.env, t2);
    ArrayRoundTrip(o.permitOpen, t3);
    ArrayRoundTrip(o.permitListen, tail);
  }

  lemma HeadThenRest(h: seq<byte>, s: seq<byte>, a: seq<byte>, tail: seq<byte>)
    requires |h| == 22
    ensures h + s + a + tail == h + (s + (a + tail)) && (h + s + a + tail)[22..] == s + (a + tail)
  {
  }

  /** Deserialising what was serialised consumes exactly that and leaves what follows; only
      flags beyond a byte and tunnel devices below -1 come back changed. */
  lemma DecodeEncode(o: Options, tail: seq<byte>)
    requires Typed(o) && |Encode(o)| <= SIZE_MAX
    ensures Decode(Encode(o) + tail) == Got(Norm(o), tail)
  {
    var h, s, a := EncHead(o), EncStrings(o), EncArrays(o);
    HeadThenRest(h, s, a, tail);
    HeadRoundTrip(o, s + (a + tail));
    StringsRoundTrip(o, Fixed(Norm(o)), a + tail);
    ArraysRoundTrip(o, GetStrings(Fixed(Norm(o)), s + (a + tail)).value, tail);
  }

  lemma EncodeParts(o: Options)
    ensures Encode(o)[..22] == EncHead(o) && Encode(o)[22..] == EncStrings(o) + EncArrays(o)
  {
    var h, s, a := EncHead(o), EncStrings(o), EncArrays(o);
    Assoc(h, s, a);
    assert (h + (s + a))[..22] == h && (h + (s + a))[22..] == s + a;
  }

  /** The fixed part on the wire: nine flags, the expiry, and the tunnel device after a byte that
      tells whether there is none. */
  lemma HeadLayout(o: Options)
    requires Typed(o)
    ensures var b := Encode(o)[..22];
            && b[..9] == [U8(o.permitPortForwarding), U8(o.permitAgentForwarding), U8(o.permitX11Forwarding),
                          U8(o.permitPty), U8(o.permitUserRc), U8(o.restricted), U8(o.certAuthority),
                          U8(o.noRequireUserPresence), U8(o.requireVerify)]
            && FromBytes(b[9..17]) == o.validBefore && (b[17] != 0 <==> o.forceTunDevice == -1)
            && FromBytes(b[18..22]) == if o.forceTunDevice < 0 then 0 else o.forceTunDevice
  {
    var tun := if o.forceTunDevice < 0 then 0 else o.forceTunDevice;
    EncodeParts(o);
    HeadSlices(Flags([o.permitPortForwarding, o.permitAgentForwarding, o.permitX11Forwarding, o.permitPty,
                      o.permitUserRc, o.restricted, o.certAuthority, o.noRequireUserPresence, o.requireVerify]),
               ToBytes(o.validBefore, 8), [if o.forceTunDevice == -1 then 1 else 0], ToBytes(tun, 4));
    HeadNumbers(o, tun);
  }

  lemma HeadSlices(f: seq<byte>, v: seq<byte>, n: seq<byte>, t: seq<byte>)
    requires |f| == 9 && |v| == 8 && |n| == 1 && |t| == 4
    ensures var h := f + v + n + t; h[..9] == f && h[9..17] == v && h[17] == n[0] && h[18..22] == t
  {
  }

  lemma HeadNumbers(o: Options, tun: nat)
    requires Typed(o) && tun <= INT_MAX
    ensures FromBytes(ToBytes(o.validBefore, 8)) == o.validBefore && FromBytes(ToBytes(tun, 4)) == tun
  {
    PowValues();
    RoundTrip(o.validBefore, 8);
    RoundTrip(tun, 4);
  }

  /** Reading gives those strings, then those lists, and then nothing is left. */
  ghost predicate ReadsStrings(b: seq<byte>, strings: seq<Option<CString>>, lists: seq<seq<CString>>)
    decreases |strings|
  {
    if strings == [] then ReadsLists(b, lists)
    else
      var r := GetNullable(b);
      r.Got? && r.value == strings[0] && ReadsStrings(r.rest, strings[1..], lists)
  }

  ghost predicate ReadsLists(b: seq<byte>, lists: seq<seq<CString>>)
    decreases |lists|
  {
    if lists == [] then b == []
    else
      var r := GetArray(b);
      r.Got? && r.value == lists[0] && ReadsLists(r.rest, lists[1..])
  }

  lemma ListFirst(list: seq<CString>, rest: seq<byte>, lists: seq<seq<CString>>)
    requires |EncArray(list)| <= SIZE_MAX && ReadsLists(rest, lists)
    ensures ReadsLists(EncArray(list) + rest, [list] + lists)
  {
    ArrayRoundTrip(list, rest);
    assert ([list] + lists)[1..] == lists;
  }

  function EncNullables(strings: seq<Option<CString>>): seq<byte>
  {
    if strings == [] then [] else EncNullable(strings[0]) + EncNullables(strings[1..])
  }

  lemma {:induction false} StringsRead(strings: seq<Option<CString>>, rest: seq<byte>, lists: seq<seq<CString>>)
    requires |EncNullables(strings)| <= SIZE_MAX && ReadsLists(rest, lists)
    ensures ReadsStrings(EncNullables(strings) + rest, strings, lists)
    decreases |strings|
  {
    if strings == [] {
      assert [] + rest == rest;
    } else {
      var first, more := EncNullable(strings[0]), EncNullables(strings[1..]);
      Assoc(first, more, rest);
      NullableRoundTrip(strings[0], more + rest);
      StringsRead(strings[1..], rest, lists);
    }
  }

  lemma FourNullables(strings: seq<Option<CString>>)
    requires |strings| == 4
    ensures EncNullables(strings) == EncNullable(strings[0]) + EncNullable(strings[1]) + EncNullable(strings[2])
                                     + EncNullable(strings[3])
  {
    var s1, s2, s3 := strings[1..], strings[2..], strings[3..];
    assert s1[1..] == s2 && s2[1..] == s3 && s3[1..] == [];
    var a, b := EncNullable(strings[0]), EncNullable(strings[1]);
    var c, d := EncNullable(strings[2]), EncNullable(strings[3]);
    assert EncNullables(s3) == d + [] && EncNullables(s2) == c + EncNullables(s3);
    assert EncNullables(s1) == b + EncNullables(s2);
    Assoc4(a, b, c, d, []);
    assert a + b + c + d + [] == a + b + c + d;
  }

  lemma ListsInOrder(x: seq<CString>, y: seq<CString>, z: seq<CString>)
    requires |EncArray(x) + EncArray(y) + EncArray(z)| <= SIZE_MAX
    ensures ReadsLists(EncArray(x) + EncArray(y) + EncArray(z), [x, y, z])
  {
    ListFirst(z, [], []);
    ListFirst(y, EncArray(z) + [], [z] + []);
    ListFirst(x, EncArray(y) + (EncArray(z) + []), [y] + ([z] + []));
    assert [x] + ([y] + ([z] + [])) == [x, y, z] && EncArray(z) + [] == EncArray(z);
    Assoc(EncArray(x), EncArray(y), EncArray(z));
  }

  /** The four strings and the three lists follow in this order, and nothing after them. */
  lemma FieldsInOrder(o: Options)
    requires |Encode(o)| <= SIZE_MAX
    ensures var s := [o.certPrincipals, o.forceCommand, o.requiredFromHostCert, o.requiredFromHostKeys];
            ReadsStrings(Encode(o)[22..], s, [o.env, o.permitOpen, o.permitListen])
  {
    EncodeParts(o);
    ListsInOrder(o.env, o.permitOpen, o.permitListen);
    var strings := [o.certPrincipals, o.forceCommand, o.requiredFromHostCert, o.requiredFromHostKeys];
    FourNullables(strings);
    StringsRead(strings, EncArrays(o), [o.env, o.permitOpen, o.permitListen]);
  }

  predicate ByteSized(x: int) { 0 <= x < 256 }

  predicate Portable(o: Options)
  {
    && ByteSized(o.permitPortForwarding) && ByteSized(o.permitAgentForwarding)
    && ByteSized(o.permitX11Forwarding) && ByteSized(o.permitPty) && ByteSized(o.permitUserRc)
    && ByteSized(o.restricted) && ByteSized(o.certAuthority)
    && ByteSized(o.noRequireUserPresence) && ByteSized(o.requireVerify)
    && o.forceTunDevice >= -1
  }

  lemma U8Keeps(x: int)
    ensures U8(x) == x <==> ByteSized(x)
  {
  }

  lemma NormKeeps(o: Options)
    ensures Norm(o) == o <==> Portable(o)
  {
    U8Keeps(o.permitPortForwarding);
    U8Keeps(o.permitAgentForwarding);
    U8Keeps(o.permitX11Forwarding);
    U8Keeps(o.permitPty);
    U8Keeps(o.permitUserRc);
    U8Keeps(o.restricted);
    U8Keeps(o.certAuthority);
    U8Keeps(o.noRequireUserPresence);
    U8Keeps(o.requireVerify);
  }

  /** The options come back equal exactly when every flag fits a byte and the tunnel device
      is not below -1. */
  lemma RoundTripIff(o: Options, tail: seq<byte>)
    requires Typed(o) && |Encode(o)| <= SIZE_MAX
    ensures Decode(Encode(o) + tail) == Got(o, tail) <==> Portable(o)
  {
    DecodeEncode(o, tail);
    NormKeeps(o);
  }

  /** What an untrusted receiver is shown: strings and lists are replaced by placeholders. */
  function Masked(o: Options): Options
  {
    o.(certPrincipals := Some([121, 101, 115]), forceCommand := Some([116, 114, 117, 101]),
       requiredFromHostCert := None, requiredFromHostKeys := None, env := [], permitOpen := [], permitListen := [])
  }

  /** Two options that differ only in what is masked serialise alike for an untrusted
      receiver, and it decodes the placeholders. */
  lemma UntrustedForm(o: Options, p: Options, tail: seq<byte>)
    requires Typed(o)
    ensures Decode(Encode(Masked(o)) + tail) == Got(Norm(Masked(o)), tail)
    ensures Fixed(o) == Fixed(p) ==> Encode(Masked(o)) == Encode(Masked(p))
  {
    assert EncAll([]) == [];
    DecodeEncode(Masked(o), tail);
  }

  // ----- the buffer that serialise appends to and deserialise consumes

  lemma {:induction false} EncAllGrows(a: seq<CString>, n: nat)
    requires n <= |a|
    ensures |EncAll(a[..n])| <= |EncAll(a)|
  {
    if n == |a| {
      assert a[..n] == a;
    } else {
      assert a[..|a| - 1][..n] == a[..n];
      EncAllGrows(a[..|a| - 1], n);
    }
  }

  class Buffer {
    var data: seq<byte>

    ghost predicate Fits() reads this { |data| <= SIZE_MAX }

    constructor ()
      ensures data == []
    {
      data := [];
    }

    method Put(v: seq<byte>) returns (ok: bool)
      requires Fits()
      modifies this
      ensures Fits() && (ok <==> |old(data)| + |v| <= SIZE_MAX)
      ensures data == if ok then old(data) + v else old(data)
    {
      if |v| > SIZE_MAX || SIZE_MAX - |v| < |data| { return false; }
      data := data + v;
      ok := true;
    }

    method PutString(s: seq<byte>) returns (ok: bool)
      requires Fits()
      modifies this
      ensures Fits() && (ok <==> |old(data)| + |EncString(s)| <= SIZE_MAX)
      ensures data == if ok then old(data) + EncString(s) else old(data)
    {
      if |s| > SIZE_MAX - 4 { return false; }
      ok := Put(ToBytes(|s|, 4) + s);
    }

    method SerialiseNullable(s: Option<CString>) returns (ok: bool)
      requires Fits()
      modifies this
      ensures Fits() && (ok <==> |old(data)| + |EncNullable(s)| <= SIZE_MAX)
      ensures ok ==> data == old(data) + EncNullable(s)
    {
      ok := Put([if s.None? then 1 else 0]);
      if ok { ok := PutString(if s.None? then [] else s.value); }
    }

    /** The loop over the strings of an array, into an empty buffer. */
    method PutAll(a: seq<CString>) returns (ok: bool)
      requires data == []
      modifies this
      ensures ok <==> |EncAll(a)| <= SIZE_MAX
      ensures ok ==> data == EncAll(a)
    {
      ok := true;
      for i := 0 to |a|
        invariant Fits() && ok && data == EncAll(a[..i])
      {
        assert a[..i + 1][..i] == a[..i];
        EncAllGrows(a, i + 1);
        ok := PutString(a[i]);
        if !ok { return; }
      }
      assert a[..|a|] == a;
    }

    method SerialiseArray(a: seq<CString>) returns (ok: bool)
      requires Fits()
      modifies this
      ensures Fits() && (ok <==> |old(data)| + |EncArray(a)| <= SIZE_MAX)
      ensures ok ==> data == old(data) + EncArray(a)
    {
      EncAllSize(a);
      if |a| > INT_MAX { return false; }
      var b := new Buffer();
      ok := b.PutAll(a);
      if !ok { return; }
      ok := Put(ToBytes(|a|, 4));
      if !ok { return; }
      ok := PutString(b.data);
      Assoc(old(data), ToBytes(|a|, 4), EncString(b.data));
    }

    method SerialiseHead(o: Options) returns (ok: bool)
      requires Fits()
      modifies this
      ensures Fits() && (ok <==> |old(data)| + 22 <= SIZE_MAX)
      ensures ok ==> data == old(data) + EncHead(o)
    {
      var flags := [o.permitPortForwarding, o.permitAgentForwarding, o.permitX11Forwarding, o.permitPty,
                    o.permitUserRc, o.restricted, o.certAuthority, o.noRequireUserPresence, o.requireVerify];
      ghost var was, v, t := data, ToBytes(o.validBefore, 8), [if o.forceTunDevice == -1 then 1 else 0];
      ok := PutFlags(flags);
      if !ok { return; }
      ok := Put(ToBytes(o.validBefore, 8));
      if !ok { return; }
      ok := Put([if o.forceTunDevice == -1 then 1 else 0]);
      if !ok { return; }
      ok := Put(ToBytes(if o.forceTunDevice < 0 then 0 else o.forceTunDevice, 4));
      Assoc(was, Flags(flags), v);
      Assoc(was, Flags(flags) + v, t);
      Assoc(was, Flags(flags) + v + t, ToBytes(if o.forceTunDevice < 0 then 0 else o.forceTunDevice, 4));
    }

    method PutFlags(flags: seq<int>) returns (ok: bool)
      requires Fits()
      modifies this
      ensures Fits() && (ok <==> |old(data)| + |flags| <= SIZE_MAX)
      ensures ok ==> data == old(data) + Flags(flags)
    {
      ok := true;
      for i := 0 to |flags|
        invariant Fits() && ok && data == old(data) + Flags(flags)[..i]
      {
        ok := Put([U8(flags[i])]);
        if !ok { return; }
      }
    }

    method SerialisePair(s: Option<CString>, t: Option<CString>) returns (ok: bool)
      requires Fits()
      modifies this
      ensures Fits() && (ok <==> |old(data)| + |EncNullable(s) + EncNullable(t)| <= SIZE_MAX)
      ensures ok ==> data == old(data) + (EncNullable(s) + EncNullable(t))
    {
      ok := SerialiseNullable(s);
      if !ok { return; }
      ok := SerialiseNullable(t);
      Assoc(old(data), EncNullable(s), EncNullable(t));
    }

    method SerialiseStrings(o: Options) returns (ok: bool)
      requires Fits()
      modifies this
      ensures Fits() && (ok <==> |old(data)| + |EncStrings(o)| <= SIZE_MAX)
      ensures ok ==> data == old(data) + EncStrings(o)
    {
      ghost var p := EncNullable(o.certPrincipals) + EncNullable(o.forceCommand);
      ghost var q := EncNullable(o.requiredFromHostCert) + EncNullable(o.requiredFromHostKeys);
      assert EncStrings(o) == p + q;
      ok := SerialisePair(o.certPrincipals, o.forceCommand);
      if !ok { return; }
      ok := SerialisePair(o.requiredFromHostCert, o.requiredFromHostKeys);
      Assoc(old(data), p, q);
    }

    method SerialiseArrays(o: Options) returns (ok: bool)
      requires Fits()
      modifies this
      ensures Fits() && (ok <==> |old(data)| + |EncArrays(o)| <= SIZE_MAX)
      ensures ok ==> data == old(data) + EncArrays(o)
    {
      ghost var x, y, z := EncArray(o.env), EncArray(o.permitOpen), EncArray(o.permitListen);
      ok := SerialiseArray(o.env);
      if !ok { return; }
      ok := SerialiseArray(o.permitOpen);
      if !ok { return; }
      Assoc(old(data), x, y);
      ok := SerialiseArray(o.permitListen);
      Assoc(old(data), x + y, z);
    }

    method SerialiseAll(o: Options) returns (ok: bool)
      requires Fits()
      modifies this
      ensures Fits() && (ok <==> |old(data)| + |Encode(o)| <= SIZE_MAX) && (ok ==> data == old(data) + Encode(o))
    {
      ghost var h, s, a := EncHead(o), EncStrings(o), EncArrays(o);
      ok := SerialiseHead(o);
      if !ok { return; }
      ok := SerialiseStrings(o);
      if !ok { return; }
      Assoc(old(data), h, s);
      ok := SerialiseArrays(o);
      Assoc(old(data), h + s, a);
    }

    /** sshauthopt_serialise: succeeds exactly when the encoding fits the buffer limit. */
    method Serialise(opts: Options, untrusted: bool) returns (ok: bool)
      requires Fits()
      modifies this
      ensures var o := if untrusted then Masked(opts) else opts;
              Fits() && (ok <==> |old(data)| + |Encode(o)| <= SIZE_MAX) && (ok ==> data == old(data) + Encode(o))
    {
      if untrusted { ok := SerialiseAll(Masked(opts)); } else { ok := SerialiseAll(opts); }
    }

    /** The search for a NUL before the last byte. */
    method NulBeforeEnd(s: seq<byte>) returns (found: bool)
      ensures found <==> InnerNul(s)
    {
      for i := 0 to |s|
        invariant forall j :: 0 <= j < i && j < |s| - 1 ==> s[j] != 0
      {
        if s[i] == 0 && i < |s| - 1 {
          assert s[..|s| - 1][i] == 0;
          return true;
        }
      }
      found := false;
    }

    method TakeCString() returns (r: Option<CString>)
      modifies this
      ensures match GetCString(old(data))
              case Bad => r.None?
              case Got(s, rest) => r == Some(s) && data == rest
    {
      if |data| < 4 { return None; }
      var n := Peek32(data);
      if n > SIZE_MAX - 4 || |data| - 4 < n { return None; }
      var s := data[4..4 + n];
      var inner := NulBeforeEnd(s);
      if inner { return None; }
      data := data[4 + n..];
      r := Some(Terminated(s));
    }

    method DeserialiseNullable() returns (ok: bool, r: Option<CString>)
      modifies this
      ensures match GetNullable(old(data))
              case Bad => !ok
              case Got(s, rest) => ok && r == s && data == rest
    {
      if |data| < 1 { return false, None; }
      var flag := data[0];
      data := data[1..];
      var s := TakeCString();
      ok, r := s.Some?, if flag != 0 then None else s;
    }

    method TakeAll(n: nat) returns (r: Option<seq<CString>>)
      modifies this
      ensures match GetAll(n, old(data))
              case Bad => r.None?
              case Got(a, rest) => r == Some(a) && data == rest
    {
      var a: seq<CString> := [];
      for i := 0 to n
        invariant GetAll(i, old(data)) == Got(a, data)
      {
        var s := TakeCString();
        if s.None? {
          GetAllFails(n, old(data), i + 1);
          return None;
        }
        a := a + [s.value];
      }
      r := Some(a);
    }

    method DeserialiseArray() returns (r: Option<seq<CString>>)
      modifies this
      ensures match GetArray(old(data))
              case Bad => r.None?
              case Got(a, rest) => r == Some(a) && data == rest
    {
      if |data| < 4 { return None; }
      var n := Peek32(data);
      data := data[4..];
      match GetString(data) {
        case Bad => return None;
        case Got(inner, rest) =>
          data := rest;
          if n > INT_MAX { return None; }
          var b := new Buffer();
          b.data := inner;
          r := b.TakeAll(n);
      }
    }

    method DeserialiseStrings(o: Options) returns (r: Option<Options>)
      modifies this
      ensures match GetStrings(o, old(data))
              case Bad => r.None?
              case Got(p, rest) => r == Some(p) && data == rest
    {
      var ok, s1, s2, s3, s4;
      ok, s1 := DeserialiseNullable();
      if !ok { return None; }
      ok, s2 := DeserialiseNullable();
      if !ok { return None; }
      ok, s3 := DeserialiseNullable();
      if !ok { return None; }
      ok, s4 := DeserialiseNullable();
      if !ok { return None; }
      r := Some(o.(certPrincipals := s1, forceCommand := s2, requiredFromHostCert := s3, requiredFromHostKeys := s4));
    }

    /** sshauthopt_deserialise: fails exactly on what Decode rejects. */
    method Deserialise() returns (r: Option<Options>)
      modifies this
      ensures match Decode(old(data))
              case Bad => r.None?
              case Got(o, rest) => r == Some(o) && data == rest
    {
      if |data| < 22 { return None; }
      var head := GetHead(data);
      data := data[22..];
      var o := DeserialiseStrings(head);
      if o.None? { return None; }
      var a1 := DeserialiseArray();
      if a1.None? { return None; }
      var a2 := DeserialiseArray();
      if a2.None? { return None; }
      var a3 := DeserialiseArray();
      if a3.None? { return None; }
      r := Some(o.value.(env := a1.value, permitOpen := a2.value, permitListen := a3.value));
    }
  }

  lemma {:induction false} GetAllFails(n: nat, b: seq<byte>, i: nat)
    requires i <= n && GetAll(i, b).Bad?
    ensures GetAll(n, b).Bad?
    decreases n
  {
    if i < n { GetAllFails(n - 1, b, i); }
  }
}
