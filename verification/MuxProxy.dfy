/** The channel table and the multiplexing proxy of channels.c.

A channel is a record that carries the number of its allocation (`serial`), which stands
for its address: the pointers `mux_ctx` and `downstream` are serial numbers, and a pointer
is stale when no live channel has that number.  `Table` is the value of the whole table,
with the history of which client opened which proxy channel under which id.
*/
module MuxProxy {
  import opened Bits
  import opened Wire
  import opened Wrappers

  const MAX_CHANNELS := 16 * 1024

  datatype Kind = MuxClient | MuxProxy | Zombie | OpenChannel | OtherKind

  /** Message types that the proxy forwards; all others are left to the local handlers. */
  datatype Type = Close | Data | Eof | ExtendedData | OpenConfirmation | OpenFailure
                | WindowAdjust | Success | Failure | ChannelRequest | Unsupported

  /** A packet for a mux client: type, the client's own channel id, payload. */
  datatype Frame = Frame(kind: Type, id: word, payload: seq<byte>)

  datatype Chan = Chan(
    serial: nat, self: nat, kind: Kind, muxCtx: Option<nat>, downstreamId: word,
    remoteId: Option<word>, closeSent: bool, closeRcvd: bool, output: seq<Frame>)

  datatype Perm = Perm(port: word, downstream: Option<nat>)

  /** What the proxy sends to the server. */
  datatype Upward = OpenUp(self: nat, rest: seq<byte>) | ConfirmUp(remote: word, self: nat, rest: seq<byte>)
                  | RawUp(rest: seq<byte>) | CancelForward(port: word)

  datatype Table = Table(
    slots: seq<Option<Chan>>, perms: seq<Perm>, sent: seq<Upward>, next: nat,
    owner: map<nat, (nat, word)>, stale: bool, fatal: bool)

  // ----- channel_new

  /** The first free slot, or |slots|. */
  function FirstFree(slots: seq<Option<Chan>>): (i: nat)
    ensures i <= |slots| && (i < |slots| ==> slots[i].None?)
    ensures forall j :: 0 <= j < i ==> slots[j].Some?
  {
    if slots == [] || slots[0].None? then 0 else 1 + FirstFree(slots[1..])
  }

  function Grown(slots: seq<Option<Chan>>): seq<Option<Chan>>
  {
    if FirstFree(slots) < |slots| then slots else slots + seq(10, _ => None)
  }

  function NewChan(t: Table, kind: Kind, muxCtx: Option<nat>, id: word, remote: Option<word>): Chan
  {
    Chan(t.next, FirstFree(t.slots), kind, muxCtx, id, remote, false, false, [])
  }

  /** A channel in the first free slot; with none free the table grows by ten. */
  function New(t: Table, kind: Kind, muxCtx: Option<nat>, id: word, remote: Option<word>): Table
  {
    var i := FirstFree(t.slots);
    if i == |t.slots| && i > MAX_CHANNELS then t.(fatal := true)
    else t.(slots := Grown(t.slots)[i := Some(NewChan(t, kind, muxCtx, id, remote))], next := t.next + 1)
  }

  // ----- channel_free

  predicate RefersTo(c: Chan, serial: nat) { c.kind.MuxProxy? && c.muxCtx == Some(serial) }

  function Detached(c: Chan): Chan { c.(muxCtx := None, kind := OpenChannel) }

  /** The slots with everything among the first n that refers to the channel detached. */
  function Detach(slots: seq<Option<Chan>>, serial: nat, n: nat): seq<Option<Chan>>
  {
    seq(|slots|, i requires 0 <= i < |slots| =>
      if i < n && slots[i].Some? && RefersTo(slots[i].value, serial)
      then Some(Detached(slots[i].value)) else slots[i])
  }

  function DetachAll(slots: seq<Option<Chan>>, serial: nat): seq<Option<Chan>> { Detach(slots, serial, |slots|) }

  function Clear(perms: seq<Perm>, serial: nat, n: nat): seq<Perm>
  {
    seq(|perms|, i requires 0 <= i < |perms| =>
      if i < n && perms[i].downstream == Some(serial) then Perm(0, None) else perms[i])
  }

  function ClearPerms(perms: seq<Perm>, serial: nat): seq<Perm> { Clear(perms, serial, |perms|) }

  function Cancels(perms: seq<Perm>, serial: nat): seq<Upward>
  {
    if perms == [] then []
    else
      var n := |perms| - 1;
      Cancels(perms[..n], serial) + if perms[n].downstream == Some(serial) then [CancelForward(perms[n].port)] else []
  }

  /** Only a channel that is still of type MUX_CLIENT is detached from what refers to it. */
  function Free(t: Table, i: nat): Table
    requires i < |t.slots| && t.slots[i].Some?
  {
    var c := t.slots[i].value;
    if c.kind.MuxClient? then
      t.(slots := DetachAll(t.slots, c.serial)[i := None],
         perms := ClearPerms(t.perms, c.serial), sent := t.sent + Cancels(t.perms, c.serial))
    else t.(slots := t.slots[i := None])
  }

  // ----- messages from a mux client

  datatype Down = OpenDown(id: word, rest: seq<byte>) | ConfirmDown(remote: word, id: word, rest: seq<byte>)
                | ForwardDown(port: word, raw: seq<byte>) | CloseDown(remote: word, raw: seq<byte>)
                | OtherDown(raw: seq<byte>)

  predicate HasRemote(s: Option<Chan>, remote: word) { s.Some? && s.value.remoteId == Some(remote) }

  function ByRemote(slots: seq<Option<Chan>>, remote: word): (i: nat)
    ensures i <= |slots| && (i < |slots| ==> HasRemote(slots[i], remote))
    ensures forall j :: 0 <= j < i ==> !HasRemote(slots[j], remote)
  {
    if slots == [] || HasRemote(slots[0], remote) then 0 else 1 + ByRemote(slots[1..], remote)
  }

  /** A proxy channel for the client with that serial, announced upward under its slot. */
  function Proxied(t: Table, client: nat, id: word, remote: Option<word>, up: Upward): Table
  {
    var n := New(t, MuxProxy, Some(client), id, remote);
    if n.fatal then n else n.(sent := n.sent + [up], owner := n.owner[t.next := (client, id)])
  }

  function Downstream(t: Table, client: nat, m: Down): Table
  {
    var i := FirstFree(t.slots);
    match m
    case OpenDown(id, rest) => Proxied(t, client, id, None, OpenUp(i, rest))
    case ConfirmDown(remote, id, rest) => Proxied(t, client, id, Some(remote), ConfirmUp(remote, i, rest))
    case ForwardDown(port, raw) =>
      if port > 65535 then t
      else t.(perms := t.perms + [Perm(port, Some(client))], sent := t.sent + [RawUp(raw)])
    case CloseDown(remote, raw) =>
      var k := ByRemote(t.slots, remote);
      var u :=
        if k == |t.slots| then t
        else if t.slots[k].value.closeRcvd then Free(t, k)
        else t.(slots := t.slots[k := Some(t.slots[k].value.(closeSent := true))]);
      u.(sent := u.sent + [RawUp(raw)])
    case OtherDown(raw) => t.(sent := t.sent + [RawUp(raw)])
  }

  // ----- messages from the server

  predicate Live(slots: seq<Option<Chan>>, serial: nat)
  {
    exists j :: 0 <= j < |slots| && slots[j].Some? && slots[j].value.serial == serial
  }

  function Push(slots: seq<Option<Chan>>, serial: nat, f: Frame): seq<Option<Chan>>
  {
    seq(|slots|, j requires 0 <= j < |slots| =>
      if slots[j].Some? && slots[j].value.serial == serial
      then Some(slots[j].value.(output := slots[j].value.output + [f])) else slots[j])
  }

  predicate Forwarded(t: Table, i: nat, kind: Type)
  {
    i < |t.slots| && t.slots[i].Some? && t.slots[i].value.kind.MuxProxy?
    && t.slots[i].value.muxCtx.Some? && kind != Unsupported
  }

  /** channel_proxy_upstream: restore the client's id and hand the packet to the client. */
  function Upstream(t: Table, i: nat, kind: Type, payload: seq<byte>): Table
  {
    if !Forwarded(t, i, kind) then t
    else
      var c := t.slots[i].value;
      var u := t.(slots := Push(t.slots, c.muxCtx.value, Frame(kind, c.downstreamId, payload)),
                  stale := t.stale || !Live(t.slots, c.muxCtx.value));
      Settle(u, i, kind, payload)
  }

  /** Keep track of the remote id and of CLOSE messages. */
  function Settle(t: Table, i: nat, kind: Type, payload: seq<byte>): Table
    requires i < |t.slots| && t.slots[i].Some?
  {
    var c := t.slots[i].value;
    if kind.OpenConfirmation? && |payload| > 4 then
      t.(slots := t.slots[i := Some(c.(remoteId := Some(Peek32(payload))))])
    else if kind.Close? then
      if c.closeSent then Free(t, i) else t.(slots := t.slots[i := Some(c.(closeRcvd := true))])
    else t
  }

  // ----- runs

  datatype Op =
    | Accept                                   // a mux client connects
    | Other(remote: Option<word>)              // any other channel is created
    | FromClient(i: nat, m: Down)
    | FromServer(i: nat, kind: Type, payload: seq<byte>)
    | MarkDead(i: nat)                         // chan_mark_dead: the type becomes ZOMBIE.  Never a
                                               // proxy's, which has no descriptor and whose open
                                               // failure is forwarded: only a forced close, which
                                               // is not modelled, ends a proxy's type otherwise
    | Release(i: nat)                          // channel_free of a channel whose time has come

  function Step(t: Table, op: Op): Table
  {
    if t.fatal then t
    else match op
      case Accept => New(t, MuxClient, None, 0, None)
      case Other(remote) => New(t, OtherKind, None, 0, remote)
      case FromClient(i, m) =>
        if i < |t.slots| && t.slots[i].Some? && t.slots[i].value.kind.MuxClient?
        then Downstream(t, t.slots[i].value.serial, m) else t
      case FromServer(i, kind, payload) => Upstream(t, i, kind, payload)
      case MarkDead(i) =>
        if i < |t.slots| && t.slots[i].Some? && !t.slots[i].value.kind.MuxProxy?
        then t.(slots := t.slots[i := Some(t.slots[i].value.(kind := Zombie))]) else t
      case Release(i) => if i < |t.slots| && t.slots[i].Some? then Free(t, i) else t
  }

  function Run(ops: seq<Op>): Table
  {
    if ops == [] then Table(seq(10, _ => None), [], [], 0, map[], false, false)
    else Step(Run(ops[..|ops| - 1]), ops[|ops| - 1])
  }

  // ----- what every run keeps

  ghost predicate Placed(t: Table)
  {
    && (forall i :: 0 <= i < |t.slots| && t.slots[i].Some? ==>
          t.slots[i].value.self == i && t.slots[i].value.serial < t.next)
    && (forall i, j :: 0 <= i < j < |t.slots| && t.slots[i].Some? && t.slots[j].Some? ==>
          t.slots[i].value.serial != t.slots[j].value.serial)
  }

  ghost predicate ClientAt(slots: seq<Option<Chan>>, j: nat, serial: nat)
  {
    && j < |slots| && slots[j].Some? && slots[j].value.serial == serial
    && (slots[j].value.kind.MuxClient? || slots[j].value.kind.Zombie?) && slots[j].value.remoteId.None?
  }

  /** A mux client that has not been freed yet, though it may be marked dead. */
  ghost predicate LiveClient(slots: seq<Option<Chan>>, serial: nat)
  {
    exists j :: ClientAt(slots, j, serial)
  }

  ghost predicate Owned(t: Table, c: Chan)
  {
    && (c.muxCtx.Some? <==> c.kind.MuxProxy?)
    && (c.kind.MuxClient? ==> c.remoteId.None?)
    && (c.kind.MuxProxy? ==>
          LiveClient(t.slots, c.muxCtx.value) && c.serial in t.owner
          && t.owner[c.serial] == (c.muxCtx.value, c.downstreamId))
  }

  ghost predicate Inv(t: Table)
  {
    && Placed(t) && !t.stale
    && (forall i :: 0 <= i < |t.slots| && t.slots[i].Some? ==> Owned(t, t.slots[i].value))
    && (forall p :: p in t.perms && p.downstream.Some? ==> LiveClient(t.slots, p.downstream.value))
  }

  /** Nothing points to the channel with that serial. */
  ghost predicate Unreferenced(t: Table, serial: nat)
  {
    && (forall i :: 0 <= i < |t.slots| && t.slots[i].Some? ==> !RefersTo(t.slots[i].value, serial))
    && (forall p :: p in t.perms ==> p.downstream != Some(serial))
  }

  /** No client that was marked dead is freed while something still points to it. */
  ghost predicate Careful(t: Table, op: Op)
  {
    op.Release? && op.i < |t.slots| && t.slots[op.i].Some? && t.slots[op.i].value.kind.Zombie?
    ==> Unreferenced(t, t.slots[op.i].value.serial)
  }

  /** `slots` is `old` with one more channel, at slot i. */
  ghost predicate Adds(before: seq<Option<Chan>>, slots: seq<Option<Chan>>, i: nat)
  {
    && |before| <= |slots| && i < |slots| && (i < |before| ==> before[i].None?)
    && (forall j :: 0 <= j < |slots| && j != i ==> slots[j] == if j < |before| then before[j] else None)
  }

  lemma AddKeeps(t: Table, u: Table, i: nat, c: Chan)
    requires Inv(t) && Adds(t.slots, u.slots, i) && u.slots[i] == Some(c)
    requires c.self == i && c.serial == t.next && u.next == t.next + 1 && u.perms == t.perms && !u.stale
    requires forall s :: s in t.owner && s < t.next ==> s in u.owner && u.owner[s] == t.owner[s]
    requires (c.muxCtx.Some? <==> c.kind.MuxProxy?) && (c.kind.MuxClient? ==> c.remoteId.None?)
    requires c.kind.MuxProxy? ==>
               LiveClient(t.slots, c.muxCtx.value) && c.serial in u.owner
               && u.owner[c.serial] == (c.muxCtx.value, c.downstreamId)
    ensures Inv(u)
  {
    assert Placed(u);
    forall s | LiveClient(t.slots, s) ensures LiveClient(u.slots, s) {
      var j :| ClientAt(t.slots, j, s);
      assert ClientAt(u.slots, j, s);
    }
    forall j | 0 <= j < |u.slots| && u.slots[j].Some? ensures Owned(u, u.slots[j].value) {
      if j != i { assert u.slots[j] == t.slots[j] && Owned(t, t.slots[j].value); }
    }
  }

  lemma NewAdds(t: Table, kind: Kind, muxCtx: Option<nat>, id: word, remote: Option<word>)
    requires !New(t, kind, muxCtx, id, remote).fatal && !t.fatal
    ensures var n := New(t, kind, muxCtx, id, remote);
            && Adds(t.slots, n.slots, FirstFree(t.slots))
            && n == t.(slots := n.slots, next := t.next + 1)
            && n.slots[FirstFree(t.slots)] == Some(NewChan(t, kind, muxCtx, id, remote))
  {
  }

  lemma NewKeeps(t: Table, kind: Kind, muxCtx: Option<nat>, id: word, remote: Option<word>, up: seq<Upward>)
    requires Inv(t) && !t.fatal
    requires kind.MuxProxy? <==> muxCtx.Some?
    requires kind.MuxClient? ==> remote.None?
    requires muxCtx.Some? ==> LiveClient(t.slots, muxCtx.value)
    ensures var n := New(t, kind, muxCtx, id, remote);
            var o := if muxCtx.Some? then n.owner[t.next := (muxCtx.value, id)] else n.owner;
            n.fatal || Inv(n.(owner := o, sent := n.sent + up))
  {
    var i, n := FirstFree(t.slots), New(t, kind, muxCtx, id, remote);
    if !n.fatal {
      NewAdds(t, kind, muxCtx, id, remote);
      var o := if muxCtx.Some? then n.owner[t.next := (muxCtx.value, id)] else n.owner;
      AddKeeps(t, n.(owner := o, sent := n.sent + up), i, NewChan(t, kind, muxCtx, id, remote));
    }
  }

  /** What freeing does to the slots and permissions, whichever branch it takes. */
  lemma FreeEffect(t: Table, i: nat)
    requires Inv(t) && i < |t.slots| && t.slots[i].Some?
    requires t.slots[i].value.kind.MuxClient? || Unreferenced(t, t.slots[i].value.serial)
    ensures var c, u := t.slots[i].value, Free(t, i);
            && |u.slots| == |t.slots| && u.slots[i].None?
            && u.next == t.next && u.owner == t.owner && u.stale == t.stale
            && (forall j :: 0 <= j < |t.slots| && j != i ==>
                  u.slots[j] == if t.slots[j].Some? && RefersTo(t.slots[j].value, c.serial)
                                then Some(Detached(t.slots[j].value)) else t.slots[j])
            && (forall p :: p in u.perms && p.downstream.Some? ==> p in t.perms && p.downstream.value != c.serial)
  {
  }

  /** Freeing keeps every pointer live exactly because what points to the channel is cleared. */
  lemma FreeKeeps(t: Table, i: nat)
    requires Inv(t) && i < |t.slots| && t.slots[i].Some?
    requires t.slots[i].value.kind.MuxClient? || Unreferenced(t, t.slots[i].value.serial)
    ensures Inv(Free(t, i)) && Unreferenced(Free(t, i), t.slots[i].value.serial)
  {
    FreeEffect(t, i);
    ClearedKeeps(t, Free(t, i), i);
  }

  lemma ClearedKeeps(t: Table, u: Table, i: nat)
    requires Inv(t) && i < |t.slots| && t.slots[i].Some? && |u.slots| == |t.slots| && u.slots[i].None?
    requires u.next == t.next && u.owner == t.owner && u.stale == t.stale
    requires forall j :: 0 <= j < |t.slots| && j != i ==>
               u.slots[j] == if t.slots[j].Some? && RefersTo(t.slots[j].value, t.slots[i].value.serial)
                             then Some(Detached(t.slots[j].value)) else t.slots[j]
    requires forall p :: p in u.perms && p.downstream.Some? ==>
               p in t.perms && p.downstream.value != t.slots[i].value.serial
    ensures Inv(u) && Unreferenced(u, t.slots[i].value.serial)
  {
    var s0 := t.slots[i].value.serial;
    forall s | LiveClient(t.slots, s) && s != s0 ensures LiveClient(u.slots, s) {
      var j :| ClientAt(t.slots, j, s);
      assert ClientAt(u.slots, j, s);
    }
    forall j | 0 <= j < |u.slots| && u.slots[j].Some? ensures Owned(u, u.slots[j].value) {
      assert Owned(t, t.slots[j].value);
    }
  }

  /** Changing a channel without touching what the invariant speaks of. */
  lemma UpdateKeeps(t: Table, slots: seq<Option<Chan>>)
    requires Inv(t) && |slots| == |t.slots|
    requires forall j :: 0 <= j < |slots| ==> slots[j].Some? == t.slots[j].Some?
    requires forall j :: 0 <= j < |slots| && slots[j].Some? ==>
               var c, d := t.slots[j].value, slots[j].value;
               && d.serial == c.serial && d.self == c.self && d.muxCtx == c.muxCtx && d.downstreamId == c.downstreamId
               && (d.kind == c.kind || (d.kind.Zombie? && !c.kind.MuxProxy?))
               && (d.remoteId == c.remoteId || c.kind.MuxProxy?)
    ensures Inv(t.(slots := slots))
  {
    forall s | LiveClient(t.slots, s) ensures LiveClient(slots, s) {
      var j :| ClientAt(t.slots, j, s);
      assert ClientAt(slots, j, s);
    }
  }

  lemma ProxyUnreferenced(t: Table, i: nat)
    requires Inv(t) && i < |t.slots| && t.slots[i].Some?
    requires t.slots[i].value.kind.MuxProxy? || t.slots[i].value.remoteId.Some?
    ensures Unreferenced(t, t.slots[i].value.serial)
  {
    var s := t.slots[i].value.serial;
    assert !LiveClient(t.slots, s);
  }

  lemma CloseKeeps(t: Table, k: nat)
    requires Inv(t) && k < |t.slots| && t.slots[k].Some? && t.slots[k].value.remoteId.Some?
    ensures Inv(Free(t, k)) && Inv(t.(slots := t.slots[k := Some(t.slots[k].value.(closeSent := true))]))
  {
    ProxyUnreferenced(t, k);
    FreeKeeps(t, k);
    UpdateKeeps(t, t.slots[k := Some(t.slots[k].value.(closeSent := true))]);
  }

  lemma DownstreamKeeps(t: Table, client: nat, m: Down)
    requires Inv(t) && !t.fatal && LiveClient(t.slots, client)
    ensures Downstream(t, client, m).fatal || Inv(Downstream(t, client, m))
  {
    var i := FirstFree(t.slots);
    match m
    case OpenDown(id, rest) => NewKeeps(t, MuxProxy, Some(client), id, None, [OpenUp(i, rest)]);
    case ConfirmDown(remote, id, rest) =>
      NewKeeps(t, MuxProxy, Some(client), id, Some(remote), [ConfirmUp(remote, i, rest)]);
    case ForwardDown(port, raw) =>
    case CloseDown(remote, raw) =>
      var k := ByRemote(t.slots, remote);
      if k < |t.slots| { CloseKeeps(t, k); }
    case OtherDown(raw) =>
  }

  lemma SettleKeeps(t: Table, i: nat, kind: Type, payload: seq<byte>)
    requires Inv(t) && i < |t.slots| && t.slots[i].Some? && t.slots[i].value.kind.MuxProxy?
    ensures Inv(Settle(t, i, kind, payload))
  {
    if kind.Close? && t.slots[i].value.closeSent {
      ProxyUnreferenced(t, i);
      FreeKeeps(t, i);
    } else {
      UpdateKeeps(t, Settle(t, i, kind, payload).slots);
    }
  }

  lemma UpstreamKeeps(t: Table, i: nat, kind: Type, payload: seq<byte>)
    requires Inv(t) && !t.fatal
    ensures Inv(Upstream(t, i, kind, payload))
  {
    if Forwarded(t, i, kind) {
      var c := t.slots[i].value;
      var slots := Push(t.slots, c.muxCtx.value, Frame(kind, c.downstreamId, payload));
      UpdateKeeps(t, slots);
      assert Live(t.slots, c.muxCtx.value) by { var j :| ClientAt(t.slots, j, c.muxCtx.value); }
      SettleKeeps(t.(slots := slots), i, kind, payload);
    }
  }

  lemma StepKeeps(t: Table, op: Op)
    requires Inv(t) && Careful(t, op)
    ensures Step(t, op).fatal || Inv(Step(t, op))
  {
    if !t.fatal {
      match op
      case Accept => NewKeeps(t, MuxClient, None, 0, None, []);
      case Other(remote) => NewKeeps(t, OtherKind, None, 0, remote, []);
      case FromClient(i, m) =>
        if i < |t.slots| && t.slots[i].Some? && t.slots[i].value.kind.MuxClient? {
          assert ClientAt(t.slots, i, t.slots[i].value.serial);
          DownstreamKeeps(t, t.slots[i].value.serial, m);
        }
      case FromServer(i, kind, payload) => UpstreamKeeps(t, i, kind, payload);
      case MarkDead(i) => UpdateKeeps(t, Step(t, op).slots);
      case Release(i) =>
        if i < |t.slots| && t.slots[i].Some? {
          if !t.slots[i].value.kind.MuxClient? && !t.slots[i].value.kind.Zombie? { NotClientUnreferenced(t, i); }
          FreeKeeps(t, i);
        }
    }
  }

  lemma NotClientUnreferenced(t: Table, i: nat)
    requires Inv(t) && i < |t.slots| && t.slots[i].Some?
    requires !t.slots[i].value.kind.MuxClient? && !t.slots[i].value.kind.Zombie?
    ensures Unreferenced(t, t.slots[i].value.serial)
  {
    assert !LiveClient(t.slots, t.slots[i].value.serial);
  }

  ghost predicate CarefulRun(ops: seq<Op>)
  {
    ops == [] || (CarefulRun(ops[..|ops| - 1]) && Careful(Run(ops[..|ops| - 1]), ops[|ops| - 1]))
  }

  /** The invariant holds after every careful run that the channel limit does not end. */
  lemma {:induction false} RunKeeps(ops: seq<Op>)
    requires CarefulRun(ops)
    ensures Run(ops).fatal || Inv(Run(ops))
  {
    if ops != [] {
      RunKeeps(ops[..|ops| - 1]);
      if !Run(ops[..|ops| - 1]).fatal { StepKeeps(Run(ops[..|ops| - 1]), ops[|ops| - 1]); }
    }
  }

  // ----- main results

  /** Every proxy channel still records the client that opened it and the id that client chose,
      whether or not the client is still there. */
  ghost predicate Records(t: Table, c: Chan)
  {
    c.kind.MuxProxy? ==>
      && c.muxCtx.Some? && c.muxCtx.value != c.serial
      && c.serial in t.owner && t.owner[c.serial] == (c.muxCtx.value, c.downstreamId)
  }

  ghost predicate Recorded(t: Table)
  {
    Placed(t) && forall i :: 0 <= i < |t.slots| && t.slots[i].Some? ==> Records(t, t.slots[i].value)
  }

  lemma NewRecords(t: Table, kind: Kind, muxCtx: Option<nat>, id: word, remote: Option<word>, up: seq<Upward>)
    requires Recorded(t) && !t.fatal
    requires kind.MuxProxy? <==> muxCtx.Some?
    requires muxCtx.Some? ==> muxCtx.value < t.next
    ensures var n := New(t, kind, muxCtx, id, remote);
            var o := if muxCtx.Some? then n.owner[t.next := (muxCtx.value, id)] else n.owner;
            n.fatal || Recorded(n.(owner := o, sent := n.sent + up))
  {
    var i, n := FirstFree(t.slots), New(t, kind, muxCtx, id, remote);
    if !n.fatal {
      NewAdds(t, kind, muxCtx, id, remote);
      var o := if muxCtx.Some? then n.owner[t.next := (muxCtx.value, id)] else n.owner;
      var u := n.(owner := o, sent := n.sent + up);
      assert Placed(u);
      forall j | 0 <= j < |u.slots| && u.slots[j].Some? ensures Records(u, u.slots[j].value) {
        if j != i { assert u.slots[j] == t.slots[j] && Records(t, t.slots[j].value); }
      }
    }
  }

  /** `d` is the channel `c` later: same identity, and as a proxy same client and id. */
  ghost predicate Later(c: Chan, d: Chan)
  {
    && d.serial == c.serial && d.self == c.self
    && (d.kind.MuxProxy? ==> c.kind.MuxProxy? && d.muxCtx == c.muxCtx && d.downstreamId == c.downstreamId)
  }

  /** `u` is `t` with channels dropped or changed, but no channel's identity, client or id. */
  ghost predicate Changes(t: Table, u: Table)
  {
    && |u.slots| == |t.slots| && u.next == t.next && u.owner == t.owner
    && forall j :: 0 <= j < |u.slots| && u.slots[j].Some? ==>
         t.slots[j].Some? && Later(t.slots[j].value, u.slots[j].value)
  }

  lemma ChangeRecords(t: Table, u: Table)
    requires Recorded(t) && Changes(t, u)
    ensures Recorded(u)
  {
    forall j | 0 <= j < |u.slots| && u.slots[j].Some? ensures Records(u, u.slots[j].value) {
      assert Records(t, t.slots[j].value);
    }
  }

  lemma FreeChanges(t: Table, k: nat)
    requires k < |t.slots| && t.slots[k].Some?
    ensures Changes(t, Free(t, k))
  {
  }

  lemma UpstreamChanges(t: Table, i: nat, kind: Type, payload: seq<byte>)
    ensures Changes(t, Upstream(t, i, kind, payload))
  {
    if Forwarded(t, i, kind) {
      var c := t.slots[i].value;
      var u := t.(slots := Push(t.slots, c.muxCtx.value, Frame(kind, c.downstreamId, payload)),
                  stale := t.stale || !Live(t.slots, c.muxCtx.value));
      assert Changes(t, u);
      FreeChanges(u, i);
    }
  }

  lemma DownstreamChanges(t: Table, client: nat, m: Down)
    requires !m.OpenDown? && !m.ConfirmDown?
    ensures Changes(t, Downstream(t, client, m))
  {
    if m.CloseDown? {
      var k := ByRemote(t.slots, m.remote);
      if k < |t.slots| { FreeChanges(t, k); }
    }
  }

  lemma OtherChanges(t: Table, op: Op)
    requires !t.fatal && (op.FromServer? || op.MarkDead? || op.Release?)
    ensures Changes(t, Step(t, op))
  {
    match op
    case FromServer(i, kind, payload) => UpstreamChanges(t, i, kind, payload);
    case MarkDead(i) =>
    case Release(i) => if i < |t.slots| && t.slots[i].Some? { FreeChanges(t, i); }
  }

  lemma DownstreamRecords(t: Table, client: nat, m: Down)
    requires Recorded(t) && !t.fatal && client < t.next
    ensures Downstream(t, client, m).fatal || Recorded(Downstream(t, client, m))
  {
    var i := FirstFree(t.slots);
    match m
    case OpenDown(id, rest) => NewRecords(t, MuxProxy, Some(client), id, None, [OpenUp(i, rest)]);
    case ConfirmDown(remote, id, rest) =>
      NewRecords(t, MuxProxy, Some(client), id, Some(remote), [ConfirmUp(remote, i, rest)]);
    case _ =>
      DownstreamChanges(t, client, m);
      ChangeRecords(t, Downstream(t, client, m));
  }

  lemma StepRecords(t: Table, op: Op)
    requires Recorded(t)
    ensures Step(t, op).fatal || Recorded(Step(t, op))
  {
    if !t.fatal {
      match op
      case Accept => NewRecords(t, MuxClient, None, 0, None, []);
      case Other(remote) => NewRecords(t, OtherKind, None, 0, remote, []);
      case FromClient(i, m) =>
        if i < |t.slots| && t.slots[i].Some? { DownstreamRecords(t, t.slots[i].value.serial, m); }
      case _ =>
        OtherChanges(t, op);
        ChangeRecords(t, Step(t, op));
    }
  }

  /** Every run, careful or not, keeps the records. */
  lemma {:induction false} RunRecords(ops: seq<Op>)
    ensures Run(ops).fatal || Recorded(Run(ops))
  {
    if ops != [] {
      RunRecords(ops[..|ops| - 1]);
      if !Run(ops[..|ops| - 1]).fatal { StepRecords(Run(ops[..|ops| - 1]), ops[|ops| - 1]); }
    }
  }

  /** The packet is appended to what the channel with that serial has to send, and no other
      channel's output changes; only slot i may have become free. */
  ghost predicate Delivers(t: Table, u: Table, i: nat, client: nat, f: Frame)
  {
    && |u.slots| == |t.slots|
    && (forall j :: 0 <= j < |t.slots| && j != i ==> u.slots[j].Some? == t.slots[j].Some?)
    && (forall j :: 0 <= j < |t.slots| && u.slots[j].Some? ==>
          && t.slots[j].Some? && u.slots[j].value.serial == t.slots[j].value.serial
          && u.slots[j].value.output ==
               t.slots[j].value.output + if u.slots[j].value.serial == client then [f] else [])
  }

  /** In every run a packet from the server for a proxy channel reaches the mux client that
      opened that channel, under the id that client chose, and no other channel's output
      changes.  It goes astray exactly when that client was freed after it had been marked dead. */
  lemma RoutesToOwner(ops: seq<Op>, i: nat, kind: Type, payload: seq<byte>)
    requires !Run(ops).fatal && Forwarded(Run(ops), i, kind)
    ensures var t := Run(ops);
            var c, u := t.slots[i].value, Upstream(t, i, kind, payload);
            c.serial in t.owner &&
            var (client, id) := t.owner[c.serial];
            && client != c.serial
            && Delivers(t, u, i, client, Frame(kind, id, payload))
            && (LiveClient(t.slots, client) ==> LiveClient(u.slots, client))
            && (u.stale <==> t.stale || exists n: nat :: FreedDead(ops, n, client))
  {
    var t := Run(ops);
    RunRecords(ops);
    ClientGoneIff(ops, i, kind);
    var c, u := t.slots[i].value, Upstream(t, i, kind, payload);
    assert Records(t, c);
    RouteOnce(t, i, kind, payload);
    var client := c.muxCtx.value;
    if LiveClient(t.slots, client) {
      var j :| ClientAt(t.slots, j, client);
      assert ClientAt(u.slots, j, client);
    }
  }

  lemma RouteOnce(t: Table, i: nat, kind: Type, payload: seq<byte>)
    requires Forwarded(t, i, kind) && t.slots[i].value.muxCtx.value != t.slots[i].value.serial
    ensures var c, u := t.slots[i].value, Upstream(t, i, kind, payload);
            && Delivers(t, u, i, c.muxCtx.value, Frame(kind, c.downstreamId, payload))
            && (u.stale <==> t.stale || !Live(t.slots, c.muxCtx.value))
            && (forall j :: 0 <= j < |t.slots| && j != i && t.slots[j].Some? ==>
                  && u.slots[j].value.kind == t.slots[j].value.kind
                  && u.slots[j].value.remoteId == t.slots[j].value.remoteId)
  {
    var c := t.slots[i].value;
    var f := Frame(kind, c.downstreamId, payload);
    var k := t.(slots := Push(t.slots, c.muxCtx.value, f), stale := t.stale || !Live(t.slots, c.muxCtx.value));
    SettleTouches(k, i, kind, payload);
    assert Delivers(t, k, i, c.muxCtx.value, f);
  }

  lemma SettleTouches(t: Table, i: nat, kind: Type, payload: seq<byte>)
    requires i < |t.slots| && t.slots[i].Some? && t.slots[i].value.kind.MuxProxy?
    ensures var u := Settle(t, i, kind, payload);
            && |u.slots| == |t.slots| && u.stale == t.stale
            && (forall j :: 0 <= j < |t.slots| && j != i ==> u.slots[j] == t.slots[j])
            && (u.slots[i].Some? ==> u.slots[i].value.serial == t.slots[i].value.serial
                                     && u.slots[i].value.output == t.slots[i].value.output)
  {
  }

  // ----- which free leaves a proxy without its client

  /** The step frees a channel that was marked dead; its serial. */
  ghost function DeadBy(t: Table, op: Op): set<nat>
  {
    if !t.fatal && op.Release? && op.i < |t.slots| && t.slots[op.i].Some? && t.slots[op.i].value.kind.Zombie?
    then {t.slots[op.i].value.serial} else {}
  }

  /** The serials that `named` gives for the steps of a run. */
  ghost function Gathered(named: (Table, Op) -> set<nat>, ops: seq<Op>): set<nat>
  {
    if ops == [] then {}
    else Gathered(named, ops[..|ops| - 1]) + named(Run(ops[..|ops| - 1]), ops[|ops| - 1])
  }

  /** At step n of the run, `named` gives that serial. */
  ghost predicate Happens(named: (Table, Op) -> set<nat>, ops: seq<Op>, n: nat, s: nat)
  {
    n < |ops| && s in named(Run(ops[..n]), ops[n])
  }

  lemma HappensBefore(named: (Table, Op) -> set<nat>, ops: seq<Op>, n: nat, s: nat)
    requires n + 1 < |ops|
    ensures Happens(named, ops[..|ops| - 1], n, s) == Happens(named, ops, n, s)
  {
    assert ops[..|ops| - 1][..n] == ops[..n];
  }

  lemma {:induction false} GatheredIff(named: (Table, Op) -> set<nat>, ops: seq<Op>, s: nat)
    ensures s in Gathered(named, ops) <==> exists n: nat :: Happens(named, ops, n, s)
  {
    if ops != [] {
      var front := ops[..|ops| - 1];
      GatheredIff(named, front, s);
      if s in Gathered(named, ops) {
        if s in Gathered(named, front) {
          var n: nat :| Happens(named, front, n, s);
          HappensBefore(named, ops, n, s);
        } else {
          assert Happens(named, ops, |ops| - 1, s);
        }
      }
      if n: nat :| Happens(named, ops, n, s) && n < |front| { HappensBefore(named, ops, n, s); }
    }
  }

  ghost function DeadIn(ops: seq<Op>): set<nat> { Gathered(DeadBy, ops) }

  /** Step n of the run freed the channel with that serial after it was marked dead. */
  ghost predicate FreedDead(ops: seq<Op>, n: nat, s: nat) { Happens(DeadBy, ops, n, s) }

  /** A channel that is gone is gone for good: serials are not used again. */
  ghost predicate Gone(t: Table, s: nat) { s < t.next && !Live(t.slots, s) }

  lemma NewKeepsGone(t: Table, kind: Kind, muxCtx: Option<nat>, id: word, remote: Option<word>, s: nat)
    requires Gone(t, s) && !t.fatal
    ensures Gone(New(t, kind, muxCtx, id, remote), s)
  {
    if !New(t, kind, muxCtx, id, remote).fatal { NewAdds(t, kind, muxCtx, id, remote); }
  }

  lemma ChangeKeepsGone(t: Table, u: Table, s: nat)
    requires Gone(t, s) && Changes(t, u)
    ensures Gone(u, s)
  {
  }

  lemma StepKeepsGone(t: Table, op: Op, s: nat)
    requires Gone(t, s)
    ensures Gone(Step(t, op), s)
  {
    if !t.fatal {
      match op
      case Accept => NewKeepsGone(t, MuxClient, None, 0, None, s);
      case Other(remote) => NewKeepsGone(t, OtherKind, None, 0, remote, s);
      case FromClient(i, m) =>
        if i < |t.slots| && t.slots[i].Some? && t.slots[i].value.kind.MuxClient? {
          var client := t.slots[i].value.serial;
          match m
          case OpenDown(id, rest) => NewKeepsGone(t, MuxProxy, Some(client), id, None, s);
          case ConfirmDown(remote, id, rest) => NewKeepsGone(t, MuxProxy, Some(client), id, Some(remote), s);
          case _ =>
            DownstreamChanges(t, client, m);
            ChangeKeepsGone(t, Downstream(t, client, m), s);
        }
      case _ =>
        OtherChanges(t, op);
        ChangeKeepsGone(t, Step(t, op), s);
    }
  }

  lemma FreedIsGone(t: Table, op: Op, s: nat)
    requires Placed(t) && s in DeadBy(t, op)
    ensures Gone(Step(t, op), s)
  {
    assert Step(t, op) == t.(slots := t.slots[op.i := None]);
  }

  lemma {:induction false} DeadAreGone(ops: seq<Op>, s: nat)
    requires s in DeadIn(ops) && !Run(ops).fatal
    ensures Gone(Run(ops), s)
  {
    var k := |ops| - 1;
    var t := Run(ops[..k]);
    RunRecords(ops[..k]);
    if s in DeadIn(ops[..k]) {
      DeadAreGone(ops[..k], s);
      StepKeepsGone(t, ops[k], s);
    } else {
      FreedIsGone(t, ops[k], s);
    }
  }

  /** Every proxy has its client, marked dead or not, unless that client is in `dead`; and mux
      clients are not found by a remote id. */
  ghost predicate Attached(slots: seq<Option<Chan>>, dead: set<nat>)
  {
    && (forall j :: 0 <= j < |slots| && slots[j].Some? && slots[j].value.kind.MuxClient? ==>
          slots[j].value.remoteId.None?)
    && (forall j :: 0 <= j < |slots| && slots[j].Some? && slots[j].value.kind.MuxProxy? ==>
          slots[j].value.muxCtx.Some? && HasClient(slots, slots[j].value.muxCtx.value, dead))
  }

  ghost predicate HasClient(slots: seq<Option<Chan>>, s: nat, dead: set<nat>) { LiveClient(slots, s) || s in dead }

  lemma NewAttaches(t: Table, kind: Kind, muxCtx: Option<nat>, id: word, remote: Option<word>, dead: set<nat>)
    requires Attached(t.slots, dead) && !t.fatal && !New(t, kind, muxCtx, id, remote).fatal
    requires kind.MuxProxy? ==> muxCtx.Some? && LiveClient(t.slots, muxCtx.value)
    requires kind.MuxClient? ==> remote.None?
    ensures Attached(New(t, kind, muxCtx, id, remote).slots, dead)
  {
    var i, u := FirstFree(t.slots), New(t, kind, muxCtx, id, remote);
    NewAdds(t, kind, muxCtx, id, remote);
    forall s | LiveClient(t.slots, s) ensures LiveClient(u.slots, s) {
      var j :| ClientAt(t.slots, j, s);
      assert ClientAt(u.slots, j, s);
    }
    forall j | 0 <= j < |u.slots| && u.slots[j].Some? && u.slots[j].value.kind.MuxProxy?
      ensures u.slots[j].value.muxCtx.Some? && HasClient(u.slots, u.slots[j].value.muxCtx.value, dead)
    {
      if j != i { assert u.slots[j] == t.slots[j]; }
    }
  }

  /** No proxy points to the channel with that serial. */
  ghost predicate Loose(slots: seq<Option<Chan>>, s: nat)
  {
    forall j :: 0 <= j < |slots| && slots[j].Some? ==> !RefersTo(slots[j].value, s)
  }

  /** Changes that keep every client in its place, except the one with serial `s`, to which no
      proxy points any more or which counts as dead from now on. */
  lemma ChangeAttaches(t: Table, u: Table, dead: set<nat>, more: set<nat>, s: Option<nat>)
    requires Attached(t.slots, dead) && Changes(t, u)
    requires forall j :: 0 <= j < |u.slots| && u.slots[j].Some? && u.slots[j].value.kind.MuxClient? ==>
               u.slots[j].value.remoteId.None?
    requires forall j: nat, x: nat :: ClientAt(t.slots, j, x) && Some(x) != s ==> ClientAt(u.slots, j, x)
    requires s.None? || s.value in more || Loose(u.slots, s.value)
    ensures Attached(u.slots, dead + more)
  {
    forall j | 0 <= j < |u.slots| && u.slots[j].Some? && u.slots[j].value.kind.MuxProxy?
      ensures u.slots[j].value.muxCtx.Some? && HasClient(u.slots, u.slots[j].value.muxCtx.value, dead + more)
    {
      var x := t.slots[j].value.muxCtx.value;
      assert HasClient(t.slots, x, dead);
      if Some(x) != s && x !in dead {
        var k :| ClientAt(t.slots, k, x);
        assert ClientAt(u.slots, k, x);
      }
    }
  }

  /** A channel that is no client, or counts as dead from now on, leaves its slot. */
  lemma DropAttaches(t: Table, k: nat, dead: set<nat>, more: set<nat>)
    requires Attached(t.slots, dead) && k < |t.slots| && t.slots[k].Some?
    requires t.slots[k].value.serial in more || forall x: nat :: !ClientAt(t.slots, k, x)
    ensures Attached(t.slots[k := None], dead + more)
  {
    var u, c := t.(slots := t.slots[k := None]), t.slots[k].value;
    ChangeAttaches(t, u, dead, more, if c.serial in more then Some(c.serial) else None);
  }

  lemma ClientFreeAttaches(t: Table, k: nat, dead: set<nat>)
    requires Attached(t.slots, dead) && k < |t.slots| && t.slots[k].Some? && t.slots[k].value.kind.MuxClient?
    ensures Attached(Free(t, k).slots, dead)
  {
    var s, u := t.slots[k].value.serial, Free(t, k);
    FreeChanges(t, k);
    assert forall j :: 0 <= j < |u.slots| && u.slots[j].Some? ==>
        u.slots[j].value.kind == t.slots[j].value.kind || u.slots[j].value == Detached(t.slots[j].value);
    ChangeAttaches(t, u, dead, {}, Some(s));
    assert dead + {} == dead;
  }

  lemma FreeAttaches(t: Table, k: nat, dead: set<nat>)
    requires Attached(t.slots, dead) && k < |t.slots| && t.slots[k].Some?
    ensures Attached(Free(t, k).slots, dead + if t.slots[k].value.kind.Zombie? then {t.slots[k].value.serial} else {})
    ensures t.slots[k].value.remoteId.Some? || t.slots[k].value.kind.MuxProxy? ==> Attached(Free(t, k).slots, dead)
  {
    var c := t.slots[k].value;
    assert dead + {} == dead;
    if c.kind.MuxClient? {
      ClientFreeAttaches(t, k, dead);
    } else if c.kind.Zombie? && c.remoteId.None? {
      DropAttaches(t, k, dead, {c.serial});
    } else {
      DropAttaches(t, k, dead, {});
      if c.kind.Zombie? { DropAttaches(t, k, dead, {c.serial}); }
    }
  }

  lemma UpstreamAttaches(t: Table, i: nat, kind: Type, payload: seq<byte>, dead: set<nat>)
    requires Attached(t.slots, dead) && Recorded(t)
    ensures Attached(Upstream(t, i, kind, payload).slots, dead)
  {
    if Forwarded(t, i, kind) {
      var u := Upstream(t, i, kind, payload);
      assert Records(t, t.slots[i].value);
      UpstreamChanges(t, i, kind, payload);
      RouteOnce(t, i, kind, payload);
      ChangeAttaches(t, u, dead, {}, None);
      assert dead + {} == dead;
    }
  }

  lemma CloseAttaches(t: Table, k: nat, dead: set<nat>)
    requires Attached(t.slots, dead) && k < |t.slots| && t.slots[k].Some? && t.slots[k].value.remoteId.Some?
    ensures Attached(Free(t, k).slots, dead)
    ensures Attached(t.slots[k := Some(t.slots[k].value.(closeSent := true))], dead)
  {
    FreeAttaches(t, k, dead);
    MarkAttaches(t, k, t.slots[k].value.(closeSent := true), dead);
  }

  lemma DownstreamAttaches(t: Table, client: nat, m: Down, dead: set<nat>)
    requires Attached(t.slots, dead) && Placed(t) && !t.fatal && LiveClient(t.slots, client)
    ensures Downstream(t, client, m).fatal || Attached(Downstream(t, client, m).slots, dead)
  {
    var u := Downstream(t, client, m);
    if !u.fatal {
      match m
      case OpenDown(id, rest) => NewAttaches(t, MuxProxy, Some(client), id, None, dead);
      case ConfirmDown(remote, id, rest) => NewAttaches(t, MuxProxy, Some(client), id, Some(remote), dead);
      case CloseDown(remote, raw) =>
        var k := ByRemote(t.slots, remote);
        if k < |t.slots| { CloseAttaches(t, k, dead); }
      case _ =>
    }
  }

  /** Changing one channel without touching what identifies clients and proxies. */
  lemma MarkAttaches(t: Table, k: nat, d: Chan, dead: set<nat>)
    requires Attached(t.slots, dead) && k < |t.slots| && t.slots[k].Some? && Later(t.slots[k].value, d)
    requires d.remoteId == t.slots[k].value.remoteId
    requires d.kind == t.slots[k].value.kind || d.kind.Zombie?
    ensures Attached(t.slots[k := Some(d)], dead)
  {
    ChangeAttaches(t, t.(slots := t.slots[k := Some(d)]), dead, {}, None);
    assert dead + {} == dead;
  }

  lemma StepAttaches(t: Table, op: Op, dead: set<nat>)
    requires Attached(t.slots, dead) && Recorded(t)
    ensures Step(t, op).fatal || Attached(Step(t, op).slots, dead + DeadBy(t, op))
  {
    var u := Step(t, op);
    if !u.fatal {
      assert dead + {} == dead;
      match op
      case Accept => NewAttaches(t, MuxClient, None, 0, None, dead);
      case Other(remote) => NewAttaches(t, OtherKind, None, 0, remote, dead);
      case FromClient(i, m) =>
        if i < |t.slots| && t.slots[i].Some? && t.slots[i].value.kind.MuxClient? {
          assert ClientAt(t.slots, i, t.slots[i].value.serial);
          DownstreamAttaches(t, t.slots[i].value.serial, m, dead);
        }
      case FromServer(i, kind, payload) => UpstreamAttaches(t, i, kind, payload, dead);
      case MarkDead(i) =>
        if i < |t.slots| && t.slots[i].Some? && !t.slots[i].value.kind.MuxProxy? {
          MarkAttaches(t, i, t.slots[i].value.(kind := Zombie), dead);
        }
      case Release(i) => if i < |t.slots| && t.slots[i].Some? { FreeAttaches(t, i, dead); }
    }
  }

  lemma {:induction false} RunAttaches(ops: seq<Op>)
    ensures Run(ops).fatal || Attached(Run(ops).slots, DeadIn(ops))
  {
    if ops != [] {
      var front := ops[..|ops| - 1];
      RunAttaches(front);
      RunRecords(front);
      if !Run(front).fatal { StepAttaches(Run(front), ops[|ops| - 1], DeadIn(front)); }
    }
  }

  /** The client of a proxy is gone exactly when an earlier step freed it after it had been
      marked dead; freeing it as a mux client would have detached the proxy. */
  lemma ClientGoneIff(ops: seq<Op>, i: nat, kind: Type)
    requires !Run(ops).fatal && Forwarded(Run(ops), i, kind)
    ensures var s := Run(ops).slots[i].value.muxCtx.value;
            !Live(Run(ops).slots, s) <==> exists n: nat :: FreedDead(ops, n, s)
  {
    var t := Run(ops);
    var s := t.slots[i].value.muxCtx.value;
    RunAttaches(ops);
    GatheredIff(DeadBy, ops, s);
    assert forall n: nat :: FreedDead(ops, n, s) == Happens(DeadBy, ops, n, s);
    assert HasClient(t.slots, s, DeadIn(ops));
    if LiveClient(t.slots, s) {
      var j :| ClientAt(t.slots, j, s);
      assert Live(t.slots, s);
    }
    if s in DeadIn(ops) { DeadAreGone(ops, s); }
  }

  /** No packet goes astray in a run that frees no dead client with proxies left: then the
      client is still there when its packet comes. */
  lemma CarefulReaches(ops: seq<Op>, i: nat, kind: Type, payload: seq<byte>)
    requires CarefulRun(ops) && !Run(ops).fatal && Forwarded(Run(ops), i, kind)
    ensures var t := Run(ops);
            && t.slots[i].value.serial in t.owner
            && LiveClient(t.slots, t.owner[t.slots[i].value.serial].0)
            && !Upstream(t, i, kind, payload).stale
  {
    RunKeeps(ops);
    var t := Run(ops);
    var c := t.slots[i].value;
    assert Owned(t, c);
    var j :| ClientAt(t.slots, j, c.muxCtx.value);
    assert Live(t.slots, c.muxCtx.value);
  }

  /** The slot the step frees. */
  ghost function Freed(t: Table, op: Op): Option<nat>
  {
    if t.fatal then None
    else match op
      case Release(k) => if k < |t.slots| && t.slots[k].Some? then Some(k) else None
      case FromServer(k, kind, payload) =>
        if Forwarded(t, k, kind) && kind.Close? && t.slots[k].value.closeSent then Some(k) else None
      case FromClient(i, m) =>
        if i < |t.slots| && t.slots[i].Some? && t.slots[i].value.kind.MuxClient? && m.CloseDown?
        then Closed(t, ByRemote(t.slots, m.remote)) else None
      case _ => None
  }

  ghost function Closed(t: Table, k: nat): Option<nat>
  {
    if k < |t.slots| && t.slots[k].Some? && t.slots[k].value.closeRcvd then Some(k) else None
  }

  /** The freed slot held a mux client, and the channel is a proxy of that client. */
  ghost predicate LosesClient(t: Table, freed: Option<nat>, c: Chan)
  {
    && freed.Some? && freed.value < |t.slots| && t.slots[freed.value].Some?
    && t.slots[freed.value].value.kind.MuxClient? && RefersTo(c, t.slots[freed.value].value.serial)
  }

  /** The channel at slot i is gone exactly when its slot was freed, otherwise it is the same
      channel, and as a proxy it is detached exactly when its client was freed. */
  ghost predicate KeepsPlace(t: Table, u: Table, i: nat, freed: Option<nat>)
    requires i < |t.slots| && t.slots[i].Some?
  {
    && |u.slots| >= |t.slots|
    && (u.slots[i].None? <==> freed == Some(i))
    && (u.slots[i].Some? ==> Later(t.slots[i].value, u.slots[i].value))
    && (u.slots[i].Some? && t.slots[i].value.kind.MuxProxy? ==>
          (u.slots[i].value.kind.MuxProxy? <==> !LosesClient(t, freed, t.slots[i].value)))
  }

  lemma NewKeepsPlace(t: Table, i: nat, kind: Kind, muxCtx: Option<nat>, id: word, remote: Option<word>)
    requires i < |t.slots| && t.slots[i].Some? && !t.fatal
    ensures KeepsPlace(t, New(t, kind, muxCtx, id, remote), i, None)
  {
    if !New(t, kind, muxCtx, id, remote).fatal { NewAdds(t, kind, muxCtx, id, remote); }
  }

  lemma FreeKeepsPlace(t: Table, i: nat, k: nat)
    requires i < |t.slots| && t.slots[i].Some? && k < |t.slots| && t.slots[k].Some?
    ensures KeepsPlace(t, Free(t, k), i, Some(k))
  {
    FreeChanges(t, k);
  }

  lemma DownstreamKeepsPlace(t: Table, i: nat, client: nat, m: Down)
    requires i < |t.slots| && t.slots[i].Some? && !t.fatal
    ensures KeepsPlace(t, Downstream(t, client, m), i,
                       if m.CloseDown? then Closed(t, ByRemote(t.slots, m.remote)) else None)
  {
    match m
    case OpenDown(id, rest) => NewKeepsPlace(t, i, MuxProxy, Some(client), id, None);
    case ConfirmDown(remote, id, rest) => NewKeepsPlace(t, i, MuxProxy, Some(client), id, Some(remote));
    case CloseDown(remote, raw) =>
      var k := ByRemote(t.slots, remote);
      if k < |t.slots| { FreeKeepsPlace(t, i, k); }
    case _ =>
  }

  lemma PushKeepsPlace(t: Table, i: nat, serial: nat, f: Frame)
    requires i < |t.slots| && t.slots[i].Some?
    ensures var s := Push(t.slots, serial, f);
            && |s| == |t.slots| && s[i].Some?
            && s[i].value == t.slots[i].value.(output := s[i].value.output)
  {
  }

  lemma UpstreamKeepsPlace(t: Table, i: nat, k: nat, kind: Type, payload: seq<byte>)
    requires i < |t.slots| && t.slots[i].Some? && !t.fatal
    ensures KeepsPlace(t, Upstream(t, k, kind, payload), i, Freed(t, FromServer(k, kind, payload)))
  {
    if Forwarded(t, k, kind) {
      var c := t.slots[k].value;
      PushKeepsPlace(t, i, c.muxCtx.value, Frame(kind, c.downstreamId, payload));
      PushKeepsPlace(t, k, c.muxCtx.value, Frame(kind, c.downstreamId, payload));
    }
  }

  /** No step renumbers a channel: it keeps its slot and serial, and a proxy channel keeps
      its client and id, exactly until it is freed or its client is. */
  lemma Stable(t: Table, op: Op, i: nat)
    requires i < |t.slots| && t.slots[i].Some?
    ensures KeepsPlace(t, Step(t, op), i, Freed(t, op))
  {
    if !t.fatal {
      match op
      case Accept => NewKeepsPlace(t, i, MuxClient, None, 0, None);
      case Other(remote) => NewKeepsPlace(t, i, OtherKind, None, 0, remote);
      case FromClient(k, m) =>
        if k < |t.slots| && t.slots[k].Some? { DownstreamKeepsPlace(t, i, t.slots[k].value.serial, m); }
      case FromServer(k, kind, payload) => UpstreamKeepsPlace(t, i, k, kind, payload);
      case MarkDead(k) =>
      case Release(k) => if k < |t.slots| && t.slots[k].Some? { FreeKeepsPlace(t, i, k); }
    }
  }

  /** Freeing a channel leaves nothing that points to it exactly when the channel is still
      of type MUX_CLIENT at that moment, or nothing pointed to it before. */
  lemma FreeClearsIff(t: Table, i: nat)
    requires Recorded(t) && i < |t.slots| && t.slots[i].Some?
    ensures Unreferenced(Free(t, i), t.slots[i].value.serial)
            <==> t.slots[i].value.kind.MuxClient? || Unreferenced(t, t.slots[i].value.serial)
  {
    var c, u := t.slots[i].value, Free(t, i);
    assert Records(t, c);
    if c.kind.MuxClient? {
      assert Unreferenced(u, c.serial);
    } else if !Unreferenced(t, c.serial) {
      assert u.perms == t.perms;
      if j :| 0 <= j < |t.slots| && t.slots[j].Some? && RefersTo(t.slots[j].value, c.serial) {
        assert u.slots[j] == t.slots[j];
      }
    }
  }

  lemma RunMore(ops: seq<Op>, op: Op)
    ensures Run(ops + [op]) == Step(Run(ops), op)
  {
    assert (ops + [op])[..|ops|] == ops;
  }

  lemma OpenOne(t: Table, u: Table)
    requires t == Step(Run([]), Accept) && u == Step(t, FromClient(0, OpenDown(5, [])))
    ensures |u.slots| == 10 && !u.fatal && forall j :: 2 <= j < 10 ==> u.slots[j].None?
    ensures u.slots[0] == Some(Chan(0, 0, MuxClient, None, 0, None, false, false, []))
    ensures u.slots[1] == Some(Chan(1, 1, MuxProxy, Some(0), 5, None, false, false, []))
  {
    assert t.slots[0] == Some(Chan(0, 0, MuxClient, None, 0, None, false, false, []));
  }

  lemma OpenedThenFreed(t: Table, u: Table)
    requires |t.slots| == 10 && !t.fatal && forall j :: 2 <= j < 10 ==> t.slots[j].None?
    requires t.slots[0] == Some(Chan(0, 0, MuxClient, None, 0, None, false, false, []))
    requires t.slots[1] == Some(Chan(1, 1, MuxProxy, Some(0), 5, None, false, false, []))
    requires u == Step(Step(t, MarkDead(0)), Release(0))
    ensures !u.fatal && Forwarded(u, 1, Data) && u.slots[1].value.muxCtx == Some(0) && !Live(u.slots, 0)
  {
    var v := Step(t, MarkDead(0));
    assert v == t.(slots := t.slots[0 := Some(t.slots[0].value.(kind := Zombie))]);
    assert u == v.(slots := v.slots[0 := None]);
  }

  lemma RunTo(ops: seq<Op>, n: nat)
    requires n < |ops|
    ensures Run(ops[..n + 1]) == Step(Run(ops[..n]), ops[n])
  {
    assert ops[..n + 1] == ops[..n] + [ops[n]];
    RunMore(ops[..n], ops[n]);
  }

  /** A run in which a client is marked dead and freed with a proxy channel still pointing
      to it: the next packet for that channel goes to a client that is gone. */
  lemma StaleRunExists()
    ensures exists ops :: Run(ops).stale
  {
    StaleRun([Accept, FromClient(0, OpenDown(5, [])), MarkDead(0), Release(0), FromServer(1, Data, [])]);
  }

  lemma StaleStep(t: Table)
    requires !t.fatal && Forwarded(t, 1, Data) && t.slots[1].value.muxCtx == Some(0) && !Live(t.slots, 0)
    ensures Step(t, FromServer(1, Data, [])).stale
  {
  }

  lemma StaleRun(ops: seq<Op>)
    requires |ops| == 5 && ops[0] == Accept && ops[1] == FromClient(0, OpenDown(5, []))
    requires ops[2] == MarkDead(0) && ops[3] == Release(0) && ops[4] == FromServer(1, Data, [])
    ensures Run(ops).stale
  {
    RunTo(ops, 0);
    RunTo(ops, 1);
    RunTo(ops, 2);
    RunTo(ops, 3);
    RunTo(ops, 4);
    assert ops[..0] == [];
    OpenOne(Run(ops[..1]), Run(ops[..2]));
    OpenedThenFreed(Run(ops[..2]), Run(ops[..4]));
    StaleStep(Run(ops[..4]));
    assert ops[..5] == ops;
  }

  // ----- the table as the source updates it

  class Channels {
    var slots: seq<Option<Chan>>
    var perms: seq<Perm>
    var sent: seq<Upward>
    var next: nat
    var fatal: bool
    ghost var owner: map<nat, (nat, word)>
    ghost var stale: bool

    ghost function Value(): Table
      reads this
    {
      Table(slots, perms, sent, next, owner, stale, fatal)
    }

    constructor ()
      ensures Value() == Run([])
    {
      slots, perms, sent, next, fatal := seq(10, _ => None), [], [], 0, false;
      owner, stale := map[], false;
    }

    /** Tries to find a free slot, otherwise expands the array by ten. */
    method ChannelNew(kind: Kind, muxCtx: Option<nat>, id: word, remote: Option<word>) returns (found: nat)
      requires !fatal
      modifies this
      ensures Value() == New(old(Value()), kind, muxCtx, id, remote)
      ensures found == FirstFree(old(slots))
    {
      var i := 0;
      while i < |slots| && slots[i].Some?
        invariant 0 <= i <= |slots| && forall j :: 0 <= j < i ==> slots[j].Some?
      {
        i := i + 1;
      }
      found := i;
      assert found == FirstFree(slots) by { FirstFreeUnique(slots, i); }
      if i >= |slots| {
        if |slots| > MAX_CHANNELS { fatal := true; return; }
        slots := slots + seq(10, _ => None);
      }
      slots := slots[found := Some(Chan(next, found, kind, muxCtx, id, remote, false, false, []))];
      next := next + 1;
    }

    /** Cancels the forwardings of a client and unregisters them. */
    method RemoveRemoteForwardings(serial: nat)
      modifies this`perms, this`sent
      ensures perms == ClearPerms(old(perms), serial)
      ensures sent == old(sent) + Cancels(old(perms), serial)
    {
      ghost var before := perms;
      for i := 0 to |perms|
        invariant perms == Clear(before, serial, i)
        invariant sent == old(sent) + Cancels(before[..i], serial)
      {
        assert before[..i + 1][..i] == before[..i];
        if perms[i].downstream == Some(serial) {
          sent := sent + [CancelForward(perms[i].port)];
          perms := perms[i := Perm(0, None)];
        }
        assert perms == Clear(before, serial, i + 1);
      }
      assert before[..|before|] == before;
    }

    /** Detaches every proxy channel from its client and prepares it for closing. */
    method DetachProxies(serial: nat)
      modifies this`slots
      ensures slots == DetachAll(old(slots), serial)
    {
      ghost var before := slots;
      for i := 0 to |slots|
        invariant slots == Detach(before, serial, i)
      {
        if slots[i].Some? && slots[i].value.kind.MuxProxy? && slots[i].value.muxCtx == Some(serial) {
          slots := slots[i := Some(slots[i].value.(muxCtx := None, kind := OpenChannel))];
        }
        assert slots == Detach(before, serial, i + 1);
      }
    }

    method ChannelFree(k: nat)
      requires k < |slots| && slots[k].Some? && slots[k].value.self == k
      modifies this
      ensures Value() == Free(old(Value()), k)
    {
      var c := slots[k].value;
      if c.kind.MuxClient? {
        DetachProxies(c.serial);
        RemoveRemoteForwardings(c.serial);
      }
      slots := slots[c.self := None];
    }

    method ChannelByRemoteId(remote: word) returns (i: nat)
      ensures i == ByRemote(slots, remote)
    {
      i := 0;
      while i < |slots| && !HasRemote(slots[i], remote)
        invariant 0 <= i <= |slots| && forall j :: 0 <= j < i ==> !HasRemote(slots[j], remote)
      {
        i := i + 1;
      }
      ByRemoteUnique(slots, remote, i);
    }

    method ProxyDownstream(client: nat, m: Down)
      requires !fatal && Placed(Value())
      modifies this
      ensures Value() == Downstream(old(Value()), client, m)
    {
      match m {
        case OpenDown(id, rest) => NewProxy(client, id, None, rest);
        case ConfirmDown(remote, id, rest) => NewProxy(client, id, Some(remote), rest);
        case ForwardDown(port, raw) =>
          if port <= 65535 {
            perms := perms + [Perm(port, Some(client))];
            sent := sent + [RawUp(raw)];
          }
        case CloseDown(remote, raw) =>
          var k := ChannelByRemoteId(remote);
          if k < |slots| {
            if slots[k].value.closeRcvd {
              ChannelFree(k);
            } else {
              slots := slots[k := Some(slots[k].value.(closeSent := true))];
            }
          }
          sent := sent + [RawUp(raw)];
        case OtherDown(raw) => sent := sent + [RawUp(raw)];
      }
    }

    /** Creates the proxy channel and announces it upward under its own slot number. */
    method NewProxy(client: nat, id: word, remote: Option<word>, rest: seq<byte>)
      requires !fatal
      modifies this
      ensures var i := FirstFree(old(slots));
              Value() == Proxied(old(Value()), client, id, remote,
                                 if remote.Some? then ConfirmUp(remote.value, i, rest) else OpenUp(i, rest))
    {
      var i := ChannelNew(MuxProxy, Some(client), id, remote);
      if fatal { return; }
      owner := owner[next - 1 := (client, id)];
      sent := sent + [if remote.Some? then ConfirmUp(remote.value, i, rest) else OpenUp(i, rest)];
    }

    method ProxyUpstream(i: nat, kind: Type, payload: seq<byte>) returns (handled: bool)
      requires Placed(Value())
      modifies this
      ensures Value() == Upstream(old(Value()), i, kind, payload)
      ensures handled == Forwarded(old(Value()), i, kind)
    {
      if i >= |slots| || slots[i].None? || !slots[i].value.kind.MuxProxy? { return false; }
      if slots[i].value.muxCtx.None? || kind == Unsupported { return false; }
      var c := slots[i].value;
      handled := true;
      stale := stale || !Live(slots, c.muxCtx.value);
      slots := Push(slots, c.muxCtx.value, Frame(kind, c.downstreamId, payload));
      if kind.OpenConfirmation? && |payload| > 4 {
        slots := slots[i := Some(slots[i].value.(remoteId := Some(Peek32(payload))))];
      } else if kind.Close? {
        if slots[i].value.closeSent {
          ChannelFree(i);
        } else {
          slots := slots[i := Some(slots[i].value.(closeRcvd := true))];
        }
      }
    }
  }

  lemma FirstFreeUnique(slots: seq<Option<Chan>>, i: nat)
    requires i <= |slots| && (i < |slots| ==> slots[i].None?) && forall j :: 0 <= j < i ==> slots[j].Some?
    ensures FirstFree(slots) == i
  {
  }

  lemma ByRemoteUnique(slots: seq<Option<Chan>>, remote: word, i: nat)
    requires i <= |slots| && (i < |slots| ==> HasRemote(slots[i], remote))
    requires forall j :: 0 <= j < i ==> !HasRemote(slots[j], remote)
    ensures ByRemote(slots, remote) == i
  {
  }
}
