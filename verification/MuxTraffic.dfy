/** What passes through the multiplexing proxy over a whole run: what the server receives from
the mux clients, which remote id a proxy channel has, and when CLOSE messages end it. */
module MuxTraffic {
  import opened Bits
  import opened Wire
  import opened Wrappers
  import opened MuxProxy

  predicate IsClient(t: Table, i: nat)
  {
    i < |t.slots| && t.slots[i].Some? && t.slots[i].value.kind.MuxClient?
  }

  predicate IsProxy(t: Table, i: nat)
  {
    i < |t.slots| && t.slots[i].Some? && t.slots[i].value.kind.MuxProxy?
  }

  predicate Vacant(t: Table, i: nat) { i < |t.slots| ==> t.slots[i].None? }

  // ----- what the server receives

  /** Slot n was free and holds a new proxy channel of that client, under the id it chose. */
  ghost predicate OpensAt(t: Table, u: Table, n: nat, client: nat, id: word, remote: Option<word>)
  {
    && Vacant(t, n) && IsProxy(u, n)
    && var c := u.slots[n].value;
       && c.serial == t.next && c.self == n && c.remoteId == remote && !c.closeSent && !c.closeRcvd
       && c.muxCtx == Some(client) && c.downstreamId == id
       && c.serial in u.owner && u.owner[c.serial] == (client, id)
  }

  /** The one message that goes up for a client's message, and the permission it leaves. */
  ghost predicate Relays(t: Table, u: Table, client: nat, m: Down)
  {
    match m
    case OpenDown(id, rest) =>
      u.perms == t.perms && exists n: nat :: OpensAt(t, u, n, client, id, None) && u.sent == t.sent + [OpenUp(n, rest)]
    case ConfirmDown(remote, id, rest) =>
      && u.perms == t.perms
      && exists n: nat :: OpensAt(t, u, n, client, id, Some(remote)) && u.sent == t.sent + [ConfirmUp(remote, n, rest)]
    case ForwardDown(port, raw) =>
      if port > 65535 then u == t
      else u == t.(perms := t.perms + [Perm(port, Some(client))], sent := t.sent + [RawUp(raw)])
    case CloseDown(_, raw) => u.perms == t.perms && u.sent == t.sent + [RawUp(raw)]
    case OtherDown(raw) => u == t.(sent := t.sent + [RawUp(raw)])
  }

  ghost predicate Full(t: Table)
  {
    |t.slots| > MAX_CHANNELS && forall j :: 0 <= j < |t.slots| ==> t.slots[j].Some?
  }

  lemma OpensNew(t: Table, client: nat, id: word, remote: Option<word>, up: Upward)
    requires !t.fatal && !Full(t)
    ensures var u := Proxied(t, client, id, remote, up);
            && !u.fatal && u.sent == t.sent + [up] && u.perms == t.perms
            && OpensAt(t, u, FirstFree(t.slots), client, id, remote)
  {
    NewAdds(t, MuxProxy, Some(client), id, remote);
  }

  lemma DownstreamRelays(t: Table, client: nat, m: Down, dead: set<nat>)
    requires !t.fatal && Attached(t.slots, dead)
    requires (m.OpenDown? || m.ConfirmDown?) ==> !Full(t)
    ensures Relays(t, Downstream(t, client, m), client, m)
  {
    var i := FirstFree(t.slots);
    match m
    case OpenDown(id, rest) => OpensNew(t, client, id, None, OpenUp(i, rest));
    case ConfirmDown(remote, id, rest) => OpensNew(t, client, id, Some(remote), ConfirmUp(remote, i, rest));
    case _ =>
  }

  /** In every run a message of a mux client is passed on to the server as exactly one message,
      unless it asks for a bad port: an OPEN or CONFIRMATION under the slot of the new proxy that
      records client and id, anything else with the client's own bytes.  Only a full table ends
      the run instead. */
  lemma RelaysToServer(ops: seq<Op>, i: nat, m: Down)
    requires !Run(ops).fatal && IsClient(Run(ops), i)
    ensures var t, u := Run(ops), Run(ops + [FromClient(i, m)]);
            if (m.OpenDown? || m.ConfirmDown?) && Full(t) then u == t.(fatal := true)
            else Relays(t, u, t.slots[i].value.serial, m)
  {
    var t := Run(ops);
    RunMore(ops, FromClient(i, m));
    RunAttaches(ops);
    if !((m.OpenDown? || m.ConfirmDown?) && Full(t)) { DownstreamRelays(t, t.slots[i].value.serial, m, DeadIn(ops)); }
  }

  /** Nothing else is sent, but for the cancellations when a mux client is freed. */
  lemma OthersAreSilent(ops: seq<Op>, op: Op)
    requires !Run(ops).fatal && !op.FromClient?
    ensures var t, u := Run(ops), Run(ops + [op]);
            u.sent == t.sent + if op.Release? && IsClient(t, op.i)
                               then Cancels(t.perms, t.slots[op.i].value.serial) else []
  {
    RunMore(ops, op);
    var t := Run(ops);
    assert t.sent + [] == t.sent;
  }

  /** `at` are the positions of that client's permissions, in order. */
  ghost predicate Enumerates(perms: seq<Perm>, serial: nat, at: seq<nat>)
  {
    && (forall i :: 0 <= i < |at| ==> at[i] < |perms| && perms[at[i]].downstream == Some(serial))
    && (forall i, j :: 0 <= i < j < |at| ==> at[i] < at[j])
    && (forall k :: 0 <= k < |perms| && perms[k].downstream == Some(serial) ==> k in at)
  }

  /** Exactly the permissions of that client are cancelled, each once and in order. */
  lemma {:induction false} CancelsAre(perms: seq<Perm>, serial: nat) returns (at: seq<nat>)
    ensures Enumerates(perms, serial, at) && |Cancels(perms, serial)| == |at|
    ensures forall i :: 0 <= i < |at| ==> Cancels(perms, serial)[i] == CancelForward(perms[at[i]].port)
  {
    if perms == [] {
      at := [];
    } else {
      var n := |perms| - 1;
      var front := CancelsAre(perms[..n], serial);
      at := front + if perms[n].downstream == Some(serial) then [n] else [];
      assert perms[..n] + [perms[n]] == perms;
      EnumeratesMore(perms[..n], perms[n], serial, front);
    }
  }

  lemma EnumeratesMore(perms: seq<Perm>, p: Perm, serial: nat, at: seq<nat>)
    requires Enumerates(perms, serial, at)
    ensures Enumerates(perms + [p], serial, at + if p.downstream == Some(serial) then [|perms|] else [])
  {
    var all, to := perms + [p], at + if p.downstream == Some(serial) then [|perms|] else [];
    forall k | 0 <= k < |all| && all[k].downstream == Some(serial) ensures k in to {
      if k < |perms| { assert k in at; }
    }
  }

  // ----- remote ids and CLOSE messages

  /** The step hands a CLOSE of the server to the client of that proxy. */
  ghost function ServerCloses(t: Table, op: Op): set<nat>
  {
    if !t.fatal && op.FromServer? && Forwarded(t, op.i, op.kind) && op.kind.Close?
    then {t.slots[op.i].value.serial} else {}
  }

  /** The step passes on a client's CLOSE that names that channel by its remote id. */
  ghost function ClientCloses(t: Table, op: Op): set<nat>
  {
    if !t.fatal && op.FromClient? && IsClient(t, op.i) && op.m.CloseDown? && ByRemote(t.slots, op.m.remote) < |t.slots|
    then {t.slots[ByRemote(t.slots, op.m.remote)].value.serial} else {}
  }

  /** The step tells a remote id: the server's confirmation for a proxy, or the confirmation with
      which a client opens one. */
  ghost function Confirms(t: Table, op: Op): Option<(nat, word)>
  {
    if t.fatal then None
    else if op.FromServer? && Forwarded(t, op.i, op.kind) && op.kind.OpenConfirmation? && |op.payload| > 4
    then Some((t.slots[op.i].value.serial, Peek32(op.payload)))
    else if op.FromClient? && IsClient(t, op.i) && op.m.ConfirmDown? && !Step(t, op).fatal
    then Some((t.next, op.m.remote))
    else None
  }

  ghost function Remotes(ops: seq<Op>): map<nat, word>
  {
    if ops == [] then map[]
    else
      var front, c := Remotes(ops[..|ops| - 1]), Confirms(Run(ops[..|ops| - 1]), ops[|ops| - 1]);
      if c.Some? then front[c.value.0 := c.value.1] else front
  }

  /** What the messages so far say about a proxy. */
  ghost predicate Tracks(c: Chan, server: set<nat>, client: set<nat>, remotes: map<nat, word>)
  {
    && (c.closeRcvd <==> c.serial in server) && (c.closeSent <==> c.serial in client)
    && !(c.closeRcvd && c.closeSent)
    && c.remoteId == if c.serial in remotes then Some(remotes[c.serial]) else None
  }

  ghost predicate Tracked(t: Table, server: set<nat>, client: set<nat>, remotes: map<nat, word>)
  {
    && (forall s :: s in server || s in client || s in remotes ==> s < t.next)
    && (forall j :: 0 <= j < |t.slots| && t.slots[j].Some? && t.slots[j].value.kind.MuxProxy? ==>
          Tracks(t.slots[j].value, server, client, remotes))
  }

  /** `d` is the same proxy as `c`, perhaps with more output. */
  ghost predicate SameProxy(c: Chan, d: Chan)
  {
    && c.kind.MuxProxy? && d.serial == c.serial && d.closeRcvd == c.closeRcvd && d.closeSent == c.closeSent
    && d.remoteId == c.remoteId
  }

  /** Apart from slot k, each proxy of `u` is the same proxy in `t`. */
  ghost predicate OthersSame(t: Table, u: Table, k: nat)
  {
    |u.slots| == |t.slots| && u.next == t.next &&
    forall j :: 0 <= j < |u.slots| && j != k && u.slots[j].Some? && u.slots[j].value.kind.MuxProxy? ==>
      t.slots[j].Some? && SameProxy(t.slots[j].value, u.slots[j].value)
  }

  /** A step that concerns the channel at slot k only. */
  lemma OneTracked(t: Table, u: Table, k: nat, server: set<nat>, client: set<nat>, remotes: map<nat, word>,
                   server': set<nat>, client': set<nat>, remotes': map<nat, word>)
    requires Placed(t) && Tracked(t, server, client, remotes) && OthersSame(t, u, k)
    requires k < |t.slots| && t.slots[k].Some?
    requires server <= server' <= server + {t.slots[k].value.serial}
    requires client <= client' <= client + {t.slots[k].value.serial}
    requires forall s :: s != t.slots[k].value.serial ==>
               (s in remotes' <==> s in remotes) && (s in remotes ==> remotes'[s] == remotes[s])
    requires u.slots[k].Some? && u.slots[k].value.kind.MuxProxy? ==>
               Tracks(u.slots[k].value, server', client', remotes')
    ensures Tracked(u, server', client', remotes')
  {
    forall j | 0 <= j < |u.slots| && u.slots[j].Some? && u.slots[j].value.kind.MuxProxy?
      ensures Tracks(u.slots[j].value, server', client', remotes')
    {
      if j != k { assert t.slots[j].value.serial != t.slots[k].value.serial; }
    }
  }

  /** A step after which every proxy is the one it was. */
  lemma NoneTracked(t: Table, u: Table, server: set<nat>, client: set<nat>, remotes: map<nat, word>)
    requires Tracked(t, server, client, remotes) && OthersSame(t, u, |t.slots|)
    ensures Tracked(u, server, client, remotes)
  {
  }

  ghost function MoreRemotes(remotes: map<nat, word>, c: Option<(nat, word)>): map<nat, word>
  {
    if c.Some? then remotes[c.value.0 := c.value.1] else remotes
  }

  lemma NewTracked(t: Table, kind: Kind, muxCtx: Option<nat>, id: word, remote: Option<word>,
                   server: set<nat>, client: set<nat>, remotes: map<nat, word>)
    requires !t.fatal && Placed(t) && Tracked(t, server, client, remotes) && !New(t, kind, muxCtx, id, remote).fatal
    ensures var n := New(t, kind, muxCtx, id, remote);
            Tracked(n, server, client,
                    if remote.Some? && kind.MuxProxy? then remotes[t.next := remote.value] else remotes)
  {
    NewAdds(t, kind, muxCtx, id, remote);
    var n := New(t, kind, muxCtx, id, remote);
    forall j | 0 <= j < |n.slots| && n.slots[j].Some? && n.slots[j].value.kind.MuxProxy?
      ensures Tracks(n.slots[j].value, server, client,
                     if remote.Some? && kind.MuxProxy? then remotes[t.next := remote.value] else remotes)
    {
      if j != FirstFree(t.slots) { assert n.slots[j] == t.slots[j]; }
    }
  }

  lemma FreeSame(t: Table, k: nat)
    requires k < |t.slots| && t.slots[k].Some?
    ensures OthersSame(t, Free(t, k), k) && Free(t, k).slots[k].None?
  {
  }

  lemma UpstreamSame(t: Table, i: nat, kind: Type, payload: seq<byte>)
    requires Forwarded(t, i, kind)
    ensures var c, u := t.slots[i].value, Upstream(t, i, kind, payload);
            && OthersSame(t, u, i)
            && (u.slots[i].None? <==> kind.Close? && c.closeSent)
            && (u.slots[i].Some? ==>
                  var d := u.slots[i].value;
                  && d.serial == c.serial && d.closeSent == c.closeSent && d.closeRcvd == (c.closeRcvd || kind.Close?)
                  && d.remoteId == if kind.OpenConfirmation? && |payload| > 4 then Some(Peek32(payload))
                                   else c.remoteId)
  {
    PushKeepsPlace(t, i, t.slots[i].value.muxCtx.value, Frame(kind, t.slots[i].value.downstreamId, payload));
  }

  lemma UpstreamTracked(t: Table, i: nat, kind: Type, payload: seq<byte>,
                        server: set<nat>, client: set<nat>, remotes: map<nat, word>)
    requires !t.fatal && Placed(t) && Tracked(t, server, client, remotes)
    ensures var op := FromServer(i, kind, payload);
            Tracked(Upstream(t, i, kind, payload), server + ServerCloses(t, op), client,
                    MoreRemotes(remotes, Confirms(t, op)))
  {
    var op := FromServer(i, kind, payload);
    if Forwarded(t, i, kind) {
      UpstreamSame(t, i, kind, payload);
      OneTracked(t, Upstream(t, i, kind, payload), i, server, client, remotes,
                 server + ServerCloses(t, op), client, MoreRemotes(remotes, Confirms(t, op)));
    } else {
      assert server + {} == server;
    }
  }

  lemma CloseTracked(t: Table, i: nat, remote: word, raw: seq<byte>,
                     server: set<nat>, client: set<nat>, remotes: map<nat, word>)
    requires !t.fatal && Placed(t) && Tracked(t, server, client, remotes) && IsClient(t, i)
    ensures var op := FromClient(i, CloseDown(remote, raw));
            Tracked(Step(t, op), server, client + ClientCloses(t, op), remotes)
  {
    var op := FromClient(i, CloseDown(remote, raw));
    var k := ByRemote(t.slots, remote);
    if k < |t.slots| {
      FreeSame(t, k);
      OneTracked(t, Step(t, op), k, server, client, remotes, server, client + ClientCloses(t, op), remotes);
    } else {
      assert client + {} == client;
    }
  }

  lemma DownstreamTracked(t: Table, i: nat, m: Down, server: set<nat>, client: set<nat>, remotes: map<nat, word>)
    requires !t.fatal && Placed(t) && Tracked(t, server, client, remotes) && IsClient(t, i)
    requires !Step(t, FromClient(i, m)).fatal
    ensures var op := FromClient(i, m);
            Tracked(Step(t, op), server, client + ClientCloses(t, op), MoreRemotes(remotes, Confirms(t, op)))
  {
    var serial := t.slots[i].value.serial;
    match m
    case OpenDown(id, rest) => NewTracked(t, MuxProxy, Some(serial), id, None, server, client, remotes);
    case ConfirmDown(remote, id, rest) =>
      NewTracked(t, MuxProxy, Some(serial), id, Some(remote), server, client, remotes);
    case CloseDown(remote, raw) => CloseTracked(t, i, remote, raw, server, client, remotes);
    case _ =>
    assert client + {} == client;
  }

  lemma StepTracked(t: Table, op: Op, server: set<nat>, client: set<nat>, remotes: map<nat, word>)
    requires !t.fatal && Placed(t) && Tracked(t, server, client, remotes) && !Step(t, op).fatal
    ensures Tracked(Step(t, op), server + ServerCloses(t, op), client + ClientCloses(t, op),
                    MoreRemotes(remotes, Confirms(t, op)))
  {
    assert server + {} == server && client + {} == client;
    match op
    case Accept => NewTracked(t, MuxClient, None, 0, None, server, client, remotes);
    case Other(remote) => NewTracked(t, OtherKind, None, 0, remote, server, client, remotes);
    case FromClient(i, m) => if IsClient(t, i) { DownstreamTracked(t, i, m, server, client, remotes); }
    case FromServer(i, kind, payload) => UpstreamTracked(t, i, kind, payload, server, client, remotes);
    case MarkDead(i) => NoneTracked(t, Step(t, op), server, client, remotes);
    case Release(i) =>
      if i < |t.slots| && t.slots[i].Some? {
        FreeSame(t, i);
        OneTracked(t, Free(t, i), i, server, client, remotes, server, client, remotes);
      }
  }

  lemma {:induction false} RunTracked(ops: seq<Op>)
    ensures Run(ops).fatal ||
            Tracked(Run(ops), Gathered(ServerCloses, ops), Gathered(ClientCloses, ops), Remotes(ops))
  {
    if ops != [] {
      var front := ops[..|ops| - 1];
      RunTracked(front);
      RunRecords(front);
      if !Run(front).fatal && !Run(ops).fatal {
        StepTracked(Run(front), ops[|ops| - 1], Gathered(ServerCloses, front), Gathered(ClientCloses, front),
                    Remotes(front));
      }
    }
  }

  // ----- main results

  /** The remote id that step n of the run tells for the proxy with serial s, if it tells one. */
  ghost function ToldAt(ops: seq<Op>, s: nat, n: nat): Option<word>
  {
    if n >= |ops| then None
    else
      var c := Confirms(Run(ops[..n]), ops[n]);
      if c.Some? && c.value.0 == s then Some(c.value.1) else None
  }

  ghost function Tellings(ops: seq<Op>, s: nat): nat -> Option<word> { (n: nat) => ToldAt(ops, s, n) }

  /** `last` is the last that f gives below n, if it gives any. */
  ghost predicate LastBelow(f: nat -> Option<word>, n: nat, last: Option<word>)
  {
    if last.None? then forall k: nat :: k < n ==> f(k).None?
    else exists k: nat :: k < n && f(k) == last && forall j: nat :: k < j < n ==> f(j).None?
  }

  lemma LastMore(f: nat -> Option<word>, g: nat -> Option<word>, n: nat, last: Option<word>)
    requires LastBelow(f, n, last) && forall k: nat :: k < n ==> g(k) == f(k)
    ensures LastBelow(g, n + 1, if g(n).Some? then g(n) else last)
  {
    if g(n).None? && last.Some? {
      var k: nat :| k < n && f(k) == last && forall j: nat :: k < j < n ==> f(j).None?;
      assert g(k) == last;
    }
  }

  /** The remote id told last in the run for the proxy with serial s, if any was. */
  ghost predicate LastTold(ops: seq<Op>, s: nat, remote: Option<word>)
  {
    LastBelow(Tellings(ops, s), |ops|, remote)
  }

  lemma ToldBefore(ops: seq<Op>, s: nat, n: nat)
    requires n + 1 < |ops|
    ensures ToldAt(ops[..|ops| - 1], s, n) == ToldAt(ops, s, n)
  {
    assert ops[..|ops| - 1][..n] == ops[..n];
  }

  lemma {:induction false} RemotesAre(ops: seq<Op>, s: nat)
    ensures LastTold(ops, s, if s in Remotes(ops) then Some(Remotes(ops)[s]) else None)
  {
    if ops != [] {
      var front, n := ops[..|ops| - 1], |ops| - 1;
      RemotesAre(front, s);
      var f, g := Tellings(front, s), Tellings(ops, s);
      forall k: nat | k < n ensures g(k) == f(k) { ToldBefore(ops, s, k); }
      LastMore(f, g, n, if s in Remotes(front) then Some(Remotes(front)[s]) else None);
    }
  }

  /** In every run a proxy's remote id is the one told last: by the server's confirmation for that
      proxy, or by the client's when it opened the proxy; without any it has none. */
  lemma RemoteIsTold(ops: seq<Op>, i: nat)
    requires !Run(ops).fatal && IsProxy(Run(ops), i)
    ensures var c := Run(ops).slots[i].value; LastTold(ops, c.serial, c.remoteId)
  {
    RunTracked(ops);
    RemotesAre(ops, Run(ops).slots[i].value.serial);
  }

  /** In every run a proxy leaves the table at exactly those steps that release it, or with which
      CLOSE messages for it have passed in both directions. */
  lemma LeavesIff(ops: seq<Op>, op: Op, i: nat)
    requires !Run(ops).fatal && IsProxy(Run(ops), i)
    ensures var t, s := Run(ops), Run(ops).slots[i].value.serial;
            Vacant(Run(ops + [op]), i) <==>
              || op == Release(i)
              || (s in ServerCloses(t, op) && exists n: nat :: Happens(ClientCloses, ops, n, s))
              || (s in ClientCloses(t, op) && exists n: nat :: Happens(ServerCloses, ops, n, s))
  {
    RunMore(ops, op);
    RunRecords(ops);
    FlagsAre(ops, i);
    LeavesByFlags(Run(ops), op, i);
  }

  /** The flags of a proxy say which CLOSE messages have passed. */
  lemma FlagsAre(ops: seq<Op>, i: nat)
    requires !Run(ops).fatal && IsProxy(Run(ops), i)
    ensures var c := Run(ops).slots[i].value;
            && (c.closeSent <==> exists n: nat :: Happens(ClientCloses, ops, n, c.serial))
            && (c.closeRcvd <==> exists n: nat :: Happens(ServerCloses, ops, n, c.serial))
            && !(c.closeSent && c.closeRcvd)
  {
    var c := Run(ops).slots[i].value;
    RunTracked(ops);
    GatheredIff(ServerCloses, ops, c.serial);
    GatheredIff(ClientCloses, ops, c.serial);
    assert Tracks(c, Gathered(ServerCloses, ops), Gathered(ClientCloses, ops), Remotes(ops));
  }

  lemma LeavesByFlags(t: Table, op: Op, i: nat)
    requires !t.fatal && Placed(t) && IsProxy(t, i) && !(t.slots[i].value.closeSent && t.slots[i].value.closeRcvd)
    requires t.slots[i].value.muxCtx.Some?
    ensures var c := t.slots[i].value;
            Vacant(Step(t, op), i) <==>
              || op == Release(i)
              || (c.serial in ServerCloses(t, op) && c.closeSent)
              || (c.serial in ClientCloses(t, op) && c.closeRcvd)
  {
    Stable(t, op, i);
  }
}
