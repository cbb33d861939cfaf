/** How a channel ends: end of file at a descriptor, EOW after a failed write, and the exchange
of CLOSE, as progress of the two joined ends of FlowControl. */
module Endings {
  import opened Bits
  import opened ChannelIo
  import opened FlowControl

  // ----- what no turn takes back

  /** What no turn of a host takes back. */
  ghost predicate Later(h: Host, g: Host)
  {
    && (h.chan.istate == InputClosed ==> g.chan.istate == InputClosed)
    && (h.chan.istate != InputOpen ==> g.chan.istate != InputOpen && g.readLog == h.readLog)
    && (h.chan.ostate == OutputClosed ==> g.chan.ostate == OutputClosed && g.writtenLog == h.writtenLog)
    && (h.chan.closeSent ==> g.chan.closeSent) && (h.chan.closeRcvd ==> g.chan.closeRcvd)
    && g.chan.remoteMaxpacket == h.chan.remoteMaxpacket
  }

  /** A host that was told of the end takes no more data, and after CLOSE reads none. */
  ghost predicate Told(h: Host)
  {
    && (h.chan.eofRcvd || h.chan.closeRcvd ==> h.chan.ostate != OutputOpen)
    && (h.chan.closeRcvd ==> h.chan.istate == InputClosed)
  }

  lemma InputLater(h: Host, m: Msg, rest: seq<Msg>)
    ensures Later(h, Deliver(h, m, rest).host) && (Told(h) ==> Told(Deliver(h, m, rest).host))
  {
    if m.Data? || m.Adjust? { DataKeepsStates(h.chan, m); }
  }

  lemma WriteLater(h: Host, inbox: seq<Msg>, w: WriteResult)
    ensures Later(h, Act(h, inbox, Write(w)).host) && (Told(h) ==> Told(Act(h, inbox, Write(w)).host))
  {
    if h.chan.ostate == OutputClosed { assert Written(h.chan, w) == []; }
  }

  lemma ReadLater(h: Host, inbox: seq<Msg>, r: ReadResult)
    ensures Later(h, Act(h, inbox, Read(r)).host) && (Told(h) ==> Told(Act(h, inbox, Read(r)).host))
  {
    if h.chan.istate != InputOpen { assert Taken(h.chan, r) == []; }
  }

  lemma TurnLater(h: Host, inbox: seq<Msg>, a: Action)
    ensures Later(h, Act(h, inbox, a).host) && (Told(h) ==> Told(Act(h, inbox, a).host))
  {
    match a
    case Receive => if inbox != [] { InputLater(h, inbox[0], inbox[1..]); }
    case Read(r) => ReadLater(h, inbox, r);
    case Write(w) => WriteLater(h, inbox, w);
    case _ =>
  }

  /** Both hosts are later ones. */
  ghost predicate LaterOn(l: Link, m: Link)
  {
    Later(l.a, m.a) && Later(l.b, m.b) && (Told(l.a) ==> Told(m.a)) && (Told(l.b) ==> Told(m.b))
  }

  lemma StepLater(l: Link, left: bool, a: Action)
    ensures LaterOn(l, Step(l, left, a))
  {
    if left { TurnLater(l.a, l.ba, a); } else { TurnLater(l.b, l.ab, a); }
  }

  lemma LaterJoin(l: Link, k: Link, m: Link)
    requires LaterOn(l, k) && LaterOn(k, m)
    ensures LaterOn(l, m)
  {
  }

  lemma {:induction false} RunLater(l: Link, steps: seq<(bool, Action)>)
    ensures LaterOn(l, Run(l, steps))
  {
    if steps != [] {
      var n := |steps| - 1;
      RunLater(l, steps[..n]);
      StepLater(Run(l, steps[..n]), steps[n].0, steps[n].1);
      LaterJoin(l, Run(l, steps[..n]), Run(l, steps));
    }
  }

  lemma LeadsLater(l: Link, m: Link)
    requires Leads(l, m)
    ensures LaterOn(l, m)
  {
    var steps :| m == Run(l, steps);
    RunLater(l, steps);
  }

  /** Sound is a link in which both hosts are also told what they have to be. */
  ghost predicate Fit(l: Link) { Inv(l) && Told(l.a) && Told(l.b) }

  lemma ReachedFit(l: Link)
    requires Reached(l)
    ensures Fit(l)
  {
    ReachedInv(l);
    var x: Terms, y: Terms, steps :|
      x.window <= BUFFER_MAX && y.window <= BUFFER_MAX && l == Run(Opened(x, y), steps);
    RunLater(Opened(x, y), steps);
  }

  /** Some run leads from `l` to `m`, and no write failed in it. */
  ghost predicate Safely(l: Link, m: Link)
  {
    Leads(l, m) && Fit(m) && m.a.failed == l.a.failed && m.b.failed == l.b.failed
  }

  lemma SafelyHere(l: Link)
    requires Fit(l)
    ensures Safely(l, l)
  {
    LeadsNowhere(l);
  }

  lemma SafelyOn(l: Link, k: Link, m: Link)
    requires Safely(l, k) && Safely(k, m)
    ensures Safely(l, m)
  {
    LeadsOn(l, k, m);
  }

  lemma SafelyStep(l: Link, left: bool, a: Action)
    requires Fit(l) && Step(l, left, a).a.failed == l.a.failed && Step(l, left, a).b.failed == l.b.failed
    ensures Safely(l, Step(l, left, a))
  {
    LeadsStep(l, left, a);
    StepKeeps(l, left, a);
    StepLater(l, left, a);
  }

  lemma SafelySwap(l: Link, m: Link)
    requires Safely(Swap(l), m)
    ensures Safely(l, Swap(m))
  {
    var steps :| m == Run(Swap(l), steps);
    RunSwap(Swap(l), steps);
    assert Swap(m) == Run(l, Flip(steps));
  }

  // ----- one direction

  /** An input side that reads no more sends what it holds, then EOF. */
  lemma {:induction false} PollsOut(l: Link) returns (m: Link)
    requires Fit(l) && l.a.chan.istate != InputOpen && l.a.chan.remoteMaxpacket > 0
    ensures Safely(l, m) && m.a.chan.istate == InputClosed && m.b == l.b
    decreases |l.a.chan.input|, l.a.chan.istate.InputWaitDrain?
  {
    if l.a.chan.istate == InputClosed {
      SafelyHere(l);
      return l;
    }
    PollMoves(l);
    var k := Step(l, true, Poll);
    SafelyStep(l, true, Poll);
    m := PollsOut(k);
    SafelyOn(l, k, m);
  }

  lemma PollMoves(l: Link)
    requires Fit(l) && l.a.chan.istate == InputWaitDrain && l.a.chan.remoteMaxpacket > 0
    ensures var m := Step(l, true, Poll);
            && m.b == l.b && m.a.failed == l.a.failed && m.a.chan.remoteMaxpacket > 0
            && m.a.chan.istate != InputOpen
            && if l.a.chan.input == [] then m.a.chan.istate == InputClosed && m.a.chan.input == []
               else |m.a.chan.input| < |l.a.chan.input|
  {
    assert l.a.live && !l.a.chan.closeSent && !l.a.chan.closeRcvd;
    if l.a.chan.input != [] { PollTakes(l.a.chan); }
  }

  /** b takes everything on the way to it. */
  lemma {:induction false} HearsAll(l: Link) returns (m: Link)
    requires Fit(l)
    ensures Safely(l, m) && m.ab == [] && m.a == l.a
    decreases |l.ab|
  {
    if l.ab == [] {
      SafelyHere(l);
      return l;
    }
    var k := Step(l, false, Receive);
    SafelyStep(l, false, Receive);
    m := HearsAll(k);
    SafelyOn(l, k, m);
  }

  /** b writes out what it holds and closes a drained output side. */
  lemma WritesOut(l: Link) returns (m: Link)
    requires Fit(l) && l.b.chan.ostate == OutputWaitDrain
    ensures Safely(l, m) && m.ab == l.ab && m.a == l.a && m.b.chan.ostate == OutputClosed
  {
    assert l.b.live && !l.b.failed;
    var k := l;
    if l.b.chan.output == [] {
      SafelyHere(l);
    } else {
      var w := WroteUpTo(|l.b.chan.output|);
      WriteEffect(l.b.chan, w);
      k := Step(l, false, Write(w));
      SafelyStep(l, false, Write(w));
    }
    m := Step(k, false, Drain);
    SafelyStep(k, false, Drain);
    SafelyOn(l, k, m);
  }

  /** Once a reads no more, its side closes and b's output side does, whatever has failed. */
  lemma HalfEnds(l: Link) returns (m: Link)
    requires Fit(l) && l.a.chan.istate != InputOpen && l.a.chan.remoteMaxpacket > 0
    ensures Safely(l, m) && m.ab == [] && m.a.chan.istate == InputClosed && m.b.chan.ostate == OutputClosed
    ensures !l.b.failed ==> m.b.chan.eofRcvd && m.b.writtenLog == m.a.readLog == l.a.readLog
  {
    var k := PollsOut(l);
    var n := HearsAll(k);
    SafelyOn(l, k, n);
    m := n;
    if n.b.chan.ostate != OutputClosed {
      m := WritesOut(n);
      SafelyOn(l, n, m);
    }
    CleanOneWay(m);
    LeadsLater(l, m);
  }

  /** The descriptor of a gives end of file, or fails. */
  ghost predicate Ended(r: ReadResult) { r.ReadError? || r == ReadBytes([]) }

  lemma EndStopsReading(l: Link, r: ReadResult)
    requires Inv(l) && l.a.live && WantsRead(l.a.chan) && Ended(r)
    ensures var k := Step(l, true, Read(r));
            k.a.chan.istate == InputWaitDrain && k.a.readLog == l.a.readLog && k.b == l.b
  {
  }

  /** End of file at a's descriptor ends the stream: in no continuation does a read another byte,
      and in some continuation b has been told, has written all that a read and closed its side. */
  lemma EofArrives(l: Link, r: ReadResult)
    requires Reached(l) && !l.b.failed && WantsRead(l.a.chan) && l.a.live && l.a.chan.remoteMaxpacket > 0 && Ended(r)
    ensures var k := Step(l, true, Read(r));
            && (forall m :: Leads(k, m) ==> m.a.readLog == l.a.readLog)
            && exists m :: Leads(k, m) && m.b.chan.eofRcvd && m.b.chan.ostate == OutputClosed
                           && m.b.writtenLog == m.a.readLog == l.a.readLog && !m.b.failed
  {
    ReachedFit(l);
    var k := Step(l, true, Read(r));
    EndStopsReading(l, r);
    StepKeeps(l, true, Read(r));
    StepLater(l, true, Read(r));
    forall m | Leads(k, m) ensures m.a.readLog == l.a.readLog { LeadsLater(k, m); }
    var m := HalfEnds(k);
  }

  /** EOW on its way reaches a, if it has not stopped reading before. */
  lemma {:induction false} HearsEow(l: Link) returns (m: Link)
    requires Fit(l) && (Eow in l.ba || l.a.chan.istate != InputOpen)
    ensures Safely(l, m) && m.a.chan.istate != InputOpen
    decreases |l.ba|
  {
    if l.a.chan.istate != InputOpen {
      SafelyHere(l);
      return l;
    }
    var k := Step(l, true, Receive);
    SafelyStep(l, true, Receive);
    assert Eow == l.ba[0] || Eow in l.ba[1..];
    m := HearsEow(k);
    SafelyOn(l, k, m);
  }

  /** A failed write of b that is announced by EOW stops a: in some continuation it reads no more. */
  lemma EowStops(l: Link, w: WriteResult)
    requires Reached(l) && l.b.live && WriteFails(l.b.chan, w) && l.b.chan.sendsEow
    ensures exists m :: Leads(Step(l, false, Write(w)), m) && m.a.chan.istate != InputOpen
                        && forall n :: Leads(m, n) ==> n.a.readLog == m.a.readLog
  {
    ReachedFit(l);
    var k := Step(l, false, Write(w));
    StepKeeps(l, false, Write(w));
    StepLater(l, false, Write(w));
    assert k.ba == l.ba + [Eow];
    var m := HearsEow(k);
    forall n | Leads(m, n) ensures n.a.readLog == m.a.readLog { LeadsLater(m, n); }
  }

  /** An input side that waits to drain closes only with EOF. */
  ghost predicate Draining(h: Host)
  {
    h.chan.istate == InputWaitDrain || (h.chan.istate == InputClosed && h.chan.eofSent)
  }

  lemma TurnDrains(h: Host, inbox: seq<Msg>, a: Action)
    requires Draining(h)
    ensures Draining(Act(h, inbox, a).host)
  {
    if a.Receive? && inbox != [] && (inbox[0].Data? || inbox[0].Adjust?) { DataKeepsStates(h.chan, inbox[0]); }
  }

  /** After an end of file no end closes its side silently: it has sent EOF, even when the peer's
      CLOSE overtakes it. */
  lemma {:induction false} DrainSaysEof(l: Link, steps: seq<(bool, Action)>)
    requires Draining(l.a)
    ensures Draining(Run(l, steps).a)
  {
    if steps != [] {
      var n := |steps| - 1;
      var k := Run(l, steps[..n]);
      DrainSaysEof(l, steps[..n]);
      if steps[n].0 { TurnDrains(k.a, k.ba, steps[n].1); }
    }
  }

  // ----- both directions

  ghost predicate Shut(h: Host) { h.chan.istate == InputClosed && h.chan.ostate == OutputClosed }

  ghost predicate BothShut(l: Link) { Shut(l.a) && Shut(l.b) }

  lemma BothEnd(l: Link) returns (m: Link)
    requires Fit(l) && l.a.chan.istate != InputOpen && l.b.chan.istate != InputOpen
    requires l.a.chan.remoteMaxpacket > 0 && l.b.chan.remoteMaxpacket > 0
    ensures Safely(l, m) && BothShut(m)
    ensures !l.b.failed ==> m.b.writtenLog == l.a.readLog
    ensures !l.a.failed ==> m.a.writtenLog == l.b.readLog
  {
    var k := HalfEnds(l);
    LeadsLater(l, k);
    var n := HalfEnds(Swap(k));
    SafelySwap(k, n);
    m := Swap(n);
    LeadsLater(k, m);
    SafelyOn(l, k, m);
  }

  /** Collecting sends CLOSE from an end whose both sides are closed. */
  lemma SendsClose(l: Link)
    requires Fit(l) && Shut(l.a)
    ensures Safely(l, Step(l, true, Gc)) && Step(l, true, Gc).a.chan.closeSent && Step(l, true, Gc).b == l.b
  {
    SafelyStep(l, true, Gc);
  }

  /** Collecting frees an end that has sent and received CLOSE. */
  lemma Frees(l: Link)
    requires Fit(l) && Shut(l.a) && l.a.chan.closeSent && l.a.chan.closeRcvd
    ensures Safely(l, Step(l, true, Gc)) && !Step(l, true, Gc).a.live && Step(l, true, Gc).b == l.b
  {
    SafelyStep(l, true, Gc);
  }

  lemma BothClose(l: Link) returns (m: Link)
    requires Fit(l) && BothShut(l)
    ensures Safely(l, m) && m.a.chan.closeSent && m.b.chan.closeSent
  {
    var k := Step(l, true, Gc);
    SendsClose(l);
    LeadsLater(l, k);
    SendsClose(Swap(k));
    SafelySwap(k, Step(Swap(k), true, Gc));
    m := Swap(Step(Swap(k), true, Gc));
    SafelyOn(l, k, m);
  }

  lemma BothHear(l: Link) returns (m: Link)
    requires Fit(l) && l.a.chan.closeSent && l.b.chan.closeSent
    ensures Safely(l, m) && m.a.chan.closeRcvd && m.b.chan.closeRcvd
  {
    var k := HearsAll(l);
    LeadsLater(l, k);
    assert k.b.chan.closeRcvd;
    var n := HearsAll(Swap(k));
    SafelySwap(k, n);
    m := Swap(n);
    assert m.b == k.b && m.a.chan.closeRcvd;
    SafelyOn(l, k, m);
  }

  lemma BothFreed(l: Link) returns (m: Link)
    requires Fit(l) && BothShut(l) && l.a.chan.closeSent && l.b.chan.closeSent
    requires l.a.chan.closeRcvd && l.b.chan.closeRcvd
    ensures Safely(l, m) && !m.a.live && !m.b.live
  {
    var k := Step(l, true, Gc);
    Frees(l);
    Frees(Swap(k));
    SafelySwap(k, Step(Swap(k), true, Gc));
    m := Swap(Step(Swap(k), true, Gc));
    SafelyOn(l, k, m);
  }

  lemma ShutDies(l: Link) returns (m: Link)
    requires Fit(l) && BothShut(l)
    ensures Safely(l, m) && !m.a.live && !m.b.live
  {
    var k := BothClose(l);
    LeadsLater(l, k);
    var n := BothHear(k);
    LeadsLater(k, n);
    SafelyOn(l, k, n);
    m := BothFreed(n);
    SafelyOn(l, n, m);
  }

  /** When both ends have read to the end, the channel dies: some continuation frees both ends,
      and unless writes failed everything read at either end has been written at the other. */
  lemma ChannelDies(l: Link)
    requires Reached(l) && l.a.chan.istate != InputOpen && l.b.chan.istate != InputOpen
    requires l.a.chan.remoteMaxpacket > 0 && l.b.chan.remoteMaxpacket > 0
    ensures exists m :: Leads(l, m) && !m.a.live && !m.b.live
                        && (!l.b.failed ==> m.b.writtenLog == l.a.readLog)
                        && (!l.a.failed ==> m.a.writtenLog == l.b.readLog)
  {
    ReachedFit(l);
    var k := BothEnd(l);
    var m := ShutDies(k);
    LeadsLater(k, m);
    SafelyOn(l, k, m);
  }
}
