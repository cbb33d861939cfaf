/** Two endpoints of one channel joined by a FIFO link in each direction.

A `Host` is an endpoint with the history of what went through it; a `Link` is two hosts
and the messages in flight.  Every step of either host is a handler of ChannelIo applied
to its channel.  The main results hold in every state that any sequence of steps of the
two hosts reaches from a freshly opened channel.
*/
module FlowControl {
  import opened Bits
  import opened Wire
  import opened ChannelIo

  datatype Host = Host(
    chan: Chan,
    live: bool,                // false once the channel has been freed
    failed: bool,              // a write to the descriptor has failed
    lost: nat,                 // output bytes thrown away by that failure
    readLog: seq<byte>,        // everything read from the descriptor
    rcvdLog: seq<byte>,        // everything received from the peer
    writtenLog: seq<byte>)     // everything written to the descriptor

  datatype Action =
    | Read(r: ReadResult)
    | Write(w: WriteResult)
    | Drain
    | Review
    | Poll
    | Receive
    | Gc

  datatype Turn = Turn(host: Host, inbox: seq<Msg>, sent: seq<Msg>, alarm: Alarm)

  function Act(h: Host, inbox: seq<Msg>, a: Action): Turn
  {
    if a.Receive? then
      if inbox == [] then Turn(h, inbox, [], Quiet) else Deliver(h, inbox[0], inbox[1..])
    else if !h.live then Turn(h, inbox, [], Quiet)
    else
      var c := h.chan;
      match a
      case Read(r) =>
        var e := HandleRfd(c, r);
        Turn(h.(chan := e.chan, readLog := h.readLog + Taken(c, r)), inbox, e.sent, e.alarm)
      case Write(w) =>
        var e := HandleWfd(c, w);
        Turn(h.(chan := e.chan, writtenLog := h.writtenLog + Written(c, w),
                failed := h.failed || WriteFails(c, w),
                lost := h.lost + if WriteFails(c, w) then |c.output| else 0),
             inbox, e.sent, e.alarm)
      case Drain => var e := PreOpen(c); Turn(h.(chan := e.chan), inbox, e.sent, e.alarm)
      case Review => var e := CheckWindow(c); Turn(h.(chan := e.chan), inbox, e.sent, e.alarm)
      case Poll => var e := OutputPoll(c); Turn(h.(chan := e.chan), inbox, e.sent, e.alarm)
      case Gc =>
        var e := Collect(c);
        Turn(h.(chan := e.chan, live := !Dead(e.chan)), inbox, e.sent, e.alarm)
  }

  /** The first message of the inbox reaches the host. */
  function Deliver(h: Host, m: Msg, rest: seq<Msg>): Turn
  {
    if !h.live then Turn(h, rest, [], if m.Adjust? then Quiet else NoSuchChannel)
    else
      var e := Input(h.chan, m);
      Turn(h.(chan := e.chan, rcvdLog := h.rcvdLog + if m.Data? then m.bytes else []),
           rest, e.sent, e.alarm)
  }

  datatype Link = Link(a: Host, b: Host, ab: seq<Msg>, ba: seq<Msg>, alarms: set<Alarm>)

  function Swap(l: Link): Link { Link(l.b, l.a, l.ba, l.ab, l.alarms) }

  function StepA(l: Link, act: Action): Link
  {
    var t := Act(l.a, l.ba, act);
    Link(t.host, l.b, l.ab + t.sent, t.inbox, l.alarms + {t.alarm})
  }

  /** `left` says which host moves. */
  function Step(l: Link, left: bool, act: Action): Link
  {
    if left then StepA(l, act) else Swap(StepA(Swap(l), act))
  }

  function Run(l: Link, steps: seq<(bool, Action)>): Link
  {
    if steps == [] then l
    else Step(Run(l, steps[..|steps| - 1]), steps[|steps| - 1].0, steps[|steps| - 1].1)
  }

  function OpenChan(window: word, maxpack: word, rwin: word, rmax: word, eow: bool): Chan
  {
    Chan(InputOpen, OutputOpen, false, false, false, false, eow, [], [],
         rwin, rmax, window, 0, window, 0, maxpack)
  }

  function FreshHost(c: Chan): Host { Host(c, true, false, 0, [], [], []) }

  /** What an end advertises, and whether it sends EOW when a write fails. */
  datatype Terms = Terms(window: word, maxpack: word, eow: bool)

  /** Both ends just opened, each with the window and packet size the other advertised. */
  function Opened(x: Terms, y: Terms): Link
  {
    Link(FreshHost(OpenChan(x.window, x.maxpack, y.window, y.maxpack, x.eow)),
         FreshHost(OpenChan(y.window, y.maxpack, x.window, x.maxpack, y.eow)), [], [], {})
  }

  // ----- what is in flight

  function Bytes(q: seq<Msg>): seq<byte>
  {
    if q == [] then [] else (if q[0].Data? then q[0].bytes else []) + Bytes(q[1..])
  }

  function Credit(q: seq<Msg>): nat
  {
    if q == [] then 0 else (if q[0].Adjust? then q[0].credit else 0) + Credit(q[1..])
  }

  lemma {:induction false} BytesAppend(q: seq<Msg>, s: seq<Msg>)
    ensures Bytes(q + s) == Bytes(q) + Bytes(s)
  {
    if q == [] {
      assert q + s == s;
    } else {
      assert (q + s)[1..] == q[1..] + s;
      BytesAppend(q[1..], s);
    }
  }

  lemma {:induction false} CreditAppend(q: seq<Msg>, s: seq<Msg>)
    ensures Credit(q + s) == Credit(q) + Credit(s)
  {
    if q == [] {
      assert q + s == s;
    } else {
      assert (q + s)[1..] == q[1..] + s;
      CreditAppend(q[1..], s);
    }
  }

  lemma AppendNothing(q: seq<Msg>)
    ensures q + [] == q
  {
  }

  // ----- the invariant, for the direction from s to r
  //       (q: messages from s to r, p: messages from r to s)

  ghost predicate Accounting(s: Chan, r: Host, q: seq<Msg>, p: seq<Msg>)
  {
    && s.remoteMaxpacket == r.chan.localMaxpacket
    && r.chan.localWindow == s.remoteWindow + |Bytes(q)| + Credit(p)
    && (forall m :: m in q && m.Data? ==> |m.bytes| <= r.chan.localMaxpacket)
  }

  ghost predicate Settled(h: Host)
  {
    && h.chan.localWindow + h.chan.localConsumed + |h.chan.output| + h.lost == h.chan.localWindowMax
    && h.chan.localWindowMax <= BUFFER_MAX
    && |h.chan.input| <= h.chan.remoteWindow
  }

  ghost predicate Faithful(h: Host)
  {
    && h.writtenLog + h.chan.output <= h.rcvdLog
    && (!h.failed ==> h.writtenLog + h.chan.output == h.rcvdLog)
    && (h.failed ==> h.chan.ostate == OutputClosed)
    && (!h.failed ==> h.lost == 0)
    && (h.chan.ostate == OutputClosed ==> h.chan.output == [])
    && (!h.live ==> h.chan.closeSent && h.chan.closeRcvd)
  }

  /** Nothing follows a CLOSE, and neither data nor another EOF follows an EOF. */
  ghost predicate MayFollow(m: Msg, n: Msg)
  {
    !m.Close? && (m.Eof? ==> !n.Data? && !n.Eof?)
  }

  ghost predicate Ordered(q: seq<Msg>)
  {
    forall i, j :: 0 <= i < j < |q| ==> MayFollow(q[i], q[j])
  }

  ghost predicate NoData(q: seq<Msg>) { forall m :: m in q ==> !m.Data? }

  ghost predicate Ending(s: Host, r: Host, q: seq<Msg>)
  {
    && Ordered(q)
    && (s.chan.closeSent <==> Close in q || r.chan.closeRcvd)
    && (s.chan.eofSent <==> Eof in q || r.chan.eofRcvd)
    && (s.chan.eofSent ==> s.chan.istate == InputClosed)
    && (s.chan.closeSent ==> s.chan.istate == InputClosed && s.chan.ostate == OutputClosed)
    && (r.chan.closeRcvd ==> q == [])
    && (r.chan.eofRcvd ==> Eof !in q && NoData(q))
    && (r.chan.ostate != OutputOpen && !r.failed ==> r.chan.eofRcvd || r.chan.closeRcvd)
    && (s.chan.istate == InputClosed && !r.failed ==> s.chan.eofSent && s.chan.input == [])
    && (Eow in q ==> s.failed)
  }

  ghost predicate Dir(s: Host, r: Host, q: seq<Msg>, p: seq<Msg>)
  {
    Accounting(s.chan, r, q, p) && s.readLog == r.rcvdLog + Bytes(q) + s.chan.input && Ending(s, r, q)
  }

  ghost predicate Inv(l: Link)
  {
    && Dir(l.a, l.b, l.ab, l.ba) && Dir(l.b, l.a, l.ba, l.ab)
    && Settled(l.a) && Settled(l.b) && Faithful(l.a) && Faithful(l.b)
    && l.alarms <= {Quiet}
  }

  // ----- what one host can rely on, and what each of its turns gives back

  /** What the peer's honesty guarantees about the messages waiting for a host. */
  ghost predicate Expected(h: Host, inbox: seq<Msg>)
  {
    && |Bytes(inbox)| <= h.chan.localWindow
    && h.chan.remoteWindow + Credit(inbox) <= BUFFER_MAX
    && (forall m :: m in inbox && m.Data? ==> |m.bytes| <= h.chan.localMaxpacket)
    && (h.chan.ostate != OutputOpen && !h.failed ==> NoData(inbox))
    && (!h.live ==> inbox == [])
  }

  /** A turn moves window, credit and bytes but creates and destroys none. */
  ghost predicate Balanced(h: Host, inbox: seq<Msg>, t: Turn)
  {
    var c, d := h.chan, t.host.chan;
    && t.alarm == Quiet
    && d.localMaxpacket == c.localMaxpacket && d.remoteMaxpacket == c.remoteMaxpacket
    && d.remoteWindow + |Bytes(t.sent)| + Credit(t.inbox) == c.remoteWindow + Credit(inbox)
    && d.localWindow + |Bytes(inbox)| == c.localWindow + |Bytes(t.inbox)| + Credit(t.sent)
    && (forall m :: m in t.sent && m.Data? ==> |m.bytes| <= c.remoteMaxpacket)
    && (forall m :: m in t.inbox ==> m in inbox)
  }

  /** A turn keeps the order of the bytes that pass through the host. */
  ghost predicate Carries(h: Host, inbox: seq<Msg>, t: Turn, taken: seq<byte>)
  {
    && h.rcvdLog + Bytes(inbox) == t.host.rcvdLog + Bytes(t.inbox)
    && t.host.readLog == h.readLog + taken
    && h.chan.input + taken == Bytes(t.sent) + t.host.chan.input
  }

  lemma Single(m: Msg)
    ensures Bytes([m]) == if m.Data? then m.bytes else []
    ensures Credit([m]) == if m.Adjust? then m.credit else 0
  {
    assert [m][1..] == [];
  }

  ghost predicate Ready(h: Host, inbox: seq<Msg>)
  {
    Settled(h) && Faithful(h) && Expected(h, inbox)
  }

  ghost predicate Sound(h: Host, inbox: seq<Msg>, t: Turn, taken: seq<byte>)
  {
    Settled(t.host) && Faithful(t.host) && Balanced(h, inbox, t) && Carries(h, inbox, t, taken)
  }

  /** A read adds at most what the window and the buffer leave room for. */
  lemma ReadEffect(c: Chan, r: ReadResult)
    requires |c.input| <= c.remoteWindow
    ensures HandleRfd(c, r).sent == [] && HandleRfd(c, r).alarm == Quiet
    ensures var d := HandleRfd(c, r).chan;
            && d == c.(input := c.input + Taken(c, r), istate := d.istate)
            && |d.input| <= c.remoteWindow
  {
    assert c.input + [] == c.input;
  }

  lemma ReadTurn(h: Host, inbox: seq<Msg>, r: ReadResult)
    requires Ready(h, inbox) && h.live
    ensures Sound(h, inbox, Act(h, inbox, Read(r)), Taken(h.chan, r))
  {
    ReadEffect(h.chan, r);
  }

  /** A successful write moves bytes from `output` to `local_consumed`. */
  lemma WriteEffect(c: Chan, w: WriteResult)
    requires c.localConsumed + |c.output| <= BUFFER_MAX && !WriteFails(c, w)
    ensures HandleWfd(c, w).sent == [] && HandleWfd(c, w).alarm == Quiet
    ensures var d, x := HandleWfd(c, w).chan, Written(c, w);
            && d == c.(output := d.output, localConsumed := d.localConsumed)
            && x + d.output == c.output
            && d.localConsumed == c.localConsumed + |x|
  {
  }

  lemma FailedWriteTurn(h: Host, inbox: seq<Msg>, w: WriteResult)
    requires Ready(h, inbox) && h.live && WriteFails(h.chan, w)
    ensures Sound(h, inbox, Act(h, inbox, Write(w)), [])
  {
    Single(Eow);
    assert Written(h.chan, w) == [];
    assert h.writtenLog + [] == h.writtenLog;
  }

  lemma WriteTurn(h: Host, inbox: seq<Msg>, w: WriteResult)
    requires Ready(h, inbox) && h.live && !WriteFails(h.chan, w)
    ensures Sound(h, inbox, Act(h, inbox, Write(w)), [])
  {
    var x, d := Written(h.chan, w), HandleWfd(h.chan, w).chan;
    WriteEffect(h.chan, w);
    Assoc(h.writtenLog, x, d.output);
  }

  /** A poll moves a prefix of `input` into one packet and pays for it from the window. */
  lemma PollEffect(c: Chan)
    requires |c.input| <= c.remoteWindow
    ensures OutputPoll(c).alarm == Quiet
    ensures var d, sent := OutputPoll(c).chan, OutputPoll(c).sent;
            var x := Bytes(sent);
            && d == c.(input := d.input, remoteWindow := d.remoteWindow,
                       istate := d.istate, eofSent := d.eofSent)
            && x + d.input == c.input && d.remoteWindow + |x| == c.remoteWindow
            && Credit(sent) == 0
            && (forall m :: m in sent && m.Data? ==> |m.bytes| <= c.remoteMaxpacket)
  {
    var sent := OutputPoll(c).sent;
    if sent != [] { assert sent == [sent[0]]; Single(sent[0]); }
  }

  lemma PollTurn(h: Host, inbox: seq<Msg>)
    requires Ready(h, inbox) && h.live
    ensures Sound(h, inbox, Act(h, inbox, Poll), [])
  {
    PollEffect(h.chan);
  }

  lemma ReviewTurn(h: Host, inbox: seq<Msg>)
    requires Ready(h, inbox) && h.live
    ensures Sound(h, inbox, Act(h, inbox, Review), [])
  {
    Single(Adjust(h.chan.localConsumed));
  }

  lemma EndingTurn(h: Host, inbox: seq<Msg>, a: Action)
    requires Ready(h, inbox) && h.live && (a.Drain? || a.Gc?)
    ensures Sound(h, inbox, Act(h, inbox, a), [])
  {
    Single(Close);
  }

  /** Data within the window is appended to `output`, or counted as consumed when the
      output side no longer takes data. */
  lemma DataEffect(c: Chan, bytes: seq<byte>)
    requires |bytes| <= c.localWindow && |bytes| <= c.localMaxpacket
    requires c.localWindow + c.localConsumed + |c.output| <= BUFFER_MAX
    ensures InputData(c, bytes).alarm == Quiet && InputData(c, bytes).sent == []
    ensures var d := InputData(c, bytes).chan;
            && d == c.(output := d.output, localWindow := d.localWindow,
                       localWindowExceeded := d.localWindowExceeded, localConsumed := d.localConsumed)
            && d.localWindow + |bytes| == c.localWindow
            && if c.ostate == OutputOpen
               then d.output == c.output + bytes && d.localConsumed == c.localConsumed
               else d.output == c.output && d.localConsumed == c.localConsumed + |bytes|
  {
  }

  lemma DataTurn(h: Host, inbox: seq<Msg>)
    requires Ready(h, inbox) && inbox != [] && inbox[0].Data?
    ensures Sound(h, inbox, Deliver(h, inbox[0], inbox[1..]), [])
  {
    var x := inbox[0].bytes;
    assert inbox[0] in inbox;
    DataEffect(h.chan, x);
    DataSound(h, inbox, Deliver(h, inbox[0], inbox[1..]), x, InputData(h.chan, x).chan);
  }

  lemma DataFaithful(h: Host, x: seq<byte>, d: Chan)
    requires Faithful(h) && (h.chan.ostate != OutputOpen ==> h.failed || x == [])
    requires d.ostate == h.chan.ostate && d.closeSent == h.chan.closeSent && d.closeRcvd == h.chan.closeRcvd
    requires d.output == if h.chan.ostate == OutputOpen then h.chan.output + x else h.chan.output
    ensures Faithful(h.(chan := d, rcvdLog := h.rcvdLog + x))
  {
    Assoc(h.writtenLog, h.chan.output, x);
    if !h.failed && h.chan.ostate != OutputOpen { assert h.rcvdLog + x == h.rcvdLog; }
  }

  lemma DataCarries(h: Host, inbox: seq<Msg>, t: Turn, x: seq<byte>)
    requires inbox != [] && inbox[0] == Data(x) && t.inbox == inbox[1..] && t.sent == []
    requires t.host.rcvdLog == h.rcvdLog + x && t.host.readLog == h.readLog
    requires t.host.chan.input == h.chan.input
    ensures Carries(h, inbox, t, []) && |Bytes(inbox)| == |x| + |Bytes(t.inbox)|
    ensures Credit(inbox) == Credit(t.inbox)
  {
    Assoc(h.rcvdLog, x, Bytes(t.inbox));
  }

  lemma DataSound(h: Host, inbox: seq<Msg>, t: Turn, x: seq<byte>, d: Chan)
    requires Ready(h, inbox) && inbox != [] && inbox[0] == Data(x)
    requires t == Turn(h.(chan := d, rcvdLog := h.rcvdLog + x), inbox[1..], [], Quiet)
    requires d == h.chan.(output := d.output, localWindow := d.localWindow,
                          localWindowExceeded := d.localWindowExceeded, localConsumed := d.localConsumed)
    requires d.localWindow + |x| == h.chan.localWindow
    requires if h.chan.ostate == OutputOpen
             then d.output == h.chan.output + x && d.localConsumed == h.chan.localConsumed
             else d.output == h.chan.output && d.localConsumed == h.chan.localConsumed + |x|
    ensures Sound(h, inbox, t, [])
  {
    assert inbox[0] in inbox;
    DataFaithful(h, x, d);
    DataCarries(h, inbox, t, x);
  }

  /** A message without data leaves the byte stream as it was. */
  lemma CarriesNothing(h: Host, inbox: seq<Msg>, t: Turn)
    requires inbox != [] && !inbox[0].Data? && t.inbox == inbox[1..]
    requires t.host.rcvdLog == h.rcvdLog + [] && t.host.readLog == h.readLog
    requires t.host.chan.input == h.chan.input && Bytes(t.sent) == []
    ensures Carries(h, inbox, t, []) && t.host.rcvdLog == h.rcvdLog
    ensures Bytes(inbox) == Bytes(t.inbox)
    ensures forall m :: m in t.inbox ==> m in inbox
  {
    assert Bytes(inbox) == [] + Bytes(inbox[1..]);
  }

  lemma AdjustTurn(h: Host, inbox: seq<Msg>)
    requires Ready(h, inbox) && inbox != [] && inbox[0].Adjust?
    ensures Sound(h, inbox, Deliver(h, inbox[0], inbox[1..]), [])
  {
    CarriesNothing(h, inbox, Deliver(h, inbox[0], inbox[1..]));
  }

  /** EOF, EOW and CLOSE touch no window and no buffered byte. */
  lemma ControlEffect(c: Chan, m: Msg)
    requires m == Eof || m == Eow || m == Close
    ensures Input(c, m).alarm == Quiet
    ensures Bytes(Input(c, m).sent) == [] && Credit(Input(c, m).sent) == 0 && NoData(Input(c, m).sent)
    ensures var d := Input(c, m).chan;
            && d == c.(istate := d.istate, ostate := d.ostate, eofSent := d.eofSent,
                       eofRcvd := d.eofRcvd, closeRcvd := d.closeRcvd)
            && (c.ostate == OutputClosed ==> d.ostate == OutputClosed)
            && (d.ostate == OutputClosed && c.ostate != OutputClosed ==> c.output == [])
            && (c.closeRcvd ==> d.closeRcvd)
  {
    match m
    case Eof => assert Input(c, m).sent == [];
    case Eow => assert Input(c, m).sent == [];
    case Close => Single(Eof);
  }

  lemma ControlTurn(h: Host, inbox: seq<Msg>)
    requires Ready(h, inbox) && inbox != [] && (inbox[0] == Eof || inbox[0] == Eow || inbox[0] == Close)
    ensures Sound(h, inbox, Deliver(h, inbox[0], inbox[1..]), [])
  {
    ControlEffect(h.chan, inbox[0]);
    CarriesNothing(h, inbox, Deliver(h, inbox[0], inbox[1..]));
  }

  /** Every turn of a host is sound. */
  lemma EveryTurn(h: Host, inbox: seq<Msg>, a: Action)
    requires Ready(h, inbox)
    ensures Sound(h, inbox, Act(h, inbox, a), if a.Read? && h.live then Taken(h.chan, a.r) else [])
  {
    if a.Receive? {
      if inbox != [] {
        match inbox[0]
        case Data(_) => DataTurn(h, inbox);
        case Adjust(_) => AdjustTurn(h, inbox);
        case _ => ControlTurn(h, inbox);
      }
    } else if h.live {
      match a
      case Read(r) => ReadTurn(h, inbox, r);
      case Write(w) =>
        if WriteFails(h.chan, w) { FailedWriteTurn(h, inbox, w); } else { WriteTurn(h, inbox, w); }
      case Poll => PollTurn(h, inbox);
      case Review => ReviewTurn(h, inbox);
      case _ => EndingTurn(h, inbox, a);
    }
  }

  lemma InboxExpected(l: Link)
    requires Inv(l)
    ensures Expected(l.a, l.ba)
  {
  }

  // ----- how the stream ends

  /** The ordering of the queue survives one more message. */
  lemma OrderedAppend(q: seq<Msg>, m: Msg)
    requires Ordered(q) && Close !in q && (Eof in q ==> !m.Data? && m != Eof)
    ensures Ordered(q + [m])
  {
    forall i, j | 0 <= i < j < |q + [m]|
      ensures MayFollow((q + [m])[i], (q + [m])[j])
    {
      assert (q + [m])[i] == q[i] && q[i] in q;
    }
  }

  /** Adding what one turn sends to a queue. */
  lemma QueueAppend(q: seq<Msg>, sent: seq<Msg>)
    requires Ordered(q) && |sent| <= 1
    requires sent != [] ==> Close !in q && (Eof in q ==> !sent[0].Data? && sent[0] != Eof)
    ensures Ordered(q + sent) && forall x :: x in q + sent <==> x in q || x in sent
  {
    if sent == [] {
      AppendNothing(q);
    } else {
      assert sent == [sent[0]];
      OrderedAppend(q, sent[0]);
    }
  }

  /** Taking the first message off a queue. */
  lemma QueueTail(q: seq<Msg>)
    requires Ordered(q) && q != []
    ensures Ordered(q[1..]) && forall x :: x in q <==> x == q[0] || x in q[1..]
    ensures q[0] == Close ==> q[1..] == []
    ensures q[0] == Eof ==> NoData(q[1..]) && Eof !in q[1..]
  {
    assert q == [q[0]] + q[1..];
    forall x | x in q[1..] ensures MayFollow(q[0], x) {
      var j :| 0 <= j < |q[1..]| && q[1..][j] == x;
      assert q[j + 1] == x;
    }
    if |q| > 1 { assert q[1..][0] in q[1..]; }
    forall i, j | 0 <= i < j < |q[1..]| ensures MayFollow(q[1..][i], q[1..][j]) {
      assert MayFollow(q[i + 1], q[j + 1]);
    }
  }

  ghost predicate Ends(l: Link, t: Turn)
  {
    Ending(t.host, l.b, l.ab + t.sent) && Ending(l.b, t.host, t.inbox)
  }

  ghost predicate Winding(l: Link)
  {
    && Ending(l.a, l.b, l.ab) && Ending(l.b, l.a, l.ba)
    && Faithful(l.a) && Faithful(l.b) && |l.a.chan.input| <= l.a.chan.remoteWindow
  }

  lemma ReadEnds(l: Link, r: ReadResult)
    requires Winding(l)
    ensures Ends(l, Act(l.a, l.ba, Read(r)))
  {
    if l.a.live { ReadEffect(l.a.chan, r); }
    QueueAppend(l.ab, []);
  }

  lemma WriteEnds(l: Link, w: WriteResult)
    requires Winding(l)
    ensures Ends(l, Act(l.a, l.ba, Write(w)))
  {
    if l.a.live && !WriteFails(l.a.chan, w) { assert HandleWfd(l.a.chan, w).chan.istate == l.a.chan.istate; }
    QueueAppend(l.ab, Act(l.a, l.ba, Write(w)).sent);
  }

  lemma DrainEnds(l: Link, a: Action)
    requires Winding(l) && (a.Drain? || a.Review?)
    ensures Ends(l, Act(l.a, l.ba, a))
  {
    QueueAppend(l.ab, Act(l.a, l.ba, a).sent);
  }

  lemma PollEnds(l: Link)
    requires Winding(l)
    ensures Ends(l, Act(l.a, l.ba, Poll))
  {
    QueueAppend(l.ab, Act(l.a, l.ba, Poll).sent);
  }

  lemma GcEnds(l: Link)
    requires Winding(l)
    ensures Ends(l, Act(l.a, l.ba, Gc))
  {
    QueueAppend(l.ab, Act(l.a, l.ba, Gc).sent);
  }

  lemma InputDataKeeps(c: Chan, bytes: seq<byte>)
    ensures InputData(c, bytes).sent == []
    ensures var d := InputData(c, bytes).chan;
            d == c.(output := d.output, localWindow := d.localWindow,
                    localWindowExceeded := d.localWindowExceeded, localConsumed := d.localConsumed)
  {
  }

  lemma DataKeepsStates(c: Chan, m: Msg)
    requires m.Data? || m.Adjust?
    ensures Input(c, m).sent == []
    ensures var d := Input(c, m).chan;
            d == c.(output := d.output, localWindow := d.localWindow, remoteWindow := d.remoteWindow,
                    localWindowExceeded := d.localWindowExceeded, localConsumed := d.localConsumed)
  {
    if m.Data? { InputDataKeeps(c, m.bytes); }
  }

  lemma DataEnds(l: Link)
    requires Winding(l) && l.ba != [] && (l.ba[0].Data? || l.ba[0].Adjust?)
    ensures Ends(l, Deliver(l.a, l.ba[0], l.ba[1..]))
  {
    DataKeepsStates(l.a.chan, l.ba[0]);
    QueueTail(l.ba);
    QueueAppend(l.ab, []);
  }

  lemma EofEnds(l: Link)
    requires Winding(l) && l.ba != [] && (l.ba[0] == Eof || l.ba[0] == Eow)
    ensures Ends(l, Deliver(l.a, l.ba[0], l.ba[1..]))
  {
    QueueTail(l.ba);
    QueueAppend(l.ab, []);
  }

  lemma CloseEnds(l: Link)
    requires Winding(l) && l.ba != [] && l.ba[0] == Close
    ensures Ends(l, Deliver(l.a, l.ba[0], l.ba[1..]))
  {
    QueueTail(l.ba);
    QueueAppend(l.ab, Deliver(l.a, l.ba[0], l.ba[1..]).sent);
  }

  lemma EveryTurnEnds(l: Link, a: Action)
    requires Inv(l)
    ensures Ends(l, Act(l.a, l.ba, a))
  {
    match a
    case Read(r) => ReadEnds(l, r);
    case Write(w) => WriteEnds(l, w);
    case Poll => PollEnds(l);
    case Gc => GcEnds(l);
    case Receive =>
      if l.ba == [] {
        AppendNothing(l.ab);
      } else {
        match l.ba[0]
        case Close => CloseEnds(l);
        case Eof => EofEnds(l);
        case Eow => EofEnds(l);
        case _ => DataEnds(l);
      }
    case _ => DrainEnds(l, a);
  }

  // ----- every step of either host keeps the invariant

  lemma ForwardKept(l: Link, t: Turn, x: seq<byte>)
    requires Inv(l) && Sound(l.a, l.ba, t, x) && Ends(l, t)
    ensures Dir(t.host, l.b, l.ab + t.sent, t.inbox)
  {
    BytesAppend(l.ab, t.sent);
    var r := l.b.rcvdLog;
    Assoc(r + Bytes(l.ab), l.a.chan.input, x);
    Assoc(r + Bytes(l.ab), Bytes(t.sent), t.host.chan.input);
    Assoc(r, Bytes(l.ab), Bytes(t.sent));
  }

  lemma BackwardKept(l: Link, t: Turn, x: seq<byte>)
    requires Inv(l) && Sound(l.a, l.ba, t, x) && Ends(l, t)
    ensures Dir(l.b, t.host, t.inbox, l.ab + t.sent)
  {
    CreditAppend(l.ab, t.sent);
  }

  lemma StepAKeeps(l: Link, a: Action)
    requires Inv(l)
    ensures Inv(StepA(l, a))
  {
    InboxExpected(l);
    EveryTurn(l.a, l.ba, a);
    EveryTurnEnds(l, a);
    var t := Act(l.a, l.ba, a);
    var x := if a.Read? && l.a.live then Taken(l.a.chan, a.r) else [];
    ForwardKept(l, t, x);
    BackwardKept(l, t, x);
  }

  lemma StepKeeps(l: Link, left: bool, a: Action)
    requires Inv(l)
    ensures Inv(Step(l, left, a))
  {
    if left { StepAKeeps(l, a); } else { StepAKeeps(Swap(l), a); }
  }

  /** The invariant holds after every run from two freshly opened ends. */
  lemma {:induction false} Reachable(l: Link, steps: seq<(bool, Action)>)
    requires Inv(l)
    ensures Inv(Run(l, steps))
  {
    if steps != [] {
      Reachable(l, steps[..|steps| - 1]);
      StepKeeps(Run(l, steps[..|steps| - 1]), steps[|steps| - 1].0, steps[|steps| - 1].1);
    }
  }

  // ----- main results

  /** Some run of two freshly opened ends arrives in `l`.  A window fits the buffer limit,
      as every window the program configures does. */
  ghost predicate Reached(l: Link)
  {
    exists x: Terms, y: Terms, steps ::
      x.window <= BUFFER_MAX && y.window <= BUFFER_MAX && l == Run(Opened(x, y), steps)
  }

  lemma ReachedInv(l: Link)
    requires Reached(l)
    ensures Inv(l)
  {
    var x: Terms, y: Terms, steps :|
      x.window <= BUFFER_MAX && y.window <= BUFFER_MAX && l == Run(Opened(x, y), steps);
    OpenedInv(x, y);
    Reachable(Opened(x, y), steps);
  }

  lemma OpenedInv(x: Terms, y: Terms)
    requires x.window <= BUFFER_MAX && y.window <= BUFFER_MAX
    ensures Inv(Opened(x, y))
  {
  }

  // ----- the two ends are alike

  function Flip(steps: seq<(bool, Action)>): (f: seq<(bool, Action)>)
    ensures |f| == |steps|
  {
    seq(|steps|, i requires 0 <= i < |steps| => (!steps[i].0, steps[i].1))
  }

  lemma {:induction false} RunSwap(l: Link, steps: seq<(bool, Action)>)
    ensures Run(Swap(l), Flip(steps)) == Swap(Run(l, steps))
  {
    if steps != [] {
      var n := |steps| - 1;
      RunSwap(l, steps[..n]);
      assert Flip(steps)[..n] == Flip(steps[..n]);
    }
  }

  /** What holds of one direction in every reachable state holds of the other. */
  lemma ReachedSwap(l: Link)
    requires Reached(l)
    ensures Reached(Swap(l))
  {
    var x: Terms, y: Terms, steps :|
      x.window <= BUFFER_MAX && y.window <= BUFFER_MAX && l == Run(Opened(x, y), steps);
    RunSwap(Opened(x, y), steps);
    assert Swap(l) == Run(Opened(y, x), Flip(steps));
  }

  /** Honest peers agree on the window: what the receiver still allows is what the sender
      may still send, plus the data and the credit in flight. */
  lemma WindowsAgree(l: Link)
    requires Reached(l)
    ensures l.b.chan.localWindow == l.a.chan.remoteWindow + |Bytes(l.ab)| + Credit(l.ba)
    ensures l.a.chan.localWindow == l.b.chan.remoteWindow + |Bytes(l.ba)| + Credit(l.ab)
    ensures |l.a.chan.input| <= l.a.chan.remoteWindow && |l.b.chan.input| <= l.b.chan.remoteWindow
  {
    ReachedInv(l);
  }

  /** No run of two honest ends takes any branch that complains about the peer: neither
      the packet-size, window and adjust checks nor the lookup of the channel fail. */
  lemma NeverAlarmed(l: Link)
    requires Reached(l)
    ensures l.alarms <= {Quiet}
  {
    ReachedInv(l);
  }

  /** Bytes arrive in order, none twice and none invented: what b has written is a prefix of
      what a has read, and until a write fails the bytes a has read are those b has written,
      followed by those buffered there, in flight, and buffered here. */
  ghost predicate Intact(l: Link)
  {
    && l.b.writtenLog <= l.a.readLog
    && (!l.b.failed ==> l.a.readLog == l.b.writtenLog + l.b.chan.output + Bytes(l.ab) + l.a.chan.input)
  }

  lemma StreamIntegrity(l: Link)
    requires Reached(l)
    ensures Intact(l) && Intact(Swap(l))
  {
    IntactOneWay(l);
    ReachedSwap(l);
    IntactOneWay(Swap(l));
  }

  lemma IntactOneWay(l: Link)
    requires Reached(l)
    ensures Intact(l)
  {
    ReachedInv(l);
    assert l.b.writtenLog <= l.b.writtenLog + l.b.chan.output;
  }

  /** An output side of b that closed without a failed write has delivered everything a ever
      read, and a reads no more. */
  ghost predicate ClosesClean(l: Link)
  {
    l.b.chan.ostate == OutputClosed && !l.b.failed ==>
      l.b.writtenLog == l.a.readLog && l.a.chan.istate == InputClosed
  }

  lemma CleanCloseDeliversAll(l: Link)
    requires Reached(l)
    ensures ClosesClean(l) && ClosesClean(Swap(l))
  {
    ReachedInv(l);
    CleanOneWay(l);
    CleanOneWay(Swap(l));
  }

  lemma CleanOneWay(l: Link)
    requires Inv(l)
    ensures ClosesClean(l)
  {
    NoDataNoBytes(l.ab);
    assert l.b.writtenLog + [] == l.b.writtenLog;
  }

  lemma {:induction false} NoDataNoBytes(q: seq<Msg>)
    ensures NoData(q) ==> Bytes(q) == []
  {
    if q != [] { assert q[0] in q; NoDataNoBytes(q[1..]); }
  }

  /** The data in flight to b has arrived and been written out or thrown away, and b, not
      closing, has reviewed its window. */
  ghost predicate Rested(l: Link)
  {
    && NoData(l.ab) && Credit(l.ba) == 0 && l.b.chan.output == []
    && !l.b.chan.closeSent && !l.b.chan.closeRcvd && CheckWindow(l.b.chan).sent == []
  }

  /** a may send at least half of the window and all but three packets of it, or all of it that no
      failed write of b has thrown away.  It may send nothing exactly when all was thrown away, or in the one case
      of a window of a single byte, whose half is nothing. */
  ghost predicate MaySend(l: Link)
  {
    var w, max := l.a.chan.remoteWindow, l.b.chan.localWindowMax;
    && (w >= max / 2 || w == max - l.b.lost)
    && (!l.b.failed ==> w >= max / 2)
    && (!l.b.failed && 3 * l.b.chan.localMaxpacket < 0x1_0000_0000 ==> max - w <= 3 * l.b.chan.localMaxpacket)
    && (w == 0 <==> l.b.lost == max || (max == 1 && l.b.chan.localConsumed == 1))
  }

  /** No flow-control deadlock. */
  lemma NoStall(l: Link)
    requires Reached(l)
    ensures Rested(l) ==> MaySend(l)
    ensures Rested(Swap(l)) ==> MaySend(Swap(l))
  {
    if Rested(l) { NoStallOneWay(l); }
    ReachedSwap(l);
    if Rested(Swap(l)) { NoStallOneWay(Swap(l)); }
  }

  lemma NoStallOneWay(l: Link)
    requires Reached(l) && Rested(l)
    ensures MaySend(l)
  {
    ReachedInv(l);
    NoDataNoBytes(l.ab);
  }

  /** A review leaves nothing to review, so NoStall speaks of the state after it. */
  lemma ReviewSettles(c: Chan)
    ensures CheckWindow(CheckWindow(c).chan).sent == []
  {
  }

  lemma InputKeepsMax(c: Chan, m: Msg)
    ensures Input(c, m).chan.localWindowMax == c.localWindowMax
  {
    if m.Data? { InputDataKeeps(c, m.bytes); }
  }

  lemma TurnKeepsLost(h: Host, inbox: seq<Msg>, a: Action)
    ensures Act(h, inbox, a).host.lost >= h.lost
    ensures Act(h, inbox, a).host.chan.localWindowMax == h.chan.localWindowMax
  {
    if a.Receive? {
      if inbox != [] { InputKeepsMax(h.chan, inbox[0]); }
    } else {
      match a
      case Write(w) => assert HandleWfd(h.chan, w).chan.localWindowMax == h.chan.localWindowMax;
      case Gc => assert Collect(h.chan).chan.localWindowMax == h.chan.localWindowMax;
      case _ =>
    }
  }

  /** The window is not given back when a failed write discards the output buffer.  If a
      whole window was buffered, the sender is stuck in every continuation. */
  lemma {:induction false} StallForever(l: Link, steps: seq<(bool, Action)>)
    requires Inv(l) && l.b.lost == l.b.chan.localWindowMax
    ensures Run(l, steps).a.chan.remoteWindow == 0
    ensures Run(l, steps).b.lost == Run(l, steps).b.chan.localWindowMax == l.b.chan.localWindowMax
  {
    Reachable(l, steps);
    if steps != [] {
      var k, s := Run(l, steps[..|steps| - 1]), steps[|steps| - 1];
      StallForever(l, steps[..|steps| - 1]);
      TurnKeepsLost(k.a, k.ba, s.1);
      TurnKeepsLost(k.b, k.ab, s.1);
    }
  }

  lemma RunMore(l: Link, steps: seq<(bool, Action)>, left: bool, a: Action)
    ensures Run(l, steps + [(left, a)]) == Step(Run(l, steps), left, a)
  {
    assert (steps + [(left, a)])[..|steps|] == steps;
  }

  /** a has sent n bytes, b holds them all unwritten, and nothing is in flight. */
  ghost predicate Holds(l: Link, y: Terms, n: nat)
  {
    var a, b := l.a.chan, l.b.chan;
    && n <= y.window && l.ab == [] && l.ba == [] && l.a.live && l.b.live && !l.b.failed && l.b.lost == 0
    && a.istate == InputOpen && !a.closeSent && !a.closeRcvd && a.input == []
    && a.remoteWindow == y.window - n && a.remoteMaxpacket == y.maxpack
    && b.istate == InputOpen && b.ostate == OutputOpen && !b.closeSent && |b.output| == n
    && b.localWindow == y.window - n && b.localWindowMax == y.window && b.localMaxpacket == y.maxpack
  }

  const READ_ONE := Read(ReadBytes([7]))

  lemma ReadOne(l: Link, y: Terms, n: nat)
    requires Holds(l, y, n) && n < y.window
    ensures var l1 := Step(l, true, READ_ONE);
            l1.a.chan == l.a.chan.(input := [7]) && l1.b == l.b && l1.ab == [] && l1.ba == [] && l1.a.live
  {
    assert [7][..1] == [7] && [] + [7] == [7];
  }

  lemma PollOne(l: Link)
    requires l.a.live && l.a.chan.istate == InputOpen && !l.a.chan.closeSent && !l.a.chan.closeRcvd
    requires l.a.chan.input == [7] && l.a.chan.remoteWindow > 0 && l.a.chan.remoteMaxpacket > 0
    requires l.ab == [] && l.ba == []
    ensures var l2 := Step(l, true, Poll);
            && l2.a.chan == l.a.chan.(input := [], remoteWindow := l.a.chan.remoteWindow - 1)
            && l2.b == l.b && l2.ab == [Data([7])] && l2.ba == [] && l2.a.live
  {
    assert l.a.chan.input[..1] == [7] && l.a.chan.input[1..] == [];
  }

  lemma ReceiveOne(l: Link)
    requires l.b.live && l.b.chan.ostate == OutputOpen && l.ab == [Data([7])] && l.ba == []
    requires l.b.chan.localMaxpacket > 0 && l.b.chan.localWindow > 0 && |l.b.chan.output| < BUFFER_MAX
    ensures var l3 := Step(l, false, Receive);
            && l3.a == l.a && l3.ab == [] && l3.ba == []
            && l3.b.live && l3.b.failed == l.b.failed && l3.b.lost == l.b.lost
            && l3.b.chan == l.b.chan.(output := l.b.chan.output + [7], localWindow := l.b.chan.localWindow - 1,
                                      localWindowExceeded := 0)
  {
  }

  function Filling(n: nat): seq<(bool, Action)>
  {
    if n == 0 then [] else Filling(n - 1) + [(true, READ_ONE)] + [(true, Poll)] + [(false, Receive)]
  }

  /** One byte at a time a can fill any window. */
  lemma {:induction false} FillsWindow(x: Terms, y: Terms, n: nat)
    requires n <= y.window <= BUFFER_MAX && y.maxpack > 0
    ensures Holds(Run(Opened(x, y), Filling(n)), y, n)
  {
    if n > 0 {
      var l0, l, f := Opened(x, y), Run(Opened(x, y), Filling(n - 1)), Filling(n - 1);
      FillsWindow(x, y, n - 1);
      RunMore(l0, f, true, READ_ONE);
      RunMore(l0, f + [(true, READ_ONE)], true, Poll);
      RunMore(l0, f + [(true, READ_ONE)] + [(true, Poll)], false, Receive);
      ReadOne(l, y, n - 1);
      var l1 := Step(l, true, READ_ONE);
      PollOne(l1);
      ReceiveOne(Step(l1, true, Poll));
    }
  }

  /** Such runs exist whatever window and packet size the ends agreed on: once the window is
      full, one failed write throws it away while the channel stays open for input. */
  lemma StallExists(x: Terms, y: Terms)
    requires x.window <= BUFFER_MAX && 0 < y.window <= BUFFER_MAX && y.maxpack > 0
    ensures exists steps ::
              var l := Run(Opened(x, y), steps);
              && Reached(l) && l.b.lost == l.b.chan.localWindowMax == y.window
              && l.b.live && l.b.chan.istate == InputOpen && !l.b.chan.closeSent
  {
    var l0, f := Opened(x, y), Filling(y.window);
    FillsWindow(x, y, y.window);
    RunMore(l0, f, false, Write(WriteError));
    var l := Run(l0, f + [(false, Write(WriteError))]);
    assert Reached(l) && l.b.lost == y.window;
  }

  // ----- progress: everything read can still be delivered

  /** Some run leads from `l` to `m`. */
  ghost predicate Leads(l: Link, m: Link) { exists steps :: m == Run(l, steps) }

  lemma LeadsNowhere(l: Link)
    ensures Leads(l, l)
  {
    assert l == Run(l, []);
  }

  lemma LeadsOn(l: Link, k: Link, m: Link)
    requires Leads(l, k) && Leads(k, m)
    ensures Leads(l, m)
  {
    var s :| k == Run(l, s);
    var t :| m == Run(k, t);
    assert (s + t)[..|s|] == s && (s + t)[|s|..] == t;
    RunSplit(l, s + t, |s|, k);
  }

  lemma {:induction false} RunSplit(l: Link, steps: seq<(bool, Action)>, i: nat, k: Link)
    requires i <= |steps| && k == Run(l, steps[..i])
    ensures Run(l, steps) == Run(k, steps[i..])
  {
    if i == |steps| {
      assert steps[..i] == steps;
    } else {
      var front := steps[..|steps| - 1];
      assert front[..i] == steps[..i] && steps[i..][..|steps[i..]| - 1] == front[i..];
      RunSplit(l, front, i, k);
    }
  }

  lemma LeadsStep(l: Link, left: bool, a: Action)
    ensures Leads(l, Step(l, left, a))
  {
    RunMore(l, [], left, a);
    assert Step(l, left, a) == Run(l, [] + [(left, a)]);
  }

  /** Some run leads from `l` to `m` in which no write of b fails, a reads `x` and its input
      side stays as it was. */
  ghost predicate Onward(l: Link, m: Link, x: seq<byte>)
  {
    && Leads(l, m)
    && Inv(m) && !m.b.failed && m.a.readLog == l.a.readLog + x && m.a.chan.istate == l.a.chan.istate
    && m.a.chan.remoteMaxpacket == l.a.chan.remoteMaxpacket && m.b.chan.localWindowMax == l.b.chan.localWindowMax
  }

  lemma OnwardJoin(l: Link, k: Link, m: Link, x: seq<byte>, y: seq<byte>)
    requires Onward(l, k, x) && Onward(k, m, y)
    ensures Onward(l, m, x + y)
  {
    LeadsOn(l, k, m);
    Assoc(l.a.readLog, x, y);
  }

  lemma OnwardFirst(l: Link, k: Link, m: Link)
    requires Onward(l, k, []) && Onward(k, m, [])
    ensures Onward(l, m, [])
  {
    OnwardJoin(l, k, m, [], []);
  }

  /** Everything a has read is written out by b. */
  ghost predicate Delivered(l: Link) { l.ab == [] && l.b.chan.output == [] && l.a.chan.input == [] }

  lemma ReceivesNext(l: Link)
    requires Inv(l) && !l.b.failed && l.ab != []
    ensures var m := Step(l, false, Receive); Onward(l, m, []) && m.a == l.a && m.ab == l.ab[1..]
  {
    LeadsStep(l, false, Receive);
    StepKeeps(l, false, Receive);
    TurnKeepsLost(l.b, l.ab, Receive);
  }

  lemma WritesAll(l: Link)
    requires Inv(l) && !l.b.failed && l.b.chan.output != []
    ensures var m := Step(l, false, Write(WroteUpTo(|l.b.chan.output|)));
            Onward(l, m, []) && m.a == l.a && m.ab == l.ab && m.b.chan.output == []
  {
    var w := WroteUpTo(|l.b.chan.output|);
    LeadsStep(l, false, Write(w));
    StepKeeps(l, false, Write(w));
    TurnKeepsLost(l.b, l.ab, Write(w));
    WriteEffect(l.b.chan, w);
  }

  /** What is in the input buffer fits the window, so a poll always sends some of it. */
  lemma PollsSome(l: Link)
    requires Inv(l) && !l.b.failed && l.a.chan.input != [] && l.a.chan.remoteMaxpacket > 0
    ensures var m := Step(l, true, Poll); Onward(l, m, []) && |m.a.chan.input| < |l.a.chan.input|
  {
    LeadsStep(l, true, Poll);
    StepKeeps(l, true, Poll);
    MayPoll(l);
    PollTakes(l.a.chan);
  }

  lemma PollTakes(c: Chan)
    requires !c.closeSent && !c.closeRcvd && c.istate != InputClosed && c.input != []
    requires |c.input| <= c.remoteWindow && c.remoteMaxpacket > 0
    ensures var d := OutputPoll(c).chan;
            d == c.(input := d.input, remoteWindow := d.remoteWindow) && |d.input| < |c.input|
  {
  }

  lemma MayPoll(l: Link)
    requires Inv(l) && !l.b.failed && l.a.chan.input != []
    ensures l.a.live && !l.a.chan.closeSent && !l.a.chan.closeRcvd && l.a.chan.istate != InputClosed
  {
  }

  lemma {:induction false} Drains(l: Link) returns (m: Link)
    requires Inv(l) && !l.b.failed && l.a.chan.remoteMaxpacket > 0
    ensures Onward(l, m, []) && Delivered(m)
    decreases |l.a.chan.input|, |l.ab|, |l.b.chan.output|
  {
    if Delivered(l) {
      LeadsNowhere(l);
      return l;
    }
    var k: Link;
    if l.ab != [] {
      ReceivesNext(l);
      k := Step(l, false, Receive);
    } else if l.b.chan.output != [] {
      WritesAll(l);
      k := Step(l, false, Write(WroteUpTo(|l.b.chan.output|)));
    } else {
      PollsSome(l);
      k := Step(l, true, Poll);
    }
    m := Drains(k);
    OnwardFirst(l, k, m);
  }

  lemma DeliveredIs(l: Link)
    requires Inv(l) && !l.b.failed && Delivered(l)
    ensures l.b.writtenLog == l.a.readLog
  {
    assert l.b.writtenLog + [] == l.b.writtenLog;
  }

  /** From every reachable state in which no write of b has failed, whatever is in flight or
      closing, some continuation writes out all that a has read. */
  lemma EverythingArrives(l: Link)
    requires Reached(l) && !l.b.failed && l.a.chan.remoteMaxpacket > 0
    ensures exists m :: Leads(l, m) && m.b.writtenLog == m.a.readLog == l.a.readLog && !m.b.failed
  {
    ReachedInv(l);
    var m := Drains(l);
    DeliveredIs(m);
  }

  // ----- progress: more can be read and delivered

  /** a may read, b's writes work, and there is nothing on the way from a to b. */
  ghost predicate Idle(l: Link) { Inv(l) && !l.b.failed && l.a.chan.istate == InputOpen && Delivered(l) }

  /** While a's input side is open, neither end has sent CLOSE and b takes data. */
  lemma OpenInput(l: Link)
    requires Inv(l) && !l.b.failed && l.a.chan.istate == InputOpen
    ensures l.a.live && l.b.live && Close !in l.ba && Eow !in l.ba
    ensures !l.b.chan.closeSent && !l.b.chan.closeRcvd
  {
  }

  lemma ReceivesBack(l: Link)
    requires Idle(l) && l.ba != []
    ensures var m := Step(l, true, Receive); Onward(l, m, []) && Delivered(m) && m.ba == l.ba[1..]
  {
    OpenInput(l);
    LeadsStep(l, true, Receive);
    StepKeeps(l, true, Receive);
    assert l.ba[0] in l.ba;
    if l.ba[0].Data? || l.ba[0].Adjust? { DataKeepsStates(l.a.chan, l.ba[0]); }
  }

  lemma {:induction false} TakesBack(l: Link) returns (m: Link)
    requires Idle(l)
    ensures Onward(l, m, []) && Delivered(m) && m.ba == []
    decreases |l.ba|
  {
    if l.ba == [] {
      LeadsNowhere(l);
      m := l;
    } else {
      ReceivesBack(l);
      m := TakesBack(Step(l, true, Receive));
      OnwardFirst(l, Step(l, true, Receive), m);
    }
  }

  /** With nothing in flight and nothing buffered, b owes the whole window when a has none. */
  lemma OwesAll(l: Link)
    requires Idle(l) && l.ba == [] && l.b.chan.localWindowMax >= 2 && l.a.chan.remoteWindow == 0
    ensures OwesCredit(l.b.chan) && l.b.chan.localConsumed == l.b.chan.localWindowMax
  {
    OpenInput(l);
  }

  lemma ReviewGives(l: Link)
    requires Idle(l) && l.ba == [] && l.b.chan.localWindowMax >= 2 && l.a.chan.remoteWindow == 0
    ensures var m := Step(l, false, Review);
            && Onward(l, m, []) && Delivered(m) && m.a == l.a
            && m.ba == [Adjust(l.b.chan.localWindowMax)]
  {
    OwesAll(l);
    OpenInput(l);
    LeadsStep(l, false, Review);
    StepKeeps(l, false, Review);
  }

  lemma AdjustTaken(l: Link, credit: word)
    requires Idle(l) && l.ba == [Adjust(credit)] && l.a.chan.remoteWindow == 0
    ensures Step(l, true, Receive).a.chan.remoteWindow == credit
  {
    OpenInput(l);
  }

  /** a gets window to send: by what b still owes it, if it has none. */
  lemma GainsWindow(l: Link) returns (m: Link)
    requires Idle(l) && l.b.chan.localWindowMax >= 2
    ensures Onward(l, m, []) && Delivered(m) && m.a.chan.remoteWindow > 0
  {
    m := TakesBack(l);
    if m.a.chan.remoteWindow == 0 {
      ReviewGives(m);
      var k := Step(m, false, Review);
      AdjustTaken(k, m.b.chan.localWindowMax);
      ReceivesBack(k);
      OnwardFirst(l, m, k);
      m := Step(k, true, Receive);
      OnwardFirst(l, k, m);
    }
  }

  lemma ReadsOne(l: Link, x: byte)
    requires Idle(l) && l.a.chan.remoteWindow > 0
    ensures Onward(l, Step(l, true, Read(ReadBytes([x]))), [x])
  {
    OpenInput(l);
    LeadsStep(l, true, Read(ReadBytes([x])));
    StepKeeps(l, true, Read(ReadBytes([x])));
    assert [x][..1] == [x];
  }

  lemma OneMore(l: Link, x: byte) returns (m: Link)
    requires Idle(l) && l.b.chan.localWindowMax >= 2 && l.a.chan.remoteMaxpacket > 0
    ensures Onward(l, m, [x]) && Delivered(m)
  {
    var k := GainsWindow(l);
    ReadsOne(k, x);
    var n := Step(k, true, Read(ReadBytes([x])));
    OnwardJoin(l, k, n, [], [x]);
    m := Drains(n);
    OnwardJoin(l, n, m, [] + [x], []);
    assert [] + [x] + [] == [x];
  }

  lemma {:induction false} ManyMore(l: Link, x: seq<byte>) returns (m: Link)
    requires Idle(l) && l.b.chan.localWindowMax >= 2 && l.a.chan.remoteMaxpacket > 0
    ensures Onward(l, m, x) && Delivered(m)
    decreases |x|
  {
    if x == [] {
      StaysPut(l);
      m := l;
    } else {
      var front, last := x[..|x| - 1], [x[|x| - 1]];
      assert front + last == x;
      var k := ManyMore(l, front);
      StaysIdle(l, k, front);
      m := OneMore(k, last[0]);
      OnwardJoin(l, k, m, front, last);
    }
  }

  lemma StaysPut(l: Link)
    requires Idle(l)
    ensures Onward(l, l, [])
  {
    LeadsNowhere(l);
  }

  lemma StaysIdle(l: Link, m: Link, x: seq<byte>)
    requires Idle(l) && Onward(l, m, x) && Delivered(m)
    ensures Idle(m) && m.b.chan.localWindowMax == l.b.chan.localWindowMax
    ensures m.a.chan.remoteMaxpacket == l.a.chan.remoteMaxpacket
  {
  }

  /** The channel never jams: while a's input side is open and no write of b has failed, any
      further bytes, however many windows long, can still be read, sent and written out. */
  lemma NeverJams(l: Link, x: seq<byte>)
    requires Reached(l) && !l.b.failed && l.a.chan.istate == InputOpen
    requires l.a.chan.remoteMaxpacket > 0 && l.b.chan.localWindowMax >= 2
    ensures exists m :: Leads(l, m) && m.b.writtenLog == m.a.readLog == l.a.readLog + x && !m.b.failed
  {
    ReachedInv(l);
    var k := Drains(l);
    var m := ManyMore(k, x);
    OnwardJoin(l, k, m, [], x);
    assert [] + x == x;
    DeliveredIs(m);
  }

  // ----- exactly which terms allow that

  /** b has given no credit beyond its first window, and never will: that window is a single
      byte at most, or no packet may carry data. */
  ghost predicate Dry(l: Link)
  {
    && Inv(l) && |l.b.rcvdLog| + l.b.chan.localWindow == l.b.chan.localWindowMax
    && if l.b.chan.localMaxpacket == 0 then l.b.rcvdLog == [] else l.b.chan.localWindowMax <= 1
  }

  lemma DryOwesNothing(l: Link)
    requires Dry(l)
    ensures !OwesCredit(l.b.chan)
  {
    var c := l.b.chan;
    if c.localMaxpacket > 0 { ThreeTimes(c.localMaxpacket); }
  }

  lemma ThreeTimes(x: word)
    requires x > 0
    ensures U32(x * 3) >= 1
  {
  }

  lemma NoCreditSent(h: Host, inbox: seq<Msg>, a: Action)
    requires a.Review? ==> !OwesCredit(h.chan)
    requires |h.chan.input| <= h.chan.remoteWindow
    ensures Credit(Act(h, inbox, a).sent) == 0
  {
    match a
    case Poll => PollEffect(h.chan);
    case Receive =>
      if inbox != [] {
        if inbox[0].Data? || inbox[0].Adjust? { DataKeepsStates(h.chan, inbox[0]); }
        else { ControlEffect(h.chan, inbox[0]); }
      }
    case Write(w) => Single(Eow);
    case Gc => Single(Close);
    case _ =>
  }

  lemma StepDry(l: Link, left: bool, a: Action)
    requires Dry(l)
    ensures Dry(Step(l, left, a)) && Step(l, left, a).b.chan.localWindowMax == l.b.chan.localWindowMax
  {
    StepKeeps(l, left, a);
    if !left {
      DryOwesNothing(l);
      InboxExpected(Swap(l));
      EveryTurn(l.b, l.ab, a);
      TurnKeepsLost(l.b, l.ab, a);
      NoCreditSent(l.b, l.ab, a);
      DryTurn(l, Act(l.b, l.ab, a), if a.Read? && l.b.live then Taken(l.b.chan, a.r) else []);
    }
  }

  lemma DryTurn(l: Link, t: Turn, x: seq<byte>)
    requires Dry(l) && Sound(l.b, l.ab, t, x) && Credit(t.sent) == 0
    requires t.host.chan.localWindowMax == l.b.chan.localWindowMax
    ensures |t.host.rcvdLog| + t.host.chan.localWindow == t.host.chan.localWindowMax
    ensures l.b.chan.localMaxpacket == 0 ==> t.host.rcvdLog == []
  {
    if l.b.chan.localMaxpacket == 0 { EmptyPackets(l.ab); }
  }

  lemma {:induction false} EmptyPackets(q: seq<Msg>)
    requires forall m :: m in q && m.Data? ==> m.bytes == []
    ensures Bytes(q) == []
  {
    if q != [] { assert q[0] in q; EmptyPackets(q[1..]); }
  }

  lemma {:induction false} RunDry(l: Link, steps: seq<(bool, Action)>)
    requires Dry(l)
    ensures Dry(Run(l, steps)) && Run(l, steps).b.chan.localWindowMax == l.b.chan.localWindowMax
  {
    if steps != [] {
      RunDry(l, steps[..|steps| - 1]);
      StepDry(Run(l, steps[..|steps| - 1]), steps[|steps| - 1].0, steps[|steps| - 1].1);
    }
  }

  ghost predicate CanDeliver(l: Link, x: seq<byte>) { exists m :: Leads(l, m) && m.b.writtenLog == x }

  /** A window of one byte is never given back, and packets without data carry none: no run
      writes out two bytes. */
  lemma TwoBytesJam(x: Terms, y: Terms, bytes: seq<byte>)
    requires x.window <= BUFFER_MAX && (y.window <= 1 || (y.maxpack == 0 && y.window <= BUFFER_MAX)) && |bytes| >= 2
    ensures !CanDeliver(Opened(x, y), bytes)
  {
    var l := Opened(x, y);
    OpenedInv(x, y);
    assert Dry(l);
    forall m | Leads(l, m) ensures m.b.writtenLog != bytes {
      var steps :| m == Run(l, steps);
      RunDry(l, steps);
    }
  }

  /** Two freshly opened ends can carry any stream from a to b exactly when b's window is at
      least two bytes and its packets may hold data. */
  lemma NeverJamsIff(x: Terms, y: Terms)
    requires x.window <= BUFFER_MAX && y.window <= BUFFER_MAX
    ensures (forall bytes :: CanDeliver(Opened(x, y), bytes)) <==> y.window >= 2 && y.maxpack > 0
  {
    var l := Opened(x, y);
    assert Run(l, []) == l && Reached(l);
    if y.window >= 2 && y.maxpack > 0 {
      forall bytes ensures CanDeliver(l, bytes) {
        NeverJams(l, bytes);
        assert [] + bytes == bytes;
      }
    } else {
      TwoBytesJam(x, y, [0, 0]);
    }
  }
}
