/** One endpoint of a plain stream channel: windows, buffers and half-close states.

`Chan` is the value of the fields that the handlers of channels.c and nchan.c read and
write; each handler is given as a function from a `Chan` (and what the environment
returned) to an `Effect`.  The class `Channel` at the end performs the same handlers by
updating its fields in place.
*/
module ChannelIo {
  import opened Bits

  const RBUF := 16 * 1024
  const MAX_READ := 32 * 1024
  const INPUT_MAX := 16 * 1024 * 1024
  const BUFFER_MAX := 0x800_0000

  /** What C's `u_int` arithmetic keeps of a result. */
  function U32(x: int): word { x % 0x1_0000_0000 }

  function Min(a: nat, b: nat): nat { if a <= b then a else b }

  datatype IState = InputOpen | InputWaitDrain | InputClosed
  datatype OState = OutputOpen | OutputWaitDrain | OutputClosed

  datatype Msg = Data(bytes: seq<byte>) | Adjust(credit: word) | Eof | Eow | Close

  /** The branches in which an endpoint complains about its peer. */
  datatype Alarm =
    | Quiet
    | BigPacket            // packet above local_maxpacket, dropped
    | WindowExceeded       // more data than the window, tolerated
    | PeerIgnoredWindow    // more than a tenth above the window, disconnected
    | BufferFull           // output buffer limit, fatal
    | AdjustOverflow       // window adjust beyond 32 bits, fatal
    | NoSuchChannel        // packet for a channel that is gone, disconnected

  /** What a read or a write on the channel's descriptor may return. */
  datatype ReadResult = ReadAgain | ReadError | ReadBytes(bytes: seq<byte>)
  datatype WriteResult = WriteAgain | WriteError | WroteUpTo(n: nat)

  datatype Chan = Chan(
    istate: IState, ostate: OState,
    closeSent: bool, closeRcvd: bool, eofSent: bool, eofRcvd: bool,
    sendsEow: bool,
    input: seq<byte>, output: seq<byte>,
    remoteWindow: word, remoteMaxpacket: word,
    localWindow: word, localWindowExceeded: word, localWindowMax: word,
    localConsumed: word, localMaxpacket: word)

  datatype Effect = Effect(chan: Chan, sent: seq<Msg>, alarm: Alarm)

  function Silent(c: Chan): Effect { Effect(c, [], Quiet) }

  // ----- reading from and writing to the descriptors

  predicate WantsRead(c: Chan)
  {
    && c.istate == InputOpen && c.remoteWindow > 0
    && |c.input| < c.remoteWindow && |c.input| + RBUF <= INPUT_MAX
  }

  predicate WantsWrite(c: Chan) { c.ostate != OutputClosed && |c.output| > 0 }

  function ReadFailed(c: Chan): Chan
  {
    if c.istate == InputOpen then c.(istate := InputWaitDrain) else c
  }

  /** How many bytes one read may add to the input buffer. */
  function ReadRoom(c: Chan): nat
  {
    if |c.input| >= INPUT_MAX || |c.input| >= c.remoteWindow then 0
    else Min(Min(MAX_READ, c.remoteWindow - |c.input|), INPUT_MAX - |c.input|)
  }

  /** The bytes one read moves into the input buffer. */
  function Taken(c: Chan, r: ReadResult): seq<byte>
  {
    if WantsRead(c) && r.ReadBytes? then r.bytes[..Min(|r.bytes|, ReadRoom(c))] else []
  }

  function HandleRfd(c: Chan, r: ReadResult): Effect
  {
    if !WantsRead(c) || ReadRoom(c) == 0 then Silent(c)
    else match r
      case ReadAgain => Silent(c)
      case ReadError => Silent(ReadFailed(c))
      case ReadBytes(bytes) =>
        if bytes == [] then Silent(ReadFailed(c))
        else Silent(c.(input := c.input + Taken(c, r)))
  }

  predicate WriteFails(c: Chan, w: WriteResult)
  {
    WantsWrite(c) && (w.WriteError? || w == WroteUpTo(0))
  }

  /** The bytes one write moves out of the output buffer. */
  function Written(c: Chan, w: WriteResult): seq<byte>
  {
    if WantsWrite(c) && w.WroteUpTo? then c.output[..Min(w.n, |c.output|)] else []
  }

  function ShutdownWrite(c: Chan): Chan { c.(output := [], ostate := OutputClosed) }

  function HandleWfd(c: Chan, w: WriteResult): Effect
  {
    if !WantsWrite(c) || w.WriteAgain? then Silent(c)
    else if WriteFails(c, w) then Effect(ShutdownWrite(c), if c.sendsEow then [Eow] else [], Quiet)
    else
      var n := |Written(c, w)|;
      Silent(c.(output := c.output[n..], localConsumed := U32(c.localConsumed + n)))
  }

  /** The part of channel_pre_open that ends a drained output side. */
  function PreOpen(c: Chan): Effect
  {
    if c.ostate == OutputWaitDrain && c.output == [] then Silent(ShutdownWrite(c)) else Silent(c)
  }

  // ----- window bookkeeping and sending

  predicate OwesCredit(c: Chan)
  {
    && !c.closeSent && !c.closeRcvd && c.localConsumed > 0
    && (U32(c.localWindowMax - c.localWindow) > U32(c.localMaxpacket * 3)
        || c.localWindow < c.localWindowMax / 2)
  }

  function CheckWindow(c: Chan): Effect
  {
    if OwesCredit(c) then
      Effect(c.(localWindow := U32(c.localWindow + c.localConsumed), localConsumed := 0),
             [Adjust(c.localConsumed)], Quiet)
    else Silent(c)
  }

  function SendEof(c: Chan): Effect
    requires c.istate == InputWaitDrain
  {
    Effect(c.(eofSent := true, istate := InputClosed), [Eof], Quiet)
  }

  function OutputPoll(c: Chan): Effect
  {
    if c.closeSent || c.closeRcvd || c.istate == InputClosed then Silent(c)
    else if c.input == [] then
      if c.istate == InputWaitDrain then SendEof(c) else Silent(c)
    else
      var n := Min(Min(|c.input|, c.remoteWindow), c.remoteMaxpacket);
      if n == 0 then Silent(c)
      else Effect(c.(input := c.input[n..], remoteWindow := U32(c.remoteWindow - n)),
                  [Data(c.input[..n])], Quiet)
  }

  // ----- packets from the peer

  function InputData(c: Chan, bytes: seq<byte>): Effect
  {
    var n := |bytes|;
    if c.ostate != OutputOpen then
      Silent(c.(localWindow := U32(c.localWindow - n), localConsumed := U32(c.localConsumed + n)))
    else if n > c.localMaxpacket then Effect(c, [], BigPacket)
    else if n > c.localWindow then
      var exceeded := U32(c.localWindowExceeded + (n - c.localWindow));
      var d := c.(localWindowExceeded := exceeded, localWindow := 0);
      if exceeded > c.localWindowMax / 10 then Effect(d, [], PeerIgnoredWindow)
      else AppendOutput(d, bytes, WindowExceeded)
    else
      AppendOutput(c.(localWindow := U32(c.localWindow - n), localWindowExceeded := 0), bytes, Quiet)
  }

  function AppendOutput(c: Chan, bytes: seq<byte>, alarm: Alarm): Effect
  {
    if |c.output| + |bytes| > BUFFER_MAX then Effect(c, [], BufferFull)
    else Effect(c.(output := c.output + bytes), [], alarm)
  }

  function InputAdjust(c: Chan, credit: word): Effect
  {
    var w := U32(c.remoteWindow + credit);
    if w < c.remoteWindow then Effect(c, [], AdjustOverflow) else Silent(c.(remoteWindow := w))
  }

  function InputEof(c: Chan): Effect
  {
    var d := c.(eofRcvd := true,
                ostate := if c.ostate == OutputOpen then OutputWaitDrain else c.ostate);
    PreOpen(d)
  }

  function InputEow(c: Chan): Effect
  {
    Silent(if c.istate == InputOpen then c.(istate := InputClosed) else c)
  }

  function InputClose(c: Chan): Effect
  {
    var d := c.(closeRcvd := true,
                ostate := if c.ostate == OutputOpen then OutputWaitDrain else c.ostate);
    match d.istate
    case InputOpen => Silent(d.(istate := InputClosed))
    case InputWaitDrain => SendEof(d)
    case InputClosed => Silent(d)
  }

  function Input(c: Chan, m: Msg): Effect
  {
    match m
    case Data(bytes) => InputData(c, bytes)
    case Adjust(credit) => InputAdjust(c, credit)
    case Eof => InputEof(c)
    case Eow => InputEow(c)
    case Close => InputClose(c)
  }

  /** chan_is_dead with permission to send: both halves closed sends CLOSE. */
  function Collect(c: Chan): Effect
  {
    if c.istate == InputClosed && c.ostate == OutputClosed && !c.closeSent
    then Effect(c.(closeSent := true), [Close], Quiet)
    else Silent(c)
  }

  predicate Dead(c: Chan)
  {
    c.istate == InputClosed && c.ostate == OutputClosed && c.closeSent && c.closeRcvd
  }

  // ----- the handlers as the source performs them

  class Channel {
    var istate: IState
    var ostate: OState
    var closeSent: bool
    var closeRcvd: bool
    var eofSent: bool
    var eofRcvd: bool
    var sendsEow: bool
    var input: seq<byte>
    var output: seq<byte>
    var remoteWindow: word
    var remoteMaxpacket: word
    var localWindow: word
    var localWindowExceeded: word
    var localWindowMax: word
    var localConsumed: word
    var localMaxpacket: word

    ghost function Value(): Chan
      reads this
    {
      Chan(istate, ostate, closeSent, closeRcvd, eofSent, eofRcvd, sendsEow, input, output,
           remoteWindow, remoteMaxpacket, localWindow, localWindowExceeded, localWindowMax,
           localConsumed, localMaxpacket)
    }

    /** A channel of type OPEN whose peer advertised `rwin` and `rmax`. */
    constructor (window: word, maxpack: word, rwin: word, rmax: word, eow: bool)
      ensures Value() == Chan(InputOpen, OutputOpen, false, false, false, false, eow, [], [],
                              rwin, rmax, window, 0, window, 0, maxpack)
    {
      istate, ostate := InputOpen, OutputOpen;
      closeSent, closeRcvd, eofSent, eofRcvd, sendsEow := false, false, false, false, eow;
      input, output := [], [];
      localWindow, localWindowMax, localMaxpacket := window, window, maxpack;
      localWindowExceeded, localConsumed := 0, 0;
      remoteWindow, remoteMaxpacket := rwin, rmax;
    }

    method HandleReadable(r: ReadResult)
      modifies this
      ensures Effect(Value(), [], Quiet) == HandleRfd(old(Value()), r)
      ensures input == old(input) + Taken(old(Value()), r)
      ensures istate == if old(WantsRead(Value())) && (r.ReadError? || r == ReadBytes([])) then InputWaitDrain
                        else old(istate)
      ensures old(|input| <= remoteWindow) ==> |input| <= remoteWindow
      ensures output == old(output) && remoteWindow == old(remoteWindow)
    {
      if !(istate == InputOpen && remoteWindow > 0 && |input| < remoteWindow
           && |input| + RBUF <= INPUT_MAX) { return; }
      var avail := INPUT_MAX - |input|;
      if avail == 0 { return; }
      var have := |input|;
      if have >= remoteWindow { return; }
      var maxlen := MAX_READ;
      if maxlen > remoteWindow - have { maxlen := remoteWindow - have; }
      if maxlen > avail { maxlen := avail; }
      match r {
        case ReadAgain =>
        case ReadError => istate := InputWaitDrain;
        case ReadBytes(bytes) =>
          if bytes == [] {
            istate := InputWaitDrain;
          } else {
            input := input + bytes[..Min(|bytes|, maxlen)];
          }
      }
    }

    method HandleWritable(w: WriteResult) returns (sent: seq<Msg>)
      modifies this
      ensures Effect(Value(), sent, Quiet) == HandleWfd(old(Value()), w)
      ensures !WriteFails(old(Value()), w) && old(localConsumed + |output|) <= BUFFER_MAX ==>
              Written(old(Value()), w) + output == old(output) &&
              localConsumed + |output| == old(localConsumed + |output|)
    {
      sent := [];
      if ostate == OutputClosed || |output| == 0 { return; }
      var olen := |output|;
      match w {
        case WriteAgain =>
        case WriteError => sent := WriteFailed();
        case WroteUpTo(n) =>
          if n == 0 {
            sent := WriteFailed();
          } else {
            output := output[Min(n, |output|)..];
            localConsumed := U32(localConsumed + (olen - |output|));
          }
      }
    }

    method WriteFailed() returns (sent: seq<Msg>)
      requires ostate != OutputClosed
      modifies this
      ensures Value() == ShutdownWrite(old(Value()))
      ensures sent == if old(sendsEow) then [Eow] else []
    {
      output := [];
      sent := if sendsEow then [Eow] else [];
      ostate := OutputClosed;
    }

    method ReviewWindow() returns (sent: seq<Msg>)
      modifies this
      ensures Effect(Value(), sent, Quiet) == CheckWindow(old(Value()))
      ensures !OwesCredit(Value())
      ensures old(localWindow + localConsumed) < 0x1_0000_0000 ==>
              localWindow + localConsumed == old(localWindow + localConsumed)
    {
      sent := [];
      if !(closeSent || closeRcvd)
         && (U32(localWindowMax - localWindow) > U32(localMaxpacket * 3)
             || localWindow < localWindowMax / 2)
         && localConsumed > 0
      {
        sent := [Adjust(localConsumed)];
        localWindow := U32(localWindow + localConsumed);
        localConsumed := 0;
      }
    }

    method PollInput() returns (sent: seq<Msg>)
      modifies this
      ensures Effect(Value(), sent, Quiet) == OutputPoll(old(Value()))
      ensures old(|input| <= remoteWindow) ==>
              if sent != [] && sent[0].Data?
              then |sent| == 1 && sent[0].bytes + input == old(input) && |sent[0].bytes| <= remoteMaxpacket &&
                   |sent[0].bytes| + remoteWindow == old(remoteWindow)
              else input == old(input) && remoteWindow == old(remoteWindow)
    {
      sent := [];
      if closeSent || closeRcvd { return; }
      if istate == InputClosed { return; }
      var len := |input|;
      if len == 0 {
        if istate == InputWaitDrain {
          eofSent, istate, sent := true, InputClosed, [Eof];
        }
        return;
      }
      if len > remoteWindow { len := remoteWindow; }
      if len > remoteMaxpacket { len := remoteMaxpacket; }
      if len == 0 { return; }
      sent := [Data(input[..len])];
      input := input[len..];
      remoteWindow := U32(remoteWindow - len);
    }

    method ReceiveData(bytes: seq<byte>) returns (alarm: Alarm)
      modifies this
      ensures Effect(Value(), [], alarm) == InputData(old(Value()), bytes)
      ensures |bytes| <= old(localWindow) && |bytes| <= localMaxpacket &&
              old(localWindow + localConsumed + |output|) <= BUFFER_MAX ==>
              && alarm == Quiet && localWindow + |bytes| == old(localWindow)
              && (if ostate == OutputOpen
                  then output == old(output) + bytes && localConsumed == old(localConsumed)
                  else output == old(output) && localConsumed == old(localConsumed) + |bytes|)
    {
      var winLen := |bytes|;
      alarm := Quiet;
      if ostate != OutputOpen {
        localWindow := U32(localWindow - winLen);
        localConsumed := U32(localConsumed + winLen);
        return;
      }
      if winLen > localMaxpacket { return BigPacket; }
      if winLen > localWindow {
        localWindowExceeded := U32(localWindowExceeded + (winLen - localWindow));
        alarm := WindowExceeded;
        localWindow := 0;
        if localWindowExceeded > localWindowMax / 10 { return PeerIgnoredWindow; }
      } else {
        localWindow := U32(localWindow - winLen);
        localWindowExceeded := 0;
      }
      if |output| + |bytes| > BUFFER_MAX { return BufferFull; }
      output := output + bytes;
    }

    method ReceiveAdjust(credit: word) returns (alarm: Alarm)
      modifies this
      ensures Effect(Value(), [], alarm) == InputAdjust(old(Value()), credit)
      ensures alarm == Quiet <==> old(remoteWindow) + credit < 0x1_0000_0000
      ensures alarm == Quiet ==> remoteWindow == old(remoteWindow) + credit
    {
      var newRwin := U32(remoteWindow + credit);
      if newRwin < remoteWindow { return AdjustOverflow; }
      remoteWindow := newRwin;
      alarm := Quiet;
    }

    method DrainedOutput()
      modifies this
      ensures Effect(Value(), [], Quiet) == PreOpen(old(Value()))
      ensures output == old(output) && !(ostate == OutputWaitDrain && output == [])
    {
      if ostate == OutputWaitDrain && |output| == 0 {
        output := [];
        ostate := OutputClosed;
      }
    }

    method ReceiveEof()
      modifies this
      ensures Effect(Value(), [], Quiet) == InputEof(old(Value()))
      ensures eofRcvd && ostate != OutputOpen && output == old(output)
      ensures output == [] ==> ostate == OutputClosed
    {
      eofRcvd := true;
      if ostate == OutputOpen { ostate := OutputWaitDrain; }
      DrainedOutput();
    }

    method ReceiveEow()
      modifies this
      ensures Effect(Value(), [], Quiet) == InputEow(old(Value()))
      ensures istate != InputOpen && input == old(input)
    {
      if istate == InputOpen { istate := InputClosed; }
    }

    method ReceiveClose() returns (sent: seq<Msg>)
      modifies this
      ensures Effect(Value(), sent, Quiet) == InputClose(old(Value()))
      ensures closeRcvd && istate == InputClosed && ostate != OutputOpen && output == old(output)
      ensures Eof in sent <==> old(istate) == InputWaitDrain
    {
      sent := [];
      closeRcvd := true;
      if ostate == OutputOpen { ostate := OutputWaitDrain; }
      if istate == InputOpen {
        istate := InputClosed;
      } else if istate == InputWaitDrain {
        eofSent, sent := true, [Eof];
        istate := InputClosed;
      }
    }

    method GarbageCollect() returns (sent: seq<Msg>, dead: bool)
      modifies this
      ensures Effect(Value(), sent, Quiet) == Collect(old(Value()))
      ensures sent == if istate == InputClosed && ostate == OutputClosed && !old(closeSent) then [Close] else []
      ensures dead == Dead(Value())
    {
      sent := [];
      if istate != InputClosed || ostate != OutputClosed { return sent, false; }
      if !closeSent {
        sent, closeSent := [Close], true;
      }
      dead := closeSent && closeRcvd;
    }
  }
}
