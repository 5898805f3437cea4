/**
 * The first, thread-based client and listener (src/main.rs), which use the
 * older `websocket` crate: a message is an opcode plus raw payload bytes, and
 * text payloads are decoded as UTF-8 when they are printed.
 */
module Legacy {
  import opened Wrappers
  import opened Utf8
  import opened Messages
  import opened Loop

  datatype Opcode = TextOp | BinaryOp | CloseOp | PingOp | PongOp

  /** A message of the older crate: opcode and payload bytes. */
  datatype Frame = Frame(opcode: Opcode, payload: bytes)

  /** `Message::close()`: a close frame with an empty payload. */
  const CloseFrameOut := Frame(CloseOp, [])

  /** The payload of a ping frame. */
  function FramePing(f: Frame): Option<bytes>
  {
    if f.opcode == PingOp then Some(f.payload) else None
  }

  /** `Message::pong(p)`. */
  function FramePong(p: bytes): Frame
  {
    Frame(PongOp, p)
  }

  // ---------------------------------------------------------------- client

  /** How the old receive thread ends: a read error breaks its loop; invalid UTF-8 in a text message panics it. */
  datatype ReceiveEnd = Stopped | Panicked

  /** The old client's receive thread, one read: `shown` is what it writes to the terminal. */
  function ReceiveReact(x: Incoming<Frame>): (r: Reaction<Frame, ReceiveEnd>)
    ensures r.reply.Some? <==> x.Received? && x.msg.opcode == PingOp
    ensures r.reply.Some? ==> r.reply.value == Frame(PongOp, x.msg.payload)
    ensures r.halt.None? <==> r.shown.Some?
    ensures x.ReadFailed? ==> r == Reaction(None, None, Some(Stopped))
    ensures x.Received? && x.msg.opcode == PingOp ==> r.shown == Some("Ping!\n")
    ensures x.Received? && x.msg.opcode == TextOp ==>
      (r.halt.None? <==> Decode(x.msg.payload).Some?) &&
      (r.halt.None? ==> r.shown == Some("<< " + Decode(x.msg.payload).value + "\n"))
    // binary, close and pong are all reported the same way, and none of them ends the thread
    ensures x.Received? && x.msg.opcode in {BinaryOp, CloseOp, PongOp} ==>
      r == Reaction(None, Some("Other type of ws message"), None)
  {
    match x
    case ReadFailed(_) => Reaction(None, None, Some(Stopped))
    case Received(Frame(opcode, payload)) =>
      match opcode
      case PingOp => Reaction(Some(Frame(PongOp, payload)), Some("Ping!\n"), None)
      case TextOp =>
        (match Decode(payload)
         case Some(s) => Reaction(None, Some("<< " + s + "\n"), None)
         case None => Reaction(None, None, Some(Panicked)))
      case _ => Reaction(None, Some("Other type of ws message"), None)
  }

  /** A text message is shown as the string whose UTF-8 encoding it is; the thread panics when there is none. */
  lemma TextShownDecoded(x: Incoming<Frame>)
    requires x.Received? && x.msg.opcode == TextOp
    ensures ReceiveReact(x).halt.None? <==> exists s :: Encode(s) == x.msg.payload
    ensures forall s :: Encode(s) == x.msg.payload ==> ReceiveReact(x).shown == Some("<< " + s + "\n")
  {
    DecodeSomeIffEncoding(x.msg.payload);
  }

  lemma {:induction false} ReceiveReplies(xs: seq<Incoming<Frame>>)
    ensures Replies(ReceiveReact, xs) == Pongs(FramePong, PingPayloads(FramePing, xs))
  {
    forall i | 0 <= i < |xs|
      ensures ReceiveReact(xs[i]).reply == PongFor(FramePing, FramePong, xs[i])
    {
    }
    RepliesArePongs(ReceiveReact, FramePing, FramePong, xs);
  }

  lemma {:induction false} ReceiveShownCount(xs: seq<Incoming<Frame>>)
    requires forall i :: 0 <= i < |xs| ==> ReceiveReact(xs[i]).halt.None?
    ensures |Shown(ReceiveReact, xs)| == |xs|
  {
    ShownOnePerRead(ReceiveReact, xs);
  }

  /** The old receive thread over a stream of reads; `halted == None` means the stream ended. */
  function ReceiveLoop(inputs: seq<Incoming<Frame>>): (t: Trace<Frame, ReceiveEnd>)
    ensures t.consumed <= |inputs|
    ensures t.halted.None? ==> t.consumed == |inputs|
    ensures t.halted.Some? ==> 0 < t.consumed
  {
    Run(ReceiveReact, inputs)
  }

  /** Over any stream, the old receive thread queues the pongs for the pings it took, in order, and nothing else. */
  lemma {:induction false} ReceiveLoopReplies(inputs: seq<Incoming<Frame>>)
    ensures ReceiveLoop(inputs).replies == Pongs(FramePong, PingPayloads(FramePing, inputs[..ReceiveLoop(inputs).consumed]))
  {
    RunTrace(ReceiveReact, inputs);
    ReceiveReplies(inputs[..ReceiveLoop(inputs).consumed]);
  }

  /**
   * The old receive thread stops right after a read error or a text message
   * that is not UTF-8, and never otherwise: with no read error and no text it
   * takes every read, closes included.
   */
  lemma ReceiveLoopEnds(inputs: seq<Incoming<Frame>>)
    ensures var t := ReceiveLoop(inputs);
      t.halted == Some(Stopped) <==> 0 < t.consumed <= |inputs| && inputs[t.consumed - 1].ReadFailed?
    ensures var t := ReceiveLoop(inputs);
      t.halted == Some(Panicked) ==>
        && 0 < t.consumed <= |inputs|
        && inputs[t.consumed - 1].Received? && inputs[t.consumed - 1].msg.opcode == TextOp
        && Decode(inputs[t.consumed - 1].msg.payload).None?
    ensures (forall i :: 0 <= i < |inputs| ==> inputs[i].Received? && inputs[i].msg.opcode != TextOp) ==>
      ReceiveLoop(inputs).halted.None? && ReceiveLoop(inputs).consumed == |inputs|
  {
  }

  /** The read that stops the old receive thread writes nothing: one terminal write per read it survived. */
  lemma {:induction false} ReceiveLoopShown(inputs: seq<Incoming<Frame>>)
    ensures |ReceiveLoop(inputs).shown| == ReceiveLoop(inputs).Settled()
  {
    var k := Run(ReceiveReact, inputs).Settled();
    SettledRunning(ReceiveReact, inputs);
    SettledSplit(ReceiveReact, inputs);
    ReceiveShownCount(inputs[..k]);
  }

  // ---------------------------------------------------------------- listener

  /** How an old connection handler ends. */
  datatype HandlerEnd = Disconnected | ClientClosed | HandlerPanicked

  /** The old listener's reaction to one read from the client at `ip`; `shown` is the line it prints. */
  function HandlerReact(ip: string, x: Incoming<Frame>): (r: Reaction<Frame, HandlerEnd>)
    ensures x.Received? && x.msg.opcode == CloseOp ==> r.reply == Some(CloseFrameOut) && r.halt == Some(ClientClosed)
    ensures x.Received? && x.msg.opcode == PingOp ==>
      r.reply == Some(Frame(PongOp, x.msg.payload)) && r.halt.None? && r.shown.None?
    // text, binary and pong are never answered; they stop the handler only when they are not UTF-8
    ensures x.Received? && x.msg.opcode in {TextOp, BinaryOp, PongOp} ==>
      r.reply.None? && (r.halt.None? <==> Decode(x.msg.payload).Some?)
    ensures x.ReadFailed? ==> r == Reaction(None, Some("Disconnecting " + ip), Some(Disconnected))
    ensures r.halt == Some(ClientClosed) <==> x.Received? && x.msg.opcode == CloseOp
  {
    match x
    case ReadFailed(_) => Reaction(None, Some("Disconnecting " + ip), Some(Disconnected))
    case Received(Frame(opcode, payload)) =>
      match opcode
      case CloseOp => Reaction(Some(CloseFrameOut), Some("Client " + ip + " disconnected"), Some(ClientClosed))
      case PingOp => Reaction(Some(Frame(PongOp, payload)), None, None)
      case _ =>
        (match Decode(payload)
         case Some(s) => Reaction(None, Some("<< " + s + " (" + ip + ")"), None)
         case None => Reaction(None, None, Some(HandlerPanicked)))
  }

  /** Text, binary and pong payloads are printed as the string whose UTF-8 encoding they are. */
  lemma HandlerPrintsDecoded(ip: string, x: Incoming<Frame>)
    requires x.Received? && x.msg.opcode in {TextOp, BinaryOp, PongOp}
    ensures (HandlerReact(ip, x).halt.None? <==> exists s :: Encode(s) == x.msg.payload)
    ensures forall s :: Encode(s) == x.msg.payload ==> HandlerReact(ip, x).shown == Some("<< " + s + " (" + ip + ")")
  {
    DecodeSomeIffEncoding(x.msg.payload);
  }

  /** The reaction of the handler serving the client at `ip`. */
  function ReactionFor(ip: string): Incoming<Frame> -> Reaction<Frame, HandlerEnd>
  {
    x => HandlerReact(ip, x)
  }

  lemma {:induction false} HandlerReplies(ip: string, xs: seq<Incoming<Frame>>)
    requires forall i :: 0 <= i < |xs| ==> ReactionFor(ip)(xs[i]).halt.None?
    ensures Replies(ReactionFor(ip), xs) == Pongs(FramePong, PingPayloads(FramePing, xs))
  {
    forall i | 0 <= i < |xs|
      ensures ReactionFor(ip)(xs[i]).reply == PongFor(FramePing, FramePong, xs[i])
    {
      assert ReactionFor(ip)(xs[i]) == HandlerReact(ip, xs[i]);
    }
    RepliesArePongs(ReactionFor(ip), FramePing, FramePong, xs);
  }

  /** The old per-connection handler over a stream of reads (`halted == None`: it waits for more). */
  function HandlerLoop(ip: string, inputs: seq<Incoming<Frame>>): (t: Trace<Frame, HandlerEnd>)
    ensures t.consumed <= |inputs|
    ensures t.halted.None? ==> t.consumed == |inputs|
    ensures t.halted.Some? ==> 0 < t.consumed
  {
    Run(ReactionFor(ip), inputs)
  }

  /**
   * The old handler writes the pongs for the pings it took, in order, then one
   * close frame if the client closed, and nothing else.
   */
  lemma {:induction false} HandlerLoopReplies(ip: string, inputs: seq<Incoming<Frame>>)
    ensures var t := HandlerLoop(ip, inputs);
      && 0 <= t.Settled()
      && t.replies ==
        Pongs(FramePong, PingPayloads(FramePing, inputs[..t.Settled()])) + (if t.halted == Some(ClientClosed) then [CloseFrameOut] else [])
  {
    var react := ReactionFor(ip);
    var t := Run(react, inputs);
    var k := t.Settled();
    SettledRunning(react, inputs);
    SettledSplit(react, inputs);
    HandlerReplies(ip, inputs[..k]);
    if t.halted.Some? {
      assert react(inputs[k]) == HandlerReact(ip, inputs[k]);
    }
  }

  /** The old handler stops exactly on the first close (client closed) or read error (disconnected). */
  lemma HandlerLoopEnds(ip: string, inputs: seq<Incoming<Frame>>)
    ensures var t := HandlerLoop(ip, inputs);
      t.halted == Some(ClientClosed) <==>
        0 < t.consumed <= |inputs| && inputs[t.consumed - 1].Received? && inputs[t.consumed - 1].msg.opcode == CloseOp
    ensures var t := HandlerLoop(ip, inputs);
      t.halted == Some(Disconnected) <==> 0 < t.consumed <= |inputs| && inputs[t.consumed - 1].ReadFailed?
  {
  }
}
