/**
 * The listener's per-connection handler (src/server.rs): it answers pings
 * and close frames on the same connection, logs text, ignores pongs and
 * binary, and stops on a close frame or a read error.
 */
module Server {
  import opened Wrappers
  import opened Messages
  import opened Loop

  /** Why a handler stopped: a read error, or the client closed the connection. */
  datatype ServerEnd = Disconnected | ClientClosed

  /** The handler's reaction to one read; `shown` is the line it logs. */
  function ServerReact(x: Incoming<Message>): (r: Reaction<Message, ServerEnd>)
    // a close is answered with exactly one `Close(None)` and stops the handler
    ensures x.Received? && x.msg.Close? ==> r.reply == Some(Close(None)) && r.halt == Some(ClientClosed)
    // a ping is answered with a pong carrying the same bytes, and the handler goes on
    ensures x.Received? && x.msg.Ping? ==> r.reply == Some(Pong(x.msg.ping)) && r.halt.None? && r.shown.None?
    // pongs and binary messages change nothing
    ensures x.Received? && (x.msg.Pong? || x.msg.Binary?) ==> r == Reaction(None, None, None)
    // text is logged and not answered
    ensures x.Received? && x.msg.Text? ==> r.reply.None? && r.halt.None? && r.shown == Some("<< " + x.msg.text + " (ip)")
    // a read error stops the handler without writing anything
    ensures x.ReadFailed? ==> r.reply.None? && r.halt == Some(Disconnected)
    ensures r.halt == Some(ClientClosed) <==> x.Received? && x.msg.Close?
    ensures r.halt == Some(Disconnected) <==> x.ReadFailed?
  {
    match x
    case ReadFailed(_) => Reaction(None, Some("Disconnecting ws"), Some(Disconnected))
    case Received(m) =>
      match m
      case Close(_) => Reaction(Some(Close(None)), Some("Client disconnected"), Some(ClientClosed))
      case Ping(payload) => Reaction(Some(Pong(payload)), None, None)
      case Pong(_) => Reaction(None, None, None)
      case Binary(_) => Reaction(None, None, None)
      case Text(payload) => Reaction(None, Some("<< " + payload + " (ip)"), None)
  }

  /** Up to the first close, the handler writes one pong per ping, in arrival order, and nothing else. */
  lemma {:induction false} ServerReplies(xs: seq<Incoming<Message>>)
    requires forall i :: 0 <= i < |xs| ==> ServerReact(xs[i]).halt.None?
    ensures Replies(ServerReact, xs) == Pongs(MessagePong, PingPayloads(MessagePing, xs))
  {
    forall i | 0 <= i < |xs|
      ensures ServerReact(xs[i]).reply == PongFor(MessagePing, MessagePong, xs[i])
    {
    }
    RepliesArePongs(ServerReact, MessagePing, MessagePong, xs);
  }

  /** The handler over a sequence of reads (`halted == None`: it took them all and waits for more). */
  function Handler(inputs: seq<Incoming<Message>>): (t: Trace<Message, ServerEnd>)
    ensures t.consumed <= |inputs|
    ensures t.halted.None? ==> t.consumed == |inputs|
    ensures t.halted.Some? ==> 0 < t.consumed
  {
    Run(ServerReact, inputs)
  }

  /**
   * The handler stops exactly on the first close (client closed) or read
   * error (disconnected); while neither arrives it takes every read.
   */
  lemma HandlerEnds(inputs: seq<Incoming<Message>>)
    ensures var t := Handler(inputs);
      t.halted == Some(ClientClosed) <==>
        0 < t.consumed <= |inputs| && inputs[t.consumed - 1].Received? && inputs[t.consumed - 1].msg.Close?
    ensures var t := Handler(inputs);
      t.halted == Some(Disconnected) <==> 0 < t.consumed <= |inputs| && inputs[t.consumed - 1].ReadFailed?
    ensures var t := Handler(inputs);
      t.halted.None? ==>
        && t.consumed == |inputs|
        && forall i :: 0 <= i < |inputs| ==> inputs[i].Received? && !inputs[i].msg.Close?
  {
  }

  /**
   * The handler writes the pongs for the pings it took, in order, then
   * `Close(None)` if the client closed, and nothing else.
   */
  lemma {:induction false} HandlerRepliesSplit(inputs: seq<Incoming<Message>>)
    ensures var t := Handler(inputs);
      && 0 <= t.Settled()
      && t.replies ==
        Pongs(MessagePong, PingPayloads(MessagePing, inputs[..t.Settled()])) + (if t.halted == Some(ClientClosed) then [Close(None)] else [])
  {
    var k := Run(ServerReact, inputs).Settled();
    SettledRunning(ServerReact, inputs);
    SettledSplit(ServerReact, inputs);
    ServerReplies(inputs[..k]);
  }
}
