/** The WebSocket messages the async client and the listener exchange (tungstenite's `Message`). */
module Messages {
  import opened Wrappers
  import opened Utf8

  /** A close frame's status code and reason. */
  datatype CloseFrame = CloseFrame(code: nat, reason: string)

  datatype Message =
    | Text(text: string)
    | Binary(data: bytes)
    | Ping(ping: bytes)
    | Pong(pong: bytes)
    | Close(frame: Option<CloseFrame>)

  /** One read from the peer: a message, or a read error with its description. */
  datatype Incoming<M> = Received(msg: M) | ReadFailed(detail: string)

  /**
   * The payloads of the pings among `xs`, in arrival order; `ping` gives a
   * message's payload when it is a ping.
   */
  function PingPayloads<M>(ping: M -> Option<bytes>, xs: seq<Incoming<M>>): (ps: seq<bytes>)
    ensures |ps| <= |xs|
  {
    if |xs| == 0 then []
    else
      var head := if xs[0].Received? && ping(xs[0].msg).Some? then [ping(xs[0].msg).value] else [];
      head + PingPayloads(ping, xs[1..])
  }

  /** A pong per payload, in the same order, built by `pong`. */
  function Pongs<M>(pong: bytes -> M, ps: seq<bytes>): (ms: seq<M>)
    ensures |ms| == |ps|
    ensures forall i :: 0 <= i < |ps| ==> ms[i] == pong(ps[i])
  {
    if |ps| == 0 then [] else [pong(ps[0])] + Pongs(pong, ps[1..])
  }

  /** The reply a read calls for under the ping rule: the pong for a ping's payload, and nothing for anything else. */
  function PongFor<M>(ping: M -> Option<bytes>, pong: bytes -> M, x: Incoming<M>): Option<M>
  {
    if x.Received? && ping(x.msg).Some? then Some(pong(ping(x.msg).value)) else None
  }

  /** The payload of a ping message. */
  function MessagePing(m: Message): Option<bytes>
  {
    if m.Ping? then Some(m.ping) else None
  }

  /** The pong answering a ping payload. */
  function MessagePong(p: bytes): Message
  {
    Pong(p)
  }
}
