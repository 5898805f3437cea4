/**
 * The async client's read task (src/client.rs): each message read from the
 * server may queue a pong for the write task, queues one line for the
 * stdout thread, or ends the process. The stdout thread prints the text and
 * binary messages it is handed and skips the rest.
 */
module Client {
  import opened Wrappers
  import opened Utf8
  import opened Messages
  import opened Loop

  /** How the read task ends the program: `process::exit` with a code and the notice printed before it, or a panic. */
  datatype ClientEnd = Exited(code: int, notice: string) | Panicked(reason: string)

  const CloseNotice := "Connection Closed: Close message received"

  /** The reaction of the read task to one read. */
  function ClientReact(x: Incoming<Message>): (r: Reaction<Message, ClientEnd>)
    // only a ping is answered, and with a pong carrying the same bytes
    ensures r.reply.Some? <==> x.Received? && x.msg.Ping?
    ensures r.reply.Some? ==> r.reply.value == Pong(x.msg.ping)
    // a read that does not end the read task queues exactly one display line; one that ends it queues none
    ensures r.halt.None? <==> r.shown.Some?
    ensures x.ReadFailed? ==> r.halt == Some(Exited(1, "Connection Closed: " + x.detail))
    ensures x.Received? && x.msg.Close? ==> r.halt == Some(Exited(0, CloseNotice))
    ensures x.Received? && x.msg.Ping? ==> r.shown == Some("Ping!\n")
    ensures x.Received? && x.msg.Text? ==> r.shown == Some("<< " + x.msg.text + "\n")
    // a binary message is shown decoded, or the read task panics
    ensures x.Received? && x.msg.Binary? ==>
      (r.halt.None? <==> Decode(x.msg.data).Some?) &&
      (r.halt.None? ==> r.shown == Some("<< " + Decode(x.msg.data).value + "\n"))
    ensures x.Received? && x.msg.Pong? ==> r.shown == Some("Unsupported ws message")
    ensures r.halt.Some? && r.halt.value.Panicked? ==> x.Received? && x.msg.Binary?
  {
    match x
    case ReadFailed(detail) => Reaction(None, None, Some(Exited(1, "Connection Closed: " + detail)))
    case Received(m) =>
      match m
      case Ping(payload) => Reaction(Some(Pong(payload)), Some("Ping!\n"), None)
      case Text(payload) => Reaction(None, Some("<< " + payload + "\n"), None)
      case Binary(payload) =>
        (match Decode(payload)
         case Some(s) => Reaction(None, Some("<< " + s + "\n"), None)
         case None => Reaction(None, None, Some(Panicked("invalid utf-8"))))
      case Close(_) => Reaction(None, None, Some(Exited(0, CloseNotice)))
      case Pong(_) => Reaction(None, Some("Unsupported ws message"), None)
  }

  /** A binary message is shown as the string whose UTF-8 encoding it is; the read task panics when there is none. */
  lemma BinaryShownDecoded(x: Incoming<Message>)
    requires x.Received? && x.msg.Binary?
    ensures ClientReact(x).halt.None? <==> exists s :: Encode(s) == x.msg.data
    ensures forall s :: Encode(s) == x.msg.data ==> ClientReact(x).shown == Some("<< " + s + "\n")
  {
    DecodeSomeIffEncoding(x.msg.data);
  }

  /** The read task writes back exactly one pong per ping, in arrival order. */
  lemma {:induction false} ClientReplies(xs: seq<Incoming<Message>>)
    ensures Replies(ClientReact, xs) == Pongs(MessagePong, PingPayloads(MessagePing, xs))
  {
    forall i | 0 <= i < |xs|
      ensures ClientReact(xs[i]).reply == PongFor(MessagePing, MessagePong, xs[i])
    {
    }
    RepliesArePongs(ClientReact, MessagePing, MessagePong, xs);
  }

  /** Reads that leave the read task running each queue one display line. */
  lemma {:induction false} ClientShownCount(xs: seq<Incoming<Message>>)
    requires forall i :: 0 <= i < |xs| ==> ClientReact(xs[i]).halt.None?
    ensures |Shown(ClientReact, xs)| == |xs|
  {
    ShownOnePerRead(ClientReact, xs);
  }

  /** The read task over a stream of reads; `halted == None` means the stream ended. */
  function ReadLoop(inputs: seq<Incoming<Message>>): (t: Trace<Message, ClientEnd>)
    ensures t.consumed <= |inputs|
    ensures t.halted.None? ==> t.consumed == |inputs|
    ensures t.halted.Some? ==> 0 < t.consumed
  {
    Run(ClientReact, inputs)
  }

  /** Over any stream, the read task hands the write task the pongs for the pings it took, in order, and nothing else. */
  lemma {:induction false} ReadLoopReplies(inputs: seq<Incoming<Message>>)
    ensures ReadLoop(inputs).replies == Pongs(MessagePong, PingPayloads(MessagePing, inputs[..ReadLoop(inputs).consumed]))
  {
    RunTrace(ClientReact, inputs);
    ClientReplies(inputs[..ReadLoop(inputs).consumed]);
  }

  /**
   * The read task ends the stream only if no read failed and no close came;
   * it exits 0 right after a close, 1 right after a read error, and panics
   * right after a binary message that is not UTF-8.
   */
  lemma ReadLoopEnds(inputs: seq<Incoming<Message>>)
    ensures var t := ReadLoop(inputs);
      t.halted.None? ==>
        && t.consumed == |inputs|
        && forall i :: 0 <= i < |inputs| ==> inputs[i].Received? && !inputs[i].msg.Close?
    ensures var t := ReadLoop(inputs);
      t.halted.Some? ==>
        && 0 < t.consumed <= |inputs|
        && match t.halted.value
           case Exited(code, _) =>
             (code == 0 && inputs[t.consumed - 1].Received? && inputs[t.consumed - 1].msg.Close?) ||
             (code == 1 && inputs[t.consumed - 1].ReadFailed?)
           case Panicked(_) =>
             inputs[t.consumed - 1].Received? && inputs[t.consumed - 1].msg.Binary? &&
             Decode(inputs[t.consumed - 1].msg.data).None?
  {
  }

  /** The read that ends the read task queues no line: one display line per read that kept it running. */
  lemma {:induction false} ReadLoopShown(inputs: seq<Incoming<Message>>)
    ensures |ReadLoop(inputs).shown| == ReadLoop(inputs).Settled()
  {
    var k := Run(ClientReact, inputs).Settled();
    SettledRunning(ClientReact, inputs);
    SettledSplit(ClientReact, inputs);
    ClientShownCount(inputs[..k]);
  }

  /** The messages the read task hands to the stdout thread: each line as a text message. */
  function ToStdout(lines: seq<string>): (ms: seq<Message>)
    ensures |ms| == |lines|
    ensures forall i :: 0 <= i < |lines| ==> ms[i] == Text(lines[i])
  {
    if |lines| == 0 then [] else [Text(lines[0])] + ToStdout(lines[1..])
  }

  /** What the stdout thread printed, and whether it panicked on a binary message that is not UTF-8. */
  datatype Printout = Printout(lines: seq<string>, panicked: bool)

  /** What the stdout thread does with one message: print a line, skip it, or panic. */
  datatype Rendering = PrintLine(line: string) | Skip | Panic

  /**
   * Text is printed as it is and binary as its UTF-8 decoding, which panics
   * when there is none; every other kind of message is skipped.
   */
  function Render(m: Message): Rendering
  {
    match m
    case Text(s) => PrintLine(s)
    case Binary(b) =>
      (match Decode(b)
       case Some(s) => PrintLine(s)
       case None => Panic)
    case _ => Skip
  }

  /** Prints, in order, the line `render` gives each message, skips the rest, and stops at the first panic. */
  function PrintAll<M>(render: M -> Rendering, ms: seq<M>): (p: Printout)
    ensures |p.lines| <= |ms|
    ensures (forall i :: 0 <= i < |ms| ==> render(ms[i]).Skip?) ==> p == Printout([], false)
  {
    if |ms| == 0 then Printout([], false)
    else
      match render(ms[0])
      case PrintLine(s) =>
        var rest := PrintAll(render, ms[1..]);
        Printout([s] + rest.lines, rest.panicked)
      case Skip => PrintAll(render, ms[1..])
      case Panic => Printout([], true)
  }

  /** Removing a skipped message, anywhere, leaves the printout unchanged. */
  lemma {:induction false} PrintAllSkips<M>(render: M -> Rendering, ms: seq<M>, i: nat)
    requires i < |ms| && render(ms[i]).Skip?
    ensures PrintAll(render, ms[..i] + ms[i + 1..]) == PrintAll(render, ms)
  {
    if i > 0 {
      var rest := ms[1..];
      assert (ms[..i] + ms[i + 1..])[0] == ms[0];
      assert (ms[..i] + ms[i + 1..])[1..] == rest[..i - 1] + rest[i..];
      PrintAllSkips(render, rest, i - 1);
    } else {
      assert ms[..i] + ms[i + 1..] == ms[1..];
    }
  }

  /** One stream after another prints the first's lines, then, unless the first panicked, the second's. */
  lemma {:induction false} PrintAllAppend<M>(render: M -> Rendering, a: seq<M>, b: seq<M>)
    ensures PrintAll(render, a + b) ==
      if PrintAll(render, a).panicked then PrintAll(render, a)
      else Printout(PrintAll(render, a).lines + PrintAll(render, b).lines, PrintAll(render, b).panicked)
  {
    if |a| > 0 {
      var m, r := a[0], a[1..];
      assert (a + b)[0] == m && (a + b)[1..] == r + b;
      PrintAllAppend(render, r, b);
      if render(m).PrintLine? {
        var s := render(m).line;
        assert [s] + PrintAll(render, r).lines + PrintAll(render, b).lines ==
          [s] + (PrintAll(render, r).lines + PrintAll(render, b).lines);
      }
    } else {
      assert a + b == b;
    }
  }

  /** The printing panics exactly when some message renders as a panic. */
  lemma {:induction false} PrintAllPanicsIff<M>(render: M -> Rendering, ms: seq<M>)
    ensures PrintAll(render, ms).panicked <==> exists i :: 0 <= i < |ms| && render(ms[i]).Panic?
  {
    if |ms| > 0 {
      PrintAllPanicsIff(render, ms[1..]);
      if exists i :: 0 <= i < |ms[1..]| && render(ms[1..][i]).Panic? {
        var i :| 0 <= i < |ms[1..]| && render(ms[1..][i]).Panic?;
        assert ms[i + 1] == ms[1..][i];
      }
      if exists i :: 0 <= i < |ms| && render(ms[i]).Panic? {
        var i :| 0 <= i < |ms| && render(ms[i]).Panic?;
        if i > 0 {
          assert ms[1..][i - 1] == ms[i];
        }
      }
    }
  }

  /** The stdout thread: prints text and binary messages in order, skips every other kind. */
  function StdoutLoop(ms: seq<Message>): (p: Printout)
    ensures |p.lines| <= |ms|
    ensures (forall i :: 0 <= i < |ms| ==> !ms[i].Text? && !ms[i].Binary?) ==> p == Printout([], false)
  {
    PrintAll(Render, ms)
  }

  /** One message alone: text is printed as it is, binary as its decoding or with a panic, anything else not at all. */
  lemma StdoutOne(m: Message)
    ensures m.Text? ==> StdoutLoop([m]) == Printout([m.text], false)
    ensures m.Binary? && Decode(m.data).Some? ==> StdoutLoop([m]) == Printout([Decode(m.data).value], false)
    ensures m.Binary? && Decode(m.data).None? ==> StdoutLoop([m]) == Printout([], true)
    ensures !m.Text? && !m.Binary? ==> StdoutLoop([m]) == Printout([], false)
  {
  }

  /** Removing a message that is neither text nor binary, anywhere, leaves the printout unchanged. */
  lemma StdoutSkipsControl(ms: seq<Message>, i: nat)
    requires i < |ms| && !ms[i].Text? && !ms[i].Binary?
    ensures StdoutLoop(ms[..i] + ms[i + 1..]) == StdoutLoop(ms)
  {
    PrintAllSkips(Render, ms, i);
  }

  /**
   * The stdout thread prints a stream after another as the first's lines
   * followed by the second's; once it panics, nothing handed to it afterwards
   * is printed.
   */
  lemma StdoutAppend(a: seq<Message>, b: seq<Message>)
    ensures StdoutLoop(a + b) ==
      if StdoutLoop(a).panicked then StdoutLoop(a)
      else Printout(StdoutLoop(a).lines + StdoutLoop(b).lines, StdoutLoop(b).panicked)
  {
    PrintAllAppend(Render, a, b);
  }

  /** The stdout thread panics exactly when it is handed a binary message that is not UTF-8. */
  lemma StdoutPanicsIff(ms: seq<Message>)
    ensures StdoutLoop(ms).panicked <==> exists i :: 0 <= i < |ms| && ms[i].Binary? && Decode(ms[i].data).None?
  {
    PrintAllPanicsIff(Render, ms);
    assert forall i :: 0 <= i < |ms| ==> (Render(ms[i]).Panic? <==> ms[i].Binary? && Decode(ms[i].data).None?);
  }

  /** Every line the read task queues is printed by the stdout thread, in the order queued. */
  lemma {:induction false} DisplayReachesScreen(lines: seq<string>)
    ensures StdoutLoop(ToStdout(lines)) == Printout(lines, false)
  {
    if |lines| > 0 {
      var ms := ToStdout(lines);
      assert ms == [Text(lines[0])] + ToStdout(lines[1..]);
      assert ms[0] == Text(lines[0]) && ms[1..] == ToStdout(lines[1..]);
      DisplayReachesScreen(lines[1..]);
      assert StdoutLoop(ms) == Printout([lines[0]] + lines[1..], false);
      assert [lines[0]] + lines[1..] == lines;
    }
  }

  /** Of the read task's display lines, the stdout thread prints all, in order, and never panics. */
  lemma ReadLoopDisplayed(inputs: seq<Incoming<Message>>)
    ensures StdoutLoop(ToStdout(ReadLoop(inputs).shown)) == Printout(ReadLoop(inputs).shown, false)
  {
    DisplayReachesScreen(ReadLoop(inputs).shown);
  }
}
