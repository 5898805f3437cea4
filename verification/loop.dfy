/**
 * The shape every receive loop of the program shares: read one message,
 * maybe write one reply to the peer, maybe show one line, and either go on
 * or stop. A loop is a fold of a per-message reaction over the reads.
 */
module Loop {
  import opened Wrappers
  import opened Utf8
  import opened Messages

  /** What one read makes a loop do; the reply is written before the line is shown. */
  datatype Reaction<M, E> = Reaction(reply: Option<M>, shown: Option<string>, halt: Option<E>)

  /**
   * What a loop did with a sequence of reads: the replies it wrote, the lines
   * it showed, how many reads it took, and why it stopped (`None` when it took
   * every read and is still waiting, or the stream ended).
   */
  datatype Trace<M, E> = Trace(replies: seq<M>, shown: seq<string>, consumed: nat, halted: Option<E>)
  {
    /** The reads that left the loop running. */
    function Settled(): int { if halted.Some? then consumed - 1 else consumed }
  }

  /** Every reply the reactions to `xs` produce, in order, ignoring halts. */
  function Replies<I, M, E>(react: I -> Reaction<M, E>, xs: seq<I>): (rs: seq<M>)
    ensures |rs| <= |xs|
  {
    if |xs| == 0 then [] else OptionToSeq(react(xs[0]).reply) + Replies(react, xs[1..])
  }

  /** Every line the reactions to `xs` show, in order, ignoring halts. */
  function Shown<I, M, E>(react: I -> Reaction<M, E>, xs: seq<I>): (ls: seq<string>)
    ensures |ls| <= |xs|
  {
    if |xs| == 0 then [] else OptionToSeq(react(xs[0]).shown) + Shown(react, xs[1..])
  }

  /**
   * Runs the loop over `inputs`: it stops right after the first read whose
   * reaction halts, and otherwise takes every read.
   */
  function Run<I, M, E>(react: I -> Reaction<M, E>, inputs: seq<I>): (t: Trace<M, E>)
    ensures t.consumed <= |inputs|
    ensures t.halted.None? ==> t.consumed == |inputs|
    ensures t.halted.Some? ==> 0 < t.consumed && react(inputs[t.consumed - 1]).halt == t.halted
    ensures forall i :: 0 <= i < t.Settled() ==> react(inputs[i]).halt.None?
    decreases |inputs|
  {
    if |inputs| == 0 then Trace([], [], 0, None)
    else
      var r := react(inputs[0]);
      if r.halt.Some? then Trace(OptionToSeq(r.reply), OptionToSeq(r.shown), 1, r.halt)
      else
        var rest := Run(react, inputs[1..]);
        Trace(OptionToSeq(r.reply) + rest.replies, OptionToSeq(r.shown) + rest.shown, rest.consumed + 1, rest.halted)
  }

  /** What a run wrote and showed is exactly what the reactions to the reads it took produce, in order. */
  lemma {:induction false} RunTrace<I, M, E>(react: I -> Reaction<M, E>, inputs: seq<I>)
    ensures var t := Run(react, inputs);
      && t.replies == Replies(react, inputs[..t.consumed])
      && t.shown == Shown(react, inputs[..t.consumed])
    decreases |inputs|
  {
    if |inputs| > 0 {
      if react(inputs[0]).halt.Some? {
        assert inputs[..1][1..] == [];
      } else {
        var rest := Run(react, inputs[1..]);
        RunTrace(react, inputs[1..]);
        assert inputs[..rest.consumed + 1][1..] == inputs[1..][..rest.consumed];
      }
    }
  }

  /** A loop writes at most one reply and shows at most one line per read it takes. */
  lemma {:induction false} RunBounded<I, M, E>(react: I -> Reaction<M, E>, inputs: seq<I>)
    ensures |Run(react, inputs).replies| <= Run(react, inputs).consumed
    ensures |Run(react, inputs).shown| <= Run(react, inputs).consumed
  {
    RunTrace(react, inputs);
  }

  lemma {:induction false} RepliesAppend<I, M, E>(react: I -> Reaction<M, E>, xs: seq<I>, x: I)
    ensures Replies(react, xs + [x]) == Replies(react, xs) + OptionToSeq(react(x).reply)
  {
    if |xs| > 0 {
      assert (xs + [x])[1..] == xs[1..] + [x];
      RepliesAppend(react, xs[1..], x);
    }
  }

  lemma {:induction false} ShownAppend<I, M, E>(react: I -> Reaction<M, E>, xs: seq<I>, x: I)
    ensures Shown(react, xs + [x]) == Shown(react, xs) + OptionToSeq(react(x).shown)
  {
    if |xs| > 0 {
      assert (xs + [x])[1..] == xs[1..] + [x];
      ShownAppend(react, xs[1..], x);
    }
  }

  /**
   * The replies of a halted run split into those of the reads that left the
   * loop running and the one of the read that stopped it.
   */
  lemma HaltedSplit<I, M, E>(react: I -> Reaction<M, E>, inputs: seq<I>)
    requires Run(react, inputs).halted.Some?
    ensures var t := Run(react, inputs);
      && t.replies == Replies(react, inputs[..t.Settled()]) + OptionToSeq(react(inputs[t.Settled()]).reply)
      && t.shown == Shown(react, inputs[..t.Settled()]) + OptionToSeq(react(inputs[t.Settled()]).shown)
  {
    var t := Run(react, inputs);
    var k := t.Settled();
    RunTrace(react, inputs);
    assert inputs[..t.consumed] == inputs[..k] + [inputs[k]];
    RepliesAppend(react, inputs[..k], inputs[k]);
    ShownAppend(react, inputs[..k], inputs[k]);
  }

  /** Every read before the halting one, taken as a prefix, left the loop running. */
  lemma SettledRunning<I, M, E>(react: I -> Reaction<M, E>, inputs: seq<I>)
    ensures var k := Run(react, inputs).Settled();
      0 <= k <= |inputs| && forall i :: 0 <= i < k ==> react(inputs[..k][i]).halt.None?
  {
    var k := Run(react, inputs).Settled();
    assert forall i :: 0 <= i < k ==> inputs[..k][i] == inputs[i];
  }

  /**
   * A loop's writes and lines, split at the reads that left it running: the
   * folds over those reads, then the halting read's own reply and line.
   */
  lemma SettledSplit<I, M, E>(react: I -> Reaction<M, E>, inputs: seq<I>)
    ensures var t := Run(react, inputs); var k := t.Settled();
      && 0 <= k <= |inputs|
      && t.replies == Replies(react, inputs[..k]) + (if t.halted.Some? then OptionToSeq(react(inputs[k]).reply) else [])
      && t.shown == Shown(react, inputs[..k]) + (if t.halted.Some? then OptionToSeq(react(inputs[k]).shown) else [])
  {
    var t := Run(react, inputs);
    var k := t.Settled();
    if t.halted.Some? {
      HaltedSplit(react, inputs);
    } else {
      RunTrace(react, inputs);
      assert inputs[..t.consumed] == inputs[..k];
    }
  }

  /** Reactions that each show a line show exactly one line per read. */
  lemma {:induction false} ShownOnePerRead<I, M, E>(react: I -> Reaction<M, E>, xs: seq<I>)
    requires forall i :: 0 <= i < |xs| ==> react(xs[i]).shown.Some?
    ensures |Shown(react, xs)| == |xs|
  {
    if |xs| > 0 {
      assert forall i :: 0 <= i < |xs[1..]| ==> xs[1..][i] == xs[i + 1];
      ShownOnePerRead(react, xs[1..]);
    }
  }

  /**
   * Reactions that answer each ping with the pong for its payload, and
   * nothing else, write exactly the pongs for the pings, in arrival order.
   */
  lemma {:induction false} RepliesArePongs<M, E>(
    react: Incoming<M> -> Reaction<M, E>, ping: M -> Option<bytes>, pong: bytes -> M, xs: seq<Incoming<M>>)
    requires forall i :: 0 <= i < |xs| ==> react(xs[i]).reply == PongFor(ping, pong, xs[i])
    ensures Replies(react, xs) == Pongs(pong, PingPayloads(ping, xs))
  {
    if |xs| > 0 {
      assert forall i :: 0 <= i < |xs[1..]| ==> xs[1..][i] == xs[i + 1];
      RepliesArePongs(react, ping, pong, xs[1..]);
      var ps := PingPayloads(ping, xs[1..]);
      if PongFor(ping, pong, xs[0]).Some? {
        var p := ping(xs[0].msg).value;
        assert PingPayloads(ping, xs) == [p] + ps;
        assert ([p] + ps)[1..] == ps;
      } else {
        assert PingPayloads(ping, xs) == ps;
      }
    }
  }
}
