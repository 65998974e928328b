/** From one end's plaintexts to the other's, through an order-preserving relay: the sender seals,
    the hub forwards, the receiver opens. */
module EndToEnd {
  import opened Wrappers
  import opened Noise
  import opened Session
  import opened Agent
  import W = Relay
  import C = SecureChannel

  /** How many of so many plaintexts a cipher state has nonces for. */
  function Sealable(cs: CipherState, count: nat): (k: nat)
    ensures k <= count && (cs.n + count <= MAX_NONCE ==> k == count)
  {
    if cs.n + count <= MAX_NONCE then count else if cs.n < MAX_NONCE then MAX_NONCE - cs.n else 0
  }

  /** The first k plaintexts as messages under consecutive nonces. */
  ghost function Messages(cs: CipherState, chunks: seq<seq<nat>>, k: nat): (ws: seq<Wire>)
    requires k <= |chunks|
    ensures |ws| == k
  {
    seq(k, i requires 0 <= i < k => Data(Sealed(cs.key, cs.n + i, [], Bytes(chunks[i]))))
  }

  lemma {:induction false} SealingIs(cs: CipherState, chunks: seq<seq<nat>>)
    ensures var k := Sealable(cs, |chunks|);
            Sealing(cs, chunks) == (cs.(n := cs.n + k), Messages(cs, chunks, k))
  {
    if chunks != [] {
      var n := |chunks| - 1;
      SealingIs(cs, chunks[..n]);
      var k0, k := Sealable(cs, n), Sealable(cs, n + 1);
      assert Messages(cs, chunks, k0) == Messages(cs, chunks[..n], k0);
      if k == k0 {
        assert Messages(cs, chunks, k0) + [] == Messages(cs, chunks, k0);
      } else {
        assert Messages(cs, chunks, k)
            == Messages(cs, chunks, k0) + [Data(Sealed(cs.key, cs.n + n, [], Bytes(chunks[n])))];
      }
    }
  }

  lemma {:induction false} MessagesOpen(cs: CipherState, chunks: seq<seq<nat>>, k: nat)
    requires k <= |chunks| && (k > 0 ==> cs.n + k <= MAX_NONCE)
    ensures Opening(cs, Messages(cs, chunks, k)) == Some((cs.(n := cs.n + k), chunks[..k]))
  {
    if k > 0 {
      MessagesOpen(cs, chunks, k - 1);
      assert Messages(cs, chunks, k)[..k - 1] == Messages(cs, chunks, k - 1);
      assert chunks[..k] == chunks[..k - 1] + [chunks[k - 1]];
    }
  }

  /** Whatever is sealed opens, in order and in full, up to the point where the nonces run out. */
  lemma OpeningOfSealing(cs: CipherState, chunks: seq<seq<nat>>)
    ensures var k := Sealable(cs, |chunks|);
            Opening(cs, Sealing(cs, chunks).1) == Some((Sealing(cs, chunks).0, chunks[..k]))
    ensures cs.n + |chunks| <= MAX_NONCE ==>
              Opening(cs, Sealing(cs, chunks).1) == Some((Sealing(cs, chunks).0, chunks))
  {
    SealingIs(cs, chunks);
    MessagesOpen(cs, chunks, Sealable(cs, |chunks|));
    assert chunks[..|chunks|] == chunks;
  }

  /** The bytes on the wire of each message, and back. */
  ghost predicate Inverse(frame: Wire -> W.Message, parse: W.Message -> Wire) {
    forall w :: parse(frame(w)) == w
  }

  function Map<A, B>(f: A -> B, s: seq<A>): (r: seq<B>)
    ensures |r| == |s|
  {
    seq(|s|, i requires 0 <= i < |s| => f(s[i]))
  }

  lemma MapBack(frame: Wire -> W.Message, parse: W.Message -> Wire, sent: seq<Wire>, written: seq<W.Message>)
    requires Inverse(frame, parse) && written <= Map(frame, sent)
    ensures Map(parse, written) == sent[..|written|]
  {
    forall i | 0 <= i < |written| ensures parse(written[i]) == sent[i] {
      assert written[i] == Map(frame, sent)[i];
    }
  }

  /** In every reachable state of the relay: if what has arrived at the hub from a sender is a
      prefix of pre, its handshake message, and then its sealed plaintexts, then what the receiver
      has been sent after pre opens, message by message, to the first of those plaintexts in order.
      Of the messages that the hub has read, at most one has not been passed on. */
  lemma RelayedIsRead(
    s: W.State, dst: W.Side, frame: Wire -> W.Message, parse: W.Message -> Wire,
    pre: seq<Wire>, cs: CipherState, chunks: seq<seq<nat>>)
    requires W.Reachable(s) && Inverse(frame, parse)
    requires s.Conn(dst.Other()).arrived <= Map(frame, pre + Sealing(cs, chunks).1)
    requires |pre| <= |s.Conn(dst).written|
    ensures var wires := Map(parse, s.Conn(dst).written)[|pre|..];
            && |wires| <= |chunks|
            && Opening(cs, wires) == Some((cs.(n := cs.n + |wires|), chunks[..|wires|]))
            && |s.Conn(dst.Other()).arrived| - |s.Conn(dst.Other()).unread| <= |pre| + |wires| + 1
  {
    hide *;
    W.ReachableForwards(s, dst);
    PrefixTransitive(s.Conn(dst).written, s.Conn(dst.Other()).arrived, Map(frame, pre + Sealing(cs, chunks).1));
    WrittenIsRead(frame, parse, pre, cs, chunks, s.Conn(dst).written);
  }

  lemma WrittenIsRead(
    frame: Wire -> W.Message, parse: W.Message -> Wire, pre: seq<Wire>, cs: CipherState, chunks: seq<seq<nat>>,
    written: seq<W.Message>)
    requires Inverse(frame, parse) && |pre| <= |written|
    requires written <= Map(frame, pre + Sealing(cs, chunks).1)
    ensures var wires := Map(parse, written)[|pre|..];
            && |written| == |pre| + |wires| <= |pre| + |chunks|
            && Opening(cs, wires) == Some((cs.(n := cs.n + |wires|), chunks[..|wires|]))
  {
    var sent, m := Sealing(cs, chunks).1, |written| - |pre|;
    hide Sealing, Opening;
    MapBack(frame, parse, pre + sent, written);
    TailOfPrefix(pre, sent, |written|);
    SealingIs(cs, chunks);
    MessagesPrefix(cs, chunks, |sent|, m);
    hide Messages;
    MessagesOpen(cs, chunks, m);
  }

  lemma MessagesPrefix(cs: CipherState, chunks: seq<seq<nat>>, k: nat, m: nat)
    requires m <= k <= |chunks|
    ensures Messages(cs, chunks, k)[..m] == Messages(cs, chunks, m)
  {
  }

  lemma PrefixTransitive<T>(a: seq<T>, b: seq<T>, c: seq<T>)
    requires a <= b && b <= c
    ensures a <= c
  {
  }

  lemma TailOfPrefix<T>(pre: seq<T>, s: seq<T>, n: nat)
    requires |pre| <= n <= |pre| + |s|
    ensures (pre + s)[..n][|pre|..] == s[..n - |pre|]
  {
  }

  /** A receiver that has opened n messages of such a stream has read exactly the first n
      plaintexts, and the next message opens to the next plaintext: its loop does not stop
      because of a message that does not open. */
  lemma ReadInOrder(
    cs: CipherState, wires: seq<Wire>, chunks: seq<seq<nat>>, n: nat, recv: CipherState, got: seq<seq<nat>>)
    requires Opening(cs, wires).Some? && Opening(cs, wires).value.1 == chunks
    requires n <= |wires| && Opening(cs, wires[..n]) == Some((recv, got))
    ensures |chunks| == |wires| && got == chunks[..n]
    ensures n < |wires| ==> Opens(recv, wires[n]).Some? && Opens(recv, wires[n]).value.1 == chunks[n]
  {
    OpeningOfPrefix(cs, wires, n);
    if n < |wires| {
      OpeningOfPrefix(cs, wires, n + 1);
      LastOpens(cs, wires[..n + 1], n);
      hide Opening, Opens;
      assert wires[..n + 1][..n] == wires[..n];
    }
  }

  lemma LastOpens(cs: CipherState, wires: seq<Wire>, n: nat)
    requires |wires| == n + 1 && Opening(cs, wires).Some?
    ensures Opening(cs, wires[..n]).Some?
    ensures var last := Opens(Opening(cs, wires[..n]).value.0, wires[n]);
            last.Some? && Opening(cs, wires).value.1 == Opening(cs, wires[..n]).value.1 + [last.value.1]
  {
    hide Opens;
  }

  lemma {:induction false} OpeningOfPrefix(cs: CipherState, wires: seq<Wire>, n: nat)
    requires Opening(cs, wires).Some? && n <= |wires|
    ensures |Opening(cs, wires).value.1| == |wires|
    ensures Opening(cs, wires[..n]).Some? && Opening(cs, wires[..n]).value.1 == Opening(cs, wires).value.1[..n]
    decreases |wires|
  {
    if n == |wires| {
      assert wires[..n] == wires;
      if wires != [] {
        OpeningOfPrefix(cs, wires[..n - 1], n - 1);
      }
    } else {
      OpeningOfPrefix(cs, wires[..|wires| - 1], n);
      assert wires[..|wires| - 1][..n] == wires[..n];
    }
  }

  /** A sender's plaintexts, any run of the relay, and a receiver that has opened n messages: it has
      read the first n plaintexts, and no message is refused. */
  lemma StreamIsRead(
    cs: CipherState, chunks: seq<seq<nat>>, lastToo: bool, sent: seq<Wire>,
    s: W.State, dst: W.Side, frame: Wire -> W.Message, parse: W.Message -> Wire,
    pre: seq<Wire>, n: nat, recv: CipherState, got: seq<seq<nat>>)
    requires Sent(cs, chunks, lastToo, sent)
    requires W.Reachable(s) && Inverse(frame, parse)
    requires s.Conn(dst.Other()).arrived <= Map(frame, pre + sent)
    requires |pre| + n <= |s.Conn(dst).written|
    requires Opening(cs, Map(parse, s.Conn(dst).written)[|pre|..][..n]) == Some((recv, got))
    ensures n <= |chunks| && got == chunks[..n] && C.Concat(got) <= C.Concat(chunks)
    ensures var wires := Map(parse, s.Conn(dst).written)[|pre|..];
            n < |wires| ==> Opens(recv, wires[n]).Some?
  {
    var all := if lastToo then chunks else chunks[..|chunks| - 1];
    RelayedIsRead(s, dst, frame, parse, pre, cs, all);
    hide W.Reachable, Sealing, Opening, Inverse, Sent;
    var wires := Map(parse, s.Conn(dst).written)[|pre|..];
    ReadInOrder(cs, wires, all[..|wires|], n, recv, got);
    assert got == chunks[..n];
    C.ConcatPrefix(got, chunks);
  }

  /** The whole way of a shell's output. Given what PumpOutput ensures of the agent, that the hub's
      relay runs, and what the reading loop ensures of the client: everything read is a prefix of
      the output, message by message and byte by byte, and no message is refused. */
  lemma ShellOutputIsRead(
    output: seq<nat>, rest: seq<nat>, cs: CipherState, chunks: seq<seq<nat>>, lastToo: bool, sent: seq<Wire>,
    s: W.State, dst: W.Side, frame: Wire -> W.Message, parse: W.Message -> Wire,
    pre: seq<Wire>, n: nat, recv: CipherState, got: seq<seq<nat>>)
    requires output == C.Concat(chunks) + rest && Sent(cs, chunks, lastToo, sent)
    requires W.Reachable(s) && Inverse(frame, parse)
    requires s.Conn(dst.Other()).arrived <= Map(frame, pre + sent)
    requires |pre| + n <= |s.Conn(dst).written|
    requires Opening(cs, Map(parse, s.Conn(dst).written)[|pre|..][..n]) == Some((recv, got))
    ensures n <= |chunks| && got == chunks[..n] && C.Concat(got) <= output
    ensures var wires := Map(parse, s.Conn(dst).written)[|pre|..];
            n < |wires| ==> Opens(recv, wires[n]).Some?
  {
    StreamIsRead(cs, chunks, lastToo, sent, s, dst, frame, parse, pre, n, recv, got);
    hide *;
  }

  /** The whole way of a client's input. Given what the client sealed and sent, that the hub's
      relay runs, and what ServeInput ensures of the agent: what was typed into the shell is a
      prefix of the client's plaintexts, byte by byte, and no message is refused. */
  lemma ClientInputIsTyped(
    before: seq<nat>, input: seq<nat>, lastTyped: bool,
    cs: CipherState, chunks: seq<seq<nat>>, lastToo: bool, sent: seq<Wire>,
    s: W.State, dst: W.Side, frame: Wire -> W.Message, parse: W.Message -> Wire,
    pre: seq<Wire>, n: nat, recv: CipherState, got: seq<seq<nat>>)
    requires Sent(cs, chunks, lastToo, sent)
    requires W.Reachable(s) && Inverse(frame, parse)
    requires s.Conn(dst.Other()).arrived <= Map(frame, pre + sent)
    requires |pre| + n <= |s.Conn(dst).written|
    requires Opening(cs, Map(parse, s.Conn(dst).written)[|pre|..][..n]) == Some((recv, got))
    requires Typed(before, got, lastTyped, input)
    ensures before <= input <= before + C.Concat(chunks)
    ensures lastTyped ==> n <= |chunks| && input == before + C.Concat(chunks[..n])
    ensures var wires := Map(parse, s.Conn(dst).written)[|pre|..];
            n < |wires| ==> Opens(recv, wires[n]).Some?
  {
    StreamIsRead(cs, chunks, lastToo, sent, s, dst, frame, parse, pre, n, recv, got);
    TypedWithin(before, got, lastTyped, input, chunks);
    hide *;
  }

  lemma TypedWithin(before: seq<nat>, got: seq<seq<nat>>, lastTyped: bool, input: seq<nat>, chunks: seq<seq<nat>>)
    requires Typed(before, got, lastTyped, input) && C.Concat(got) <= C.Concat(chunks)
    ensures before <= input <= before + C.Concat(chunks)
    ensures lastTyped ==> input == before + C.Concat(got)
  {
    hide C.Concat;
  }

  /** As long as no read or write of the relay fails: once the hub has received everything that was
      sent and its copier has nothing left to do, the receiver's messages open to every plaintext. */
  lemma EverythingIsRead(
    s: W.State, dst: W.Side, frame: Wire -> W.Message, parse: W.Message -> Wire,
    pre: seq<Wire>, cs: CipherState, chunks: seq<seq<nat>>)
    requires W.ReachableWithoutError(s) && Inverse(frame, parse)
    requires s.Conn(dst.Other()).arrived == Map(frame, pre + Sealing(cs, chunks).1)
    requires !W.Enabled(s, W.Read(dst)) && !W.Enabled(s, W.Write(dst))
    requires cs.n + |chunks| <= MAX_NONCE
    ensures |pre| <= |s.Conn(dst).written|
    ensures Opening(cs, Map(parse, s.Conn(dst).written)[|pre|..]) == Some((Sealing(cs, chunks).0, chunks))
  {
    W.ReachableForwardsAll(s, dst);
    var written := s.Conn(dst).written;
    hide W.Enabled, W.ReachableWithoutError, Opening, Sealing;
    MapBack(frame, parse, pre + Sealing(cs, chunks).1, written);
    TailOfPrefix(pre, Sealing(cs, chunks).1, |written|);
    OpeningOfSealing(cs, chunks);
    assert Sealing(cs, chunks).1[..|written| - |pre|] == Sealing(cs, chunks).1;
  }

  // ----- The same through any network -----

  /** Against every network: if a session's peer was given the chunks of a shell's output, or a
      part of them, what the session has read is a prefix of that output. */
  lemma OutputThroughAnyNetwork(
    states: seq<C.State>, steps: seq<C.Step>, id: C.Id, output: seq<nat>, rest: seq<nat>, chunks: seq<seq<nat>>)
    requires C.IsRun(states, steps) && C.IsLive(states[|steps|], id)
    requires states[|steps|].parties[id].v.Peer() in states[|steps|].honest
    requires output == C.Concat(chunks) + rest
    requires C.PeerGiven(states[|steps|], states[|steps|].parties[id].v) <= chunks
    ensures states[|steps|].parties[id].got <= chunks && C.Concat(states[|steps|].parties[id].got) <= output
  {
    C.StreamIsPrefix(states, steps, id);
    C.ConcatPrefix(states[|steps|].parties[id].got, chunks);
  }

  /** Against every network: what an agent has typed into the shell is a prefix of what its peer
      was given to write. */
  lemma InputThroughAnyNetwork(
    states: seq<C.State>, steps: seq<C.Step>, id: C.Id, before: seq<nat>, lastTyped: bool, input: seq<nat>)
    requires C.IsRun(states, steps) && C.IsLive(states[|steps|], id)
    requires states[|steps|].parties[id].v.Peer() in states[|steps|].honest
    requires Typed(before, states[|steps|].parties[id].got, lastTyped, input)
    ensures before <= input
            <= before + C.Concat(C.PeerGiven(states[|steps|], states[|steps|].parties[id].v))
  {
    C.StreamIsPrefix(states, steps, id);
    var s := states[|steps|];
    TypedWithin(before, s.parties[id].got, lastTyped, input, C.PeerGiven(s, s.parties[id].v));
  }
}
