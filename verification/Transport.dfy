/** The in-memory message pipe: two bounded queues and one closed channel, shared by two ends. */
module Transport {
  import opened Wrappers

  type Message = seq<Byte>

  const CAPACITY: nat := 16

  /** One direction: every message that was ever sent and every message that was taken out. */
  datatype Queue = Queue(sent: seq<Message>, taken: seq<Message>) {
    /** First in, first out, and never more than CAPACITY in between. */
    ghost predicate Ok() {
      taken <= sent && |sent| - |taken| <= CAPACITY
    }

    predicate HasRoom() {
      |sent| < |taken| + CAPACITY
    }

    predicate HasMessage() {
      |taken| < |sent|
    }

    function Send(m: Message): Queue {
      this.(sent := sent + [m])
    }

    function Take(): Queue
      requires HasMessage()
    {
      this.(taken := taken + [sent[|taken|]])
    }
  }

  // ----- Whole runs -----

  datatype Side = A | B

  datatype Step =
    | Write(side: Side, m: Message)
    | WriteClosed(side: Side)
    | Read(side: Side)
    | ReadClosed(side: Side)
    | Close(side: Side)

  /** used holds the ends whose once has been spent; closing the channel twice panics. */
  datatype State = State(toA: Queue, toB: Queue, closed: bool, used: set<Side>, panics: nat) {
    function In(side: Side): Queue {
      if side.A? then toA else toB
    }

    function Out(side: Side): Queue {
      if side.A? then toB else toA
    }

    function WithIn(side: Side, q: Queue): State {
      if side.A? then this.(toA := q) else this.(toB := q)
    }

    function WithOut(side: Side, q: Queue): State {
      if side.A? then this.(toB := q) else this.(toA := q)
    }
  }

  /** A select proceeds with any case that is ready, so a closed pipe may still pass messages. */
  ghost predicate Enabled(s: State, step: Step) {
    match step
    case Write(side, _) => s.Out(side).HasRoom()
    case Read(side) => s.In(side).HasMessage()
    case Close(_) => true
    case _ => s.closed
  }

  ghost function After(s: State, step: Step): State
    requires Enabled(s, step)
  {
    match step
    case Write(side, m) => s.WithOut(side, s.Out(side).Send(m))
    case Read(side) => s.WithIn(side, s.In(side).Take())
    case Close(side) =>
      if side in s.used then s
      else s.(closed := true, used := s.used + {side}, panics := if s.closed then s.panics + 1 else s.panics)
    case _ => s
  }

  ghost predicate IsRun(states: seq<State>, steps: seq<Step>) {
    && |states| == |steps| + 1
    && states[0] == State(Queue([], []), Queue([], []), false, {}, 0)
    && forall i :: 0 <= i < |steps| ==> Enabled(states[i], steps[i]) && states[i + 1] == After(states[i], steps[i])
  }

  lemma {:induction false} RunDelivers(states: seq<State>, steps: seq<Step>, i: nat)
    requires IsRun(states, steps) && i < |states|
    ensures states[i].toA.Ok() && states[i].toB.Ok()
  {
    if i > 0 {
      RunDelivers(states, steps, i - 1);
      StepDelivers(states[i - 1], steps[i - 1]);
    }
  }

  lemma StepDelivers(s: State, step: Step)
    requires s.toA.Ok() && s.toB.Ok() && Enabled(s, step)
    ensures After(s, step).toA.Ok() && After(s, step).toB.Ok()
  {
  }

  /** What each direction carried is exactly what the successful calls put in and took out. */
  ghost function Written(steps: seq<Step>, side: Side): seq<Message> {
    if steps == [] then []
    else
      var before := Written(steps[..|steps| - 1], side);
      var step := steps[|steps| - 1];
      if step.Write? && step.side == side then before + [step.m] else before
  }

  lemma {:induction false} RunCarriesWritten(states: seq<State>, steps: seq<Step>, side: Side)
    requires IsRun(states, steps)
    ensures states[|steps|].Out(side).sent == Written(steps, side)
  {
    if steps != [] {
      var n := |steps| - 1;
      RunCarriesWritten(states[..n + 1], steps[..n], side);
    }
  }

  /** Each end has received a prefix of exactly the messages that the other end's successful
      writes carried, at most 16 behind; a write that was refused is never delivered. */
  lemma DeliveredInOrder(states: seq<State>, steps: seq<Step>, side: Side)
    requires IsRun(states, steps)
    ensures var got := states[|steps|].In(side).taken;
            var given := Written(steps, if side.A? then B else A);
            && got <= given && |given| - |got| <= 16
            && (!Enabled(states[|steps|], Read(side)) ==> got == given)
  {
    RunDelivers(states, steps, |steps|);
    RunCarriesWritten(states, steps, if side.A? then B else A);
  }

  /** A call blocks exactly if the pipe is open and its queue is full, or empty. */
  lemma CallsBlock(s: State, side: Side, m: Message)
    ensures !Enabled(s, Write(side, m)) && !Enabled(s, WriteClosed(side)) <==>
            !s.closed && |s.Out(side).sent| >= |s.Out(side).taken| + 16
    ensures !Enabled(s, Read(side)) && !Enabled(s, ReadClosed(side)) <==>
            !s.closed && |s.In(side).sent| <= |s.In(side).taken|
    ensures Enabled(s, Close(side)) && After(s, Close(side)).closed == (s.closed || side !in s.used)
  {
  }

  ghost predicate CloseOk(s: State) {
    && s.closed == (A in s.used || B in s.used)
    && s.panics == if A in s.used && B in s.used then 1 else 0
  }

  lemma StepCloseOk(s: State, step: Step)
    requires CloseOk(s) && Enabled(s, step)
    ensures CloseOk(After(s, step))
    ensures After(s, step).used == if step.Close? then s.used + {step.side} else s.used
  {
    assert step.Close? ==> step.side == A || step.side == B;
  }

  /** A run panics exactly if both ends call Close, however often, and then exactly once. */
  lemma {:induction false} PanicsIffBothClose(states: seq<State>, steps: seq<Step>)
    requires IsRun(states, steps)
    ensures var s := states[|steps|];
            && CloseOk(s) && (forall side :: side in s.used <==> Close(side) in steps)
            && s.panics == if Close(A) in steps && Close(B) in steps then 1 else 0
  {
    if steps != [] {
      var n := |steps| - 1;
      PanicsIffBothClose(states[..n + 1], steps[..n]);
      StepCloseOk(states[n], steps[n]);
      hide Enabled, After, CloseOk;
      assert steps == steps[..n] + [steps[n]];
      assert forall side :: Close(side) in steps <==> Close(side) in steps[..n] || steps[n] == Close(side);
    }
  }

  // ----- The objects -----

  class Channel {
    var buffer: seq<array<Byte>>
    ghost var taken: seq<Message>

    constructor ()
      ensures Valid() && Value() == Queue([], []) && buffer == []
    {
      buffer, taken := [], [];
    }

    ghost predicate Valid()
      reads this
    {
      |buffer| <= CAPACITY && forall i, j :: 0 <= i < j < |buffer| ==> buffer[i] != buffer[j]
    }

    ghost function Value(): Queue
      reads this, buffer
    {
      Queue(taken + Contents(buffer), taken)
    }
  }

  ghost function Contents(buffer: seq<array<Byte>>): (ms: seq<Message>)
    reads buffer
    ensures |ms| == |buffer|
  {
    seq(|buffer|, i requires 0 <= i < |buffer| reads buffer => buffer[i][..])
  }

  lemma ContentsAppend(buffer: seq<array<Byte>>, cp: array<Byte>)
    ensures Contents(buffer + [cp]) == Contents(buffer) + [cp[..]]
  {
  }

  class Signal {
    var closed: bool

    constructor ()
      ensures !closed
    {
      closed := false;
    }
  }

  datatype WriteResult = Sent | WriteError | WriteBlocks

  datatype ReadResult = Received(m: array<Byte>) | ReadError | ReadBlocks

  class PipeConn {
    const inbox: Channel
    const outbox: Channel
    const done: Signal
    var used: bool

    constructor (inbox: Channel, outbox: Channel, done: Signal)
      ensures this.inbox == inbox && this.outbox == outbox && this.done == done && !used
    {
      this.inbox, this.outbox, this.done, used := inbox, outbox, done, false;
    }

    /** Queues a copy of b: the caller keeps its buffer. */
    method WriteMsg(b: array<Byte>) returns (r: WriteResult)
      requires outbox.Valid()
      modifies outbox
      ensures outbox.Valid()
      ensures r.Sent? ==> old(outbox.Value().HasRoom()) && outbox.Value() == old(outbox.Value()).Send(b[..])
      ensures r.Sent? ==> exists cp :: fresh(cp) && outbox.buffer == old(outbox.buffer) + [cp]
      ensures !r.Sent? ==> outbox.buffer == old(outbox.buffer) && outbox.taken == old(outbox.taken)
      ensures r.WriteError? ==> done.closed
      ensures r.WriteBlocks? <==> |old(outbox.buffer)| == 16 && !done.closed
    {
      var cp := new Byte[b.Length](i requires 0 <= i < b.Length reads b => b[i]);
      assert cp[..] == b[..];
      var pick: bool := *;
      if done.closed && (pick || |outbox.buffer| == CAPACITY) {
        return WriteError;
      }
      if |outbox.buffer| == CAPACITY {
        return WriteBlocks;
      }
      ContentsAppend(outbox.buffer, cp);
      hide Contents;
      outbox.buffer := outbox.buffer + [cp];
      return Sent;
    }

    method ReadMsg() returns (r: ReadResult)
      requires inbox.Valid()
      modifies inbox
      ensures inbox.Valid()
      ensures r.Received? ==> old(inbox.Value().HasMessage()) && inbox.Value() == old(inbox.Value()).Take()
      ensures r.Received? ==> r.m == old(inbox.buffer)[0] && inbox.buffer == old(inbox.buffer)[1..]
      ensures r.Received? ==> r.m[..] == inbox.taken[|old(inbox.taken)|]
      ensures !r.Received? ==> inbox.buffer == old(inbox.buffer) && inbox.taken == old(inbox.taken)
      ensures r.ReadError? ==> done.closed
      ensures r.ReadBlocks? <==> old(inbox.buffer) == [] && !done.closed
    {
      var pick: bool := *;
      if done.closed && (pick || inbox.buffer == []) {
        return ReadError;
      }
      if inbox.buffer == [] {
        return ReadBlocks;
      }
      var m := inbox.buffer[0];
      assert Contents(inbox.buffer) == [m[..]] + Contents(inbox.buffer[1..]);
      inbox.taken := inbox.taken + [m[..]];
      inbox.buffer := inbox.buffer[1..];
      return Received(m);
    }

    /** Panics if the other end has closed the shared channel. */
    method Close() returns (panicked: bool)
      modifies this, done
      ensures done.closed == (old(done.closed) || !old(used)) && used
      ensures panicked <==> old(done.closed) && !old(used)
    {
      panicked := false;
      if !used {
        used := true;
        panicked := done.closed;
        done.closed := true;
      }
    }
  }

  method Pipe() returns (a: PipeConn, b: PipeConn)
    ensures fresh(a) && fresh(b) && a != b && !a.used && !b.used
    ensures fresh(a.inbox) && fresh(a.outbox) && fresh(a.done) && a.inbox != a.outbox
    ensures a.outbox == b.inbox && a.inbox == b.outbox && a.done == b.done && !a.done.closed
    ensures a.inbox.Valid() && a.outbox.Valid()
    ensures a.inbox.Value() == a.outbox.Value() == Queue([], [])
  {
    var a2b := new Channel();
    var b2a := new Channel();
    var closed := new Signal();
    a := new PipeConn(b2a, a2b, closed);
    b := new PipeConn(a2b, b2a, closed);
  }

  /** A sender that overwrites its buffer after sending changes no queued message: the queue holds
      what it held, then the message as it was sent, and that is what is received. */
  method ReuseAfterSend(a: PipeConn, b: PipeConn, msg: array<Byte>, scribble: Byte)
    returns (w: WriteResult, r: ReadResult, ghost queued: Queue)
    requires a.outbox == b.inbox && a.outbox.Valid() && msg !in a.outbox.buffer
    modifies a.outbox, msg
    ensures queued == if w.Sent? then old(a.outbox.Value()).Send(old(msg[..])) else old(a.outbox.Value())
    ensures w.Sent? <== !a.done.closed && old(a.outbox.Value().HasRoom())
    ensures r.Received? ==> queued.HasMessage() && r.m[..] == queued.sent[|queued.taken|]
    ensures r.Received? ==> a.outbox.Value() == queued.Take()
    ensures r.Received? <== !b.done.closed && queued.HasMessage()
  {
    ghost var before := a.outbox.buffer;
    w := a.WriteMsg(msg);
    ghost var sent := a.outbox.Value();
    assert msg !in a.outbox.buffer;
    forall i | 0 <= i < msg.Length {
      msg[i] := scribble;
    }
    queued := a.outbox.Value();
    assert queued == sent;
    r := b.ReadMsg();
  }
}
