/** The hub's relay: two copiers and the goroutine that waits for them, interleaved. */
module Relay {

  datatype Message = Message(kind: nat, payload: seq<nat>)

  /** A connection as the hub sees it: every message that has arrived, those of them not yet
      read, what the hub has written to it, and whether the hub has closed it. */
  datatype Conn = Conn(arrived: seq<Message>, unread: seq<Message>, written: seq<Message>, closed: bool)

  datatype Side = A | B {
    function Other(): Side {
      if A? then B else A
    }
  }

  /** Program counter of copyMsgs; a message that was read but not written is remembered. */
  datatype Copier =
    | Reading
    | Writing(m: Message)
    | Signalling(lost: seq<Message>)
    | Exited(lost: seq<Message>)

  datatype Waiter = WaitFirst | CloseA | CloseB | WaitSecond | Returned

  /** done is the number of tokens in the channel of capacity 2. */
  datatype State = State(a: Conn, b: Conn, toA: Copier, toB: Copier, waiter: Waiter, done: nat) {
    function Conn(side: Side): Conn {
      if side.A? then a else b
    }

    /** The copier that writes to a side and reads from the other. */
    function To(side: Side): Copier {
      if side.A? then toA else toB
    }

    function WithConn(side: Side, c: Conn): State {
      if side.A? then this.(a := c) else this.(b := c)
    }

    function WithCopier(side: Side, p: Copier): State {
      if side.A? then this.(toA := p) else this.(toB := p)
    }
  }

  const CAPACITY: nat := 2

  datatype Step =
    | Arrive(side: Side, m: Message)
    | Read(dst: Side)
    | ReadError(dst: Side)
    | Write(dst: Side)
    | WriteError(dst: Side)
    | Signal(dst: Side)
    | Receive
    | Close

  /** Reads and writes may fail at any time; a write to a closed connection must fail, but a
      read from one may still return a buffered message. */
  ghost predicate Enabled(s: State, step: Step) {
    match step
    case Arrive(side, _) => !s.Conn(side).closed
    case Read(dst) => s.To(dst).Reading? && s.Conn(dst.Other()).unread != []
    case ReadError(dst) => s.To(dst).Reading?
    case Write(dst) => s.To(dst).Writing? && !s.Conn(dst).closed
    case WriteError(dst) => s.To(dst).Writing?
    case Signal(dst) => s.To(dst).Signalling? && s.done < CAPACITY
    case Receive => (s.waiter.WaitFirst? || s.waiter.WaitSecond?) && s.done > 0
    case Close => s.waiter.CloseA? || s.waiter.CloseB?
  }

  ghost function After(s: State, step: Step): State
    requires Enabled(s, step)
  {
    match step
    case Arrive(side, m) =>
      var c := s.Conn(side);
      s.WithConn(side, c.(arrived := c.arrived + [m], unread := c.unread + [m]))
    case Read(dst) =>
      var c := s.Conn(dst.Other());
      s.WithConn(dst.Other(), c.(unread := c.unread[1..])).WithCopier(dst, Writing(c.unread[0]))
    case ReadError(dst) => s.WithCopier(dst, Signalling([]))
    case Write(dst) =>
      var c := s.Conn(dst);
      s.WithConn(dst, c.(written := c.written + [s.To(dst).m])).WithCopier(dst, Reading)
    case WriteError(dst) => s.WithCopier(dst, Signalling([s.To(dst).m]))
    case Signal(dst) => s.WithCopier(dst, Exited(s.To(dst).lost)).(done := s.done + 1)
    case Receive => s.(done := s.done - 1, waiter := if s.waiter.WaitFirst? then CloseA else Returned)
    case Close =>
      if s.waiter.CloseA? then s.(a := s.a.(closed := true), waiter := CloseB)
      else s.(b := s.b.(closed := true), waiter := WaitSecond)
  }

  /** Nothing read or written yet, both connections open. */
  ghost predicate Initial(s: State) {
    && s.a == Conn(s.a.arrived, s.a.arrived, [], false)
    && s.b == Conn(s.b.arrived, s.b.arrived, [], false)
    && s.toA == s.toB == Reading && s.waiter == WaitFirst && s.done == 0
  }

  // ----- Forwarding -----

  function InHand(p: Copier): seq<Message> {
    match p
    case Reading => []
    case Writing(m) => [m]
    case Signalling(lost) => lost
    case Exited(lost) => lost
  }

  /** What arrived on one side is what was written to the other, then at most one message in
      the copier's hand, then what is still unread: in order, nothing added or repeated. */
  ghost predicate Forwards(s: State, dst: Side) {
    && s.Conn(dst.Other()).arrived == s.Conn(dst).written + InHand(s.To(dst)) + s.Conn(dst.Other()).unread
    && |InHand(s.To(dst))| <= 1
  }

  function Tokens(p: Copier): nat {
    if p.Exited? then 1 else 0
  }

  function Received(w: Waiter): nat {
    match w
    case WaitFirst => 0
    case Returned => 2
    case _ => 1
  }

  ghost predicate Inv(s: State) {
    && Forwards(s, A) && Forwards(s, B)
    && s.done + Received(s.waiter) == Tokens(s.toA) + Tokens(s.toB)
    && (s.a.closed <==> !s.waiter.WaitFirst? && !s.waiter.CloseA?)
    && (s.b.closed <==> s.waiter.WaitSecond? || s.waiter.Returned?)
  }

  lemma InitialInv(s: State)
    requires Initial(s)
    ensures Inv(s)
  {
    assert s.a.arrived == [] + [] + s.a.unread;
    assert s.b.arrived == [] + [] + s.b.unread;
  }

  /** Only the waiter closes, first one side and then the other. */
  lemma CloseEffect(s: State, step: Step)
    requires Enabled(s, step)
    ensures After(s, step).a.closed <==> s.a.closed || (step.Close? && s.waiter.CloseA?)
    ensures After(s, step).b.closed <==> s.b.closed || (step.Close? && !s.waiter.CloseA?)
  {
  }

  lemma StepForwards(s: State, step: Step, dst: Side)
    requires Forwards(s, dst) && Enabled(s, step)
    ensures Forwards(After(s, step), dst)
  {
    var src, w, s' := s.Conn(dst.Other()), s.Conn(dst).written, After(s, step);
    match step
    case Arrive(side, m) =>
      assert w + InHand(s.To(dst)) + src.unread + [m] == w + InHand(s.To(dst)) + (src.unread + [m]);
    case Read(d) =>
      assert d == dst ==> src.unread == [src.unread[0]] + src.unread[1..];
      assert d == dst ==> w + [] + src.unread == w + [src.unread[0]] + src.unread[1..];
    case Write(d) =>
      assert d == dst ==> w + [s.To(dst).m] + src.unread == (w + [s.To(dst).m]) + [] + src.unread;
    case _ =>
  }

  lemma StepInv(s: State, step: Step)
    requires Inv(s) && Enabled(s, step)
    ensures Inv(After(s, step))
  {
    StepForwards(s, step, A);
    StepForwards(s, step, B);
    hide Forwards;
  }

  // ----- Runs -----

  ghost predicate IsRun(states: seq<State>, steps: seq<Step>) {
    && |states| == |steps| + 1
    && forall i :: 0 <= i < |steps| ==> Enabled(states[i], steps[i]) && states[i + 1] == After(states[i], steps[i])
  }

  lemma {:induction false} RunInv(states: seq<State>, steps: seq<Step>)
    requires IsRun(states, steps) && Inv(states[0])
    ensures Inv(states[|steps|])
  {
    hide Inv, Enabled, After;
    if steps != [] {
      var n := |steps| - 1;
      RunInv(states[..n + 1], steps[..n]);
      StepInv(states[n], steps[n]);
    }
  }

  /** Each side is sent a prefix of what the other side sent; of what was read in a direction,
      at most one message was not passed on. */
  lemma RelayForwards(states: seq<State>, steps: seq<Step>, dst: Side)
    requires IsRun(states, steps) && Initial(states[0])
    ensures var s := states[|steps|];
            var src := s.Conn(dst.Other());
            && s.Conn(dst).written <= src.arrived
            && |s.Conn(dst).written| <= |src.arrived| - |src.unread| <= |s.Conn(dst).written| + 1
  {
    RunInv(states, steps);
    var s := states[|steps|];
    assert Forwards(s, dst);
  }

  // ----- Going on -----

  /** Both copiers at work, nobody waiting to close, nothing closed. */
  ghost predicate Flowing(s: State) {
    && (s.toA.Reading? || s.toA.Writing?) && (s.toB.Reading? || s.toB.Writing?)
    && s.waiter.WaitFirst? && s.done == 0 && !s.a.closed && !s.b.closed
  }

  ghost predicate ErrorFree(steps: seq<Step>) {
    forall i :: 0 <= i < |steps| ==> !steps[i].ReadError? && !steps[i].WriteError?
  }

  lemma StepFlows(s: State, step: Step)
    requires Flowing(s) && Enabled(s, step) && !step.ReadError? && !step.WriteError?
    ensures Flowing(After(s, step))
  {
  }

  /** A copier stops only on an error: as long as no read or write fails, both copiers go on and
      nothing is closed. */
  lemma {:induction false} RunFlows(states: seq<State>, steps: seq<Step>)
    requires IsRun(states, steps) && Initial(states[0]) && ErrorFree(steps)
    ensures Flowing(states[|steps|])
  {
    hide Enabled, After;
    if steps != [] {
      var n := |steps| - 1;
      RunFlows(states[..n + 1], steps[..n]);
      StepFlows(states[n], steps[n]);
    }
  }

  /** And when there is nothing left for a copier to read or write, everything that arrived on its
      side has been passed on. */
  lemma EverythingForwarded(states: seq<State>, steps: seq<Step>, dst: Side)
    requires IsRun(states, steps) && Initial(states[0]) && ErrorFree(steps)
    ensures var s := states[|steps|];
            && Flowing(s)
            && (!Enabled(s, Read(dst)) && !Enabled(s, Write(dst)) ==>
                  s.Conn(dst).written == s.Conn(dst.Other()).arrived)
  {
    RunFlows(states, steps);
    RunInv(states, steps);
    var s := states[|steps|];
    assert Forwards(s, dst);
    assert s.Conn(dst).written + [] + [] == s.Conn(dst).written;
  }

  /** Any message that arrives on an open connection while its copier waits can be passed on. */
  lemma PassesOn(s: State, dst: Side, m: Message)
    requires Flowing(s) && s.To(dst).Reading? && s.Conn(dst.Other()).unread == []
    ensures Enabled(s, Arrive(dst.Other(), m))
    ensures var s1 := After(s, Arrive(dst.Other(), m));
            && Enabled(s1, Read(dst))
            && var s2 := After(s1, Read(dst));
               && Enabled(s2, Write(dst))
               && After(s2, Write(dst)).Conn(dst).written == s.Conn(dst).written + [m]
               && After(s2, Write(dst)).To(dst).Reading?
  {
  }

  ghost predicate ReachedBy(states: seq<State>, steps: seq<Step>, s: State) {
    IsRun(states, steps) && Initial(states[0]) && states[|steps|] == s
  }

  /** A state that some interleaving leads to from the start. */
  ghost predicate Reachable(s: State) {
    exists states, steps :: ReachedBy(states, steps, s)
  }

  /** A state that some interleaving leads to in which no read and no write failed. */
  ghost predicate ReachableWithoutError(s: State) {
    exists states, steps :: ReachedBy(states, steps, s) && ErrorFree(steps)
  }

  lemma ReachableForwards(s: State, dst: Side)
    requires Reachable(s)
    ensures s.Conn(dst).written <= s.Conn(dst.Other()).arrived
    ensures |s.Conn(dst.Other()).arrived| - |s.Conn(dst.Other()).unread| <= |s.Conn(dst).written| + 1
  {
    var states, steps :| ReachedBy(states, steps, s);
    RelayForwards(states, steps, dst);
  }

  lemma ReachableForwardsAll(s: State, dst: Side)
    requires ReachableWithoutError(s) && !Enabled(s, Read(dst)) && !Enabled(s, Write(dst))
    ensures s.Conn(dst).written == s.Conn(dst.Other()).arrived
  {
    var states, steps :| ReachedBy(states, steps, s) && ErrorFree(steps);
    EverythingForwarded(states, steps, dst);
  }

  lemma StartIsReachable(s: State)
    requires Initial(s)
    ensures Reachable(s)
  {
    assert ReachedBy([s], [], s);
  }

  lemma NextIsReachable(s: State, step: Step)
    requires Reachable(s) && Enabled(s, step)
    ensures Reachable(After(s, step))
  {
    var states, steps :| ReachedBy(states, steps, s);
    hide Enabled, After, Initial;
    assert ReachedBy(states + [After(s, step)], steps + [step], After(s, step));
  }

  // ----- Shutting down -----

  /** A copier that wants to report never finds the channel full. */
  lemma SignalNeverBlocks(s: State, dst: Side)
    requires Inv(s) && s.To(dst).Signalling?
    ensures Enabled(s, Signal(dst))
  {
  }

  /** When relay returns, both copiers have exited and both connections are closed. */
  lemma ReturnedIsClean(s: State)
    requires Inv(s) && s.waiter.Returned?
    ensures s.toA.Exited? && s.toB.Exited? && s.a.closed && s.b.closed && s.done == 0
  {
  }

  function Weight(p: Copier): nat {
    match p
    case Reading => 2
    case Writing(_) => 3
    case Signalling(_) => 1
    case Exited(_) => 0
  }

  function Remaining(w: Waiter): nat {
    match w
    case WaitFirst => 4
    case CloseA => 3
    case CloseB => 2
    case WaitSecond => 1
    case Returned => 0
  }

  function Measure(s: State): nat {
    Remaining(s.waiter) + Weight(s.toA) + Weight(s.toB) + 2 * (|s.a.unread| + |s.b.unread|)
  }

  /** Every step of the hub decreases the measure; only an arriving message increases it. */
  lemma StepMeasure(s: State, step: Step)
    requires Enabled(s, step)
    ensures step.Arrive? ==> Measure(After(s, step)) == Measure(s) + 2
    ensures !step.Arrive? ==> Measure(After(s, step)) < Measure(s)
  {
  }

  function Arrivals(steps: seq<Step>): nat {
    if steps == [] then 0
    else Arrivals(steps[..|steps| - 1]) + if steps[|steps| - 1].Arrive? then 1 else 0
  }

  /** However the goroutines interleave, the hub's own steps are bounded by the messages that
      arrive. */
  lemma {:induction false} RunBounded(states: seq<State>, steps: seq<Step>)
    requires IsRun(states, steps)
    ensures |steps| + Measure(states[|steps|]) <= Measure(states[0]) + 3 * Arrivals(steps)
  {
    hide Enabled, After, Measure;
    if steps != [] {
      var n := |steps| - 1;
      RunBounded(states[..n + 1], steps[..n]);
      StepMeasure(states[n], steps[n]);
    }
  }

  /** A step that needs nobody else: calls on a connection that the hub has closed return. */
  ghost predicate Prompt(s: State, step: Step) {
    && Enabled(s, step)
    && match step
       case Signal(_) => true
       case Receive => true
       case Close => true
       case ReadError(dst) => s.Conn(dst.Other()).closed
       case WriteError(dst) => s.Conn(dst).closed
       case _ => false
  }

  ghost function PromptStep(s: State): Step {
    if s.toA.Signalling? then Signal(A)
    else if s.toB.Signalling? then Signal(B)
    else if s.waiter.CloseA? || s.waiter.CloseB? then Close
    else if s.done > 0 then Receive
    else
      var dst := if s.toA.Exited? then B else A;
      if s.To(dst).Reading? then ReadError(dst) else WriteError(dst)
  }

  ghost predicate Stopping(s: State) {
    !s.waiter.WaitFirst? || s.toA.Signalling? || s.toA.Exited? || s.toB.Signalling? || s.toB.Exited?
  }

  /** Once a copier has stopped, relay is never stuck before it returns. */
  lemma NeverStuck(s: State)
    requires Inv(s) && Stopping(s) && !s.waiter.Returned?
    ensures Prompt(s, PromptStep(s))
  {
    hide Forwards;
  }

  lemma StoppingStays(s: State, step: Step)
    requires Stopping(s) && Enabled(s, step)
    ensures Stopping(After(s, step))
  {
  }

  /** From the first copier's stop to the return: the steps are bounded by the messages that still
      arrive, and a run with no prompt step left has returned, both copiers exited and both
      connections closed. */
  lemma {:induction false} StoppingBounded(states: seq<State>, steps: seq<Step>)
    requires IsRun(states, steps) && Inv(states[0]) && Stopping(states[0])
    ensures |steps| <= Measure(states[0]) + 3 * Arrivals(steps)
    ensures Stopping(states[|steps|])
    ensures (forall step :: !Prompt(states[|steps|], step)) ==>
              var s := states[|steps|];
              s.waiter.Returned? && s.toA.Exited? && s.toB.Exited? && s.a.closed && s.b.closed
  {
    hide Inv, Enabled, After, Measure, Stopping, Prompt;
    RunInv(states, steps);
    RunBounded(states, steps);
    if steps != [] {
      var n := |steps| - 1;
      StoppingBounded(states[..n + 1], steps[..n]);
      StoppingStays(states[n], steps[n]);
    }
    var s := states[|steps|];
    if s.waiter.Returned? {
      ReturnedIsClean(s);
    } else {
      NeverStuck(s);
    }
  }

  lemma ClosedStays(s: State, step: Step)
    requires Inv(s) && Enabled(s, step) && s.a.closed && s.b.closed
    ensures !step.Arrive? && After(s, step).a.closed && After(s, step).b.closed
  {
    hide Forwards;
  }

  /** With both connections closed, every run is short; one that cannot go on has returned. */
  lemma {:induction false} ShutdownBounded(states: seq<State>, steps: seq<Step>)
    requires IsRun(states, steps) && Inv(states[0]) && states[0].a.closed && states[0].b.closed
    ensures |steps| <= Measure(states[0])
    ensures (forall step :: !Enabled(states[|steps|], step)) ==> states[|steps|].waiter.Returned?
    ensures states[|steps|].a.closed && states[|steps|].b.closed && Arrivals(steps) == 0
  {
    hide Inv, Enabled, After, Measure;
    RunInv(states, steps);
    RunBounded(states, steps);
    if steps != [] {
      var n := |steps| - 1;
      RunInv(states[..n + 1], steps[..n]);
      ShutdownBounded(states[..n + 1], steps[..n]);
      ClosedStays(states[n], steps[n]);
    }
    var s := states[|steps|];
    if !s.waiter.Returned? {
      ClosedIsStopping(s);
      NeverStuck(s);
      PromptEnabled(s, PromptStep(s));
    }
  }

  lemma ClosedIsStopping(s: State)
    requires Inv(s) && s.a.closed
    ensures Stopping(s)
  {
  }

  lemma PromptEnabled(s: State, step: Step)
    requires Prompt(s, step)
    ensures Enabled(s, step)
  {
  }
}
