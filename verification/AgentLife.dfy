/** The agent process over its whole life: the reconnect loop, serve, and the pump goroutines,
    which may outlive the call of serve that started them. */
module AgentLife {
  import H = Hub

  type ConnId = nat
  type ShellId = nat

  datatype Pc =
    | Dialing
    | Handshaking(c: ConnId)
    | StartingShell(c: ConnId)
    | Reading(c: ConnId, sh: ShellId)
    | WritingShell(c: ConnId, sh: ShellId)
    | ClosingShell(c: ConnId, sh: ShellId)
    | ClosingConn(c: ConnId)
    | Returned
    | Sleeping
    | Exited
  {
    predicate HasConn() {
      Handshaking? || StartingShell? || HasShell() || ClosingConn?
    }

    predicate HasShell() {
      Reading? || WritingShell? || ClosingShell?
    }
  }

  datatype PumpPc = PumpReading | PumpWriting | PumpClosing | PumpExited

  datatype Pump = Pump(sh: ShellId, pc: PumpPc)

  /** open and shells are the connections and shells that the agent has not closed. Connections
      and shells are numbered in the order in which they are made. */
  datatype State = State(
    once: bool, pc: Pc, dialled: nat, started: nat,
    open: set<ConnId>, shells: set<ShellId>, pumps: map<ConnId, Pump>)

  datatype Step =
    | Dial(ok: bool)
    | HandshakeEnds(ok: bool, closedInside: bool)
    | StartShell(ok: bool)
    | ReadData
    | ReadFails
    | WriteShell(ok: bool)
    | CloseShell
    | CloseConn
    | Loop
    | Wake
    | PumpData(of: ConnId)
    | PumpReadFails(of: ConnId)
    | PumpWrites(of: ConnId, ok: bool)
    | PumpCloses(of: ConnId)
  {
    predicate IsPump() {
      PumpData? || PumpReadFails? || PumpWrites? || PumpCloses?
    }

    predicate IsPumpOf(c: ConnId) {
      IsPump() && of == c
    }
  }

  /** Dialling, the handshake, starting a shell, reads and writes may fail at any time. Nothing
      can be read from a closed shell or written to a closed connection. */
  ghost predicate Enabled(s: State, step: Step) {
    match step
    case Dial(_) => s.pc.Dialing?
    case HandshakeEnds(ok, closedInside) => s.pc.Handshaking? && !(ok && closedInside)
    case StartShell(_) => s.pc.StartingShell?
    case ReadData => s.pc.Reading?
    case ReadFails => s.pc.Reading?
    case WriteShell(_) => s.pc.WritingShell?
    case CloseShell => s.pc.ClosingShell?
    case CloseConn => s.pc.ClosingConn?
    case Loop => s.pc.Returned?
    case Wake => s.pc.Sleeping?
    case _ =>
      && step.of in s.pumps && !s.pc.Exited?
      && var p := s.pumps[step.of];
         match step
         case PumpData(_) => p.pc.PumpReading? && p.sh in s.shells
         case PumpReadFails(_) => p.pc.PumpReading?
         case PumpWrites(c, ok) => p.pc.PumpWriting? && (ok ==> c in s.open)
         case PumpCloses(_) => p.pc.PumpClosing?
  }

  ghost function WithPump(s: State, c: ConnId, pc: PumpPc): State
    requires c in s.pumps
  {
    s.(pumps := s.pumps[c := s.pumps[c].(pc := pc)])
  }

  ghost function After(s: State, step: Step): State
    requires Enabled(s, step)
  {
    match step
    case Dial(ok) =>
      if ok then s.(pc := Handshaking(s.dialled), dialled := s.dialled + 1, open := s.open + {s.dialled})
      else s.(pc := Returned)
    case HandshakeEnds(ok, closedInside) =>
      if ok then s.(pc := StartingShell(s.pc.c))
      else s.(pc := ClosingConn(s.pc.c), open := if closedInside then s.open - {s.pc.c} else s.open)
    case StartShell(ok) =>
      if ok then
        s.(pc := Reading(s.pc.c, s.started), started := s.started + 1, shells := s.shells + {s.started},
           pumps := s.pumps[s.pc.c := Pump(s.started, PumpReading)])
      else s.(pc := ClosingConn(s.pc.c))
    case ReadData => s.(pc := WritingShell(s.pc.c, s.pc.sh))
    case ReadFails => s.(pc := ClosingShell(s.pc.c, s.pc.sh))
    case WriteShell(ok) => s.(pc := if ok then Reading(s.pc.c, s.pc.sh) else ClosingShell(s.pc.c, s.pc.sh))
    case CloseShell => s.(pc := ClosingConn(s.pc.c), shells := s.shells - {s.pc.sh})
    case CloseConn => s.(pc := Returned, open := s.open - {s.pc.c})
    case Loop => s.(pc := if s.once then Exited else Sleeping)
    case Wake => s.(pc := Dialing)
    case PumpData(c) => WithPump(s, c, PumpWriting)
    case PumpReadFails(c) => WithPump(s, c, PumpClosing)
    case PumpWrites(c, ok) => WithPump(s, c, if ok then PumpReading else PumpClosing)
    case PumpCloses(c) => WithPump(s, c, PumpExited).(open := s.open - {c})
  }

  ghost predicate Initial(s: State) {
    s == State(s.once, Dialing, 0, 0, {}, {}, map[])
  }

  /** Only the connection that serve is working on can be open, and only its shell; a pump
      belongs to the connection and the shell that it was started with. */
  ghost predicate Inv(s: State) {
    && (forall c :: c in s.open ==> s.pc.HasConn() && c == s.pc.c)
    && (s.pc.Handshaking? || s.pc.StartingShell? ==> s.pc.c in s.open && s.pc.c !in s.pumps)
    && s.shells == (if s.pc.HasShell() then {s.pc.sh} else {})
    && (s.pc.HasConn() ==> s.pc.c < s.dialled)
    && (forall c :: c in s.pumps ==> c < s.dialled && s.pumps[c].sh < s.started)
    && (s.pc.HasShell() ==> s.pc.c in s.pumps)
    && (forall c :: c in s.pumps && s.pumps[c].sh in s.shells ==> c == s.pc.c)
    && (s.pc.Sleeping? ==> !s.once)
  }

  lemma PumpStepInv(s: State, step: Step)
    requires Inv(s) && Enabled(s, step) && step.IsPump()
    ensures Inv(After(s, step))
  {
  }

  lemma OwnStepInv(s: State, step: Step)
    requires Inv(s) && Enabled(s, step) && !step.IsPump()
    ensures Inv(After(s, step))
  {
  }

  lemma StepInv(s: State, step: Step)
    requires Inv(s) && Enabled(s, step)
    ensures Inv(After(s, step))
  {
    hide Inv, Enabled, After;
    if step.IsPump() {
      PumpStepInv(s, step);
    } else {
      OwnStepInv(s, step);
    }
  }

  ghost predicate IsRun(states: seq<State>, steps: seq<Step>) {
    && |states| == |steps| + 1 && Initial(states[0])
    && forall i :: 0 <= i < |steps| ==> Enabled(states[i], steps[i]) && states[i + 1] == After(states[i], steps[i])
  }

  lemma {:induction false} RunInv(states: seq<State>, steps: seq<Step>, i: nat)
    requires IsRun(states, steps) && i < |states|
    ensures Inv(states[i])
  {
    hide Inv, Enabled, After;
    if i == 0 {
      InitialInv(states[0]);
    } else {
      RunInv(states, steps, i - 1);
      StepInv(states[i - 1], steps[i - 1]);
    }
  }

  lemma InitialInv(s: State)
    requires Initial(s)
    ensures Inv(s)
  {
  }

  /** At every moment at most one connection and one shell are open; none is while the agent
      sleeps, dials or has exited, whichever way serve returned. */
  lemma AtMostOneOpen(states: seq<State>, steps: seq<Step>, i: nat)
    requires IsRun(states, steps) && i < |states|
    ensures |states[i].open| <= 1 && |states[i].shells| <= 1
    ensures !states[i].pc.HasConn() ==> states[i].open == {} && states[i].shells == {}
    ensures states[i].shells != {} ==> states[i].pc.HasShell()
  {
    RunInv(states, steps, i);
    var s := states[i];
    if s.pc.HasConn() {
      assert s.open <= {s.pc.c};
      assert |s.open| <= |{s.pc.c}| by { SubsetSize(s.open, {s.pc.c}); }
    } else {
      assert s.open == {};
    }
  }

  lemma {:induction false} SubsetSize<T>(a: set<T>, b: set<T>)
    requires a <= b
    ensures |a| <= |b|
  {
    if a != {} {
      var x :| x in a;
      SubsetSize(a - {x}, b - {x});
    }
  }

  // ----- Serving, and starting again -----

  /** A failure of one of serve's own calls. */
  predicate Fails(step: Step) {
    match step
    case Dial(ok) => !ok
    case HandshakeEnds(ok, _) => !ok
    case StartShell(ok) => !ok
    case ReadFails => true
    case WriteShell(ok) => !ok
    case _ => false
  }

  ghost predicate Serving(s: State, c: ConnId) {
    && (s.pc.Handshaking? || s.pc.StartingShell? || s.pc.Reading? || s.pc.WritingShell?)
    && s.pc.c == c && (s.pc.HasShell() ==> s.pc.sh in s.shells)
  }

  lemma StepServes(s: State, step: Step, c: ConnId)
    requires Serving(s, c) && Enabled(s, step) && !Fails(step)
    ensures Serving(After(s, step), c)
    ensures s.pc.HasShell() || step == StartShell(true) ==> After(s, step).pc.HasShell()
    ensures c in s.open && !(step.PumpCloses? && step.of == c) ==> c in After(s, step).open
  {
  }

  lemma DialServes(s: State)
    requires Enabled(s, Dial(true))
    ensures Serving(After(s, Dial(true)), s.dialled) && s.dialled in After(s, Dial(true)).open
  {
  }

  /** Once it has dialled the agent stays with that connection until one of serve's calls fails: it
      keeps it open, unless the pump closes it, and from the start of the shell on it serves it. */
  lemma {:induction false} ServesUntilFailure(states: seq<State>, steps: seq<Step>, j: nat, i: nat)
    requires IsRun(states, steps) && j < i < |states| && steps[j] == Dial(true)
    requires forall k :: j < k < i ==> !Fails(steps[k])
    ensures Serving(states[i], states[j].dialled)
    ensures (exists k :: j < k < i && steps[k] == StartShell(true)) ==> states[i].pc.HasShell()
    ensures (forall k :: j < k < i ==> steps[k] != PumpCloses(states[j].dialled)) ==>
              states[j].dialled in states[i].open
    decreases i
  {
    if j + 1 == i {
      DialServes(states[j]);
    } else {
      hide Enabled, After, Serving;
      ServesUntilFailure(states, steps, j, i - 1);
      StepServes(states[i - 1], steps[i - 1], states[j].dialled);
    }
  }

  function NextMain(pc: Pc): Step
    requires !pc.Exited?
  {
    match pc
    case Dialing => Dial(true)
    case Handshaking(_) => HandshakeEnds(true, false)
    case StartingShell(_) => StartShell(true)
    case Reading(_, _) => ReadData
    case WritingShell(_, _) => WriteShell(true)
    case ClosingShell(_, _) => CloseShell
    case ClosingConn(_) => CloseConn
    case Returned => Loop
    case Sleeping => Wake
  }

  /** The agent is never stuck, and unless a call fails it goes from the dial to the handshake, to
      the shell, and from then on reads and writes by turns. */
  lemma GoesOn(s: State)
    requires !s.pc.Exited?
    ensures Enabled(s, NextMain(s.pc))
    ensures var pc' := After(s, NextMain(s.pc)).pc;
            match s.pc
            case Dialing => pc' == Handshaking(s.dialled)
            case Handshaking(c) => pc' == StartingShell(c)
            case StartingShell(c) => pc' == Reading(c, s.started)
            case Reading(c, sh) => pc' == WritingShell(c, sh)
            case WritingShell(c, sh) => pc' == Reading(c, sh)
            case _ => ToDial(pc') < ToDial(s.pc)
  {
  }

  /** How many of its own steps the agent is away from dialling again. */
  function ToDial(pc: Pc): nat {
    match pc
    case ClosingShell(_, _) => 4
    case ClosingConn(_) => 3
    case Returned => 2
    case Sleeping => 1
    case _ => 0
  }

  /** After a failure everything is closed and the agent dials again, or exits after one session if
      it was told to: each of its own steps brings it closer, and no pump takes it back. */
  lemma FailureLeadsBack(s: State, step: Step)
    requires Inv(s) && Enabled(s, step) && (Fails(step) || ToDial(s.pc) > 0)
    ensures var pc' := After(s, step).pc;
            && (Fails(step) ==> ToDial(pc') > 0)
            && (!Fails(step) && step.IsPump() ==> pc' == s.pc)
            && (!Fails(step) && !step.IsPump() ==> ToDial(pc') < ToDial(s.pc))
            && (ToDial(pc') == 0 ==> pc' == if s.once then Exited else Dialing)
            && After(s, step).once == s.once
  {
  }

  /** A pump whose shell and connection are open reads and writes by turns; it stops only on a
      failure, and then closes its own connection and exits. */
  lemma PumpGoesOn(s: State, c: ConnId)
    requires c in s.pumps && !s.pc.Exited?
    ensures s.pumps[c].pc.PumpReading? && s.pumps[c].sh in s.shells ==>
              && Enabled(s, PumpData(c))
              && After(s, PumpData(c)) == s.(pumps := s.pumps[c := Pump(s.pumps[c].sh, PumpWriting)])
    ensures s.pumps[c].pc.PumpWriting? && c in s.open ==>
              && Enabled(s, PumpWrites(c, true))
              && After(s, PumpWrites(c, true)) == s.(pumps := s.pumps[c := Pump(s.pumps[c].sh, PumpReading)])
    ensures s.pumps[c].pc.PumpReading? ==>
              Enabled(s, PumpReadFails(c)) && After(s, PumpReadFails(c)).pumps[c].pc.PumpClosing?
    ensures s.pumps[c].pc.PumpWriting? ==>
              Enabled(s, PumpWrites(c, false)) && After(s, PumpWrites(c, false)).pumps[c].pc.PumpClosing?
    ensures s.pumps[c].pc.PumpClosing? ==>
              && Enabled(s, PumpCloses(c)) && After(s, PumpCloses(c)).pumps[c].pc.PumpExited?
              && After(s, PumpCloses(c)).open == s.open - {c}
  {
  }

  // ----- Pumps that outlive their session -----

  /** Connection c was dialled, and serve has moved on from it. */
  ghost predicate Past(s: State, c: ConnId) {
    c < s.dialled && !(s.pc.HasConn() && s.pc.c == c)
  }

  function PumpWork(p: Pump): nat {
    match p.pc
    case PumpClosing => 1
    case PumpExited => 0
    case _ => 2
  }

  ghost function WorkOf(s: State, c: ConnId): nat {
    if c in s.pumps then PumpWork(s.pumps[c]) else 0
  }

  lemma PastStays(s: State, step: Step, c: ConnId)
    requires Enabled(s, step) && Past(s, c)
    ensures Past(After(s, step), c)
  {
  }

  /** A leftover pump touches nothing but itself, and each of its steps brings it closer to its end ... */
  lemma PastPumpStep(s: State, step: Step, c: ConnId)
    requires Inv(s) && Enabled(s, step) && Past(s, c) && step.IsPumpOf(c)
    ensures After(s, step) == s.(pumps := After(s, step).pumps) && WorkOf(After(s, step), c) < WorkOf(s, c)
  {
  }

  /** ... and no other step delays it. */
  lemma PastOtherStep(s: State, step: Step, c: ConnId)
    requires Enabled(s, step) && Past(s, c) && !step.IsPumpOf(c)
    ensures WorkOf(After(s, step), c) == WorkOf(s, c)
  {
  }

  lemma PastIsClosed(s: State, c: ConnId)
    requires Inv(s) && Past(s, c)
    ensures c !in s.open && WorkOf(s, c) <= 2
  {
  }

  lemma PastStep(s: State, step: Step, c: ConnId)
    requires Inv(s) && Enabled(s, step) && Past(s, c)
    ensures Past(After(s, step), c)
    ensures WorkOf(After(s, step), c) + (if step.IsPumpOf(c) then 1 else 0) <= WorkOf(s, c)
  {
    hide Enabled, After, WorkOf, Inv, Past;
    PastStays(s, step, c);
    if step.IsPumpOf(c) {
      PastPumpStep(s, step, c);
    } else {
      PastOtherStep(s, step, c);
    }
  }

  /** How many of the steps from i up to j are steps of c's pump. */
  ghost function PumpSteps(steps: seq<Step>, i: nat, j: nat, c: ConnId): nat
    requires i <= j <= |steps|
  {
    if i == j then 0
    else PumpSteps(steps, i, j - 1, c) + if steps[j - 1].IsPumpOf(c) then 1 else 0
  }

  /** Once serve has moved on from a connection, that connection stays closed for good, and its
      pump takes at most two more steps. */
  lemma {:induction false} LeftoverPumpEnds(states: seq<State>, steps: seq<Step>, i: nat, j: nat, c: ConnId)
    requires IsRun(states, steps) && i <= j < |states| && Past(states[i], c)
    ensures Past(states[j], c) && c !in states[j].open
    ensures PumpSteps(steps, i, j, c) + WorkOf(states[j], c) <= WorkOf(states[i], c)
    ensures PumpSteps(steps, i, j, c) <= 2
    decreases j - i
  {
    RunInv(states, steps, j);
    RunInv(states, steps, i);
    hide Enabled, After, WorkOf, Inv, Past;
    if i < j {
      LeftoverPumpEnds(states, steps, i, j - 1, c);
      RunInv(states, steps, j - 1);
      PastStep(states[j - 1], steps[j - 1], c);
    }
    PastIsClosed(states[i], c);
    PastIsClosed(states[j], c);
  }

  // ----- Seen from the hub -----

  /** name gives the hub's name of each connection that the agent has dialled. Among all
      handlers of the hub at most one has a client for this agent. */
  lemma ServesOneClient(states: seq<State>, steps: seq<Step>, i: nat, hub: H.State, name: map<ConnId, H.ConnId>,
                        h: H.HandlerId, k: H.HandlerId)
    requires IsRun(states, steps) && i < |states| && H.Inv(hub)
    requires h in hub.connects && k in hub.connects && hub.connects[h].HasAgent() && hub.connects[k].HasAgent()
    requires exists c :: c in name && c in states[i].open && name[c] == hub.connects[h].agent
    requires exists c :: c in name && c in states[i].open && name[c] == hub.connects[k].agent
    ensures h == k
  {
    RunInv(states, steps, i);
    hide H.Inv, Enabled, After;
    if h != k {
      H.HoldersDisjoint(hub, h, k);
    }
  }
}
