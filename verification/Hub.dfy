/** The hub's request handlers, interleaved: each agent or connect request is a program
    counter, and each operation on the registry or on the audit log is one step. */
module Hub {
  import opened Wrappers
  import R = Registry
  import L = Audit
  import W = Relay

  type ConnId = nat
  type HandlerId = nat
  type Key = (string, string)

  /** handleAgent: before Add, after Add with the displaced connection in hand, and done. */
  datatype AgentPc =
    | AgentUpgraded(peer: R.Peer, conn: ConnId)
    | AgentAdded(displaced: Option<ConnId>)
    | AgentDone

  /** handleConnect: before Take, after a failed Take, and the stages of a brokered session. */
  datatype ConnectPc =
    | ClientUpgraded(key: Key, client: ConnId)
    | Missed(client: ConnId)
    | Took(key: Key, client: ConnId, agent: ConnId)
    | Started(key: Key, client: ConnId, agent: ConnId, session: nat)
    | Relaying(key: Key, client: ConnId, agent: ConnId, session: nat, relay: W.State)
    | Relayed(key: Key, session: nat)
    | ConnectDone
  {
    predicate HasClient() {
      ClientUpgraded? || Missed? || Took? || Started? || Relaying?
    }

    predicate HasAgent() {
      Took? || Started? || Relaying?
    }

    predicate HasKey() {
      !Missed? && !ConnectDone?
    }

    /** Between Start and End of the audit session. */
    predicate InSession() {
      Started? || Relaying? || Relayed?
    }
  }

  /** Where a connection is. */
  datatype Place =
    | Awaiting(h: HandlerId)
    | Registered(key: Key)
    | Displaced(h: HandlerId)
    | HeldAgent(h: HandlerId)
    | HeldClient(h: HandlerId)
    | Gone

  /** place is an auxiliary record of where each connection was last put; Inv ties it to the
      real state. */
  datatype State = State(
    reg: map<Key, R.Record<ConnId>>,
    agents: map<HandlerId, AgentPc>,
    connects: map<HandlerId, ConnectPc>,
    history: seq<L.Entry>,
    active: int,
    closed: set<ConnId>,
    place: map<ConnId, Place>)

  datatype Step =
    | UpgradeAgent(h: HandlerId, peer: R.Peer, conn: ConnId)
    | AddAgent(h: HandlerId)
    | CloseDisplaced(h: HandlerId)
    | UpgradeClient(h: HandlerId, key: Key, conn: ConnId)
    | TakePeer(h: HandlerId)
    | CloseMissed(h: HandlerId)
    | StartSession(h: HandlerId, now: L.Time)
    | BeginRelay(h: HandlerId, fromClient: seq<W.Message>, fromAgent: seq<W.Message>)
    | RelayStep(h: HandlerId, inner: W.Step)
    | FinishRelay(h: HandlerId)
    | EndSession(h: HandlerId, now: L.Time)

  ghost predicate Initial(s: State) {
    s == State(map[], map[], map[], [], 0, {}, map[])
  }

  ghost predicate Enabled(s: State, step: Step) {
    match step
    case UpgradeAgent(h, peer, c) => h !in s.agents && c !in s.place && peer.network != "" && peer.name != ""
    case AddAgent(h) => h in s.agents && s.agents[h].AgentUpgraded?
    case CloseDisplaced(h) => h in s.agents && s.agents[h].AgentAdded?
    case UpgradeClient(h, key, c) => h !in s.connects && c !in s.place && key.0 != "" && key.1 != ""
    case TakePeer(h) => h in s.connects && s.connects[h].ClientUpgraded?
    case CloseMissed(h) => h in s.connects && s.connects[h].Missed?
    case StartSession(h, now) => h in s.connects && s.connects[h].Took? && now != L.ZERO_TIME
    case BeginRelay(h, _, _) => h in s.connects && s.connects[h].Started?
    case RelayStep(h, inner) => h in s.connects && s.connects[h].Relaying? && W.Enabled(s.connects[h].relay, inner)
    case FinishRelay(h) => h in s.connects && s.connects[h].Relaying? && s.connects[h].relay.waiter.Returned?
    case EndSession(h, now) => h in s.connects && s.connects[h].Relayed? && now != L.ZERO_TIME
  }

  ghost function AfterAdd(s: State, h: HandlerId, peer: R.Peer, c: ConnId): State {
    var key := (peer.network, peer.name);
    var prev := if key in s.reg then Some(s.reg[key].conn) else None;
    var place := s.place[c := Registered(key)];
    s.(reg := s.reg[key := R.Record(peer, c)],
       agents := s.agents[h := AgentAdded(prev)],
       place := if prev.Some? then place[prev.value := Displaced(h)] else place)
  }

  ghost function AfterTake(s: State, h: HandlerId, key: Key, client: ConnId): State {
    if key in s.reg then
      var agent := s.reg[key].conn;
      s.(reg := s.reg - {key},
         connects := s.connects[h := Took(key, client, agent)],
         place := s.place[agent := HeldAgent(h)])
    else s.(connects := s.connects[h := Missed(client)])
  }

  ghost function CloseConn(s: State, c: ConnId): State {
    s.(closed := s.closed + {c}, place := s.place[c := Gone])
  }

  /** The count as Log.End keeps it, guard included. */
  function ActiveAfterEnd(history: seq<L.Entry>, active: int, i: nat): int {
    if i < |history| && history[i].ended == L.ZERO_TIME then
      if active > 0 then active - 1 else active
    else active
  }

  ghost function After(s: State, step: Step): State
    requires Enabled(s, step)
  {
    match step
    case UpgradeAgent(h, peer, c) =>
      s.(agents := s.agents[h := AgentUpgraded(peer, c)], place := s.place[c := Awaiting(h)])
    case AddAgent(h) => AfterAdd(s, h, s.agents[h].peer, s.agents[h].conn)
    case CloseDisplaced(h) =>
      var s' := s.(agents := s.agents[h := AgentDone]);
      if s.agents[h].displaced.Some? then CloseConn(s', s.agents[h].displaced.value) else s'
    case UpgradeClient(h, key, c) =>
      s.(connects := s.connects[h := ClientUpgraded(key, c)], place := s.place[c := HeldClient(h)])
    case TakePeer(h) => AfterTake(s, h, s.connects[h].key, s.connects[h].client)
    case CloseMissed(h) => CloseConn(s.(connects := s.connects[h := ConnectDone]), s.connects[h].client)
    case StartSession(h, now) =>
      var p := s.connects[h];
      s.(connects := s.connects[h := Started(p.key, p.client, p.agent, |s.history|)],
         history := L.Apply(s.history, L.StartOp(p.key.0, p.key.1, now)),
         active := s.active + 1)
    case BeginRelay(h, qa, qb) =>
      var p := s.connects[h];
      var relay := W.State(W.Conn(qa, qa, [], false), W.Conn(qb, qb, [], false), W.Reading, W.Reading, W.WaitFirst, 0);
      s.(connects := s.connects[h := Relaying(p.key, p.client, p.agent, p.session, relay)])
    case RelayStep(h, inner) =>
      var p := s.connects[h];
      s.(connects := s.connects[h := p.(relay := W.After(p.relay, inner))],
         closed := if !inner.Close? then s.closed
                   else if p.relay.waiter.CloseA? then s.closed + {p.client} else s.closed + {p.agent})
    case FinishRelay(h) =>
      var p := s.connects[h];
      s.(connects := s.connects[h := Relayed(p.key, p.session)], place := s.place[p.client := Gone][p.agent := Gone])
    case EndSession(h, now) =>
      var i := s.connects[h].session;
      s.(connects := s.connects[h := ConnectDone],
         history := L.Apply(s.history, L.EndOp(i, now)),
         active := ActiveAfterEnd(s.history, s.active, i))
  }

  // ----- Ownership -----

  /** What the real state says about a connection. */
  ghost predicate At(s: State, c: ConnId, p: Place) {
    match p
    case Awaiting(h) => h in s.agents && s.agents[h].AgentUpgraded? && s.agents[h].conn == c
    case Registered(key) => key in s.reg && s.reg[key].conn == c
    case Displaced(h) => h in s.agents && s.agents[h] == AgentAdded(Some(c))
    case HeldAgent(h) => h in s.connects && s.connects[h].HasAgent() && s.connects[h].agent == c
    case HeldClient(h) => h in s.connects && s.connects[h].HasClient() && s.connects[h].client == c
    case Gone => false
  }

  ghost predicate Owned(s: State) {
    && (forall c, p :: At(s, c, p) ==> c in s.place && s.place[c] == p)
    && (forall c :: c in s.place ==> s.place[c].Gone? || At(s, c, s.place[c]))
  }

  lemma OwnedUpgradeAgent(s: State, step: Step)
    requires Owned(s) && Enabled(s, step) && step.UpgradeAgent?
    ensures Owned(After(s, step))
  {
    var s' := After(s, step);
    forall c, p | At(s', c, p) ensures c in s'.place && s'.place[c] == p {
      assert At(s, c, p) || (c == step.conn && p == Awaiting(step.h));
    }
  }

  lemma OwnedAddAgent(s: State, step: Step)
    requires Owned(s) && Enabled(s, step) && step.AddAgent?
    ensures Owned(After(s, step))
  {
    var p := s.agents[step.h];
    var key := (p.peer.network, p.peer.name);
    assert At(s, p.conn, Awaiting(step.h));
    assert key in s.reg ==> At(s, s.reg[key].conn, Registered(key));
    var s' := After(s, step);
    forall c, p | At(s', c, p) ensures c in s'.place && s'.place[c] == p {
      assert At(s, c, p) || (c == s.agents[step.h].conn && p.Registered?) || (p == Displaced(step.h));
    }
  }

  lemma OwnedCloseDisplaced(s: State, step: Step)
    requires Owned(s) && Enabled(s, step) && step.CloseDisplaced?
    ensures Owned(After(s, step))
  {
    var p := s.agents[step.h];
    assert p.displaced.Some? ==> At(s, p.displaced.value, Displaced(step.h));
    var s' := After(s, step);
    forall c, p | At(s', c, p) ensures c in s'.place && s'.place[c] == p {
      assert At(s, c, p);
    }
  }

  lemma OwnedTakePeer(s: State, step: Step)
    requires Owned(s) && Enabled(s, step) && step.TakePeer?
    ensures Owned(After(s, step))
  {
    var key := s.connects[step.h].key;
    assert At(s, s.connects[step.h].client, HeldClient(step.h));
    assert key in s.reg ==> At(s, s.reg[key].conn, Registered(key));
    var s' := After(s, step);
    forall c, p | At(s', c, p) ensures c in s'.place && s'.place[c] == p {
      assert At(s, c, p) || (p == HeldAgent(step.h));
    }
  }

  lemma OwnedFinishRelay(s: State, step: Step)
    requires Owned(s) && Enabled(s, step) && step.FinishRelay?
    ensures Owned(After(s, step))
  {
    assert At(s, s.connects[step.h].client, HeldClient(step.h));
    assert At(s, s.connects[step.h].agent, HeldAgent(step.h));
    var s' := After(s, step);
    forall c, p | At(s', c, p) ensures c in s'.place && s'.place[c] == p {
      assert At(s, c, p);
    }
  }

  lemma OwnedCloseMissed(s: State, step: Step)
    requires Owned(s) && Enabled(s, step) && step.CloseMissed?
    ensures Owned(After(s, step))
  {
    assert At(s, s.connects[step.h].client, HeldClient(step.h));
    var s' := After(s, step);
    forall c, p | At(s', c, p) ensures c in s'.place && s'.place[c] == p {
      assert At(s, c, p);
    }
  }

  lemma OwnedOther(s: State, step: Step)
    requires Owned(s) && Enabled(s, step)
    requires step.UpgradeClient? || step.StartSession? || step.BeginRelay? || step.RelayStep? || step.EndSession?
    ensures Owned(After(s, step))
  {
    hide W.Enabled, W.After;
    var s' := After(s, step);
    forall c, p | At(s', c, p) ensures c in s'.place && s'.place[c] == p {
      assert At(s, c, p) || (step.UpgradeClient? && c == step.conn && p == HeldClient(step.h));
    }
  }

  lemma StepOwned(s: State, step: Step)
    requires Owned(s) && Enabled(s, step)
    ensures Owned(After(s, step))
  {
    hide Owned, After, Enabled;
    match step
    case UpgradeAgent(_, _, _) => OwnedUpgradeAgent(s, step);
    case AddAgent(_) => OwnedAddAgent(s, step);
    case CloseDisplaced(_) => OwnedCloseDisplaced(s, step);
    case TakePeer(_) => OwnedTakePeer(s, step);
    case FinishRelay(_) => OwnedFinishRelay(s, step);
    case CloseMissed(_) => OwnedCloseMissed(s, step);
    case _ => OwnedOther(s, step);
  }

  // ----- Closing -----

  ghost predicate ClosedAt(s: State, p: Place) {
    match p
    case Gone => true
    case HeldClient(h) => h in s.connects && s.connects[h].Relaying? && s.connects[h].relay.a.closed
    case HeldAgent(h) => h in s.connects && s.connects[h].Relaying? && s.connects[h].relay.b.closed
    case _ => false
  }

  /** A connection is closed exactly when its place says so: by its owner, and by nobody else. */
  ghost predicate ClosedOk(s: State) {
    && s.closed <= s.place.Keys
    && (forall c :: c in s.place ==> (c in s.closed <==> ClosedAt(s, s.place[c])))
  }

  ghost predicate RelaysOk(s: State) {
    forall h :: h in s.connects && s.connects[h].Relaying? ==> W.Inv(s.connects[h].relay)
  }

  lemma StepRelaysOk(s: State, step: Step)
    requires RelaysOk(s) && Enabled(s, step)
    ensures RelaysOk(After(s, step))
  {
    if step.RelayStep? {
      W.StepInv(s.connects[step.h].relay, step.inner);
    }
    hide W.Inv, W.After, W.Enabled;
    if step.BeginRelay? {
      W.InitialInv(After(s, step).connects[step.h].relay);
    }
  }

  lemma ClosedRelayStep(s: State, step: Step)
    requires Owned(s) && ClosedOk(s) && Enabled(s, step) && step.RelayStep?
    ensures ClosedOk(After(s, step))
  {
    var h, p := step.h, s.connects[step.h];
    assert At(s, p.client, HeldClient(h)) && At(s, p.agent, HeldAgent(h));
    W.CloseEffect(p.relay, step.inner);
    hide W.After, W.Enabled;
    forall c | c in s.place ensures c in After(s, step).closed <==> ClosedAt(After(s, step), s.place[c]) {
      assert s.place[c].HeldClient? || s.place[c].HeldAgent? ==> At(s, c, s.place[c]);
    }
  }

  lemma ClosedFinishRelay(s: State, step: Step)
    requires Owned(s) && ClosedOk(s) && RelaysOk(s) && Enabled(s, step) && step.FinishRelay?
    ensures ClosedOk(After(s, step))
  {
    var h, p := step.h, s.connects[step.h];
    assert At(s, p.client, HeldClient(h)) && At(s, p.agent, HeldAgent(h));
    W.ReturnedIsClean(p.relay);
    hide W.Inv;
    forall c | c in s.place ensures c in s.closed <==> ClosedAt(After(s, step), After(s, step).place[c]) {
      assert s.place[c].HeldClient? || s.place[c].HeldAgent? ==> At(s, c, s.place[c]);
    }
  }

  lemma ClosedAgentStep(s: State, step: Step)
    requires Owned(s) && ClosedOk(s) && Enabled(s, step)
    requires step.UpgradeAgent? || step.AddAgent? || step.CloseDisplaced?
    ensures ClosedOk(After(s, step))
  {
    hide W.Enabled;
    if step.AddAgent? {
      var p := s.agents[step.h];
      var key := (p.peer.network, p.peer.name);
      assert At(s, p.conn, Awaiting(step.h));
      assert key in s.reg ==> At(s, s.reg[key].conn, Registered(key));
    }
  }

  lemma ClosedConnectStep(s: State, step: Step)
    requires Owned(s) && ClosedOk(s) && Enabled(s, step)
    requires step.UpgradeClient? || step.TakePeer? || step.CloseMissed?
             || step.StartSession? || step.BeginRelay? || step.EndSession?
    ensures ClosedOk(After(s, step))
  {
    hide W.Enabled;
    var s' := After(s, step);
    if step.TakePeer? {
      var key := s.connects[step.h].key;
      assert key in s.reg ==> At(s, s.reg[key].conn, Registered(key));
    }
    forall c | c in s'.place ensures c in s'.closed <==> ClosedAt(s', s'.place[c]) {
      assert c in s.place && !s.place[c].Gone? ==> At(s, c, s.place[c]);
    }
  }

  // ----- The live session count -----

  ghost function Sessions(s: State): set<HandlerId> {
    set h | h in s.connects && s.connects[h].InSession()
  }

  /** The session is open and says which peer of which network was reached. */
  ghost predicate Recorded(history: seq<L.Entry>, p: ConnectPc)
    requires p.InSession()
  {
    && p.session < |history|
    && history[p.session].ended == L.ZERO_TIME
    && history[p.session].network == p.key.0 && history[p.session].peer == p.key.1
  }

  /** Every handler between Start and End owns an open session of its own, and the count is
      both the number of such handlers and the number of open sessions in the full history,
      those that the bounded log has dropped included. */
  ghost predicate AuditOk(s: State) {
    && (forall h :: h in s.connects && s.connects[h].InSession() ==> Recorded(s.history, s.connects[h]))
    && (forall h, k :: h in s.connects && s.connects[h].InSession()
                       && k in s.connects && s.connects[k].InSession() && h != k
          ==> s.connects[h].session != s.connects[k].session)
    && s.active == |Sessions(s)| == L.OpenCount(s.history)
  }

  lemma SessionsGrow(s: State, s': State, h: HandlerId, p: ConnectPc)
    requires h in s.connects && !s.connects[h].InSession() && p.InSession()
    requires s'.connects == s.connects[h := p]
    ensures |Sessions(s')| == |Sessions(s)| + 1
  {
    assert Sessions(s') == Sessions(s) + {h};
  }

  lemma SessionsShrink(s: State, s': State, h: HandlerId)
    requires h in s.connects && s.connects[h].InSession()
    requires s'.connects == s.connects[h := ConnectDone]
    ensures |Sessions(s')| == |Sessions(s)| - 1
  {
    assert h in Sessions(s);
    assert Sessions(s') == Sessions(s) - {h};
  }

  lemma AuditStart(s: State, step: Step)
    requires AuditOk(s) && Enabled(s, step) && step.StartSession?
    ensures AuditOk(After(s, step))
  {
    hide W.Enabled, W.After, AuditOk, L.Apply;
    var p := s.connects[step.h];
    SessionAdded(s, After(s, step), step.h, Started(p.key, p.client, p.agent, |s.history|),
                 L.StartOp(p.key.0, p.key.1, step.now));
  }

  lemma SessionAdded(s: State, s': State, h: HandlerId, p: ConnectPc, op: L.Op)
    requires AuditOk(s) && h in s.connects && !s.connects[h].InSession()
    requires op.StartOp? && p.InSession() && p.session == |s.history| && p.key == (op.network, op.peer)
    requires s'.connects == s.connects[h := p] && s'.history == L.Apply(s.history, op) && s'.active == s.active + 1
    ensures AuditOk(s')
  {
    SessionsGrow(s, s', h, p);
    L.StartCounts(s.history, op);
    assert forall i :: 0 <= i < |s.history| ==> s'.history[i] == s.history[i];
    hide L.OpenCount, Sessions;
  }

  lemma AuditEnd(s: State, step: Step)
    requires AuditOk(s) && Enabled(s, step) && step.EndSession?
    ensures AuditOk(After(s, step))
    ensures s.active > 0 && After(s, step).active == s.active - 1
  {
    hide W.Enabled, W.After;
    SessionRemoved(s, After(s, step), step.h, step.now);
  }

  lemma SessionRemoved(s: State, s': State, h: HandlerId, now: L.Time)
    requires AuditOk(s) && h in s.connects && s.connects[h].InSession() && now != L.ZERO_TIME
    requires s'.connects == s.connects[h := ConnectDone]
    requires s'.history == L.Apply(s.history, L.EndOp(s.connects[h].session, now))
    requires s'.active == ActiveAfterEnd(s.history, s.active, s.connects[h].session)
    ensures AuditOk(s') && s.active > 0 && s'.active == s.active - 1
  {
    L.EndCounts(s.history, s.connects[h].session, now, now);
    SessionsShrink(s, s', h);
    hide L.OpenCount, Sessions;
  }

  /** No other step touches the log, or the session of any handler. */
  lemma OtherKeepsSessions(s: State, step: Step, h: HandlerId)
    requires Enabled(s, step) && !step.StartSession? && !step.EndSession?
    ensures var s' := After(s, step);
            && (h in s'.connects && s'.connects[h].InSession() <==> h in s.connects && s.connects[h].InSession())
            && (h in s.connects && s.connects[h].InSession() ==>
                  s'.connects[h].session == s.connects[h].session && s'.connects[h].key == s.connects[h].key)
            && s'.history == s.history && s'.active == s.active
  {
    hide W.Enabled, W.After;
  }

  lemma AuditOther(s: State, step: Step)
    requires AuditOk(s) && Enabled(s, step) && !step.StartSession? && !step.EndSession?
    ensures AuditOk(After(s, step))
  {
    hide Enabled, After;
    var s' := After(s, step);
    forall h
      ensures h in s'.connects && s'.connects[h].InSession() <==> h in s.connects && s.connects[h].InSession()
      ensures h in s.connects && s.connects[h].InSession() ==>
                s'.connects[h].session == s.connects[h].session && s'.connects[h].key == s.connects[h].key
    {
      OtherKeepsSessions(s, step, h);
    }
    OtherKeepsSessions(s, step, 0);
    assert Sessions(s') == Sessions(s);
  }

  // ----- Every reachable state -----

  ghost predicate Inv(s: State) {
    Owned(s) && ClosedOk(s) && RelaysOk(s) && AuditOk(s)
  }

  lemma InitialInv(s: State)
    requires Initial(s)
    ensures Inv(s)
  {
    assert Sessions(s) == {};
  }

  lemma StepInv(s: State, step: Step)
    requires Inv(s) && Enabled(s, step)
    ensures Inv(After(s, step))
  {
    hide Owned, ClosedOk, RelaysOk, AuditOk, After, Enabled;
    StepOwned(s, step);
    StepRelaysOk(s, step);
    match step {
      case UpgradeAgent(_, _, _) => ClosedAgentStep(s, step);
      case AddAgent(_) => ClosedAgentStep(s, step);
      case CloseDisplaced(_) => ClosedAgentStep(s, step);
      case RelayStep(_, _) => ClosedRelayStep(s, step);
      case FinishRelay(_) => ClosedFinishRelay(s, step);
      case _ => ClosedConnectStep(s, step);
    }
    match step {
      case StartSession(_, _) => AuditStart(s, step);
      case EndSession(_, _) => AuditEnd(s, step);
      case _ => AuditOther(s, step);
    }
  }

  ghost predicate IsRun(states: seq<State>, steps: seq<Step>) {
    && |states| == |steps| + 1 && Initial(states[0])
    && forall i :: 0 <= i < |steps| ==> Enabled(states[i], steps[i]) && states[i + 1] == After(states[i], steps[i])
  }

  lemma {:induction false} RunInv(states: seq<State>, steps: seq<Step>)
    requires IsRun(states, steps)
    ensures forall i :: 0 <= i < |states| ==> Inv(states[i])
  {
    hide Inv, Enabled, After, Initial;
    if steps == [] {
      InitialInv(states[0]);
    } else {
      var n := |steps| - 1;
      RunInv(states[..n + 1], steps[..n]);
      assert states[..n + 1][n] == states[n];
      StepInv(states[n], steps[n]);
      forall i | 0 <= i < |states| ensures Inv(states[i]) {
        assert i <= n ==> states[..n + 1][i] == states[i];
      }
    }
  }

  /** In every reachable state a connection is closed, or it is in exactly one place: awaiting
      Add, registered, displaced, or held by one handleConnect. */
  lemma ExactlyOnePlace(states: seq<State>, steps: seq<Step>, i: nat, c: ConnId)
    requires IsRun(states, steps) && i < |states| && c in states[i].place
    ensures c !in states[i].closed ==> exists p :: At(states[i], c, p)
    ensures forall p, q :: At(states[i], c, p) && At(states[i], c, q) ==> p == q
  {
    RunInv(states, steps);
    var s := states[i];
    assert s.place[c].Gone? || At(s, c, s.place[c]);
  }

  /** Two handlers never hold a connection in common, and none twice. */
  lemma HoldersDisjoint(s: State, h: HandlerId, k: HandlerId)
    requires Inv(s) && h in s.connects && k in s.connects
    requires s.connects[h].HasAgent() && s.connects[k].HasClient()
    ensures s.connects[h].agent != s.connects[k].client
    ensures h != k ==> s.connects[h].client != s.connects[k].client
    ensures h != k && s.connects[k].HasAgent() ==> s.connects[h].agent != s.connects[k].agent
  {
    assert At(s, s.connects[h].agent, HeldAgent(h));
    assert At(s, s.connects[h].client, HeldClient(h)) && At(s, s.connects[k].client, HeldClient(k));
    assert s.connects[k].HasAgent() ==> At(s, s.connects[k].agent, HeldAgent(k));
  }

  /** What handleAgent is about to close is open, no longer registered, and held by no handler:
      in particular it is not being relayed. */
  lemma DisplacedIsIdle(s: State, h: HandlerId, c: ConnId)
    requires Inv(s) && h in s.agents && s.agents[h] == AgentAdded(Some(c))
    ensures c !in s.closed
    ensures forall key :: key in s.reg ==> s.reg[key].conn != c
    ensures forall k :: k in s.connects && s.connects[k].HasClient() ==> s.connects[k].client != c
    ensures forall k :: k in s.connects && s.connects[k].HasAgent() ==> s.connects[k].agent != c
  {
    assert At(s, c, Displaced(h));
    forall key | key in s.reg ensures s.reg[key].conn != c {
      assert At(s, s.reg[key].conn, Registered(key));
    }
    forall k | k in s.connects && s.connects[k].HasClient() ensures s.connects[k].client != c {
      assert At(s, s.connects[k].client, HeldClient(k));
    }
    forall k | k in s.connects && s.connects[k].HasAgent() ensures s.connects[k].agent != c {
      assert At(s, s.connects[k].agent, HeldAgent(k));
    }
  }

  function Rank(p: Place): nat {
    match p
    case Awaiting(_) => 0
    case Registered(_) => 1
    case Displaced(_) => 2
    case HeldAgent(_) => 2
    case HeldClient(_) => 2
    case Gone => 3
  }

  /** A connection only moves forward: once taken or displaced it is never registered again,
      never changes hands, and once closed it stays closed. */
  lemma PlaceMovesForward(s: State, step: Step, c: ConnId)
    requires Inv(s) && Enabled(s, step) && c in s.place
    ensures var s' := After(s, step);
            && c in s'.place
            && (s'.place[c] == s.place[c] || Rank(s.place[c]) < Rank(s'.place[c]))
            && (c in s.closed ==> c in s'.closed)
  {
    hide W.Enabled, W.After, W.Inv, AuditOk, RelaysOk;
    match step
    case AddAgent(h) =>
      var p := s.agents[h];
      var key := (p.peer.network, p.peer.name);
      assert At(s, p.conn, Awaiting(h));
      assert key in s.reg ==> At(s, s.reg[key].conn, Registered(key));
    case CloseDisplaced(h) =>
      assert s.agents[h].displaced.Some? ==> At(s, s.agents[h].displaced.value, Displaced(h));
    case TakePeer(h) =>
      var key := s.connects[h].key;
      assert key in s.reg ==> At(s, s.reg[key].conn, Registered(key));
    case CloseMissed(h) => assert At(s, s.connects[h].client, HeldClient(h));
    case FinishRelay(h) =>
      assert At(s, s.connects[h].client, HeldClient(h)) && At(s, s.connects[h].agent, HeldAgent(h));
    case _ =>
  }

  /** When every handler has finished, nothing is leaked: each connection is registered or closed. */
  lemma NothingLeaked(s: State, c: ConnId)
    requires Inv(s) && c in s.place
    requires forall h :: h in s.agents ==> s.agents[h].AgentDone?
    requires forall h :: h in s.connects ==> s.connects[h].ConnectDone?
    ensures c in s.closed || exists key :: key in s.reg && s.reg[key].conn == c
    ensures s.active == 0
  {
    assert s.place[c].Gone? || At(s, c, s.place[c]);
    assert Sessions(s) == {};
  }

  /** In every reachable state the live count is the number of handlers between Start and End;
      ending a session then always finds it positive, so the guard never suppresses a decrement. */
  lemma ActiveCountsHandlers(states: seq<State>, steps: seq<Step>, i: nat)
    requires IsRun(states, steps) && i < |states|
    ensures states[i].active == |Sessions(states[i])| == L.OpenCount(states[i].history)
    ensures i < |steps| && steps[i].EndSession? ==> states[i].active > 0 && states[i + 1].active == states[i].active - 1
  {
    RunInv(states, steps);
    hide Enabled, After;
    if i < |steps| && steps[i].EndSession? {
      AuditEnd(states[i], steps[i]);
    }
  }

  /** In every reachable state each handler between Start and End owns an open entry of the
      history, its own alone, that names the network and the peer it was asked for. */
  lemma SessionsRecorded(states: seq<State>, steps: seq<Step>, i: nat, h: HandlerId, k: HandlerId)
    requires IsRun(states, steps) && i < |states|
    requires h in states[i].connects && states[i].connects[h].InSession()
    requires k in states[i].connects && states[i].connects[k].InSession()
    ensures Recorded(states[i].history, states[i].connects[h])
    ensures h != k ==> states[i].connects[h].session != states[i].connects[k].session
  {
    RunInv(states, steps);
    hide Owned, ClosedOk, RelaysOk, Enabled, After;
  }

  function PeerKey(peer: R.Peer): Key {
    (peer.network, peer.name)
  }

  /** Before state n, some agent request registered this connection under this key. */
  ghost predicate CameFrom(steps: seq<Step>, n: nat, c: ConnId, key: Key)
    requires n <= |steps|
  {
    exists j :: 0 <= j < n && steps[j].UpgradeAgent? && steps[j].conn == c
                && PeerKey(steps[j].peer) == key
  }

  /** Before state n, some agent request brought this connection, with just this peer. */
  ghost predicate CameAs(steps: seq<Step>, n: nat, c: ConnId, peer: R.Peer)
    requires n <= |steps|
  {
    exists j :: 0 <= j < n && steps[j].UpgradeAgent? && steps[j].conn == c && steps[j].peer == peer
  }

  lemma CameAsFrom(steps: seq<Step>, n: nat, c: ConnId, peer: R.Peer)
    requires n <= |steps| && CameAs(steps, n, c, peer)
    ensures CameFrom(steps, n, c, PeerKey(peer))
  {
  }

  /** Every agent connection stands under the key that its own request named. */
  ghost predicate Routed(steps: seq<Step>, n: nat, s: State)
    requires n <= |steps|
  {
    && (forall h :: h in s.agents && s.agents[h].AgentUpgraded? ==>
          CameAs(steps, n, s.agents[h].conn, s.agents[h].peer))
    && (forall key :: key in s.reg ==>
          PeerKey(s.reg[key].peer) == key && CameAs(steps, n, s.reg[key].conn, s.reg[key].peer))
    && (forall h :: h in s.connects && s.connects[h].HasAgent() ==>
          CameFrom(steps, n, s.connects[h].agent, s.connects[h].key))
  }

  lemma CameFromStays(steps: seq<Step>, n: nat)
    requires n < |steps|
    ensures forall c, key :: CameFrom(steps, n, c, key) ==> CameFrom(steps, n + 1, c, key)
    ensures forall c, peer :: CameAs(steps, n, c, peer) ==> CameAs(steps, n + 1, c, peer)
    ensures steps[n].UpgradeAgent? ==> CameAs(steps, n + 1, steps[n].conn, steps[n].peer)
  {
  }

  lemma UpgradedBefore(s: State, step: Step, h: HandlerId)
    requires Enabled(s, step)
    requires h in After(s, step).agents && After(s, step).agents[h].AgentUpgraded?
    ensures var p := After(s, step).agents[h];
            (h in s.agents && s.agents[h] == p) || step == UpgradeAgent(h, p.peer, p.conn)
  {
    hide W.Enabled, W.After, L.Apply;
  }

  lemma RegisteredBefore(s: State, step: Step, key: Key)
    requires Enabled(s, step) && key in After(s, step).reg
    ensures var record := After(s, step).reg[key];
            || (key in s.reg && s.reg[key] == record)
            || (step.AddAgent? && step.h in s.agents && s.agents[step.h].AgentUpgraded?
                && record == R.Record(s.agents[step.h].peer, s.agents[step.h].conn)
                && PeerKey(s.agents[step.h].peer) == key)
  {
    hide W.Enabled, W.After, L.Apply;
  }

  lemma HeldBefore(s: State, step: Step, h: HandlerId)
    requires Enabled(s, step)
    requires h in After(s, step).connects && After(s, step).connects[h].HasAgent()
    ensures var p := After(s, step).connects[h];
            || (h in s.connects && s.connects[h].HasAgent()
                && s.connects[h].agent == p.agent && s.connects[h].key == p.key)
            || (p.key in s.reg && s.reg[p.key].conn == p.agent)
  {
    hide W.Enabled, W.After, L.Apply;
  }

  lemma StepRouted(steps: seq<Step>, n: nat, s: State)
    requires n < |steps| && Enabled(s, steps[n]) && Routed(steps, n, s)
    ensures Routed(steps, n + 1, After(s, steps[n]))
  {
    var s' := After(s, steps[n]);
    CameFromStays(steps, n);
    hide CameFrom, CameAs, Enabled, After;
    forall h | h in s'.agents && s'.agents[h].AgentUpgraded?
      ensures CameAs(steps, n + 1, s'.agents[h].conn, s'.agents[h].peer)
    {
      UpgradedBefore(s, steps[n], h);
    }
    forall key | key in s'.reg
      ensures PeerKey(s'.reg[key].peer) == key && CameAs(steps, n + 1, s'.reg[key].conn, s'.reg[key].peer)
    {
      RegisteredBefore(s, steps[n], key);
    }
    forall h | h in s'.connects && s'.connects[h].HasAgent()
      ensures CameFrom(steps, n + 1, s'.connects[h].agent, s'.connects[h].key)
    {
      HeldBefore(s, steps[n], h);
      var key := s'.connects[h].key;
      if key in s.reg {
        CameAsFrom(steps, n, s.reg[key].conn, s.reg[key].peer);
      }
    }
  }

  /** The hub routes by name: in every reachable state the agent connection that a handler holds
      was upgraded by an agent under the network and name that its client asked for. */
  lemma {:induction false} RoutedByName(states: seq<State>, steps: seq<Step>, i: nat)
    requires IsRun(states, steps) && i < |states|
    ensures Routed(steps, i, states[i])
    ensures forall h :: h in states[i].connects && states[i].connects[h].HasAgent() ==>
              exists j :: 0 <= j < i && steps[j].UpgradeAgent? && steps[j].conn == states[i].connects[h].agent
                          && PeerKey(steps[j].peer) == states[i].connects[h].key
  {
    hide Enabled, After;
    if i > 0 {
      RoutedByName(states, steps, i - 1);
      StepRouted(steps, i - 1, states[i - 1]);
    }
    forall h | h in states[i].connects && states[i].connects[h].HasAgent()
      ensures CameFrom(steps, i, states[i].connects[h].agent, states[i].connects[h].key)
    {
    }
  }
}
