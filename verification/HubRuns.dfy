/** What the hub does over whole runs: which peer a client reaches, what becomes of it, and what the
    audit history says about it afterwards. Everything is stated on the steps taken. */
module HubRuns {
  import opened Wrappers
  import opened Hub
  import R = Registry
  import L = Audit
  import W = Relay

  // ----- Which peer a client reaches -----

  ghost predicate Adds(s: State, step: Step, key: Key) {
    step.AddAgent? && step.h in s.agents && s.agents[step.h].AgentUpgraded? && PeerKey(s.agents[step.h].peer) == key
  }

  ghost predicate TakesFor(s: State, step: Step, key: Key) {
    step.TakePeer? && step.h in s.connects && s.connects[step.h].ClientUpgraded? && s.connects[step.h].key == key
  }

  /** Step j put an agent under key, and since then none was put there and none taken from there. */
  ghost predicate Stands(states: seq<State>, steps: seq<Step>, i: nat, key: Key, j: nat)
    requires |states| == |steps| + 1 && i < |states|
  {
    && j < i && Adds(states[j], steps[j], key)
    && forall k :: j < k < i ==> !Adds(states[k], steps[k], key) && !TakesFor(states[k], steps[k], key)
  }

  ghost function AddedBy(s: State, step: Step): R.Record<ConnId>
    requires step.AddAgent? && step.h in s.agents && s.agents[step.h].AgentUpgraded?
  {
    R.Record(s.agents[step.h].peer, s.agents[step.h].conn)
  }

  lemma RegEffect(s: State, step: Step, key: Key)
    requires Enabled(s, step)
    ensures Adds(s, step, key) ==> key in After(s, step).reg && After(s, step).reg[key] == AddedBy(s, step)
    ensures TakesFor(s, step, key) ==> key !in After(s, step).reg
    ensures !Adds(s, step, key) && !TakesFor(s, step, key) ==>
              && (key in After(s, step).reg <==> key in s.reg)
              && (key in s.reg ==> After(s, step).reg[key] == s.reg[key])
  {
    hide W.Enabled, W.After, L.Apply;
  }

  /** In every reachable state the registry holds, under each key, exactly the agent that was put
      there last, unless it was taken since. */
  lemma {:induction false} RegisteredIff(states: seq<State>, steps: seq<Step>, i: nat, key: Key)
    requires IsRun(states, steps) && i < |states|
    ensures key in states[i].reg <==> exists j: nat :: Stands(states, steps, i, key, j)
    ensures forall j: nat :: Stands(states, steps, i, key, j) ==> states[i].reg[key] == AddedBy(states[j], steps[j])
  {
    hide Enabled, After;
    if i > 0 {
      var n := i - 1;
      RegisteredIff(states, steps, n, key);
      RegEffect(states[n], steps[n], key);
      hide Adds, TakesFor;
      if Adds(states[n], steps[n], key) {
        assert Stands(states, steps, i, key, n);
      }
      forall j: nat | Stands(states, steps, i, key, j) && j != n ensures Stands(states, steps, n, key, j) {
        assert j < n < i;
      }
      if !Adds(states[n], steps[n], key) && !TakesFor(states[n], steps[n], key) {
        forall j: nat | Stands(states, steps, n, key, j) ensures Stands(states, steps, i, key, j) {
        }
      }
    }
  }

  lemma TakeEffect(s: State, h: HandlerId)
    requires Enabled(s, TakePeer(h))
    ensures h in s.connects && s.connects[h].ClientUpgraded? && h in After(s, TakePeer(h)).connects
    ensures var p, s' := s.connects[h], After(s, TakePeer(h));
            s'.connects[h] == if p.key in s.reg then Took(p.key, p.client, s.reg[p.key].conn) else Missed(p.client)
  {
  }

  /** A client that asks for a peer gets the agent that stands there, which is then no longer
      registered; it misses exactly if every agent ever put there has been displaced or taken. */
  lemma TakeReachesPeer(states: seq<State>, steps: seq<Step>, i: nat, h: HandlerId)
    requires IsRun(states, steps) && i < |steps| && steps[i] == TakePeer(h)
    ensures h in states[i].connects && states[i].connects[h].ClientUpgraded? && h in states[i + 1].connects
    ensures var key, client := states[i].connects[h].key, states[i].connects[h].client;
            && key !in states[i + 1].reg
            && (forall j: nat :: Stands(states, steps, i, key, j) ==>
                  states[i + 1].connects[h] == Took(key, client, states[j].agents[steps[j].h].conn))
            && ((forall j: nat :: !Stands(states, steps, i, key, j)) <==> states[i + 1].connects[h] == Missed(client))
  {
    TakeEffect(states[i], h);
    var key := states[i].connects[h].key;
    RegEffect(states[i], steps[i], key);
    RegisteredIff(states, steps, i, key);
    hide Enabled, After, Stands;
  }

  lemma AgentArrives(s: State, h: HandlerId, peer: R.Peer, c: ConnId)
    requires h !in s.agents && c !in s.place && peer.network != "" && peer.name != ""
    ensures Enabled(s, UpgradeAgent(h, peer, c)) && Enabled(After(s, UpgradeAgent(h, peer, c)), AddAgent(h))
    ensures var s2 := After(After(s, UpgradeAgent(h, peer, c)), AddAgent(h));
            && PeerKey(peer) in s2.reg && s2.reg[PeerKey(peer)] == R.Record(peer, c)
            && s2.connects == s.connects && s2.place.Keys <= s.place.Keys + {c} + (set k | k in s.reg :: s.reg[k].conn)
  {
  }

  lemma ClientArrives(s: State, k: HandlerId, key: Key, client: ConnId)
    requires k !in s.connects && client !in s.place && key.0 != "" && key.1 != ""
    ensures Enabled(s, UpgradeClient(k, key, client))
    ensures Enabled(After(s, UpgradeClient(k, key, client)), TakePeer(k))
    ensures key in s.reg ==>
              After(After(s, UpgradeClient(k, key, client)), TakePeer(k)).connects[k]
              == Took(key, client, s.reg[key].conn)
  {
  }

  /** In any state an agent can register under any name, and a client that then asks for that name
      gets that agent. */
  lemma FreshPairMeets(s: State, h: HandlerId, peer: R.Peer, c: ConnId, k: HandlerId, client: ConnId)
    requires Inv(s) && h !in s.agents && k !in s.connects
    requires c !in s.place && client !in s.place && c != client && peer.network != "" && peer.name != ""
    ensures Enabled(s, UpgradeAgent(h, peer, c)) && Enabled(After(s, UpgradeAgent(h, peer, c)), AddAgent(h))
    ensures var s2, key := After(After(s, UpgradeAgent(h, peer, c)), AddAgent(h)), PeerKey(peer);
            && Enabled(s2, UpgradeClient(k, key, client))
            && Enabled(After(s2, UpgradeClient(k, key, client)), TakePeer(k))
            && After(After(s2, UpgradeClient(k, key, client)), TakePeer(k)).connects[k] == Took(key, client, c)
  {
    AgentArrives(s, h, peer, c);
    forall key | key in s.reg ensures s.reg[key].conn in s.place {
      assert At(s, s.reg[key].conn, Registered(key));
    }
    var s2 := After(After(s, UpgradeAgent(h, peer, c)), AddAgent(h));
    hide Enabled, After, Inv;
    ClientArrives(s2, k, PeerKey(peer), client);
  }

  // ----- Who asked -----

  /** The request of a connect handler. */
  ghost predicate Asked(steps: seq<Step>, n: nat, h: HandlerId, p: ConnectPc)
    requires n <= |steps|
  {
    exists k :: 0 <= k < n && steps[k].UpgradeClient? && steps[k].h == h
                && (p.HasKey() ==> p.key == steps[k].key) && (p.HasClient() ==> p.client == steps[k].conn)
  }

  lemma PcBefore(s: State, step: Step, h: HandlerId)
    requires Enabled(s, step) && h in After(s, step).connects
    ensures var p := After(s, step).connects[h];
            || (step.UpgradeClient? && step.h == h && p == ClientUpgraded(step.key, step.conn))
            || (h in s.connects
                && (p.HasKey() ==> s.connects[h].HasKey() && s.connects[h].key == p.key)
                && (p.HasClient() ==> s.connects[h].HasClient() && s.connects[h].client == p.client))
  {
    hide W.Enabled, W.After, L.Apply;
  }

  /** In every reachable state a handler works for the network, the name and the client connection
      of its own request. */
  lemma {:induction false} WorksForItsClient(states: seq<State>, steps: seq<Step>, i: nat, h: HandlerId)
    requires IsRun(states, steps) && i < |states| && h in states[i].connects
    ensures Asked(steps, i, h, states[i].connects[h])
  {
    hide Enabled, After;
    if i > 0 {
      PcBefore(states[i - 1], steps[i - 1], h);
      if steps[i - 1].UpgradeClient? && steps[i - 1].h == h
         && states[i].connects[h] == ClientUpgraded(steps[i - 1].key, steps[i - 1].conn) {
      } else {
        WorksForItsClient(states, steps, i - 1, h);
      }
    }
  }

  // ----- What becomes of it -----

  lemma RelayingBefore(s: State, step: Step, h: HandlerId)
    requires Enabled(s, step) && h in After(s, step).connects && After(s, step).connects[h].Relaying?
    ensures var relay := After(s, step).connects[h].relay;
            || (step.BeginRelay? && step.h == h && W.Initial(relay))
            || (h in s.connects && s.connects[h].Relaying? && s.connects[h].relay == relay)
            || (step.RelayStep? && step.h == h && h in s.connects && s.connects[h].Relaying?
                && W.Enabled(s.connects[h].relay, step.inner) && relay == W.After(s.connects[h].relay, step.inner))
  {
    hide W.Enabled, W.After, L.Apply;
  }

  /** In every reachable state each relay is in a state that its own steps lead to from its start,
      so everything proved of the relay's runs holds of it. */
  lemma {:induction false} RelaysRun(states: seq<State>, steps: seq<Step>, i: nat, h: HandlerId)
    requires IsRun(states, steps) && i < |states| && h in states[i].connects && states[i].connects[h].Relaying?
    ensures W.Reachable(states[i].connects[h].relay)
  {
    hide Enabled, After;
    if i > 0 {
      var s, step, relay := states[i - 1], steps[i - 1], states[i].connects[h].relay;
      RelayingBefore(s, step, h);
      hide W.Enabled, W.After, W.Initial, W.Reachable;
      if step.BeginRelay? && step.h == h && W.Initial(relay) {
        W.StartIsReachable(relay);
      } else {
        RelaysRun(states, steps, i - 1, h);
        if s.connects[h].relay != relay {
          W.NextIsReachable(s.connects[h].relay, step.inner);
        }
      }
    }
  }

  lemma RelayedBefore(s: State, step: Step, h: HandlerId)
    requires Enabled(s, step) && h in After(s, step).connects && After(s, step).connects[h].Relayed?
    ensures || (h in s.connects && s.connects[h].Relayed?)
            || (step == FinishRelay(h) && h in s.connects && s.connects[h].Relaying?
                && s.connects[h].relay.waiter.Returned?)
  {
    hide W.Enabled, W.After, L.Apply;
  }

  /** The relay of handler h returned at step j. */
  ghost predicate ReturnedAt(states: seq<State>, steps: seq<Step>, j: nat, h: HandlerId)
    requires |states| == |steps| + 1
  {
    && j < |steps| && steps[j] == FinishRelay(h) && h in states[j].connects && states[j].connects[h].Relaying?
    && W.Reachable(states[j].connects[h].relay) && states[j].connects[h].relay.waiter.Returned?
  }

  /** A session ends only after its messages were relayed: before that, its relay ran from its start
      to its return. */
  lemma {:induction false} EndsAfterRelay(states: seq<State>, steps: seq<Step>, i: nat, h: HandlerId)
    requires IsRun(states, steps) && i < |states| && h in states[i].connects && states[i].connects[h].Relayed?
    ensures exists j :: 0 <= j < i && ReturnedAt(states, steps, j, h)
  {
    hide Enabled, After, W.Reachable;
    if i > 0 {
      RelayedBefore(states[i - 1], steps[i - 1], h);
      if h in states[i - 1].connects && states[i - 1].connects[h].Relayed? {
        EndsAfterRelay(states, steps, i - 1, h);
      } else {
        RelaysRun(states, steps, i - 1, h);
        assert ReturnedAt(states, steps, i - 1, h);
      }
    }
  }

  /** The stages of a connect handler, a missed one apart. */
  function Stage(p: ConnectPc): nat {
    match p
    case ClientUpgraded(_, _) => 0
    case Missed(_) => 4
    case Took(_, _, _) => 1
    case Started(_, _, _, _) => 2
    case Relaying(_, _, _, _, _) => 3
    case Relayed(_, _) => 4
    case ConnectDone => 5
  }

  function OwnStep(h: HandlerId, p: ConnectPc, now: L.Time): Step
    requires !p.ConnectDone?
  {
    match p
    case ClientUpgraded(_, _) => TakePeer(h)
    case Missed(_) => CloseMissed(h)
    case Took(_, _, _) => StartSession(h, now)
    case Started(_, _, _, _) => BeginRelay(h, [], [])
    case Relaying(_, _, _, _, _) => FinishRelay(h)
    case Relayed(_, _) => EndSession(h, now)
  }

  /** No handler is ever stuck: outside its relay it can always go on, one stage at a time or to the
      close of a missed client, and it keeps both its connections until the relay has returned. */
  lemma HandlerGoesOn(s: State, h: HandlerId, now: L.Time)
    requires h in s.connects && !s.connects[h].ConnectDone? && now != L.ZERO_TIME
    requires s.connects[h].Relaying? ==> s.connects[h].relay.waiter.Returned?
    ensures var p, step := s.connects[h], OwnStep(h, s.connects[h], now);
            && Enabled(s, step) && h in After(s, step).connects
            && var p' := After(s, step).connects[h];
               && (Stage(p') == Stage(p) + 1 || p'.Missed?)
               && (p.HasAgent() && !p.Relaying? ==> p'.HasAgent() && p'.agent == p.agent && p'.client == p.client)
  {
    hide W.Enabled, W.After, L.Apply;
  }

  /** Nor is an agent request: it registers its connection and closes the one it displaced. */
  lemma AgentGoesOn(s: State, h: HandlerId)
    requires h in s.agents && !s.agents[h].AgentDone?
    ensures s.agents[h].AgentUpgraded? ==> Enabled(s, AddAgent(h)) && After(s, AddAgent(h)).agents[h].AgentAdded?
    ensures s.agents[h].AgentUpgraded? ==>
              var key := PeerKey(s.agents[h].peer);
              After(s, AddAgent(h)).agents[h].displaced == if key in s.reg then Some(s.reg[key].conn) else None
    ensures s.agents[h].AgentAdded? ==>
              Enabled(s, CloseDisplaced(h)) && After(s, CloseDisplaced(h)).agents[h].AgentDone?
              && (s.agents[h].displaced.Some? ==> s.agents[h].displaced.value in After(s, CloseDisplaced(h)).closed)
  {
  }

  // ----- Requests without a name -----

  ghost predicate Named(key: Key) {
    key.0 != "" && key.1 != ""
  }

  ghost predicate AllNamed(s: State) {
    && (forall h :: h in s.agents && s.agents[h].AgentUpgraded? ==> Named(PeerKey(s.agents[h].peer)))
    && (forall key :: key in s.reg ==> Named(key))
    && (forall h :: h in s.connects && s.connects[h].HasKey() ==> Named(s.connects[h].key))
  }

  lemma StepNamed(s: State, step: Step)
    requires AllNamed(s) && Enabled(s, step)
    ensures AllNamed(After(s, step))
  {
    hide W.Enabled, W.After, L.Apply, Named;
    assert step.UpgradeAgent? ==> Named(PeerKey(step.peer)) by {
      NamesNeeded(s, step);
    }
    assert step.UpgradeClient? ==> Named(step.key) by {
      NamesNeeded(s, step);
    }
  }

  lemma NamesNeeded(s: State, step: Step)
    requires Enabled(s, step)
    ensures step.UpgradeAgent? ==> Named(PeerKey(step.peer))
    ensures step.UpgradeClient? ==> Named(step.key)
  {
  }

  /** No request without a network and a name gets as far as the registry. */
  lemma {:induction false} RunNamed(states: seq<State>, steps: seq<Step>, i: nat)
    requires IsRun(states, steps) && i < |states|
    ensures AllNamed(states[i])
  {
    hide Enabled, After, AllNamed;
    if i == 0 {
      InitialNamed(states[0]);
    } else {
      RunNamed(states, steps, i - 1);
      StepNamed(states[i - 1], steps[i - 1]);
    }
  }

  lemma InitialNamed(s: State)
    requires Initial(s)
    ensures AllNamed(s)
  {
  }

  // ----- The audit trail -----

  /** How many sessions the first n steps started. */
  ghost function Starts(steps: seq<Step>, n: nat): nat
    requires n <= |steps|
  {
    if n == 0 then 0 else Starts(steps, n - 1) + if steps[n - 1].StartSession? then 1 else 0
  }

  lemma {:induction false} StartsGrow(steps: seq<Step>, j: nat, k: nat)
    requires j < k <= |steps| && steps[j].StartSession?
    ensures Starts(steps, j) < Starts(steps, k)
  {
    if j + 1 < k {
      StartsGrow(steps, j, k - 1);
    }
  }

  /** When handler h ended its session, within the first n steps; the zero time if it did not. */
  ghost function EndTime(steps: seq<Step>, n: nat, h: HandlerId): L.Time
    requires n <= |steps|
  {
    if n == 0 then L.ZERO_TIME
    else if steps[n - 1].EndSession? && steps[n - 1].h == h then steps[n - 1].now
    else EndTime(steps, n - 1, h)
  }

  /** The entry of the session that step j started, after n steps. */
  ghost predicate EntryIs(states: seq<State>, steps: seq<Step>, n: nat, j: nat)
    requires |states| == |steps| + 1 && j < n <= |steps| && steps[j].StartSession?
  {
    && Starts(steps, j) < |states[n].history|
    && steps[j].h in states[j].connects && states[j].connects[steps[j].h].HasKey()
    && var key := states[j].connects[steps[j].h].key;
       states[n].history[Starts(steps, j)]
       == L.Entry(key.0, key.1, steps[j].now, EndTime(steps, n, steps[j].h))
  }

  /** Where the handlers of the sessions stand. */
  ghost predicate Trail(steps: seq<Step>, n: nat, s: State)
    requires n <= |steps|
  {
    && |s.history| == Starts(steps, n)
    && (forall h :: h !in s.connects || !s.connects[h].ConnectDone? ==> EndTime(steps, n, h) == L.ZERO_TIME)
    && (forall j :: 0 <= j < n && steps[j].StartSession? ==>
          steps[j].h in s.connects
          && var p := s.connects[steps[j].h];
             p.ConnectDone? || (p.InSession() && p.session == Starts(steps, j)))
    && (forall h :: h in s.connects && s.connects[h].InSession() ==>
          exists j :: 0 <= j < n && steps[j].StartSession? && steps[j].h == h
                      && s.connects[h].session == Starts(steps, j))
  }

  lemma SessionPc(s: State, step: Step, h: HandlerId)
    requires Enabled(s, step)
    ensures var s' := After(s, step);
            if step.StartSession? && step.h == h then
              && h in s.connects && s.connects[h].Took?
              && h in s'.connects && s'.connects[h].InSession() && s'.connects[h].session == |s.history|
            else if step.EndSession? && step.h == h then
              h in s.connects && s.connects[h].InSession() && h in s'.connects && s'.connects[h].ConnectDone?
            else
              && (h in s'.connects && s'.connects[h].InSession() <==> h in s.connects && s.connects[h].InSession())
              && (h in s.connects && s.connects[h].InSession() ==> s'.connects[h].session == s.connects[h].session)
              && (h in s.connects && s.connects[h].ConnectDone? ==> h in s'.connects && s'.connects[h].ConnectDone?)
  {
    hide W.Enabled, W.After, L.Apply;
  }

  lemma HistoryEffect(s: State, step: Step)
    requires Enabled(s, step)
    ensures var s' := After(s, step);
            if step.StartSession? then
              && step.h in s.connects && s.connects[step.h].Took?
              && s'.history == s.history
                   + [L.Entry(s.connects[step.h].key.0, s.connects[step.h].key.1, step.now, L.ZERO_TIME)]
            else if step.EndSession? then
              && step.h in s.connects && s.connects[step.h].InSession()
              && var i := s.connects[step.h].session;
                 |s'.history| == |s.history|
                 && forall k :: 0 <= k < |s.history| ==>
                      s'.history[k] == if k == i && s.history[k].ended == L.ZERO_TIME
                                       then s.history[k].(ended := step.now) else s.history[k]
            else s'.history == s.history
  {
    hide W.Enabled, W.After;
  }

  lemma StepTrailDone(steps: seq<Step>, n: nat, s: State)
    requires n < |steps| && Enabled(s, steps[n]) && Trail(steps, n, s)
    ensures forall h :: h !in After(s, steps[n]).connects || !After(s, steps[n]).connects[h].ConnectDone? ==>
              EndTime(steps, n + 1, h) == L.ZERO_TIME
  {
    var s' := After(s, steps[n]);
    hide Enabled, After;
    forall h | h !in s'.connects || !s'.connects[h].ConnectDone? ensures EndTime(steps, n + 1, h) == L.ZERO_TIME {
      SessionPc(s, steps[n], h);
    }
  }

  lemma StepTrailStarts(steps: seq<Step>, n: nat, s: State, j: nat)
    requires n < |steps| && Enabled(s, steps[n]) && Trail(steps, n, s)
    requires j <= n && steps[j].StartSession?
    ensures var s', h := After(s, steps[n]), steps[j].h;
            && h in s'.connects
            && (s'.connects[h].ConnectDone?
                || (s'.connects[h].InSession() && s'.connects[h].session == Starts(steps, j)))
  {
    hide Enabled, After;
    SessionPc(s, steps[n], steps[j].h);
  }

  lemma StepTrailSessions(steps: seq<Step>, n: nat, s: State, h: HandlerId)
    requires n < |steps| && Enabled(s, steps[n]) && Trail(steps, n, s)
    requires h in After(s, steps[n]).connects && After(s, steps[n]).connects[h].InSession()
    ensures exists j :: 0 <= j < n + 1 && steps[j].StartSession? && steps[j].h == h
                        && After(s, steps[n]).connects[h].session == Starts(steps, j)
  {
    hide Enabled, After;
    SessionPc(s, steps[n], h);
  }

  lemma StepTrail(steps: seq<Step>, n: nat, s: State)
    requires n < |steps| && Enabled(s, steps[n]) && Trail(steps, n, s)
    ensures Trail(steps, n + 1, After(s, steps[n]))
  {
    var s' := After(s, steps[n]);
    HistoryEffect(s, steps[n]);
    StepTrailDone(steps, n, s);
    assert |s.history| == Starts(steps, n);
    hide Enabled, After, Trail;
    forall j | 0 <= j < n + 1 && steps[j].StartSession?
      ensures steps[j].h in s'.connects
      ensures var p := s'.connects[steps[j].h];
              p.ConnectDone? || (p.InSession() && p.session == Starts(steps, j))
    {
      StepTrailStarts(steps, n, s, j);
    }
    forall h | h in s'.connects && s'.connects[h].InSession()
      ensures exists j :: 0 <= j < n + 1 && steps[j].StartSession? && steps[j].h == h
                          && s'.connects[h].session == Starts(steps, j)
    {
      StepTrailSessions(steps, n, s, h);
    }
    TrailFrom(steps, n + 1, s');
  }

  lemma TrailFrom(steps: seq<Step>, n: nat, s: State)
    requires n <= |steps| && |s.history| == Starts(steps, n)
    requires forall h :: h !in s.connects || !s.connects[h].ConnectDone? ==> EndTime(steps, n, h) == L.ZERO_TIME
    requires forall j :: 0 <= j < n && steps[j].StartSession? ==>
               steps[j].h in s.connects
               && var p := s.connects[steps[j].h];
                  p.ConnectDone? || (p.InSession() && p.session == Starts(steps, j))
    requires forall h :: h in s.connects && s.connects[h].InSession() ==>
               exists j :: 0 <= j < n && steps[j].StartSession? && steps[j].h == h
                           && s.connects[h].session == Starts(steps, j)
    ensures Trail(steps, n, s)
  {
  }

  lemma {:induction false} RunTrail(states: seq<State>, steps: seq<Step>, n: nat)
    requires IsRun(states, steps) && n < |states|
    ensures Trail(steps, n, states[n])
  {
    if n > 0 {
      hide Enabled, After, Trail;
      RunTrail(states, steps, n - 1);
      StepTrail(steps, n - 1, states[n - 1]);
    }
  }

  /** An ended session is stamped by the step that ends its own handler. */
  lemma EndsOwnEntry(steps: seq<Step>, n: nat, s: State, j: nat)
    requires n < |steps| && Enabled(s, steps[n]) && Trail(steps, n, s) && steps[n].EndSession?
    requires j < n && steps[j].StartSession?
    ensures var h := steps[n].h;
            && h in s.connects && s.connects[h].InSession()
            && (steps[j].h == h <==> s.connects[h].session == Starts(steps, j))
            && (steps[j].h == h ==> EndTime(steps, n, h) == L.ZERO_TIME)
  {
    hide After;
    SessionPc(s, steps[n], steps[n].h);
    var h := steps[n].h;
    var k :| 0 <= k < n && steps[k].StartSession? && steps[k].h == h && s.connects[h].session == Starts(steps, k);
    if j < k {
      StartsGrow(steps, j, k);
    } else if k < j {
      StartsGrow(steps, k, j);
    }
  }

  lemma NewEntry(states: seq<State>, steps: seq<Step>, n: nat)
    requires |states| == |steps| + 1 && n < |steps| && steps[n].StartSession?
    requires Enabled(states[n], steps[n]) && states[n + 1] == After(states[n], steps[n]) && Trail(steps, n, states[n])
    ensures EntryIs(states, steps, n + 1, n)
  {
    HistoryEffect(states[n], steps[n]);
    assert EndTime(steps, n, steps[n].h) == L.ZERO_TIME;
    hide Enabled, After;
  }

  lemma OldEntry(states: seq<State>, steps: seq<Step>, n: nat, j: nat)
    requires |states| == |steps| + 1 && j < n < |steps| && steps[j].StartSession?
    requires Enabled(states[n], steps[n]) && states[n + 1] == After(states[n], steps[n]) && Trail(steps, n, states[n])
    requires EntryIs(states, steps, n, j)
    ensures EntryIs(states, steps, n + 1, j)
  {
    HistoryEffect(states[n], steps[n]);
    if steps[n].EndSession? {
      EndsOwnEntry(steps, n, states[n], j);
    }
    hide Enabled, After, Trail;
  }

  /** The audit history is exact: in every reachable state it has one entry for every session that a
      handler has started, in that order, with the network and peer that the handler was asked for,
      the time of its start, and the time at which the handler ended it, if it did. */
  lemma {:induction false} AuditTrail(states: seq<State>, steps: seq<Step>, n: nat, j: nat)
    requires IsRun(states, steps) && j < n < |states| && steps[j].StartSession?
    ensures |states[n].history| == Starts(steps, n)
    ensures EntryIs(states, steps, n, j)
    decreases n
  {
    RunTrail(states, steps, n);
    RunTrail(states, steps, n - 1);
    assert |states[n].history| == Starts(steps, n);
    hide Enabled, After, Trail, EntryIs, Starts;
    if j == n - 1 {
      NewEntry(states, steps, j);
    } else {
      AuditTrail(states, steps, n - 1, j);
      OldEntry(states, steps, n - 1, j);
    }
  }
}
