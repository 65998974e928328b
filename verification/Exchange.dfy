/** That the secure channel works: any two honest ends that authorise each other can complete a
    handshake, in any state of the network, and then everything that is written can be read. */
module Exchange {
  import opened Wrappers
  import opened Authorization
  import opened Noise
  import opened SecureChannel

  /** What a sends next b can open next. */
  ghost predicate Linked(s: State, a: Id, b: Id) {
    && a != b && CanAct(s, a) && CanAct(s, b) && IsLive(s, a) && IsLive(s, b)
    && s.parties[a].send == s.parties[b].recv
  }

  ghost predicate Extends(states: seq<State>, steps: seq<Step>, states': seq<State>, steps': seq<Step>) {
    IsRun(states', steps') && states <= states' && steps <= steps'
  }

  lemma OneMore(states: seq<State>, steps: seq<Step>, step: Step)
    requires IsRun(states, steps) && Enabled(states[|steps|], step)
    ensures Extends(states, steps, states + [After(states[|steps|], step)], steps + [step])
  {
    hide Enabled, After, Initial;
  }

  lemma ExtendsOn(
    states: seq<State>, steps: seq<Step>, states1: seq<State>, steps1: seq<Step>,
    states2: seq<State>, steps2: seq<Step>)
    requires Extends(states, steps, states1, steps1) && Extends(states1, steps1, states2, steps2)
    ensures Extends(states, steps, states2, steps2)
  {
  }

  /** Only parties are ever stopped. */
  lemma {:induction false} StoppedAreParties(states: seq<State>, steps: seq<Step>)
    requires IsRun(states, steps)
    ensures states[|steps|].stopped <= states[|steps|].parties.Keys
    ensures states[|steps|].honest == states[0].honest
  {
    if steps != [] {
      var n := |steps| - 1;
      StoppedAreParties(states[..n + 1], steps[..n]);
      StepStopped(states[n], steps[n]);
      hide Enabled, After;
    }
  }

  lemma StepStopped(s: State, step: Step)
    requires Enabled(s, step) && s.stopped <= s.parties.Keys
    ensures After(s, step).stopped <= After(s, step).parties.Keys && After(s, step).honest == s.honest
  {
    hide Responded, Finished, WriteMessage1, AfterWrite, AfterRead;
  }

  // ----- The handshake -----

  lemma Started(s: State, i: Id, r: Id, si: Public, sr: Public, allowed: seq<Public>)
    returns (s1: State, s2: State, m1: Message1)
    requires i != r && i !in s.parties && r !in s.parties && s.stopped <= s.parties.Keys
    requires si in s.honest && sr in s.honest
    ensures Enabled(s, StartInitiator(i, si, sr)) && s1 == After(s, StartInitiator(i, si, sr))
    ensures Enabled(s1, StartResponder(r, sr, allowed)) && s2 == After(s1, StartResponder(r, sr, allowed))
    ensures m1 == WriteMessage1(NewInitiator(si, sr), Ephemeral(i)).1 && m1.s in s2.net && m1.payload in s2.net
    ensures CanAct(s2, i) && CanAct(s2, r)
    ensures s2.parties[i] == Initiating(si, sr) && s2.parties[r] == Responding(sr, allowed)
  {
    s1 := After(s, StartInitiator(i, si, sr));
    s2 := After(s1, StartResponder(r, sr, allowed));
    m1 := WriteMessage1(NewInitiator(si, sr), Ephemeral(i)).1;
    hide WriteMessage1;
  }

  lemma Completed(s2: State, i: Id, r: Id, si: Public, sr: Public, allowed: seq<Public>, m1: Message1)
    returns (s3: State, s4: State, m2: Message2)
    requires i != r && CanAct(s2, i) && CanAct(s2, r) && IsAuthorized(si, allowed)
    requires s2.parties[i] == Initiating(si, sr) && s2.parties[r] == Responding(sr, allowed)
    requires m1 == WriteMessage1(NewInitiator(si, sr), Ephemeral(i)).1 && m1.s in s2.net && m1.payload in s2.net
    ensures Enabled(s2, RespondTo(r, m1)) && s3 == After(s2, RespondTo(r, m1))
    ensures Enabled(s3, Finish(i, m2)) && s4 == After(s3, Finish(i, m2))
    ensures Linked(s4, i, r) && Linked(s4, r, i)
    ensures s4.parties[i].v.Peer() == sr && s4.parties[r].v.Peer() == si
    ensures s4.parties[i].got == s4.parties[i].given == s4.parties[r].got == s4.parties[r].given == []
    ensures s4.parties[i].send.n == s4.parties[r].send.n == 0
  {
    HandshakeCompletes(i, r, si, sr, allowed);
    var answer := Responded(r, Responding(sr, allowed), m1);
    m2 := answer.value.1;
    s3 := After(s2, RespondTo(r, m1));
    s4 := After(s3, Finish(i, m2));
    FreshSession(i, r, si, sr, allowed, m1);
    hide Responded, Finished, WriteMessage1;
  }

  /** A new session has read and written nothing. */
  lemma FreshSession(i: Id, r: Id, si: Public, sr: Public, allowed: seq<Public>, m1: Message1)
    requires Responded(r, Responding(sr, allowed), m1).Some?
    ensures var (p, m2) := Responded(r, Responding(sr, allowed), m1).value;
            && p.Live? && p.send.n == 0 && p.got == [] && p.given == []
            && (Finished(i, Initiating(si, sr), m2).Some? ==>
                  var q := Finished(i, Initiating(si, sr), m2).value;
                  q.Live? && q.send.n == 0 && q.got == [] && q.given == [])
  {
    hide ReadMessage1, ReadMessage2, WriteMessage1, WriteMessage2;
  }

  lemma Handshaken(states: seq<State>, steps: seq<Step>, i: Id, r: Id, si: Public, sr: Public, allowed: seq<Public>)
    returns (states': seq<State>, steps': seq<Step>)
    requires IsRun(states, steps) && i != r && i !in states[|steps|].parties && r !in states[|steps|].parties
    requires si in states[|steps|].honest && sr in states[|steps|].honest && IsAuthorized(si, allowed)
    ensures Extends(states, steps, states', steps')
    ensures var s := states'[|steps'|];
            && Linked(s, i, r) && Linked(s, r, i)
            && s.parties[i].v.Peer() == sr && s.parties[r].v.Peer() == si
            && s.parties[i].got == s.parties[i].given == s.parties[r].got == s.parties[r].given == []
            && s.parties[i].send.n == s.parties[r].send.n == 0
  {
    StoppedAreParties(states, steps);
    var s := states[|steps|];
    var s1, s2, m1 := Started(s, i, r, si, sr, allowed);
    var s3, s4, m2 := Completed(s2, i, r, si, sr, allowed, m1);
    hide Enabled, After, Linked, WriteMessage1, Extends, IsRun;
    assert |states| == |steps| + 1 by { LastState(states, steps); }
    var ss, ts := states, steps;
    ss, ts := Then(states, steps, ss, ts, StartInitiator(i, si, sr));
    ss, ts := Then(states, steps, ss, ts, StartResponder(r, sr, allowed));
    ss, ts := Then(states, steps, ss, ts, RespondTo(r, m1));
    ss, ts := Then(states, steps, ss, ts, Finish(i, m2));
    states', steps' := ss, ts;
  }

  lemma LastState(states: seq<State>, steps: seq<Step>)
    requires IsRun(states, steps)
    ensures |states| == |steps| + 1 && Extends(states, steps, states, steps)
  {
  }

  lemma Then(states: seq<State>, steps: seq<Step>, ss: seq<State>, ts: seq<Step>, step: Step)
    returns (ss': seq<State>, ts': seq<Step>)
    requires IsRun(states, steps)
    requires (ss == states && ts == steps) || Extends(states, steps, ss, ts)
    requires |ss| == |ts| + 1 && Enabled(ss[|ts|], step)
    ensures Extends(states, steps, ss', ts') && |ss'| == |ts'| + 1 && ss'[|ts'|] == After(ss[|ts|], step)
  {
    LastState(states, steps);
    OneMore(ss, ts, step);
    ss', ts' := ss + [After(ss[|ts|], step)], ts + [step];
    ExtendsOn(states, steps, ss, ts, ss', ts');
  }

  // ----- The data -----

  lemma Delivered(s: State, a: Id, b: Id, p: seq<nat>) returns (s1: State, s2: State, c: Sealed)
    requires Linked(s, a, b) && Linked(s, b, a) && s.parties[a].send.n < MAX_NONCE
    ensures Enabled(s, Write(a, p)) && s1 == After(s, Write(a, p))
    ensures Enabled(s1, Read(b, c)) && s2 == After(s1, Read(b, c))
    ensures Linked(s2, a, b) && Linked(s2, b, a)
    ensures s2.parties[a].given == s.parties[a].given + [p] && s2.parties[b].got == s.parties[b].got + [p]
    ensures s2.parties[a].got == s.parties[a].got && s2.parties[b].given == s.parties[b].given
    ensures s2.parties[a].v == s.parties[a].v && s2.parties[b].v == s.parties[b].v
    ensures s2.parties[a].send.n == s.parties[a].send.n + 1 && s2.parties[b].send == s.parties[b].send
  {
    c := Encrypt(s.parties[a].send, p).1.value;
    s1 := After(s, Write(a, p));
    s2 := After(s1, Read(b, c));
    NonceUse(s.parties[a].send, p);
    hide Encrypt, Decrypt;
  }

  /** From any state in which two sessions are linked, any messages can be sent and read. */
  lemma {:induction false} DeliverAll(states: seq<State>, steps: seq<Step>, a: Id, b: Id, ps: seq<seq<nat>>)
    returns (states': seq<State>, steps': seq<Step>)
    requires IsRun(states, steps) && Linked(states[|steps|], a, b) && Linked(states[|steps|], b, a)
    requires states[|steps|].parties[a].send.n + |ps| <= MAX_NONCE
    ensures Extends(states, steps, states', steps')
    ensures var s, s' := states[|steps|], states'[|steps'|];
            && Linked(s', a, b) && Linked(s', b, a)
            && s'.parties[b].got == s.parties[b].got + ps && s'.parties[a].given == s.parties[a].given + ps
            && s'.parties[a].got == s.parties[a].got && s'.parties[b].send == s.parties[b].send
            && s'.parties[a].v == s.parties[a].v && s'.parties[b].v == s.parties[b].v
    decreases |ps|
  {
    LastState(states, steps);
    if ps == [] {
      states', steps' := states, steps;
    } else {
      var s1, s2, c := Delivered(states[|steps|], a, b, ps[0]);
      hide Enabled, After, Linked;
      var ss, ts := Then(states, steps, states, steps, Write(a, ps[0]));
      ss, ts := Then(states, steps, ss, ts, Read(b, c));
      states', steps' := DeliverAll(ss, ts, a, b, ps[1..]);
      ExtendsOn(states, steps, ss, ts, states', steps');
      assert ps == [ps[0]] + ps[1..];
    }
  }

  /** In every reachable state of the channel: two new sessions of honest keys, the responder
      authorising the initiator, can complete their handshake, name each other, and exchange any
      messages in both directions, all of them read in order. */
  lemma ExchangeSucceeds(
    states: seq<State>, steps: seq<Step>, i: Id, r: Id, si: Public, sr: Public, allowed: seq<Public>,
    ps: seq<seq<nat>>, qs: seq<seq<nat>>)
    returns (states': seq<State>, steps': seq<Step>)
    requires IsRun(states, steps) && i != r && i !in states[|steps|].parties && r !in states[|steps|].parties
    requires si in states[|steps|].honest && sr in states[|steps|].honest && IsAuthorized(si, allowed)
    requires |ps| <= MAX_NONCE && |qs| <= MAX_NONCE
    ensures Extends(states, steps, states', steps')
    ensures var s := states'[|steps'|];
            && IsLive(s, i) && s.parties[i].v.Peer() == sr && s.parties[i].got == qs
            && IsLive(s, r) && s.parties[r].v.Peer() == si && s.parties[r].got == ps
  {
    var ss1, ts1 := Handshaken(states, steps, i, r, si, sr, allowed);
    var ss2, ts2 := DeliverAll(ss1, ts1, i, r, ps);
    states', steps' := DeliverAll(ss2, ts2, r, i, qs);
    ExtendsOn(states, steps, ss1, ts1, ss2, ts2);
    ExtendsOn(states, steps, ss2, ts2, states', steps');
    hide Enabled, After, Extends;
  }
}
