/** Any number of clients and agents running the secure handshake and exchanging data over a
    network that drops, repeats, reorders, alters and invents messages. */
module SecureChannel {
  import opened Wrappers
  import opened Authorization
  import opened Noise

  type Id = nat

  // ----- Parties -----

  /** What a completed handshake settled. */
  datatype View = View(initiator: bool, k: Keys, allowed: seq<Public>) {
    function Direction(): nat {
      if initiator then 0 else 1
    }

    function Peer(): Public {
      if initiator then k.sr else k.si
    }
  }

  /** given holds every plaintext passed to Write, got every plaintext that Read returned. */
  datatype Party =
    | Initiating(s: Public, rs: Public)
    | Responding(s: Public, allowed: seq<Public>)
    | Live(v: View, send: CipherState, recv: CipherState, given: seq<seq<nat>>, got: seq<seq<nat>>)

  /** net holds every ciphertext that has ever left a party or that an outsider has made. */
  datatype State = State(honest: set<Public>, parties: map<Id, Party>, stopped: set<Id>, net: set<Sealed>)

  datatype Step =
    | StartInitiator(id: Id, s: Public, rs: Public)
    | StartResponder(id: Id, s: Public, allowed: seq<Public>)
    | RespondTo(id: Id, m1: Message1)
    | Finish(id: Id, m2: Message2)
    | Write(id: Id, p: seq<nat>)
    | Read(id: Id, c: Sealed)
    | Stop(id: Id)
    | Forge(c: Sealed)

  /** Outsiders hold every private key but those of honest long-lived keys and of sessions. */
  predicate Corrupt(honest: set<Public>, p: Public) {
    !p.Ephemeral? && p !in honest
  }

  /** An outsider knows a key only if it can compute every result mixed into it. */
  ghost predicate KeyKnown(honest: set<Public>, key: SymKey) {
    forall d :: d in key.chain ==> exists p :: p in d && Corrupt(honest, p)
  }

  ghost predicate Forgeable(honest: set<Public>, c: Sealed) {
    KeyKnown(honest, c.key)
  }

  ghost predicate CanAct(s: State, id: Id) {
    id in s.parties && id !in s.stopped
  }

  ghost predicate Enabled(s: State, step: Step) {
    match step
    case StartInitiator(id, own, _) => id !in s.parties && own in s.honest
    case StartResponder(id, own, _) => id !in s.parties && own in s.honest
    case RespondTo(id, m) => CanAct(s, id) && s.parties[id].Responding? && m.s in s.net && m.payload in s.net
    case Finish(id, m) => CanAct(s, id) && s.parties[id].Initiating? && m.payload in s.net
    case Write(id, _) => CanAct(s, id) && s.parties[id].Live?
    case Read(id, c) => CanAct(s, id) && s.parties[id].Live? && c in s.net
    case Stop(id) => id in s.parties
    case Forge(c) => Forgeable(s.honest, c)
  }

  /** The responder's half of Handshake once the first message is in: it stops on a bad message
      and on an unauthorised key, before anything is written. */
  function Responded(id: Id, p: Party, m: Message1): Option<(Party, Message2)>
    requires p.Responding?
  {
    match ReadMessage1(NewResponder(p.s), m)
    case None => None
    case Some(hs) =>
      if p.allowed != [] && hs.rs !in p.allowed then None
      else
        var (hs2, m2) := WriteMessage2(hs, Ephemeral(id));
        var (c0, c1) := SplitStates(hs2);
        var k := Keys(m.e, hs2.rs, p.s, Ephemeral(id), m.payload.plain);
        Some((Live(View(false, k, p.allowed), c1, c0, [], []), m2))
  }

  /** The initiator's half of Handshake once the second message is in. */
  function Finished(id: Id, p: Party, m: Message2): Option<Party>
    requires p.Initiating?
  {
    match ReadMessage2(WriteMessage1(NewInitiator(p.s, p.rs), Ephemeral(id)).0, m)
    case None => None
    case Some(hs) =>
      var (c0, c1) := SplitStates(hs);
      Some(Live(View(true, Keys(Ephemeral(id), p.s, hs.rs, m.e, EMPTY), []), c0, c1, [], []))
  }

  /** A live party after it was given a plaintext to write, and what it seals. */
  function AfterWrite(p: Party, plain: seq<nat>): (Party, Option<Sealed>)
    requires p.Live?
  {
    var (cs, c) := Encrypt(p.send, plain);
    (p.(send := cs, given := p.given + [plain]), c)
  }

  /** A live party after it has received a ciphertext, which need not open. */
  function AfterRead(p: Party, c: Sealed): Party
    requires p.Live?
  {
    var (cs, plain) := Decrypt(p.recv, c);
    p.(recv := cs, got := if plain.Some? then p.got + [plain.value] else p.got)
  }

  ghost function After(s: State, step: Step): State
    requires Enabled(s, step)
  {
    match step
    case StartInitiator(id, own, rs) =>
      var (_, m) := WriteMessage1(NewInitiator(own, rs), Ephemeral(id));
      s.(parties := s.parties[id := Initiating(own, rs)], net := s.net + {m.s, m.payload})
    case StartResponder(id, own, allowed) => s.(parties := s.parties[id := Responding(own, allowed)])
    case RespondTo(id, m) =>
      (match Responded(id, s.parties[id], m)
       case None => s.(stopped := s.stopped + {id})
       case Some((p, m2)) => s.(parties := s.parties[id := p], net := s.net + {m2.payload}))
    case Finish(id, m) =>
      (match Finished(id, s.parties[id], m)
       case None => s.(stopped := s.stopped + {id})
       case Some(p) => s.(parties := s.parties[id := p]))
    case Write(id, plain) =>
      var (p, c) := AfterWrite(s.parties[id], plain);
      s.(parties := s.parties[id := p], net := if c.Some? then s.net + {c.value} else s.net)
    case Read(id, c) => s.(parties := s.parties[id := AfterRead(s.parties[id], c)])
    case Stop(id) => s.(stopped := s.stopped + {id})
    case Forge(c) => s.(net := s.net + {c})
  }

  // ----- The invariant -----

  /** The keys of an initiator that has not finished. */
  function Proposed(id: Id, p: Party): Keys
    requires p.Initiating?
  {
    Keys(Ephemeral(id), p.s, p.rs, NO_KEY, EMPTY)
  }

  ghost predicate IsData(p: Party, c: Sealed)
    requires p.Live?
  {
    && c.nonce < p.send.n && c.nonce < |p.given|
    && c == Sealed(Split(Chain4(p.v.k), p.v.Direction()), c.nonce, [], Bytes(p.given[c.nonce]))
  }

  /** The ciphertexts that a party has sealed so far. */
  ghost predicate Emits(id: Id, p: Party, c: Sealed) {
    match p
    case Initiating(_, _) => c == C1(Proposed(id, p)) || c == C2(Proposed(id, p))
    case Responding(_, _) => false
    case Live(v, _, _, _, _) =>
      || (v.initiator && (c == C1(v.k) || c == C2(v.k)))
      || (!v.initiator && c == C3(v.k))
      || IsData(p, c)
  }

  ghost predicate NetOk(s: State) {
    forall c :: c in s.net ==> Forgeable(s.honest, c) || exists id :: id in s.parties && Emits(id, s.parties[id], c)
  }

  ghost predicate PartyOk(honest: set<Public>, id: Id, p: Party) {
    match p
    case Initiating(own, _) => own in honest
    case Responding(own, _) => own in honest
    case Live(v, send, recv, given, got) =>
      && (v.initiator ==> v.k.ei == Ephemeral(id) && v.k.si in honest && v.k.payload == EMPTY)
      && (!v.initiator ==> v.k.er == Ephemeral(id) && v.k.sr in honest && IsAuthorized(v.k.si, v.allowed))
      && send.key == Split(Chain4(v.k), v.Direction())
      && recv.key == Split(Chain4(v.k), 1 - v.Direction())
      && send.n <= |given| && (send.n < MAX_NONCE ==> send.n == |given|)
      && recv.n == |got|
  }

  ghost predicate PartiesOk(s: State) {
    && (forall p :: p in s.honest ==> p.Static?)
    && (forall id :: id in s.parties ==> PartyOk(s.honest, id, s.parties[id]))
  }

  ghost predicate IsLive(s: State, id: Id) {
    id in s.parties && s.parties[id].Live?
  }

  /** The session that answered an initiator's handshake. */
  ghost predicate AnsweredBy(s: State, k: Keys) {
    && k.er.Ephemeral? && IsLive(s, k.er.session)
    && !s.parties[k.er.session].v.initiator && s.parties[k.er.session].v.k == k
  }

  ghost predicate Agree(s: State) {
    forall id :: IsLive(s, id) && s.parties[id].v.initiator && s.parties[id].v.k.sr in s.honest
                 ==> AnsweredBy(s, s.parties[id].v.k)
  }

  /** The session that completed an initiator's handshake with this responder. */
  ghost predicate CompletedBy(s: State, k: Keys) {
    && k.ei.Ephemeral? && IsLive(s, k.ei.session)
    && s.parties[k.ei.session].v.initiator
    && s.parties[k.ei.session].v.k.(payload := EMPTY) == k.(payload := EMPTY)
  }

  /** What the other end of a session was given to write. */
  ghost function PeerGiven(s: State, v: View): seq<seq<nat>> {
    if v.initiator then
      if AnsweredBy(s, v.k) then s.parties[v.k.er.session].given else []
    else
      if CompletedBy(s, v.k) then s.parties[v.k.ei.session].given else []
  }

  ghost predicate Streams(s: State) {
    forall id :: IsLive(s, id) && s.parties[id].v.Peer() in s.honest
                 ==> s.parties[id].got <= PeerGiven(s, s.parties[id].v)
  }

  ghost predicate Inv(s: State) {
    NetOk(s) && PartiesOk(s) && Agree(s) && Streams(s)
  }

  ghost predicate Initial(s: State) {
    s.parties == map[] && s.stopped == {} && s.net == {} && forall p :: p in s.honest ==> p.Static?
  }

  // ----- Keys that outsiders cannot know -----

  lemma SecretUnknown(honest: set<Public>, key: SymKey, a: Public, b: Public)
    requires {a, b} in key.chain && !Corrupt(honest, a) && !Corrupt(honest, b)
    ensures !KeyKnown(honest, key)
  {
  }

  lemma PairsEqual(a: Public, b: Public, x: Public, y: Public)
    requires {a, b} == {x, y}
    ensures (a == x && b == y) || (a == y && b == x)
  {
    assert a in {x, y} && b in {x, y} && x in {a, b} && y in {a, b};
  }

  lemma PairsAligned(a: Public, b: Public, x: Public, y: Public)
    requires {a, b} == {x, y} && a == x
    ensures b == y
  {
    PairsEqual(a, b, x, y);
  }

  /** The transcript determines all four keys. */
  lemma HashDeterminesKeys(k: Keys, l: Keys)
    requires Hash2(k) == Hash2(l)
    ensures k == l
  {
    assert Hash2(k)[0] == Hash2(l)[0] && Hash2(k)[1] == Hash2(l)[1] && Hash2(k)[2] == Hash2(l)[2]
        && Hash2(k)[3] == Hash2(l)[3] && Hash2(k)[4] == Hash2(l)[4];
  }

  lemma ChainEntries(k: Keys, l: Keys)
    requires Chain4(k) == Chain4(l)
    ensures {k.ei, k.sr} == {l.ei, l.sr} && {k.si, k.sr} == {l.si, l.sr} && {k.ei, k.er} == {l.ei, l.er}
  {
    assert Chain4(k)[0] == Chain4(l)[0] && Chain4(k)[1] == Chain4(l)[1] && Chain4(k)[2] == Chain4(l)[2];
  }

  /** A second message that completes a handshake with an honest responder was written by it,
      in a session with the same keys. */
  lemma SecondMessageIsHonest(s: State, k: Keys, c: Sealed)
    requires NetOk(s) && PartiesOk(s) && c in s.net
    requires k.ei.Ephemeral? && k.sr in s.honest
    requires c.key == C3(k).key && c.ad == Hash2(k)
    ensures AnsweredBy(s, k)
  {
    assert {k.ei, k.sr} == Chain4(k)[0];
    SecretUnknown(s.honest, c.key, k.ei, k.sr);
    var id :| id in s.parties && Emits(id, s.parties[id], c);
    var p := s.parties[id];
    assert |Chain4(k)| == 4;
    assert p.Live? && !p.v.initiator && c == C3(p.v.k);
    HashDeterminesKeys(p.v.k, k);
    assert PartyOk(s.honest, id, p);
  }

  /** A ciphertext that an initiator opens was sealed by the session that answered it. */
  lemma InitiatorReadsHonest(s: State, id: Id, c: Sealed)
    requires Inv(s) && IsLive(s, id) && s.parties[id].v.initiator && s.parties[id].v.k.sr in s.honest
    requires c in s.net && c.key == s.parties[id].recv.key
    ensures AnsweredBy(s, s.parties[id].v.k) && IsData(s.parties[s.parties[id].v.k.er.session], c)
  {
    var k := s.parties[id].v.k;
    assert PartyOk(s.honest, id, s.parties[id]);
    assert {k.ei, k.sr} == Chain4(k)[0];
    SecretUnknown(s.honest, c.key, k.ei, k.sr);
    var r :| r in s.parties && Emits(r, s.parties[r], c);
    var p := s.parties[r];
    assert PartyOk(s.honest, r, p);
    assert p.Live? && IsData(p, c) && !p.v.initiator;
    ChainEntries(p.v.k, k);
    PairsEqual(p.v.k.ei, p.v.k.er, k.ei, k.er);
    assert r == k.er.session;
  }

  /** A ciphertext that a responder opens, its peer being honest, was sealed by the session that
      completed the handshake with it. */
  lemma ResponderReadsHonest(s: State, id: Id, c: Sealed)
    requires Inv(s) && IsLive(s, id) && !s.parties[id].v.initiator && s.parties[id].v.k.si in s.honest
    requires c in s.net && c.key == s.parties[id].recv.key
    ensures CompletedBy(s, s.parties[id].v.k) && IsData(s.parties[s.parties[id].v.k.ei.session], c)
  {
    var k := s.parties[id].v.k;
    assert PartyOk(s.honest, id, s.parties[id]);
    assert {k.si, k.er} == Chain4(k)[3];
    SecretUnknown(s.honest, c.key, k.si, k.er);
    var i :| i in s.parties && Emits(i, s.parties[i], c);
    var p := s.parties[i];
    assert PartyOk(s.honest, i, p);
    assert p.Live? && IsData(p, c) && p.v.initiator;
    ChainEntries(p.v.k, k);
    PairsEqual(p.v.k.ei, p.v.k.er, k.ei, k.er);
    assert p.v.k.ei == k.ei;
    PairsAligned(p.v.k.ei, p.v.k.sr, k.ei, k.sr);
    PairsAligned(p.v.k.sr, p.v.k.si, k.sr, k.si);
  }

  // ----- What outsiders can do -----

  /** Nothing is ever lost to the network: it can deliver any ciphertext to any party at any time,
      and an outsider can add whatever it can seal. */
  lemma NetworkIsHostile(s: State, id: Id, c: Sealed)
    ensures CanAct(s, id) && s.parties[id].Live? && c in s.net ==> Enabled(s, Read(id, c))
    ensures CanAct(s, id) && s.parties[id].Responding? ==>
              forall m: Message1 | m.s in s.net && m.payload in s.net :: Enabled(s, RespondTo(id, m))
    ensures CanAct(s, id) && s.parties[id].Initiating? ==>
              forall m: Message2 | m.payload in s.net :: Enabled(s, Finish(id, m))
    ensures Forgeable(s.honest, c) ==> Enabled(s, Forge(c)) && c in After(s, Forge(c)).net
  {
    hide Forgeable;
  }

  lemma NetworkForgetsNothing(s: State, step: Step)
    requires Enabled(s, step)
    ensures s.net <= After(s, step).net
  {
    hide Responded, Finished, WriteMessage1, Encrypt, Decrypt;
  }

  /** Outsiders know every key of a handshake in which one side is theirs, with a long-lived key that
      is not honest and an ephemeral key that belongs to no session. */
  lemma OutsidersKnowTheirOwn(honest: set<Public>, k: Keys, direction: nat)
    ensures !k.sr.Ephemeral? && k.sr !in honest && k.er.Foreign? && k.er !in honest ==>
              && KeyKnown(honest, Chained(Chain1(k))) && KeyKnown(honest, Chained(Chain2(k)))
              && KeyKnown(honest, Chained(Chain4(k))) && KeyKnown(honest, Split(Chain4(k), direction))
    ensures !k.si.Ephemeral? && k.si !in honest && k.ei.Foreign? && k.ei !in honest ==>
              && KeyKnown(honest, Chained(Chain1(k))) && KeyKnown(honest, Chained(Chain2(k)))
              && KeyKnown(honest, Chained(Chain4(k))) && KeyKnown(honest, Split(Chain4(k), direction))
  {
  }

  // ----- Every step keeps the invariant -----

  /** A live session keeps its view, and only adds to what it was given. */
  lemma LiveKept(s: State, step: Step, id: Id)
    requires Enabled(s, step) && IsLive(s, id)
    ensures var s' := After(s, step);
            IsLive(s', id) && s'.parties[id].v == s.parties[id].v && s.parties[id].given <= s'.parties[id].given
  {
    hide Responded, Finished, Encrypt, Decrypt, WriteMessage1;
  }

  lemma RespondedView(id: Id, p: Party, m: Message1)
    requires p.Responding?
    ensures var r := Responded(id, p, m);
            r.Some? ==>
              var k := Keys(m.e, r.value.0.v.k.si, p.s, Ephemeral(id), m.payload.plain);
              && r.value.0 == Live(View(false, k, p.allowed), CipherState(Split(Chain4(k), 1), 0),
                                   CipherState(Split(Chain4(k), 0), 0), [], [])
              && r.value.1 == Message2(Ephemeral(id), C3(k))
              && IsAuthorized(k.si, p.allowed)
  {
    Message1Read(p.s, m);
    var hs := ReadMessage1(NewResponder(p.s), m);
    if hs.Some? {
      var k := Keys(m.e, hs.value.rs, p.s, Ephemeral(id), m.payload.plain);
      Message2Written(k);
      hide C1, C2, C3, Chain2, Chain4;
      assert hs.value == AfterMessage1(k, k.sr, NO_KEY, k.si, k.ei) by { ResponderState(k, hs.value); }
    }
  }

  lemma ResponderState(k: Keys, hs: HandshakeState)
    requires var k0 := k.(er := NO_KEY);
             hs == AfterMessage1(k0, k.sr, NO_KEY, k.si, k.ei)
    ensures hs == AfterMessage1(k, k.sr, NO_KEY, k.si, k.ei)
  {
  }

  lemma FinishedView(id: Id, p: Party, m: Message2)
    requires p.Initiating?
    ensures var r := Finished(id, p, m);
            r.Some? ==>
              var k := Proposed(id, p).(er := m.e);
              && r.value == Live(View(true, k, []), CipherState(Split(Chain4(k), 0), 0),
                                 CipherState(Split(Chain4(k), 1), 0), [], [])
              && m.payload.key == C3(k).key && m.payload.ad == Hash2(k)
  {
    var k := Proposed(id, p).(er := m.e);
    Message1Written(k);
    Message2Read(k, m.payload);
  }

  lemma EmitsKept(s: State, step: Step, id: Id, c: Sealed)
    requires PartiesOk(s) && Enabled(s, step) && id in s.parties && Emits(id, s.parties[id], c)
    ensures id in After(s, step).parties && Emits(id, After(s, step).parties[id], c)
  {
    assert PartyOk(s.honest, id, s.parties[id]);
    match step
    case Finish(i, m) =>
      if i == id {
        FinishedView(id, s.parties[id], m);
      }
    case Write(i, plain) =>
      hide C1, C2, C3, Responded, Finished;
    case _ =>
      hide C1, C2, C3, Responded, Finished;
  }

  lemma NewCiphertext(s: State, step: Step, c: Sealed)
    requires PartiesOk(s) && Enabled(s, step) && c in After(s, step).net && c !in s.net
    ensures Forgeable(s.honest, c)
            || exists id :: id in After(s, step).parties && Emits(id, After(s, step).parties[id], c)
  {
    var s' := After(s, step);
    match step
    case StartInitiator(id, own, rs) =>
      Message1Written(Keys(Ephemeral(id), own, rs, NO_KEY, EMPTY));
      assert Emits(id, s'.parties[id], c);
    case RespondTo(id, m) =>
      RespondedView(id, s.parties[id], m);
      hide Responded, C1, C2;
      assert Emits(id, s'.parties[id], c);
    case Write(id, plain) =>
      assert PartyOk(s.honest, id, s.parties[id]);
      hide C1, C2, C3;
      assert Emits(id, s'.parties[id], c);
    case Forge(_) =>
    case _ =>
  }

  lemma StepNetOk(s: State, step: Step)
    requires NetOk(s) && PartiesOk(s) && Enabled(s, step)
    ensures NetOk(After(s, step))
  {
    var s' := After(s, step);
    assert s'.honest == s.honest by { hide Responded, Finished, WriteMessage1; }
    hide After, Emits, Forgeable, Enabled, PartiesOk;
    forall c | c in s'.net
      ensures Forgeable(s'.honest, c) || exists id :: id in s'.parties && Emits(id, s'.parties[id], c)
    {
      if c !in s.net {
        NewCiphertext(s, step, c);
      } else if !Forgeable(s.honest, c) {
        var id :| id in s.parties && Emits(id, s.parties[id], c);
        EmitsKept(s, step, id, c);
      }
    }
  }

  lemma StepPartiesOk(s: State, step: Step)
    requires PartiesOk(s) && Enabled(s, step)
    ensures PartiesOk(After(s, step))
  {
    match step {
      case RespondTo(id, m) => RespondedView(id, s.parties[id], m);
      case Finish(id, m) => FinishedView(id, s.parties[id], m);
      case _ =>
    }
    hide Responded, Finished, WriteMessage1, C1, C2, C3, KeyKnown;
    var s' := After(s, step);
    forall id | id in s'.parties ensures PartyOk(s'.honest, id, s'.parties[id]) {
      assert id in s.parties ==> PartyOk(s.honest, id, s.parties[id]);
    }
  }

  lemma AnsweredKept(s: State, step: Step, k: Keys)
    requires Enabled(s, step) && AnsweredBy(s, k)
    ensures AnsweredBy(After(s, step), k)
    ensures s.parties[k.er.session].given <= After(s, step).parties[k.er.session].given
  {
    LiveKept(s, step, k.er.session);
    hide After, Enabled;
  }

  lemma CompletedKept(s: State, step: Step, k: Keys)
    requires Enabled(s, step) && CompletedBy(s, k)
    ensures CompletedBy(After(s, step), k)
    ensures s.parties[k.ei.session].given <= After(s, step).parties[k.ei.session].given
  {
    LiveKept(s, step, k.ei.session);
    hide After, Enabled;
  }

  lemma PeerGivenGrows(s: State, step: Step, v: View)
    requires Enabled(s, step)
    ensures PeerGiven(s, v) <= PeerGiven(After(s, step), v)
  {
    hide After, Enabled, AnsweredBy, CompletedBy;
    if v.initiator && AnsweredBy(s, v.k) {
      AnsweredKept(s, step, v.k);
    } else if !v.initiator && CompletedBy(s, v.k) {
      CompletedKept(s, step, v.k);
    }
  }

  /** What a live session was before the step: itself, or about to complete its handshake. */
  lemma LiveBefore(s: State, step: Step, id: Id)
    requires Enabled(s, step) && IsLive(After(s, step), id)
    ensures var s' := After(s, step);
            || (IsLive(s, id) && s'.parties[id].v == s.parties[id].v
                && (s'.parties[id].got == s.parties[id].got || (step.Read? && step.id == id)))
            || (step.RespondTo? && step.id == id && !s'.parties[id].v.initiator && s'.parties[id].got == [])
            || (step.Finish? && step.id == id && s'.parties[id].v.initiator && s'.parties[id].got == [])
  {
    match step {
      case RespondTo(i, m) => RespondedView(i, s.parties[i], m);
      case Finish(i, m) => FinishedView(i, s.parties[i], m);
      case _ =>
    }
    hide Responded, Finished, WriteMessage1, C1, C2, C3;
  }

  lemma FinishAgrees(s: State, step: Step)
    requires Inv(s) && Enabled(s, step) && step.Finish?
    requires IsLive(After(s, step), step.id) && After(s, step).parties[step.id].v.k.sr in s.honest
    ensures AnsweredBy(s, After(s, step).parties[step.id].v.k)
  {
    FinishedView(step.id, s.parties[step.id], step.m2);
    SecondMessageIsHonest(s, After(s, step).parties[step.id].v.k, step.m2.payload);
  }

  lemma StepAgree(s: State, step: Step)
    requires Inv(s) && Enabled(s, step)
    ensures Agree(After(s, step))
  {
    var s' := After(s, step);
    assert s'.honest == s.honest by { hide Responded, Finished, WriteMessage1; }
    hide After, Enabled, AnsweredBy, NetOk, PartiesOk, Streams;
    forall id | IsLive(s', id) && s'.parties[id].v.initiator && s'.parties[id].v.k.sr in s'.honest
      ensures AnsweredBy(s', s'.parties[id].v.k)
    {
      LiveBefore(s, step, id);
      if !IsLive(s, id) {
        FinishAgrees(s, step);
      }
      AnsweredKept(s, step, s'.parties[id].v.k);
    }
  }

  /** A successful read returns the next plaintext that the other end was given. */
  lemma ReadIsNext(s: State, step: Step)
    requires Inv(s) && Enabled(s, step) && step.Read? && s.parties[step.id].v.Peer() in s.honest
    ensures After(s, step).parties[step.id].got <= PeerGiven(s, s.parties[step.id].v)
  {
    var p := s.parties[step.id];
    assert PartyOk(s.honest, step.id, p);
    assert p.got <= PeerGiven(s, p.v);
    if Decrypt(p.recv, step.c).1.Some? {
      if p.v.initiator {
        InitiatorReadsHonest(s, step.id, step.c);
      } else {
        ResponderReadsHonest(s, step.id, step.c);
      }
      assert step.c.nonce == |p.got| && step.c.plain == Bytes(PeerGiven(s, p.v)[|p.got|]);
    }
  }

  lemma StepStreams(s: State, step: Step)
    requires Inv(s) && Enabled(s, step)
    ensures Streams(After(s, step))
  {
    var s' := After(s, step);
    assert s'.honest == s.honest by { hide Responded, Finished, WriteMessage1; }
    hide After, Enabled, NetOk, PartiesOk, Agree, PeerGiven;
    forall id | IsLive(s', id) && s'.parties[id].v.Peer() in s'.honest
      ensures s'.parties[id].got <= PeerGiven(s', s'.parties[id].v)
    {
      LiveBefore(s, step, id);
      PeerGivenGrows(s, step, s'.parties[id].v);
      if step.Read? && step.id == id {
        ReadStaysLive(s, step);
        ReadIsNext(s, step);
      }
    }
  }

  lemma ReadStaysLive(s: State, step: Step)
    requires Enabled(s, step) && step.Read?
    ensures IsLive(s, step.id)
  {
  }

  lemma StepInv(s: State, step: Step)
    requires Inv(s) && Enabled(s, step)
    ensures Inv(After(s, step))
  {
    StepNetOk(s, step);
    StepPartiesOk(s, step);
    StepAgree(s, step);
    StepStreams(s, step);
    hide NetOk, PartiesOk, Agree, Streams, After, Enabled;
  }

  ghost predicate IsRun(states: seq<State>, steps: seq<Step>) {
    && |states| == |steps| + 1 && Initial(states[0])
    && forall i :: 0 <= i < |steps| ==> Enabled(states[i], steps[i]) && states[i + 1] == After(states[i], steps[i])
  }

  lemma {:induction false} RunInv(states: seq<State>, steps: seq<Step>)
    requires IsRun(states, steps)
    ensures Inv(states[|steps|])
  {
    if steps != [] {
      hide Inv, Enabled, After;
      var n := |steps| - 1;
      RunInv(states[..n + 1], steps[..n]);
      StepInv(states[n], steps[n]);
    }
  }

  // ----- What the channel promises -----

  /** Between two sessions of this code the handshake completes exactly if the responder
      authorises the initiator's key. Each side then knows the other's key, and what one
      sends under the other receives under. */
  lemma HandshakeCompletes(i: Id, r: Id, si: Public, sr: Public, allowed: seq<Public>)
    ensures var m1 := WriteMessage1(NewInitiator(si, sr), Ephemeral(i)).1;
            var answer := Responded(r, Responding(sr, allowed), m1);
            && (answer.Some? <==> IsAuthorized(si, allowed))
            && (answer.Some? ==>
                  var done := Finished(i, Initiating(si, sr), answer.value.1);
                  && done.Some?
                  && done.value.send == answer.value.0.recv && done.value.recv == answer.value.0.send
                  && done.value.send.key != done.value.recv.key
                  && done.value.v.Peer() == sr && answer.value.0.v.Peer() == si)
  {
    var k := Keys(Ephemeral(i), si, sr, Ephemeral(r), EMPTY);
    Message1Written(k);
    Message1Accepted(k);
    RespondedView(r, Responding(sr, allowed), Message1(k.ei, C1(k), C2(k)));
    FinishedView(i, Initiating(si, sr), Message2(k.er, C3(k)));
    Message2Read(k, C3(k));
  }

  /** In every run: an initiator that obtained a session from an honest responder's key shares
      its keys, crosswise, with a session of that responder, which had passed the authorised
      check on the initiator's key. */
  lemma InitiatorAgreement(states: seq<State>, steps: seq<Step>, id: Id)
    requires IsRun(states, steps)
    requires IsLive(states[|steps|], id)
    requires states[|steps|].parties[id].v.initiator && states[|steps|].parties[id].v.k.sr in states[|steps|].honest
    ensures var s := states[|steps|];
            var p := s.parties[id];
            && p.v.k.er.Ephemeral? && IsLive(s, p.v.k.er.session)
            && var q := s.parties[p.v.k.er.session];
               && !q.v.initiator
               && p.v.Peer() == q.v.k.sr && q.v.Peer() == p.v.k.si
               && IsAuthorized(p.v.k.si, q.v.allowed)
               && p.send.key == q.recv.key && p.recv.key == q.send.key && p.send.key != p.recv.key
  {
    RunInv(states, steps);
    var s := states[|steps|];
    hide NetOk, Streams;
    assert AnsweredBy(s, s.parties[id].v.k);
    assert PartyOk(s.honest, id, s.parties[id]);
    assert PartyOk(s.honest, s.parties[id].v.k.er.session, s.parties[s.parties[id].v.k.er.session]);
  }

  function Concat(chunks: seq<seq<nat>>): seq<nat> {
    if chunks == [] then [] else Concat(chunks[..|chunks| - 1]) + chunks[|chunks| - 1]
  }

  lemma {:induction false} ConcatPrefix(a: seq<seq<nat>>, b: seq<seq<nat>>)
    requires a <= b
    ensures Concat(a) <= Concat(b)
  {
    if a == b {
    } else {
      var n := |b| - 1;
      assert a <= b[..n];
      ConcatPrefix(a, b[..n]);
    }
  }

  /** In every run and against every network: what a session with an honest peer has read, as
      messages and as bytes, is a prefix of what one session of that peer was given to write. */
  lemma StreamIsPrefix(states: seq<State>, steps: seq<Step>, id: Id)
    requires IsRun(states, steps)
    requires IsLive(states[|steps|], id) && states[|steps|].parties[id].v.Peer() in states[|steps|].honest
    ensures var s := states[|steps|];
            var p := s.parties[id];
            && p.got <= PeerGiven(s, p.v)
            && Concat(p.got) <= Concat(PeerGiven(s, p.v))
            && (p.got != [] && p.v.initiator ==> AnsweredBy(s, p.v.k))
            && (p.got != [] && !p.v.initiator ==> CompletedBy(s, p.v.k))
  {
    RunInv(states, steps);
    var s := states[|steps|];
    ConcatPrefix(s.parties[id].got, PeerGiven(s, s.parties[id].v));
    hide NetOk, PartiesOk, Agree;
  }

  /** The hub relays but cannot read: in every run, no outsider knows either key of a session
      whose peer is honest, nor the keys that hide the initiator's identity. */
  lemma OutsidersCannotRead(states: seq<State>, steps: seq<Step>, id: Id)
    requires IsRun(states, steps) && IsLive(states[|steps|], id)
    requires states[|steps|].parties[id].v.Peer() in states[|steps|].honest
    ensures var s := states[|steps|];
            var p := s.parties[id];
            && !KeyKnown(s.honest, p.send.key) && !KeyKnown(s.honest, p.recv.key)
            && (p.v.initiator ==> !KeyKnown(s.honest, C1(p.v.k).key) && !KeyKnown(s.honest, C2(p.v.k).key))
  {
    RunInv(states, steps);
    hide NetOk, Agree, Streams;
    var s := states[|steps|];
    var k := s.parties[id].v.k;
    assert PartyOk(s.honest, id, s.parties[id]);
    if s.parties[id].v.initiator {
      assert {k.ei, k.sr} == Chain1(k)[0] == Chain2(k)[0] == Chain4(k)[0];
      SecretUnknown(s.honest, Chained(Chain1(k)), k.ei, k.sr);
      SecretUnknown(s.honest, Chained(Chain2(k)), k.ei, k.sr);
      SecretUnknown(s.honest, Split(Chain4(k), 0), k.ei, k.sr);
      SecretUnknown(s.honest, Split(Chain4(k), 1), k.ei, k.sr);
    } else {
      assert {k.si, k.er} == Chain4(k)[3];
      SecretUnknown(s.honest, Split(Chain4(k), 0), k.si, k.er);
      SecretUnknown(s.honest, Split(Chain4(k), 1), k.si, k.er);
    }
  }

  /** The two ends of a connection name each other: the stream relation joins the same pair of
      sessions in both directions. */
  lemma EndsNameEachOther(s: State, id: Id)
    requires Inv(s) && IsLive(s, id) && s.parties[id].v.initiator && s.parties[id].v.k.sr in s.honest
    ensures var k := s.parties[id].v.k;
            && AnsweredBy(s, k)
            && CompletedBy(s, s.parties[k.er.session].v.k)
            && s.parties[k.er.session].v.k.ei.session == id
  {
    assert PartyOk(s.honest, id, s.parties[id]);
  }
}
