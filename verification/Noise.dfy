/** The Noise protocol as an ideal object (Noise Protocol Framework, revision 34): pattern IK of
    section 7.5 and the CipherState of section 5.1, with symbolic keys and ciphertexts. */
module Noise {
  import opened Wrappers

  /** A public key: a long-lived one, the ephemeral one of a session, or one of an outsider.
      Distinct terms are distinct keys. */
  datatype Public = Static(name: nat) | Ephemeral(session: nat) | Foreign(name: nat)

  /** A Diffie-Hellman result: the same for both orders of the two keys. */
  type Secret = set<Public>

  /** A key of the handshake is the chain of results mixed so far; Split gives two per chain. */
  datatype SymKey = Chained(chain: seq<Secret>) | Split(chain: seq<Secret>, direction: nat)

  datatype Plain = KeyPlain(key: Public) | Bytes(bytes: seq<nat>)

  datatype Item = KeyItem(key: Public) | CipherItem(c: Sealed)

  /** An ideal ciphertext: it opens under its own key, nonce and associated data only. */
  datatype Sealed = Sealed(key: SymKey, nonce: nat, ad: seq<Item>, plain: Plain)

  function Opened(key: SymKey, nonce: nat, ad: seq<Item>, c: Sealed): Option<Plain> {
    if c.key == key && c.nonce == nonce && c.ad == ad then Some(c.plain) else None
  }

  // ----- CipherState, section 5.1 -----

  const MAX_NONCE: nat := 0xFFFF_FFFF_FFFF_FFFF

  datatype CipherState = CipherState(key: SymKey, n: nat)

  /** A nonce is used once; the last one is reserved, so encryption then fails for good. */
  function Encrypt(cs: CipherState, p: seq<nat>): (CipherState, Option<Sealed>) {
    if cs.n >= MAX_NONCE then (cs, None)
    else (cs.(n := cs.n + 1), Some(Sealed(cs.key, cs.n, [], Bytes(p))))
  }

  /** A ciphertext that fails to open does not advance the nonce. */
  function Decrypt(cs: CipherState, c: Sealed): (CipherState, Option<seq<nat>>) {
    var plain := Opened(cs.key, cs.n, [], c);
    if cs.n >= MAX_NONCE || plain.None? || !plain.value.Bytes? then (cs, None)
    else (cs.(n := cs.n + 1), Some(plain.value.bytes))
  }

  /** A cipher state has 2^64 - 1 nonces, 0 first, each used for one message only. */
  lemma NonceUse(cs: CipherState, p: seq<nat>)
    ensures cs.n >= 0xFFFF_FFFF_FFFF_FFFF ==> Encrypt(cs, p) == (cs, None)
    ensures cs.n < 0xFFFF_FFFF_FFFF_FFFF ==>
              && Encrypt(cs, p).1.Some? && Encrypt(cs, p).1.value.nonce == cs.n
              && Encrypt(cs, p).0 == Decrypt(cs, Encrypt(cs, p).1.value).0 == CipherState(cs.key, cs.n + 1)
              && Decrypt(cs, Encrypt(cs, p).1.value).1 == Some(p)
  {
  }

  // ----- HandshakeState, pattern IK -----

  datatype HandshakeState = HandshakeState(
    s: Public, e: Public, rs: Public, re: Public, h: seq<Item>, chain: seq<Secret>)

  function MixHash(hs: HandshakeState, item: Item): HandshakeState {
    hs.(h := hs.h + [item])
  }

  function MixKey(hs: HandshakeState, own: Public, other: Public): HandshakeState {
    hs.(chain := hs.chain + [{own, other}])
  }

  function EncryptAndHash(hs: HandshakeState, p: Plain): (HandshakeState, Sealed) {
    var c := Sealed(Chained(hs.chain), 0, hs.h, p);
    (MixHash(hs, CipherItem(c)), c)
  }

  function DecryptAndHash(hs: HandshakeState, c: Sealed): Option<(HandshakeState, Plain)> {
    match Opened(Chained(hs.chain), 0, hs.h, c)
    case None => None
    case Some(p) => Some((MixHash(hs, CipherItem(c)), p))
  }

  const NO_KEY: Public := Foreign(0)

  /** The pre-message <- s: both sides hash the responder's static key first. */
  function NewInitiator(s: Public, rs: Public): HandshakeState {
    HandshakeState(s, NO_KEY, rs, NO_KEY, [KeyItem(rs)], [])
  }

  function NewResponder(s: Public): HandshakeState {
    HandshakeState(s, NO_KEY, NO_KEY, NO_KEY, [KeyItem(s)], [])
  }

  datatype Message1 = Message1(e: Public, s: Sealed, payload: Sealed)
  datatype Message2 = Message2(e: Public, payload: Sealed)

  /** -> e, es, s, ss */
  function WriteMessage1(hs: HandshakeState, e: Public): (HandshakeState, Message1) {
    var hs := MixKey(MixHash(hs.(e := e), KeyItem(e)), e, hs.rs);
    var (hs, c1) := EncryptAndHash(hs, KeyPlain(hs.s));
    var (hs, c2) := EncryptAndHash(MixKey(hs, hs.s, hs.rs), EMPTY);
    (hs, Message1(e, c1, c2))
  }

  function ReadMessage1(hs: HandshakeState, m: Message1): Option<HandshakeState> {
    var hs := MixKey(MixHash(hs.(re := m.e), KeyItem(m.e)), hs.s, m.e);
    match DecryptAndHash(hs, m.s)
    case Some((hs, KeyPlain(rs))) =>
      (match DecryptAndHash(MixKey(hs.(rs := rs), hs.s, rs), m.payload)
       case Some((hs, _)) => Some(hs)
       case None => None)
    case _ => None
  }

  /** <- e, ee, se */
  function WriteMessage2(hs: HandshakeState, e: Public): (HandshakeState, Message2) {
    var hs := MixHash(hs.(e := e), KeyItem(e));
    var (hs, c) := EncryptAndHash(MixKey(MixKey(hs, e, hs.re), e, hs.rs), EMPTY);
    (hs, Message2(e, c))
  }

  function ReadMessage2(hs: HandshakeState, m: Message2): Option<HandshakeState> {
    var hs := MixHash(hs.(re := m.e), KeyItem(m.e));
    match DecryptAndHash(MixKey(MixKey(hs, hs.e, m.e), hs.s, m.e), m.payload)
    case Some((hs, _)) => Some(hs)
    case None => None
  }

  /** The two transport states: the first encrypts from initiator to responder. */
  function SplitStates(hs: HandshakeState): (CipherState, CipherState) {
    (CipherState(Split(hs.chain, 0), 0), CipherState(Split(hs.chain, 1), 0))
  }

  // ----- What a completed handshake agrees on -----

  const EMPTY: Plain := Bytes([])

  /** The four keys of a handshake, and the payload that the first message carried. */
  datatype Keys = Keys(ei: Public, si: Public, sr: Public, er: Public, payload: Plain)

  function Chain1(k: Keys): seq<Secret> { [{k.ei, k.sr}] }
  function Chain2(k: Keys): seq<Secret> { [{k.ei, k.sr}, {k.si, k.sr}] }
  function Chain4(k: Keys): seq<Secret> { [{k.ei, k.sr}, {k.si, k.sr}, {k.ei, k.er}, {k.si, k.er}] }

  function Hash0(k: Keys): seq<Item> { [KeyItem(k.sr), KeyItem(k.ei)] }
  function C1(k: Keys): Sealed { Sealed(Chained(Chain1(k)), 0, Hash0(k), KeyPlain(k.si)) }
  function C2(k: Keys): Sealed { Sealed(Chained(Chain2(k)), 0, Hash0(k) + [CipherItem(C1(k))], k.payload) }
  function Hash2(k: Keys): seq<Item> { Hash0(k) + [CipherItem(C1(k)), CipherItem(C2(k)), KeyItem(k.er)] }
  function C3(k: Keys): Sealed { Sealed(Chained(Chain4(k)), 0, Hash2(k), EMPTY) }

  lemma PairSwap(a: Public, b: Public)
    ensures {a, b} == {b, a}
  {
  }

  /** The initiator's first message, from its keys alone. */
  lemma Message1Written(k: Keys)
    requires k.payload == EMPTY
    ensures var (hs, m) := WriteMessage1(NewInitiator(k.si, k.sr), k.ei);
            && m == Message1(k.ei, C1(k), C2(k))
            && hs == AfterMessage1(k, k.si, k.ei, k.sr, NO_KEY)
  {
    assert [KeyItem(k.sr)] + [KeyItem(k.ei)] == Hash0(k);
    assert [] + [{k.ei, k.sr}] == Chain1(k);
    assert Chain1(k) + [{k.si, k.sr}] == Chain2(k);
    assert (Hash0(k) + [CipherItem(C1(k))]) + [CipherItem(C2(k))]
          == Hash0(k) + [CipherItem(C1(k)), CipherItem(C2(k))];
  }

  /** A responder accepts a first message only if it is the one that some initiator key's owner
      would write to it, and then it knows that key. */
  lemma Message1Read(sr: Public, m: Message1)
    ensures var r := ReadMessage1(NewResponder(sr), m);
            r.Some? ==>
              var k := Keys(m.e, r.value.rs, sr, NO_KEY, m.payload.plain);
              && m == Message1(k.ei, C1(k), C2(k))
              && r.value == AfterMessage1(k, sr, NO_KEY, k.si, k.ei)
  {
    var r := ReadMessage1(NewResponder(sr), m);
    if r.Some? {
      var k := Keys(m.e, r.value.rs, sr, NO_KEY, m.payload.plain);
      PairSwap(sr, m.e);
      PairSwap(sr, k.si);
      assert [KeyItem(k.sr)] + [KeyItem(k.ei)] == Hash0(k);
      assert [] + [{k.ei, k.sr}] == Chain1(k);
      assert Chain1(k) + [{k.si, k.sr}] == Chain2(k);
      assert m.s == C1(k);
      assert m.payload == C2(k);
      assert (Hash0(k) + [CipherItem(C1(k))]) + [CipherItem(C2(k))]
          == Hash0(k) + [CipherItem(C1(k)), CipherItem(C2(k))];
    }
  }

  lemma Message1Accepted(k: Keys)
    ensures ReadMessage1(NewResponder(k.sr), Message1(k.ei, C1(k), C2(k))).Some?
    ensures ReadMessage1(NewResponder(k.sr), Message1(k.ei, C1(k), C2(k))).value.rs == k.si
  {
    PairSwap(k.sr, k.ei);
    PairSwap(k.sr, k.si);
    assert [KeyItem(k.sr)] + [KeyItem(k.ei)] == Hash0(k);
    assert [] + [{k.ei, k.sr}] == Chain1(k);
    assert Chain1(k) + [{k.si, k.sr}] == Chain2(k);
  }

  function AfterMessage1(k: Keys, s: Public, e: Public, rs: Public, re: Public): HandshakeState {
    HandshakeState(s, e, rs, re, Hash0(k) + [CipherItem(C1(k)), CipherItem(C2(k))], Chain2(k))
  }

  lemma Message2Written(k: Keys)
    ensures var (hs, m) := WriteMessage2(AfterMessage1(k, k.sr, NO_KEY, k.si, k.ei), k.er);
            && m == Message2(k.er, C3(k)) && hs.chain == Chain4(k) && hs.rs == k.si
  {
    PairSwap(k.er, k.ei);
    PairSwap(k.er, k.si);
    hide C1, C2;
    assert Hash0(k) + [CipherItem(C1(k)), CipherItem(C2(k))] + [KeyItem(k.er)] == Hash2(k);
    assert Chain2(k) + [{k.ei, k.er}] + [{k.si, k.er}] == Chain4(k);
  }

  /** The initiator completes on exactly one second message for each ephemeral key. */
  lemma Message2Read(k: Keys, c: Sealed)
    ensures var r := ReadMessage2(AfterMessage1(k, k.si, k.ei, k.sr, NO_KEY), Message2(k.er, c));
            && (r.Some? <==> c.key == C3(k).key && c.nonce == 0 && c.ad == Hash2(k))
            && (r.Some? ==> r.value.chain == Chain4(k) && r.value.rs == k.sr)
  {
    hide C1, C2;
    assert Hash0(k) + [CipherItem(C1(k)), CipherItem(C2(k))] + [KeyItem(k.er)] == Hash2(k);
    assert Chain2(k) + [{k.ei, k.er}] + [{k.si, k.er}] == Chain4(k);
  }
}
