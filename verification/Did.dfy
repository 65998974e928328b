/** Device identities: the did:key of an X25519 key, its document, and the in-memory anchor. */
module Did {
  import opened Wrappers
  import opened Positional
  import opened Base58

  const KEY_LEN: nat := 32
  const MULTICODEC: seq<nat> := [0xEC, 0x01]
  const SCHEME: string := "did:key:"

  type Key = k: seq<nat> | IsBytes(k) ghost witness []

  datatype Error = BadKeyLength(got: nat) | NotRegistered

  /** The multibase form: 'z', then base58btc of the multicodec tag and the key. */
  function MultibaseKey(pub: Key): string {
    "z" + Encoding(MULTICODEC + pub)
  }

  function FromX25519(pub: Key): Result<string, Error> {
    if |pub| != KEY_LEN then Err(BadKeyLength(|pub|)) else Ok(SCHEME + MultibaseKey(pub))
  }

  predicate Matches(did: string, presented: Key) {
    FromX25519(presented) == Ok(did)
  }

  /** strings.TrimPrefix(did, "did:key:"). */
  function MethodID(did: string): string {
    if SCHEME <= did then did[|SCHEME|..] else did
  }

  /** The key a DID commits to, read back from its text alone. */
  ghost function CommittedKey(did: string): (r: Option<Key>) {
    if !(SCHEME + "z" <= did) then None
    else
      match Decode(did[|SCHEME| + 1..])
      case BadCharacter => None
      case Bytes(bs) =>
        if |bs| == 2 + KEY_LEN && bs[..2] == MULTICODEC then Some(bs[2..]) else None
  }

  /** A DID matches exactly the key that its text commits to: no other key, and no other text. */
  lemma MatchesIffCommitted(did: string, pub: Key)
    ensures Matches(did, pub) <==> CommittedKey(did) == Some(pub)
  {
    if Matches(did, pub) {
      DecodeOfEncoding(MULTICODEC + pub);
      assert did[|SCHEME| + 1..] == Encoding(MULTICODEC + pub);
      assert did[..|SCHEME| + 1] == SCHEME + "z";
    }
    if CommittedKey(did) == Some(pub) {
      CommittedMatches(did, pub);
    }
  }

  lemma CommittedMatches(did: string, pub: Key)
    requires CommittedKey(did) == Some(pub)
    ensures Matches(did, pub)
  {
    var body := did[|SCHEME| + 1..];
    EncodingOfDecode(body);
    hide Decode, Encoding;
    assert Decode(body).bytes == MULTICODEC + pub;
    assert did == SCHEME + ("z" + body);
  }

  lemma MatchesOneKey(did: string, p: Key, q: Key)
    requires Matches(did, p) && Matches(did, q)
    ensures p == q
  {
    MatchesIffCommitted(did, p);
    MatchesIffCommitted(did, q);
  }

  /** Different keys never share a DID. */
  lemma FromX25519Injective(p: Key, q: Key)
    requires FromX25519(p).Ok? && FromX25519(q).Ok?
    ensures FromX25519(p) == FromX25519(q) <==> p == q
  {
    if FromX25519(p) == FromX25519(q) {
      MatchesOneKey(FromX25519(p).value, p, q);
    }
  }

  lemma {:induction false} ValueAppend(base: nat, a: seq<nat>, b: seq<nat>)
    ensures Value(base, a + b) == Value(base, a) * Pow(base, |b|) + Value(base, b)
  {
    if b == [] {
      assert a + b == a;
    } else {
      var hi := b[..|b| - 1];
      assert (a + b)[..|a + b| - 1] == a + hi;
      ValueAppend(base, a, hi);
      Distribute(Value(base, a) * Pow(base, |hi|), Value(base, hi), base);
      MulAssociative(Value(base, a), Pow(base, |hi|), base);
    }
  }

  lemma {:induction false} ValueBound(base: nat, ds: seq<nat>)
    requires IsDigits(base, ds)
    ensures Value(base, ds) < Pow(base, |ds|)
  {
    if ds != [] {
      var hi, lo := ds[..|ds| - 1], ds[|ds| - 1];
      assert ds == hi + [lo];
      ValueOfAppend(base, hi, lo);
      ValueBound(base, hi);
      BelowPower(base, Value(base, hi), Pow(base, |hi|), lo);
      assert Pow(base, |ds|) == base * Pow(base, |hi|);
      hide Value, Pow;
    }
  }

  lemma BelowPower(base: nat, v: nat, p: nat, lo: nat)
    requires v < p && lo < base
    ensures v * base + lo < base * p
  {
    MulMonotone(v, p - 1, base);
    Distribute(p - 1, 1, base);
  }

  const POW_58_44: nat := 389790918707373377135528568990913592653094657612049369038476873218241589149696
  const POW_256_32: nat := 115792089237316195423570985008687907853269984665640564039457584007913129639936

  lemma PowersInDecimal()
    ensures Pow(58, 44) == POW_58_44
    ensures Pow(256, 32) == POW_256_32
  {
    PowerOf58();
    PowerOf256();
  }

  lemma PowerOf58()
    ensures Pow(58, 44) == POW_58_44
  {
    PowAdd(58, 11, 11);
    PowAdd(58, 22, 22);
    assert Pow(58, 11) == 24986644000165537792;
    hide Pow;
  }

  lemma PowerOf256()
    ensures Pow(256, 32) == POW_256_32
  {
    PowAdd(256, 8, 8);
    PowAdd(256, 16, 16);
    assert Pow(256, 8) == 0x1_0000_0000_0000_0000;
    hide Pow;
  }

  lemma TopOfInterval(n: nat, low: nat)
    requires low < POW_256_32 && n == 0xEC01 * POW_256_32 + low
    ensures n / POW_58_44 == 17947
  {
  }

  /** Every tagged 32-byte key lies in one interval, whose members share their top three digits. */
  lemma TaggedKeyTop(pub: Key)
    requires |pub| == KEY_LEN
    ensures Value(256, MULTICODEC + pub) / POW_58_44 == 17947
  {
    PowersInDecimal();
    ValueAppend(256, MULTICODEC, pub);
    ValueBound(256, pub);
    assert Value(256, MULTICODEC) == 0xEC01 by {
      assert MULTICODEC[..1] == [0xEC] && [0xEC][..0] == [];
      assert Value(256, [0xEC]) == 0xEC;
    }
    TopOfInterval(Value(256, MULTICODEC + pub), Value(256, pub));
  }

  lemma TopThreeDigits()
    ensures ToDigits(58, 17947) == [5, 19, 25]
  {
    assert ToDigits(58, 5) == [5] by {
      assert ToDigits(58, 5 / 58) == [];
    }
    assert ToDigits(58, 309) == [5, 19] by {
      assert 309 / 58 == 5 && 309 % 58 == 19;
    }
    assert 17947 / 58 == 309 && 17947 % 58 == 25;
  }

  /** So its 47 digits begin with 5, 19 and 25 ... */
  lemma TaggedKeyDigits(pub: Key)
    requires |pub| == KEY_LEN
    ensures var ds := ToDigits(58, Value(256, MULTICODEC + pub));
            |ds| == 47 && ds[0] == 5 && ds[1] == 19 && ds[2] == 25
  {
    TaggedKeyTop(pub);
    PowersInDecimal();
    TopThreeDigits();
    var v := Value(256, MULTICODEC + pub);
    hide Value, Pow, ToDigits;
    TopDigits(58, v, 44);
    assert ToDigits(58, v)[..3] == [5, 19, 25];
  }

  /** ... and its encoding is those digits' letters, with nothing in front. */
  lemma TaggedKeyText(pub: Key)
    ensures Encoding(MULTICODEC + pub) == Letters(ToDigits(58, Value(256, MULTICODEC + pub)))
  {
    var input := MULTICODEC + pub;
    assert input[0] == 0xEC;
    assert LeadingCount(input, 0) == 0;
    hide Value, ToDigits, Letters;
  }

  lemma FirstLetters()
    ensures ALPHABET[5] == '6' && ALPHABET[19] == 'L' && ALPHABET[25] == 'S'
  {
    AlphabetByPlace();
    hide ALPHABET;
  }

  /** The DID of every 32-byte key has 56 characters and begins with "did:key:z6LS". */
  lemma DidShape(pub: Key)
    requires |pub| == KEY_LEN
    ensures FromX25519(pub).Ok?
    ensures |FromX25519(pub).value| == 56
    ensures "did:key:z6LS" <= FromX25519(pub).value
  {
    var ds := ToDigits(58, Value(256, MULTICODEC + pub));
    TaggedKeyDigits(pub);
    TaggedKeyText(pub);
    FirstLetters();
    assert |Letters(ds)| == 47 && Letters(ds)[0] == '6' && Letters(ds)[1] == 'L' && Letters(ds)[2] == 'S';
    hide ToDigits, Value, Encoding, Letters, ALPHABET;
    ShapeOfText(Letters(ds));
  }

  lemma ShapeOfText(letters: string)
    requires |letters| == 47 && letters[0] == '6' && letters[1] == 'L' && letters[2] == 'S'
    ensures |SCHEME + ("z" + letters)| == 56 && "did:key:z6LS" <= SCHEME + ("z" + letters)
  {
    var tail := "6LS";
    assert letters[..3] == tail;
    assert "z" + letters == "z" + tail + letters[3..];
    assert SCHEME + ("z" + letters) == "did:key:z6LS" + letters[3..] by {
      assert SCHEME + ("z" + tail) == "did:key:z6LS";
    }
  }

  datatype VerificationMethod = VerificationMethod(
    id: string, kind: string, controller: string, publicKeyMultibase: string)

  datatype Document = Document(
    context: seq<string>, id: string, verificationMethod: seq<VerificationMethod>, keyAgreement: seq<string>)

  function NewDocument(pub: Key): Result<Document, Error> {
    match FromX25519(pub)
    case Err(e) => Err(e)
    case Ok(id) =>
      var vmId := id + "#key-agreement-1";
      Ok(Document(["https://www.w3.org/ns/did/v1"], id,
                  [VerificationMethod(vmId, "X25519KeyAgreementKey2020", id, MultibaseKey(pub))],
                  [vmId]))
  }

  /** Everything after "did:key:", or all of a DID of another method. */
  lemma MethodIdIs(rest: string, did: string)
    ensures MethodID("did:key:" + rest) == rest
    ensures !("did:key:" <= did) ==> MethodID(did) == did
  {
    assert ("did:key:" + rest)[8..] == rest;
  }

  /** The document's only key entry is its own key-agreement method, and that entry alone
      is enough to recover the key that the document's DID commits to. */
  lemma DocumentCommitsToKey(pub: Key)
    requires NewDocument(pub).Ok?
    ensures var doc := NewDocument(pub).value;
            && Matches(doc.id, pub) && doc.context == ["https://www.w3.org/ns/did/v1"]
            && |doc.verificationMethod| == 1
            && doc.verificationMethod[0].id == doc.id + "#key-agreement-1"
            && doc.verificationMethod[0].kind == "X25519KeyAgreementKey2020"
            && doc.verificationMethod[0].controller == doc.id
            && doc.keyAgreement == [doc.verificationMethod[0].id]
            && doc.verificationMethod[0].publicKeyMultibase == MethodID(doc.id)
            && CommittedKey(SCHEME + doc.verificationMethod[0].publicKeyMultibase) == Some(pub)
  {
    var doc := NewDocument(pub).value;
    assert doc.id == SCHEME + MultibaseKey(pub);
    assert doc.id[|SCHEME|..] == MultibaseKey(pub);
    MatchesIffCommitted(doc.id, pub);
  }

  // ----- the anchor -----

  datatype Event = Registered(doc: Document) | Revoked(did: string)

  ghost predicate RegistersAt(h: seq<Event>, did: string, i: nat) {
    i < |h| && h[i].Registered? && h[i].doc.id == did
  }

  /** Some registration of did is followed by no revocation of it. */
  ghost predicate InForce(h: seq<Event>, did: string) {
    exists i: nat :: RegistersAt(h, did, i) && Revoked(did) !in h[i..]
  }

  ghost predicate EverRegistered(h: seq<Event>, did: string) {
    exists i: nat :: RegistersAt(h, did, i)
  }

  /** doc is the document of the last registration of did. */
  ghost predicate IsLatest(h: seq<Event>, did: string, doc: Document) {
    exists i: nat :: RegistersAt(h, did, i) && h[i].doc == doc && forall j: nat | i < j :: !RegistersAt(h, did, j)
  }

  lemma LatestUnique(h: seq<Event>, did: string, a: Document, b: Document)
    requires IsLatest(h, did, a) && IsLatest(h, did, b)
    ensures a == b
  {
    var i: nat :| RegistersAt(h, did, i) && h[i].doc == a && forall j: nat | i < j :: !RegistersAt(h, did, j);
    var k: nat :| RegistersAt(h, did, k) && h[k].doc == b && forall j: nat | k < j :: !RegistersAt(h, did, j);
    assert !(i < k) && !(k < i);
  }

  lemma LatestStep(h: seq<Event>, e: Event, did: string, doc: Document)
    ensures e.Registered? && e.doc.id == did ==> IsLatest(h + [e], did, e.doc)
    ensures !(e.Registered? && e.doc.id == did) && IsLatest(h, did, doc) ==> IsLatest(h + [e], did, doc)
  {
    var h' := h + [e];
    assert forall i: nat | i < |h| :: h'[i] == h[i];
    if e.Registered? && e.doc.id == did {
      assert RegistersAt(h', did, |h|);
    } else if IsLatest(h, did, doc) {
      var i: nat :| RegistersAt(h, did, i) && h[i].doc == doc && forall j: nat | i < j :: !RegistersAt(h, did, j);
      assert RegistersAt(h', did, i);
      forall j: nat | i < j ensures !RegistersAt(h', did, j) {
        assert !RegistersAt(h, did, j);
      }
    }
  }

  lemma InForceStep(h: seq<Event>, e: Event, did: string)
    ensures InForce(h + [e], did) <==>
            (if e == Revoked(did) then false
             else (e.Registered? && e.doc.id == did) || InForce(h, did))
    ensures EverRegistered(h + [e], did) <==> (e.Registered? && e.doc.id == did) || EverRegistered(h, did)
  {
    var h' := h + [e];
    forall i: nat | RegistersAt(h, did, i)
      ensures RegistersAt(h', did, i) && h'[i..] == h[i..] + [e]
    {
    }
    if e.Registered? && e.doc.id == did {
      assert RegistersAt(h', did, |h|) && h'[|h|..] == [e];
    }
    if e == Revoked(did) {
      forall i: nat | RegistersAt(h', did, i) ensures Revoked(did) in h'[i..] {
        assert h'[i..][|h| - i] == e;
      }
    }
    forall i: nat | RegistersAt(h', did, i) && i < |h| ensures RegistersAt(h, did, i) {
    }
  }

  class MemoryAnchor {
    var docs: map<string, Document>
    var revoked: map<string, bool>
    ghost var history: seq<Event>

    /** The two maps say of each DID what its history says. */
    ghost predicate Valid()
      reads this
    {
      forall did :: Agrees(did)
    }

    ghost predicate Agrees(did: string)
      reads this
    {
      && (did in docs <==> EverRegistered(history, did))
      && (did in docs ==> docs[did].id == did && IsLatest(history, did, docs[did]))
      && (did in docs ==> (InForce(history, did) <==> !IsRevoked(did)))
    }

    ghost predicate IsRevoked(did: string)
      reads this
    {
      did in revoked && revoked[did]
    }

    constructor ()
      ensures Valid() && history == []
    {
      docs, revoked, history := map[], map[], [];
    }

    method Register(doc: Document)
      requires Valid()
      modifies this
      ensures Valid() && history == old(history) + [Registered(doc)]
      ensures docs == old(docs)[doc.id := doc]
    {
      hide IsLatest;
      docs := docs[doc.id := doc];
      revoked := revoked - {doc.id};
      history := history + [Registered(doc)];
      forall did ensures Agrees(did) {
        assert old(Agrees(did));
        InForceStep(old(history), Registered(doc), did);
        LatestStep(old(history), Registered(doc), did, if did in old(docs) then old(docs)[did] else doc);
      }
    }

    method Revoke(did: string)
      requires Valid()
      modifies this
      ensures Valid() && history == old(history) + [Revoked(did)]
      ensures docs == old(docs)
    {
      hide IsLatest;
      revoked := revoked[did := true];
      history := history + [Revoked(did)];
      forall d ensures Agrees(d) {
        assert old(Agrees(d));
        InForceStep(old(history), Revoked(did), d);
        if d in docs {
          LatestStep(old(history), Revoked(did), d, docs[d]);
        }
      }
    }

    method Resolve(did: string) returns (r: Result<(Document, bool), Error>)
      requires Valid()
      ensures r.Ok? <==> EverRegistered(history, did)
      ensures r.Err? ==> r.error == NotRegistered
      ensures r.Ok? ==> r.value.0.id == did && IsLatest(history, did, r.value.0)
      ensures r.Ok? ==> (r.value.1 <==> !InForce(history, did))
    {
      assert Agrees(did);
      if did !in docs {
        return Err(NotRegistered);
      }
      return Ok((docs[did], did in revoked && revoked[did]));
    }
  }

  /** The key check comes before the registry lookup. Authorisation holds exactly when the
      presented key is the committed one and the last registration is still in force. */
  method Authorized(anchor: MemoryAnchor, did: string, presented: Key) returns (ok: bool, err: Option<Error>)
    requires anchor.Valid()
    ensures ok <==> CommittedKey(did) == Some(presented) && InForce(anchor.history, did)
    ensures err == if Matches(did, presented) && !EverRegistered(anchor.history, did)
                   then Some(NotRegistered) else None
  {
    MatchesIffCommitted(did, presented);
    if !Matches(did, presented) {
      return false, None;
    }
    var res := anchor.Resolve(did);
    if res.Err? {
      return false, Some(res.error);
    }
    return !res.value.1, None;
  }
}
