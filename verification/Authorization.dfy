/** The allow-list check that a responder makes on the initiator's static key. */
module Authorization {

  /** No list means that any authenticated peer is accepted. */
  ghost predicate IsAuthorized<K>(peer: K, allowed: seq<K>) {
    allowed == [] || peer in allowed
  }

  method Authorized<K(==)>(peer: K, allowed: seq<K>) returns (ok: bool)
    ensures ok <==> IsAuthorized(peer, allowed)
  {
    if |allowed| == 0 {
      return true;
    }
    for i := 0 to |allowed|
      invariant peer !in allowed[..i]
    {
      if allowed[i] == peer {
        return true;
      }
    }
    return false;
  }
}
