/** The handshake and the encrypted session over one connection, as sequential code. */
module Session {
  import opened Wrappers
  import opened Authorization
  import opened Noise
  import opened SecureChannel

  datatype Wire = First(m1: Message1) | Second(m2: Message2) | Data(c: Sealed) | Garbage

  /** One end of a message connection. Either call may fail at any time; refused and missed
      record the failures. */
  class Conn {
    var incoming: seq<Wire>
    var outgoing: seq<Wire>
    var closed: bool
    ghost var refused: seq<Wire>
    ghost var missed: nat

    constructor (incoming: seq<Wire>)
      ensures this.incoming == incoming && outgoing == [] && !closed && refused == [] && missed == 0
    {
      this.incoming, outgoing, closed, refused, missed := incoming, [], false, [], 0;
    }

    method WriteMsg(w: Wire) returns (ok: bool)
      modifies `outgoing, `refused
      ensures closed ==> !ok
      ensures outgoing == if ok then old(outgoing) + [w] else old(outgoing)
      ensures refused == if ok then old(refused) else old(refused) + [w]
    {
      ok := *;
      if closed {
        ok := false;
      }
      if ok {
        outgoing := outgoing + [w];
      } else {
        refused := refused + [w];
      }
    }

    method ReadMsg() returns (r: Option<Wire>)
      modifies `incoming, `missed
      ensures r.Some? ==> old(incoming) == [r.value] + incoming && missed == old(missed)
      ensures r.None? ==> incoming == old(incoming) && missed == old(missed) + 1
    {
      var ok: bool := *;
      if !ok || incoming == [] {
        missed := missed + 1;
        return None;
      }
      r := Some(incoming[0]);
      incoming := incoming[1..];
    }

    method Close()
      modifies `closed
      ensures closed
    {
      closed := true;
    }
  }

  datatype Config = Config(s: Public, initiator: bool, peerStatic: Option<Public>, authorized: seq<Public>)

  datatype Error = NoPeerStatic | Unauthorized(peer: Public) | ReadFailed | WriteFailed | BadMessage | NonceExhausted

  class Session {
    const conn: Conn
    const peerStatic: Public
    var send: CipherState
    var recv: CipherState

    constructor (conn: Conn, peerStatic: Public, send: CipherState, recv: CipherState)
      ensures this.conn == conn && this.peerStatic == peerStatic && this.send == send && this.recv == recv
    {
      this.conn, this.peerStatic, this.send, this.recv := conn, peerStatic, send, recv;
    }

    /** Encrypts and sends one message. The nonce is used up even if sending then fails. */
    method Write(p: seq<nat>) returns (err: Option<Error>)
      modifies `send, conn`outgoing, conn`refused
      ensures send == Encrypt(old(send), p).0
      ensures err == Some(NonceExhausted) <==> Encrypt(old(send), p).1.None?
      ensures conn.outgoing == if err.None? then old(conn.outgoing) + [Data(Encrypt(old(send), p).1.value)]
                               else old(conn.outgoing)
      ensures forall party :: old(Represents(this, conn, party)) ==> Represents(this, conn, AfterWrite(party, p).0)
      ensures conn.refused == if err.None? || Encrypt(old(send), p).1.None? then old(conn.refused)
                              else old(conn.refused) + [Data(Encrypt(old(send), p).1.value)]
    {
      var (cs, ct) := Encrypt(send, p);
      send := cs;
      if ct.None? {
        return Some(NonceExhausted);
      }
      var ok := conn.WriteMsg(Data(ct.value));
      return if ok then None else Some(WriteFailed);
    }

    /** Receives and opens one message; only one that opens advances the nonce, and one that
        does not is gone. */
    method Read() returns (r: Result<seq<nat>, Error>)
      modifies `recv, conn`incoming, conn`missed
      ensures r.Ok? || r == Err(ReadFailed) || r == Err(BadMessage)
      ensures r == Err(ReadFailed) <==> conn.missed == old(conn.missed) + 1
      ensures r == Err(ReadFailed) ==> conn.incoming == old(conn.incoming)
      ensures r != Err(ReadFailed) ==>
                && conn.missed == old(conn.missed)
                && old(conn.incoming) != [] && conn.incoming == old(conn.incoming)[1..]
                && Opens(old(recv), old(conn.incoming)[0]) == (if r.Ok? then Some((recv, r.value)) else None)
      ensures r.Err? ==> recv == old(recv)
      ensures forall party :: old(Represents(this, conn, party)) ==>
                if r == Err(ReadFailed) || !old(conn.incoming)[0].Data? then Represents(this, conn, party)
                else Represents(this, conn, AfterRead(party, old(conn.incoming)[0].c))
      ensures forall party :: old(Represents(this, conn, party)) && r.Ok? ==>
                AfterRead(party, old(conn.incoming)[0].c).got == party.got + [r.value]
    {
      var m := conn.ReadMsg();
      if m.None? {
        return Err(ReadFailed);
      }
      if !m.value.Data? {
        return Err(BadMessage);
      }
      var (cs, plain) := Decrypt(recv, m.value.c);
      recv := cs;
      return if plain.None? then Err(BadMessage) else Ok(plain.value);
    }
  }

  /** What a message opens to, and the state after it. */
  function Opens(cs: CipherState, w: Wire): Option<(CipherState, seq<nat>)> {
    if !w.Data? then None
    else
      var (cs', p) := Decrypt(cs, w.c);
      if p.None? then None else Some((cs', p.value))
  }

  /** What the initiator sends first, and what the responder answers to an accepted message. */
  function FirstMessage(cfg: Config, id: Id): Wire
    requires cfg.peerStatic.Some?
  {
    First(WriteMessage1(NewInitiator(cfg.s, cfg.peerStatic.value), Ephemeral(id)).1)
  }

  function Answer(cfg: Config, id: Id, w: Wire): Option<(Party, Wire)> {
    if !w.First? then None
    else
      match Responded(id, Responding(cfg.s, cfg.authorized), w.m1)
      case None => None
      case Some((p, m2)) => Some((p, Second(m2)))
  }

  /** Handshake, with the session's ephemeral key given by id. A session is handed out only in
      the states that the channel's protocol steps reach, an unauthorised peer is dropped before
      anything is sent to it, and every failure has the cause that its error names. */
  method Handshake(conn: Conn, cfg: Config, id: Id) returns (r: Result<Session, Error>)
    modifies conn
    // Errors.
    ensures r == Err(NoPeerStatic) <==> cfg.initiator && cfg.peerStatic.None?
    ensures r.Err? ==> r.error != NonceExhausted
    ensures conn.missed == old(conn.missed) + if r == Err(ReadFailed) then 1 else 0
    ensures r != Err(WriteFailed) ==> conn.refused == old(conn.refused)
    ensures r == Err(WriteFailed) && cfg.initiator ==>
              cfg.peerStatic.Some? && conn.refused == old(conn.refused) + [FirstMessage(cfg, id)]
    ensures r == Err(WriteFailed) && !cfg.initiator ==>
              && old(conn.incoming) != [] && Answer(cfg, id, old(conn.incoming)[0]).Some?
              && conn.refused == old(conn.refused) + [Answer(cfg, id, old(conn.incoming)[0]).value.1]
    ensures r == Err(BadMessage) ==> old(conn.incoming) != []
    ensures r == Err(BadMessage) && cfg.initiator ==>
              cfg.peerStatic.Some?
              && (old(conn.incoming)[0].Second? ==>
                    Finished(id, Initiating(cfg.s, cfg.peerStatic.value), old(conn.incoming)[0].m2).None?)
    ensures r == Err(BadMessage) && !cfg.initiator && old(conn.incoming)[0].First? ==>
              ReadMessage1(NewResponder(cfg.s), old(conn.incoming)[0].m1).None?
    ensures r.Err? && r.error.Unauthorized? ==>
              && !cfg.initiator && !IsAuthorized(r.error.peer, cfg.authorized) && conn.closed
              && old(conn.incoming) != [] && old(conn.incoming)[0].First?
              && var hs := ReadMessage1(NewResponder(cfg.s), old(conn.incoming)[0].m1);
                 hs.Some? && hs.value.rs == r.error.peer
    // Messages.
    ensures conn.incoming == old(conn.incoming)
            || (old(conn.incoming) != [] && conn.incoming == old(conn.incoming)[1..])
    ensures conn.incoming == old(conn.incoming) <==>
              r == Err(NoPeerStatic) || r == Err(ReadFailed) || (r == Err(WriteFailed) && cfg.initiator)
    ensures cfg.initiator ==>
              conn.outgoing == if r == Err(NoPeerStatic) || r == Err(WriteFailed) then old(conn.outgoing)
                               else old(conn.outgoing) + [FirstMessage(cfg, id)]
    ensures !cfg.initiator && r.Err? ==> conn.outgoing == old(conn.outgoing)
    // Sessions.
    ensures cfg.initiator && r.Ok? ==>
              && old(conn.incoming) != [] && old(conn.incoming)[0].Second?
              && var done := Finished(id, Initiating(cfg.s, cfg.peerStatic.value), old(conn.incoming)[0].m2);
                 done.Some? && Represents(r.value, conn, done.value)
    ensures !cfg.initiator && r.Ok? ==>
              && old(conn.incoming) != []
              && var done := Answer(cfg, id, old(conn.incoming)[0]);
                 && done.Some? && Represents(r.value, conn, done.value.0)
                 && IsAuthorized(r.value.peerStatic, cfg.authorized)
                 && conn.outgoing == old(conn.outgoing) + [done.value.1]
  {
    if cfg.initiator {
      if cfg.peerStatic.None? {
        return Err(NoPeerStatic);
      }
      var (hs, out) := WriteMessage1(NewInitiator(cfg.s, cfg.peerStatic.value), Ephemeral(id));
      var ok := conn.WriteMsg(First(out));
      if !ok {
        return Err(WriteFailed);
      }
      var m := conn.ReadMsg();
      if m.None? {
        return Err(ReadFailed);
      }
      if !m.value.Second? {
        return Err(BadMessage);
      }
      var done := ReadMessage2(hs, m.value.m2);
      if done.None? {
        return Err(BadMessage);
      }
      var (c0, c1) := SplitStates(done.value);
      var s := new Session(conn, done.value.rs, c0, c1);
      return Ok(s);
    }
    var m := conn.ReadMsg();
    if m.None? {
      return Err(ReadFailed);
    }
    if !m.value.First? {
      return Err(BadMessage);
    }
    var hs := ReadMessage1(NewResponder(cfg.s), m.value.m1);
    if hs.None? {
      return Err(BadMessage);
    }
    var allowed := Authorized(hs.value.rs, cfg.authorized);
    if !allowed {
      conn.Close();
      return Err(Unauthorized(hs.value.rs));
    }
    var (hs2, out) := WriteMessage2(hs.value, Ephemeral(id));
    var ok := conn.WriteMsg(Second(out));
    if !ok {
      return Err(WriteFailed);
    }
    var (c0, c1) := SplitStates(hs2);
    var s := new Session(conn, hs2.rs, c1, c0);
    return Ok(s);
  }

  /** A session object holds what a live party of the protocol holds. */
  ghost predicate Represents(s: Session, conn: Conn, p: Party)
    reads s
  {
    p.Live? && s.conn == conn && s.peerStatic == p.v.Peer() && s.send == p.send && s.recv == p.recv
  }
}
