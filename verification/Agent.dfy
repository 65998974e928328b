/** The agent process: its allow-list, and the two loops between the shell and the session. */
module Agent {
  import opened Wrappers
  import opened Authorization
  import opened Noise
  import opened Session
  import opened Base64
  import KeyFiles
  import C = SecureChannel

  // ----- The allow-list -----

  datatype ClientsFile = NotSet | Unreadable | Content(text: string)

  /** The keys that a clients file contributes: none if it cannot be read or has an error. */
  function FileKeys(file: ClientsFile): seq<KeyFiles.Key> {
    match file
    case Content(text) =>
      var (keys, err) := KeyFiles.Parsed(text, []);
      if err.None? then keys else []
    case _ => []
  }

  method Allowlist(staticAllowed: seq<KeyFiles.Key>, file: ClientsFile) returns (allowed: seq<KeyFiles.Key>)
    ensures allowed == staticAllowed + FileKeys(file)
  {
    allowed := staticAllowed;
    if file.Content? {
      var keys, err := KeyFiles.LoadAuthorizedKeys(file.text);
      if err.None? {
        allowed := allowed + keys;
      }
    }
  }

  /** Checking a peer against a well-formed clients file with at least one key is membership in
      the keys that were written to it. */
  lemma RenderedFileAuthorizes(entries: seq<KeyFiles.Entry>, peer: KeyFiles.Key)
    requires forall i :: 0 <= i < |entries| ==> KeyFiles.ValidEntry(entries[i])
    requires KeyFiles.FitsScanner(entries) && KeyFiles.KeysOf(entries) != []
    ensures IsAuthorized(peer, FileKeys(Content(KeyFiles.Render(entries)))) <==> peer in KeyFiles.KeysOf(entries)
  {
    KeyFiles.RenderedKeysParse(entries, []);
    assert [] + KeyFiles.KeysOf(entries) == KeyFiles.KeysOf(entries);
  }

  /** A clients file that lets nobody in by name: not set, not readable, with a line that is bad
      or too long for the scanner, or without a line that is a key. */
  ghost predicate ListsNobody(file: ClientsFile) {
    match file
    case Content(text) => !KeyFiles.AllSound(KeyFiles.Lines(text)) || KeyFiles.AllSkipped(KeyFiles.Lines(text))
    case _ => true
  }

  lemma FileKeysByLines(file: ClientsFile)
    ensures FileKeys(file) == [] <==> ListsNobody(file)
    ensures !ListsNobody(file) ==> FileKeys(file) == KeyFiles.LineKeys(KeyFiles.Lines(file.text))
  {
    if file.Content? {
      var lines := KeyFiles.Lines(file.text);
      hide KeyFiles.AllSound, KeyFiles.AllSkipped, KeyFiles.Lines, KeyFiles.Parsed, KeyFiles.LineKeys;
      KeyFiles.ParsedByLines(file.text, []);
      assert [] + KeyFiles.LineKeys(lines) == KeyFiles.LineKeys(lines);
      if KeyFiles.AllSound(lines) {
        KeyFiles.NoLineKeys(lines);
      }
    }
  }

  /** A configured clients file need not restrict anybody. Every authenticated peer is accepted
      exactly if no static key is set and the file is one of those that list nobody; otherwise
      exactly the static keys and the keys on the file's lines are, those of the file only if
      all of its lines are sound. */
  lemma AcceptsAnyoneIff(staticAllowed: seq<KeyFiles.Key>, file: ClientsFile)
    ensures (forall peer :: IsAuthorized(peer, staticAllowed + FileKeys(file)))
            <==> staticAllowed == [] && ListsNobody(file)
    ensures staticAllowed != [] || !ListsNobody(file) ==>
              forall peer :: IsAuthorized(peer, staticAllowed + FileKeys(file)) <==>
                peer in staticAllowed
                || (!ListsNobody(file) && peer in KeyFiles.LineKeys(KeyFiles.Lines(file.text)))
  {
    FileKeysByLines(file);
    hide ListsNobody, FileKeys;
    var all := staticAllowed + FileKeys(file);
    if all != [] {
      var k := KeyNotIn(all);
      assert !IsAuthorized(k, all);
    }
  }

  /** One bad line below a sound key line is enough to open the agent to every peer. */
  lemma BadLineAcceptsAnyone(key: KeyFiles.Key, peer: KeyFiles.Key)
    requires key != []
    ensures KeyFiles.ReadLine(KeyFiles.DropCR(Encode(key))) == KeyFiles.KeyLine(key)
    ensures IsAuthorized(peer, FileKeys(Content(Encode(key) + "\n" + "!\n")))
  {
    KeyFiles.SoundKeyLine(key);
    KeyFiles.LineThenBadLine(Encode(key));
    var file := Content(Encode(key) + "\n" + "!\n");
    assert "!" in KeyFiles.Lines(file.text);
    FileKeysByLines(file);
    hide KeyFiles.IsBad, KeyFiles.TooLong, KeyFiles.Lines, KeyFiles.ReadLine, FileKeys, Encode;
  }

  /** Some key is longer than every listed one. */
  lemma {:induction false} KeyNotIn(keys: seq<KeyFiles.Key>) returns (k: KeyFiles.Key)
    ensures k !in keys && forall i :: 0 <= i < |keys| ==> |keys[i]| < |k|
  {
    if keys == [] {
      k := [0];
    } else {
      var shorter := KeyNotIn(keys[1..]);
      k := shorter + keys[0] + [0];
      assert keys == [keys[0]] + keys[1..];
    }
  }

  // ----- The output pump -----

  const BUFFER_SIZE: nat := 32 * 1024

  /** A shell as a byte source and sink: output is what it has still to print. hangUps and failures
      count the reads that reported the end and the writes that failed. */
  class Shell {
    var output: seq<nat>
    var input: seq<nat>
    var closed: bool
    ghost var hangUps: nat
    ghost var failures: nat

    constructor (output: seq<nat>)
      ensures this.output == output && input == [] && !closed && hangUps == 0 && failures == 0
    {
      this.output, input, closed, hangUps, failures := output, [], false, 0, 0;
    }

    /** Fills a prefix of buf. It may return data together with the end of the output. */
    method Read(buf: array<nat>) returns (n: nat, ended: bool)
      modifies `output, `hangUps, buf
      ensures n <= buf.Length && old(output) == buf[..n] + output
      ensures !ended ==> n > 0
      ensures hangUps == old(hangUps) + if ended then 1 else 0
    {
      n :| 0 <= n <= buf.Length && n <= |output|;
      forall i | 0 <= i < n {
        buf[i] := output[i];
      }
      output := output[n..];
      ended := *;
      if n == 0 {
        ended := true;
      }
      hangUps := hangUps + if ended then 1 else 0;
    }

    /** Takes all of p, or fails after a part of it. */
    method Write(p: seq<nat>) returns (ok: bool)
      modifies `input, `failures
      ensures old(input) <= input <= old(input) + p
      ensures ok ==> input == old(input) + p
      ensures failures == old(failures) + if ok then 0 else 1
    {
      var n :| 0 <= n <= |p|;
      input := input + p[..n];
      ok := n == |p|;
      failures := failures + if ok then 0 else 1;
    }

    method Close()
      modifies `closed
      ensures closed
    {
      closed := true;
    }
  }

  /** The messages that leave when these plaintexts are sealed in turn. */
  ghost function Sealing(cs: CipherState, chunks: seq<seq<nat>>): (r: (CipherState, seq<Wire>)) {
    if chunks == [] then (cs, [])
    else
      var (cs1, sent) := Sealing(cs, chunks[..|chunks| - 1]);
      var (cs2, c) := Encrypt(cs1, chunks[|chunks| - 1]);
      (cs2, sent + if c.Some? then [Data(c.value)] else [])
  }

  lemma SealOne(cs: CipherState, chunks: seq<seq<nat>>, chunk: seq<nat>)
    ensures var (before, sent) := Sealing(cs, chunks);
            var (after, c) := Encrypt(before, chunk);
            Sealing(cs, chunks + [chunk]) == (after, sent + if c.Some? then [Data(c.value)] else [])
  {
    assert (chunks + [chunk])[..|chunks|] == chunks;
  }

  /** Every plaintext was sealed and sent, except that the last may have failed to leave. */
  ghost predicate Sent(cs: CipherState, chunks: seq<seq<nat>>, lastToo: bool, sent: seq<Wire>) {
    if lastToo then sent == Sealing(cs, chunks).1
    else chunks != [] && sent == Sealing(cs, chunks[..|chunks| - 1]).1
  }

  ghost predicate SentAfter(
    before: seq<Wire>, cs: CipherState, chunks: seq<seq<nat>>, lastToo: bool, outgoing: seq<Wire>) {
    before <= outgoing && Sent(cs, chunks, lastToo, outgoing[|before|..])
  }

  /** The last plaintext did not leave: no nonce was left for it, or the connection refused it. */
  ghost predicate LastRefused(cs: CipherState, chunks: seq<seq<nat>>, before: seq<Wire>, refused: seq<Wire>) {
    chunks != []
    && var c := Encrypt(Sealing(cs, chunks[..|chunks| - 1]).0, chunks[|chunks| - 1]).1;
       refused == if c.None? then before else before + [Data(c.value)]
  }

  ghost predicate ValidChunks(chunks: seq<seq<nat>>) {
    forall i :: 0 <= i < |chunks| ==> 0 < |chunks[i]| <= 32768
  }

  lemma NothingSent(start: CipherState, before: seq<Wire>)
    ensures C.Concat([]) == [] && ValidChunks([]) && Sealing(start, []).0 == start
    ensures SentAfter(before, start, [], true, before)
  {
  }

  lemma OneMoreChunk(output: seq<nat>, chunks: seq<seq<nat>>, p: seq<nat>, rest: seq<nat>)
    requires output == C.Concat(chunks) + (p + rest) && ValidChunks(chunks) && 0 < |p| <= BUFFER_SIZE
    ensures output == C.Concat(chunks + [p]) + rest && ValidChunks(chunks + [p])
  {
    assert (chunks + [p])[..|chunks|] == chunks;
  }

  /** One turn of the pump with data: the message is a copy, so the buffer may be reused. */
  method PumpChunk(
    sess: Session, p: seq<nat>, ghost start: CipherState, ghost before: seq<Wire>, ghost chunks: seq<seq<nat>>)
    returns (err: Option<Error>)
    requires sess.send == Sealing(start, chunks).0
    requires SentAfter(before, start, chunks, true, sess.conn.outgoing)
    modifies sess`send, sess.conn`outgoing, sess.conn`refused
    ensures sess.send == Sealing(start, chunks + [p]).0
    ensures SentAfter(before, start, chunks + [p], err.None?, sess.conn.outgoing)
    ensures err.None? ==> sess.conn.refused == old(sess.conn.refused)
    ensures err.Some? ==> LastRefused(start, chunks + [p], old(sess.conn.refused), sess.conn.refused)
  {
    SealOne(start, chunks, p);
    assert (chunks + [p])[..|chunks|] == chunks;
    assert sess.conn.outgoing == before + Sealing(start, chunks).1;
    hide Sealing, Encrypt;
    err := sess.Write(p);
  }

  datatype PumpEnd = OutputEnded | NotSent

  /** The goroutine that sends the shell's output, through one buffer that it reuses. The
      plaintexts given to the session are the output cut into chunks of at most 32 KiB, in order
      and without gaps. It stops only when the shell reports the end of its output, and then every
      chunk was sent, or when a chunk was not sent, and then every chunk but that last one was. */
  method PumpOutput(shell: Shell, sess: Session) returns (end: PumpEnd, ghost chunks: seq<seq<nat>>)
    modifies shell`output, shell`hangUps, sess`send, sess.conn`outgoing, sess.conn`refused, sess.conn`closed
    ensures old(shell.output) == C.Concat(chunks) + shell.output
    ensures ValidChunks(chunks)
    ensures sess.send == Sealing(old(sess.send), chunks).0
    ensures SentAfter(old(sess.conn.outgoing), old(sess.send), chunks, end.OutputEnded?, sess.conn.outgoing)
    ensures end.OutputEnded? ==> shell.hangUps == old(shell.hangUps) + 1 && sess.conn.refused == old(sess.conn.refused)
    ensures end.NotSent? ==> LastRefused(old(sess.send), chunks, old(sess.conn.refused), sess.conn.refused)
    ensures sess.conn.closed
  {
    var buf := new nat[BUFFER_SIZE];
    ghost var start, before, refused := sess.send, sess.conn.outgoing, sess.conn.refused;
    chunks := [];
    NothingSent(start, before);
    hide *;
    end := OutputEnded;
    while true
      invariant fresh(buf) && buf.Length == BUFFER_SIZE
      invariant old(shell.output) == C.Concat(chunks) + shell.output
      invariant ValidChunks(chunks)
      invariant sess.send == Sealing(start, chunks).0
      invariant SentAfter(before, start, chunks, true, sess.conn.outgoing) && end.OutputEnded?
      invariant sess.conn.refused == refused && shell.hangUps == old(shell.hangUps)
      decreases |shell.output|
    {
      var n, ended := shell.Read(buf);
      if n > 0 {
        OneMoreChunk(old(shell.output), chunks, buf[..n], shell.output);
        var err := PumpChunk(sess, buf[..n], start, before, chunks);
        chunks := chunks + [buf[..n]];
        if err.Some? {
          end := NotSent;
          break;
        }
      }
      if ended {
        break;
      }
    }
    sess.conn.Close();
  }

  // ----- The input loop -----

  /** The plaintexts of these messages, each of which opens in turn. */
  ghost function Opening(cs: CipherState, wires: seq<Wire>): Option<(CipherState, seq<seq<nat>>)> {
    if wires == [] then Some((cs, []))
    else
      match Opening(cs, wires[..|wires| - 1])
      case None => None
      case Some((cs1, got)) =>
        match Opens(cs1, wires[|wires| - 1])
        case None => None
        case Some((cs2, p)) => Some((cs2, got + [p]))
  }

  /** input grew by the concatenation of got, of which only the last may be incomplete. */
  ghost predicate Typed(before: seq<nat>, got: seq<seq<nat>>, lastToo: bool, input: seq<nat>) {
    if lastToo then input == before + C.Concat(got)
    else got != [] && before + C.Concat(got[..|got| - 1]) <= input <= before + C.Concat(got)
  }

  lemma NothingOpened(cs: CipherState, wires: seq<Wire>, input: seq<nat>)
    ensures Opening(cs, wires[..0]) == Some((cs, [])) && Typed(input, [], true, input)
  {
  }

  lemma OpenOne(
    cs: CipherState, wires: seq<Wire>, n: nat, got: seq<seq<nat>>, before: CipherState, after: CipherState, p: seq<nat>)
    requires n < |wires| && Opening(cs, wires[..n]) == Some((before, got))
    requires Opens(before, wires[n]) == Some((after, p))
    ensures Opening(cs, wires[..n + 1]) == Some((after, got + [p]))
  {
    assert wires[..n + 1][..n] == wires[..n];
  }

  lemma TypeOne(before: seq<nat>, got: seq<seq<nat>>, was: seq<nat>, p: seq<nat>, ok: bool, input: seq<nat>)
    requires Typed(before, got, true, was)
    requires was <= input <= was + p && (ok ==> input == was + p)
    ensures Typed(before, got + [p], ok, input)
  {
    ConcatAppend(got, p);
    hide C.Concat;
    assert before + (C.Concat(got) + p) == was + p;
  }

  lemma ConcatAppend(got: seq<seq<nat>>, p: seq<nat>)
    ensures C.Concat(got + [p]) == C.Concat(got) + p && (got + [p])[..|got|] == got
  {
    assert (got + [p])[..|got|] == got;
  }

  datatype InputEnd = Missing | DoesNotOpen | ShellFailed

  /** The loop that feeds the shell, up to the end of serve. It opens the first n messages, and
      stops only when the next one is missing or does not open, all n having been typed in full,
      or when the shell failed to take the last one. */
  method ServeInput(shell: Shell, sess: Session) returns (end: InputEnd, ghost n: nat, ghost got: seq<seq<nat>>)
    modifies shell`input, shell`failures, shell`closed
    modifies sess`recv, sess.conn`incoming, sess.conn`missed, sess.conn`closed
    ensures n <= |old(sess.conn.incoming)|
    ensures Opening(old(sess.recv), old(sess.conn.incoming)[..n]) == Some((sess.recv, got))
    ensures Typed(old(shell.input), got, !end.ShellFailed?, shell.input)
    ensures shell.failures == old(shell.failures) + if end.ShellFailed? then 1 else 0
    ensures sess.conn.missed == old(sess.conn.missed) + if end.Missing? then 1 else 0
    ensures end.DoesNotOpen? ==>
              n < |old(sess.conn.incoming)| && Opens(sess.recv, old(sess.conn.incoming)[n]).None?
    ensures sess.conn.incoming == old(sess.conn.incoming)[if end.DoesNotOpen? then n + 1 else n..]
    ensures shell.closed && sess.conn.closed
  {
    n, got := 0, [];
    ghost var recv, wires, before := sess.recv, sess.conn.incoming, shell.input;
    NothingOpened(recv, wires, before);
    hide Opening, Opens, Typed;
    end := Missing;
    while true
      invariant n <= |wires| && Opening(recv, wires[..n]) == Some((sess.recv, got))
      invariant sess.conn.incoming == wires[n..] && shell.failures == old(shell.failures)
      invariant sess.conn.missed == old(sess.conn.missed)
      invariant Typed(before, got, true, shell.input)
      decreases |wires| - n
    {
      ghost var cs, was := sess.recv, shell.input;
      var r := sess.Read();
      if r.Err? {
        end := if r.error.ReadFailed? then Missing else DoesNotOpen;
        break;
      }
      OpenOne(recv, wires, n, got, cs, sess.recv, r.value);
      var ok := true;
      if |r.value| > 0 {
        ok := shell.Write(r.value);
      }
      TypeOne(before, got, was, r.value, ok, shell.input);
      n, got := n + 1, got + [r.value];
      if !ok {
        end := ShellFailed;
        break;
      }
    }
    shell.Close();
    sess.conn.Close();
  }
}
