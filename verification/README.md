# netso: a verified model

netso connects a client to a peer through a hub. A peer's agent dials the hub and waits; a client
asks the hub for a peer by network and name; the hub takes the waiting connection out of its
registry, relays messages between the two and records the session in an audit log. Client and agent
run a Noise IK handshake through that relay, and the agent then serves a shell over the encrypted
session. A device's identity is a DID derived from its static key. In the browser the client is a Go
program hosted by a JavaScript shim. This project models these parts in Dafny and proves what they
keep in every run.

| file | models |
|---|---|
| `Hub.dfy` | `handleAgent` and `handleConnect` as interleaved program counters over registry, audit log and relays |
| `HubRuns.dfy` | which peer a client reaches, what becomes of it, and the audit history, over whole runs of the hub |
| `Relay.dfy` | `relay` and its two `copyMsgs` goroutines, interleaved |
| `Registry.dfy`, `Audit.dfy` | the mutable registry and the bounded session log |
| `Did.dfy`, `Base58.dfy`, `Positional.dfy` | device identities, base58btc, and the positional arithmetic under it |
| `Noise.dfy`, `SecureChannel.dfy` | an ideal Noise IK and all sessions over an adversarial network |
| `Session.dfy`, `Authorization.dfy` | `Handshake`, `Session.Write`, `Session.Read` and the allow-list check as sequential code |
| `KeyFiles.dfy`, `Base64.dfy` | identity file, authorised-clients file and their base64 |
| `Transport.dfy` | the in-memory pipe |
| `Exchange.dfy` | that handshakes complete and everything written can be read |
| `EndToEnd.dfy` | one end's plaintexts through the relay to the other end's reads |
| `Agent.dfy`, `AgentLife.dfy` | the agent's allow-list and shell loops; its connections and shells across reconnects |
| `ReferenceTable.dfy`, `GoShim.dfy`, `LinearMemory.dfy` | the shim's reference table, boxed references and 64-bit integers |
| `TextEncoding.dfy` | UTF-8 as a TextEncoder produces it, and as a reader understands it |
| `ProcessArgs.dfy` | the argv/environment layout in linear memory |
| `Ordering.dfy`, `Wrappers.dfy` | sorting and `Option`/`Result` |

The atomic steps of `Hub` are the registry and log operations, each of which holds its mutex in the
source. `Hub.State.reg` is the flat view that the contracts of `Registry.Add`, `Take` and `Remove`
are stated on; `Hub.State.history` is the full history that the contracts of the `Audit.Log` methods
are stated on. Likewise `Session.Handshake`, `Write` and `Read` are stated with the functions that
drive the protocol steps of `SecureChannel`.

## Assumptions

- Connections passed to `Add` are fresh and non-nil; `Log.now` is never the zero time; `End` only
  receives sessions that its own log started; `Recent` takes n >= 0.
- Symbolic cryptography, after the Noise Protocol Framework revision 34: a ciphertext opens only
  under its own key, nonce and associated data (section 5.1), different key terms are different
  keys, and an outsider knows a handshake key only if it can compute every Diffie-Hellman result
  mixed into it (pattern IK, section 7.5). Outsiders hold every private key except those of honest
  long-lived keys and of sessions; honest long-lived keys do not leak.
- A reference-table id fits in 32 bits where a loaded reference is concerned.

## What the model shows about the code

- `setInt64` truncates the low word but floors the high word. The two disagree on a negative
  fraction just below a multiple of 2^32, so there `getInt64` is not the integer part; `walltime`
  passes such numbers in the last second before 1970 (`LinearMemory.LastSecondBeforeEpoch`,
  `HalfSecondBeforeEpoch`).
  `LinearMemory.Int64RoundTrip` gives the exact condition. Every integer in the signed 64-bit range
  is unaffected.
- An argument or environment string that contains a NUL is cut short in the layout; every other one
  reads back exactly (`ProcessArgs.ArgumentReadsIff`, `ProcessArgs.EnvironmentReadsIff`).
- An identity file written for a key pair reads back exactly if both keys are non-empty.
- A configured authorised-clients file need not restrict anybody. On any error in the file the agent
  uses none of its keys, and one line that is no key, or one of 65536 bytes or more, is an error.
  Without a static key the agent then accepts every authenticated peer, as it does with a file that
  cannot be read or has only blank lines and comments, although the code warns about that only when
  no list is configured at all. `Agent.AcceptsAnyoneIff` gives the exact condition on the file's
  text, and `Agent.BadLineAcceptsAnyone` a file with a good key that opens the agent to everyone.
- The in-memory pipe panics exactly if both of its ends are closed, since the channel is shared and
  the guard is not.

## Model

| member | source | states |
|---|---|---|
| Hub.StepInv | cmd/netso-hub/main.go:29-119 | Every interleaved step of the handlers and their copiers keeps ownership, closing, relay and audit consistency together. |
| Hub.RunInv | cmd/netso-hub/main.go:29-119 | The invariant holds in every state of every run. |
| Hub.ExactlyOnePlace | cmd/netso-hub/main.go:29-86 | In every reachable state an upgraded connection is closed or in one place, and never in two: awaiting Add, registered under one key, displaced, or held by one handleConnect. |
| Hub.HoldersDisjoint | cmd/netso-hub/main.go:63-86 | No two live handleConnect handlers share a client or an agent connection, and none uses one connection for both ends. |
| Hub.DisplacedIsIdle | cmd/netso-hub/main.go:41-45 | The connection that handleAgent is about to close is still open, not registered and not held by any handler, so it is never one that is being relayed. |
| Hub.PlaceMovesForward | internal/registry/registry.go:67-85 | A connection once taken or displaced is never registered again and never changes hands, and closing is final. |
| Hub.NothingLeaked | cmd/netso-hub/main.go:29-86 | When every handler has finished, each connection is closed or still registered, and the live count is zero. |
| Hub.ActiveCountsHandlers | cmd/netso-hub/main.go:82-84 | In every reachable state the live count is the number of handlers between Start and End and the number of open sessions in the full history; every End lowers it by exactly one. |
| Hub.SessionsRecorded | cmd/netso-hub/main.go:74-85 | In every reachable state each handler between Start and End owns an open audit entry, shared with no other handler, that names the network and peer it was asked for. |
| Hub.RoutedByName | cmd/netso-hub/main.go:40-83 | In every reachable state the agent connection that a handler holds was upgraded, earlier in the run, by an agent request that named the very network and peer the client asked for; every registration carries the peer record, public key included, of its own request. |
| HubRuns.RegisteredIff | cmd/netso-hub/main.go:40-45 | In every reachable state the registry holds under each key exactly the agent that was put there last, with its peer record, unless it was taken since. |
| HubRuns.TakeReachesPeer | cmd/netso-hub/main.go:74-80 | A client that asks for a peer gets the agent that stands there, which is then no longer registered; it misses exactly if every agent ever put there has been displaced or taken. |
| HubRuns.FreshPairMeets | cmd/netso-hub/main.go:29-80 | In any reachable state an agent can register under any name, and a client that then asks for that name gets that agent. |
| HubRuns.WorksForItsClient | cmd/netso-hub/main.go:63-73 | In every reachable state a handler works for the network, the name and the client connection of its own request. |
| HubRuns.RelaysRun | cmd/netso-hub/main.go:83 | In every reachable state each relay is in a state that its own steps lead to from its start, so what is proved of relay runs holds of it. |
| HubRuns.EndsAfterRelay | cmd/netso-hub/main.go:82-84 | A session is ended only after its relay ran from its start to its return. |
| HubRuns.HandlerGoesOn | cmd/netso-hub/main.go:63-86 | No connect handler is ever stuck outside its relay; it goes on one stage at a time and keeps both its connections until the relay has returned. |
| HubRuns.AgentGoesOn | cmd/netso-hub/main.go:41-45 | Nor is an agent request; it closes exactly the connection that its registration displaced. |
| HubRuns.RunNamed | cmd/netso-hub/main.go:32-35 | No request without a network and a name gets as far as the registry. |
| HubRuns.AuditTrail | internal/audit/audit.go:59-84 | In every reachable state the full history has one entry for every session that a handler has started, in that order, with the network and peer asked for, the time of its start, and the time at which its own handler ended it, if it did. |
| Hub.AuditEnd | internal/audit/audit.go:78-83 | When a handler ends its session the count is positive, so the guard never suppresses a decrement. |
| Relay.StepInv | cmd/netso-hub/main.go:98-119 | Every step keeps forwarding order in both directions, the token count of the done channel, and who has closed what. |
| Relay.RelayForwards | cmd/netso-hub/main.go:108-119 | Each side is sent a prefix of what the other sent, and at most one message that was read in a direction was not passed on. |
| Relay.RunFlows | cmd/netso-hub/main.go:108-117 | As long as no read or write fails, both copiers go on, nobody closes and nothing is closed. |
| Relay.EverythingForwarded | cmd/netso-hub/main.go:108-117 | In such a run, when a copier has nothing left to read or write, everything that arrived on its side has been passed on. |
| Relay.PassesOn | cmd/netso-hub/main.go:110-116 | Any message that arrives while its copier waits is read and written to the other side, after which the copier waits again. |
| Relay.SignalNeverBlocks | cmd/netso-hub/main.go:99-118 | A copier that reports on done never finds the channel full. |
| Relay.ReturnedIsClean | cmd/netso-hub/main.go:102-106 | When relay returns, both copiers have exited, both connections are closed and no token is left. |
| Relay.CloseEffect | cmd/netso-hub/main.go:103-104 | A step closes at most the connection whose turn it is, first a and then b, and no step reopens one. |
| Relay.StepMeasure | cmd/netso-hub/main.go:98-119 | Every step of the hub decreases one measure; only an arriving message raises it. |
| Relay.RunBounded | cmd/netso-hub/main.go:98-119 | The number of steps of any run is bounded by its start and the messages that arrive. |
| Relay.NeverStuck | cmd/netso-hub/main.go:102-106 | Once a copier has stopped, some step that needs neither peer is enabled until relay returns. |
| Relay.ShutdownBounded | cmd/netso-hub/main.go:103-106 | With both connections closed every run is short, and a run that cannot go on has returned. |
| Relay.StoppingBounded | cmd/netso-hub/main.go:102-119 | From the first copier's stop, the steps to the return are bounded by the messages that still arrive; a run with no step left that needs neither peer has returned, with both copiers exited and both connections closed. |
| Registry.FlatDetermines | internal/registry/registry.go:26-28 | A nested map without empty inner maps, whose records carry their own keys, stores nothing beyond its flat view by (network, name). |
| Registry.ListingUnique | internal/registry/registry.go:99-109 | The answer of List is one sequence only, whatever the map iteration order and the unstable sort. |
| Registry.ListedByName | internal/registry/registry.go:107 | Of two listed peers the first has the smaller name at the first difference. |
| Registry.ListingLength | internal/registry/registry.go:93-95 | The size of an inner map is the length of the listing of that network, and it is positive. |
| Registry.Registry.Add | internal/registry/registry.go:37-48 | Puts exactly one entry, leaves all others, and returns the connection it displaced, if any. |
| Registry.Registry.Remove | internal/registry/registry.go:52-65 | Deletes the entry only if its connection is the given one; no other entry changes, and no empty network remains. |
| Registry.Registry.Take | internal/registry/registry.go:69-85 | Removes and returns exactly the entry asked for, or nothing; no empty network remains. |
| Registry.Registry.Networks | internal/registry/registry.go:89-97 | Lists exactly the networks that have a peer, each with the length of its listing. |
| Registry.Registry.List | internal/registry/registry.go:100-109 | Returns exactly the peers of the network, strictly increasing by name; none for an unknown network. |
| Audit.StartCounts | internal/audit/audit.go:59-69 | Starting a session adds one open session to the full history. |
| Audit.EndCounts | internal/audit/audit.go:72-84 | Ending an open session removes one from a positive count; ending it again changes nothing. |
| Audit.Log.Start | internal/audit/audit.go:59-69 | Appends a fresh open session to the full history; the entries kept are the last max of it and the count rises by one. |
| Audit.Log.End | internal/audit/audit.go:72-84 | Stamps an open session with the current time once, wherever it is, also after its eviction; nil and a repeated End change nothing. |
| Audit.Log.Active | internal/audit/audit.go:87-91 | The count is the number of open sessions in the full history, evicted ones included. |
| Audit.Log.Recent | internal/audit/audit.go:94-105 | Copies of the last min(n, max, total) sessions of the full history, newest first, with their current end stamps. |
| Audit.ReplayInTimeOrder | internal/audit/audit.go:59-84 | After any sequence of Start and End under a monotone clock, start times never decrease and no end precedes its start. |
| Audit.NewestInTimeOrder | internal/audit/audit.go:94-105 | So what Recent answers is non-increasing in start time. |
| Base58.AlphabetIncreasing | internal/did/did.go:28 | The alphabet has 58 letters, strictly increasing, so no two digits share one. |
| Base58.LettersAre | internal/did/did.go:28 | The letters are exactly 1 to 9, A to Z but I and O, and a to z but l. |
| Base58.AlphabetByPlace | internal/did/did.go:28 | Which letter stands for each of the 58 digits. |
| Base58.DecodeOfEncoding | internal/did/did.go:158-178 | A decoder after section 4 of draft-msporny-base58 recovers every byte string, leading zero bytes included. |
| Base58.EncodingOfDecode | internal/did/did.go:158-178 | Every text over the alphabet is the encoding of what it decodes to, so the encoding is onto those texts. |
| Base58.EncodingInjective | internal/did/did.go:158-178 | Two byte strings have the same encoding exactly if they are equal. |
| Base58.Reversed | internal/did/did.go:174-176 | The swap loop reverses its buffer. |
| Base58.Encode | internal/did/did.go:158-178 | The zero count, the DivMod loop and the reversal compute the encoding, and decoding the result gives the input. |
| Did.MatchesIffCommitted | internal/did/did.go:45-50 | A DID matches exactly the key that can be read back from its text: no other key and no other text. |
| Did.MatchesOneKey | internal/did/did.go:45-50 | At most one key matches a given DID. |
| Did.FromX25519Injective | internal/did/did.go:38-43 | Different 32-byte keys have different DIDs. |
| Did.TaggedKeyTop | internal/did/did.go:23-34 | Every tagged 32-byte key, as a number, divided by 58^44 is 17947. |
| Did.DidShape | internal/did/did.go:38-43 | The DID of every 32-byte key has 56 characters and begins with did:key:z6LS. |
| Did.DocumentCommitsToKey | internal/did/did.go:71-88 | The document's id matches the key; its one verification method, of the stated type, is controlled by the DID, used for key agreement, and has the DID's method id as its multibase value, which commits to the key. |
| Did.MethodIdIs | internal/did/did.go:180-181 | The method id is what follows did:key:, or all of a DID of another method. |
| Did.InForceStep | internal/did/did.go:119-131 | How each event changes "some registration is followed by no revocation" and "ever registered", for every DID. |
| Did.LatestUnique | internal/did/did.go:119-124 | The document of the last registration of a DID is determined by the history. |
| Did.LatestStep | internal/did/did.go:119-131 | A registration makes its document the latest for its DID; no other event changes the latest document. |
| Did.MemoryAnchor.Register | internal/did/did.go:119-124 | Records the registration; the two maps still say of every DID what the history says. |
| Did.MemoryAnchor.Revoke | internal/did/did.go:127-131 | Records the revocation, also of an unknown DID; the two maps still say of every DID what the history says. |
| Did.MemoryAnchor.Resolve | internal/did/did.go:134-142 | Fails exactly for a DID never registered; otherwise returns the document of its last registration, revoked exactly if no registration is still in force. |
| Did.Authorized | internal/did/did.go:147-156 | Succeeds exactly if the presented key is the one the DID commits to and no revocation followed its last registration; a key mismatch is reported before the lookup. |
| Noise.Message1Read | internal/secure/secure.go:218-226 | A responder accepts a first message only if it is the one that the owner of the recovered static key writes to it. |
| Noise.Message1Accepted | internal/secure/secure.go:203-222 | The first message of an initiator is accepted by the responder it pinned, which recovers the initiator's key. |
| Noise.Message2Read | internal/secure/secure.go:210-216 | An initiator completes exactly on a second message sealed under the key and transcript of its own handshake. |
| Noise.NonceUse | internal/secure/secure.go:255-270 | There are 2^64 - 1 nonces from 0 on; each seals one message, which opens at the same nonce, and then sealing fails. |
| SecureChannel.StepInv | internal/secure/secure.go:181-270 | Every step of any number of sessions, and of a network that drops, repeats, reorders, alters and forges, keeps authenticity, agreement and stream order. |
| SecureChannel.HandshakeCompletes | internal/secure/secure.go:181-252 | For all keys and allow-lists: a handshake between two ends completes exactly if the responder authorises the initiator's key; the send and receive states then cross and each end knows the other's key. |
| Exchange.ExchangeSucceeds | internal/secure/secure.go:181-270 | In every reachable state of the channel, whatever the network has done: two new sessions of honest keys, the responder authorising the initiator, can complete their handshake, name each other and exchange any messages in both directions, all read in order. |
| Exchange.DeliverAll | internal/secure/secure.go:255-270 | From any state in which what one session sends next the other opens next, any messages can be sent and read in order. |
| SecureChannel.NetworkIsHostile | internal/secure/secure.go:4-5 | The network can deliver any ciphertext it has ever seen to any party at any time, and outsiders can add whatever they can seal. |
| SecureChannel.OutsidersKnowTheirOwn | internal/secure/secure.go:4-5 | Outsiders know every key of a handshake in which one side is theirs. |
| SecureChannel.InitiatorAgreement | internal/secure/secure.go:225-229 | In every run an initiator with an honest responder's key has a session only if a session of that responder had passed the authorised check on its key; their keys cross. |
| SecureChannel.SecondMessageIsHonest | internal/secure/secure.go:210-216 | A second message that completes a handshake with an honest responder was written by that responder in a session with the same four keys. |
| SecureChannel.InitiatorReadsHonest | internal/secure/secure.go:264-270 | Any ciphertext under an initiator's receive key was sealed by the session that answered it. |
| SecureChannel.ResponderReadsHonest | internal/secure/secure.go:264-270 | Any ciphertext under a responder's receive key, its peer being honest, was sealed by the session that completed the handshake with it. |
| SecureChannel.StreamIsPrefix | internal/secure/secure.go:255-270 | In every run what a session has read from an honest peer, as messages and as bytes, is a prefix of what one session of that peer was given to write, also when writes used up a nonce and then failed. |
| SecureChannel.OutsidersCannotRead | internal/secure/secure.go:4-5 | In every run nobody outside, the hub included, knows either key of a session with an honest peer, nor the keys that hide the initiator's identity. |
| SecureChannel.EndsNameEachOther | internal/secure/secure.go:244-251 | The two streams of a connection join the same pair of sessions. |
| Session.Handshake | internal/secure/secure.go:181-252 | Returns a session only in the states of the protocol steps, and fails only for the reason that its error names: no pinned key, a failed read, a refused write, a first message that does not open, or the unauthorised key in it. The initiator sends its first message whatever follows; an unauthorised peer is refused, the connection closed and nothing sent to it. Exactly one message is taken, unless the failure came before. |
| Session.Session.Write | internal/secure/secure.go:255-261 | Advances the send nonce and sends the ciphertext; on a failed send the nonce stays used and the connection has refused that ciphertext; after the last nonce it fails for good. The session represents the party after the write step of the protocol. |
| Session.Session.Read | internal/secure/secure.go:264-270 | Takes the next message and returns its plaintext, advancing the nonce, or refuses it, exactly if it does not open, and leaves the receive state alone; or finds no message and changes nothing. The session represents the party after the read step of the protocol. |
| Authorization.Authorized | internal/secure/secure.go:275-285 | True exactly if the list is empty or contains the peer's key. |
| Base64.DecodeOfEncode | internal/secure/secure.go:69-72 | Decoding inverts encoding on every byte string, padding included. |
| Base64.EncodeChars | internal/secure/secure.go:69 | Encoded text consists of the 64 letters and padding signs only. |
| Base64.DecodesIff | internal/secure/secure.go:72 | Text decodes exactly if, without its line breaks, it is groups of four symbols, the last with at most two padding signs. |
| Base64.LineBreaksDropped | internal/secure/secure.go:72 | Line feeds and carriage returns are ignored wherever they stand. |
| KeyFiles.IdentityRoundTrip | internal/secure/secure.go:81-104 | The identity text of a key pair parses back to it if both keys are non-empty, and is malformed otherwise. |
| KeyFiles.IdentityErrors | internal/secure/secure.go:81-90 | A file with fewer than two fields is malformed; one whose first two fields are not both base64 is an error of its own; otherwise they are the private and the public key. |
| KeyFiles.LoadAuthorizedKeys | internal/secure/secure.go:125-146 | The scanning loop computes the recursive parse of the file, over-long lines and bad keys included. |
| KeyFiles.ParsedByLines | internal/secure/secure.go:133-145 | A file reads without an error exactly if no line is over-long or a bad key, and then gives the keys on its lines in order. |
| KeyFiles.NoLineKeys | internal/secure/secure.go:136-138 | Sound lines give no key exactly if every one is blank or a comment. |
| KeyFiles.ReadEntry | internal/secure/secure.go:135-143 | A line with a labelled key reads as that key; comments and blank lines, with or without a carriage return, are skipped. |
| KeyFiles.LabelledKey | internal/secure/secure.go:135-143 | A key before a blank or a tab and any label reads as that key. |
| KeyFiles.SpacesAre | internal/secure/secure.go:135 | The white space that separates: the blank, five controls and the spaces of Unicode. |
| KeyFiles.AsciiTooLong | internal/secure/secure.go:133-145 | A line of ASCII is over-long from 65536 characters on. |
| KeyFiles.Utf8LengthIs | internal/secure/secure.go:133-145 | Otherwise its length counts the bytes of its UTF-8 encoding. |
| KeyFiles.RenderedKeysParse | internal/secure/secure.go:121-146 | Any rendering of non-empty keys with labels, comments and blank lines parses to the same keys in order, without an error exactly if every line fits the scanner's buffer. |
| Transport.DeliveredInOrder | internal/transport/transport.go:31-58 | In every run each end has received a prefix of exactly the messages that the other end's successful writes carried, at most 16 behind, and all of them if it can read no more. |
| Transport.CallsBlock | internal/transport/transport.go:43-57 | A write blocks exactly if 16 messages wait in an open pipe, a read exactly if none does; closing never blocks. |
| Transport.PanicsIffBothClose | internal/transport/transport.go:60-63 | A run panics exactly if both ends call Close, and then once, however often they call it. |
| Transport.PipeConn.WriteMsg | internal/transport/transport.go:40-49 | Queues a fresh copy at the end, or fails only on a closed pipe, or blocks exactly if the queue is full and the pipe open. |
| Transport.PipeConn.ReadMsg | internal/transport/transport.go:51-58 | Takes the oldest message, or fails only on a closed pipe, or blocks exactly if there is none and the pipe is open. |
| Transport.PipeConn.Close | internal/transport/transport.go:60-63 | Closes the shared channel the first time; panics exactly if this end had not closed yet and the other had. |
| Transport.Pipe | internal/transport/transport.go:31-38 | The two ends share two empty queues crosswise and one open channel. |
| Transport.ReuseAfterSend | internal/transport/transport_test.go:32-46 | Overwriting the buffer after a send changes no queued message, whatever the queue holds: the sent message is queued as it was and read in its turn. |
| Agent.Allowlist | cmd/netso-agent/main.go:54-64 | The static keys followed by the keys of the clients file, which contributes none if it cannot be read or has an error. |
| Agent.RenderedFileAuthorizes | internal/secure/secure.go:275-285 | Checking a peer against a rendered, non-empty clients file is membership in the keys written to it. |
| Agent.AcceptsAnyoneIff | cmd/netso-agent/main.go:51-64 | Every authenticated peer is accepted exactly if no static key is set and the file is not set, cannot be read, has a bad or over-long line, or has only blank lines and comments; otherwise exactly the static keys and the keys on the lines of a sound file are. |
| Agent.FileKeysByLines | cmd/netso-agent/main.go:56-62 | The file contributes no key exactly in those cases, and otherwise the keys of its lines in order. |
| Agent.BadLineAcceptsAnyone | cmd/netso-agent/main.go:57-58 | The file with any one good key line followed by the line "!" accepts every peer. |
| Agent.PumpOutput | cmd/netso-agent/main.go:101-115 | The plaintexts given to the session are the shell's output cut into chunks of at most 32 KiB, in order and without gaps, through one reused buffer. It stops only when the shell reports its end, every chunk then being sent, or when the last chunk found no nonce or was refused by the connection, all before it being sent; the connection is closed at the end. |
| Agent.ServeInput | cmd/netso-agent/main.go:116-128 | The shell is given the plaintexts of the first n messages, in order. It stops only when the next message is missing or does not open, all n then being typed in full, or when the shell fails on the last one; shell and connection are closed at the end. |
| EndToEnd.OpeningOfSealing | internal/secure/secure.go:255-270 | Whatever one end seals opens at the other end, in order and in full, as long as nonces last. |
| EndToEnd.RelayedIsRead | cmd/netso-hub/main.go:98-119 | In every run of the relay, what it has written to the receiver opens to the first of the plaintexts that the sender sealed; of what the hub has read at most one message is not passed on. |
| EndToEnd.EverythingIsRead | cmd/netso-hub/main.go:98-119 | As long as no read or write of the relay fails: once the hub has received everything and its copier has nothing left to do, the receiver can read every plaintext. |
| EndToEnd.ReadInOrder | cmd/netso-agent/main.go:116-126 | A receiver that has opened n messages of such a stream has the first n plaintexts, and the next message opens to the next one. |
| EndToEnd.StreamIsRead | cmd/netso-hub/main.go:98-119 | A receiver behind any run of the relay that has opened n messages has read the first n plaintexts of the sender, and the next message opens. |
| EndToEnd.ShellOutputIsRead | cmd/netso-agent/main.go:101-126 | From the agent's pump through any run of the relay to the client's reads: the bytes read are a prefix of the shell's output, chunk by chunk, and no message is refused. |
| EndToEnd.ClientInputIsTyped | cmd/netso-agent/main.go:116-126 | From the client's writes through any run of the relay to the agent's shell: what is typed is a prefix of the client's plaintexts, and no message is refused. |
| EndToEnd.OutputThroughAnyNetwork | cmd/netso-agent/main.go:101-115 | Against every network: what a session reads from a peer that pumps a shell's output is a prefix of that output, however it was chunked. |
| EndToEnd.InputThroughAnyNetwork | cmd/netso-agent/main.go:116-126 | Against every network: what an agent types into the shell is a prefix of what its honest peer was given to write. |
| AgentLife.StepInv | cmd/netso-agent/main.go:70-130 | Every step of the loop, of serve and of any leftover pump keeps: only the current connection and its shell can be open. |
| AgentLife.AtMostOneOpen | cmd/netso-agent/main.go:70-130 | At every moment of every run at most one connection and one shell are open, and none while the agent dials, sleeps or has exited. |
| AgentLife.ServesUntilFailure | cmd/netso-agent/main.go:81-126 | Once it has dialled the agent stays with that connection until a call of serve fails, keeps it open unless its pump closes it, and serves its shell from the start of the shell on. |
| AgentLife.GoesOn | cmd/netso-agent/main.go:81-126 | The agent is never stuck; unless a call fails it goes from the dial to the handshake, to the shell, and then reads and writes by turns. |
| AgentLife.FailureLeadsBack | cmd/netso-agent/main.go:70-79 | After a failure each of its own steps brings the agent closer to dialling again, or to its exit if it serves once only. |
| AgentLife.PumpGoesOn | cmd/netso-agent/main.go:101-115 | A pump reads and writes by turns as long as its shell and its connection are open; it stops only on a failure, and then closes its own connection. |
| AgentLife.PastPumpStep | cmd/netso-agent/main.go:101-115 | A pump that outlived its session changes nothing but itself. |
| AgentLife.LeftoverPumpEnds | cmd/netso-agent/main.go:101-129 | A connection that serve has left stays closed for good, and its pump takes at most two more steps. |
| AgentLife.ServesOneClient | internal/registry/registry.go:67-85 | Across hub and agent, at most one handler of the hub has a client for the agent's open connections. |
| LinearMemory.GetPut | web/wasm_exec.js:119-132 | A little-endian word reads back and no other byte changes. |
| LinearMemory.Int64RoundTrip | web/wasm_exec.js:119-132 | For every finite number: getInt64 after setInt64 is its integer part exactly on the signed 64-bit range minus the unevenly split fractions, quotients that underflow to zero included. |
| LinearMemory.UnderflowsIff | web/wasm_exec.js:121 | The quotient counts as underflowing exactly where it is at most half of 2^-1074, the least positive binary64 number. |
| LinearMemory.LastSecondBeforeEpoch | web/wasm_exec.js:271-277 | Every number that walltime passes in the last second before 1970 reads back as -2^32 instead of 0. |
| LinearMemory.HalfSecondBeforeEpoch | web/wasm_exec.js:271-277 | In particular -0.5, half a second before 1970. |
| LinearMemory.Int64RoundTripInteger | web/wasm_exec.js:119-132 | An integer survives setInt64 and getInt64 exactly if it is in the signed 64-bit range, negatives included. |
| ReferenceTable.StepInv | web/wasm_exec.js:165-175 | Every store and every finalize of a held or fixed id keeps: the two maps inverse on live ids, the pool duplicate-free and exactly the dead ids, dead slots null, fixed slots untouched, each count equal to stores minus finalizes since allocation. |
| ReferenceTable.RunInv | web/wasm_exec.js:485-503 | The table that run sets up satisfies the invariant, and so does every state of every run. |
| ReferenceTable.StepGrowth | web/wasm_exec.js:165-174 | The table grows by at most one id, and only when every dynamic id is live. |
| ReferenceTable.StoreCounts | web/wasm_exec.js:165-175 | A store starts the count of a new value at one or adds one to that of a known value, and touches no other id. |
| ReferenceTable.ReleaseCounts | web/wasm_exec.js:313-323 | A held reference can always be given back, which takes one from its count; with the last one the value is forgotten and its id goes to the pool. |
| ReferenceTable.FreedIdIsReused | web/wasm_exec.js:167-169 | In every run the id freed last is the first to be used again. |
| ReferenceTable.TableSizeIsPeak | web/wasm_exec.js:165-175 | In every run the table's length is 7 plus the peak number of dynamic values live at once. |
| ReferenceTable.StepKeepsMeaning | web/wasm_exec.js:313-323 | While Go holds an id, the id keeps denoting the same value. |
| ReferenceTable.LoadOfStore | web/wasm_exec.js:134-195 | Every value that is stored loads back as itself up to SameValueZero. |
| ReferenceTable.ValueReloads | web/wasm_exec.js:134-195 | On the bits: a number that is finite and not zero, or an infinity, loads bit for bit, any zero as zero and any NaN as the one NaN, and every other value as itself. |
| ReferenceTable.NumberIsItsReference | web/wasm_exec.js:150-158 | The reference of such a number is the number itself, and the table is left alone. |
| ReferenceTable.ReloadsDistinguish | web/wasm_exec.js:134-195 | Two stored values load as the same value exactly if they are the same, both zeros or both NaN. |
| ReferenceTable.KindShows | web/wasm_exec.js:176-194 | The reference of a tabled value shows whether it is an object, a string, a symbol, a function or none of them. |
| ReferenceTable.FixedReferences | web/wasm_exec.js:485-502 | In every reachable state undefined, null, true, false, the global object and the Go object have the references that Go programs expect. |
| ReferenceTable.ZeroAndNaNReferences | web/wasm_exec.js:485-502 | So have every zero and every NaN. |
| ReferenceTable.LoadBeyond | web/wasm_exec.js:143-144 | A reference beyond the table loads as undefined. |
| ReferenceTable.ReferenceStaysGood | web/wasm_exec.js:134-195 | A stored reference loads its value in every later state up to which the id has been held without interruption, and for the fixed ids for good. |
| GoShim.Go.constructor | web/wasm_exec.js:485-503 | The initial table is the one of the invariant. |
| GoShim.Go.LoadValue | web/wasm_exec.js:134-145 | Returns the value that the reference in memory denotes in the current table. |
| GoShim.Go.InternValue | web/wasm_exec.js:165-175 | The lookup in the reverse map, the pool and the end of the table, and the new count, are one step of the run model. |
| GoShim.Go.StoreValue | web/wasm_exec.js:147-195 | Updates table and memory as one step of the run model, after which loading the same address gives the stored value, numbers bit for bit up to zeros and NaN. |
| GoShim.Go.FinalizeRef | web/wasm_exec.js:313-323 | Giving back a held or fixed id is one step of the run model. |
| GoShim.Go.SetInt64 | web/wasm_exec.js:119-122 | Writes both words; reading them back gives the integer part exactly within range and where the words do not split unevenly, and zero for NaN and the infinities. |
| GoShim.Go.GetInt64 | web/wasm_exec.js:128-132 | Reads the two words as one signed 64-bit integer in two's complement. |
| TextEncoding.Utf8Terminated | web/wasm_exec.js:509-511 | Encoding a string with a NUL appended appends one zero byte to its encoding, lone surrogates included. |
| TextEncoding.Utf8ReadsBack | web/wasm_exec.js:511 | What a reader of UTF-8, after section 4 of RFC 3629, sees of any string is the string, every lone surrogate replaced by U+FFFD. |
| TextEncoding.Utf8Around | web/wasm_exec.js:511 | An ASCII character encodes to itself and never joins with what stands around it. |
| ProcessArgs.StrPtr | web/wasm_exec.js:509-518 | Writes the terminated string at the offset, leaves everything below, advances to the next multiple of 8, and throws exactly if it does not fit in memory. |
| ProcessArgs.KeysOf | web/wasm_exec.js:528 | The environment's keys in strictly increasing code-unit order. |
| ProcessArgs.SortedKeysUnique | web/wasm_exec.js:528 | There is only one such order, however the keys were visited. |
| ProcessArgs.KeysInOrder | web/wasm_exec.js:528 | Of two keys the first is smaller at the first code unit that differs. |
| ProcessArgs.WriteTable | web/wasm_exec.js:534-539 | Writes every pointer with a zero high word, leaves the strings below untouched, and throws exactly if the table does not fit in memory. |
| ProcessArgs.Run | web/wasm_exec.js:506-548 | Starts exactly if the layout fits in memory and ends below 12288; every string is then aligned, terminated, apart from every other and below the table, and every entry points to its string or is null. Whatever the outcome, no byte outside the layout, from 4096 to its end, is changed. |
| ProcessArgs.ArgumentsReadBack | web/wasm_exec.js:520-526 | Following the table from argv yields the NUL-free arguments up to a null. |
| ProcessArgs.EnvironmentReadsBack | web/wasm_exec.js:528-532 | Behind that null the table yields the key-sorted environment up to a second null. |
| ProcessArgs.ArgumentReadsIff | web/wasm_exec.js:520-526 | An argument reads back exactly if it contains no NUL. |
| ProcessArgs.EnvironmentReadsIff | web/wasm_exec.js:528-532 | An environment string reads back exactly if neither its key nor its value contains a NUL. |
| ProcessArgs.EnvironmentIsKeyAndValue | web/wasm_exec.js:529-531 | What is read is the key, an equals sign and the value; the first equals sign ends the key, unless the key has one itself. |
| ProcessArgs.LayoutSize | web/wasm_exec.js:507-518 | The strings begin at 4096 and take no more room than their bytes, a zero byte each and the rounding to 8; the table follows them. |

## Left out

- WebSocket upgrade, HTTP routing and its 400 answers, JSON, flags and logging: a connection is a message queue with a closed flag. A failed upgrade starts no handler step; an empty network or name never reaches one.
- Errors of a websocket `Close`: ignored by the source as well.
- Curve25519, ChaCha20-Poly1305, BLAKE2b and the internals of the Noise library: replaced by ideal terms. The byte encoding of handshake messages is not modelled.
- Session.Handshake: a responder whose second message cannot be sent returns an error, while the corresponding protocol step of SecureChannel leaves the party live and merely able to stop; the run theorems therefore cover more parties than the code has.
- Compromise of an honest long-lived key during a run (forward secrecy) is not modelled.
- A public key that does not belong to its private key (a hand-edited identity file, or `-key` with a wrong `-pubkey`).
- PTY and process handling, and `shell.Close` waiting for the process: a shell is a byte source and sink.
- The library sorts: `Sort` is an insertion sort standing for any sort; uniqueness of the sorted listing makes the choice immaterial.
- File access, directory creation and the malformed UTF-8 case of a key file: file contents are strings of Unicode scalar values.
- GoShim.Go.GetInt64: the rounding of the sum beyond 2^53 in magnitude is not modelled.
- LinearMemory.Int64RoundTrip: finite numbers are reals, of which the binary64 numbers are some; rounding of the quotient is modelled only where it can change its floor, that is where it underflows to zero.
- GoShim.Go.LoadValue: NaN payloads are read as one NaN-boxed pattern; the view of memory is never detached (`resetMemoryDataView`).
- GoShim.Go.FinalizeRef: finalizing an id that Go does not hold is excluded, since the runtime finalizes a reference once per store.
- Reference counts beyond 2^53 and tables beyond 2^32 entries: counts are unbounded, and loading is stated for ids that fit in 32 bits.
- The rest of the shim (file system and process stubs, timers, Reflect wrappers, promises).
- The operator, `internal/hubclient`, the browser user interface, the websocket transports, and the designs under `docs/` that have no code.
