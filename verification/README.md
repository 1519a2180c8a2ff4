# Verified model of the omninode_rsd lifecycle and attach protocols

This Dafny project models the parts of `src/omninode_rsd` that carry state, loops and protocol
reasoning, and proves what they promise about whole runs. `dafny verify dfyconfig.toml` checks it.

## What is modelled

**Attach V2 (`container_attach_v2.py`).** `AttachProgram` gives each party as a transition function over
labels: single write and read calls, authority and close answers, deadline refusals, gate refusals.
`TwoParty` runs one daemon and one wrapper over two FIFO byte channels with ends, in every interleaving and
with every collaborator failure; `Completion` shows that no run gets stuck; `ManySessions` runs any number of
daemon sessions against one atomic ticket-and-container authority. `DaemonSession` and `WrapperSession` are the
objects themselves, with the fields and calls of the source; each call is proved to leave labels that are a run
of the transition function, and `AttachedObjects` merges two objects' labels into one run of the system,
`ManyObjects` those of any number of daemon objects into one history of many sessions.
`HonestObjects` lets two objects exchange an attachment call by call. A wire notes in `trouble` whether a
collaborator has failed it; with that, each call is also shown to fail for no other reason than trouble, a budget
or its gate.
Readers, writers, closers, authorities, sinks and clocks are nondeterministic: they succeed, fail, return
short, or act and then raise. `Frames`, `AttachWire`, `Deadlines`, `Base64Url`, `Demux` and `Scrub` are the
layers below; `ScrubLimit` is where the scrubber's recursion ends. `AttachHeard` says what a party has taken in when
nothing is known of the other. `AttachV1` is the V1 secret step.

**Canonical JSON (`hashing.py`, `container_attach_static_v4.py`, the OCI evidence files).** `CanonicalJson` is the
printer, `JsonReader` a reader written apart from it, `CanonicalMeaning` what a reader gets from canonical octets,
`Normalize` and `Sorting` what precedes printing, `PythonStrings` the relation of Python strings to UTF-16 units,
`Respelling` the values that share their octets, `Scanner` the structural scanner as a loop and as an automaton,
`Pieces` what it accepts of any octets, `JsonGrammar` the texts of RFC 8259 (sections 2 to 7), `JsonBounds` the two
tree walks. `OciGraph` and `OciEvidence` are the digest graph, `OciPreflight` and `JsonSize` the preflight of its
documents, `OciImages` the images that have evidence, `OciDocuments` what its decoded documents say.

**Object graphs (`container_attach_static_v4.py`).** `ExactState` is the walk with `active_path` and
`completed_ids`; `ExactValue` the comparison with greedy set matching.

**Event log (`event_log.py`, `ingress.py`, `reducer.py`, `replay.py`, `hashing.py`).** `EventLog` is the log under
its re-entrant lock, with builder callbacks that may call it again to any depth; `LifecycleEvents` says what
a legal history is; `Replay` is reduction, projection and replay verification. `SubmitTrace` and `Submit` are
the delegated submit pipeline, with other submissions between any two of its steps or interleaved with
them effect by effect.

**Claim windows (`container_attach_static_v3.py`, `container_attach_static_v4.py`).** `ClaimWindow`.

Conventions: a digest is the value it was computed from, or a function that does not collide on the octets
compared; an authorization that passed verification is one immutable value with its bounds; the freshness
check is a boolean that may refuse; times are real numbers of seconds, UTC in `ClaimWindow` whole microseconds
cut to seconds; `safe` in `ExactState` is a nesting depth that the interpreter's recursion is sure to survive, and
`limit` in `Scrub` the number of frames there is room for below the scrubber's first one, at least the two that a
tuple of byte arrays takes.

## Where the code and its promises differ

The model follows the code.

- V2 `write_secret_chunks` documents scrubbing on every path, but the freshness gate
  (`container_attach_v2.py:1801-1806`) raises before the scrubbing code: `DaemonSession.Session.WriteSecretChunks`
  leaves every octet as it was on that exit.
- `canonical_json` is not injective on all Python strings: a high surrogate followed by a low one prints like the
  one character they encode (`PythonStrings.SurrogateCollision`). `PythonStrings.SharesItsTextIff` says exactly
  which strings share their text with another: those with such a pair, and those with a character above U+FFFF.
  Strings without a pair are told apart (`PythonStrings.UnpairedTextsDistinct`), and so are values of such strings
  (`Normalize.CanonicalTextsDistinct`). For values the exact condition is `Respelling.SharesCanonicalOctetsIff`: keys
  sort by code points and print as units, so a dict key with another spelling counts only if that spelling stays
  between the neighbouring keys (`Respelling.KeyHeldInPlace` has one that does not).
- V4 OCI evidence compares decoded documents with `==`, so a layer of one octet may state its size as `true`
  and two manifests with different digests satisfy the same declared fields. `OciEvidence.LooseFieldsFixManifest`
  says exactly when, and `OciImages.AliasedEvidence` gives two such values that pass; V5 compares exactly and is
  free of it (`OciEvidence.ExactFieldsFixManifest`).
- A V3 claim made within the claim timeout of the last representable second adds past the calendar, and an
  `OverflowError` escapes the fixed errors (`ClaimWindow.FreshTicketHasInterval`, `ClaimWindow.LastMinuteOverflows`).
- The scrubber recurses, also inside `finally` (`container_attach_v2.py:1847-1848`): a tuple holding containers
  nested past the interpreter's limit ends it with octets unscrubbed and the session as it was. On a graph without
  sharing it completes if and only if every discoverable object lies within the limit
  (`Scrub.ZeroizeDiscoverableBuffers`, `ScrubLimit.UnsharedIsLevelled`); `ScrubLimit.NestPastTheLimit` has a nest one
  list too deep for any given limit, and its array keeps every octet. With sharing, the order of the visits decides.
  A tuple of byte arrays is always scrubbed (`DaemonSession.Session.StreamAndScrub`). `ExactState.AssertExact` takes
  such a limit for a rejection.
- `_same_exact_runtime_value` by itself does not look at the private and extra state of models, which ordinary
  equality does (`ExactValue.HiddenStateIsNotCompared`). Sameness to a value implies equality with it if and only if
  no model occurs in the value (`ExactValue.SameImpliesEqualIff`). The one call from outside passes no `original` with
  such state: in `_assert_exact_field_annotation` (`container_attach_static_v4.py:264`, reached at `:232`) the value
  has already been walked by `_assert_exact_value` (`:227`), which refuses models with private or extra state
  (`:214-224`). Between values without it, sameness does imply equality (`ExactValue.SameImpliesEqual`).

## Model

| member | source | states |
|---|---|---|
| `Frames.ParseHeaderExact` | src/omninode_rsd/lifecycle/container_attach_v2.py:595-630 | A header parses to a length exactly when it is the header written for that type and length and the length is within the limit. |
| `Frames.WrongTypeConsumesHeader` | src/omninode_rsd/lifecycle/container_attach_v2.py:603-627 | A frame of another type than expected is refused after its ten header octets; the payload stays unread. |
| `Frames.MessageRoundTrip` | src/omninode_rsd/lifecycle/container_attach_v2.py:575-592 | Metadata and secret payloads, ordinal included, are recovered from their wire payload. |
| `Frames.FrameLayout` | src/omninode_rsd/lifecycle/container_attach_v2.py:83-85 | A frame octet by octet: ONC2, version 2, the code of its type, its payload length most significant octet first, its payload. |
| `Frames.SecretLayout` | src/omninode_rsd/lifecycle/container_attach_v2.py:87 | A secret frame has type 4 and its ordinal, most significant octet first, in front of the chunk. |
| `Frames.RoundTrip` | src/omninode_rsd/lifecycle/container_attach_v2.py:575-718 | Any sequence of in-limit metadata and secret frames written back to back decodes to the same types, ordinals and payloads, nothing left over. |
| `AttachWire.ReadExact` | src/omninode_rsd/lifecycle/container_attach_v2.py:522-552 | Against any reader: success means exactly count octets in nonempty blocks, each within what was asked; for a faithful reader the only other outcomes are a clock that fails, a passed deadline and too few octets. |
| `AttachWire.WriteAll` | src/omninode_rsd/lifecycle/container_attach_v2.py:555-592 | A frame write either reports every call complete, or stops at a deadline or at one call of which a prefix went out, and it stops only then. |
| `AttachWire.ReadFrame` | src/omninode_rsd/lifecycle/container_attach_v2.py:595-630 | Read from a faithful reader that cuts blocks as it likes, a frame is what the reference decoder finds at the head of the stream, and the reader is left where the decoder leaves it. |
| `AttachWire.ReadMessages` | src/omninode_rsd/lifecycle/container_attach_v2.py:595-696 | Any number of frames of any expected types, read one after another from a faithful reader, are what the reference decoder of whole streams gives, with the reader left where it stops; only a failing clock or a passed deadline can end it earlier. |
| `AttachWire.ReadBack` | src/omninode_rsd/lifecycle/container_attach_v2.py:575-718 | Whatever in-limit messages were written back to back, reading them gives exactly them and leaves exactly what follows, however the reader cuts its blocks, unless the clock fails or a deadline passes. |
| `AttachStreams.SecretConcat` | src/omninode_rsd/lifecycle/container_attach_v2.py:699-718 | The three write calls of each secret frame, in field order, amount to the stream of encoded secret frames. |
| `AttachStreams.SecretStreamInjective` | src/omninode_rsd/lifecycle/container_attach_v2.py:699-718 | Chunk tuples of one shape with the same octet stream are the same chunks. |
| `AttachStreams.DaemonKeepsInv` | src/omninode_rsd/lifecycle/container_attach_v2.py:1688-1948 | Every label a daemon can produce keeps its state, its activity and the octets it has written in step. |
| `AttachRuns.DaemonReadsFrame` | src/omninode_rsd/lifecycle/container_attach_v2.py:633-661 | However a frame read is cut up or broken off, the labels it leaves take the daemon to acceptance of the payload or to failure, never elsewhere. |
| `AttachRuns.WrapperReadsFrame` | src/omninode_rsd/lifecycle/container_attach_v2.py:633-696 | The same for the wrapper, secret frames included. |
| `AttachHeard.FrameReadHears` | src/omninode_rsd/lifecycle/container_attach_v2.py:595-661 | A frame read that succeeds has taken in exactly the frame of the payload it gives, whatever the reader is. |
| `AttachHeard.WrapperHeardItsAuthorization` | src/omninode_rsd/lifecycle/container_attach_v2.py:2046-2321 | With nothing assumed about the other side: a wrapper past its claim has taken in the one envelope frame and the one claim frame of its authorization first; every chunk handed over has its field's octet count, is the base64url text of 32 octets where the component wants that, and came as the secret frame of its place; past its chunks it has handed over one for each field and taken in nothing else. |
| `AttachHeard.DaemonHeardItsAuthorization` | src/omninode_rsd/lifecycle/container_attach_v2.py:1688-1948 | With nothing assumed about the other side: before it asks for the claim a daemon has taken in the one ready frame of its authorization and nothing else, and when acknowledged that and the one acknowledgement frame. |
| `TwoParty.NextKeepsInv` | src/omninode_rsd/lifecycle/container_attach_v2.py:1688-1948 | One step of either party over two FIFO channels keeps the joint invariant of both sessions and both channels. |
| `TwoParty.DeliverySafety` | src/omninode_rsd/lifecycle/container_attach_v2.py:1688-1948 | For every interleaving and every collaborator failure: the sink holds a prefix of the daemon's chunks in field order; an acknowledged daemon means all of them exactly once and the wrapper's input read to its end; a closed daemon means the wrapper's output closed and drained. |
| `TwoParty.AcknowledgedMeansDelivered` | src/omninode_rsd/lifecycle/container_attach_v2.py:2126-2260 | An acknowledgement can only exist after the wrapper saw the input end with every chunk delivered. |
| `Completion.NotBothWaiting` | src/omninode_rsd/lifecycle/container_attach_v2.py:1718-1749 | The two parties are never both waiting: before both are closed, one of them has octets to read, an end to see, or something of its own to do. |
| `Completion.NeverStuck` | src/omninode_rsd/lifecycle/container_attach_v2.py:1688-1948 | Every run, however it was interleaved and its frames cut, can be continued from any state in which neither party has failed to one that closes both sessions, with all chunks in the sink and both channels read to their ends. |
| `Completion.HonestRunCompletes` | src/omninode_rsd/lifecycle/container_attach_v2.py:2046-2260 | From the start, every deliverable tuple of chunks has a run that closes both sessions with the sink equal to it and both channels drained. |
| `AttachedObjects.MergeIsRun` | src/omninode_rsd/lifecycle/container_attach_v2.py:1688-1948 | Labels of a daemon and a wrapper that each follow their program, merged in any order in which every read is faithful, are a run of the two-party system. |
| `AttachedObjects.ObjectsDeliver` | src/omninode_rsd/lifecycle/container_attach_v2.py:1571-1948 | Delivery safety of the session objects themselves: any daemon object and wrapper object of one authorization, used in any way over faithful channels, satisfy it. |
| `ManySessions.SessionKeepsInv` | src/omninode_rsd/lifecycle/container_attach_v2.py:1751-1851 | Any one label keeps a session within one authority call, nothing past the envelope before CLAIMED, no secret before the whole claim frame. |
| `ManySessions.OneAttachPerContainer` | src/omninode_rsd/lifecycle/container_attach_v2.py:216-243 | Any number of sessions over one atomic authority, any order, any failure: at most one call each, CLAIMED before anything past the envelope, the claim frame before any secret octet, and at most one session per container and per ticket ever emits one. |
| `ManySessions.TerminalForever` | src/omninode_rsd/lifecycle/container_attach_v2.py:165-178 | A session once CLOSED, REJECTED or AMBIGUOUS is unchanged at every later moment of every history. |
| `ManyObjects.MergeIsHistory` | src/omninode_rsd/lifecycle/container_attach_v2.py:1571-1948 | Label records of any number of sessions that each follow the program, merged in any order in which the authority consumes atomically, are a history of many sessions. |
| `ManyObjects.ObjectsAttachOnce` | src/omninode_rsd/lifecycle/container_attach_v2.py:216-243 | Any number of session objects, used in any way and order against one atomic authority: of those for one container, or for one ticket, at most one has put a secret octet on its wire and at most one is in a state past its claim. |
| `DaemonSession.Session.constructor` | src/omninode_rsd/lifecycle/container_attach_v2.py:1588-1614 | A session starts NEW on its own guard, its absolute deadline the construction reading plus absolute_timeout_seconds. |
| `DaemonSession.Open` | src/omninode_rsd/lifecycle/container_attach_v2.py:1588-1611 | Construction gives no session exactly on a stale authorization, a budget below a second, or a clock reading that is not one. |
| `DaemonSession.Session.WriteTicketEnvelope` | src/omninode_rsd/lifecycle/container_attach_v2.py:1688-1716 | Success is TICKET_SENT from NEW, exactly the envelope frame written, the last reading inside the absolute and the ready budget; past its gate it fails only when a clock or writer did, a budget ran out, or the envelope is over the limit. |
| `DaemonSession.Session.ReadReady` | src/omninode_rsd/lifecycle/container_attach_v2.py:1718-1749 | Success is READY_RECEIVED from TICKET_SENT, exactly the expected ready frame taken in, within the absolute and the ready budget; every other outcome past the gate is AMBIGUOUS; a faithful reader that has the frame is refused only when the clock failed or a budget ran out. |
| `DaemonSession.Session.WriteClaim` | src/omninode_rsd/lifecycle/container_attach_v2.py:1751-1791 | Success asked the authority once, first, was answered CLAIMED, and wrote exactly the claim frame within the absolute and the claim budget; REJECTED exactly when that one answer was REPLAYED, anything else is AMBIGUOUS, and past its gate comes only of a failing clock or writer, another answer, a budget or the frame limit. |
| `DaemonSession.Session.WriteSecretChunks` | src/omninode_rsd/lifecycle/container_attach_v2.py:1793-1851 | Every exit past the freshness gate, and refusal of a non-tuple, leaves exactly the discoverable octets zero; a stale authorization leaves every octet as it was; only a graph with containers nested to the frame limit ends the scrubber, and then the session is as before; success wrote exactly the secret frames of the input's octets, one per field with its count and grammar, in order from CLAIM_SENT and within the acknowledgement budget; chunks that fit the field table fail only by a clock, a writer or a budget. |
| `DaemonSession.Session.CloseWrite` | src/omninode_rsd/lifecycle/container_attach_v2.py:1853-1883 | Success means a confirmed half-close, within the absolute and the acknowledgement budget, from CHUNKS_SENT; a close that raised or came late is AMBIGUOUS. |
| `DaemonSession.Session.ReadTerminalAck` | src/omninode_rsd/lifecycle/container_attach_v2.py:1885-1919 | Success took in exactly the one expected acknowledgement frame, from WRITE_CLOSED, within budget. |
| `DaemonSession.Session.RequireProtocolOutputEof` | src/omninode_rsd/lifecycle/container_attach_v2.py:1921-1948 | CLOSED exactly when the wrapper's output ended right after its acknowledgement, in time. |
| `HonestObjects.Exchange` | src/omninode_rsd/lifecycle/container_attach_v2.py:1688-2260 | The two session objects call by call, each over what the other wrote: either both end CLOSED, the sink was given exactly the chunks the daemon was given, and every discoverable octet of them is zero; or some collaborator made trouble or a budget ran out. |
| `HonestObjects.ExchangeEnvelope` | src/omninode_rsd/lifecycle/container_attach_v2.py:1688-2321 | The same for the envelope: what the daemon writes the envelope reader takes, unless one of them has such an excuse. |
| `DaemonSession.SessionHistoryIsSafe` | src/omninode_rsd/lifecycle/container_attach_v2.py:1571-1948 | A daemon object, whatever calls were made on it, asked the authority at most once, won before writing past its envelope, and wrote the whole claim before any secret octet. |
| `WrapperSession.Session.WriteReady` | src/omninode_rsd/lifecycle/container_attach_v2.py:2046-2091 | READY_RECEIVED from NEW, exactly the ready frame written, within the absolute and the ready budget, otherwise AMBIGUOUS past the gate. |
| `WrapperSession.Session.ReadClaim` | src/omninode_rsd/lifecycle/container_attach_v2.py:2093-2124 | Success took in exactly the claim frame of the authorization, against any reader, and leads from READY_RECEIVED to CLAIM_SENT within the claim budget; any other frame leads to AMBIGUOUS. |
| `WrapperSession.Session.ConsumeOne` | src/omninode_rsd/lifecycle/container_attach_v2.py:2138-2168 | Success took in exactly the secret frame with the field's ordinal, and handed over its chunk, which has the declared count and grammar; the buffer it was read into is zeroed on every exit, refused or delivered. |
| `WrapperSession.Session.ConsumeSecretChunks` | src/omninode_rsd/lifecycle/container_attach_v2.py:2126-2173 | Success took in exactly the secret frames of the chunks handed over, one per field in field order, each with its field's count and grammar; any deviation is AMBIGUOUS. |
| `WrapperSession.Session.RequireInputEof` | src/omninode_rsd/lifecycle/container_attach_v2.py:2175-2199 | WRITE_CLOSED only when the input ended with nothing trailing, within the acknowledgement budget. |
| `WrapperSession.Session.WriteTerminalAckAndCloseOutput` | src/omninode_rsd/lifecycle/container_attach_v2.py:2201-2260 | CLOSED only after exactly the acknowledgement frame was written and the output confirmed closed, within the acknowledgement budget. |
| `WrapperSession.ReadTicketEnvelope` | src/omninode_rsd/lifecycle/container_attach_v2.py:2263-2321 | Success took in exactly the envelope frame of the authorization, on a guard of its own, and is the only way into the state in which every wrapper session starts. |
| `WrapperSession.EnvelopeThenSession` | src/omninode_rsd/lifecycle/container_attach_v2.py:2006-2321 | Envelope reader and session together make one run of the wrapper program, to which the interleaving theorems apply. |
| `Deadlines.MonotonicGuard.Now` | src/omninode_rsd/lifecycle/container_attach_v2.py:333-354 | A reading passes exactly when it is finite, nonnegative and not before the last that passed; so accepted readings never decrease. |
| `Deadlines.RemainingSeconds` | src/omninode_rsd/lifecycle/container_attach_v2.py:371-378 | A positive remainder exactly when the guard takes the reading and it lies strictly before the deadline. |
| `Deadlines.PhaseDeadline` | src/omninode_rsd/lifecycle/container_attach_v2.py:407-428 | Exactly when a phase deadline is issued, and that it expires at the phase budget or the absolute deadline, whichever is first. |
| `Deadlines.RequireBefore` | src/omninode_rsd/lifecycle/container_attach_v2.py:431-442 | Passes exactly for the guard's own deadline and a taken reading strictly before it. |
| `Base64Url.EncodedCountIsGrouped` | src/omninode_rsd/lifecycle/container_attach_v2.py:750-752 | The length formula is the number of symbols of the grouped encoding, for every raw length. |
| `Base64Url.Alphabet` | src/omninode_rsd/lifecycle/container_attach_v2.py:90-91 | The symbols are those of RFC 4648 section 5, in its order. |
| `Base64Url.GroupInPlace` | src/omninode_rsd/lifecycle/container_attach_v2.py:750-759 | Octets 3k to 3k + 2 are spelled by symbols 4k to 4k + 3, the last group as far as it goes. |
| `Base64Url.GroupIsBigEndian` | src/omninode_rsd/lifecycle/container_attach_v2.py:750-759 | Within a group the bits keep their order, most significant first, with zeros after the last. |
| `Base64Url.SextetsCanonical` | src/omninode_rsd/lifecycle/container_attach_v2.py:754-759 | Symbols with zero trailing bits are those of the octets they decode to. |
| `Base64Url.AcceptsIffCanonicalEncoding` | src/omninode_rsd/lifecycle/container_attach_v2.py:721-763 | For every raw length n >= 1 a buffer is accepted if and only if it is the unpadded RFC 4648 section 5 encoding of some n octets; n = 32 is the code's case. |
| `Base64Url.EncodeInjective` | src/omninode_rsd/lifecycle/container_attach_v2.py:721-763 | No two octet strings share an encoding, so the accepted buffers are in bijection with the n-octet strings. |
| `Scrub.Visit` | src/omninode_rsd/lifecycle/container_attach_v2.py:298-326 | One recursive scrub zeroes what it newly covers, writes nothing else, and leaves no item of a visited container unvisited; it is ended only at an object for whose scrubbing the frames below the containers it is in do not suffice. |
| `Scrub.ZeroizeDiscoverableBuffers` | src/omninode_rsd/lifecycle/container_attach.py:161-192 | Ends on every finite, possibly cyclic graph; when it completes an octet is zero if it was in a discoverable buffer (for V2 also a writable view) and unchanged otherwise; on a graph without sharing it completes if and only if every discoverable object lies within the frame limit, and what lies beyond it keeps its octets; on any graph it still only zeroes exposed octets. |
| `ScrubLimit.UnsharedIsLevelled` | src/omninode_rsd/lifecycle/container_attach.py:166-192 | In every graph without sharing each object has one depth, so the exact condition applies to it. |
| `ScrubLimit.NestPastTheLimit` | src/omninode_rsd/lifecycle/container_attach_v2.py:298-326 | For every frame limit: a byte array inside that many lists inside one another ends the scrub early and keeps every octet. |
| `ScrubLimit.NestWithinTheLimit` | src/omninode_rsd/lifecycle/container_attach_v2.py:298-326 | With one list fewer the scrub completes and every octet is zero. |
| `Scrub.FoundIsLeast` | src/omninode_rsd/lifecycle/container_attach.py:166-192 | What is discoverable is the least set with the root and all items of its containers. |
| `AttachV1.SessionV1.WriteSecretChunks` | src/omninode_rsd/lifecycle/container_attach.py:927-1009 | On every exit exactly the discoverable octets are zero, but for a scrubber ended by too deep a nest; each outcome comes about exactly when it should, and fixes the state, whether the nonce authority was called, and which frames were handed out. |
| `AttachV1.SessionV1.ClaimAndStream` | src/omninode_rsd/lifecycle/container_attach.py:953-1001 | The nonce is asked for at most once and only in time; frames go out only after CLAIMED, as a prefix of the payloads in order, all of them on success. |
| `Demux.Demultiplexer.Fill` | src/omninode_rsd/lifecycle/container_attach_v2.py:2615-2632 | Collects octets across recv blocks of any size without losing or repeating one, and without reading ahead. |
| `Demux.Demultiplexer.NextStdoutFrame` | src/omninode_rsd/lifecycle/container_attach_v2.py:2634-2676 | Returns the next frame of the raw stream, clean end only at a frame boundary, and a fault where the stream stops meaning anything. |
| `Demux.Demultiplexer.Read` | src/omninode_rsd/lifecycle/container_attach_v2.py:2678-2700 | Positive-count reads return nonempty consecutive pieces of what the raw stream still owes, empty exactly at its clean end; in time and with the socket unbroken a read fails exactly when nothing more is owed and the stream has no clean end; the raw octets may come from the upgrade leftover or any recv split. |
| `Demux.MultiplexMeansContent` | src/omninode_rsd/lifecycle/container_attach_v2.py:2634-2676 | Well-formed stdout frames within the limits mean exactly the concatenation of their payloads and a clean end. |
| `Demux.MeaningUpToStop` | src/omninode_rsd/lifecycle/container_attach_v2.py:2634-2676 | Frames of stream 1 within the limits and then a header cut short, of another stream, of length zero or beyond the policy, or a payload cut short: whatever follows, the stream means exactly the payloads of those frames and no clean end. |
| `Demux.EveryStreamSplits` | src/omninode_rsd/lifecycle/container_attach_v2.py:2634-2676 | Every raw stream is of that kind, or a sequence of such frames to its end. |
| `Demux.BeyondLimitsIsFault` | src/omninode_rsd/lifecycle/container_attach_v2.py:2656-2675 | One frame or one octet beyond the policy never means a clean end, and only octets within the budget are ever returned. |
| `Scanner.PreflightCanonicalJsonStructure` | src/omninode_rsd/lifecycle/container_attach_static_v4.py:610-668 | The index loop accepts exactly when the octet automaton ends outside strings at depth zero within its limits. |
| `Pieces.ScannerOnAnyOctets` | src/omninode_rsd/lifecycle/container_attach_static_v4.py:610-668 | On any octets at all: accepted if and only if they can be cut into ignored octets, strings without control octets, brackets and units such that the brackets match up at most 32 deep and at most 4096 strings, containers and units occur. |
| `JsonGrammar.ScannerDecidesSize` | src/omninode_rsd/lifecycle/container_attach_static_v4.py:610-668 | On every RFC 8259 text, any whitespace and escapes: accepted if and only if at most 32 containers nest and there are at most 4096 containers, keys, strings and scalars. |
| `JsonGrammar.ProperIsOk` | src/omninode_rsd/lifecycle/container_attach_static_v4.py:610-620 | Every text by RFC 8259 sections 2 to 7, numbers with fraction and exponent, the three names and all escapes, is among those texts. |
| `JsonBounds.JsonArraysAsTuples` | src/omninode_rsd/lifecycle/container_attach_static_v4.py:503-526 | The walk passes exactly when the tree's height and value count are within bounds, and then has counted every value. |
| `JsonBounds.ValidateTreeBounds` | src/omninode_rsd/lifecycle/container_bootstrap_oci_safe_config_evidence_v5.py:154-172 | The V5 walk passes exactly when height and the count of values and keys are within its bounds, and then has counted them all. |
| `JsonBounds.SizesAgree` | src/omninode_rsd/lifecycle/container_bootstrap_oci_safe_config_evidence_v5.py:154-172 | The scanner's count on the text is the V5 walk's count on the parsed tree, and its depth is the tree's height, give or take an empty innermost container. |
| `JsonBounds.AcceptedTextNeverHitsTreeBounds` | src/omninode_rsd/lifecycle/container_attach_static_v4.py:503-526 | On the tree of any text the scanner accepts, the tuple walk meets neither of its own limits. |
| `CanonicalScan.TextIsRendering` | src/omninode_rsd/lifecycle/hashing.py:50-60 | The printer's output is a text of RFC 8259, each number by section 6, each name by section 3 and each string by section 7, with the same nesting and the same count of nodes. |
| `CanonicalScan.ScannerOnCanonicalText` | src/omninode_rsd/lifecycle/container_attach_static_v4.py:610-668 | On the canonical text of a tree the scanner accepts if and only if nesting <= 32 and nodes <= 4096 of the tree itself. |
| `CanonicalJson.Unambiguous` | src/omninode_rsd/lifecycle/hashing.py:50-60 | A printed tree followed by anything that cannot continue a number has one reading: same tree, same rest. |
| `CanonicalJson.PrinterInjective` | src/omninode_rsd/lifecycle/hashing.py:50-60 | Two trees print to the same octets if and only if they are the same tree. |
| `JsonReader.PrintedIsRead` | src/omninode_rsd/lifecycle/hashing.py:50-60 | Printed text read back, numbers digit by digit from the left, strings through their escapes, names by their letters, is the tree that was printed. |
| `JsonReader.UnitSpelling` | src/omninode_rsd/lifecycle/hashing.py:53-58 | Which spelling each unit of a string gets: itself, its two-octet escape, or four lower-case hex digits. |
| `JsonReader.CanonicalIffReprinted` | src/omninode_rsd/lifecycle/container_bootstrap_artifact_evidence_v4.py:251-267 | Octets are some tree's canonical text if and only if reading and printing them again changes nothing. |
| `PythonStrings.PairedIffAliased` | src/omninode_rsd/lifecycle/hashing.py:50-60 | Strings without a high surrogate before a low one are one representative of every text: a string shares its text with another such string exactly when it is not one itself. |
| `PythonStrings.SharesItsTextIff` | src/omninode_rsd/lifecycle/hashing.py:50-60 | Exactly which strings print like some other string: those that hold a high surrogate before a low one, and those that hold a code point above U+FFFF. |
| `PythonStrings.SurrogateCollision` | src/omninode_rsd/lifecycle/hashing.py:50-60 | The two-element string U+D83D U+DE00 and the one-element U+1F600 print alike: the printer is not injective on all Python strings. |
| `PythonStrings.UnpairedTextsDistinct` | src/omninode_rsd/lifecycle/hashing.py:50-60 | Strings without such pairs print alike only when equal. |
| `CanonicalMeaning.CanonicalOctetsDenote` | src/omninode_rsd/lifecycle/hashing.py:18-60 | A reader of the canonical octets gets exactly the value: booleans, numbers, strings, lists in order, dict entries by ascending keys, set members one for one by ascending text. |
| `Normalize.NormalIdempotent` | src/omninode_rsd/lifecycle/hashing.py:18-47 | Normalizing a normalized value changes nothing. |
| `Normalize.ReorderingKeepsText` | src/omninode_rsd/lifecycle/hashing.py:18-60 | Reordering dict entries and set members, at any depth, leaves the canonical octets unchanged. |
| `Normalize.CanonicalTextsDistinct` | src/omninode_rsd/lifecycle/hashing.py:50-60 | Normalized values print alike exactly when their JSON trees are equal; without paired surrogates exactly when the values are. |
| `Respelling.SharesCanonicalOctetsIff` | src/omninode_rsd/lifecycle/hashing.py:18-60 | Exactly which values have the canonical octets of one that normalizes differently: those whose normal form has a string with another spelling, or a dict key with one that lies between its neighbours. |
| `Respelling.SharedIsRespellable` | src/omninode_rsd/lifecycle/hashing.py:50-60 | A normalized value that prints like another has a string, or one single key in its place, that can be respelled, however many differ. |
| `Respelling.NormalIsProper` | src/omninode_rsd/lifecycle/hashing.py:18-47 | Normalization yields no sets, keys in strictly ascending order at every depth. |
| `Respelling.PlainPrintsLikeNoOther` | src/omninode_rsd/lifecycle/hashing.py:50-60 | A normalized value without surrogate pairs and without characters above U+FFFF prints like no other, whatever the other holds. |
| `Respelling.KeyHeldInPlace` | src/omninode_rsd/lifecycle/hashing.py:23-25 | A concrete dict whose key has another spelling and that still prints like no other, because the respelled key would sort elsewhere. |
| `Sorting.SortIgnoresOrder` | src/omninode_rsd/lifecycle/hashing.py:24-34 | When equal keys mean equal values, the sort depends only on the multiset sorted. |
| `ExactState.Walk.AssertExactValue` | src/omninode_rsd/lifecycle/container_attach_static_v4.py:351-400 | The recursive walk restores active_path, only adds to completed_ids, and passes only with everything below completed. |
| `ExactState.Walk.AssertExactModelState` | src/omninode_rsd/lifecycle/container_attach_static_v4.py:190-242 | The same for models, whose own state is checked before their fields. |
| `ExactState.AssertExact` | src/omninode_rsd/lifecycle/container_attach_static_v4.py:190-400 | Ends on every finite object graph; what passes has no reachable cycle and passes its local check everywhere, and whatever is so passes unless it nests more objects than the recursion survives; sharing alone is no fault. |
| `ExactState.ShallowWhenSafe` | src/omninode_rsd/lifecycle/container_attach_static_v4.py:237-242 | A faultless graph of no more objects than the recursion survives is never too deep, so on it the walk is exact. |
| `ExactValue.SameExactRuntimeValue` | src/omninode_rsd/lifecycle/container_attach_static_v4.py:270-348 | Answers true exactly on values that are the same under the specification, sets by some one-to-one pairing. |
| `ExactValue.SameIsIdentity` | src/omninode_rsd/lifecycle/container_attach_static_v4.py:270-330 | On values without sets sameness is identity but for hidden model state: no number is the same as a boolean, no tuple as a list, no dict as a reordered one. |
| `ExactValue.SetsMatch` | src/omninode_rsd/lifecycle/container_attach_static_v4.py:331-345 | Sets are the same if and only if both or neither is frozen and some one-to-one pairing pairs same members. |
| `ExactValue.MatchMembers` | src/omninode_rsd/lifecycle/container_attach_static_v4.py:331-345 | The greedy match with popping succeeds if and only if some bijection pairs equal members. |
| `ExactValue.Exchange` | src/omninode_rsd/lifecycle/container_attach_static_v4.py:334-344 | If any pairing exists, one exists that keeps whichever partner the greedy step took. |
| `ExactValue.Reflexive` | src/omninode_rsd/lifecycle/container_attach_static_v4.py:277-280 | The comparison is reflexive, so the identity shortcut is sound. |
| `ExactValue.Symmetric` | src/omninode_rsd/lifecycle/container_attach_static_v4.py:270-348 | The comparison is symmetric. |
| `ExactValue.Transitive` | src/omninode_rsd/lifecycle/container_attach_static_v4.py:270-348 | The comparison is transitive, across sets matched by different bijections. |
| `ExactValue.SameImpliesEqual` | src/omninode_rsd/lifecycle/container_attach_static_v4.py:270-348 | Same values without private or extra model state, which the preceding walk (:214-224) leaves in no value it passes, are equal under ordinary equality, where numbers and booleans alias and dicts and sets have no order. |
| `ExactValue.SameImpliesEqualIff` | src/omninode_rsd/lifecycle/container_attach_static_v4.py:270-348 | Everything that is the same as a value is also equal to it if and only if no model occurs in the value. |
| `ExactValue.HiddenStateIsNotCompared` | src/omninode_rsd/lifecycle/container_attach_static_v4.py:292-308 | Two models that differ only in private state: the same to the comparison, not equal. |
| `EventLog.InMemoryEventLog.CurrentState` | src/omninode_rsd/lifecycle/event_log.py:98-106 | The loop is the fold of the transition table, refusing exactly the streams that leave it. |
| `EventLog.InMemoryEventLog.Append` | src/omninode_rsd/lifecycle/event_log.py:41-45 | Stores exactly the admissible events, one at the end of the history; a refused call changes nothing. |
| `EventLog.InMemoryEventLog.Ingest` | src/omninode_rsd/lifecycle/event_log.py:47-70 | With callbacks that re-enter the log: a malformed or untimely intent is refused before either runs; otherwise the history grows by what they stored and then by the one event of the intent, numbered, linked to its run and sealed, exactly when both answers are usable, none of theirs was of the same run and the identifier is unused. |
| `EventLog.InMemoryEventLog.Build` | src/omninode_rsd/lifecycle/ingress.py:82-122 | An event is built exactly when the detail has 1 to 1000 characters and both callbacks answered with an identifier and a UTC instant; it carries them, the intent and the given sequence and prior digest, sealed by the digest of them all, and the builder itself stores nothing. |
| `EventLog.TimelyIsAdmissible` | src/omninode_rsd/lifecycle/event_log.py:57-90 | An event built on the head of its run is still admissible after the callbacks exactly when they stored nothing of that run and did not use its identifier. |
| `LifecycleEvents.LegalHistoryShape` | src/omninode_rsd/lifecycle/event_log.py:72-90 | Event-by-event admission makes every run numbered 1..n, linked by prior digests, sealed, and on a legal state path. |
| `LifecycleEvents.LegalHistoryIds` | src/omninode_rsd/lifecycle/event_log.py:76-77 | Identifiers are unique over all runs. |
| `LifecycleEvents.ShapeIsLegal` | src/omninode_rsd/lifecycle/event_log.py:72-90 | Conversely every history of that shape is one the log could have stored. |
| `LifecycleEvents.StateFixesLength` | src/omninode_rsd/lifecycle/reducer.py:108-116 | A legal run's length is determined by its state, and no event type occurs in it twice. |
| `LifecycleEvents.LegalPaths` | src/omninode_rsd/lifecycle/models.py:89-98 | The state after a run is determined by its sequence of event types exactly as listed: five legal sequences, each with its state, and no other has one. |
| `LifecycleEvents.HeadDeterminesHistory` | src/omninode_rsd/lifecycle/hashing.py:68-71 | Two valid runs with the same head digest are the same run and the same whole history. |
| `LifecycleEvents.LogsAgreeBelowHead` | src/omninode_rsd/lifecycle/event_log.py:72-90 | The same for runs held by two different logs. |
| `Replay.ComputeEventStreamHash` | src/omninode_rsd/lifecycle/hashing.py:86-92 | The loop computes the fold of the stream hash. |
| `Replay.StreamHashBinds` | src/omninode_rsd/lifecycle/hashing.py:74-92 | Two streams have the same stream hash if and only if they are equal, event for event. |
| `Replay.ComputeTransitionChecksum` | src/omninode_rsd/lifecycle/reducer.py:151-157 | The loop computes the fold of the replay checksum. |
| `Replay.ChecksumSeesTransitionsOnly` | src/omninode_rsd/lifecycle/hashing.py:95-111 | Two streams have the same replay checksum if and only if they differ at most in timestamps and stored hashes. |
| `Replay.ReduceExtendsChain` | src/omninode_rsd/lifecycle/reducer.py:40-80 | Given the projection of a chain, the reducer accepts an event exactly when the chain goes on, and yields the longer chain's projection. |
| `Replay.ValidIffUnalteredAndShaped` | src/omninode_rsd/lifecycle/reducer.py:82-122 | A projection passes validation if and only if its checksum is the digest of its own fields and some history of its run agrees with it in state, in length, and in whether the two digests are genesis. |
| `Replay.ValidWithoutHistory` | src/omninode_rsd/lifecycle/reducer.py:43-49 | A concrete projection that passes validation although no history of any run has it: validation does not stand in for replay. |
| `Replay.ReduceIff` | src/omninode_rsd/lifecycle/reducer.py:40-79 | The reducer accepts exactly the event that goes on from a valid projection: same run, next number, linked to its head, sealed over every field, of a type its state allows; the new projection has its number, its digest, the state of its type, the stream digest extended by it, and its own checksum. |
| `Replay.ProjectEvents` | src/omninode_rsd/lifecycle/projection.py:21-29 | A stream projects exactly when it is nonempty and a valid chain of its first event's run; the result is that chain's projection. |
| `Replay.VerifyLifecycleReplay` | src/omninode_rsd/lifecycle/replay.py:55-108 | Verifies exactly when identifiers are distinct, the chain is valid, and projection and checksum are the chain's own; an input error exactly when the stream itself is at fault, an artifact error or a run mismatch exactly when, that aside, the projection is invalid or of another run. |
| `Replay.StoredRunsReplay` | src/omninode_rsd/lifecycle/event_log.py:72-90 | Every run a log stores is acceptable to the replay verifier. |
| `Replay.ArtifactHasOneHistory` | src/omninode_rsd/lifecycle/replay.py:84-108 | One projection is the projection of one event stream only. |
| `Submit.DelegatedRequestIngress.Submit` | src/omninode_rsd/delegation.py:296-371 | Rejected without effect unless execution is enabled, request and facts are there, every pin of the request equals the grant's, and model and route are the policy's, and otherwise not rejected; the returned state then fixes the call's effects: a prefix of create, claim, start, dispatch, with only the last not well done; other submissions may run in between. |
| `Submit.World.Interleave` | src/omninode_rsd/delegation.py:296-371 | Any number of granted submissions and foreign appends, interleaved one effect at a time in any order, keep the discipline of the trace, the authority's ledger and the log's record of every effect, and every effect is for a grant that agrees with its request fact by fact. |
| `Submit.World.Claim` | src/omninode_rsd/delegation.py:326-333 | An atomic authority answers CLAIMED at most once per authorization, whatever is lost on the way. |
| `Submit.DispatchIsRecorded` | src/omninode_rsd/delegation.py:311-348 | Whatever was dispatched stands in the log as its run's first two entries, created with the authorization's digest and started with the grant's id in their texts. |
| `SubmitTrace.DispatchFollowsClaim` | src/omninode_rsd/delegation.py:311-352 | Every dispatch comes after its own call created the run, won the claim and started the run, all for the same claim. |
| `SubmitTrace.DispatchedOnce` | src/omninode_rsd/delegation.py:296-353 | No authorization and no run is dispatched twice, whoever the callers are. |
| `SubmitTrace.ClaimedOncePerRun` | src/omninode_rsd/delegation.py:311-333 | A run asks the claim authority at most once in its life, however often it is submitted. |
| `SubmitTrace.DisciplineKept` | src/omninode_rsd/delegation.py:296-353 | Adding a call's next effect keeps the discipline of the whole trace. |
| `ClaimWindow.MonotonicDeadlineGuard.Now` | src/omninode_rsd/lifecycle/container_attach_static_v3.py:1438-1454 | One call is one step of the guard: passed and remembered, or failed for good. |
| `ClaimWindow.GuardLetsThroughMonotonePrefix` | src/omninode_rsd/lifecycle/container_attach_static_v3.py:1426-1454 | For any readings: the guard has failed exactly when some reading was missing or went backward, and from then on lets nothing through; until then it lets through all of them. |
| `ClaimWindow.FreshTicketHasInterval` | src/omninode_rsd/lifecycle/container_attach_static_v3.py:1523-1585 | With any rounding of clock sums: a freshly validated ticket gets an interval whose authority deadline passes the record's own checks if and only if the calendar lasts until the timeout and the sum is later than the start; a calendar that ends lets an overflow escape, a swallowed budget fails freshness. |
| `ClaimWindow.ExactSums` | src/omninode_rsd/lifecycle/container_attach_static_v3.py:1543-1552 | Where sums are exact no budget is swallowed, and a claim in its window took nonnegative monotonic time below the budget. |
| `ClaimWindow.LastMinuteOverflows` | src/omninode_rsd/lifecycle/container_attach_static_v3.py:1543-1546 | A concrete ticket in the last minute of year 9999 for which it does. |
| `ClaimWindow.ClaimTicket` | src/omninode_rsd/lifecycle/container_attach_static_v3.py:2140-2216 | Succeeds if and only if the ticket holds, the authority confirmed all three identities, raw UTC before and after lies in [issued, min(expires, checked + timeout)), and the last monotonic reading lies between the one before validation and its sum with that budget; the authority is asked at most once, and when. |
| `ClaimWindow.FinalizeReceipt` | src/omninode_rsd/lifecycle/container_attach_static_v4.py:4309-4424 | A signed receipt passes its timing checks if and only if the claim lies in the authority's own window, cut at the ticket's expiry, and the verifier's clocks lie in the verifier's window, UTC not before the validation instant. |
| `OciGraph.KeysAgree` | src/omninode_rsd/lifecycle/container_bootstrap_artifact_evidence_v4.py:521-577 | Dicts of one size with all keys of one in the other list the same keys in canonical order. |
| `OciGraph.ExactComparisonIsIdentity` | src/omninode_rsd/lifecycle/container_bootstrap_oci_safe_config_evidence_v5.py:201-224 | On decoded canonical trees the exact comparison is identity. |
| `OciEvidence.ManifestDigestBinds` | src/omninode_rsd/lifecycle/container_bootstrap_artifact_evidence_v4.py:521-619 | Unless digests collide, two valid evidence values with one manifest digest have equal manifest and config octets, ordered layers, config digest, diff ids, entrypoint, command and wrapper layer. |
| `OciPreflight.Preflight` | src/omninode_rsd/lifecycle/container_bootstrap_artifact_evidence_v4.py:189-218 | The loop decides, for any octets, the octet automaton with its limits on length, nesting and nodes. |
| `OciPreflight.PassesIffWithin` | src/omninode_rsd/lifecycle/container_bootstrap_artifact_evidence_v4.py:189-218 | The canonical text of a tree passes if and only if its length, its nesting and its node count, in which every octet of a number or name is a node of its own, are within the limits. |
| `Pieces.PreflightOnAnyOctets` | src/omninode_rsd/lifecycle/container_bootstrap_artifact_evidence_v4.py:189-218 | The same for any octets at all, cut into ignored octets, strings, brackets and single other octets, brackets at most 24 deep. |
| `OciDocuments.ValidSaysWhatItDeclares` | src/omninode_rsd/lifecycle/container_bootstrap_artifact_evidence_v4.py:521-619 | Evidence is valid if and only if sizes, digests and limits hold and its decoded documents say by their keys what it declares: Entrypoint the entrypoint, Cmd the command, diff_ids the diff ids; the manifest the config's digest and size and each layer's in order; the index the manifest's. |
| `OciImages.EvidenceExists` | src/omninode_rsd/lifecycle/container_bootstrap_artifact_evidence_v4.py:468-619 | Every image within the field limits (at most 32 layers with distinct digests and diff ids, sizes up to 1 GiB, 128 entrypoint and 64 command arguments of the allowed characters) has valid evidence: none of its documents is too long or fails the preflight. |
| `OciImages.AliasedEvidence` | src/omninode_rsd/lifecycle/container_bootstrap_artifact_evidence_v4.py:553-583 | Such an image with a layer of one octet has two evidence values that the validator passes, every digest, size, limit and index in place, with the same fields and different manifests. |
| `OciEvidence.IndexDigestBinds` | src/omninode_rsd/lifecycle/container_bootstrap_artifact_evidence_v4.py:553-568 | And the index digest fixes the manifest digest and size. |
| `OciEvidence.LooseFieldsFixManifest` | src/omninode_rsd/lifecycle/container_bootstrap_artifact_evidence_v4.py:569-583 | Compared with ==, the declared fields fix the manifest octets if and only if no layer is declared one octet big, because true equals 1. |
| `OciEvidence.ExactFieldsFixManifest` | src/omninode_rsd/lifecycle/container_bootstrap_oci_safe_config_evidence_v5.py:572-588 | Compared exactly, they always do. |

## Left out

- Ed25519, SHA-256, sockets, real clocks, operating-system locks, PostgreSQL and package resources: foreign code.
- Pydantic, YAML and field regexes: schema validity is a predicate; the long field-by-field equality chains are one passed authorization, settled one conjunct at a time by reading.
- Floats in JSON and in exact comparison; the limit on the digits of an integer; non-string dict keys of `_normalize`; the recursion limit of the printer and of the exact comparison.
- Rounding of the V2 deadlines: their times are real numbers. (`ClaimWindow` takes any rounding.)
- `_require_authorization_fresh`: a check that may refuse before a call; its own clock reading is not modelled.
- V1 framing and the other V1 calls: the V1 frame differs from the V2 frame in its magic, version and types; the V1 sessions are the V2 sessions without half-close.
- The HTTP upgrade handshake and its header parsing: the leftover after it is an arbitrary byte string.
- The demultiplexer after its first error: it keeps no failure flag, so its reads are specified up to that error.
- Session `checkpoint` and `receipt` projections: field copies of state that is modelled.
- Writers, readers and sinks that change the buffers they are lent, and other threads that change a container during a scrub.
- The bound on the canonical text of a whole V4 evidence model, which applies when it is serialized; the wrapper's tar entry and its path.
- ExactValue.SameExactRuntimeValue: values are finite trees, so `active_pairs`, which only ever refuses a pair already being compared, has nothing to refuse.
- WrapperSession.Session.ConsumeOne: the octets of a payload that breaks off halfway, which the exact reader zeroes itself, are not kept in a buffer.
- ExactState.AssertExact: the type check and the field adapter of one model are its local check, a boolean per object.
- EventLog.InMemoryEventLog.Ingest: a builder object other than the repository's own, which could return an event of another run, is not modelled; its event would still face every check of `Append`.
- Submit.DelegatedRequestIngress.Submit: between two of its steps the object lets other submissions run whole, to any depth; step-by-step interleaving is `Submit.World.Interleave`.
- ClaimWindow.ClaimTicket: calendar years before 1000, which render with fewer digits on some platforms.
- ClaimWindow.FinalizeReceipt: the receipt's signature, anchors and claim digests, each one equality.
- `postgres`, `executor_*`, `provider_crypto`, rendering, the public verifier and `scripts/ci`: input/output and templates that would only add easy members.
