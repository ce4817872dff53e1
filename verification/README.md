# A verified model of the SMPP session

An SMPP v3.4 session runs over one TCP connection. On the sending side any
number of operations share one buffer, which is also their lock. On the
receiving side one coroutine cuts the octets of the socket into frames, answers
`enquire_link` and `unbind` itself, watches the peer with a two-strike keepalive,
and hands every other frame to a codec that is driven by field tables. This
project models that session in Dafny and proves what holds of it over whole runs.

The layers, bottom up:

| files | what they model |
|---|---|
| `Octets`, `HeaderCodec`, `Flags` | octets, big-endian words, the 16-octet header, the two flag octets |
| `FlatBuffer` | the receive buffer: an array with three positions, compacted in place |
| `Oparam`, `Schema`, `Pdus` | the TLV map, the field codecs and the two folds over a field table, the 21 tables as data |
| `WireFormat`, `PduFormats` | the format of fields, PDUs and frames, said without the codec |
| `ShortMessage`, `GsmConverter` | user data headers, packing and unpacking, GSM 03.38 to UCS-2 |
| `SequenceNumbers`, `SendModel`, `SendTheorems`, `SendOutcomes`, `Sessions` | the sending operations, as a state machine over events and as a class |
| `Frames`, `ReceiveModel`, `ReceiveTheorems`, `ReceiveOutcomes`, `ReceiveOperations` | the reference reading of a stream, and the receive coroutine, as a state machine and as a class |
| `EndToEnd` | two sessions and the stream between them |

The main results:

* `EndToEnd.EndToEnd`, `DeliveredIsPrefixOfSent` and `SentIsDelivered`: whatever the
  interleaving of the senders, as long as no write fails, and however the octets
  are split into reads, the peer's receives deliver a prefix of the PDUs sent, in
  the order in which the lock was taken, with their sequence numbers and statuses;
  and, when they have read everything, every PDU whose sending completed.
* `ReceiveTheorems.ReceiveReadsFrameByFrame` and `ChunkingInvariance`: the receive
  loop is a pure frame-by-frame reading of the stream.
* `SendTheorems.StrandedExactly`, `StrandedSince` and `StrandingEndsExactly`: in
  exactly which way a wake-up of a waiting sender gets lost, and made good; and
  `JammedExactly`: when the shared buffer is lost for good.
* `Schema.RoundTripExactly`, `DecodeNormalises` and `WireFormat.ReadsExactly`: which
  PDUs survive the codec, and which bodies it reads, for every well-formed table.
* `ReceiveOutcomes.FailsExactly` and `SendOutcomes.OutcomeExactly`: when a receive
  fails, and how each sending operation ends, told by the events alone.

How the two forms hang together. Each suspension of a coroutine ends a step of
its state machine, and the environment (the socket, timers, the user's
cancellation) appears as the events that resume it. The classes `Session` and
`ReceiveOp` do the same work on the real fields, one method per stretch between
two suspensions; each method is proved to be the step of the state machine, and
what holds of all runs is proved about the state machine.

What the code does, and a reader might not expect:

* A wake-up is lost when the only woken sender is cancelled before it resumes, or
  finds that its PDU cannot be serialized, while others wait (session.hpp:315-317,
  325-329). They stay stranded, with the lock free, until a newcomer takes the
  lock, whose release wakes the first of them (344-345), or until the last of them
  is cancelled.
* A session is jammed, its buffer taken by nobody, exactly when the write of a
  command has timed out: the frame stays in the buffer (session.hpp:280-282).
  Nothing is sent on the session after that, and every operation on it, keepalives
  included, hangs until it is cancelled.
* If the answer to an `unbind` cannot be sent, the `unbind` stays in the buffer,
  and the next receive answers it again (session.hpp:544-545).
* The receive buffer is a byte queue unless all of it is consumed between a
  `prepare` and its `commit`: then `commit` appends octets already consumed, since
  `consume` moves the end of the contents to the front and leaves the end of the
  prepared region (static_flat_buffer.hpp:90-95). `receive_op` never does that: it
  prepares as it begins a read, commits as the read ends, and consumes only then.
* A PDU with a NUL inside a C-string is sent, but never read back as it was.
  Of a `registered_delivery` octet only the low five bits are kept.
* Where `char` is signed, the 16-bit reference of a concatenated message comes
  back wrong when its low octet is 0x80 or more and its high octet is not 0xFF;
  so does an 8-bit reference of 0x80 or more (short_message.hpp:122, 134-136).
* `session.hpp` documents terminal cancellation only for the sending of requests
  and unbinds (lines 72-75 and 134-137) and none for that of responses, but a
  sender that waits for the buffer accepts every cancellation type (lines 252,
  309, 373). The model has the latter.
* Frames behind an `unbind` stay in the buffer and are delivered if the user
  receives again, since the buffer is not cleared (session.hpp:547-549).
* Commands draw their sequence numbers before they wait for the lock, so they can
  be overtaken on the wire. A request draws when it holds the lock, after
  everything that precedes it on the wire.

## Model

| member | source | states |
|---|---|---|
| EndToEnd.EndToEnd | include/smpp/net/session.hpp:236-593 | for every run of concurrent senders without a failed write and every run of the peer's receives over a prefix of those octets: what the peer shows (deliveries, enquire_link answers, unbinds) is a prefix of what the frames mean in lock order, and all of it once the peer has read everything and waits |
| EndToEnd.DeliveredIsPrefixOfSent | include/smpp/net/session.hpp:296-351 | the PDUs delivered, with sequence numbers and statuses, are a prefix of the PDUs whose frames took the lock, in lock order, commands removed: none skipped, none twice, none changed |
| EndToEnd.SentIsDelivered | include/smpp/net/session.hpp:340-346 | none is lost: once the peer has read all that is on the wire and waits, it has delivered the PDU of every operation that completed without error, with the number the operation drew or brought and with its status, even while another write is in progress |
| EndToEnd.FrameIsExpected | include/smpp/net/session.hpp:320-335 | a single frame shows the peer the very PDU, number and status that were sent, or the very command and number, if and only if the PDU's values are faithful |
| EndToEnd.LogStream | include/smpp/net/session.hpp:511-562 | the concatenated frames of a log are a well-framed stream, and the frame-by-frame reading of it is what the jobs meant |
| ReceiveTheorems.ReceiveReadsFrameByFrame | include/smpp/net/session.hpp:446-593 | what a run of successive receives has shown, followed by the reading of what is still buffered, is the frame-by-frame reading of all octets read |
| ReceiveTheorems.ChunkingInvariance | include/smpp/net/session.hpp:446-593 | two sessions that were sent the same octets have shown the same once both wait for more, however reads were split and wherever timeouts and failed receives fell |
| ReceiveTheorems.ShownIsPrefix | include/smpp/net/session.hpp:446-593 | while only part of a stream has been read, what was shown is a prefix of the reading of the whole stream |
| ReceiveTheorems.Conservation | include/smpp/net/session.hpp:464-590 | over any run, with timeouts, errors that come with data, cancellations and failed sends, the octets read are the frames shown followed by the unshown buffer contents; what was shown is what those frames call for, so each enquire_link is answered once with its own number and no control frame is delivered |
| ReceiveTheorems.ByteConservation | include/smpp/net/session.hpp:464-590 | all octets read are the consumed frames followed by the contents of the buffer |
| ReceiveTheorems.DeliveredFromItsFrame | include/smpp/net/session.hpp:559-590 | each delivery is the reading of one frame of its turn, never of a control frame, with that frame's number and status; an invalid PDU carries exactly the frame |
| ReceiveTheorems.CompletionEndsReceive | include/smpp/net/session.hpp:547-549 | after any completion nothing happens until the user receives again, so nothing behind an unbind is shown by the same receive |
| ReceiveTheorems.PendingExactly | include/smpp/net/session.hpp:473-498 | pending_enquire_link_ is set exactly when this receive has timed out and begun an enquire_link and no octet has been read since |
| ReceiveTheorems.LastUnbindExactly | include/smpp/net/session.hpp:480-491 | the keepalive sends an unbind exactly when a read times out without an octet while an enquiry of the same receive is open |
| ReceiveTheorems.KeepaliveExpiresOnlyInSilence | include/smpp/net/session.hpp:473-502 | a receive ends through the keepalive only after two timed-out reads with no octet between them, an enquire_link sent without error after the first, and an unbind attempted after the second, and it shuts the socket down before |
| ReceiveTheorems.KeepaliveHappens | include/smpp/net/session.hpp:473-502 | a concrete run that ends through the keepalive |
| ReceiveTheorems.UnbindIsAnswered | include/smpp/net/session.hpp:537-550 | a receive that ends as unbinded has just consumed an unbind_resp, or an unbind whose unbind_resp, with the same number, was the send before and succeeded |
| ReceiveTheorems.AnsweredUnbindIsConsumed | include/smpp/net/session.hpp:539-549 | once an unbind_resp has been sent without error, the receive consumes exactly the one unbind with that number, shuts the socket down and ends; after a failed answer it ends with the error and the buffer stays as it is |
| ReceiveTheorems.FailedAnswerIsRepeated | include/smpp/net/session.hpp:539-545 | after a failed answer, the next thing that happens is that the user receives again and the same unbind is answered again |
| ReceiveTheorems.ShutdownExactly | include/smpp/net/session.hpp:489-549 | a receive shuts the socket down before it completes if and only if it completes as unbinded or through the keepalive |
| ReceiveTheorems.NoDeliveryWithoutSuspension | include/smpp/net/session.hpp:553-557 | a receive never delivers in the turn that starts it |
| ReceiveTheorems.ReadsHaveRoom | include/smpp/net/session.hpp:465-467 | every read is issued with a region of at least one octet, and of exactly the room that the buffer has left |
| ReceiveTheorems.WorkIsBounded | include/smpp/net/session.hpp:453-535 | the frames handled between two suspensions take up at least 16 octets each of what was buffered and read |
| ReceiveTheorems.NeverUndefined | include/smpp/net/session.hpp:511-524 | on a stream with command_length in 16..131072 the code never handles a frame shorter than its header |
| ReceiveOutcomes.FailsExactly | include/smpp/net/session.hpp:501-545 | over every run: a receive fails exactly when a read reports an error other than the passing of the interval, cancellation included, or when its enquire_link or unbind_resp could not be sent; with that error, the socket left open, and the buffer grown by what arrived |
| ReceiveOutcomes.EnquiryExactly | include/smpp/net/session.hpp:480-498 | an enquire_link is begun exactly when the interval passes and no enquiry is open that has met with silence |
| ReceiveOutcomes.EnquiryReadsOn | include/smpp/net/session.hpp:493-524 | once it has been sent, the receive reads on |
| ReceiveOutcomes.LastUnbindEndsReceive | include/smpp/net/session.hpp:484-491 | the keepalive's unbind ends the receive with a shutdown whether or not it could be sent |
| ReceiveOutcomes.KeepaliveDraws | include/smpp/net/session.hpp:484-498 | the keepalive's commands bear the next number of the session, and only the passing of the interval brings them about |
| ReceiveOutcomes.PostsExactly | include/smpp/net/session.hpp:553-557 | a receive goes through the executor before it delivers exactly if it has not begun a read, and then delivers |
| ReceiveOutcomes.WaitsForItsAction | include/smpp/net/session.hpp:464-557 | after each step the operation waits for what the step has begun, and for nothing once it is complete |
| ReceiveModel.StepKeeps | include/smpp/net/session.hpp:446-593 | every resumption keeps the state well formed, accounts for every octet, and shows exactly what the frames of the turn call for |
| ReceiveModel.AdvanceKeeps | include/smpp/net/session.hpp:505-592 | the same for the loop alone, by induction over the buffered frames |
| ReceiveOperations.ReceiveOp.constructor | include/smpp/net/session.hpp:433-444 | a new operation needs a post and has no enquiry pending |
| ReceiveOperations.ReceiveOp.Resume | include/smpp/net/session.hpp:446-593 | a resumption over the real buffer is one step of the state machine: new fields, new contents, the action taken, the effect on the session's senders and counter, and whether the socket is shut down |
| ReceiveOperations.ReceiveOp.AfterReadSome | include/smpp/net/session.hpp:473-502 | commits what was read, even with an error, and goes on to the keepalive, the loop, or, for any error but the passing of the interval, the end with that error |
| ReceiveOperations.ReceiveOp.CommitRead | include/smpp/net/session.hpp:473-477 | what arrived joins the contents, and ends the open enquiry if it is not nothing |
| ReceiveOperations.ReceiveOp.KeepAlive | include/smpp/net/session.hpp:480-498 | the first timeout sends an enquire_link and the second an unbind, each under a freshly drawn number |
| ReceiveOperations.ReceiveOp.AfterSendCommand | include/smpp/net/session.hpp:489-549 | what follows each of the four sends; the result of an enquire_link_resp is ignored |
| ReceiveOperations.ReceiveOp.RunLoop | include/smpp/net/session.hpp:453-592 | the loop with its needs_more_ flag terminates and is the recursive Advance on the buffer contents |
| ReceiveOperations.ReceiveOp.ReadMore | include/smpp/net/session.hpp:457-471 | prepare(capacity - size) succeeds and the contents stay |
| ReceiveOperations.ReceiveOp.CacheHeader | include/smpp/net/session.hpp:511-518 | the fields are those of the first 16 buffered octets |
| ReceiveOperations.ReceiveOp.HandleFront | include/smpp/net/session.hpp:526-557 | answers, unbinds, posts or delivers, as the model does for the frame in front |
| ReceiveOperations.ReceiveOp.DeliverFront | include/smpp/net/session.hpp:559-590 | completes with what the frame in front decodes to, its number and its status, and has consumed exactly that frame |
| ReceiveOperations.ReceiveOp.DecodeFront | include/smpp/net/session.hpp:559-587 | the PDU in the frame in front, or the whole frame when its command id is unknown or its body cannot be decoded |
| ReceiveOperations.DecodeAs | include/smpp/net/session.hpp:565-579 | the dispatch decodes as the first type with the command id, and fails without one |
| Frames.ObserveAfterFrames | include/smpp/net/session.hpp:511-562 | the reference reading of a stream that starts with whole frames is that of the frames, then that of the rest |
| Frames.WellFramedPrefix | include/smpp/net/session.hpp:520-524 | whatever has been read of a well-framed stream is itself well framed |
| Frames.ObserveAllPrefix | include/smpp/net/session.hpp:520-524 | octets that come later only add to the reading |
| FlatBuffer.StaticFlatBuffer.constructor | include/smpp/net/detail/static_flat_buffer.hpp:12-21 | a new buffer is empty |
| FlatBuffer.StaticFlatBuffer.Clear | include/smpp/net/detail/static_flat_buffer.hpp:23-29 | nothing is left, buffered or prepared |
| FlatBuffer.StaticFlatBuffer.Front | include/smpp/net/detail/static_flat_buffer.hpp:43-47 | the oldest octets of the contents |
| FlatBuffer.StaticFlatBuffer.Prepare | include/smpp/net/detail/static_flat_buffer.hpp:61-79 | succeeds exactly when contents and request fit the capacity, keeps the contents through the overlapping move, hands out exactly the octets asked for, and changes nothing when it fails |
| FlatBuffer.StaticFlatBuffer.Receive | include/smpp/net/session.hpp:465-467 | what the socket writes lands at the front of the prepared region and nowhere else |
| FlatBuffer.StaticFlatBuffer.Commit | include/smpp/net/detail/static_flat_buffer.hpp:81-85 | appends the first octets of the prepared region to the contents, never more than were prepared |
| FlatBuffer.StaticFlatBuffer.Consume | include/smpp/net/detail/static_flat_buffer.hpp:87-97 | drops the first min(n, size) octets; the prepared region stays if and only if something is left or the contents ended at the front of the array, and otherwise it takes in the octets just dropped |
| FlatBuffer.ConsumeBeforeCommit | include/smpp/net/detail/static_flat_buffer.hpp:81-97 | a concrete run in which consuming everything between prepare and commit makes commit append octets already consumed |
| SendTheorems.WireIntegrity | include/smpp/net/session.hpp:254-346 | in every reachable state at most one operation writes; before the first failed write the wire holds the whole frames in lock order and a part of the last at most |
| SendTheorems.WireStep | include/smpp/net/session.hpp:311-346 | every step keeps it: the wire is the finished frames plus what has been written of the buffer |
| SendTheorems.OwnerStep | include/smpp/net/session.hpp:311-346 | every step keeps a non-empty buffer a lock: the writer is the owner, and the buffer is the frame logged last |
| SendTheorems.BufferIsStableWhileWritten | include/smpp/net/session.hpp:340-342 | over any run of steps during which an operation keeps writing, its buffer, the log and the octets already sent stay as they are |
| SendTheorems.StrandedExactly | include/smpp/net/session.hpp:311-329 | a step strands the waiters (the lock is free, nobody is woken) if and only if the only woken operation leaves by cancellation or serialization failure while others wait; newcomers, re-queued and cancelled waiters never do it |
| SendTheorems.StrandedSince | include/smpp/net/session.hpp:311-346 | in every run, stranded waiters go back to such a step, with the lock free and no release ever since |
| SendTheorems.StrandedExactlySince | include/smpp/net/session.hpp:311-346 | after a run, operations are stranded if and only if some operation waits and there was such a step with the lock free ever since |
| SendTheorems.NoLostWakeUp | include/smpp/net/session.hpp:344-345 | without such a step, a sender waits only while the lock is held or a woken sender is on its way |
| SendTheorems.StrandingHappens | include/smpp/net/session.hpp:315-317 | a concrete run of three commands that strands one |
| SendTheorems.StrandingByFailureHappens | include/smpp/net/session.hpp:385-393 | a concrete run in which a woken response with an oversized system_id fails to serialize and strands a command |
| SendTheorems.StrandingEndsExactly | include/smpp/net/session.hpp:311-342 | a step ends a stranding if and only if a newcomer takes the free lock or the last stranded operation is cancelled |
| SendTheorems.ReleaseWakesFirst | include/smpp/net/session.hpp:344-345 | the end of any write but that of a timed-out command wakes the first waiter and touches no other; so a newcomer's release picks up the stranded |
| SendTheorems.TimeoutJams | include/smpp/net/session.hpp:280-282 | a command that times out leaves the buffer taken by nobody |
| SendTheorems.JammedExactly | include/smpp/net/session.hpp:280-286 | in every run, the session is jammed if and only if the write of some command has timed out |
| SendTheorems.JamHappens | include/smpp/net/session.hpp:280-282 | a concrete run of one keepalive that jams the session |
| SendTheorems.JammedForever | include/smpp/net/session.hpp:254-282 | from then on no run puts another octet on the wire, and whatever operation still leaves does so because its wait was cancelled |
| SendTheorems.LogStep | include/smpp/net/session.hpp:320-342 | every step keeps this: each frame taken to the wire encodes its operation's job under the number drawn or brought, and no operation is served twice |
| SendTheorems.LogOfRun | include/smpp/net/session.hpp:311-346 | so it holds in every reachable state, with a wait queue that holds exactly the waiting operations, each once |
| SendTheorems.ServedStep | include/smpp/net/session.hpp:311-346 | every step keeps the log complete: it gains a frame exactly when an operation begins its write |
| SendTheorems.ServedOfRun | include/smpp/net/session.hpp:311-346 | in every reachable state, an operation has a frame in the log if and only if it is writing or has left with its write done, failed or timed out |
| SendModel.QueueStep | include/smpp/net/session.hpp:311-346 | every step keeps the wait queue exact |
| SendTheorems.DrawStep | include/smpp/net/session.hpp:330-335 | every step keeps counter and draws in agreement: no draw is used twice, and the counter is the number of the last draw |
| SendTheorems.NumbersOnTheWire | include/smpp/net/session.hpp:330-335 | frames with drawn numbers bear different numbers unless a whole period lies between their draws; a request drew after every frame before it on the wire, so only commands stand out of draw order |
| SendTheorems.CommandsOvertake | include/smpp/net/session.hpp:420-426 | a concrete run in which a command reaches the wire before one that drew earlier |
| SendOutcomes.HeaderOnTheWire | include/smpp/net/session.hpp:264-268 | every frame that takes the lock bears the command id, status and number of its operation and its own length, a command is a header alone, and behind the header of a PDU stands its encoding |
| SendOutcomes.CallsHaveOperations | include/smpp/net/session.hpp:418-426 | every call has its operation for good, with the job it was called with; a fresh command has the command id asked for and the number of the draw made for it |
| SendOutcomes.DrawsAreCounted | include/smpp/net/session.hpp:220-226 | no number is skipped: the draws are as many as the fresh commands and the requests that took the lock |
| SendOutcomes.OutcomeExactly | include/smpp/net/session.hpp:311-346 | over every run, with or without failed writes: an operation has left as sent, failed, timed out, cancelled or unserializable exactly if its write was done, failed or timed out, it came to its turn cancelled, or it came to a free lock with a PDU that cannot be encoded |
| SendOutcomes.PhaseStep | include/smpp/net/session.hpp:311-346 | what each event makes of each operation; one that comes to the lock waits exactly if the lock is taken |
| SendOutcomes.MovedExactly | include/smpp/net/session.hpp:340-346 | an operation that has completed without error has moved its whole frame, one that failed or timed out no more than that, any other that has left nothing |
| SendOutcomes.WaitersStandInOrder | include/smpp/net/session.hpp:311-318 | the waiters stand in the order in which they came to a taken lock |
| SendOutcomes.LongestWaiterIsWoken | include/smpp/net/session.hpp:344-345 | the end of a write wakes the one that has waited longest |
| SequenceNumbers.NextIsNth | include/smpp/net/session.hpp:220-226 | the k-th draw is ((k - 1) mod (2^31 - 1)) + 1, and lies in 1..0x7FFFFFFF |
| SequenceNumbers.DrawsAgreeExactly | include/smpp/net/session.hpp:220-226 | two draws agree if and only if a whole number of periods lies between them |
| Sessions.Session.constructor | include/smpp/net/session.hpp:199-206 | a new session has an empty 131072-octet buffer, nothing to send and no draw |
| Sessions.Session.Draw | include/smpp/net/session.hpp:220-226 | steps the counter and wraps to 1 after 0x7FFFFFFF |
| Sessions.Session.ShutdownSocket | include/smpp/net/session.hpp:228-234 | the socket is no longer open |
| Sessions.Session.AsyncSend | include/smpp/net/session.hpp:296-304 | starting an operation touches neither buffer nor counter |
| Sessions.Session.AsyncSendFreshCommand | include/smpp/net/session.hpp:494-498 | a command's number is drawn before the command waits for the lock |
| Sessions.Session.AsyncSendUnbind | include/smpp/net/session.hpp:420-426 | an unbind is such a command: id 0x00000006 under the next number |
| Sessions.Session.EnterBody | include/smpp/net/session.hpp:306-342 | entering the body is the step of the state machine |
| Sessions.Session.ResumeAfterWait | include/smpp/net/session.hpp:313-318 | a cancelled wait leaves without a wake-up for others; a woken one tries the lock again |
| Sessions.Session.TakeLock | include/smpp/net/session.hpp:311-342 | queues up behind a non-empty buffer; else fills it with the whole frame and begins the write, or leaves it empty when serialization fails |
| Sessions.Session.ReserveAndSerialize | include/smpp/net/session.hpp:320-329 | leaves 16 octets and appends the body; succeeds exactly when the PDU can be encoded |
| Sessions.Session.SerializeHeader | include/smpp/net/session.hpp:331-335 | the buffer becomes the frame: the header reads back with the job's own command id, status and number and the length of the whole, and the body stays |
| Sessions.Session.CancelWait | include/smpp/net/session.hpp:315-317 | a waiter leaves the queue at once; a woken one is only marked |
| Sessions.Session.LeaveQueue | include/smpp/net/session.hpp:313-317 | the search for the cancelled waiter takes it out and keeps the others in order |
| Sessions.Session.MoveOctets | include/smpp/net/session.hpp:340-342 | the socket takes any further piece of the buffer |
| Sessions.Session.FinishWrite | include/smpp/net/session.hpp:344-346 | empties the buffer and wakes the first waiter, except after a timed-out command; the operation leaves as sent, failed or timed out according to its write |
| Sessions.Session.CancelOne | include/smpp/net/session.hpp:345 | wakes the first waiter, and nobody when the queue is empty |
| HeaderCodec.DeserializeSerialize | include/smpp/net/detail/header_serialization.hpp:14-50 | a header survives being written and read, whatever follows it |
| HeaderCodec.SerializeDeserialize | include/smpp/net/detail/header_serialization.hpp:14-50 | reading and writing back gives the first 16 octets |
| HeaderCodec.HeaderLayout | include/smpp/net/detail/header_serialization.hpp:36-49 | a header is four big-endian words: length, id, status, number |
| HeaderCodec.SerializeInPlace | include/smpp/net/detail/header_serialization.hpp:28-50 | the header replaces the first 16 octets and the body behind them stays |
| Schema.RoundTripExactly | include/smpp/common/serialization.hpp:250-275 | for every well-formed table, an encodable value decodes to itself if and only if its C-strings hold no NUL, its flags keep to their masks and its parameters fit their lengths |
| Schema.DecodeNormalises | include/smpp/common/serialization.hpp:250-275 | what any octets decode to can be encoded, in no more octets than a non-empty input had, and decodes to itself |
| Schema.EncodableExactly | include/smpp/common/serialization.hpp:250-259 | serialization fails exactly when some field exceeds its limit |
| Schema.EmptyEncodingIsDefault | include/smpp/common/serialization.hpp:265-266 | a faithful PDU with an empty body is the default PDU, so reading an empty body as the default is right |
| Schema.FieldRoundTrip | include/smpp/common/serialization.hpp:18-214 | each field other than oparam is read back from in front of any octets, leaving those, if and only if its value is faithful |
| Schema.DecodedFieldIsFaithful | include/smpp/common/serialization.hpp:18-214 | a decoded field is faithful, encodable, and written no longer than it was read |
| Schema.SerializeField | include/smpp/common/serialization.hpp:228-232 | appends the field's encoding, or nothing when it fails |
| Schema.SerializeTo | include/smpp/common/serialization.hpp:250-259 | the fold appends the encodings in table order; it fails exactly when one of them does, and has then appended those of the fields before the first that fails |
| Schema.FindNulIn | include/smpp/common/serialization.hpp:123-129 | the position of the first NUL, or the length |
| Schema.DeserializeField | include/smpp/common/serialization.hpp:222-226 | takes one field off the span; on an error the span stays as it was, or, for oparam, stands before the TLV that does not fit |
| Schema.Deserialize | include/smpp/common/serialization.hpp:261-275 | the fold decodes the fields in table order; an empty body gives every member its default |
| WireFormat.EncodesExactly | include/smpp/common/serialization.hpp:18-214 | a field is written as the standard lays it out, and exactly if that is possible |
| WireFormat.DecodesExactly | include/smpp/common/serialization.hpp:18-214 | a field is read off the front of a body exactly if what stands there reads as it and the rest is what is left; an oparam leaves at most three octets |
| WireFormat.WrittenInOrder | include/smpp/common/serialization.hpp:250-259 | a PDU is its fields one after the other in the order of its table |
| WireFormat.ReadsExactly | include/smpp/common/serialization.hpp:268-274 | a non-empty body is read exactly if it is the fields in the order of the table and something that is ignored: up to three octets after an oparam, anything without one |
| WireFormat.EmptyBodyIsDefault | include/smpp/common/serialization.hpp:265-266 | for each of the 21 types, a body of no octets is read as the PDU with all its defaults |
| WireFormat.HeaderOnlyFrameDelivers | include/smpp/net/session.hpp:559-590 | a frame that is nothing but a header delivers that PDU with the header's number and status |
| WireFormat.UnreadableFrameIsInvalid | include/smpp/net/session.hpp:576-587 | a frame of no known type, or whose body its type cannot read, is delivered as it is |
| WireFormat.EachTypeIsFound | include/smpp/net/session.hpp:565-579 | no type of the variant hides another |
| PduFormats.SubmitSmOnTheWire | include/smpp/pdu/submit_sm.hpp:43-69 | a submit_sm octet by octet: the order and the limits of its 18 members |
| PduFormats.DeliverSmOnTheWire | include/smpp/pdu/deliver_sm.hpp:43-69 | the same for deliver_sm, with its two empty times |
| PduFormats.ReplaceSmOnTheWire | include/smpp/pdu/replace_sm.hpp:32-48 | the same for the nine members of replace_sm |
| PduFormats.BindOnTheWire | include/smpp/pdu/bind_receiver.hpp:30-43 | the seven members of the three requests to bind, octet by octet, with order and limits |
| PduFormats.BindRespOnTheWire | include/smpp/pdu/bind_receiver_resp.hpp:25-32 | the two members of their responses, octet by octet, with order and limits |
| PduFormats.OutbindOnTheWire | include/smpp/pdu/outbind.hpp:25-31 | the two members of outbind, octet by octet, with order and limits |
| PduFormats.DataSmOnTheWire | include/smpp/pdu/data_sm.hpp:34-51 | the eleven members of data_sm, octet by octet, with order and limits |
| PduFormats.DataSmRespOnTheWire | include/smpp/pdu/data_sm_resp.hpp:25-32 | the two members of data_sm_resp, octet by octet, with order and limits |
| PduFormats.CancelSmOnTheWire | include/smpp/pdu/cancel_sm.hpp:31-45 | the eight members of cancel_sm, octet by octet, with order and limits |
| PduFormats.QuerySmOnTheWire | include/smpp/pdu/query_sm.hpp:27-37 | the four members of query_sm, octet by octet, with order and limits |
| PduFormats.QuerySmRespOnTheWire | include/smpp/pdu/query_sm_resp.hpp:27-37 | the four members of query_sm_resp, octet by octet, with order and limits |
| PduFormats.SubmitSmRespOnTheWire | include/smpp/pdu/submit_sm_resp.hpp:24-30 | the one member of submit_sm_resp, octet by octet, with order and limits |
| PduFormats.DeliverSmRespOnTheWire | include/smpp/pdu/deliver_sm_resp.hpp:24-30 | the one member of deliver_sm_resp, always empty, octet by octet, with order and limits |
| PduFormats.AlertNotificationOnTheWire | include/smpp/pdu/alert_notification.hpp:30-43 | the seven members of alert_notification, octet by octet, with order and limits |
| PduFormats.BindIds | include/smpp/common/command_id.hpp:12-41 | alert_notification and the six PDUs about binding are found under the ids of the standard |
| PduFormats.DeliveryIds | include/smpp/common/command_id.hpp:12-41 | so are cancel_sm, data_sm, deliver_sm, their responses and generic_nack |
| PduFormats.QueryIds | include/smpp/common/command_id.hpp:12-41 | so are outbind, query_sm, replace_sm, submit_sm and their responses |
| PduFormats.ResponseIds | include/smpp/common/command_id.hpp:18-36 | each response has the id of its request with the top bit set |
| Pdus.TablesAreWellFormed | include/smpp/net/pdu_variant.hpp:14-36 | all 21 tables meet the conditions of the round-trip theorem: oparam last, limits within the length octet, sendable defaults |
| Pdus.PduRoundTripExactly | include/smpp/net/pdu_variant.hpp:14-36 | a PDU of any of the 21 types comes back from its encoding if and only if its values are faithful |
| Pdus.DecodedPduCanBeForwarded | include/smpp/net/session.hpp:565-579 | what the dispatch decodes can be sent on in no more octets, and is read as the same PDU |
| Pdus.ControlIdsAreNotPdus | include/smpp/net/session.hpp:526-550 | no type of the variant bears one of the four command ids that the session handles itself |
| Pdus.DeliverSmHasNoTimes | include/smpp/pdu/deliver_sm.hpp:58-60 | a deliver_sm is serialized only with both its time fields empty |
| Oparam.ParseSerialize | include/smpp/param/oparam.hpp:31-84 | every map with values of at most 65535 octets comes back, and its octets are used up |
| Oparam.SerializeParse | include/smpp/param/oparam.hpp:31-84 | writing back what was read gives the first occurrence of every tag, sorted by tag, without the at most three octets behind the last TLV |
| Oparam.ParseIsCanonical | include/smpp/param/oparam.hpp:31-84 | parsing, writing and parsing again gives the same map |
| Oparam.SerializeNoLonger | include/smpp/param/oparam.hpp:31-84 | what is written takes no more room than what was read |
| Oparam.ParsesExactly | include/smpp/param/oparam.hpp:31-53 | octets are parsed exactly if they are whole TLVs and at most three octets more |
| Oparam.ParseCut | include/smpp/param/oparam.hpp:36-52 | the octets left over do not change what is parsed |
| Oparam.TlvLayout | include/smpp/param/oparam.hpp:68-83 | a TLV is tag and length as big-endian words, then the value |
| Oparam.OptionalParameters.ParseFrom | include/smpp/param/oparam.hpp:31-53 | the loop over the span is the recursive parser, and the first value of a tag stays; on an error the span stands before the TLV that does not fit, and what precedes it has been stored |
| Oparam.OptionalParameters.SerializeTo | include/smpp/param/oparam.hpp:65-84 | appends the entries by increasing tag |
| Oparam.OptionalParameters.Erase | include/smpp/param/oparam.hpp:95-99 | removes the tag and tells whether it was there |
| Oparam.OptionalParameters.GetAsString | include/smpp/param/oparam.hpp:127-134 | the value, or an error without one |
| Oparam.OptionalParameters.SetAsString | include/smpp/param/oparam.hpp:146-155 | replaces the value, and refuses more than 65535 octets, so that every reachable map round-trips |
| Oparam.OptionalParameters.SetAsEnumU8 | include/smpp/param/oparam.hpp:189-195 | the value becomes the single octet |
| Flags.EsmClassRoundTrip | include/smpp/param/esm_class.hpp:46-60 | an esm_class comes back from its octet if and only if its fields keep to their masks |
| Flags.EsmClassOctetSurvives | include/smpp/param/esm_class.hpp:46-60 | every octet survives decoding and encoding |
| Flags.EsmClassBits | include/smpp/param/esm_class.hpp:46-52 | which bits of the octet each of the three fields takes |
| Flags.UdhiIsBit6 | include/smpp/utility/short_message.hpp:164-165 | user data headers are announced by bit 6 of the octet and nothing else |
| Flags.RegisteredDeliveryRoundTrip | include/smpp/param/registered_delivery.hpp:45-59 | a registered_delivery comes back if and only if its fields keep to their masks |
| Flags.RegisteredDeliveryKeepsLowFiveBits | include/smpp/param/registered_delivery.hpp:45-59 | of an octet the low five bits survive and no others |
| Flags.RegisteredDeliveryBits | include/smpp/param/registered_delivery.hpp:45-51 | which bits of the octet each of the three fields takes |
| ShortMessage.UnpackPack | include/smpp/utility/short_message.hpp:147-208 | packing never truncates the header length, and unpacking with the UDHI bit set exactly when there are headers restores headers and body |
| ShortMessage.UnpackPackOctet | include/smpp/utility/short_message.hpp:147-208 | the same over the octet that carries the esm_class, bit 6 set exactly when there are headers |
| ShortMessage.UnpacksExactly | include/smpp/utility/short_message.hpp:147-177 | a message is unpacked exactly if it keeps to the limit and, where bit 6 is set, starts with the length of octets that read as headers; and what the result is |
| ShortMessage.PacksExactly | include/smpp/utility/short_message.hpp:179-208 | packing fails exactly if headers, their length octet and body exceed 160 octets for the eleven data codings that allow so many, or else 140 |
| ShortMessage.PackUnpackExactly | include/smpp/utility/short_message.hpp:147-208 | packing what was unpacked restores the message if and only if there was no UDHI bit, or there was an element and no octet behind the last one |
| ShortMessage.ParseSerialize | include/smpp/utility/short_message.hpp:44-87 | every reachable header list comes back from its octets |
| ShortMessage.SerializeParse | include/smpp/utility/short_message.hpp:44-87 | writing back what was read gives the input without at most one last octet |
| ShortMessage.ParsesExactly | include/smpp/utility/short_message.hpp:44-69 | octets are read as these elements exactly if they are the elements, all sound, and at most one octet more |
| ShortMessage.ElementLayout | include/smpp/utility/short_message.hpp:76-87 | an element is its tag, its length in one octet and its value |
| ShortMessage.GetReadsFirst8Bit | include/smpp/utility/short_message.hpp:112-125 | get reads reference, parts and sequence number, in this order, from the first 8-bit element |
| ShortMessage.GetReadsFirst16Bit | include/smpp/utility/short_message.hpp:127-139 | without one, from the first 16-bit element; a signed char covers the high octet |
| ShortMessage.GetWithoutElement | include/smpp/utility/short_message.hpp:141-143 | without either, the message is part 1 of 1 with reference 0 |
| ShortMessage.SetLayout | include/smpp/utility/short_message.hpp:89-110 | set appends the short element exactly if the reference fits one octet |
| ShortMessage.GetAfterSetExactly | include/smpp/utility/short_message.hpp:89-144 | without a concatenation element before, get after set gives the same data if and only if char is unsigned, or the reference's low octet is below 0x80, or its high octet is 0xFF |
| ShortMessage.ConcatenationTrip | include/smpp/utility/short_message.hpp:89-208 | the same through set, pack, unpack and get |
| ShortMessage.FirstEightBitElementWins | include/smpp/utility/short_message.hpp:112-125 | once there is an 8-bit element, no number of sets changes what get returns |
| ShortMessage.UserDataHeader.ParseFrom | include/smpp/utility/short_message.hpp:44-69 | the parsing loop is the recursive parser and leaves only sound elements |
| ShortMessage.UserDataHeader.SerializeAll | include/smpp/utility/short_message.hpp:76-87 | the loop writes the elements in order |
| ShortMessage.UserDataHeader.SetMultiPartData | include/smpp/utility/short_message.hpp:89-110 | appends an 8-bit element, or a 16-bit one when the reference needs it |
| ShortMessage.PackShortMessage | include/smpp/utility/short_message.hpp:179-208 | puts length, headers and body together and refuses more than 140 or 160 octets |
| GsmConverter.ConvertGsmToUcs2 | include/smpp/utility/unicode_converter.hpp:93-116 | the loop with its one flag is the token decoder on the input without octets above 127 |
| GsmConverter.ConvertAppend | include/smpp/utility/unicode_converter.hpp:93-116 | messages convert piecewise unless the first piece ends in an open escape |
| GsmConverter.ConvertLength | include/smpp/utility/unicode_converter.hpp:93-116 | the output has even length, at most twice the input's |
| GsmConverter.ConvertOne | include/smpp/utility/unicode_converter.hpp:96-113 | a septet, and an escape with a septet, become one big-endian word each, from the default and the extension table; an escape with nothing behind it becomes nothing |
| GsmConverter.HighOctetsAreSkipped | include/smpp/utility/unicode_converter.hpp:98-99 | octets above 127 are skipped wherever they stand |
| GsmConverter.UndefinedPairIsSpace | include/smpp/utility/unicode_converter.hpp:56-91 | exactly the pairs outside the ten defined ones become a space |
| GsmConverter.AsciiStays | include/smpp/utility/unicode_converter.hpp:23-55 | digits, letters and shared punctuation keep their codes |
| GsmConverter.ConvertIsInvertible | include/smpp/utility/unicode_converter.hpp:14-116 | on septets with closed escapes and defined pairs only, the input can be computed from the output |
| GsmConverter.ConvertIsInjective | include/smpp/utility/unicode_converter.hpp:14-116 | so no two such messages convert alike |

## Left out

- ReceiveOperations.ReceiveOp.Resume: requires that the buffered and arriving octets are framed with command_length in 16..131072, because the code checks neither bound and does not define what happens outside them.
- Sessions.Session.MoveOctets: does not say which octets arrive at the peer after a failed write, because the socket does not tell how many it took.
- Boost.Asio: executors, timers, completion tokens and the plumbing of cancellation appear only as the events they cause (resumed, woken, cancelled, timed out, octets moved, error).
- Real time: a timeout is an event that may come at any moment, and nothing is claimed about durations.
- More than one receive at a time on one session; the model has at most one outstanding.
- Object moves and lifetimes: the self-pointers of the buffer are indices, and the PDUs that senders hold by reference are values that do not change while they wait.
- Fairness among senders: a newcomer may take the lock before a woken waiter, so a waiter can starve.
- Destruction of a session, and the expiry of the condition variable's timer, which is set to the end of time.
- Whether the socket still works after it was shut down: later reads and writes may succeed or fail in the model, so what is proved holds either way.
- The construction of a `user_data_header` from its part data alone, `contains` and `get_as_enum_u8`, which add one branch at most.
- `extract_unicode` beyond the choice between the 140 and 160 limits, and `convert_ascii_to_ucs2`.
- The names behind command ids, statuses, TON and NPI values: enumerations are their octets or words, as the unchecked casts of the code allow.
- Field names, exception texts, error categories and the text kept in `invalid_pdu`.
- The 32-bit limit on the length of a single buffer other than in command_length, which is taken modulo 2^32.
