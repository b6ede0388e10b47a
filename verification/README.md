# tgcalls: the protocol and media logic of calls

Dafny models of the parts of tgcalls whose correctness is not visible in any single function, and
proofs of what they promise. `dafny verify dfyconfig.toml` checks all of it.

**The reliable message layer** (`EncryptedConnection`, `Message`). One endpoint numbers its packets,
keeps messages that need an acknowledgement in a queue, and puts acknowledgements and a prefix of the
queue behind whatever it sends; the other endpoint filters packets with a 64-wide window, remembers
which counters it has acknowledged, and forgets those below the first one in each packet.

- `Prelude`, `Bytes`, `ByteOrder`, `Decimal`: options, bytes in network order, byte strings as `std::string` and
  `std::map` order them, decimal numerals.
- `Messages`, `MessageCodec`: the ten message types, their byte form, and the serializers and
  deserializers as methods over a writer and a reader.
- `Wire`: the plaintext of a packet and the parse loop. `ReplayWindow`: the window against the full
  history of counters.
- `Connection`: an endpoint as a value and what each operation makes of it. `EncryptedConnection.dfy`:
  the endpoint as the object it is (fields, buffer, reader), each method proved to do what `Connection`
  says.
- `Delivery`, `Channel`, `InOrder`, `Sending`, `Link`: two endpoints and a network that loses, doubles
  and reorders packets, and what holds over every run. `Repeats`: exactly when a message is handed up
  twice. `LateArrival`: a run in which it is. `Progress`: when nothing is lost and every message can be
  resent the queue empties. `Oversize`: messages too long to be resent, and what they block. `Recovery`:
  exactly when the queue can empty although all in flight is lost. `Requests`: when the host only answers
  requests. `HandingUp`: what of a packet is handed up, and when. `Resending`: what a packet sent carries
  of the queue. `Taking`: what a call takes, and what is bounded or in order over every run. `Reading`: what is read
  from any bytes. `Endpoint`, `Acknowledgements`: one endpoint fed with any bytes at all (timers,
  acknowledgements, counters, resends).

**Offer and answer** (`v2/ContentNegotiation`). `Negotiation` is one peer as a value, `ContentNegotiation.dfy`
the same as the object with its loops; `OfferAnswer` and `Settling` say what an offer lists and what an
answer settles; `Exchange` puts two peers on first-in first-out channels; `Draining` shows that
deliveries alone lead to rest, `CrossingOffers` what crossing offers cost, `Groups` what the contents of
offers and answers are made of and that source groups survive, `Places` that a media section keeps its place,
`FailedOffer` what follows when no offer can be made. The session-description
factory is a function handed in with every call; it is taken to return the sections it was asked for,
with distinct non-zero source numbers in an offer, and, for an answer, only when offer and options list
the same mids position by position (which is proved).

**Codec selection** (`CodecSelectHelper`): `Codecs`, `CodecSelect`. **JSON** (`third-party/json11`):
`Json` (printer and parser), `JsonStrings` and `JsonGrammar` (the parser takes exactly the texts of the
grammar), `JsonRoundTrip`, `JsonParser.dfy`. **Segment scheduling** (`group/StreamingMediaContext`):
`Streaming`, `Asking` (when parts are asked for), `Pace` (playback without gaps), `StreamingMediaContext.dfy`.
**H.264 start codes** (`group/GroupInstanceCustomImpl`):
`StartCodes`, `PlaintextHeader`.

Where the source changes fields in place or loops, the model is a class or a method with a loop whose
`ensures` equates the new state with a function of the old one; what the source promises is proved about
those functions.

## What turned out otherwise than one might expect

- At-most-once delivery fails when the network reorders: `LateArrival.ReorderingRepeats` delivers m1, m2,
  m1. `Repeats.RepeatsIffLate` gives the exact condition; `Link.AtMostOnceInOrder` is the case without
  overtaking.
- A waiting message does not always have a resend request. `Endpoint.ResendRequestedIff` says of every
  state when sending one leaves a request, `Endpoint.LoneWithoutRequestIff` over runs that the message
  waits without one exactly when it was queued into an empty queue with none requested and nothing was
  put behind anything since; `Endpoint.LoneMessageHasNoTimer` is a new endpoint. From two on there is
  always a request (`Endpoint.TimersAreExact`). If the host only answers requests and the packet of such a
  message is lost, it is never handed up unless something more is sent (`Requests.LoneLossIsFinal`).
- A message within five bytes of the packet limit is accepted and queued, but nothing can carry it again
  (`Oversize.OversizeHeadIsNeverAppended`). It is ever in a packet exactly when the queue was empty as it
  was taken; otherwise it is never sent, and blocks all that is queued behind it though nothing be lost
  (`Oversize.OversizeIsSentIff`, and `Oversize.OversizeBehindIsNotSent` for a queue in which it happens).
  If its one packet is lost it blocks as well (`Oversize.OneLossBlocks`), and so it does when it is handed up
  but the packet with its acknowledgement is lost (`Oversize.HandedUpBlocks`). Exactly: when all in flight
  is lost, the queue can still empty if and only if the other side is about to acknowledge every such
  message in it (`Recovery.RecoversIff`); otherwise only messages in front of it can still be handed up
  (`Oversize.OversizeBlocks`).
- The form of a single message without length works only below 65536 bytes
  (`Messages.SingleMessageRoundTrip`); the renomination flag of ICE parameters is never sent
  (`Messages.OnWireIsLosslessIff`).
- When offers cross, the side that was called drops its own but does not wish to negotiate again: its new
  channels stay out (`CrossingOffers.CrossingLosesChannels`).
- When the factory cannot make an offer, the offer stays pending though it was never sent: the side that made
  the call then neither offers nor answers any more, whatever comes in (`FailedOffer.CallerFallsSilent`); the
  called side recovers with the next offer it gets (`FailedOffer.CalledIsSilentUntil`).
- The first retry of the time request is not delayed, because the id of its task is 0, which also stands
  for no task (`Streaming.OnlyLaterRetriesWait`; `Streaming.FirstRetryIsAtOnce` is the run of a new stream).
- The comment on `calculateH264FramePlaintextHeaderSize` promises four-byte start codes for all units; the
  loop stops at the first slice, so of the bytes it returns the promise holds exactly when no unit behind
  that slice has a short one (`PlaintextHeader.AllLongIff`); `PlaintextHeader.SecondStaysShort` is a
  frame of nine bytes for which it fails. The start-code search does not see a code that ends the buffer
  (`StartCodes.MissesOnlyTheEnd`).

## Model

| member | source | states |
|---|---|---|
| Link.FirstDeliveriesAreInOrder | tgcalls/EncryptedConnection.cpp:238-271 | over any run and any network, in both directions: what is handed up for the first time is, in order, a beginning of what the other side queued |
| Link.NoGapBeforeAnyDelivery | tgcalls/EncryptedConnection.cpp:364-404 | whenever a message requiring an acknowledgement is handed up, every message queued before it has been already |
| Link.AtMostOnceInOrder | tgcalls/EncryptedConnection.cpp:744-760 | if packets do not overtake, though the receiver forgets counters, each message is handed up at most once and the deliveries are always a beginning of the queue |
| Link.LeavesQueueOnlyDelivered | tgcalls/EncryptedConnection.cpp:762-784 | a message leaves the queue of the sender only after the other side has handed it up; the queue ascends strictly by counter in every reachable state |
| Link.EmittedPacketsParse | tgcalls/EncryptedConnection.cpp:526-599 | every packet ever emitted is within its size limit and is parsed without error into exactly the items put into it |
| HandingUp.PacketHandsUp | tgcalls/EncryptedConnection.cpp:455-610 | of any bytes at all: refused by size or by the window, nothing changes; with an error nothing is handed up; otherwise what is handed up is, in order, the main part, each required message not met before, and each further message that needs no acknowledgement whose counter was never accepted and is less than 64 below the largest; exactly a new required message makes the acknowledgements go out at once |
| HandingUp.ArrivalHandsUp | tgcalls/EncryptedConnection.cpp:562-582 | the same over any run and any network, the window being that of the counters of all packets accepted |
| HandingUp.OptionalIsHandedUp | tgcalls/EncryptedConnection.cpp:562-582 | over any run: a message that needs no acknowledgement leaves at once as the main part of a packet, in the single form exactly when nothing else waits; when that packet arrives with a counter never accepted and less than 64 below the largest, what is handed up starts with the message |
| HandingUp.RunKeeping | tgcalls/EncryptedConnection.cpp:431-453 | over any run the window of a side stands for the counters of exactly the packets accepted there |
| Resending.QueuedIsSentAtOnce | tgcalls/EncryptedConnection.cpp:247-270 | from any state with a queue: a message that is taken goes out in a packet with the longest beginning of the queue, the new message included, that fits behind the acknowledgements; when all fits, the packet carries the whole queue |
| Resending.ServiceSendsGreatest | tgcalls/EncryptedConnection.cpp:273-297 | a service packet carries the longest beginning of the queue of which everything may go and fits, and marks exactly these messages as sent now |
| Resending.MessageSendsGreatest | tgcalls/EncryptedConnection.cpp:247-263 | a message that is sent at once is in front of the oldest acknowledgements, as many as fit, and of the longest beginning of the queue that may go and fits behind them |
| Resending.CountIsGreatest | tgcalls/EncryptedConnection.cpp:364-404 | the number of queued messages appended is the greatest that may go and fits, and only size or time ends it |
| Resending.TooSoonForService | tgcalls/EncryptedConnection.cpp:371-397 | when the first queued message was sent less than its delay ago, a service packet carries no queued message |
| Resending.SecondServiceIsTooSoon | tgcalls/EncryptedConnection.cpp:371-397 | a second service call within the delay resends nothing that the first one sent |
| Taking.QueuedIff | tgcalls/EncryptedConnection.cpp:238-271 | a message that needs an acknowledgement is queued behind the others, which stay, under the next counter, if and only if it fits a packet by itself, a counter is left and fewer than 65536 wait; otherwise the queue stays and there is no packet |
| Taking.SentIff | tgcalls/EncryptedConnection.cpp:205-236 | a message that needs none goes out at once, in front, if and only if it fits and a counter is left; nothing is queued |
| Taking.ServiceIsSentIff | tgcalls/EncryptedConnection.cpp:273-297 | a service call sends a packet with an empty part in front if and only if anything waits and a counter is left |
| Taking.QueueIsBounded | tgcalls/EncryptedConnection.cpp:303-315 | whatever comes in, the queue never holds more than 65536 messages |
| Taking.RequestsAreTimed | tgcalls/EncryptedConnection.cpp:384-403 | over any run with any bytes coming in, every request for service is one at once without a cause, or one for acknowledgements or a resend after 5 seconds in signaling and 1 second otherwise |
| Taking.AcksLeaveInOrder | tgcalls/EncryptedConnection.cpp:332-352 | over any run from any state the acknowledgements written and waiting only grow at the end: they leave in the order in which their messages were met |
| Taking.PacketsAreShort | tgcalls/EncryptedConnection.cpp:317-330 | over any run and network every packet is at most 16384 bytes in signaling and 1452 otherwise, its key included |
| Repeats.RepeatsIffLate | tgcalls/EncryptedConnection.cpp:744-760 | over any run, at either endpoint: a message is handed up twice if and only if a packet carrying it is taken after one that starts above it, itself taken after one that carried it |
| LateArrival.ReorderingRepeats | tgcalls/EncryptedConnection.cpp:751-755 | a concrete run over a reordering network in which m1 is handed up again after m2 |
| Endpoint.TimersAreExact | tgcalls/EncryptedConnection.cpp:273-297 | over any run with any bytes coming in: a timer flag is up exactly when one request of its cause is unanswered; with two or more messages waiting and counters left a resend is requested |
| Endpoint.ResendRequestedIff | tgcalls/EncryptedConnection.cpp:238-271 | from any state, sending a message that needs an acknowledgement leaves a resend requested exactly if one was, or the queue was not empty, the message is taken and a second counter was left |
| Endpoint.LoneWithoutRequestIff | tgcalls/EncryptedConnection.cpp:384-403 | over any run with any bytes coming in that leaves a counter: exactly one message waits with no resend request unanswered if and only if one waits that was put into an empty queue with none requested and nothing was put behind anything since |
| Endpoint.LoneMessageHasNoTimer | tgcalls/EncryptedConnection.cpp:258-263 | a message sent by a new endpoint is queued without a resend request |
| Acknowledgements.AcksAreConserved | tgcalls/EncryptedConnection.cpp:332-352 | over any run with any bytes coming in: the seqs met are exactly those waiting or written into an emitted packet, none waits twice; counters of emitted packets ascend strictly below 2^30 |
| Acknowledgements.CountAcksIsQuotient | tgcalls/EncryptedConnection.cpp:332-343 | the loop over waiting acknowledgements takes as many as there are five bytes for |
| Acknowledgements.ServiceWritesAcks | tgcalls/EncryptedConnection.cpp:273-297 | a service call writes the oldest acknowledgements, up to what a packet holds |
| Acknowledgements.ServicesDrainAcks | tgcalls/EncryptedConnection.cpp:273-297 | enough service calls leave no acknowledgement waiting |
| Acknowledgements.HeadIsAppendedIff | tgcalls/EncryptedConnection.cpp:364-404 | behind a main part of any size the first queued message is resent if and only if it is due and fits behind the acknowledgements |
| Acknowledgements.HeadIsResentIff | tgcalls/EncryptedConnection.cpp:371-397 | a service call resends the first queued message if and only if it is due and fits behind the five-byte empty part and the acknowledgements, of which there are as many as wait or as there are five bytes for |
| Oversize.OversizeHeadIsNeverAppended | tgcalls/EncryptedConnection.cpp:326-330 | while the first queued message is within five bytes of the limit, only acknowledgements are put behind anything that is sent |
| Oversize.OversizeCanWait | tgcalls/EncryptedConnection.cpp:238-263 | a new endpoint takes, sends and queues such a message |
| Oversize.OversizeIsSentIff | tgcalls/EncryptedConnection.cpp:247-270 | over any run, at either side: such a message that is taken is ever in a packet if and only if the queue was empty; if it was not, nothing but what had been queued before is handed up afterwards, though nothing be lost |
| Oversize.OversizeBehindIsNotSent | tgcalls/EncryptedConnection.cpp:247-270 | a short message waits, such a message is taken behind it, and the packet sent for it holds only the short one |
| Oversize.OversizeBlocks | tgcalls/EncryptedConnection.cpp:364-404 | from any reachable state with such a message anywhere in a queue, not handed up or with no acknowledgement of it waiting or arriving, and over any run in which no packet sent so far arrives behind it: it stays in the queue, and only messages in front of it are handed up |
| Oversize.OneLossBlocks | tgcalls/EncryptedConnection.cpp:238-263 | a single lost packet is enough for that |
| Oversize.HandedUpBlocks | tgcalls/EncryptedConnection.cpp:326-330 | a reachable state in which such a message was handed up and the packet with its acknowledgement is lost: it stays in the queue and nothing else is handed up |
| Recovery.RecoversIff | tgcalls/EncryptedConnection.cpp:364-404 | from any reachable state with counters left: some continuation in which nothing in flight arrives empties the queue if and only if every such message in it has its seq among the acknowledgements the other side is about to send |
| Progress.QueueCanEmpty | tgcalls/EncryptedConnection.cpp:273-297 | from any reachable state in which all messages of a queue fit a service packet and counters are left, a bounded number of service calls whose packets arrive empties the queue, and all it ever held has been handed up |
| Requests.HandedUpIffRequested | tgcalls/EncryptedConnection.cpp:273-297 | from any reachable state with a counter left, a first message that fits and no request of the other side unanswered: with all in flight lost, nothing more sent and service calls only to answer requests, that message can be handed up if and only if it was already or a request of its sender is unanswered |
| Requests.LoneLossIsFinal | tgcalls/EncryptedConnection.cpp:258-263 | from any reachable state without an unanswered request: a message sent with an empty queue whose packet is lost is never handed up unless something more is sent |
| Sending.AppendAdditionalEffect | tgcalls/EncryptedConnection.cpp:364-404 | what is appended is a prefix of the acknowledgements and a prefix of the queue; the queue stays but for the times of sending |
| Delivery.FirstsArePrefix | tgcalls/EncryptedConnection.cpp:564-582 | from gap-free deliveries to first deliveries being a beginning of an ascending queue |
| Delivery.RegisterSentAckContents | tgcalls/EncryptedConnection.cpp:744-760 | what the list of acknowledged counters contains afterwards, for the first message of a packet and for later ones, and that it stays ascending |
| Delivery.ApplyAbsorbs | tgcalls/EncryptedConnection.cpp:562-582 | the effect of a whole packet on acknowledged counters, waiting acknowledgements and deliveries is that of its required messages in order |
| ReplayWindow.WindowRefinesHistory | tgcalls/EncryptedConnection.cpp:431-453 | over any run the 64-wide list accepts a counter exactly when it was never accepted and is less than 64 below the largest accepted; it is ascending, at most 64 long and holds exactly the accepted counters still in the window |
| Wire.PacketRoundTrip | tgcalls/EncryptedConnection.cpp:526-599 | every packet of a main part, acknowledgements and resent messages is parsed without error into its items in order |
| Reading.ParsesExactly | tgcalls/EncryptedConnection.cpp:526-599 | any bytes are taken item by item as far as items stand there that may stand there: acknowledgements not first, empty parts and the single form only first; an error means that something else is left |
| Reading.ParsesIff | tgcalls/EncryptedConnection.cpp:526-599 | a packet is parsed without an error into these items if and only if it splits into them and nothing is left |
| Reading.RawIff | tgcalls/Message.cpp:381-404 | raw data is read if and only if it stands there with its id and its length, at most 1 MB |
| Sending.PacketFits | tgcalls/EncryptedConnection.cpp:317-330 | a main part that fits stays within the limit with everything appended |
| Sending.PacketIsWellFormed | tgcalls/EncryptedConnection.cpp:364-404 | what is sent has the shape the parser accepts: the single-message form only alone, acknowledgements never first |
| EncryptedConnections.EncryptedConnection.constructor | tgcalls/EncryptedConnection.cpp:90-99 | the fields of a new endpoint |
| EncryptedConnections.EncryptedConnection.ComputeNextSeq | tgcalls/EncryptedConnection.cpp:303-315 | a seq with the next counter and the flags, or none at the counter or queue limit |
| EncryptedConnections.EncryptedConnection.AppendAcksToSend | tgcalls/EncryptedConnection.cpp:332-352 | the bytes appended are those of the acknowledgements that fit, which leave the list |
| EncryptedConnections.EncryptedConnection.AppendAdditionalMessages | tgcalls/EncryptedConnection.cpp:364-404 | appends the acknowledgements and the longest prefix of the queue that is due and fits, marks it sent, requests a resend once |
| EncryptedConnections.EncryptedConnection.PrepareForSendingService | tgcalls/EncryptedConnection.cpp:273-297 | the flag of the cause is lowered; without anything to append or a counter left no packet, otherwise the bytes of an empty part, acknowledgements and due messages |
| EncryptedConnections.EncryptedConnection.PrepareForSendingMessageInternal | tgcalls/EncryptedConnection.cpp:238-271 | too large: nothing; no acknowledgement required: sent with what fits behind it; required with an empty queue: sent and queued; otherwise queued, all made due and a service packet sent, of which Resending.QueuedIsSentAtOnce says what it carries |
| EncryptedConnections.EncryptedConnection.PrepareForSending | tgcalls/EncryptedConnection.cpp:205-236 | the single form only with nothing to append and no acknowledgement required; state and bytes are those about which the results of Link speak |
| EncryptedConnections.EncryptedConnection.EncryptPrepared | tgcalls/EncryptedConnection.cpp:406-409 | the counter reported with a packet is that of its first seq |
| EncryptedConnections.EncryptedConnection.RegisterIncomingCounter | tgcalls/EncryptedConnection.cpp:431-453 | verdict and new list of the replay window |
| EncryptedConnections.EncryptedConnection.RegisterSentAck | tgcalls/EncryptedConnection.cpp:744-760 | whether the counter is new, and the list with earlier ones forgotten for the first of a packet |
| EncryptedConnections.EncryptedConnection.SendAckPostponed | tgcalls/EncryptedConnection.cpp:762-768 | a seq waits at most once |
| EncryptedConnections.EncryptedConnection.AckMyMessage | tgcalls/EncryptedConnection.cpp:770-784 | the first queued message with that seq, read from its bytes, leaves the queue |
| EncryptedConnections.EncryptedConnection.TakeMessage | tgcalls/EncryptedConnection.cpp:562-582 | whether a message that was read is skipped, and what is remembered of it, as HandingUp.PacketHandsUp uses it |
| EncryptedConnections.EncryptedConnection.ProcessItem | tgcalls/EncryptedConnection.cpp:542-588 | one round of the parse loop: an error that changes nothing, or an item whose effects are applied and fewer unread bytes |
| EncryptedConnections.EncryptedConnection.ProcessPacket | tgcalls/EncryptedConnection.cpp:526-613 | the loop over a packet of either form: new state and messages handed up, none after an error though earlier effects stay; it ends because the unread bytes get fewer |
| EncryptedConnections.EncryptedConnection.HandleIncomingPacket | tgcalls/EncryptedConnection.cpp:455-489 | size check, replay window, then the packet |
| EncryptedConnections.EncryptedConnection.RequestAcks | tgcalls/EncryptedConnection.cpp:601-610 | new messages are acknowledged at once, repeated ones when the timer fires |
| Messages.MessageRoundTrip | tgcalls/Message.cpp:292-379 | every message, followed by any bytes, is read back up to what is never sent and leaves exactly those bytes; ids do not clash |
| Messages.SingleMessageRoundTrip | tgcalls/Message.cpp:193-215 | the form without length is read back if and only if the data is shorter than 65536 bytes |
| Messages.OnWireIsLosslessIff | tgcalls/Message.cpp:121-131 | a message arrives unchanged if and only if it has no renomination flag and no scalability modes |
| Messages.ReadsBackParameters | tgcalls/Message.cpp:33-67 | format parameters in map order are read back into the same map |
| Reading.StringIff | tgcalls/Message.cpp:18-31 | a string is read if and only if its length, below 65536, and its bytes stand there |
| Reading.RequiresAckIff | tgcalls/Message.h:34-102 | exactly sound and picture data, the ids 5 and 6, need no acknowledgement |
| Reading.MediaStateIsRead | tgcalls/Message.cpp:106-119 | of the media state bit 0 tells of sound and bits 1 and 2 of the picture, 3 there is an error, and higher bits are ignored |
| Reading.NetworkStatusIsRead | tgcalls/Message.cpp:273-284 | a missing second byte of the network status means no request for low data use |
| MessageCodec.SerializeString | tgcalls/Message.cpp:11-16 | appends exactly the bytes that DeserializeString takes back (Messages.ReadsBackString) |
| MessageCodec.DeserializeString | tgcalls/Message.cpp:18-31 | the string and the unread bytes, or failure, as the byte form says |
| MessageCodec.SerializeFormat | tgcalls/Message.cpp:33-42 | appends name, count and every parameter in map order, the bytes that ReadsBackParameters reads |
| MessageCodec.DeserializeParameters | tgcalls/Message.cpp:52-66 | the map built by the loop, keeping the first of equal keys |
| MessageCodec.DeserializeFormat | tgcalls/Message.cpp:44-67 | the format that the bytes stand for and the bytes behind it, or failure; never scalability modes |
| MessageCodec.SerializeCandidates | tgcalls/Message.cpp:121-131 | appends count, candidates and ICE parameters, the bytes about which MessageRoundTrip speaks |
| MessageCodec.DeserializeCandidatesList | tgcalls/Message.cpp:133-154 | the message the bytes stand for and the bytes behind it, or failure on any truncation; never the renomination flag |
| MessageCodec.SerializeVideoFormats | tgcalls/Message.cpp:156-165 | appends count, formats and number of encoders, the bytes about which MessageRoundTrip speaks |
| MessageCodec.DeserializeVideoFormats | tgcalls/Message.cpp:167-191 | the message read; more encoders than formats is an error |
| MessageCodec.SerializeBuffer | tgcalls/Message.cpp:193-199 | the bytes appended, the length truncated to 16 bits |
| MessageCodec.DeserializeBuffer | tgcalls/Message.cpp:201-215 | the data read, the rest of the packet modulo 2^16 in the single form |
| MessageCodec.DeserializeSmall | tgcalls/Message.cpp:106-119 | state bits 3 are an error; a missing second byte of the network status means no low-data request |
| MessageCodec.SerializeMessageWithSeq | tgcalls/Message.cpp:351-366 | the bytes of an item as PacketRoundTrip parses it |
| MessageCodec.SerializeRawMessageWithSeq | tgcalls/EncryptedConnection.cpp:72-86 | the bytes of an item as PacketRoundTrip parses it |
| MessageCodec.DeserializeMessage | tgcalls/Message.cpp:368-379 | the message that the leading id stands for, read from the rest |
| MessageCodec.DeserializeRawMessage | tgcalls/Message.cpp:381-404 | the raw data read, at most 1 MB |
| Exchange.AnswersMeetTheirOffers | tgcalls/v2/ContentNegotiation.cpp:372-393 | under every interleaving, crossing offers included, what arrives is an answer exactly when the peer has an offer pending with its exchange id |
| Exchange.QuiescenceMeansAgreement | tgcalls/v2/ContentNegotiation.cpp:606-626 | when nothing is in flight no offer is pending, and each side sends exactly the contents that the other receives |
| Exchange.ChannelsAgreedIff | tgcalls/v2/ContentNegotiation.cpp:586-596 | when nothing is in flight and nobody wants to negotiate, all channels of the caller are agreed on, and those of the called side if and only if its last answered offer had them all, that is, if and only if it dropped no offer with more channels since then |
| Draining.DeliveriesEnd | tgcalls/v2/ContentNegotiation.cpp:372-393 | from any reachable state, deliveries alone in any order are at most five, and one more can be made as long as anything is in flight |
| Draining.DrainsToAgreement | tgcalls/v2/ContentNegotiation.cpp:372-393 | from any reachable state at most five deliveries lead to a state with nothing in flight, where each side sends exactly the contents that the other receives |
| Groups.AgreedAreAsOffered | tgcalls/v2/ContentNegotiation.cpp:551-597 | over any run of both peers: each channel taken as agreed is one of the last answered offer, with the source number and the groups of that offer; at rest the other side receives it with these |
| Groups.AnswerKeepsGroups | tgcalls/v2/ContentNegotiation.cpp:551-569 | every content of an answer is that of the factory's section to receive an offered content, with source number and groups as offered and all else as in the section |
| Groups.OfferIsOfSections | tgcalls/v2/ContentNegotiation.cpp:344-369 | an offer has exactly the contents of the sections that send, each with the source number that the channel of its mid is given |
| Groups.ReachableOfferOptions | tgcalls/v2/ContentNegotiation.cpp:295-342 | in every reachable state of both peers the options of the next offer are those that OfferOptionsByPlace describes |
| Places.SectionsKeepPlace | tgcalls/v2/ContentNegotiation.cpp:295-342 | from any reachable state: what an offer or an answer of a side lists, every later offer and answer of that side lists at the same places, whatever happens in between |
| Places.NewChannelsAreOffered | tgcalls/v2/ContentNegotiation.cpp:112-156 | in every reachable state a side with a channel that its last offer did not have, and any side at the start, makes an offer as soon as none is pending, for all its channels |
| Places.AddedIsOffered | tgcalls/v2/ContentNegotiation.cpp:112-156 | an added channel is in the next offer with its kind and extensions, to be sent, under an id that no other channel has |
| FailedOffer.CallerFallsSilent | tgcalls/v2/ContentNegotiation.cpp:282-347 | when the factory cannot make an offer of the side that made the call, no run of calls makes it offer or answer again as long as nothing comes in under the id that was never sent |
| FailedOffer.CalledIsSilentUntil | tgcalls/v2/ContentNegotiation.cpp:372-393 | the called side sends nothing either until the next contents come in, which it answers, its own offer dropped |
| Exchange.OrderIsAppendOnly | tgcalls/v2/ContentNegotiation.cpp:328-342 | over any run the order of ids only grows at its end and has no id twice, on both sides |
| CrossingOffers.CrossingLosesChannels | tgcalls/v2/ContentNegotiation.cpp:377-388 | from any state with nothing in flight: if both offer at once and the called side has a channel not agreed on, afterwards nobody wants to negotiate and that channel is still not agreed on |
| CrossingOffers.FirstOffersMayCross | tgcalls/v2/ContentNegotiation.cpp:282-293 | such a run exists at the very start of a call |
| OfferAnswer.OfferListsEveryId | tgcalls/v2/ContentNegotiation.cpp:301-342 | an offer has one option for each id ever seen, in the order first seen, with different mids; each channel is there as it was added and nothing else sends (sections 6 and 8 of RFC 3264) |
| OfferAnswer.AnswerFollowsOffer | tgcalls/v2/ContentNegotiation.cpp:404-539 | the rebuilt offer and the answer options list the same mids position by position, and the order only grows |
| OfferAnswer.AnswerReceivesOffered | tgcalls/v2/ContentNegotiation.cpp:404-539 | the answer has one option for each id, and those that receive are exactly the offered ids |
| OfferAnswer.OfferOptionsByPlace | tgcalls/v2/ContentNegotiation.cpp:295-342 | at the place of an id: the channel as it was added, or the content received there with its kind and extensions, or a placeholder when the id is neither |
| OfferAnswer.CurrentDescriptionByPlace | tgcalls/v2/ContentNegotiation.cpp:170-269 | at the place of an id: the content received, or the channel sent as agreed, or a placeholder |
| OfferAnswer.AnswerLinesByPlace | tgcalls/v2/ContentNegotiation.cpp:398-539 | at the place of an id: an offered content sent there and received here as offered, or an own channel received there and sent here as agreed, or a placeholder |
| OfferAnswer.DescribedAreSent | tgcalls/v2/ContentNegotiation.cpp:606-626 | what a side says it sends are the contents of exactly the agreed channels that were added there |
| OfferAnswer.SsrcIdsDiffer | tgcalls/v2/ContentNegotiation.cpp:38-40 | decimal source numbers are equal only for equal numbers |
| OfferAnswer.IdKindsDiffer | tgcalls/v2/ContentNegotiation.cpp:599-604 | ids of source numbers, of channels and of placeholders never meet |
| Settling.OfferSettles | tgcalls/v2/ContentNegotiation.cpp:344-369 | an offer gives every channel a source number of its own, and its contents are for exactly these channels |
| Settling.AnswerSettles | tgcalls/v2/ContentNegotiation.cpp:551-574 | an answer has exactly the source numbers of the offer, each once, and is what the answering side now receives |
| Settling.SetAnswerSettles | tgcalls/v2/ContentNegotiation.cpp:576-597 | the offering side takes the contents of the answer as they are, for exactly the channels it offered |
| ContentNegotiations.ContentNegotiationContext.AddOutgoingChannel | tgcalls/v2/ContentNegotiation.cpp:112-156 | the channel goes behind the others, nothing else changes but the wish to negotiate; its id is that of the number taken |
| ContentNegotiations.ContentNegotiationContext.CurrentSessionDescription | tgcalls/v2/ContentNegotiation.cpp:170-269 | sections for the known ids in order: received, sent, or a placeholder when an id is neither |
| ContentNegotiations.ContentNegotiationContext.OptionsForKnown | tgcalls/v2/ContentNegotiation.cpp:301-326 | options for the known ids in order, first match in each list, a placeholder when there is none |
| ContentNegotiations.ContentNegotiationContext.OptionsForNew | tgcalls/v2/ContentNegotiation.cpp:328-342 | the nested loops add each id not in the order yet, once, with its option, and leave the known ones |
| ContentNegotiations.ContentNegotiationContext.TakeOffer | tgcalls/v2/ContentNegotiation.cpp:354-367 | the contents of the sections that send, in order, and their source numbers given to the channels with their mids |
| ContentNegotiations.ContentNegotiationContext.GetPendingOffer | tgcalls/v2/ContentNegotiation.cpp:282-370 | no offer and no change without a wish to negotiate or with an offer pending; otherwise the state and the offer about which OfferSettles and OfferListsEveryId speak |
| ContentNegotiations.ContentNegotiationContext.LinesForKnown | tgcalls/v2/ContentNegotiation.cpp:404-508 | sections of the rebuilt offer and options of the answer for the known ids, own channels received there and sent here |
| ContentNegotiations.ContentNegotiationContext.LinesForOffered | tgcalls/v2/ContentNegotiation.cpp:510-539 | each offered id never seen before is added once to the order, the rebuilt offer and the options |
| ContentNegotiations.ContentNegotiationContext.TakeAccepted | tgcalls/v2/ContentNegotiation.cpp:551-569 | the contents of the sections that receive, with source number and groups of the offered content of that mid, as Groups.AnswerKeepsGroups says |
| ContentNegotiations.ContentNegotiationContext.GetAnswer | tgcalls/v2/ContentNegotiation.cpp:395-574 | the state and the answer about which AnswerSettles, AnswerFollowsOffer and AnswerReceivesOffered speak; an answer that cannot be made leaves only the longer order |
| ContentNegotiations.ContentNegotiationContext.SetAnswer | tgcalls/v2/ContentNegotiation.cpp:576-597 | nothing happens unless the exchange ids agree; then the channels agreed on are those with the source numbers of the answer, as SetAnswerSettles uses |
| ContentNegotiations.ContentNegotiationContext.SetRemoteNegotiationContent | tgcalls/v2/ContentNegotiation.cpp:372-393 | contents with the pending exchange id are taken as its answer; others are answered, except that the caller with an offer pending ignores them and the called side first drops its own |
| ContentNegotiations.ContentNegotiationContext.GetCoordinatedState | tgcalls/v2/ContentNegotiation.cpp:606-626 | the contents of the agreed channels that still have a description, and those received, as QuiescenceMeansAgreement compares them |
| Codecs.PeersAgreeOnCodecs | tgcalls/CodecSelectHelper.cpp:153-301 | two peers that compose their formats, swap them as bytes and compute on their own have identical codec lists with identical payload numbers, whatever order std::sort leaves among equals and whatever counts as the same codec |
| Codecs.BothComputeTheSame | tgcalls/CodecSelectHelper.cpp:174-242 | the common list is the same on both sides |
| Codecs.ChosenEncoderIsUnderstood | tgcalls/CodecSelectHelper.cpp:200-233 | the format at the encoder index matches a format of the other side |
| Codecs.ChosenIsFirst | tgcalls/CodecSelectHelper.cpp:200-233 | the chosen format is the first of the own encoders with a name that matches any format of the other side; none is chosen if and only if no such encoder matches |
| Codecs.ChosenIsPreferred | tgcalls/CodecSelectHelper.cpp:153-233 | between composed messages the chosen format has the least priority value among the own encoders that the other side understands |
| Codecs.CommonListContains | tgcalls/CodecSelectHelper.cpp:200-217 | a format is in the common list if and only if it is an encoder of one side that some decoder of the other matches, or the first such match |
| Codecs.CommonAscends | tgcalls/CodecSelectHelper.cpp:219-242 | the common list ascends by name and, among equal names, by parameters |
| Codecs.ParametersLessIff | tgcalls/CodecSelectHelper.cpp:16-24 | parameters are compared as a dictionary of pairs |
| Codecs.PriorityOrders | tgcalls/CodecSelectHelper.cpp:49-64 | preferred codecs come before all others, in the preferred order, and the others in the supported order |
| Codecs.EveryFormatHasCodecIff | tgcalls/CodecSelectHelper.cpp:244-301 | a common format, those added for loss included, has a codec with its number exactly when the formats in front of it leave one of the 32 numbers |
| Codecs.UniqueIsAppended | tgcalls/CodecSelectHelper.cpp:88-103 | the first list stays in front, and behind it comes exactly what of the other is not in it, in the order of the other |
| Codecs.EqualsIgnoreCaseIff | tgcalls/CodecSelectHelper.cpp:49-64 | names are equal if they differ in capitals only |
| Codecs.AssignedNumbers | tgcalls/CodecSelectHelper.cpp:244-301 | entry k has number 96 + k, at most 127; a retransmission codec directly follows the codec it names; the encoder index points at the codec of the chosen format |
| Codecs.EncoderHasCodecIff | tgcalls/CodecSelectHelper.cpp:267-299 | the chosen encoder gets a codec exactly when the common formats in front of it, two numbers each but one for an error correction, leave one of the 32 payload numbers; without error corrections, when it is one of the first 16 |
| Codecs.ComposedFormats | tgcalls/CodecSelectHelper.cpp:153-172 | a composed message has exactly the supported encoders in front, all decoders, and no scalability modes |
| CodecSelect.FormatPriority | tgcalls/CodecSelectHelper.cpp:49-64 | preferred codecs first, then in supported order, -1 for the others |
| CodecSelect.FilterAndSortEncoders | tgcalls/CodecSelectHelper.cpp:71-86 | a permutation of exactly the supported formats, ascending by priority |
| CodecSelect.AppendUniqueFormats | tgcalls/CodecSelectHelper.cpp:88-103 | the list and what of the other is not in it |
| CodecSelect.RemoveScalabilityModes | tgcalls/CodecSelectHelper.cpp:132-149 | modes gone, and repetitions too if there were modes |
| CodecSelect.RemoveRepeated | tgcalls/CodecSelectHelper.cpp:141-147 | erasing from the back leaves the first of each |
| CodecSelect.ComposeSupportedFormats | tgcalls/CodecSelectHelper.cpp:153-172 | a message about which ComposedFormats and PeersAgreeOnCodecs speak |
| CodecSelect.AddCommonAndFindFirst | tgcalls/CodecSelectHelper.cpp:200-217 | every encoder that a decoder matches and its first match, each once, and the first such encoder with a name |
| CodecSelect.ComputeCommonFormats | tgcalls/CodecSelectHelper.cpp:174-242 | a sorted permutation of the common formats, and the index of the first of the own encoders in it, about which BothComputeTheSame and ChosenIsFirst speak |
| CodecSelect.AssignPayloadTypesAndDefaultCodecs | tgcalls/CodecSelectHelper.cpp:244-301 | the list and index about which AssignedNumbers and EncoderHasCodecIff speak, the breaks at 127 included |
| JsonRoundTrip.RoundTripIff | tgcalls/third-party/json11.cpp:645-745 | parsing what was printed gives the value back if and only if it is nested at most 200 deep, for nulls, booleans, integers, any byte strings, arrays and objects |
| JsonRoundTrip.ValueParses | tgcalls/third-party/json11.cpp:645-729 | the same for a value anywhere in a text, at any depth, leaving what follows |
| JsonRoundTrip.StringRoundTrip | tgcalls/third-party/json11.cpp:78-113 | any bytes, control characters and U+2028 and U+2029 included, are read back (section 7 of RFC 8259) |
| JsonRoundTrip.NumberRoundTrip | tgcalls/third-party/json11.cpp:574-596 | integers are read back |
| JsonRoundTrip.PrintedIsSafe | tgcalls/third-party/json11.cpp:78-113 | what is printed for a string holds no control character and neither U+2028 nor U+2029 |
| JsonGrammar.ParsesIff | tgcalls/third-party/json11.cpp:645-745 | a text is parsed as a value if and only if the grammar allows it (sections 2 to 7 of RFC 8259), with any white space and any spelling of strings and numbers, nested at most 200 deep, and that value is what the text writes |
| JsonGrammar.ObjectHoldsLast | tgcalls/third-party/json11.cpp:671-702 | an object read holds, in the order of the keys, for each key the value of the last member with it, and nothing else |
| JsonStrings.StringIff | tgcalls/third-party/json11.cpp:481-568 | a string is read if and only if it is spelled from plain bytes, the eight short escapes and escaped code points, and stands for what these mean, two escapes that are a surrogate pair for one code point |
| JsonStrings.Utf8Iff | tgcalls/third-party/json11.cpp:456-475 | what is put out for a code point is its one UTF-8 encoding (section 3 of RFC 3629) |
| JsonStrings.EveryPointHasAPair | tgcalls/third-party/json11.cpp:529-543 | every code point beyond the first 65536 is what a surrogate pair stands for (section 2.2 of RFC 2781) |
| JsonStrings.NumberIff | tgcalls/third-party/json11.cpp:574-623 | a number is read if and only if it is digits without a leading zero, with a fraction and an exponent or without, up to where it cannot go on; an integer as its value |
| ByteOrder.LessIff | tgcalls/third-party/json11.cpp:127-139 | the order of keys is that of a dictionary |
| JsonParsers.DumpStringTo | tgcalls/third-party/json11.cpp:78-113 | the text appended by the loop, which looks up to two bytes ahead |
| JsonParsers.DumpArrayTo | tgcalls/third-party/json11.cpp:115-125 | the loop that writes separators in front of all but the first appends the text of the array, for which RoundTripIff holds |
| JsonParsers.DumpObjectTo | tgcalls/third-party/json11.cpp:127-139 | the same for the members of an object in map order |
| JsonParsers.DumpTo | tgcalls/third-party/json11.cpp:141-143 | appends the text of any value, for which RoundTripIff holds |
| JsonParsers.DumpText | tgcalls/third-party/json11.hpp:157-161 | the text of any value by itself, which ParseText gives back as RoundTripIff says |
| JsonParsers.JsonParser.GetNextToken | tgcalls/third-party/json11.cpp:443-450 | the next character that is no white space, or failure |
| JsonParsers.JsonParser.ParseStringLiteral | tgcalls/third-party/json11.cpp:481-568 | the string read, escapes and surrogate pairs resolved, or failure |
| JsonParsers.JsonParser.ParseNumberLiteral | tgcalls/third-party/json11.cpp:574-623 | the number read, or failure |
| JsonParsers.JsonParser.ExpectText | tgcalls/third-party/json11.cpp:630-639 | the literal read, or failure |
| JsonParsers.JsonParser.ParseObject | tgcalls/third-party/json11.cpp:671-702 | the members read, later ones replacing earlier ones of the same key |
| JsonParsers.JsonParser.ParseArray | tgcalls/third-party/json11.cpp:704-726 | the items read; after a failure it steps back but stays failed |
| JsonParsers.JsonParser.ParseJson | tgcalls/third-party/json11.cpp:645-729 | the value read, or failure; the index never leaves the text |
| JsonParsers.ParseText | tgcalls/third-party/json11.cpp:733-745 | the value of a whole text, or null |
| Streaming.SchedulerIsBounded | tgcalls/group/StreamingMediaContext.cpp:627-718 | in every reachable state at most three segments are available or pending, nothing is pending while the start is unknown, pending timestamps are consecutive |
| Streaming.RequestFills | tgcalls/group/StreamingMediaContext.cpp:672-717 | once the start is known the request loop ends with exactly three |
| Streaming.RebufferingEnds | tgcalls/group/StreamingMediaContext.cpp:276-290 | when the pending segments are finished there is exactly as much to play as rebuffering waits for |
| Streaming.RebufferingNeedsThree | tgcalls/group/StreamingMediaContext.cpp:276-290 | waiting playback goes on waiting if and only if fewer than three segments are available |
| Streaming.PromotionInOrder | tgcalls/group/StreamingMediaContext.cpp:807-942 | a check makes available exactly the longest finished prefix, in order, its timestamps one segment apart and followed by the first still pending |
| Streaming.OnlyLaterRetriesWait | tgcalls/group/StreamingMediaContext.cpp:646-663 | after a failed time request the next one goes out at once if and only if it was the first |
| Streaming.FirstRetryIsAtOnce | tgcalls/group/StreamingMediaContext.cpp:629-663 | the run of any new stream: after the first failed time request the next render asks again, whenever it is; after the second it does not |
| Asking.EveryPartIsCaredFor | tgcalls/group/StreamingMediaContext.cpp:807-905 | after any check each pending part is finished, asked for or held back until a time that lies ahead, except in segments that are new because others have just become available |
| Asking.AlwaysCaredFor | tgcalls/group/StreamingMediaContext.cpp:807-905 | in every reachable state: once the start is known exactly three segments are available or pending, and every step that checks leaves each pending part finished, asked for, or held back until a time that lies ahead |
| Asking.NotAskedBefore | tgcalls/group/StreamingMediaContext.cpp:646-663 | while a repetition of the time request is put off, no run asks for the time until its task runs |
| Asking.OnlyItsTaskAsks | tgcalls/group/StreamingMediaContext.cpp:651-663 | that task asks for the time, and no other step does |
| Asking.MissingPartStays | tgcalls/group/StreamingMediaContext.cpp:807-905 | over any step a missing part that is not answered itself stays pending unless all are dropped; a step that checks asks for it, unless it is held back beyond then, and nothing else happens to it |
| Asking.NotReadyHoldsBack | tgcalls/group/StreamingMediaContext.cpp:866-870 | a part that is not ready stays missing, is not asked for again in the same step, and is held back for 100 milliseconds |
| Asking.SuccessFinishes | tgcalls/group/StreamingMediaContext.cpp:849-856 | a part answered with success is finished: its segment is pending with it or has become available |
| Asking.OnlyNotReadyHoldsBack | tgcalls/group/StreamingMediaContext.cpp:857-871 | over any run a part is held back only until 100 milliseconds after an answer that was not ready |
| Asking.WaitCanEnd | tgcalls/group/StreamingMediaContext.cpp:807-942 | from every reachable state whose start is known, past all that is held back: a render, then asking for parts and successful answers to parts asked for, lead to as much to play as a wait needs, and the next render plays |
| Asking.TimeStarts | tgcalls/group/StreamingMediaContext.cpp:639-667 | a usable time makes three segments pending, from two whole segments before it on |
| Asking.RestartStarts | tgcalls/group/StreamingMediaContext.cpp:857-892 | an answer that drops all pending segments: three in all are available or pending again from the whole segment of the response on, each part asked for at once; a unified stream asks for the time instead |
| Pace.PlaybackKeepsPace | tgcalls/group/StreamingMediaContext.cpp:275-549 | over any run without a restart that never renders with nothing to play: segments are played in the order of their timestamps without a gap, and each begins one segment duration after the one before |
| Pace.PlaybackBeginsNow | tgcalls/group/StreamingMediaContext.cpp:275-300 | over any run: when a wait is over, and at the first render, the segment in front is played from that time on |
| Pace.WaitsIff | tgcalls/group/StreamingMediaContext.cpp:276-290 | in every reachable state: after playing, playback waits, for three seconds, if and only if there was nothing to play, or it waited and there are fewer than three segments |
| StreamingContexts.StreamingMediaContext.RequestSegmentsIfNeeded | tgcalls/group/StreamingMediaContext.cpp:627-718 | asks for the time while the start is unknown, otherwise for segments until more than the buffer is available or pending, as RequestFills uses; it ends |
| StreamingContexts.StreamingMediaContext.AskForParts | tgcalls/group/StreamingMediaContext.cpp:813-905 | which parts are asked for, about which Asking.MissingPartStays and AlwaysCaredFor speak, and whether all are there |
| StreamingContexts.StreamingMediaContext.CheckPendingSegments | tgcalls/group/StreamingMediaContext.cpp:799-958 | the loop that erases while it goes promotes the finished prefix, asks for the missing parts of the rest, and asks for more segments only after a promotion |
| StreamingContexts.StreamingMediaContext.TimeReceived | tgcalls/group/StreamingMediaContext.cpp:639-667 | a usable time sets the start two segments back and asks for segments; any other schedules one retry with the next id |
| StreamingContexts.StreamingMediaContext.DelayedTimeRequest | tgcalls/group/StreamingMediaContext.cpp:651-663 | a retry whose id is not the current one does nothing |
| StreamingContexts.StreamingMediaContext.PartReceived | tgcalls/group/StreamingMediaContext.cpp:846-892 | success finishes the part, not ready delays it by 100 ms or starts over at timestamp 0, resync starts over from the boundary or the unknown |
| StreamingContexts.StreamingMediaContext.PlaySegment | tgcalls/group/StreamingMediaContext.cpp:275-549 | playback that waits for more than is available changes nothing; without segments it starts to wait for three; a segment that is over leaves the list and moves the reference by its duration |
| StreamingContexts.StreamingMediaContext.RenderSegments | tgcalls/group/StreamingMediaContext.cpp:272-553 | playing, then asking, then checking, in this order |
| StartCodes.FindNextH26XNaluIndex | tgcalls/group/GroupInstanceCustomImpl.cpp:1293-1337 | the skipping search finds what a byte-by-byte scan over start indices below size - 3 finds, and reports its length |
| StartCodes.ScanFindsFirst | tgcalls/group/GroupInstanceCustomImpl.cpp:1293-1337 | the scan gives the first start code there, and none if and only if there is none |
| StartCodes.MissesOnlyTheEnd | tgcalls/group/GroupInstanceCustomImpl.cpp:1306-1336 | the search finds nothing in a buffer with a start code if and only if its only code ends it |
| StartCodes.EndsWithCode | tgcalls/group/GroupInstanceCustomImpl.cpp:1293-1337 | any bytes without a start code followed by the three bytes of one: the search finds nothing |
| StartCodes.ValidateEncryptedFrame | tgcalls/group/GroupInstanceCustomImpl.cpp:1348-1391 | a frame is accepted if and only if no start code, short of one that ends it, takes in a byte behind the plaintext prefix |
| PlaintextHeader.HeaderIsImage | tgcalls/group/GroupInstanceCustomImpl.cpp:1209-1229 | the plaintext part of the rewritten frame is the plaintext part of the frame rewritten, what follows is unchanged, and the size exceeds the result only when the estimate exceeds the frame |
| PlaintextHeader.LongStartCode | tgcalls/group/GroupInstanceCustomImpl.cpp:1137-1141 | where a short start code was collected there is now a long one |
| PlaintextHeader.AllLongIff | tgcalls/group/GroupInstanceCustomImpl.cpp:1187-1197 | in the bytes of the rewritten frame all units have start codes of four bytes if and only if no unit behind the first slice has a short one |
| PlaintextHeader.UnitIsLongIff | tgcalls/group/GroupInstanceCustomImpl.cpp:1130-1226 | in those bytes every unit still has a start code, of four bytes unless it was short and behind the first slice |
| PlaintextHeader.SecondStaysShort | tgcalls/group/GroupInstanceCustomImpl.cpp:1187-1197 | a frame of two slices whose second unit still has a start code of three bytes, behind 0x88 |
| PlaintextHeader.ZerosCanBeRemoved | tgcalls/group/GroupInstanceCustomImpl.cpp:1209-1226 | without the inserted zeros the rewritten frame is the frame again |
| PlaintextHeader.PlaintextIsTight | tgcalls/group/GroupInstanceCustomImpl.cpp:1130-1207 | the plaintext part reaches exactly as far as something must stay readable in a unit up to the first slice: headers, fragment and aggregate headers, whole parameter sets and supplemental information, and of slices what tells their parameter set |
| PlaintextHeader.HeaderEndIsMost | tgcalls/group/GroupInstanceCustomImpl.cpp:1143-1203 | what is measured of a unit is the most that must stay readable of it |
| PlaintextHeader.MeasureUnit | tgcalls/group/GroupInstanceCustomImpl.cpp:1143-1203 | where the readable part of a unit ends, by its kind |
| PlaintextHeader.CollectHeader | tgcalls/group/GroupInstanceCustomImpl.cpp:1130-1207 | the offsets collected and the greatest end, up to the first slice |
| PlaintextHeader.InsertZeros | tgcalls/group/GroupInstanceCustomImpl.cpp:1209-1226 | the frame with a zero in front of each collected start code |
| PlaintextHeader.CalculatePlaintextHeader | tgcalls/group/GroupInstanceCustomImpl.cpp:1110-1230 | rewritten frame and header size |

## Left out

- Encryption, message keys and hashing: a packet that arrives is one the peer made, as for an
  authenticated channel; `encryptRawPacket`, `decryptRawPacket` and the full-plaintext pair bypass the
  counters and are not modelled.
- Clocks, timers and callbacks are inputs: `now` is a parameter, requests for service, time and segments
  are recorded, and a run may answer them at any time.
- Progress.QueueCanEmpty: says that there are service calls that empty the queue when their packets arrive;
  how often the host makes them, and how many packets a real network loses, is not modelled.
- Requests.HandedUpIffRequested: leaves out the states in which a request of the other side is unanswered,
  whose answer may or may not make the sender ask for a service call.
- The text form of ICE candidates, certificates, transport descriptions and the fields of contents that
  negotiation does not look at are opaque; converting contents to sections and back keeps them.
- `removeOutgoingChannel`: its loop runs over the size of another list than the one it indexes; the set of
  channels only grows here. The ssrc groups of a pending channel are written but never read.
- CodecSelect.ComputeCommonFormats: the same-codec test and the supported encoders are parameters, since
  WebRTC and the platform decide them; feedback parameters of codecs are not modelled.
- CodecSelect.Sort: is an insertion sort standing in for `std::sort`; callers use only that the result is a
  sorted permutation.
- JsonParsers.JsonParser.ParseNumberLiteral: keeps the text of a number with fraction or exponent instead of
  its value, and takes integers of any length as exact, because `strtod` belongs to the C library; error
  messages, comments and `parse_multi` are left out.
- Decoding, mixing, volumes, video sinks and quality updates of `StreamingMediaContext`: playback enters only
  through the time and through whether the first segment has been played to its end.
- StreamingContexts.StreamingMediaContext.PlaySegment: takes as a parameter whether the media of the first
  segment are exhausted, because that is decided by decoders outside this model.
- StreamingContexts.StreamingMediaContext.RenderSegments: passes that parameter on, and is weaker by the same.
- PlaintextHeader.CalculatePlaintextHeader: takes the units that `H264::FindNaluIndices` finds and the bytes
  that a slice needs for its PPS id as parameters; sizes are below 2^32.
- StartCodes.ValidateEncryptedFrame: has the one plaintext range in front of the frame that the function ever
  puts into its list.
- Managers, capture, devices, groups beyond the functions above, thread marshalling and logging.
