# Verified model of the MCTP emulator

MCTP (DMTF DSP0236) carries control messages between endpoints; the repository implements the control
protocol with an SMBus binding. This project models its four cooperating parts and proves what they promise:

- **Flow correlation.** The transport actor and the simple network keep a flat list of pending flows, search it
  for the first match and remove in place. `Flows` proves that this list is one FIFO queue per key (remote EID,
  tag, owner bit) and that flows are conserved over all runs. `Correlation` composes requester, responders and a
  wire that reorders and loses frames: within a window of eight tag allocations every responder gets the reply to
  its own request. `Tightness` shows that eight is exact and that the channel must not duplicate even one packet.
- **Discovery and EID allocation.** `Discovery` models the bus owner's loop with its `u8` cursor: the EIDs handed
  out are an interval, the overflow bound is exact, and the requests follow a grammar. `Agreement` runs the loop
  against endpoints that keep their state: what the owner reserved and what they hold never disagree.
  `Conversation` puts the loop behind its own transport actor and the wire and proves that nothing changes.
- **Responder.** `Responder` models every arm of the request handler and proves it equal to a reference that is
  written byte by byte; `Actors` follows endpoint state and frame outcomes over all runs.
- **Wire codec.** `Headers`, `Bodies`, `ControlPayloads` and `Smbus` model the packed headers, the typed bodies
  and both framers, with round trips in both directions.

| file | module | models |
|---|---|---|
| Bytes.dfy, Enums.dfy | Bytes, Enums | `u8` arithmetic, bit fields, the `u8` enumerations |
| Headers.dfy, Bodies.dfy, ControlPayloads.dfy, Smbus.dfy | Headers, Bodies, ControlPayloads, Smbus | codec and framing |
| Flows.dfy | Flows | the list of pending flows |
| Responder.dfy, Actors.dfy | Responder, Actors | request handler, transport actor over runs |
| Discovery.dfy | Discovery | discovery loop and EID allocation |
| BusOwner.dfy | BusOwner | the example program's objects and methods in imperative form |
| SimpleNetworks.dfy | SimpleNetworks | `SimpleNetwork`: `socket`, `bind`, `sendto`, receive callback |
| Correlation.dfy, Tightness.dfy | Correlation, Tightness | requester, responders and channel together |
| Agreement.dfy | Agreement | the discovery loop and stateful endpoints together |
| Conversation.dfy | Conversation | the same, with the loop's own actor, its pending flows and the wire in between |

Objects that the source updates in place are classes (`PendingFlows`, `MctpEndpointContext`, `TransportActor`,
`SimpleNetwork`, `SmbusNetDevBinding`). Their methods are proved equal to specification functions, and the
properties of runs are lemmas about those functions. The PEC checksum is a function parameter and every theorem
holds for any checksum. Rust's overflow behaviour is a parameter too: `Checked` panics, `Wrapping` truncates.

## What the proofs found

Each of these is proved below, in the lemma named.

- A frame without a full transport header gets the all-zero tag, so it completes the oldest owned flow to
  endpoint 0 under tag 0 if there is one (`Flows.RuntFrameCompletes`).
- The receiver leaves the PEC byte on the message; decoders ignore it, but a body that lacks exactly its last
  byte is accepted because the PEC stands in for it (`Bodies.TrailingBytes`).
- Tags have three bits: from every initial state some run within a window of nine gives a responder a reply that
  is not its own (`Tightness.WindowIsSafeExactlyUpToEight`), and so does some run within a window of eight in which
  a single packet is duplicated (`Tightness.OneDuplicateMisdelivers`).
- The simple network takes the tag from the binding, so all sends of one descriptor to one endpoint share a key
  and only order tells their replies apart (`SimpleNetworks.SendsOfOneBindingShareAKey`).
- A pool of one EID is reserved and never announced: no run announces one (`Discovery.PoolOfOneIsNotAnnounced`),
  and a bridge that asks for one gets it in silence (`Discovery.PoolOfOneKeptSilent`).
- A wrapping build hands out the broadcast EID exactly when the demand does not fit
  (`Discovery.BroadcastReservedExactly`); one endpoint is enough when the cursor stands on it
  (`Discovery.LastEidOverflows`).
- The request handler looks at neither the request bit nor the owner bit, so the program's own reply to a Set
  Endpoint ID, arriving where no flow waits for it, resets the EID to 0 (`Actors.StrayReplyResetsTheEid`).
- Get Endpoint ID always reports 0, so it agrees with the EID just set only if that is 0
  (`Responder.GetReportsTheSetEidOnlyIfZero`).
- `bind` accepts descriptors that were never issued and refuses issued ones other than the newest
  (`SimpleNetworks.BindJudgesRightlyExactly`).
- The two SMBus framers never build the same frame (`Smbus.FramersDiffer`).
- A physical binding created with a refused address keeps address 0 and reports nothing
  (`Smbus.SmbusNetDevBinding.constructor`).

## Model

| member | source | states |
|---|---|---|
| Tightness.WindowIsSafeExactlyUpToEight | examples/basic_bus_owner_loop.rs:256-265 | From every initial live system: all runs over a channel that reorders and loses, with outstanding requests within w consecutive allocations, give each responder its own reply, if and only if w is at most eight |
| Correlation.WindowOfEightIsSafe | examples/basic_bus_owner_loop.rs:256-265 | Every run from an empty system over a wire that reorders and loses but does not duplicate, with any peers serving and foreign requests in between: if outstanding requests lie within eight consecutive tag allocations, each completed responder holds the payload computed for its own request, and it reads as that request's reply (tag, instance id, command) |
| Correlation.EveryReplyCompletesItsRequest | examples/basic_bus_owner_loop.rs:519-541 | At any point of such a run, each reply in flight that reaches a live actor completes its own, still open request with its own payload |
| Correlation.RepliesReachTheirRequests | examples/basic_bus_owner_loop.rs:519-541 | The same safety under the weaker condition that no two outstanding requests share a key |
| Correlation.SameKeyExactly | examples/basic_bus_owner_loop.rs:256-265 | Two requests share a key iff they go to the same endpoint and their allocations are a multiple of eight apart |
| Correlation.CollisionMisdelivers | examples/basic_bus_owner_loop.rs:524-541 | From every sound state, a request that peers answer, sent on an occupied key, has a continuation in which its reply completes an older request; that responder then holds a reply not its own if the control headers of the two requests differ |
| Tightness.SafeExactlyWithoutDuplicates | examples/basic_bus_owner_loop.rs:519-541 | From every initial live system: all runs within a window of eight with at most d packets duplicated give each responder its own reply, if and only if d is 0 |
| Tightness.OneDuplicateMisdelivers | examples/basic_bus_owner_loop.rs:519-541 | From every initial live system some run within a window of eight, with exactly one packet duplicated, gives some responder a reply that is not its own |
| Correlation.DiscoveryRequestsAreQuestions | examples/basic_bus_owner_loop.rs:174-254 | Every request of the discovery loop is one of the requests the correlation theorems cover |
| Flows.FirstMatchIsDequeue | src/network/simple_network.rs:152-172 | Linear search and removal succeed iff the queue of the reply key is not empty, take its head and leave every other queue unchanged |
| Flows.EveryRunConservesInOrder | src/network/simple_network.rs:152-172 | Over every interleaving of sends and receives: pending flows are exactly the unfinished ones, their responders strictly in registration order, none completes twice, and per key the sends are the completions followed by the queue |
| Flows.NthReplyCompletesNthSend | src/network/simple_network.rs:152-172 | The n-th completion of a key is the n-th send of that key |
| Flows.PendingAndCompletedPartition | examples/basic_bus_owner_loop.rs:463-541 | Each registered responder is either pending, under its own tag, or completed, never both |
| Flows.ReorderingIsSafeIffKeysDiffer | src/network/simple_network.rs:157-162 | Each pending flow is reached by its own reply, in any order of arrival, iff no two pending flows share a key |
| Flows.RuntFrameCompletes | src/network/simple_network.rs:52-55 | A buffer under four bytes completes a flow iff an owned flow to endpoint 0 under tag 0 waits |
| Flows.ResponseMatchesRequest | mctp-base-lib/src/base/models.rs:52-61 | For every request header the encoded response header, read back as a tag, is the reply tag of the request's flow and matches it, whatever follows on the wire |
| Flows.PendingFlows.Push | src/network/simple_network.rs:268-273 | Appends one flow with a fresh responder: exactly the queue of its key grows at its end |
| Flows.PendingFlows.Take | src/network/simple_network.rs:152-172 | Removes and hands out the head of the reply key's queue, none iff it is empty, other queues unchanged |
| Actors.FrameOutcome | examples/basic_bus_owner_loop.rs:505-551 | Every received frame has one outcome decided by its bytes and the queue it addresses: dropped without effect iff it is under four bytes or its second byte is not 0x0F, handled without touching flows, or completing the oldest flow of the queue without touching the endpoint |
| Actors.SendOutcome | examples/basic_bus_owner_loop.rs:453-500 | A send registers the tag of its message iff a reply is wanted, panics iff a checked build gets a length of 255 modulo 256, and otherwise sends the example's frame, given byte by byte |
| Actors.TallyAddsUp | examples/basic_bus_owner_loop.rs:502-551 | Over every run the outcomes sum to the frames received, completed flows equal completing frames, the other registered flows are pending, and nothing panicked or was left while the actor lives |
| Actors.RunConservesFlows | examples/basic_bus_owner_loop.rs:463-541 | Conservation and per-key order hold over every run of the actor, sends, receives and polls interleaved |
| Actors.AssignedEidIsTheLastOneSet | examples/basic_bus_owner_loop.rs:294-298 | After every interleaving of frames, sends and polls the assigned EID is the one in the last answered frame with the command Set Endpoint ID, request or not, or the initial one |
| Actors.SetEidFrameSetsUnlessAwaited | examples/basic_bus_owner_loop.rs:291-298 | A long enough frame with the command Set Endpoint ID sets the EID iff it completes no flow, whatever its request and owner bits |
| Actors.StrayReplyResetsTheEid | examples/basic_bus_owner_loop.rs:291-298 | The program's own reply to Set Endpoint ID, where no flow waits for it, resets the EID to 0 |
| Actors.DiscoveryFlagMeansNotifyWaits | examples/basic_bus_owner_loop.rs:78 | The discovery flag is set iff a frame with the command Discovery Notify was answered, or the flag was initially set, and the loop has not looked since |
| Actors.RoundsNeverExceedNotifies | examples/basic_bus_owner_loop.rs:78-79 | Rounds started, plus one if another is due, never exceed notifications accepted, plus one if the flag was initially set |
| Discovery.HandedOutIsTheInterval | examples/basic_bus_owner_loop.rs:73-127 | While the demand fits, the EIDs handed out are the interval from the pool start to the cursor, each once and in order, and the cursor is the start plus the sum of 1 + pool size over dynamic endpoints |
| Discovery.RunHandsOutARow | examples/basic_bus_owner_loop.rs:73-127 | In every run of either build the EIDs handed out are one unbroken row with the cursor behind it; its length is the demand, and the loop runs on iff no poll stopped it, unless a checked build overflows |
| Discovery.OverflowExactly | examples/basic_bus_owner_loop.rs:102-126 | A checked build overflows iff start plus demand exceeds 255 |
| Discovery.BroadcastReservedExactly | examples/basic_bus_owner_loop.rs:102-126 | EID 0xFF is handed out iff the build wraps and the demand does not fit; a checked build never does, not even on the way to an overflow |
| Discovery.HandedOutIsAssignable | examples/basic_bus_owner_loop.rs:102-126 | From a pool start of 8 or above all EIDs handed out lie in 8 to 254 iff the build checks or the demand fits |
| Discovery.BuildsAgreeExactly | examples/basic_bus_owner_loop.rs:102-126 | Checked and wrapping runs are equal iff the demand fits |
| Discovery.RunIsTraced | examples/basic_bus_owner_loop.rs:78-148 | In every run, failed ones included: EIDs offered are the singles reserved, ranges announced are the reserved pools of two or more, in order; an assignment stands right behind a question to endpoint 0, an allocation right behind an assignment and for the EIDs right behind the assigned one; the i-th request carries the i-th counter values |
| Discovery.PollMeetsReference | examples/basic_bus_owner_loop.rs:78-170 | One poll sends exactly the requests that a reference derives from its demand, with source EIDs and counters, pings included, and ends in the status the reference gives |
| Discovery.TakenFlagStartsARound | examples/basic_bus_owner_loop.rs:78-85 | A poll that takes a raised flag is a discovery round whatever else it meets; one that takes none is the poll of what was raised since, and does nothing without a ping |
| Discovery.PoolOfOneIsNotAnnounced | examples/basic_bus_owner_loop.rs:123-148 | In no run, failed or overflowed, does an Allocate Endpoint IDs request carry fewer than two EIDs |
| Discovery.AnnouncedIffTwoOrMore | examples/basic_bus_owner_loop.rs:102-148 | A round whose assignment is accepted reserves the EID at the cursor and right behind it the pool asked for, and announces exactly that pool iff it has two EIDs or more |
| Discovery.PoolOfOneKeptSilent | examples/basic_bus_owner_loop.rs:123-131 | Witness, with reply bytes: a bridge asking for one EID has it reserved, the loop goes on, and nothing is announced |
| Discovery.LastEidOverflows | examples/basic_bus_owner_loop.rs:102-103 | Witness, with reply bytes: from 0xFF one simple endpoint overflows a checked build with nothing reserved and gets 0xFF from a wrapping one |
| Agreement.BooksAndEndpointsAgree | examples/basic_bus_owner_loop.rs:68-172 | In every run against responsive endpoints of this program, whatever requests and replies are lost: the i-th EID reserved is the i-th of the pool, no pool is reserved or announced, and each endpoint holds the last EID whose offer reached it and is otherwise unchanged |
| Agreement.AcceptedMeansStored | examples/basic_bus_owner_loop.rs:99-128 | A round goes on iff both exchanges arrive and an EID is left; it then demanded one EID and no pool, and the endpoint served holds exactly the EID offered |
| Agreement.HoldersDiffer | examples/basic_bus_owner_loop.rs:99-128 | Two endpoints that were served offers in such a run hold different EIDs, unless a wrapping build has gone round the EID space |
| Conversation.HeardIsTheAnswer | examples/basic_bus_owner_loop.rs:267-289 | One exchange of an idle requester, with foreign requests arriving meanwhile: the responder completes with exactly the answer the peer computed for this request, or not at all if the request or reply is lost or the actor has panicked; then the requester is idle again |
| Conversation.WireRunIsWorldRun | examples/basic_bus_owner_loop.rs:68-172 | Refinement over every run: the loop whose requests and replies pass its own actor, pending flows, tags and a lossy wire does what the loop does that is handed its peers' answers |
| Conversation.BooksAgreeOverTheWire | examples/basic_bus_owner_loop.rs:68-172 | From every initial state: over the wire the i-th EID reserved is the i-th of the pool, each endpoint holds the last EID whose offer reached it, and each completed responder holds the reply to its own request |
| Agreement.AllocationIsRefused | examples/basic_bus_owner_loop.rs:362-371 | An Allocate Endpoint IDs request to this program never counts as answered |
| Agreement.WorldRunsTheLoop | examples/basic_bus_owner_loop.rs:68-172 | The loop in these runs is a run of the discovery loop with the served replies as inputs |
| Discovery.TagsOfARun | examples/basic_bus_owner_loop.rs:181-188 | The i-th request carries tag (start + i) mod 8 and instance id (start + i) mod 32 across the counters' wrap; two requests share a tag iff a multiple of 8 apart and an instance id iff a multiple of 32 apart |
| Discovery.RequestMeetsReference | examples/basic_bus_owner_loop.rs:174-254 | Every request equals a reference given byte by byte |
| Discovery.RequestOnWire | examples/basic_bus_owner_loop.rs:174-254 | The receiver reads the operands and the low counter bits of every request back, whatever follows the message |
| Discovery.AnswerFromBytes | examples/basic_bus_owner_loop.rs:82-148 | Which reply bytes count as a successful answer, and which bits of them steer the loop: completion, EID type, endpoint type, allocation status, assignment status, pool size |
| Responder.HandlerMeetsReference | examples/basic_bus_owner_loop.rs:291-374 | For every byte string and state the handler gives the reference's state and outcome: a reply iff the command is known and the body long enough, a panic iff a full header has an unknown command, otherwise an error |
| Responder.ReplyReadBack | examples/basic_bus_owner_loop.rs:291-371 | Every reply reads back as swapped EIDs, same tag, flipped owner bit, one packet of sequence 0, and the request's control header with only the request bit cleared |
| Responder.GetReportsTheSetEidOnlyIfZero | examples/basic_bus_owner_loop.rs:314-335 | Get Endpoint ID after Set Endpoint ID reports the EID that was set iff that EID is 0 |
| ControlPayloads.ParseKeepsEveryByte | mctp-base-lib/src/control.rs:91-134 | Parsing fails iff under seven bytes; serialising a parsed message gives the same bytes, and its control header agrees with its raw bytes |
| ControlPayloads.CoherentIffReadBack | mctp-base-lib/src/control.rs:91-134 | A payload survives serialising and parsing iff its control header is the one its raw bytes start with |
| ControlPayloads.BuiltPayloadsAreCoherent | mctp-base-lib/src/control.rs:43-81 | That agreement is kept by building a message and by every response the handler builds |
| ControlPayloads.MessageReadBack | mctp-base-lib/src/control.rs:43-63 | A built message, serialised and read as its own kind, gives both headers and the typed body back, whatever follows |
| Bodies.DecodeEncode | mctp-emu-derive/src/lib.rs:128-179 | Every typed body has its declared size and is read back from its bytes, whatever follows |
| Bodies.EncodeDecode | mctp-emu-derive/src/lib.rs:128-179 | Writing a decoded body gives its bytes back iff its command byte is one a command code is written as; otherwise only that byte changes, to 0xFF |
| Bodies.FieldPositions | mctp-base-lib/src/control/get_eid.rs:55-77 | The byte at which each field of every body stands, packed status bits included |
| Bodies.TrailingBytes | mctp-emu-derive/src/lib.rs:146-160 | A decoder that succeeds ignores trailing bytes; one more byte turns a failure into a success iff exactly one byte was missing |
| Bodies.SetEidResponseFrom | mctp-base-lib/src/control/set_eid.rs:119-164 | The statuses packed into the reply are the ones read back from it, and it reports success iff its code is success |
| Bodies.GetEidResponseFrom | mctp-base-lib/src/control/get_eid.rs:79-121 | The types packed into the reply are the ones read back from it, and it reports success iff its code is success |
| Headers.TransportDecodeEncode | mctp-base-lib/src/base/models.rs:9-24 | A transport header is read back from its bytes, whatever follows |
| Headers.TransportEncodeDecode | mctp-base-lib/src/base/models.rs:9-24 | Any four bytes are restored from the header they read as, reserved bits included |
| Headers.ControlDecodeEncode | mctp-base-lib/src/control/models.rs:15-27 | A control header is read back from its bytes, whatever follows |
| Headers.ControlEncodeDecode | mctp-base-lib/src/control/models.rs:15-27 | Any three bytes are restored except that an unnamed command byte becomes 0xFF |
| Headers.TransportFieldPositions | mctp-base-lib/src/base/models.rs:9-24 | The place and weight of every field in the four bytes |
| Headers.ControlFieldPositions | mctp-base-lib/src/control/models.rs:15-27 | The place and weight of every field in the three bytes |
| Headers.ClearRqBytes | mctp-base-lib/src/control/models.rs:79-83 | Clearing the request bit changes nothing but the top bit of the second byte |
| Enums.CommandCodeRoundTrips | mctp-base-lib/src/control/enums.rs:5-69 | Command codes round trip; a byte comes back iff it names a command or is 0xFF, and reads as unknown iff above 0x14 |
| Enums.EnumDefaults | mctp-emu-derive/src/lib.rs:181-212 | The other enumerations: a byte that names a value comes back as itself, any other as the default |
| Smbus.WirePath | src/phys/smbus_netdev.rs:110-125 | For valid addresses and every typed message the binding's frame gives back the addresses it was built for and the example's frame its two fixed ones, and both give back the headers and the body |
| Smbus.BindingFrameReadBack | src/phys/smbus_netdev.rs:117-125 | Addresses, message with the PEC attached and message as counted are read back from the binding's frame, for messages of at most 255 bytes |
| Smbus.BusOwnerFrameReadBack | examples/basic_bus_owner_loop.rs:470-479 | The example's frame byte by byte: fixed addresses, command 0x0F, length plus one, the message, and a PEC over all bytes before it; no frame iff a checked build gets a length of 255 modulo 256 |
| Smbus.FramersDiffer | src/phys/smbus_netdev.rs:117-125 | On the same addresses and message the two framers agree but for the byte count, which always differs, and the PEC, which covers the message alone in one and all bytes before it in the other |
| Smbus.ValidAddresses | src/phys/smbus_netdev.rs:60-66 | The address check accepts exactly 0x08 to 0x77 |
| Smbus.SmbusNetDevBinding.constructor | src/phys/smbus_netdev.rs:78-86 | A refused address leaves the binding at address 0 |
| Smbus.SmbusNetDevBinding.SetAddress | src/phys/smbus_netdev.rs:101-105 | Stores an address of 0x08 to 0x77 and refuses any other without a change |
| Smbus.SmbusNetDevBinding.BuildFrame | src/phys/smbus_netdev.rs:110-125 | Refuses invalid addresses, then messages of 256 bytes or more, and builds the binding's frame of the rest |
| SimpleNetworks.DescriptorsEqualExactly | src/network/simple_network.rs:200-202 | In every interleaving two sockets have the same descriptor iff the number of sockets opened from the one to the other is a multiple of 2^32 |
| SimpleNetworks.DescriptorsAreDistinct | src/network/simple_network.rs:200-202 | In particular descriptors differ while fewer than 2^32 sockets are opened, whatever else happens |
| SimpleNetworks.SentHeadersCarryTheirBinding | src/network/simple_network.rs:215-261 | Every transmitted header carries the source EID and low three tag bits of the most recent accepted bind on its descriptor, the destination of the call and the owner bit |
| SimpleNetworks.ClientsAreTheLastBound | src/network/simple_network.rs:204-213 | A descriptor is known iff some bind on it was accepted, and then stands for the client of the most recent one |
| SimpleNetworks.SendOutcomes | src/network/simple_network.rs:215-277 | After any events: a basic address panics, a binding other than 1 and a descriptor without an accepted bind are refused, in this order and without effect; otherwise the flow is registered under the last bound client and the message is transmitted iff the physical address is 0x08 to 0x77 and the payload at most 251 bytes, else a panic |
| SimpleNetworks.ReceiveOutcome | src/network/simple_network.rs:120-177 | Every frame has one outcome decided by its bytes and the queue it addresses: dropped iff under four bytes, unclaimed, or completing the oldest flow of the queue with the bytes behind the header and changing nothing else |
| SimpleNetworks.ReplyCompletesItsSendExactly | src/network/simple_network.rs:152-172 | In every run, the response to a transmitted message whose flow still waits completes that very send with its bytes iff no older send waits under the same key |
| SimpleNetworks.BindOutcome | src/network/simple_network.rs:204-213 | A bind is accepted from the newest descriptor up and stores its client, is refused below without effect, and panics only on the overflow of a checked build |
| SimpleNetworks.BindJudgesRightlyExactly | src/network/simple_network.rs:204-207 | `bind` decides right iff the descriptor is the newest issued one, or negative and below the newest |
| SimpleNetworks.TransmittedFramesReadBack | src/network/simple_network.rs:248-277 | A transmitted frame goes from the binding's to the called physical address, counts exactly header and payload, and carries the tag its flow was registered under |
| SimpleNetworks.NetworkRunConservesFlows | src/network/simple_network.rs:112-290 | In every interleaving flows are conserved, complete in order per key and all carry the owner bit |
| SimpleNetworks.RequestsCompleteNothing | src/network/simple_network.rs:157-176 | After every run a frame with the owner bit set completes nothing and changes nothing |
| SimpleNetworks.SendsOfOneBindingShareAKey | src/network/simple_network.rs:249-273 | Two sends share a key iff they go to one endpoint and their bindings have equal low tag bits |
| SimpleNetworks.SimpleNetwork.OpenSocket | src/network/simple_network.rs:200-202 | Refines the socket step: hands out the counter and advances it |
| SimpleNetworks.SimpleNetwork.BindSocket | src/network/simple_network.rs:204-213 | Refines the bind step with its refusal |
| SimpleNetworks.SimpleNetwork.SendMessage | src/network/simple_network.rs:215-277 | Refines the send step: refusals in order, header, registration, then the frame |
| SimpleNetworks.SimpleNetwork.OnReceive | src/network/simple_network.rs:120-177 | Refines the receive step with its index loop |
| BusOwner.MctpEndpointContext.HandleRequest | examples/basic_bus_owner_loop.rs:291-374 | Refines the handler function on the shared fields |
| BusOwner.MctpEndpointContext.NewTransportHdr | examples/basic_bus_owner_loop.rs:256-265 | Builds the header from the current EID and tag counter and advances the counter with wrap-around |
| BusOwner.MctpEndpointContext.SendGetEidRequest | examples/basic_bus_owner_loop.rs:200-222 | The bytes sent, both counters advanced and the decoded answer |
| BusOwner.MctpEndpointContext.SendSetEidRequest | examples/basic_bus_owner_loop.rs:174-198 | The bytes sent, both counters advanced and the decoded answer |
| BusOwner.MctpEndpointContext.SendAllocateEidsRequest | examples/basic_bus_owner_loop.rs:224-254 | The bytes sent, both counters advanced and the decoded answer |
| BusOwner.MctpEndpointContext.PollOnce | examples/basic_bus_owner_loop.rs:78-170 | One iteration on local variables equals the step function, failures and overflow panics included; a flag raised before or since makes its first request the question to endpoint 0 and is taken down, and without flag and ping nothing happens |
| BusOwner.MctpEndpointContext.RunBusOwnerLoop | examples/basic_bus_owner_loop.rs:68-172 | The loop with its early exits equals the run the discovery theorems are about; a flag that is up at the start is taken by the first poll |
| BusOwner.FrameMessage | examples/basic_bus_owner_loop.rs:470-479 | The buffer filled step by step is the example's frame |
| BusOwner.TransportActor.SendMsg | examples/basic_bus_owner_loop.rs:453-500 | Refines the actor's send step: registration first, then the frame or the panic |
| BusOwner.TransportActor.ReceiveMsg | examples/basic_bus_owner_loop.rs:505-551 | Refines the actor's receive step: drop, complete, or handle and reply |

## Left out

- UDP sockets, tokio tasks, channels, sleeps, tracing and hex dumps: runs are sequences of events, and the answers
  of other endpoints are inputs of the loop.
- The PEC polynomial belongs to a library outside the repository: a function parameter stands for it.
- `transmit` hands the frame to the socket twice (src/phys/smbus_netdev.rs:128-130): only the frame is modelled.
- Correlation.WindowOfEightIsSafe: covers requests whose frame is built (a checked build panics on a message of
  255 bytes modulo 256).
- Agreement.BooksAndEndpointsAgree: no other task sends to the endpoints during the run, and they know no routing
  or bridging, as the program itself does not. A run loses at most one exchange, because the loop ends there.
- A request or reply that is lost: without a timeout the source's loop waits for good
  (examples/basic_bus_owner_loop.rs:285); the model's loop ends as failed, or as panicked for a ping. Either way no
  further request is sent.
- Conversation.WireRunIsWorldRun: the frames that arrive while the loop waits are foreign requests, handled before
  the reply; the loop is the requester's only sender.
- SimpleNetworks.BindJudgesRightlyExactly: assumes that the descriptor counter has not wrapped below 0.
- SimpleNetworks.TransmittedFramesReadBack: assumes a binding address below 0x80, which every `SmbusNetDevBinding`
  keeps.
- Dropped responders and poisoned mutexes: a completed flow always finds its waiting task.
- Tasks that run between two requests of a discovery round are modelled by the EID loaded for each request
  (`Discovery.Exchange`); finer interleavings of the atomics do not occur in the model.
- Panics (`todo!()`, `unwrap` on a refused transmission or a failed ping) are outcomes; unwinding is not modelled.
- `create_tag` never fails on four bytes or more, so its `None` branches have no counterpart.
- The result of looking up the binding of a received message is ignored by the source and by the model, and the
  constant reply address handed to the waiting task is omitted.
- `eid_pool_size` is a field that no code consults; it is kept and has no effect.
- `src/network/virtual_network.rs`: its `sendto` ends in `todo!()` and nothing adds routes.
- Multi-packet messages: every message is one packet and nothing reassembles.
- Error texts and error type wrapping: a failure carries no information.
- Socket address declarations, neighbours and the unused medium and transport enumerations: no behaviour.
