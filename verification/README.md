# miuturn: a verified model

miuturn is a STUN and TURN server (RFC 5389 and RFC 5766). This project models the parts of it where state has to stay
in step or where octets have to survive a round trip, and proves what they keep over all inputs and all runs.
`dafny verify dfyconfig.toml` checks everything.

| files | part of the server |
|---|---|
| `Bytes`, `Codec`, `Lenient`, `Integrity` | the wire format: headers, attributes, addresses, the fallback parser, MESSAGE-INTEGRITY |
| `Framing`, `ClientFrames` | frames on a TCP stream, and the frames built for a client from a peer's datagram |
| `Wire`, `WireFrames` | the same formats octet by octet, stated without the functions that encode and decode them |
| `BitWord`, `PortAllocator`, `PortSteps` | the relay port bitmap: as a class, and as interleaved atomic operations |
| `Channels`, `AllocationTable`, `AllocationSteps` | channel and allocation tables: as classes, and as interleaved critical sections |
| `Turn`, `TurnRuns`, `TurnSafety` | the TURN request handlers as a state machine, and its runs |
| `TurnLaws`, `TurnRunLaws` | what each request does from the octets that arrive to the tables and the answer, and laws over runs |
| `TurnServer`, `TurnService` | the handlers on the shared tables, refining the state machine, from start-up on |
| `HandlerSteps` | the handlers cut between lookup and action |
| `Dispatcher` | the UDP listener and its workers |
| `Bandwidth`, `BandwidthSteps`, `BandwidthManager` | the token bucket: as a class, with overlapping calls, and under its manager |
| `Cidr`, `Acl`, `AclRanges` | address ranges and the access list |

Concurrent code appears twice. The classes run one call at a time and are proved against functions on values. The step
models (`PortSteps`, `AllocationSteps`, `HandlerSteps`, `BandwidthSteps`, `Dispatcher`) let any number of threads
interleave at single atomic operations, critical sections and queue operations, and their theorems hold in every state
of every run.

`Turn` handles one packet or cleanup round per step. `TurnServer.Step` shows that the handlers, working on the shared
tables in place, take exactly those steps, and `TurnService.ServeAll` that a new server makes a run of them from whatever
arrives, so the theorems of `TurnSafety` hold of its states and outputs. That is for handlers one after the other.
`HandlerSteps` cuts them between lookup and action: the tables stay in step in every interleaving, and the exact
conditions for bindings, removals, refreshes and relays to act on the allocation they were meant for are
`HandlerSteps.OwnedIffNotOvertaken` and `HandlerSteps.ActsAsMeantIff`.

That handlers of one client do not overlap is a hypothesis of `AllocationSteps.OneAllocationPerClient` and
`AllocationSteps.LookupsAgree`. `Dispatcher.OneHandlerPerClient` discharges it for one UDP listener. The server starts
one listener per configured address (src/main.rs:186-237), and a client address seen on two of them can have two handlers
in progress.

Arbitrary functions or inputs: HMAC, the key derivation, UTF-8 decoding, the user database and the access list as they
are at each time, the clock, random numbers, fresh nonces, the hash of an address, whether a socket binds and whether a
send succeeds. Weak exchanges may fail for no
reason, a bounded number of times per call in the classes and without bound in the step models. A panic of the source
(an integrity value under 20 octets, a LIFETIME under 4, a CHANNEL-NUMBER under 2) is an output of its own. Integer
widths are written out where they matter: 16-bit lengths, ports and truncations, 64-bit saturation and wrap-around.

What the code does where one might expect something else, kept as it is:

- A Refresh counts the new lifetime from the creation of the allocation, and does not apply the cap that Allocate applies.
- ChannelBind accepts any channel number, and binds an undecodable peer as 0.0.0.0:0.
- One peer may be bound to several channels of an allocation.
- Signing a message that already carries MESSAGE-INTEGRITY does not make it verify (`Integrity.SigningTwiceIsInert`).
- Encoding is inverted by parsing only for bodies under 65536 octets (`Codec.MessageRoundTrip`, an equivalence).
- A port released by someone who does not hold it can bring the port counter below zero (`PortSteps.CountCanGoNegative`).
  It cannot when no bit is cleared before its taker has counted it (`PortSteps.PatientCount`), so not when only holders
  release (`PortSteps.NoTwoHolders`). The three places where the server releases ports obey that
  (`AllocationSteps.OnlyHoldersRelease`; an allocation is over, its count included, before its port is handed out).
- Overlapping calls on one token bucket can exceed its rate (`BandwidthSteps.OverlappingCallsOverspend`). They do so for
  some bucket and sizes exactly when some time is credited twice (`BandwidthSteps.KeepsRateIff`), which cannot happen to
  calls one after the other (`BandwidthSteps.OneAtATimeKeepsRate`, `Bandwidth.RateBound`).
- ChannelBind, Refresh, the removal before a new Allocate and ChannelData look the allocation up first and act later. If
  the allocation ends in between, a binding can end up on the next allocation of the port
  (`HandlerSteps.BindingCanBeOvertaken`) and a removal can end that one (`HandlerSteps.RemovalCanMiss`).
  `HandlerSteps.ActsAsMeantIff` gives the exact condition for everything to act on what it was meant for.
- `load_from_config` takes a list of access rules over unsorted, so the first match need not be the one of highest
  priority (`AclRanges.LoadedOutOfOrder`). `Acl.CheckFollowsLog` and `Acl.CheckAnswersLog` give the exact condition for
  each address, and `AclRanges.InOrderByPrefixes` turns it into prefixes. The server itself does not meet this: at
  start-up it adds the configured rules one by one (src/main.rs:173-184), and each addition sorts.

## Model

| member | source | states |
|---|---|---|
| `Codec.TypeRoundTrip` | src/message.rs:60-105 | method and class bits interleaved into the type field are separated again, for every 12-bit method and 2-bit class |
| `Codec.HeaderRoundTrip` | src/message.rs:60-167 | every header is parsed back from its encoding whatever follows, carries the cookie and never looks like ChannelData |
| `Wire.HeaderOnWire` | src/message.rs:147-167 | the twenty octets of every header: type with its class bits, length, cookie, transaction |
| `Wire.ParsedIsEncoded` | src/message.rs:60-105 | a header with the cookie is accepted only as the encoding of what it is read as, the two top bits apart |
| `Wire.OldHeaderRead` | src/message.rs:107-144 | without the cookie every method and class is read from its old layout, with the transaction at the fifth octet |
| `Codec.DecodeEncoded` | src/message.rs:196-226 | an attribute of less than 65536 octets is decoded from its encoding whatever follows |
| `Wire.AttributeOnWire` | src/message.rs:217-226 | the octets of every attribute: type, length, value and zeros to a multiple of four |
| `Codec.ScanEncoded` | src/message.rs:318-360 | the attribute loop reads back an encoded list to the last octet |
| `Codec.ScannedSize` | src/message.rs:318-360 | the attributes read from any octets encode to the size the loop consumed |
| `Codec.MessageRoundTrip` | src/message.rs:318-374 | parse inverts encode, with the length becoming the body size, if and only if the padded body is under 65536 octets |
| `Codec.ScanLoop` | src/message.rs:333-357 | the attribute loop over offsets stays in bounds and computes the recursive scan |
| `Codec.Parse` | src/message.rs:318-360 | the parser as written agrees with the specification the round trips are about, errors included |
| `Wire.ParseWithTail` | src/message.rs:318-360 | after whole attributes, a last one longer than the body is ignored and a stump or cut padding breaks the message; what follows the declared length does not matter |
| `Wire.CutShort` | src/message.rs:318-332 | a datagram shorter than its header declares is not a message |
| `Codec.Encode` | src/message.rs:362-374 | the encoder loop lays out the header with the truncated body length, then every attribute in order |
| `Wire.XorIsExclusiveOr` | src/message.rs:275-304 | each bit of the octet operation is set exactly when the two bits differ |
| `Wire.XorAddressBits` | src/message.rs:267-291 | bit by bit, the encoded IPv4 address and port differ from the plain ones where the cookie has ones |
| `Wire.SampleAddress` | src/message.rs:267-309 | the sample address of section 2.2 of RFC 5769 has the octets given there, in both directions |
| `Codec.XorAddressRoundTrip` | src/message.rs:267-309 | an IPv4 address and port survive the XOR encoding, in eight octets; an IPv6 address does not decode |
| `Codec.BindingFastIsEncoded` | src/message.rs:231-265 | the hand-laid Binding reply is the generic encoder's output, and parses to the client's own address |
| `Lenient.LenientLoop` | src/server.rs:1003-1021 | the fallback attribute loop stays in bounds, does not overflow 16 bits and computes the recursive list |
| `Lenient.Fallback` | src/server.rs:975-1025 | the fallback as written accepts and reads exactly the datagrams of its specification |
| `WireFrames.FallbackReads` | src/server.rs:975-1025 | an encoded message is read by the fallback exactly when it is a request other than CreatePermission with 1 to 1499 octets of body, and then as written |
| `Lenient.StrictIsPrefixOfLenient` | src/server.rs:1003-1021 | what the strict parser accepts is a prefix of what the fallback loop reads from the same octets, and all of it when nothing was left unread |
| `Integrity.EncodePrefix` | src/server.rs:1153-1164 | the loop encodes exactly the attributes before the first MESSAGE-INTEGRITY |
| `Integrity.VerifyMessageIntegrity` | src/server.rs:1139-1177 | the check as written gives the specified verdict: accepted, refused or panicking |
| `Integrity.AddMessageIntegrity` | src/server.rs:1179-1202 | the attribute appended is the MAC of the header, with the length including it, and the body |
| `Wire.SignatureCoversWire` | src/server.rs:1179-1202 | the MAC of a signed message is that of the octets before it on the wire, length field included (section 15.4 of RFC 5389) |
| `Wire.VerdictOnWire` | src/server.rs:1139-1177 | a value of 20 octets is accepted exactly when it is the MAC of the octets before it in the message cut after it |
| `Wire.VerdictByLength` | src/server.rs:1139-1177 | a longer value counts by its first 20 octets, a shorter one panics, none is refused |
| `Wire.FirstFound` | src/message.rs:380-382 | the lookup finds the first attribute of its type |
| `Integrity.VerdictIgnoresTail` | src/server.rs:1139-1177 | nothing after the first MESSAGE-INTEGRITY, nor the received length, changes the verdict |
| `Integrity.SignedVerifies` | src/server.rs:1139-1202 | an unsigned message, signed, verifies under the same key for any MAC function |
| `Integrity.SigningTwiceIsInert` | src/server.rs:1139-1202 | signing makes exactly the unsigned messages verify and changes the verdict of no other |
| `Integrity.SignedOnTheWire` | src/server.rs:1139-1202 | sign, encode, parse, verify succeeds for every unsigned message within the length field |
| `Integrity.MacInputInjective` | src/server.rs:1148-1170 | equal MAC inputs mean equal method, class, transaction and attribute prefix |
| `Framing.StreamBuffer.ExtractFrame` | src/server.rs:121-145 | takes the first whole frame from the buffer, or leaves the buffer alone when there is none |
| `Framing.StreamBuffer.Receive` | src/server.rs:689-703 | the drain loop delivers every whole frame in order and keeps less than 65555 octets |
| `Framing.ExtractLonger` | src/server.rs:121-145 | more octets behind a frame do not change it |
| `Framing.ChunkingIrrelevant` | src/server.rs:689-703 | frames and leftover do not depend on how the stream is cut into reads |
| `Framing.DrainLeavesNoFrame` | src/server.rs:689-703 | no octet is lost or invented, and no whole frame stays behind |
| `Framing.MissingPadding` | src/server.rs:147-166 | at most three octets of padding are ever missing |
| `Framing.WrittenIsExtracted` | src/server.rs:168-181 | a well-formed frame as written is the next frame extracted, with nothing taken from what follows |
| `WireFrames.ChannelDataIsRead` | src/server.rs:121-145 | ChannelData on 0x4000 to 0x7FFF is cut off a stream with its padding, whatever follows |
| `WireFrames.ChannelDataIsAwaited` | src/server.rs:121-145 | and not before all of it is there |
| `WireFrames.ChannelDataIsPadded` | src/server.rs:147-181 | the writer adds exactly the missing zeros |
| `WireFrames.OtherIsRead` | src/server.rs:121-145 | anything else is a header of 20 octets and as many as it declares |
| `Framing.StreamDeliversWrittenFrames` | src/server.rs:121-181 | every list of well-formed frames written is delivered in order and padded, for every chunking (section 11.5 of RFC 5766) |
| `ClientFrames.IndicationRoundTrip` | src/allocation.rs:1077-1102 | a Data indication gives back the IPv4 peer and the payload, exactly up to 65516 octets |
| `WireFrames.IndicationOctets` | src/allocation.rs:1077-1102 | the octets of every Data indication: type 0x0017, XOR-PEER-ADDRESS, DATA |
| `ClientFrames.ChannelFrameRoundTrip` | src/server.rs:1040-1048 | the ChannelData built for a client gives back its channel, and its payload exactly when that is under 65536 octets |
| `WireFrames.CutPayload` | src/server.rs:1040-1048 | of ChannelData that was cut short, what is there is relayed |
| `WireFrames.PeerAsSeen` | src/allocation.rs:1104-1119 | traffic from the server's own bind address is shown under the external address with its port, any other as it is |
| `ClientFrames.PaddingIsNotPayload` | src/server.rs:1040-1048 | the stream writer's padding never becomes payload |
| `ClientFrames.EncodedIsWellFormed` | src/server.rs:168-181 | every encoded message that fits the length field is a well-formed stream frame and not ChannelData |
| `ClientFrames.RelayFromPeer` | src/allocation.rs:1121-1192 | the frame for the client carries the normalised peer and the payload, as ChannelData on a channel bound to that peer, or as an indication when there is none |
| `Channels.ChannelTable.Bind` | src/allocation.rs:1295-1321 | a new or refreshed binding; refused, with nothing changed, when the number is bound to another peer |
| `Channels.ChannelTable.GetByPeerForRelayed` | src/allocation.rs:1344-1356 | a channel of this allocation bound to the peer, or proof that there is none |
| `BitWord.TrailingZeros` | src/allocation.rs:307-313 | the index of the lowest set bit of a 64-bit word |
| `PortAllocator.PortAllocator.constructor` | src/allocation.rs:245-257 | an empty bitmap of the range |
| `PortAllocator.PortAllocator.AllocateInWord` | src/allocation.rs:272-330 | one word, from any random bit: a free in-range port of it is taken, or every one is taken and nothing changes |
| `PortAllocator.PortAllocator.Allocate` | src/allocation.rs:259-336 | for every random start, None exactly when every port from the first to the last of the range is taken; otherwise exactly one free in-range port is taken, with no truncation and clear padding bits |
| `PortAllocator.PortAllocator.Release` | src/allocation.rs:340-377 | true exactly for a taken port of the range, which alone becomes free |
| `PortAllocator.PortAllocator.IsAllocated` | src/allocation.rs:393-407 | whether the port is taken, for every port number |
| `PortAllocator.PortAllocator.AvailableCount` | src/allocation.rs:387-390 | with the taken ports it makes up the range |
| `PortSteps.StepKeepsCount` | src/allocation.rs:259-377 | every single atomic operation keeps count + pending increments = set bits + pending decrements |
| `PortSteps.StepIsOwned` | src/allocation.rs:259-377 | when only holders release, every atomic operation keeps the set bits partitioned among the threads |
| `PortSteps.CounterLaw` | src/allocation.rs:259-377 | the counter law in every state of every run, and an exact count whenever no update is pending |
| `PortSteps.NoTwoHolders` | src/allocation.rs:259-377 | in every such run no port has two holders and the count is never negative |
| `PortSteps.PatientCount` | src/allocation.rs:259-377 | the count is never negative as soon as no bit is cleared before its taker has counted it, whoever releases what |
| `PortSteps.OwnedIsPatient` | src/allocation.rs:340-377 | releasing only what one holds is one way to obey that rule |
| `PortSteps.CountCanGoNegative` | src/allocation.rs:340-377 | a five-step run in which an early release by a non-holder makes the count -1 |
| `AllocationSteps.StepKeepsConsistent` | src/allocation.rs:602-779 | every step of creations, removals and the cleanup task keeps bits, table, counter, trackers and lock consistent |
| `AllocationSteps.TablesInStep` | src/allocation.rs:602-1062 | in every reachable state each set bit has exactly one place: table, creation in flight, or about to be cleared under the lock; outside critical sections the counter is the table size and the trackers are its keys; with nothing in flight the bits are the table |
| `AllocationSteps.NoInsertOverwrites` | src/allocation.rs:725-735 | an insert always finds its address free |
| `AllocationSteps.OnlyHoldersRelease` | src/allocation.rs:677-1043 | every bit cleared in a run is cleared by the one place its port is in: the creation whose bind failed, or the lock holder that has just removed its entry |
| `AllocationSteps.QuotaOvershoot` | src/allocation.rs:608-730 | with at most k creations in flight, active plus in-flight allocations stay within the limit plus k - 1 |
| `AllocationSteps.QuotaDecides` | src/allocation.rs:608-619 | a creation is turned away exactly when the counter has reached the limit |
| `AllocationSteps.AtMostHundredPorts` | src/allocation.rs:630-690 | no creation tries more than a hundred ports |
| `AllocationSteps.ReadyWasBound` | src/allocation.rs:671-690 | a creation that inserts has bound its socket, and one that gives its port back has not |
| `AllocationSteps.DeletesOnlyRemove` | src/server.rs:1470-1498 | a Refresh to zero never gets as far as a creation |
| `AllocationSteps.OneAllocationPerClient` | src/server.rs:1347-1367 | with one handler per client, no client ever has two allocations, however other clients and the cleanup interleave |
| `AllocationSteps.LookupsAgree` | src/allocation.rs:796-930 | then any two lookups by client find the same entry, in any order of the map |
| `AllocationTable.AllocationTable.constructor` | src/allocation.rs:549-574 | empty tables in step |
| `AllocationTable.AllocationTable.FindByClient` | src/allocation.rs:796-821 | an allocation of the client, or proof that there is none; the only one when there is one per client |
| `AllocationTable.AllocationTable.CreateAllocation` | src/allocation.rs:602-746 | refused exactly when the table has as many allocations as the quota; gives up exactly after a hundred failed binds; a fresh in-range port inserted in every table; on any failure every table as before; exhaustion only when the range is full |
| `AllocationTable.AllocationTable.RemoveAllocation` | src/allocation.rs:753-779 | the allocation goes from every table with its channels, or nothing happens |
| `AllocationTable.AllocationTable.RefreshAllocation` | src/allocation.rs:781-794 | only the lifetime changes; an unknown address is an error |
| `AllocationTable.AllocationTable.AddPermissions` | src/allocation.rs:823-853 | the addresses of all peers are permitted on the client's allocation and nothing else changes |
| `AllocationTable.AllocationTable.MaySendTo` | src/allocation.rs:867-908 | an allocation of the client exactly when it permits the peer's address: the first found, and the only one when there is one per client |
| `AllocationTable.AllocationTable.CleanupExpired` | src/allocation.rs:1009-1062 | all and only the expired allocations go from every table, with their channels, and the count is theirs |
| `Turn.GrantedIffAuthenticated` | src/server.rs:1206-1326 | with authentication on, a request is granted if and only if the access list allows it, its NONCE is known and younger than 601 seconds, its USERNAME has a password and its integrity verifies |
| `TurnRuns.AllocateIsConsistent` | src/server.rs:1328-1456 | an Allocate keeps the state consistent, whatever becomes of the new allocation |
| `TurnRuns.RefreshIsConsistent` | src/server.rs:1458-1538 | so does a Refresh, to zero or not |
| `TurnRuns.ChannelBindIsConsistent` | src/server.rs:1636-1708 | so does a ChannelBind: the binding belongs to a live allocation and is not older than it |
| `TurnRuns.HandleIsConsistent` | src/server.rs:935-1859 | every packet and cleanup round keeps tables, bits, counter and trackers in step, one allocation per client, and every channel on a live older allocation |
| `TurnSafety.RunIsConsistent` | src/server.rs:935-1859 | all of that in every state of every run |
| `TurnSafety.FreshAllocationIsClean` | src/server.rs:1347-1410 | a successful Allocate, on a reused port too, starts without permissions and without channels |
| `TurnSafety.AllocatedUntil` | src/allocation.rs:621-626 | a new allocation survives a cleanup exactly until its requested lifetime, cut to the cap, has passed |
| `TurnSafety.RefreshedUntil` | src/allocation.rs:781-794 | a Refresh moves the end to that long after the creation, uncapped, and touches nothing else |
| `TurnSafety.RefreshToZeroEnds` | src/server.rs:1474-1498 | a Refresh to zero frees the port and leaves nothing of the allocation, and nothing else changes |
| `TurnSafety.HandleKind` | src/server.rs:935-1859 | only an authenticated CreatePermission adds permissions and only an authenticated ChannelBind adds channels, each on the sender's own allocation |
| `TurnSafety.EveryRelayWasRequested` | src/server.rs:1040-1783 | over every run with authentication on, each relayed payload was preceded, from the same client and on that very allocation, by an authenticated CreatePermission for the peer's address or ChannelBind of that channel to exactly that peer, the allocation has been there ever since, and the payload is the packet's own |
| `TurnSafety.EchoReachesPeer` | src/server.rs:1040-1079 | ChannelData built for a client, sent back as it is or with stream padding, is relayed to the peer of the channel with the same octets |
| `TurnLaws.EncodedIsBrought` | src/server.rs:935-972 | every message encoded within the length field arrives as written, by datagram or stream |
| `TurnLaws.HowItIsRead` | src/server.rs:935-1025 | streams are read by the strict parser only, datagrams by the fallback where the strict parser fails |
| `TurnLaws.UnreadIsDropped` | src/server.rs:935-1025 | what is not read changes nothing and is not answered |
| `TurnLaws.AllocateLaw` | src/server.rs:1328-1456 | a granted Allocate ends the client's old allocation; 486 exactly when the others fill the quota, 508 without a port, else one new allocation at the opened port, created now, for the LIFETIME asked for (600 without one) and at most the cap; the others keep theirs |
| `TurnLaws.RefreshLaw` | src/server.rs:1458-1538 | a granted Refresh sets only the lifetime of the client's allocation, or with zero ends only it |
| `TurnLaws.RefreshWithoutAllocation` | src/server.rs:1530-1538 | 437 and no change without an allocation |
| `TurnLaws.ShortLifetimePanics` | src/server.rs:1852-1859 | a LIFETIME under four octets panics before anything changes |
| `TurnLaws.PermissionRefused` | src/server.rs:1550-1602 | 437 without an allocation, 400 when no named peer can be read, no change |
| `TurnLaws.PermissionLaw` | src/server.rs:1574-1634 | exactly the addresses of the readable XOR-PEER-ADDRESSes are added to the client's allocation |
| `TurnLaws.BindLaw` | src/server.rs:1647-1702 | the number is bound to the peer on the client's allocation from now, or refused with 400 exactly when it is bound to another peer |
| `TurnLaws.BindIgnored` | src/server.rs:1647-1708 | without allocation, peer or number nothing happens; a number under two octets panics |
| `TurnLaws.SendReachesPeer` | src/server.rs:1712-1783 | up to 65516 octets in a Send indication leave for exactly its IPv4 peer, unchanged, if the address is permitted and the socket takes them, and go nowhere otherwise |
| `TurnLaws.ChannelDataReachesPeer` | src/server.rs:1040-1079 | ChannelData leaves for the peer bound to its number with exactly its application data, padded or not, if the socket takes it, and goes nowhere when the number is not bound |
| `TurnLaws.BindingLaw` | src/server.rs:1094-1125 | a Binding request is answered exactly when STUN is on |
| `TurnLaws.TurnOffLaw` | src/server.rs:1099-1117 | with TURN off every other message is dropped, and Data always |
| `TurnLaws.RefusedLaw` | src/server.rs:1219-1326 | 403 exactly when the access list refuses; otherwise a request that is not authenticated gets a fresh nonce, recorded now, as the only change, or panics exactly on a short integrity value of a known user |
| `TurnRunLaws.QuotaHolds` | src/allocation.rs:608-619 | in every run of one handler at a time there are never more allocations than the maximum (`QuotaOvershoot` has the bound for interleaved ones) |
| `TurnRunLaws.ChannelKeepsPeer` | src/allocation.rs:1295-1321 | in every run a bound number keeps its peer for as long as it is bound |
| `TurnRunLaws.ChannelEnds` | src/allocation.rs:1386-1401 | a channel goes only when its allocation ends or a cleanup finds it older than 600 seconds |
| `TurnRunLaws.CleanupLeavesChannels` | src/allocation.rs:1395-1401 | a cleanup leaves exactly the channels bound or refreshed at most 600 seconds before |
| `TurnRunLaws.CleanupLeavesAllocations` | src/allocation.rs:1009-1062 | a cleanup ends exactly the allocations whose lifetime has passed and exactly their channels |
| `TurnRunLaws.ResponseIsCleared` | src/server.rs:1206-1326 | a client that answers a challenge within 600 seconds with a user's name, the nonce and a signature under the password is let through |
| `TurnSafety.GrantedNonceIsRecent` | src/server.rs:1242-1283 | the nonce of a granted request came from an earlier 401, less than 601 seconds ago |
| `TurnSafety.CleanupLeavesYoung` | src/server.rs:597-629 | a cleanup leaves exactly the nonces issued less than 600 seconds before |
| `TurnSafety.YoungNonceIsAccepted` | src/server.rs:597-629 | a nonce younger than 600 seconds is neither dropped by the cleanup nor refused as stale |
| `TurnServer.TurnServer.VerifyTurnAuth` | src/server.rs:1206-1326 | the checks in their order give the specified verdict |
| `TurnServer.TurnServer.HandleAllocate` | src/server.rs:1328-1398 | takes the Allocate step, with an outcome the allocator can have |
| `TurnServer.TurnServer.HandleRefresh` | src/server.rs:1458-1538 | takes the Refresh step |
| `TurnServer.TurnServer.HandleCreatePermission` | src/server.rs:1540-1634 | takes the CreatePermission step |
| `TurnServer.TurnServer.HandleChannelBind` | src/server.rs:1636-1708 | takes the ChannelBind step |
| `TurnServer.TurnServer.HandleSend` | src/server.rs:1712-1783 | relays exactly what the Send step relays |
| `TurnServer.TurnServer.HandleChannelData` | src/server.rs:1040-1079 | relays exactly what the ChannelData step relays |
| `TurnServer.TurnServer.ProcessMessage` | src/server.rs:1089-1117 | dispatches every method as the state machine does, disabled protocols included |
| `TurnServer.TurnServer.Step` | src/server.rs:935-1117 | from any consistent state, one packet or cleanup round on the real tables is a feasible step of the state machine into a consistent state |
| `TurnService.ServeAll` | src/server.rs:935-1117 | a new server, given any arrivals in time order, makes a run of the state machine over exactly those arrivals |
| `TurnService.RelayAndEcho` | src/allocation.rs:1121-1192 | a peer's payload that goes to the client on a channel and is sent back over a stream leaves for the same normalised peer with the same octets |
| `HandlerSteps.AlwaysInStep` | src/allocation.rs:602-794 | however handlers interleave between lookup and action and between taking a port and inserting it, every set bit is a port in the table or in flight and not both, counter and trackers follow the table, and serials stay unique |
| `HandlerSteps.StepOwnedIff` | src/server.rs:1647-1667 | a step keeps every binding on the allocation looked up for it exactly when it does not bind on one that has ended |
| `HandlerSteps.OwnedIffNotOvertaken` | src/server.rs:1647-1667 | in every run, every binding is always on the very allocation looked up for it if and only if no binding is overtaken by the end of its allocation |
| `HandlerSteps.ActsAsMeantIff` | src/server.rs:1040-1667 | in every run, bindings, removals and refreshes act on the allocation that was looked up and relayed ChannelData goes through a binding made for the sender's allocation, if and only if no binding is overtaken and no removal, refresh or relay comes after the end of its allocation and finds something else there |
| `HandlerSteps.BindingCanBeOvertaken` | src/server.rs:1647-1667 | a seven-step run in which a binding ends up on another client's later allocation of the port |
| `HandlerSteps.RemovalCanMiss` | src/server.rs:1470-1498 | a seven-step run in which a removal that comes too late ends another client's allocation |
| `TurnServer.CollectPeers` | src/server.rs:1574-1586 | the decodable peer addresses, all of them, in order |
| `TurnServer.ReadMessage` | src/server.rs:935-1025 | the message in a packet: strict on streams, strict then lenient on datagrams, none in ChannelData |
| `Dispatcher.ClientOrder` | src/server.rs:869-929 | for any hash, worker count and interleaving, a client's packets are handled in the order received, and all of them exactly when none waits and none was lost |
| `Dispatcher.OneHandlerPerClient` | src/server.rs:869-929 | two workers never handle packets of one client at once |
| `Dispatcher.ReceiveLaw` | src/server.rs:917-926 | a packet goes to the end of the queue its client's hash picks, and is lost exactly when that worker is dead or has 1024 waiting |
| `Dispatcher.QueuesStayBounded` | src/server.rs:888 | no queue ever holds more than 1024 packets |
| `Dispatcher.WorkerDrains` | src/server.rs:891-900 | a live worker that nothing interrupts handles all that waits, in order |
| `Dispatcher.PanicIsForGood` | src/server.rs:891-900 | a worker whose handler panicked is gone for good |
| `Bandwidth.BandwidthLimiter.TryConsume` | src/bandwidth.rs:39-80 | whatever exchanges fail, takes the specified tokens and sets the time, or changes nothing |
| `Bandwidth.CreditIsEarned` | src/bandwidth.rs:44-52 | seconds and nanoseconds converted apart, rounded and saturated, never credit more than rate times time |
| `Bandwidth.CreditIsFloor` | src/bandwidth.rs:44-52 | the credit is exactly rate x elapsed nanoseconds / 10^9, rounded down and saturated once |
| `Bandwidth.ConsumedExactly` | src/bandwidth.rs:39-80 | a call passes exactly when what was left and has been earned since, at most the burst, covers its size, and takes exactly that |
| `Bandwidth.RateBound` | src/bandwidth.rs:39-80 | from any state and in any window, the bytes let through are at most burst + rate x elapsed |
| `Bandwidth.FullAfterTenSeconds` | src/bandwidth.rs:39-80 | after ten idle seconds a call is accepted if and only if its size is within the burst |
| `BandwidthSteps.KeepsRateIff` | src/bandwidth.rs:39-80 | calls with given times, overlapping or not, stay within burst + rate x elapsed for every bucket and all sizes if and only if no more time is credited after the first exchange than passes between the earliest and the latest call |
| `BandwidthSteps.WindowsIff` | src/bandwidth.rs:39-80 | for exchanges in the order of their times, the rate is kept in every window if and only if every call had read a last update no earlier than the exchange before it, or was credited nothing |
| `BandwidthSteps.RunKeepsRate` | src/bandwidth.rs:39-80 | in every interleaving of reading the time, reading the last update, exchanging and writing, every window that credits no time twice keeps the rate |
| `BandwidthSteps.OneAtATimeKeepsRate` | src/bandwidth.rs:39-80 | in runs whose calls do not overlap, every window keeps the rate |
| `BandwidthSteps.OverlappingCallsOverspend` | src/bandwidth.rs:42-75 | a ten-step run of three calls that lets twelve bytes through where eleven are allowed |
| `BandwidthManager.BandwidthManager.RegisterAllocation` | src/bandwidth.rs:261-268 | the allocation gets a full bucket of its own, replacing any it had |
| `BandwidthManager.BandwidthManager.UnregisterAllocation` | src/bandwidth.rs:271-273 | only that allocation's bucket goes |
| `BandwidthManager.BandwidthManager.TryRelay` | src/bandwidth.rs:277-296 | takes the specified step on the shared limiters: the server's bucket first, then the allocation's, then the counter |
| `BandwidthManager.RelayLaw` | src/bandwidth.rs:277-296 | a packet is relayed exactly when both buckets that apply hold its size; what each bucket and the counter pay, and that nothing else changes |
| `BandwidthManager.NewBucketHolds` | src/bandwidth.rs:247-259 | a new bucket with a limit holds ten seconds' worth, at most 2^64 - 1 |
| `BandwidthManager.CounterIsAccepted` | src/bandwidth.rs:277-300 | the counter is the sum of the accepted sizes modulo 2^64, over every run |
| `BandwidthManager.GlobalBound` | src/bandwidth.rs:247-296 | with a server limit, the bytes relayed in any window of any run are at most saturated ten seconds' worth + limit x elapsed |
| `BandwidthManager.CounterBound` | src/bandwidth.rs:247-300 | so the counter itself obeys that bound from the start |
| `BandwidthManager.AllocationBound` | src/bandwidth.rs:189-296 | a registered allocation obeys its own limit in every window after its registration, whatever the others do |
| `BandwidthManager.RelayAll` | src/bandwidth.rs:247-296 | a new manager with a limit, put through any operations, relays exactly the accepted sizes and stays within the bound |
| `Cidr.SubnetIsPrefix` | src/auth.rs:127-150 | the mask test is equality of the top bits for every mask from one on, between addresses of four parts; a zero mask matches any text |
| `Cidr.LongerPrefixIsInside` | src/auth.rs:127-150 | a longer prefix of a base is contained in every shorter one |
| `Cidr.PrintedRange` | src/auth.rs:113-150 | on printed IPv4 addresses and masks the textual check is the prefix check, for every mask |
| `Cidr.PrintedPrefix` | src/auth.rs:113-150 | the same as a division of the two address numbers by two for every open bit |
| `Cidr.TooManySlashes` | src/auth.rs:113-125 | a range with two slashes or more matches nothing |
| `Cidr.ThreeDots` | src/auth.rs:127-135 | unless the mask is zero, only texts with exactly three dots match |
| `Cidr.BadMask` | src/auth.rs:113-125 | a mask that is not a number stands for all 32 bits |
| `Cidr.BadOctet` | src/auth.rs:131-132 | a part that is not a number below 256 stands for zero |
| `Acl.SortIsStable` | src/auth.rs:167-171 | the sort used is a permutation in priority order that keeps the order within each priority |
| `Acl.FirstOfSorted` | src/auth.rs:103-111 | on a sorted list the first match is the matching rule of highest priority, earliest added on ties, and there is none exactly when nothing matches |
| `Acl.AuthManager.RemoveAclRule` | src/auth.rs:178-181 | all and only the rules of that range and priority go |
| `Acl.AuthManager.CheckAcl` | src/auth.rs:103-111 | refused exactly when the first rule whose range covers the address denies; allowed when none covers it |
| `Acl.CheckFollowsLog` | src/auth.rs:59-181 | after any history and for every address, the deciding rule is the covering one of highest priority, earliest added on ties, if and only if a rule was added since the last load or no loaded rule overtakes a better one for that address uncovered by earlier rules; and none decides exactly when none covers |
| `Acl.CheckAnswersLog` | src/auth.rs:59-181 | the same equivalence for the answer itself: only rules of different actions matter, and only when nothing beats the later one |
| `AclRanges.OverlapIsNesting` | src/auth.rs:127-150 | two prefixes share exactly the longer one when they are nested and nothing otherwise |
| `AclRanges.InOrderByPrefixes` | src/auth.rs:59-150 | a list of printed prefixes and bare addresses is in order for every IPv4 address if and only if, wherever a rule stands before a nested one of higher priority, the longer prefix lies within the ranges before |
| `AclRanges.LoadedOutOfOrder` | src/auth.rs:75-111 | a loaded list that lets 10.1.2.3 through although its highest rule denies it |
| `AclRanges.LoadedApart` | src/auth.rs:75-111 | a loaded list out of priority order whose prefixes are apart, which decides every IPv4 address by the best rule |
| `Acl.RulesFromLog` | src/auth.rs:167-181 | after any history the list is the stably sorted log, or the log as loaded before the first addition |

## Left out

- Sockets, tasks, TLS and DTLS, timers and logging: I/O; packets, times and outcomes are inputs.
- HMAC-SHA1, MD5, nonce generation, UTF-8 decoding and the user database: arbitrary functions or inputs.
- The attributes of replies other than the Binding reply: only the kind of answer, its error code and its nonce are modelled.
- IPv6 addresses: the source writes placeholders for them, and no round trip is intended.
- src/health.rs, src/tls.rs, src/sds.rs, src/config.rs, src/main.rs, src/metrics.rs, src/errors.rs: plumbing that would only add easy members.
- src/oauth.rs and src/short_term.rs: thin layers over libraries.
- The client transport registry, statistics, `relay_to_peer`, `peer_to_relay`, `next_id`, `available_tokens`, `reset` and `UserBandwidthTracker`: single-branch helpers or repetitions of what is modelled.
- Adding, listing and removing users and API keys: map operations without further properties.
- TurnServer.TurnServer.Step: one handler at a time, as for the theorems of TurnSafety; the interleaved critical sections of handlers are HandlerSteps and AllocationSteps, which do not model requests and authentication.
- Lenient.LenientLoop: datagrams of at most 65536 octets, the size of the receive buffer; so for Lenient.Fallback, TurnServer.ReadMessage and TurnServer.TurnServer.Step.
- AllocationTable.AllocationTable.MaySendTo: the send itself and the forwarding counters are not modelled.
- BandwidthSteps.KeepsRateIff: times within 2^64 nanoseconds of the start, which is 584 years; the half that the rate is kept needs no such limit (CreditedOnceKeepsRate).
- BandwidthManager.GlobalBound: one caller of the manager at a time.
- ClientFrames.RelayFromPeer: IPv4 peers only.
- Dispatcher.ClientOrder: one UDP listener; a client that reaches the server through several listeners is not ordered between them.
