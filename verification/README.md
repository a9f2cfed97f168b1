# Verified models of a transport, proxy and router code base

The repository holds several small C systems. This project models their hardest logic in Dafny and proves what
that logic guarantees.

* **STCP**, the transport protocol of `TCP/src/transport1.c` over `TCP/src/stcp_api.c`. Two endpoints, one active and
  one passive, are joined by reliable first-in first-out packet channels. A step is one blocking point of the
  handshake, one iteration of `control_loop`, or one call of an application. All results hold in every state that
  any run can reach from the first SYN on, for every interleaving and every choice of initial sequence numbers
  (0 to 255), and for the active end as for the passive one. The endpoint exists twice: as functions on values
  (`Stcp.dfy`), about which the results are proved, and as an object whose fields are updated in place
  (`StcpContext.dfy`), each method of which is proved to do what the functions say. `StcpHosts.dfy` runs two such objects under any schedule and proves that their state is always
  that of the model's run.
* **The socket layer** under it: the linked packet queues (`PacketQueue.dfy`), the application's calls
  (`MySock.dfy`), the listen backlog and descriptor table (`Demux.dfy`, `DemuxRuns.dfy`), the chained hash table
  (`HashTable.dfy`) and the length-prefixed framing (`Framing.dfy`).
* **SHA-1**: the streaming code (`Sha1.dfy`) against the one-shot definition of FIPS PUB 180-1 (`Sha1Spec.dfy`), with the
  standard's own example worked out (`Sha1Vectors.dfy`).
* **The two Internet checksum routines** and their agreement (`Checksum.dfy`).
* **The HTTP request parser and printer**: C string functions (`HttpText.dfy`), parsing and printing on values
  (`HttpRequest.dfy`, `HttpShape.dfy`, `HttpLine.dfy`, `HttpAccept.dfy`, `HttpReparse.dfy`) and the request object with
  its tombstoned, growing header array (`HttpHeaders.dfy`).
* **The router's ARP request queue and cache** (`Arp.dfy`, `ArpSteps.dfy`) and its longest-prefix match (`Routing.dfy`).

`dafny verify dfyconfig.toml` checks everything.

## How the STCP proof is built

A stream has one position for each byte and one for the FIN. `Carries` says that the segments in a channel are
exactly the positions between what the receiver has processed and what the sender has sent, numbered modulo 2^32;
`Acknowledges` says that the acknowledgements in the opposite channel climb strictly from the recorded one to
what the receiver has processed. Both are kept for both directions at once by each part of an iteration
(`StcpInvariant`), by the handshake and by the applications (`StcpProtocol`), and the results follow
(`StcpTheorems`). `StcpProgress` adds a measure of the work left that falls with every productive iteration, and
`StcpClose` a second invariant about the order of FINs and acknowledgements in the channels.

Each endpoint carries a history (bytes written, received and read, positions acknowledged, whether its FIN was sent in
the established state). No step of an endpoint depends on it, except that an application that has called `myclose`
makes no further calls.

## Where the code differs from its documentation

The model follows the code.

* `TCP/README.md` asks for pure acknowledgements that carry the next unsent sequence number. The one of the handshake
  does; those of the loop carry 0, so they do exactly when that number is 0 (`StcpTheorems.PureAckNumber`).
* `TCP/README.md` asks for a receiver that can take data together with a FIN; the code queues the end marker before
  the data and acknowledges the FIN alone, so such data are lost (`StcpTheorems.FinWithData`). STCP itself sends none.
* `TCP/README.md` says a connection is closed once both sides have sent FINs and had them acknowledged. A FIN that
  arrives in FIN_WAIT_1 changes no state, so this fails exactly when the FINs cross, both of them being sent in the
  established state: `StcpClose.CrossingHappens` is a run where they do, `StcpClose.CrossedForever` shows that it never
  ends, and `StcpClose.CloseDecided` that under every fair schedule every other close ends. All data are delivered
  either way.
* `TCP/README.md` numbers SYN, bytes and FIN sequentially, so the first byte should be one past the SYN. The active
  endpoint counts its handshake acknowledgement too, and its first byte is two past it; the rule holds exactly for the
  passive endpoint (`StcpTheorems.FirstByteNumber`).
* A read of size zero sets the end-of-file flag although data is waiting (`PacketQueue.EofExactlyAtMarker`).
* A default route, with mask 0, is never chosen, because the loop starts from a longest match of 0. The loop finds the
  longest match exactly when another route covers the address or the table has no default route
  (`Routing.DefaultRouteIgnored`, `Routing.OnlyDefault`).
* ARP requests are meant to be sent again after more than a second. The code stores one clock reading and tests a
  later one, so a second that passes between the two is missing between recorded broadcasts (`Arp.LateSpacing`); they
  are more than a second apart in all runs exactly when the readings agree (`Arp.SpacingExactly`).
* A key inserted twice into the hash table leaves the older value behind after a delete, which is when the final
  assertion of the delete fails (`HashTable.Table.Delete`, `HashTable.DeleteAfterTwoInserts`).
* Lines without a colon become keys of every header they precede, so a request can print to a text too long to be
  parsed again (`HttpReparse.PrintedTooLong`, `HttpReparse.ParsePrintParse`).

## Model

| member | source | states |
|---|---|---|
| `StcpProtocol.RunInv` | TCP/src/transport1.c:54-335 | every run from a state with the protocol invariant (stream contents, numbering, acknowledgements, states, both directions) stays in it |
| `StcpProtocol.ReachableInv` | TCP/src/transport1.c:54-335 | every state that any run can reach from two fresh endpoints has the invariant |
| `StcpProtocol.ReachableEither` | TCP/src/transport1.c:54-151 | the two ends may be exchanged in every reachable state, so every result below about x holds of the active and of the passive end |
| `StcpInvariant.IterateCore` | TCP/src/transport1.c:195-334 | one iteration of the loop, whatever events it finds, keeps the invariant of both directions |
| `StcpInvariant.Receive` | TCP/src/transport1.c:206-281 | processing the head packet of a channel keeps the invariant and never raises what is in flight |
| `StcpInvariant.SendData` | TCP/src/transport1.c:282-309 | reading from the application within the window and sending the segments keeps the invariant |
| `StcpInvariant.SendTheFin` | TCP/src/transport1.c:311-331 | sending the FIN, with nothing queued, keeps the invariant |
| `StcpInvariant.WindowExact` | TCP/src/transport1.c:202 | the wrapping subtraction and the conversion to `int` give exactly 3072 minus the unacknowledged range, between -1 and 3072 |
| `StcpInvariant.WrapDecides` | TCP/src/transport1.c:222 | fewer than 2^32 positions apart, equal sequence numbers mean equal positions |
| `StcpStreams.SegmentsCarry` | TCP/src/transport1.c:289-308 | segmentation cuts the data into consecutive, non-empty segments of at most 536 bytes, correctly numbered, that together are the data |
| `StcpTheorems.DeliveredInOrder` | TCP/src/transport1.c:206-309 | in every reachable state and in both directions: bytes read, readable, in the channel and still queued, in this order, are the bytes written; no segment exceeds 536 bytes |
| `StcpTheorems.EofMeansComplete` | TCP/src/mysock_api.c:212-233 | an application, on either end, that has seen end of file has read all its peer wrote, and the peer has closed |
| `StcpTheorems.AcksSound` | TCP/src/transport1.c:202-280 | the acknowledgements in a channel number positions the peer has processed, strictly increasing beyond the recorded one; the unacknowledged range modulo 2^32 is at most 3072, 3073 after the FIN; the read from the application fits its 3072-byte buffer |
| `StcpSending.IterationSends` | TCP/src/transport1.c:202-309 | an iteration sends exactly the first bytes of the head buffer, as many as 3072 less the unacknowledged ones allow, in segments of 536 bytes but the last, numbered on from the current number; the queue keeps the rest; with a shut window or nothing queued it sends no data |
| `StcpSending.ReachableSends` | TCP/src/transport1.c:202-309 | so does every iteration in every reachable state |
| `StcpTheorems.WindowReopens` | TCP/src/transport1.c:202-282 | whenever the window is not positive before the FIN, an unprocessed segment or acknowledgement is in a channel |
| `StcpTheorems.FinWait2Sound` | TCP/src/transport1.c:216-229 | FIN_WAIT_2 only if the peer has processed the FIN and every byte written |
| `StcpTheorems.ClosedReceivedAll` | TCP/src/transport1.c:256-260 | a closed endpoint has received its peer's whole stream and FIN, whichever way it closed |
| `StcpTheorems.ClosedFromFinWait2` | TCP/src/transport1.c:256-260 | a step from FIN_WAIT_2 to CLOSED leaves both streams completely delivered |
| `StcpTheorems.FinEndsStream` | TCP/src/transport1.c:311-319 | a FIN in a channel is numbered just past the last byte ever written; only acknowledgements follow it |
| `StcpTheorems.CloseReportedOnce` | TCP/src/stcp_api.c:69-90 | the close event comes never with application data, only when everything written has been sent, at most once, and afterwards only acknowledgements are sent |
| `StcpTheorems.HandshakeSucceeds` | TCP/src/transport1.c:76-149 | two such endpoints never refuse each other, and the passive end is up only after the active one |
| `StcpTheorems.SynAckJudged` | TCP/src/transport1.c:86-108 | the active end is refused if and only if the first packet is not a SYN-ACK of its SYN; either way it acknowledges and is up |
| `StcpTheorems.SynJudged` | TCP/src/transport1.c:113-135 | the passive end is refused if and only if the first packet is not a SYN; either way it answers |
| `StcpTheorems.NeverBackwards` | TCP/src/transport1.c:216-220 | after the first acknowledgement no step moves `ack_num` backwards or past what was sent: in wrapping arithmetic the new value lies in the unacknowledged range of at most 3073 numbers; nothing received, read or written is taken back |
| `StcpTheorems.PureAckNumber` | TCP/README.md:65 | of all packets an endpoint ever sends, a pure acknowledgement carries the next unsent sequence number if and only if it is that of the handshake or that number is 0 |
| `StcpTheorems.NumberedFromInitial` | TCP/src/transport1.c:76-135 | in every reachable state an endpoint's stream is numbered from its initial sequence number, two past it if active, one past it if passive |
| `StcpTheorems.FirstByteNumber` | TCP/README.md:63 | the first segment of an endpoint carries the number one past its initial one if and only if the endpoint is passive |
| `StcpTheorems.FinWithData` | TCP/README.md:108 | data that come with a FIN can be read, and are acknowledged, if and only if there are none |
| `StcpProgress.LoopNeverAddsWork` | TCP/src/transport1.c:195-334 | no iteration raises the measure of the work left |
| `StcpProgress.IterateWork` | TCP/src/transport1.c:195-334 | an iteration with a packet, with data and an open window, or with a close to report, lowers the measure |
| `StcpProgress.Progress` | TCP/src/transport1.c:195-334 | no deadlock: unless both endpoints have nothing left to do, a step is enabled that lowers the measure |
| `StcpProgress.SettledDelivered` | TCP/src/transport1.c:195-334 | when both have nothing left to do, both streams are completely received |
| `StcpProgress.AloneWork` | TCP/src/transport1.c:76-334 | every step of an endpoint, handshake or iteration, changes nothing or lowers the measure |
| `StcpProgress.EventualDelivery` | TCP/README.md:11 | from every reachable state, under every schedule that offers each endpoint its steps round after round, as many rounds as there is work left end with nothing left to do and both directions completely delivered |
| `StcpProgress.FairScheduleExists` | TCP/README.md:11 | from every reachable state there is such a schedule |
| `StcpClose.IterateClosing` | TCP/src/transport1.c:216-331 | one iteration keeps the order of FINs and acknowledgements: in a crossing the FIN comes first, after a close by the peer the acknowledgement does |
| `StcpClose.CrossingHappens` | TCP/src/transport1.c:252-260 | a reachable state where both applications have closed and the FINs cross |
| `StcpClose.CrossedForever` | TCP/src/transport1.c:252-260 | once the FINs have crossed, neither endpoint finishes in any continuation |
| `StcpClose.CloseOutcome` | TCP/README.md:109 | when both applications have closed and nothing is left to do, each endpoint is done if and only if not both FINs had been sent in the established state |
| `StcpClose.CloseDecided` | TCP/README.md:109 | once both FINs have been sent the outcome is decided: every fair schedule ends with both streams delivered, and with both endpoints done if and only if the FINs had not crossed |
| `StcpClose.CloseAfterPeerFinishes` | TCP/src/transport1.c:311-331 | with both applications closed and one endpoint, active or passive, in CLOSE_WAIT or finished, every fair schedule finishes both, with everything delivered |
| `StcpContext.Context.constructor` | TCP/src/transport1.c:54-66 | a fresh context is the initial endpoint |
| `StcpContext.Context.ActiveOpen` | TCP/src/transport1.c:78-84 | sends the SYN as the model's endpoint does |
| `StcpContext.Context.ReceiveSynAck` | TCP/src/transport1.c:86-108 | takes one packet, checks it, and acknowledges as the model's endpoint does |
| `StcpContext.Context.ReceiveSyn` | TCP/src/transport1.c:113-135 | takes one packet, checks it, and answers as the model's endpoint does |
| `StcpContext.Context.ReceiveHandshakeAck` | TCP/src/transport1.c:137-149 | takes one packet and enters the established state |
| `StcpContext.Context.WaitEvent` | TCP/src/stcp_api.c:62-127 | returns the ready events and clears a close request exactly when it reports it |
| `StcpContext.Context.HandlePacket` | TCP/src/transport1.c:206-281 | the new fields and the packets sent are those of the model's endpoint |
| `StcpContext.Context.SendInSegments` | TCP/src/transport1.c:289-308 | the loop sends exactly the segments of its data and advances the sequence number by its length |
| `StcpContext.Context.HandleAppData` | TCP/src/transport1.c:282-309 | reads at most the window from the application and sends it |
| `StcpContext.Context.HandleClose` | TCP/src/transport1.c:311-331 | sends the FIN and moves to FIN_WAIT_1 or CLOSED |
| `StcpContext.Context.LoopBody` | TCP/src/transport1.c:195-334 | one pass of the loop is one iteration of the model's endpoint: same new state, same packets, one packet consumed if one had arrived |
| `StcpContext.Context.AppWrite` | TCP/src/mysock_api.c:205-206 | the application's buffer joins the queue whole |
| `StcpContext.Context.AppRead` | TCP/src/mysock_api.c:222-232 | a read takes from the head buffer only, and nothing read sets end of file |
| `StcpContext.Context.AppClose` | TCP/src/mysock_api.c:170 | leaves the close request |
| `StcpHosts.RunHosts` | TCP/src/transport1.c:54-335 | two contexts with their applications, stepped by any schedule, are in the state of the model's run |
| `StcpHosts.Converse` | TCP/README.md:11 | after any schedule what each application has read is a prefix of what the other has written |
| `PacketQueue.TakeFlatten` | TCP/src/mysock.c:196-225 | a partial or whole read and what it leaves are together what was queued |
| `PacketQueue.ReadsFollowStream` | TCP/src/mysock.c:130-228 | in every run of enqueues and non-zero-size reads, the bytes read are a prefix of those enqueued before the first empty buffer, and all of them once end of file is seen |
| `PacketQueue.EofIsForever` | TCP/src/mysock_api.c:222-230 | after end of file nothing more is read, whatever is enqueued |
| `PacketQueue.EofExactlyAtMarker` | TCP/src/mysock_api.c:225-230 | a read sets end of file if and only if the head buffer is empty or the size is zero |
| `PacketQueue.Queue.Enqueue` | TCP/src/mysock.c:130-165 | the linked list gains the buffer at its end |
| `PacketQueue.Queue.Dequeue` | TCP/src/mysock.c:174-228 | copies out and removes a whole or partial head buffer; without partial removal the packet is dropped whole |
| `MySock.Socket.MyWrite` | TCP/src/mysock_api.c:198-210 | queues the whole buffer, refused on a listening socket |
| `MySock.Socket.MyRead` | TCP/src/mysock_api.c:212-233 | one read of the queue run of `ReadsFollowStream`, end-of-file flag included; refused on a listening socket |
| `MySock.Socket.MyClose` | TCP/src/mysock_api.c:161-172 | leaves a close request and touches no queue |
| `MySock.Socket.AppSend` | TCP/src/stcp_api.c:250-260 | enqueues non-empty data for the application, nothing for empty data |
| `MySock.Socket.FinReceived` | TCP/src/stcp_api.c:262-268 | enqueues the end marker |
| `MySock.Socket.AppRecv` | TCP/src/stcp_api.c:236-247 | takes at most the asked number of bytes; what it takes and leaves is what was queued |
| `Demux.BacklogInvariant` | TCP/src/connection_demux.c:74-304 | in every run with the backlog set once: `cur_len` counts the occupied slots, pending peers are distinct, completed entries point at distinct occupied slots, accepts hand out each connection once in completion order |
| `DemuxRuns.SynQueues` | TCP/src/connection_demux.c:161-258 | a well-formed SYN of a peer not pending goes into the first free slot with the lowest free descriptor and a fresh number if there are both, and the counter rises by one; otherwise nothing changes |
| `DemuxRuns.SynIsAccepted` | TCP/src/connection_demux.c:74-304 | a queued connection whose completion is reported is handed out, with its peer and descriptor, by enough later accepts, whatever happens in between |
| `DemuxRuns.SlotCount` | TCP/src/connection_demux.c:310-357 | in every run there is one slot more than the backlog |
| `DemuxRuns.OtherSockets` | TCP/src/mysock.c:50-64 | another socket takes the lowest of 64 descriptors that is free, and gives it back when it is closed |
| `Demux.AssertionsHold` | TCP/src/connection_demux.c:104-113 | in every run the source's assertions hold: a free slot below the limit, the completed connection found, the counter above zero |
| `Demux.FreeSlotExists` | TCP/src/connection_demux.c:192-202 | fewer occupied slots than slots if and only if the search finds a free one |
| `Demux.ListenQueue.constructor` | TCP/src/connection_demux.c:310-357 | a new queue has one slot more than the backlog, all free |
| `Demux.ListenQueue.EnqueueConnection` | TCP/src/connection_demux.c:142-258 | queues a new peer in the first free slot with a new descriptor; drops non-SYNs, retransmissions and overflow |
| `Demux.ListenQueue.PassiveConnectionComplete` | TCP/src/connection_demux.c:260-304 | appends the connection's slot to the completed queue |
| `Demux.ListenQueue.DequeueConnection` | TCP/src/connection_demux.c:74-118 | hands out the oldest completed connection, an open descriptor, and frees its slot |
| `Demux.RunListener` | TCP/src/connection_demux.c:74-357 | a queue and a descriptor table, after any sequence of SYNs, completions, accepts and other sockets, are in the state of the run, with its invariants |
| `Demux.DescriptorTable.New` | TCP/src/mysock.c:50-64 | takes the lowest free descriptor, or -1 if and only if all 64 are in use |
| `Demux.DescriptorTable.Release` | TCP/src/mysock.c:328-331 | frees exactly that descriptor |
| `HashTable.FirstIsHead` | TCP/src/mysock_hash.h:65-75 | the chain walk finds the newest value of a key, or nothing if there is none |
| `HashTable.Table.Insert` | TCP/src/mysock_hash.h:77-94 | pushes a value for its key; every other key is unchanged |
| `HashTable.Table.LookupPtr` | TCP/src/mysock_hash.h:103-107 | the newest value of the key, or none |
| `HashTable.Table.EntryExists` | TCP/src/mysock_hash.h:109-113 | true if and only if the key has a value |
| `HashTable.Table.SetEntry` | TCP/src/mysock_hash.h:115-122 | replaces the newest value or inserts; every other key is unchanged |
| `HashTable.Table.Delete` | TCP/src/mysock_hash.h:124-144 | removes the newest value of the key only; the final assertion holds if and only if there was at most one |
| `HashTable.RunOps` | TCP/src/mysock_hash.h:65-144 | any sequence of inserts of absent keys, sets and deletes refines a finite map, keys sharing buckets included |
| `HashTable.DeleteAfterTwoInserts` | TCP/src/mysock_hash.h:124-144 | inserted twice, a key keeps its older value after a delete, and the final assertion fails |
| `Framing.RecvFrame` | TCP/src/network_io_tcp.c:218-238 | a framed packet is received with its length, leaves the stream in step, and arrives whole if and only if it fits |
| `Framing.FrameOctets` | TCP/src/network_io_tcp.c:153-156 | a frame is the length modulo 65536, upper octet first, and the packet |
| `Framing.EmptyPacketEndsReceiving` | TCP/src/network_io_tcp.c:224-229 | an empty packet is received as the end of the connection |
| `Framing.ReceivesPrefix` | TCP/src/network_io_tcp.c:163-239 | repeated receives of a stream cut anywhere give a prefix of the packets sent, and all of them if it is whole |
| `Framing.FramingRoundTrip` | TCP/src/network_io_tcp.c:135-265 | for every list of non-empty packets of at most 1500 bytes and every schedule of short reads and writes, with a receiver that waits in the middle of a frame, exactly the packets sent are received, in order |
| `Framing.Transfer` | TCP/src/network_io_tcp.c:135-265 | sending a list through the loops and receiving it through the loops gives the list back, whatever the schedule of short calls |
| `Framing.Socket.WriteAll` | TCP/src/network_io_tcp.c:243-265 | writes everything through short writes |
| `Framing.Socket.ReadAll` | TCP/src/network_io_tcp.c:243-265 | reads exactly the count through short reads, or reports the end of the stream |
| `Framing.Socket.SendPacket` | TCP/src/network_io_tcp.c:135-160 | appends the packet's frame to the stream |
| `Framing.Socket.RecvPacket` | TCP/src/network_io_tcp.c:163-239 | the received packet, its return code and the rest of the stream, the unread remainder discarded |
| `Framing.Socket.ReceiveAll` | TCP/src/network_io_socket.c:260-272 | calls the receive until it returns 0 and gets exactly what repeated receives give |
| `Sha1Stream.HashPieces` | Router/src/router/sha1.c:104-371 | for every message and every way of cutting it, success if and only if it has fewer than 2^64 bits, and then the digest of the standard |
| `Sha1Stream.SHA1Context.Reset` | Router/src/router/sha1.c:71-85 | the context has absorbed nothing |
| `Sha1Stream.SHA1Context.Input` | Router/src/router/sha1.c:143-185 | the message grows by the input; input after a result corrupts the context, empty input does nothing |
| `Sha1Stream.SHA1Context.InputBytes` | Router/src/router/sha1.c:158-184 | the loop absorbs its input byte by byte and stops exactly when the length reaches 2^64 bits |
| `Sha1Stream.SHA1Context.CountByte` | Router/src/router/sha1.c:163-176 | the two length words count bits exactly and overflow exactly at 2^64 |
| `Sha1Stream.SHA1Context.ProcessMessageBlock` | Router/src/router/sha1.c:207-301 | the digest becomes the standard's compression of the block |
| `Sha1Stream.ExpandSchedule` | Router/src/router/sha1.c:224-235 | the 80 words are the standard's message schedule |
| `Sha1Stream.RunRounds` | Router/src/router/sha1.c:237-287 | the four loops are the standard's 80 rounds |
| `Sha1Stream.SHA1Context.PadMessage` | Router/src/router/sha1.c:326-371 | after padding in one or two blocks the digest is the standard's digest of the whole message |
| `Sha1Stream.SHA1Context.StoreLength` | Router/src/router/sha1.c:358-368 | the last eight octets of the block become the length in bits, most significant first; the others stay |
| `Sha1Stream.SHA1Context.Result` | Router/src/router/sha1.c:104-119 | fails if and only if the message reached 2^64 bits or non-empty input came after a result; otherwise the digest is the standard's, also when asked again |
| `Sha1Spec.PadInjective` | Router/src/router/sha1.c:326-371 | the padding tells where the message ends: different messages pad differently |
| `Sha1Spec.PadForm` | Router/src/router/sha1.c:326-371 | the padded message is the message, 0x80, zeros and the length in bits in eight octets, in the fewest blocks of 64 octets that hold them |
| `Sha1Spec.HashBlock` | Router/src/router/sha1.c:178-181 | one more block is one more compression of the digest so far |
| `Sha1Vectors.StepsAreRounds` | Router/src/router/sha1.c:224-287 | a window of sixteen words that moves with the rounds computes the same as the schedule of eighty |
| `Sha1Vectors.Sha1OfAbc` | Router/src/router/sha1.c:207-371 | the digest of "abc" is the one that appendix A of the standard gives |
| `Checksum.TwoFoldsSuffice` | TCP/src/tcp_sum.c:62-66 | two folds give the folded value of every 32-bit sum |
| `Checksum.FoldLoop` | Router/src/router/sr_utils.c:16-17 | the loop ends with the folded value, preserving the sum modulo 65535 |
| `Checksum.SwapCommutes` | TCP/src/tcp_sum.c:42-66 | summing byte-swapped words is byte-swapping the folded sum |
| `Checksum.Cksum` | Router/src/router/sr_utils.c:8-20 | the complement of the folded big-endian sum in network order, never zero |
| `Checksum.TcpChecksum` | TCP/src/tcp_sum.c:14-67 | the complement of the folded sum of pseudo header and packet with a zero checksum field |
| `Checksum.RoutinesAgree` | TCP/src/tcp_sum.c:42-66 | on every TCP packet both routines store the same two bytes, up to the two encodings of zero |
| `Checksum.SetChecksum` | TCP/src/tcp_sum.c:70-84 | stamps the packet and changes nothing else |
| `Checksum.VerifyChecksum` | TCP/src/tcp_sum.c:87-105 | true if and only if the stored checksum is the one computed |
| `Checksum.AddressesCommute` | TCP/src/tcp_sum.c:41-53 | source and destination may be swapped |
| `Checksum.StampedVerifies` | TCP/src/tcp_sum.c:70-105 | a stamped packet verifies at the receiver, addresses either way round |
| `Checksum.PseudoHeaderOctets` | TCP/src/tcp_sum.c:19-29 | the pseudo header octet by octet: addresses, 0, protocol 6, length |
| `Checksum.StampedOctets` | TCP/src/tcp_sum.c:70-84 | a stamp writes octets 16 and 17, least significant first, and no others |
| `Checksum.StampedSumsToZero` | TCP/src/tcp_sum.c:14-84 | over the pseudo header and a stamped packet the big-endian words sum to a multiple of 65535 |
| `Checksum.OneOctetDetected` | TCP/src/tcp_sum.c:87-105 | any change of one byte of a verifying packet makes it fail |
| `Checksum.StoredCksumChecks` | Router/src/router/sr_utils.c:8-20 | after storing `cksum` in a zeroed field at an even offset, `cksum` of the block is 0xffff |
| `Checksum.Rfc1071Example` | Router/src/router/sr_utils.c:8-20 | the example of section 3 of RFC 1071 |
| `HttpText.StrTokIs` | HTTP/starter_code/proxy_parse.c:392-401 | what one call of `strtok_r` finds and overwrites |
| `HttpShape.ParseIsText` | HTTP/starter_code/proxy_parse.c:391-493 | the chain of `strtok_r` calls on one buffer is a chain of cuts of strings, for every line |
| `HttpShape.AcceptedExactly` | HTTP/starter_code/proxy_parse.c:391-493 | a line is accepted with given fields if and only if it is made of pieces of the accepted shape and these are its fields |
| `HttpRequest.HeadersParseBack` | HTTP/starter_code/proxy_parse.c:509-527 | printed well-formed headers parse back to the same list, in order |
| `HttpLine.LineParsesBack` | HTTP/starter_code/proxy_parse.c:391-493 | every well-formed request line parses back to its fields |
| `HttpLine.RoundTrip` | HTTP/starter_code/proxy_parse.c:352-530 | parsing the text of a well-formed request that fits yields the request: method, protocol, host, port, path, version and headers |
| `HttpAccept.AcceptedIsWellFormed` | HTTP/starter_code/proxy_parse.c:391-493 | every request line the parser accepts has well-formed fields |
| `HttpAccept.RoundTripExactly` | HTTP/starter_code/proxy_parse.c:391-493 | a printed line parses back to its fields if and only if they are well formed |
| `HttpAccept.UsualLines` | HTTP/starter_code/proxy_parse.c:411-493 | a line of the usual form is accepted if and only if its version begins "HTTP/", its authority is not only colons, and a slash with no second one follows it |
| `HttpAccept.NoVersion` | HTTP/starter_code/proxy_parse.c:411-427 | a line without a second space is refused |
| `HttpAccept.ParsedHeadersParsed` | HTTP/starter_code/proxy_parse.c:226-254 | parsed headers have unique keys without colons and values without line ends |
| `HttpReparse.SettingsChained` | HTTP/starter_code/proxy_parse.c:509-527 | in every parse a key that runs over a line end is followed by its tail with the same value, and an empty line inside a key ends the parse |
| `HttpReparse.PrintedBack` | HTTP/starter_code/proxy_parse.c:509-527 | of a list in which tails come later, the settings made by reading its text leave the list itself |
| `HttpReparse.HeadersReparse` | HTTP/starter_code/proxy_parse.c:166-254 | whatever headers a parse produces, their printed text parses back to them |
| `HttpReparse.RequestRoundTrip` | HTTP/starter_code/proxy_parse.c:299-530 | a request parses back from its own text if and only if its line is well formed, its headers have unique keys, clean parts and their tails in order, and the text is within the parser's limit |
| `HttpReparse.ParsesExactly` | HTTP/starter_code/proxy_parse.c:365-389 | a buffer is accepted if and only if it has 4 to 65535 octets and an empty line, and its request line and headers are accepted |
| `HttpReparse.NoColonRefused` | HTTP/starter_code/proxy_parse.c:233-239 | a header line with no colon in it or behind it is refused |
| `HttpReparse.ParsePrintParse` | HTTP/starter_code/proxy_parse.c:299-530 | for every text the parser accepts, what was parsed, printed and parsed again is the same request if and only if the printed text is within the parser's limit |
| `HttpReparse.PrintedTooLong` | HTTP/starter_code/proxy_parse.c:365-367 | an accepted text of fewer than 1000 bytes whose request prints to more than 65535 and is refused |
| `HttpHeaders.SetOnlyOwnKey` | HTTP/starter_code/proxy_parse.c:40-69 | setting a header changes the value of its own key only |
| `HttpHeaders.LookupWithout` | HTTP/starter_code/proxy_parse.c:91-102 | removing a header removes its own key only |
| `HttpHeaders.LiveUnique` | HTTP/starter_code/proxy_parse.c:40-69 | the live headers of the array have unique keys |
| `HttpHeaders.LiveBury` | HTTP/starter_code/proxy_parse.c:91-102 | a tombstone takes exactly its key out of the live list |
| `HttpHeaders.ParsedRequest.Get` | HTTP/starter_code/proxy_parse.c:73-88 | finds the live header of the key, or none if and only if there is none |
| `HttpHeaders.ParsedRequest.Remove` | HTTP/starter_code/proxy_parse.c:91-102 | the live list loses the key; reports whether it was there |
| `HttpHeaders.ParsedRequest.Grow` | HTTP/starter_code/proxy_parse.c:46-53 | capacity exceeds use by two or more afterwards, contents unchanged |
| `HttpHeaders.ParsedRequest.Set` | HTTP/starter_code/proxy_parse.c:40-69 | the live list loses the key and gains the pair at its end; capacity still exceeds use |
| `HttpHeaders.ParsedRequest.HeadersLen` | HTTP/starter_code/proxy_parse.c:150-164 | the length of what is printed for the headers |
| `HttpHeaders.ParsedRequest.PrintHeaders` | HTTP/starter_code/proxy_parse.c:166-195 | succeeds if and only if there is room, writes exactly the live headers and an empty line |
| `HttpHeaders.ParsedRequest.RequestLineLen` | HTTP/starter_code/proxy_parse.c:536-551 | the length of what is printed for the request line |
| `HttpHeaders.ParsedRequest.PrintRequestLine` | HTTP/starter_code/proxy_parse.c:553-595 | succeeds if and only if there is room, writes exactly the request line |
| `HttpHeaders.ParsedRequest.TotalLen` | HTTP/starter_code/proxy_parse.c:330-335 | the length of the printed request |
| `HttpHeaders.ParsedRequest.Unparse` | HTTP/starter_code/proxy_parse.c:299-311 | succeeds if and only if a request was parsed and there is room, writes exactly its text |
| `HttpHeaders.ParsedRequest.Parse` | HTTP/starter_code/proxy_parse.c:352-530 | on success the object holds the parsed line and headers; a refused request line leaves it unchanged, refused headers leave the line and the headers set so far; an object takes one request |
| `HttpHeaders.Print` | HTTP/starter_code/proxy_parse.c:299-335 | printing into `totalLen` bytes always succeeds and fills the buffer |
| `HttpHeaders.PrintThenParse` | HTTP/starter_code/proxy_parse.c:299-530 | a well-formed object printed and parsed anew has the same line and live headers, tombstones gone |
| `Arp.ArpInvariant` | Router/src/router/sr_arpcache.c:19-216 | in every run of queueing, replies and sweeps: at most one pending request per address, at most five broadcasts of each, each when the second clock reading is more than a second past the first one of the time before, and every packet queued is pending, handed back once or reported unreachable once |
| `Arp.SpacingBound` | Router/src/router/sr_arpcache.c:30-53 | with readings at most so many seconds apart, recorded broadcasts of a request are more than one second less that many apart |
| `Arp.LateSpacing` | Router/src/router/sr_arpcache.c:32-33 | a run whose recorded broadcasts are one second apart |
| `Arp.SpacingExactly` | Router/src/router/sr_arpcache.c:32-33 | recorded broadcasts are more than a second apart in all runs if and only if the two readings of a call agree |
| `ArpSteps.ReplyStores` | Router/src/router/sr_arpcache.c:160-171 | a reply is stored, valid and with its time, in the first invalid entry; a full table does not change |
| `ArpSteps.TickExpires` | Router/src/router/sr_arpcache.c:266-273 | a timeout pass invalidates exactly the entries more than 15 seconds old |
| `ArpSteps.LearnedUntilExpiry` | Router/src/router/sr_arpcache.c:62-171 | a learned address is found by every lookup until a timeout pass more than 15 seconds later and by none afterwards, short of another reply for it |
| `ArpSteps.LookupAfter` | Router/src/router/sr_arpcache.c:62-84 | a lookup in a cache after any steps finds the last valid entry of the address in the state of the run |
| `ArpSteps.SendJoins` | Router/src/router/sr_arpcache.c:92-131 | a packet joins the request of its own address, in front of those waiting, and that request is treated at once; no other request changes |
| `ArpSteps.HandleTreats` | Router/src/router/sr_arpcache.c:30-56 | a request is left alone within a second, given up after five broadcasts with every packet reported in order, and broadcast again otherwise |
| `ArpSteps.SweepTreats` | Router/src/router/sr_arpcache.c:19-28 | a sweep treats every request once, in order |
| `ArpSteps.GivenUpAfterFive` | Router/src/router/sr_arpcache.c:30-56 | in every run a request leaves the queue without a reply only after exactly five broadcasts |
| `ArpSteps.TableSize` | Router/src/router/sr_arpcache.c:161-166 | in every run the table has 100 entries |
| `Arp.DoInv` | Router/src/router/sr_arpcache.c:19-216 | every step keeps this |
| `Arp.HandleInv` | Router/src/router/sr_arpcache.c:30-56 | handling one request keeps it |
| `Arp.SweepInv` | Router/src/router/sr_arpcache.c:19-28 | the sweep, walking a list that shrinks under it, keeps it |
| `Arp.ArpCache.Lookup` | Router/src/router/sr_arpcache.c:62-84 | the last valid entry of the address, none if and only if there is none |
| `Arp.ArpCache.QueueReq` | Router/src/router/sr_arpcache.c:92-131 | the packet is pushed onto the request of its address, new or found |
| `Arp.ArpCache.HandleArpReq` | Router/src/router/sr_arpcache.c:30-56 | tests the second clock reading and stores the first: broadcasts again, or reports every packet unreachable and drops the request |
| `Arp.ArpCache.SweepReqs` | Router/src/router/sr_arpcache.c:19-28 | handles every pending request once, each with its own clock readings |
| `Arp.ArpCache.InsertMapping` | Router/src/router/sr_arpcache.c:137-176 | takes the request out, and stores the mapping in the first invalid entry if there is one |
| `Arp.ArpCache.TimeoutPass` | Router/src/router/sr_arpcache.c:264-277 | invalidates exactly the entries older than 15 seconds at one reading, then sweeps at later ones |
| `Arp.RunCache` | Router/src/router/sr_arpcache.c:19-281 | a cache after any sequence of sends, replies and timeout passes is in the state of the run, with its invariants |
| `Routing.LongestPrefixMatch` | Router/src/router/sr_router.c:314-328 | the earliest matching route of longest prefix among those with a non-zero mask, none if and only if none matches |
| `Routing.BestIsUnique` | Router/src/router/sr_router.c:314-328 | there is only one such route |
| `Routing.CompareIsPrefixOrder` | Router/src/router/sr_router.c:322 | for contiguous masks, integer comparison is prefix comparison, in network order as in host order |
| `Routing.BestSwapped` | Router/src/router/sr_router.c:374-387 | the best route does not depend on the byte order the table is held in |
| `Routing.DefaultRouteIgnored` | Router/src/router/sr_router.c:315-328 | the loop finds the longest match among all routes if and only if a route with a non-zero mask covers the address or there is no default route |
| `Routing.OnlyDefault` | Router/src/router/sr_router.c:315-328 | a table of only a default route: the loop finds none, although it is the longest match |

## Left out

- Applications: `myclose` is called once and no socket call is made after it, as the code asserts; reads in STCP runs have a non-zero size (`PacketQueue.EofExactlyAtMarker` covers size zero); a call on a blocked or finished endpoint changes nothing.
- Atomicity: a loop iteration, a handshake stage and every locked operation is one step; locks, condition variables and threads are not modelled.
- Connection loss and failed sends: the network is reliable, as the assignment states, and sends never fail.
- Segments over 536 bytes: the code would read past its buffer; the model cuts the copy, and `StcpTheorems.DeliveredInOrder` shows that none occurs.
- The check on the third handshake message: it only sets fields that are never read, like every use of `opp_window_size`.
- The `FIXED_INITNUM` build option, under which the first sequence number in use is not the one announced.
- `TCP/src/transport.c`, whose window variable is never assigned.
- Backlog changes while connections are pending, and closing a listening socket.
- Linked lists other than the packet queue: the completed connections, the hash chains and the ARP lists are sequences, so the relinking of nodes in them is not captured.
- HashTable.Table.LookupPtr: keys are non-negative integers and the hash is the remainder, the instance the demultiplexer uses.
- Checksums: a little-endian host, addresses as octets, and, for the TCP routine, packets of 20 to 1500 octets.
- HTTP: the `strtol`/`errno` port check, allocation failure and the `int` lengths' overflow; a read past the end of the buffer counts as a refused request.
- ARP: clock readings are whole seconds, and the second one of a call is not before the first; a send is an entry in a log and does not re-enter the cache.
- Routing: masks are contiguous, and the table is a sequence.
- Packet handling in the router around these loops, ICMP and ARP frames, DNS, sockets, file access, logging, memory management, the proxy, client and server programs, and the Python files.
