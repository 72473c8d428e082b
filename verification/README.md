# qlinux: what its security kernel keeps

A Dafny model of the parts of qlinux that everything else leans on, with proofs of what they keep
over every input and every run:

- the Poly1305 authenticator of `uhf`, from 26-bit limbs up to the polynomial of RFC 8439;
- the one-time-key lanes of `qkey`, the QTLS records built on them, and two nodes that exchange such
  records over a channel which loses, repeats and reorders;
- the packet formats (Ethernet, IPv4, UDP) those records travel in;
- the sessions of the network stack, end to end between two stacks;
- error reconciliation, Toeplitz compression and the key-block bookkeeping of `qphy`;
- the round-robin scheduler, the frame allocator and the bump allocator of the kernel;
- word-count sessions (`wc_auth`) and the three-hop onion circuit (`qtor`) made of them.

Code that updates its state step by step is modelled by classes and loops (`Poly1305`, `KeyLane`,
`RxQueue`, `NetStack`, `Network`, `SimQuantumLink`, `Scheduler`, `FrameAllocator`, `WcAuthSession`, `Circuit`,
and the methods of `Qtls`, `Frames`, `Checksum`, `Reconcile`, `Toeplitz`); each method is proved
against a function or relation on values, and the laws are proved of those. A nested loop of the source is
a method per level. A whole run is a sequence of events or calls, and the run theorems quantify
over all of them.

`dafny verify dfyconfig.toml` checks the project.

## How the files fit together

| files | content |
|---|---|
| `Bits`, `Bytes`, `Modular`, `Sets`, `Ring`, `Wrappers` | words, octet strings, residues, rotations |
| `PolyField`, `Poly1305` | limb arithmetic and RFC 8439; the streaming object |
| `KeyLane`, `Qtls`, `Link` | one lane; one record; two nodes and a hostile channel |
| `Checksum`, `Frames` | one's-complement sums; headers and whole frames |
| `Sessions`, `SessionInvariant`, `SessionRuns` | two stacks as a step system; what each step keeps; theorems over runs |
| `Listening`, `Locality` | when a server session is created; what a call leaves alone |
| `Delivery`, `Handshake` | what every arrival does to which slot; `connect`, `close` and `send` in full, and that handshakes complete |
| `Accepting`, `Wiping`, `Numbering` | who is handed what; what a wipe takes away; whose messages arrive in runs of any length, and when ids repeat |
| `RxQueue`, `NetStack`, `Network` | the receive ring; the stack object, mirroring one node of `Sessions`; two such objects and the channel |
| `BitStrings`, `Permutations`, `Reconcile`, `Toeplitz`, `Harvest` | the key distillation of `qphy` |
| `Scheduler`, `FrameAllocator`, `BumpAllocator` | the kernel pieces |
| `WcAuth`, `Onion` | word-count sessions and circuits |

## Where the code differs from its documentation

- `qlinux/README.md:32` calls Poly1305 compliant with RFC 8439. `finalize` leaves out the last
  conditional subtraction of p = 2^130 - 5 (`qlinux/uhf/src/lib.rs:142-149`), so the tag is the RFC tag exactly when
  the fully carried accumulator is below p (`MacMatchesRfcIff`). The only other values are p to p + 4:
  any message whose RFC accumulator is at least 5 is safe (`MacMatchesRfcAboveFour`), and the key
  01 00 .. 00 with 32 octets FF is a message that is not (`MacDiffersFromRfc`).
- `spawn` and `tick` alone never start a task: nothing runs before the first call of `block_current`
  (`OnlyBlockingStartsTheFirst`).  Whatever was spawned before it, that first call blocks slot 0, and
  it starts something exactly when another slot is ready (`FirstBlockHitsSlotZero`, `BlockStartsIff`).
- `block_current` before the first `spawn` blocks slot 0, which is empty, so a slot goes to a task that
  does not exist, `unblock(0)` makes it ready, and later tasks sit one slot further on (`IdsAreSlots`, `UnblockWakesIff`).
- An onion message of 65481 to 65536 octets is refused by an outer hop after the inner hops'
  counters have advanced.  From then on nothing sent through the circuit ever comes out
  (`OversizedMessageDesynchronises`); the same goes for every refusal that leaves such a trace
  (`RefusalDesynchronises`), and without one everything comes out in order (`CleanRunDelivers`).
- `listen` marks free table entries with port 0, so `contains(&0)` holds while an entry is free
  (`qlinux/kernel/net/src/stack.rs:144` and `:264`): towards a node that has never listened,
  `connect` to port 0 creates a server session (`PortZeroAccepted`).  Exactly when a Hello creates a session, in
  every run, is `HelloCreatesSessionIff`.
- `free_frame` clears the 4096 octets from the address it is given, while it frees the frame the address
  lies in: for an address inside a frame the frame's head survives and the head of the next frame, in
  use or not, is cleared (`ErasesItsFrameIff`, `SpillsOver`).
- `qlinux/kernel/qphy/src/lib.rs:397` repeats super-rounds up to twelve times so that error rates near 10% can
  be corrected.  The secrecy budget never lets such a block through: one that is delivered took at most
  three super-rounds and had at most 372 wrong bits of 4096 (`DeliveredWithinThreeRounds`).
- `reserve_range` on an empty or reversed range reserves a frame after all when both ends lie in that
  frame and the end is past its first octet (`EmptyRangeReservesIff`, for instance
  `EmptyRangeTakesFrameZero`); a proper range reserves exactly the frames it overlaps.

## Model

| member | source | states |
|---|---|---|
| `PolyField.KeyIsClamped` | qlinux/uhf/src/lib.rs:52-73 | the five limbs are the clamped r of section 2.5 of RFC 8439, the four words are s |
| `PolyField.StepKeepsPartial` | qlinux/uhf/src/lib.rs:163-197 | a block keeps every limb below 2^26, and limb 1 below 2^26 + 2^10 |
| `PolyField.AbsorbedCongruent` | qlinux/uhf/src/lib.rs:163-197 | whole blocks leave the RFC accumulator, modulo 2^130 - 5 |
| `PolyField.FinalCongruent` | qlinux/uhf/src/lib.rs:135-141 | so does any message, its padded last block included |
| `PolyField.CarryReduces` | qlinux/uhf/src/lib.rs:199-215 | two carry passes leave all limbs below 2^26 and the same residue |
| `PolyField.JoinHVal` | qlinux/uhf/src/lib.rs:217-223 | OR-ing shifted limbs is addition modulo 2^128 |
| `PolyField.MacIsFieldValuePlusS` | qlinux/uhf/src/lib.rs:135-150 | the tag is (h + s) mod 2^128 with h below p + 5 and congruent to the RFC accumulator |
| `PolyField.MacMatchesRfcIff` | qlinux/uhf/src/lib.rs:142-149 | for every key and message, the tag is the RFC tag if and only if h is below p |
| `PolyField.MacMatchesRfcAboveFour` | qlinux/uhf/src/lib.rs:142-149 | an RFC accumulator of 5 or more always gives the RFC tag |
| `PolyField.MacDiffersFromRfc` | qlinux/uhf/src/lib.rs:142-149 | with r = 1 and two blocks of FF octets, h is p + 3 and the tag is not the RFC one |
| `Poly1305.NoWrap` | qlinux/uhf/src/lib.rs:187-196 | the wrapping carries of `mul_r` equal unbounded arithmetic on bounded products |
| `Poly1305.Poly1305.constructor` | qlinux/uhf/src/lib.rs:98-107 | a fresh context has absorbed nothing |
| `Poly1305.Poly1305.MulR` | qlinux/uhf/src/lib.rs:178-197 | no 64-bit product or sum wraps; the new limbs are those of the field multiplication |
| `Poly1305.Poly1305.ProcessBlock` | qlinux/uhf/src/lib.rs:163-176 | one step of the limb recurrence, limb bounds kept |
| `Poly1305.Poly1305.AddBlock` | qlinux/uhf/src/lib.rs:164-174 | the block is split into limbs and added without 64-bit wrap |
| `Poly1305.Poly1305.Update` | qlinux/uhf/src/lib.rs:109-133 | appends to the octets fed so far; limbs and buffer remain those of the whole feed |
| `Poly1305.Poly1305.Keep` | qlinux/uhf/src/lib.rs:113-117 | a chunk too short to complete the buffered block is kept behind it |
| `Poly1305.Poly1305.CompleteBlock` | qlinux/uhf/src/lib.rs:118-122 | the buffered block is completed and absorbed |
| `Poly1305.Poly1305.AbsorbBlocks` | qlinux/uhf/src/lib.rs:124-128 | the block loop absorbs every whole block and leaves less than one |
| `Poly1305.StateDependsOnConcatenation` | qlinux/uhf/src/lib.rs:109-133 | contexts fed the same concatenation, however cut, agree on limbs and buffer |
| `Poly1305.Poly1305.PropagateCarry` | qlinux/uhf/src/lib.rs:199-215 | both carry passes, without 64-bit wrap |
| `Poly1305.Poly1305.CarryPass` | qlinux/uhf/src/lib.rs:201-214 | one pass of the carry chain |
| `Poly1305.Poly1305.Finalize` | qlinux/uhf/src/lib.rs:135-150 | the tag of everything fed |
| `Poly1305.ComputeMac` | qlinux/uhf/src/lib.rs:152-156 | the one-shot tag |
| `Poly1305.CtEq16` | qlinux/uhf/src/lib.rs:27-31 | the accumulated-difference comparison decides equality |
| `Poly1305.VerifyTag` | qlinux/uhf/src/lib.rs:158-161 | accepts exactly the computed tag |
| `KeyLane.DepositSlides` | qlinux/kernel/qkey/src/lib.rs:57-73 | a deposit extends the stream and moves the base only as far as the capacity forces |
| `KeyLane.ReadsStream` | qlinux/kernel/qkey/src/lib.rs:75-99 | keys handed out are the stream at the reported offset; exactly the window can be read |
| `KeyLane.LaneAnswers` | qlinux/kernel/qkey/src/lib.rs:75-132 | every answer of take, peek and consume, errors included, and the window left behind, by positions in the stream alone; a wipe leaves nothing up to the end of the stream |
| `KeyLane.DepositIff` | qlinux/kernel/qkey/src/lib.rs:60-62 | blocks of 1 to 16384 octets are taken and no others, each refusal with its error |
| `KeyLane.KeyLane.constructor` | qlinux/kernel/qkey/src/lib.rs:50-52 | an empty window at offset 0, all cells zero |
| `KeyLane.KeyLane.Deposit` | qlinux/kernel/qkey/src/lib.rs:60-73 | the ring is the tail of the extended stream, every other cell zero; errors change nothing |
| `KeyLane.KeyLane.Append` | qlinux/kernel/qkey/src/lib.rs:66-71 | the copy loop behind the window |
| `KeyLane.KeyLane.Take` | qlinux/kernel/qkey/src/lib.rs:75-82 | removes the oldest octets and reports their offset |
| `KeyLane.KeyLane.PeekAt` | qlinux/kernel/qkey/src/lib.rs:88-99 | reads at an absolute offset, refuses consumed or missing ranges, survives 64-bit overflow |
| `KeyLane.KeyLane.ConsumeThrough` | qlinux/kernel/qkey/src/lib.rs:101-108 | moves the window past offset + len, skipped octets included |
| `KeyLane.KeyLane.CopyOut` | qlinux/kernel/qkey/src/lib.rs:110-116 | copies a stretch of the stream out of the ring |
| `KeyLane.KeyLane.Discard` | qlinux/kernel/qkey/src/lib.rs:118-125 | drops and zeroes the oldest octets |
| `KeyLane.KeyLane.WipeAll` | qlinux/kernel/qkey/src/lib.rs:127-132 | empties the window, zeroes every cell, keeps the stream position |
| `Qtls.ParseHeaderIff` | qlinux/kernel/net/src/qtls.rs:56-79 | the parser accepts exactly a printed header followed by a body of the stated length |
| `Qtls.HeaderLayout` | qlinux/kernel/net/src/qtls.rs:57-63 | the header octet by octet: type code, version 1, session, offset and length, big-endian |
| `Qtls.PayloadIsPadded` | qlinux/kernel/net/src/qtls.rs:99-102 | bit b of payload octet i is the plaintext bit XOR bit b of key octet 32 + i |
| `Qtls.TagIsRfc` | qlinux/kernel/net/src/qtls.rs:81-104 | the tag is that of RFC 8439 over header and ciphertext under the first 32 key octets, whenever the accumulator ends below p |
| `Qtls.SealAnswers` | qlinux/kernel/net/src/qtls.rs:87-107 | every answer of `seal`: PayloadTooLarge, InsufficientKey, or the record made of the next 32 + length octets of the stream, and the lane behind them |
| `Qtls.OpensExactly` | qlinux/kernel/net/src/qtls.rs:109-132 | `open` yields (header, plaintext) if and only if the record is their sealing under octets still in the window |
| `Qtls.GenuineOutcome` | qlinux/kernel/net/src/qtls.rs:109-132 | a genuine record opens, is already consumed, or lacks key: by its offset alone |
| `Qtls.OpenedOnce` | qlinux/kernel/net/src/qtls.rs:124-124 | no accepted record opens again |
| `Qtls.WriteHeader` | qlinux/kernel/net/src/qtls.rs:57-63 | writes the printed header in place |
| `Qtls.XorInto` | qlinux/kernel/net/src/qtls.rs:99-102 | the pad loop |
| `Qtls.FillRecord` | qlinux/kernel/net/src/qtls.rs:98-104 | header, ciphertext and tag make the record |
| `Qtls.Seal` | qlinux/kernel/net/src/qtls.rs:87-107 | a record in the buffer and the lane past its key, or an error and nothing changed |
| `Qtls.Open` | qlinux/kernel/net/src/qtls.rs:109-132 | plaintext and consumed key, or an error with lane and buffer untouched, for arbitrary octets |
| `Link.DepositKeepsInv` | qlinux/kernel/qkey/src/lib.rs:150-154 | a block goes to the lane of its parity; both ends keep windows on the same two streams |
| `Link.StepKeepsInv` | qlinux/kernel/net/src/qtls.rs:87-132 | deposits, seals, deliveries and wipes keep the two-node invariant |
| `Link.AcceptedInOrderAndIntact` | qlinux/kernel/net/src/qtls.rs:109-132 | in every run each node accepts strictly increasing offsets, nothing twice, and what was sealed |
| `Link.KeyOctetsUsedOnce` | qlinux/kernel/qkey/src/lib.rs:35-38 | in every run no key octet of either lane protects two records |
| `Link.DeliveryOpensIff` | qlinux/kernel/qkey/src/lib.rs:57-108 | in every run without wipes a delivery opens if and only if the record is ahead of the last accepted one, not evicted, and its key has arrived |
| `Link.ReceiverNeverAhead` | qlinux/kernel/qkey/src/lib.rs:57-73 | a receiver with no more blocks than the sender never starts its window beyond the sender's |
| `Link.FreshRecordOpens` | qlinux/kernel/qkey/src/lib.rs:57-108 | at equal block counts a fresh record opens until the receiver's next block or later record, whatever was lost |
| `Link.LockstepNeverOvertakes` | qlinux/kernel/qkey/src/lib.rs:57-59 | with lockstep deposits the receive base never exceeds the send base |
| `Checksum.FoldIsResidue` | qlinux/kernel/net/src/ipv4.rs:17-20 | the folding loop is reduction modulo 65535, with 65535 for non-zero multiples |
| `Checksum.ChecksumVerifiesIff` | qlinux/kernel/net/src/ipv4.rs:17-20 | exactly the computed checksum, or FFFF for 0, makes a block verify |
| `Checksum.SmallChangeDetected` | qlinux/kernel/net/src/ipv4.rs:17-20 | a change of the sum by less than 65535 is always noticed |
| `Checksum.WordChangeUnnoticedIff` | qlinux/kernel/net/src/ipv4.rs:17-20 | one altered word goes unnoticed exactly when it changes from 0000 to FFFF, or back while another word is not zero |
| `Checksum.AlteredWordUnnoticed` | qlinux/kernel/net/src/ipv4.rs:17-20 | for instance FF FF 00 00 and FF FF FF FF both verify |
| `Checksum.OctetChangeDetected` | qlinux/kernel/net/src/ipv4.rs:10-20 | one altered octet is always noticed, at even and odd places |
| `Checksum.WordSumAppend` | qlinux/kernel/net/src/ipv4.rs:10-15 | sums of even-length pieces add up |
| `Checksum.OctetSum` | qlinux/kernel/net/src/ipv4.rs:10-15 | an octet weighs 256 at even places and 1 at odd ones |
| `Checksum.ChecksumAdd` | qlinux/kernel/net/src/ipv4.rs:10-15 | adds the big-endian words, an odd last octet as a high half |
| `Checksum.ChecksumFinish` | qlinux/kernel/net/src/ipv4.rs:17-20 | the loop computes the complemented fold |
| `Frames.ParseEthIff` | qlinux/kernel/net/src/eth.rs:21-36 | exactly the printed header followed by the payload parses to them |
| `Frames.IpRoundTrip` | qlinux/kernel/net/src/ipv4.rs:31-62 | the parser undoes the printer under any link padding |
| `Frames.ParseIpIff` | qlinux/kernel/net/src/ipv4.rs:33-45 | accepted are exactly the packets of version 4 with 0 to 40 octets of options, a length that fits, no fragment, and a header whose words sum to a positive multiple of 65535; the parser returns their fields and payload |
| `Frames.DamagedHeaderDropped` | qlinux/kernel/net/src/ipv4.rs:38-38 | a printed packet with any one of the 19 header octets after the first altered is dropped, whatever its payload and padding |
| `Frames.UdpRoundTrip` | qlinux/kernel/net/src/udp.rs:16-45 | the parser undoes the printer for either parity, pseudo header and 0 as FFFF included |
| `Frames.ParseUdpIff` | qlinux/kernel/net/src/udp.rs:17-32 | accepted are exactly the segments whose length fits and which carry checksum 0 or sum, pseudo header included, to a multiple of 65535 |
| `Frames.DamagedSegmentDropped` | qlinux/kernel/net/src/udp.rs:22-26 | a printed segment with any one octet of the ports or the payload altered is dropped |
| `Frames.OnlyItsChecksumOrNone` | qlinux/kernel/net/src/udp.rs:22-26 | with another checksum a segment is dropped, except with 0, which turns the check off |
| `Frames.FrameRoundTrip` | qlinux/kernel/net/src/stack.rs:223-253 | a node gets exactly the record, ports and sender of a frame addressed to it, and nothing else |
| `Frames.FrameLayout` | qlinux/kernel/net/src/stack.rs:323-339 | a frame octet by octet: addresses, 0800, lengths, id, don't fragment, TTL 64, protocol 17, ports, payload; both checksums verify and the UDP one is not 0 |
| `Frames.DamagedFrameDropped` | qlinux/kernel/net/src/stack.rs:223-253 | a frame with any one octet of the ethertype, of the IPv4 header after its first, of the ports or of the payload altered is received by nobody |
| `Frames.WriteEth` | qlinux/kernel/net/src/eth.rs:31-36 | writes the header in place |
| `Frames.WriteIp` | qlinux/kernel/net/src/ipv4.rs:47-62 | zero checksum, sum, store: the finished header in place |
| `Frames.FinishUdp` | qlinux/kernel/net/src/udp.rs:35-45 | fills the header before a payload of any length in place, the length cut to 16 bits; the 32-bit sum cannot overflow |
| `Frames.RecordsFit` | qlinux/kernel/net/src/stack.rs:327-328 | every QTLS record fits a frame |
| `Frames.SendUdp` | qlinux/kernel/net/src/stack.rs:323-339 | the frame handed to the device, or PayloadTooLarge |
| `SessionInvariant.SendRecordKeeps` | qlinux/kernel/net/src/stack.rs:294-306 | sealing for a session adds one record bearing its ports and id |
| `SessionInvariant.ConnectKeeps` | qlinux/kernel/net/src/stack.rs:150-163 | `connect`, its failures included, keeps the session invariant |
| `SessionInvariant.RecvKeeps` | qlinux/kernel/net/src/stack.rs:187-195 | handing over a message keeps queue and history aligned |
| `SessionInvariant.CloseKeeps` | qlinux/kernel/net/src/stack.rs:197-207 | `close` keeps the session invariant |
| `SessionInvariant.HandleIs` | qlinux/kernel/net/src/stack.rs:255-290 | what an arrival does, in terms of what the peer sealed; which step it takes is the subject of `Delivery` and `Handshake` |
| `SessionInvariant.HandleKeeps` | qlinux/kernel/net/src/stack.rs:255-290 | Hello, HelloAck, Data and Close arrivals keep the session invariant |
| `SessionInvariant.WipeStackKeeps` | qlinux/kernel/net/src/stack.rs:132-135 | so does the emergency wipe |
| `SessionInvariant.StepKeeps` | qlinux/kernel/net/src/stack.rs:143-290 | every call of either stack keeps the session invariant |
| `SessionRuns.StepShape` | qlinux/kernel/net/src/stack.rs:143-306 | a call seals at most one record, of the type and session it should, and opens at most one session |
| `SessionRuns.SessionsDistinct` | qlinux/kernel/net/src/stack.rs:154-156 | no two sessions ever created at a node share ports and id |
| `SessionRuns.EstablishedHasServer` | qlinux/kernel/net/src/stack.rs:280-282 | a client is Established only after the peer created the matching server session |
| `SessionRuns.EstablishedByOwnHello` | qlinux/kernel/net/src/stack.rs:271-282 | and that server answers a Hello which this very client sealed |
| `SessionRuns.MessagesInOrder` | qlinux/kernel/net/src/stack.rs:178-195 | what `recv` hands over is, in order and without repeats, a subsequence of what `send` answered Ok for on the one matching peer session |
| `SessionRuns.OnlySendSays` | qlinux/kernel/net/src/stack.rs:178-185 | only a `send` that answers Ok(n) brings a message of its session onto the channel: the first n octets of its data |
| `SessionRuns.SendIs` | qlinux/kernel/net/src/stack.rs:178-185 | Ok(n) means n = min(length, 1400) and one more record on the channel: Data, for this session's id and ports, carrying the first n octets |
| `SessionRuns.OkIffShipped` | qlinux/kernel/net/src/stack.rs:178-185 | `send` answers Ok exactly when a record was sealed and its frame taken |
| `SessionRuns.SaidIsSentOk` | qlinux/kernel/net/src/stack.rs:178-185 | in every run the messages a session has brought onto the channel are those its `send` answered Ok for |
| `Delivery.QueuedIff` | qlinux/kernel/net/src/stack.rs:255-286 | in every run without wipes a delivered Data record joins the queue of slot i exactly when slot i is the first it is for, is Established, fewer than four messages wait there, and the record lies in the receive window; no other slot of either node changes |
| `Delivery.AcknowledgedIff` | qlinux/kernel/net/src/stack.rs:280-282 | in every run without wipes a delivered HelloAck makes slot i Established exactly when slot i is the first it is for, was HelloSent, and the record lies in the receive window; no other slot changes |
| `Delivery.ClosedIff` | qlinux/kernel/net/src/stack.rs:286-286 | the same for Close: the slot becomes Closed from any state exactly when the record lies in the receive window |
| `Delivery.StrayChangesNothing` | qlinux/kernel/net/src/stack.rs:259-289 | in every run, a record other than a Hello for no session of the node, and a Hello for an existing one, change no slot |
| `Delivery.SentIsQueued` | qlinux/kernel/net/src/stack.rs:178-286 | after any such run, with equal block counts, a message `send` answers Ok(n) for, delivered next to an Established session with room, is queued: its first n = min(length, 1400) octets |
| `Handshake.ConnectOpens` | qlinux/kernel/net/src/stack.rs:150-163 | with address, key and device at hand the first free slot becomes HelloSent with the next id and port 49152 + id mod 16384, and one Hello for it goes out |
| `Handshake.ConnectRefused` | qlinux/kernel/net/src/stack.rs:150-163 | in every other case no slot is taken, no other session changes, and no record reaches the channel |
| `Handshake.HelloAdmits` | qlinux/kernel/net/src/stack.rs:264-279 | a Hello in the receive window for a listening port and for no session turns the first free slot into an Established, unclaimed session, acknowledged when the address is known and there is key |
| `Handshake.HelloIgnored` | qlinux/kernel/net/src/stack.rs:264-272 | a Hello for no session changes no slot when its port is not listened on, no slot is free, or it is outside the receive window |
| `Handshake.SendAnswerIs` | qlinux/kernel/net/src/stack.rs:178-185 | what `send` answers, case by case in the order of its checks; a message of n octets needs 32 + n key octets |
| `Handshake.CloseIs` | qlinux/kernel/net/src/stack.rs:197-207 | `close` empties the slot in any case; an Established session sends a Close first when the address is known and there is key |
| `Handshake.CloseReaches` | qlinux/kernel/net/src/stack.rs:197-287 | such a Close, delivered next, closes the session it is for |
| `Handshake.HandshakeCompletes` | qlinux/kernel/net/src/stack.rs:150-282 | after any run without wipes, when a slot is free and key is at hand at both ends: connect, delivery of the Hello and delivery of the acknowledgement leave both sessions Established with each other's ports, and no other slot changed |
| `Handshake.FirstMeetingSucceeds` | qlinux/kernel/net/src/stack.rs:150-282 | two deposits at each node, listen, connect and two deliveries: both ends are Established |
| `Accepting.AcceptIs` | qlinux/kernel/net/src/stack.rs:166-172 | `accept` marks and hands out the first Established, unclaimed session on the port, and nothing else changes; None exactly when there is no such session |
| `Accepting.AcceptedOnce` | qlinux/kernel/net/src/stack.rs:166-172 | in every run two calls of `accept` at a node never hand out the same session |
| `Accepting.RecvIs` | qlinux/kernel/net/src/stack.rs:187-195 | `recv` takes the oldest message off the queue and appends it to what was handed over; without one that fits it changes nothing |
| `Wiping.WipeIs` | qlinux/kernel/net/src/stack.rs:132-135 | a wipe empties every queue of the node and changes nothing else of its sessions, ports and ids, nor of the peer |
| `Wiping.WipedIsSilent` | qlinux/kernel/net/src/stack.rs:132-135 | in every run from a wipe on, until its next key block, the node seals no record and opens none |
| `Numbering.HandedOverFromTwins` | qlinux/kernel/net/src/stack.rs:178-195 | in every run, however long, `recv` hands over Data records in sealing order without repeats, each sealed by a session with the same ports and id |
| `Numbering.IdsRepeatIff` | qlinux/kernel/net/src/stack.rs:154-156 | two clients of a node share their id exactly when a multiple of 65535 clients lies between them; then their local ports agree too |
| `Listening.InTableIff` | qlinux/kernel/net/src/stack.rs:143-148 | the non-zero entries of the table are exactly the ports some `listen` succeeded for |
| `Listening.ServerPortListenedOrZero` | qlinux/kernel/net/src/stack.rs:264-276 | in every run a server session exists only on a port its node listened on, or on port 0 |
| `Listening.HelloCreatesSessionIff` | qlinux/kernel/net/src/stack.rs:264-276 | an opened Hello that matches no session and finds a free slot creates one if and only if its port was listened on, or it is 0 while an entry is free |
| `Listening.PortZeroAccepted` | qlinux/kernel/net/src/stack.rs:264-276 | for any keys long enough for one record: a run in which nobody listens ends with a server session on port 0 |
| `Listening.PortZeroWitness` | qlinux/kernel/net/src/stack.rs:264-276 | such keys and such a run exist |
| `Locality.PeerUntouched` | qlinux/kernel/net/src/stack.rs:83-103 | a call at one node leaves the other's table, counters, ports and keys as they were |
| `RxQueue.RxQueue.constructor` | qlinux/kernel/net/src/stack.rs:34-34 | an empty queue |
| `RxQueue.RxQueue.Push` | qlinux/kernel/net/src/stack.rs:36-43 | appends, or refuses when four messages wait; unused cells stay zero |
| `RxQueue.RxQueue.Append` | qlinux/kernel/net/src/stack.rs:38-41 | the first free buffer takes the message |
| `RxQueue.RxQueue.Pop` | qlinux/kernel/net/src/stack.rs:45-54 | hands over and erases the oldest message, or leaves all as it was |
| `RxQueue.RxQueue.DropOldest` | qlinux/kernel/net/src/stack.rs:50-52 | erases the head buffer and moves on |
| `RxQueue.RxQueue.Wipe` | qlinux/kernel/net/src/stack.rs:56-59 | empty, every cell zero |
| `NetStack.NetStack.constructor` | qlinux/kernel/net/src/stack.rs:95-103 | a new stack mirrors the initial world |
| `NetStack.NetStack.Listen` | qlinux/kernel/net/src/stack.rs:143-148 | the first free entry takes the port, or TableFull |
| `NetStack.NetStack.Connect` | qlinux/kernel/net/src/stack.rs:150-163 | mirrors `Connect`; ArpPending (DeviceFull when the address request is refused), TableFull, or what `send_record` answered, and the slot is given up on any error |
| `NetStack.NetStack.Accept` | qlinux/kernel/net/src/stack.rs:166-172 | the first unclaimed Established session on the port |
| `NetStack.NetStack.Send` | qlinux/kernel/net/src/stack.rs:178-185 | mirrors `Send`; NoSession, NotEstablished, what `send_record` answered, or the octets sent |
| `NetStack.NetStack.Recv` | qlinux/kernel/net/src/stack.rs:187-195 | the oldest message, 0 on a drained closed session, or the right error |
| `NetStack.NetStack.Close` | qlinux/kernel/net/src/stack.rs:197-207 | mirrors `Close`; the slot is emptied even if nothing could be sent |
| `NetStack.NetStack.SendRecord` | qlinux/kernel/net/src/stack.rs:294-306 | resolve, seal, frame, offer to the device: the answer of the first that fails; no key is spent while the address is unresolved |
| `NetStack.NetStack.Ship` | qlinux/kernel/net/src/stack.rs:300-305 | the frame of the sealed record if the device takes it, the device's refusal, and the packet id, which moves on with every record sealed |
| `NetStack.NetStack.HandleQtls` | qlinux/kernel/net/src/stack.rs:255-290 | any octets: refused ones leave the node as it was, opened ones act on the matching session or open one; genuine records have the effect of `Handle` |
| `NetStack.NetStack.Admit` | qlinux/kernel/net/src/stack.rs:271-279 | a new server session and its acknowledgement |
| `NetStack.NetStack.Arrive` | qlinux/kernel/net/src/stack.rs:280-288 | the transition for a record of an existing session |
| `NetStack.NetStack.HandleFrame` | qlinux/kernel/net/src/stack.rs:223-253 | undoes the layers, ignores every sender but the peer, and handles the record |
| `NetStack.NetStack.ActOn` | qlinux/kernel/net/src/stack.rs:270-288 | a new session when no slot matched, else a step of the matching one |
| `NetStack.FrameIsGenuine` | qlinux/kernel/net/src/stack.rs:323-339 | a frame that carries a record comes out at the peer as that record with its ports |
| `NetStack.NetStack.DepositKeyBlock` | qlinux/kernel/net/src/stack.rs:121-124 | the block goes to the lane of its parity, whatever its number; numbered in order it keeps the mirror |
| `NetStack.NetStack.WipeKeys` | qlinux/kernel/net/src/stack.rs:132-135 | both lanes and all queues are emptied |
| `Network.Network.constructor` | qlinux/kernel/net/src/stack.rs:95-118 | two configured stacks, each other's peers, mirror the initial world |
| `Network.Network.Listen` | qlinux/kernel/net/src/stack.rs:143-148 | both objects mirror the run prolonged by the call |
| `Network.Network.Connect` | qlinux/kernel/net/src/stack.rs:150-163 | the same |
| `Network.Network.Accept` | qlinux/kernel/net/src/stack.rs:166-172 | the same |
| `Network.Network.Send` | qlinux/kernel/net/src/stack.rs:178-185 | the same, and the answer is the one the run determines |
| `Network.Network.Recv` | qlinux/kernel/net/src/stack.rs:187-195 | the same, and the octets in the buffer are the next message of the session |
| `Network.Network.Close` | qlinux/kernel/net/src/stack.rs:197-207 | the same |
| `Network.Network.Deliver` | qlinux/kernel/net/src/stack.rs:211-253 | any frame a device has ever taken, with any padding, to either node: both objects mirror the prolonged run |
| `Network.Network.Deposit` | qlinux/kernel/net/src/stack.rs:121-124 | the same for the next key block |
| `Network.Network.WipeKeys` | qlinux/kernel/net/src/stack.rs:132-135 | the same for a wipe |
| `Network.Network.ReceivedInOrder` | qlinux/kernel/net/src/stack.rs:178-195 | so what the two objects hand over is an in-order subsequence of what `Send` answered Ok for |
| `BitStrings.GetBitIs` | qlinux/kernel/qphy/src/lib.rs:296-296 | the shift and mask read bit i |
| `BitStrings.FlipBitIs` | qlinux/kernel/qphy/src/lib.rs:297-297 | the XOR changes bit i and no other |
| `BitStrings.FlipInPlace` | qlinux/kernel/qphy/src/lib.rs:297-297 | the same, in place |
| `BitStrings.BitsAreDigits` | qlinux/kernel/qphy/src/lib.rs:296-297 | the bits of a buffer, lowest first, are the binary digits of its little-endian reading |
| `Permutations.Bijective` | qlinux/kernel/qphy/src/lib.rs:407-409 | i * mul + off modulo a power of two is a bijection for every odd multiplier |
| `Permutations.ViewCount` | qlinux/kernel/qphy/src/lib.rs:409-410 | so looking through it keeps the number of ones |
| `Permutations.AtNext` | qlinux/kernel/qphy/src/lib.rs:409-409 | each place visited is one multiplier beyond the last, around the end |
| `Reconcile.Parity` | qlinux/kernel/qphy/src/lib.rs:410-410 | the fold is the parity of the permuted range |
| `Reconcile.ParitiesCompare` | qlinux/kernel/qphy/src/lib.rs:414-414 | two parities agree if and only if the range holds an even number of errors |
| `Reconcile.Disagree` | qlinux/kernel/qphy/src/lib.rs:414-414 | compares the parities of a range at both ends |
| `Reconcile.Bisect` | qlinux/kernel/qphy/src/lib.rs:415-419 | the binary search ends on an error, at the place `Located` gives, after log2(chunk) public parities |
| `Reconcile.FixOne` | qlinux/kernel/qphy/src/lib.rs:420-420 | the flip removes one error and touches no other |
| `Reconcile.FixChunk` | qlinux/kernel/qphy/src/lib.rs:415-420 | an odd chunk loses the error that is found |
| `Reconcile.RunPass` | qlinux/kernel/qphy/src/lib.rs:411-421 | afterwards every chunk of the pass agrees in parity; leak is chunks + log2(chunk) per flip |
| `Reconcile.EvenDistance` | qlinux/kernel/qphy/src/lib.rs:411-421 | parity agreement on all chunks makes the distance even |
| `Reconcile.RunRound` | qlinux/kernel/qphy/src/lib.rs:403-423 | a super-round leaves an even distance; corrections are counted per pass, each costing log2 of its chunk length on top of one parity per chunk |
| `Reconcile.RoundIs` | qlinux/kernel/qphy/src/lib.rs:400-409 | the five passes in order: chunks of 16 to 256 bits, multipliers 1, 1237, 797, 1531 and 389 times 2 round + 1, offset 101 round |
| `Reconcile.ResidueSteps` | qlinux/kernel/qphy/src/lib.rs:403-404 | super-rounds follow one another until nothing disagrees, at most twelve |
| `Reconcile.Reconcile` | qlinux/kernel/qphy/src/lib.rs:399-425 | a is unchanged, every flip removes one error, the rest and the leak are functions of the errors; at 4096 bits leak = 496 per round + 4, 5, 6, 7 or 8 per flip of each pass, at most 34752; equal inputs disclose nothing, one error is always corrected |
| `Reconcile.LeakBound` | qlinux/kernel/qphy/src/lib.rs:393-425 | the bound for 4096 bits |
| `Reconcile.LeakAtLeast` | qlinux/kernel/qphy/src/lib.rs:393-425 | at 4096 bits every super-round costs at least 496 parities and every correction at least 4 |
| `Toeplitz.GenerateSeed` | qlinux/kernel/qphy/src/lib.rs:431-439 | the seed octets are 96 of the generator's words, little-endian |
| `Toeplitz.XorShiftIs` | qlinux/kernel/qphy/src/lib.rs:49-54 | one step, bit by bit: each bit is added the bit 13 places below, then 7 above, then 17 below |
| `Toeplitz.XorShiftInjective` | qlinux/kernel/qphy/src/lib.rs:49-54 | no two states have the same successor |
| `Toeplitz.StateNeverZero` | qlinux/kernel/qphy/src/lib.rs:49-54 | so the generator never reaches 0, where it would stay |
| `Toeplitz.SeedSteps` | qlinux/kernel/qphy/src/lib.rs:434-439 | the 96 little-endian words of the seed are the successors of 51444E5F50413031 hex, one after the other |
| `Toeplitz.RowBit` | qlinux/kernel/qphy/src/lib.rs:443-446 | the inner loop is the product with row i, entry t[i + RAW_BITS - 1 - j] |
| `Toeplitz.Compress` | qlinux/kernel/qphy/src/lib.rs:430-449 | the output bits are the Toeplitz product; no seed index is out of range |
| `Toeplitz.ProductLinear` | qlinux/kernel/qphy/src/lib.rs:442-448 | the product is linear over GF(2) |
| `Toeplitz.CompressionLinear` | qlinux/kernel/qphy/src/lib.rs:430-449 | T(x xor y) = T(x) xor T(y) on octet strings |
| `Toeplitz.SingleBit` | qlinux/kernel/qphy/src/lib.rs:440-448 | the raw key with the single bit j set compresses to the seed bits from 4095 - j on: column j of the matrix |
| `Toeplitz.CompressionUnique` | qlinux/kernel/qphy/src/lib.rs:430-449 | equal raw keys give equal blocks |
| `Harvest.SiftStops` | qlinux/kernel/qphy/src/lib.rs:339-340 | once enough is collected further rounds change nothing |
| `Harvest.KeyRoundAdds` | qlinux/kernel/qphy/src/lib.rs:351-358 | a sifted key round adds to each end, as far as there is room, the low bits of its own value, lowest first: as a number, the value modulo 2^n |
| `Harvest.CheckRoundCounts` | qlinux/kernel/qphy/src/lib.rs:340-352 | a sifted check round counts one check, and one error exactly when the two values differ; an unsifted round, and any round after enough, changes nothing |
| `Harvest.AbortsIff` | qlinux/kernel/qphy/src/lib.rs:363-366 | the block is given up exactly when errors / checks is at least 0.110001 |
| `Harvest.StoreBits` | qlinux/kernel/qphy/src/lib.rs:353-358 | the bits of a round, lowest first, up to the buffer's end |
| `Harvest.Collect` | qlinux/kernel/qphy/src/lib.rs:337-359 | the sifting loop fills both buffers and counts checks and errors |
| `Harvest.SimQuantumLink.Harvest` | qlinux/kernel/qphy/src/lib.rs:334-389 | every outcome with its exact condition and value; a block is delivered exactly when enough is sifted, the error rate is low, no error is left and the budget suffices; it has equal halves, compressed from A's raw key |
| `Harvest.Distill` | qlinux/kernel/qphy/src/lib.rs:368-386 | ReconciliationFailed exactly when errors are left, InsufficientSecrecy with the bits left exactly when they are too few, else the block |
| `Harvest.DeliveredWithinThreeRounds` | qlinux/kernel/qphy/src/lib.rs:368-425 | a delivered block satisfies 496 per super-round + 4 per error + the eavesdropper's bits <= 1984, so it took at most three of the twelve super-rounds and had at most 372 errors |
| `Scheduler.NextKeepsInv` | qlinux/kernel/scheduler/src/lib.rs:60-121 | at most one Running task, at CURRENT_IDX; timeslices in 1..10 |
| `Scheduler.AtMostOneRunning` | qlinux/kernel/scheduler/src/lib.rs:60-121 | in every run |
| `Scheduler.NextReadyClosest` | qlinux/kernel/scheduler/src/lib.rs:110-111 | the scan finds the Ready slot closest after the current one |
| `Scheduler.DispatchIs` | qlinux/kernel/scheduler/src/lib.rs:107-121 | the closest ready slot becomes Running and current, nothing else changes |
| `Scheduler.NothingToDispatch` | qlinux/kernel/scheduler/src/lib.rs:107-121 | without a ready slot nothing changes |
| `Scheduler.SliceLasts` | qlinux/kernel/scheduler/src/lib.rs:73-80 | n ticks, fewer than the slice has left, cost the running task n of its slice and nothing else |
| `Scheduler.SliceEnds` | qlinux/kernel/scheduler/src/lib.rs:80-84 | the last tick refills the slice, makes its owner ready, and starts the closest ready slot |
| `Scheduler.BlockIs` | qlinux/kernel/scheduler/src/lib.rs:87-94 | a blocking call puts the current slot to sleep and starts the closest other ready slot, or none if there is none |
| `Scheduler.UnblockIs` | qlinux/kernel/scheduler/src/lib.rs:96-105 | the first Blocked slot with the id becomes Ready and nothing else changes; NotFound without one |
| `Scheduler.SpawnIs` | qlinux/kernel/scheduler/src/lib.rs:60-71 | the first empty slot takes a new task with the next id; NoSlot without one |
| `Scheduler.IdsAreSlots` | qlinux/kernel/scheduler/src/lib.rs:60-105 | in every run the k-th task has id k and slot k - 1 (slot k if a blocking call came before the first spawn), so no id is given twice and none beyond the slots |
| `Scheduler.UnblockWakesIff` | qlinux/kernel/scheduler/src/lib.rs:96-105 | so in every run `unblock` wakes the one slot of that id exactly when it is Blocked |
| `Scheduler.StepProgress` | qlinux/kernel/scheduler/src/lib.rs:73-121 | each tick or dispatch brings a waiting slot closer |
| `Scheduler.ReadyRunsInTime` | qlinux/kernel/scheduler/src/lib.rs:73-121 | while something runs, a Ready slot runs within 63 dispatches and within 630 ticks |
| `Scheduler.OnlyBlockingStartsTheFirst` | qlinux/kernel/scheduler/src/lib.rs:73-94 | without `block_current` nothing ever runs |
| `Scheduler.IdleStaysIdle` | qlinux/kernel/scheduler/src/lib.rs:73-94 | an idle machine stays idle until then |
| `Scheduler.IdleBlockHitsTheFirstTask` | qlinux/kernel/scheduler/src/lib.rs:87-94 | for instance a single fresh task is put to sleep without having run |
| `Scheduler.BlockStartsIff` | qlinux/kernel/scheduler/src/lib.rs:87-94 | a blocking call blocks the current slot and leaves something running if and only if another slot is ready |
| `Scheduler.BusyAfterIff` | qlinux/kernel/scheduler/src/lib.rs:60-121 | after a blocking call something runs if and only if another slot was ready; after any other event if and only if something ran before |
| `Scheduler.BusyRunIff` | qlinux/kernel/scheduler/src/lib.rs:60-121 | between blocking calls the machine neither starts nor stops |
| `Scheduler.FirstBlockHitsSlotZero` | qlinux/kernel/scheduler/src/lib.rs:87-94 | after any run without one, the first blocking call blocks slot 0 |
| `Scheduler.Scheduler.DoSpawn` | qlinux/kernel/scheduler/src/lib.rs:60-71 | the first empty slot becomes Ready, or NoSlot |
| `Scheduler.Scheduler.DoSchedule` | qlinux/kernel/scheduler/src/lib.rs:107-121 | dispatch in place |
| `Scheduler.Scheduler.DoTick` | qlinux/kernel/scheduler/src/lib.rs:73-85 | the timeslice in place |
| `Scheduler.Scheduler.DoBlockCurrent` | qlinux/kernel/scheduler/src/lib.rs:87-94 | block and dispatch in place |
| `Scheduler.Scheduler.DoUnblock` | qlinux/kernel/scheduler/src/lib.rs:96-105 | the first Blocked slot with that id becomes Ready, or NotFound |
| `FrameAllocator.FrameAllocator.AllocFrame` | qlinux/kernel/memory/src/lib.rs:64-76 | the lowest free frame, OutOfMemory exactly when none is free |
| `FrameAllocator.FrameAllocator.FreeFrame` | qlinux/kernel/memory/src/lib.rs:78-92 | clears the 4096 octets from the address on and returns the frame, or says InvalidAddress or DoubleFree and changes nothing |
| `FrameAllocator.ErasesItsFrameIff` | qlinux/kernel/memory/src/lib.rs:80-88 | freeing erases exactly the freed frame if and only if the address is the frame's first |
| `FrameAllocator.SpillsOver` | qlinux/kernel/memory/src/lib.rs:85-88 | any other address leaves the frame's head as it was and clears as much of the next frame |
| `FrameAllocator.HandedOutErasesItsFrame` | qlinux/kernel/memory/src/lib.rs:64-92 | every address `alloc_frame` returns is a frame's first |
| `FrameAllocator.FrameAllocator.ReserveRange` | qlinux/kernel/memory/src/lib.rs:97-108 | takes exactly the frames that overlap the range, or the frame an empty range straddles; the count stays exact |
| `FrameAllocator.FrameAllocator.TakeOne` | qlinux/kernel/memory/src/lib.rs:101-106 | a free frame is taken, any other left |
| `FrameAllocator.ReservedIff` | qlinux/kernel/memory/src/lib.rs:98-100 | the index computation finds exactly the frames that overlap, or are straddled by, the range |
| `FrameAllocator.EmptyRangeReservesIff` | qlinux/kernel/memory/src/lib.rs:98-100 | when a range without octets reserves a frame of the pool |
| `FrameAllocator.EmptyRangeTakesFrameZero` | qlinux/kernel/memory/src/lib.rs:98-100 | for instance [200, 100) takes frame 0 |
| `FrameAllocator.LiveUntilFreed` | qlinux/kernel/memory/src/lib.rs:64-108 | in every history a live or reserved frame is not handed out before it is freed |
| `FrameAllocator.NoDoubleHandOut` | qlinux/kernel/memory/src/lib.rs:64-92 | between two hand-outs of one frame lies a successful free of it |
| `FrameAllocator.FreeUndoesAlloc` | qlinux/kernel/memory/src/lib.rs:64-92 | freeing what was just handed out restores the pool; freeing it again is a double free |
| `FrameAllocator.FreeAnswers` | qlinux/kernel/memory/src/lib.rs:78-92 | InvalidAddress exactly outside the pool, DoubleFree for a free frame, else exactly that frame becomes free |
| `FrameAllocator.FreshPoolInOrder` | qlinux/kernel/memory/src/lib.rs:64-76 | n allocations from a fresh pool return its frames 0, 1, 2, ... in order, and OutOfMemory exactly from the total on |
| `BumpAllocator.RoundUpIs` | qlinux/kernel/memory/src/lib.rs:40-43 | the mask yields the first multiple not below the pointer; Overflow exactly when the sum reaches 2^64 |
| `BumpAllocator.PlanIs` | qlinux/kernel/memory/src/lib.rs:40-44 | the block starts at the first aligned address exactly when the sums stay below 2^64 and it ends inside the heap; Overflow and OutOfMemory otherwise, each in its case |
| `BumpAllocator.UndisturbedIff` | qlinux/kernel/memory/src/lib.rs:34-51 | a thread that is not disturbed gets its block if and only if it fits, else the heap is as before |
| `BumpAllocator.FailedExchangeReloads` | qlinux/kernel/memory/src/lib.rs:45-49 | a failed exchange, spurious or not, only loads the pointer again |
| `BumpAllocator.NextKeepsInv` | qlinux/kernel/memory/src/lib.rs:37-50 | loads and compare-and-swaps of any thread keep the blocks in order |
| `BumpAllocator.BlocksAreDisjoint` | qlinux/kernel/memory/src/lib.rs:34-51 | under every interleaving blocks are aligned, inside the heap and disjoint |
| `BumpAllocator.MovesOnlyWithBlocks` | qlinux/kernel/memory/src/lib.rs:45-49 | the pointer moves only when a block is handed out |
| `WcAuth.MarRoundTrip` | qlinux/wc_auth/src/lib.rs:46-66 | the parser undoes the printer, whatever follows |
| `WcAuth.SealedLayout` | qlinux/wc_auth/src/lib.rs:109-121 | a sealed message octet by octet: counter and length, little-endian, the tag under that counter, the plaintext; the counter advances by the words of the plaintext |
| `WcAuth.ParseMarIff` | qlinux/wc_auth/src/lib.rs:47-66 | parsed are exactly the octet strings that start with the printed message |
| `WcAuth.TagIsRfc` | qlinux/wc_auth/src/lib.rs:68-145 | key schedule and tag in terms of RFC 8439, whenever the three accumulators end below p: two tags of counter and label under the master key make the one-time key for counter, length and payload |
| `WcAuth.LabelsAre` | qlinux/wc_auth/src/lib.rs:69-70 | the labels are the ASCII octets of qlinux-wc-auth-v1-r and -s |
| `WcAuth.GenuineMar` | qlinux/wc_auth/src/lib.rs:109-135 | a genuine message opens if and only if the counters agree, and then they agree again |
| `WcAuth.OpensExactly` | qlinux/wc_auth/src/lib.rs:123-135 | a receiver opens an octet string to pt, moving to counter n, if and only if a sender with its key and counter would seal pt, end at n, and the string starts with that sealing |
| `WcAuth.AlteredNeverOpensToTheSame` | qlinux/wc_auth/src/lib.rs:123-135 | a sealed message with any one octet altered never opens to its plaintext |
| `WcAuth.RefusedBecause` | qlinux/wc_auth/src/lib.rs:126-131 | which error a parsed message meets: counter, emptiness, length, tag, in that order, each exactly when |
| `WcAuth.DeliverIff` | qlinux/wc_auth/src/lib.rs:123-135 | only the next message in order is accepted; any other changes nothing |
| `WcAuth.AcceptedIsPrefix` | qlinux/wc_auth/src/lib.rs:109-149 | in every run the accepted plaintexts are a prefix of the sealed ones and no counter is reused |
| `WcAuth.WcAuthSession.Seal` | qlinux/wc_auth/src/lib.rs:109-121 | the sealed message and the advanced counter, or an error and nothing changed |
| `WcAuth.WcAuthSession.Open` | qlinux/wc_auth/src/lib.rs:123-135 | the outcome `OpenWith` determines, for arbitrary octets: plaintext and advanced counter, or an error and nothing changed |
| `WcAuth.DeriveSubkey` | qlinux/wc_auth/src/lib.rs:68-86 | two tags under the master key |
| `WcAuth.ComputeTag` | qlinux/wc_auth/src/lib.rs:139-145 | three streamed updates give the tag of the concatenation |
| `WcAuth.NewSession` | qlinux/wc_auth/src/lib.rs:102-107 | a session, or InvalidKey for a key of the wrong length |
| `WcAuth.CreateSessionPair` | qlinux/wc_auth/src/lib.rs:152-158 | a sender and a receiver in step |
| `Onion.WrapOutcome` | qlinux/qtor/src/lib.rs:113-121 | wrapping succeeds exactly for 1 to 65480 octets with room on every counter; it leaves the hops untouched exactly when the exit hop itself refuses |
| `Onion.PeelUndoesWrap` | qlinux/qtor/src/lib.rs:113-125 | whatever is wrapped, peeling the hops in order undoes it and leaves all sessions in step |
| `Onion.CleanRunDelivers` | qlinux/qtor/src/lib.rs:113-125 | in every run without such refusals everything wrapped comes out, in order |
| `Onion.RefusalDesynchronises` | qlinux/qtor/src/lib.rs:113-125 | after any refusal that moved the exit hop, in every later run nothing comes out and the exit relay rejects every exit layer |
| `Onion.OversizedMessageDesynchronises` | qlinux/qtor/src/lib.rs:116-119 | after a refused message of 65481 to 65536 octets nothing ever comes out again |
| `Onion.Circuit.OnionEncrypt` | qlinux/qtor/src/lib.rs:113-121 | the reverse loop over the hops, counters included |
| `Onion.Circuit.OnionPeel` | qlinux/qtor/src/lib.rs:123-125 | one hop's opening |

## Left out

- GHASH, UMAC and the hexadecimal helper of `uhf`: not the standard constructions of the same name, and not used by the modelled code.
- The state-vector simulator, the channel model, the three round functions and `binary_entropy` of `qphy`: floating point; the drawn rounds and the eavesdropper's bits are inputs of `Harvest`.
- The chip driver of `qphy` and `RdRand`: hardware.
- Forged records: the channel of `Link`, `Sessions` and `Network` carries what was sealed; that a forged tag is unlikely to verify is cryptography. For arbitrary octets the model proves which records open, what a stack does with them, and that a refusal changes nothing.
- UDP ports are not authenticated by the records; the channel delivers each record with the ports it was sent with.
- DamagedFrameDropped: leaves out the MAC addresses, which no checksum covers, the IPv4 version octet and the UDP length, which say how much a checksum covers, and the UDP checksum itself, for which see `OnlyItsChecksumOrNone`.
- HandleFrame: does not answer ARP packets; the emptying loop `poll` around it is left out.
- The ARP cache, its packets and the loopback device: whether the peer's address is known and whether the device takes a frame are inputs; a frame the device refuses has used up its key and never reaches the channel.
- A second registered peer: `Sessions` and `NetStack` know one peer, so NoPeer and the table of two peers do not occur.
- NetStack: a slot holds the contents of its receive queue; the ring that stores them is the separate class `RxQueue`.
- Deposit: requires that the octets ever deposited on a lane stay below 2^64, beyond which the source's 64-bit base overflows; so does DepositKeyBlock.
- SessionsDistinct: requires listening ports below 49152 and fewer than 65535 connects per node, since ids repeat after that (`IdsRepeatIff`); so does MessagesInOrder. `HandedOverFromTwins` needs neither.
- Network.Deposit: deposits each node's blocks in order, as `Sessions` numbers them; a block of any number is `NetStack.DepositKeyBlock`.
- Zeroing as a compiler guarantee, and the `Drop` implementations: cells hold 0 in the model, no more.
- Machine-word overflow of physical addresses in `FrameAllocator`; FreeFrame is given the memory from the pool's base on as an array that covers the page it clears.
- FrameAllocator: `total` is at most MAX_FRAMES, without which the bitmap is indexed out of range.
- CPU contexts and `context_switch`, `Zombie` and `zeroize_and_release` of the scheduler: assembly, and states nothing else reads.
- Memory ordering of the atomics: `BumpAllocator` interleaves whole loads and compare-and-swaps, spurious failures allowed.
- Directory, cells and padding of `qtor`, the authentication daemons, SOCKS5, IPC, the system calls and the boot code: text, stubs or I/O.
