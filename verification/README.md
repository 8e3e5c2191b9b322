# Verified model of the AmneziaWG data path, with two companions

This project models the parts of the repository in which packets, keys and files change state in ways
that are hard to see from any single function, and proves what they keep. It covers

- the allowed-IPs trie (`awg-ios/device/allowedips.go`): modules `IpBits`, `Outlines`, `AllowedIPs`;
- the Internet checksum, segmentation offload and receive offload (`awg-ios/tun/checksum.go`,
  `awg-ios/tun/offload_linux.go`): modules `Bytes`, `InternetChecksum`, `Gso`, `GroState`, `GroRules`, `GroParses`,
  `GroRuns`, `GroTables`, `GroSteps`, `GroTcpSteps`, `GroTcpMerge`, `GroUdpSteps`, `GroAccount`, `GroFlows`, `GroOutcomes`,
  `GroHeaders`, `GroFronts`, `GroLosses`, `GroJoins`, `Gro`, `GroResults`, `GroRoundTrip`, `GroDropped`, `GroPsh`,
  `GroPairs`, `GroExamples`;
- the handshake, the keypair rotation and the index table (`awg-ios/device/noise-protocol.go`, `indextable.go`,
  `keypair.go`, `peer.go`, `noise-helpers.go`): modules `NoiseTerms`, `Noise`, `NoisePattern`, `IndexTable`,
  `SessionSteps`, `DeviceSessions`;
- the replay window (`awg-ios/replay/replay.go`): module `Replay`;
- UDP batches on the socket (`awg-ios/conn/bind_std.go`): module `UdpBatch`;
- the token bucket (`awg-ios/ratelimiter/ratelimiter.go`): module `Ratelimiter`;
- nonces and the staged queue (`awg-ios/device/send.go`): modules `Nonce`, `StagedQueue`;
- the search for the outbounds that a ping needs (`libxray/xray/ping_batch.go`): modules `OutboundGraph`, `PingBatch`;
- the commit protocol of the file data store (`psiphon-ios/psiphon/dataStore_files.go`): module `FileCommit`.

Modules `Wrappers` and `Sequences` hold what several of them share.

`dafny verify dfyconfig.toml` checks the whole project.

## How the model is built

Code that updates state step by step is a class with the source's fields, or a method over an array or a value, with the
source's branches in the source's order; what its steps mean is stated by predicates and functions that are proved about
separately. Integers are unbounded, and the source's widths are written out where they matter (the wrapping product in
`GroRules.LhsLen`, sequence numbers modulo 2^32, end-around carries, the 64-bit nonce counter).

- *Trie.* A live entry is named by its prefix, that is, by the first `cidr` bits of its masked address; at every allocation
  it is proved that no live entry has that name, so that names behave as addresses of entries do. The pointer fields of all
  entries of an address family are three maps that the methods update in place, in the order of the source. A parent
  reference is the pair of parent and bit (`Slot`), with the top of the trie as a further case.
- *Receive offload.* The ghost state says for every packet which buffer its payload is in (`Trace.owner`), and for every
  written buffer which packets it holds (`Group`). `GroSteps.Inv` is the invariant of a pass: traffic is conserved, every
  TCP item describes a contiguous run in sequence order, every UDP flow holds exactly its datagrams in arrival order, and
  only packets whose transport checksums verify have been merged. Beside it, `GroHeaders.Tracks` says that every tracked
  buffer has its item and that only corrupt packets were dropped, and `GroFronts.Fronts` that a buffer has the headers of its
  first packet and that all its packets agree with them wherever merging compares. `GroJoins` says in terms of packet bytes
  which packets are merged, and with which others: each with the last buffer of its flow that it fits, and with none only
  when it fits none. Together they give the round trip
  `GroRoundTrip.ThereAndBack`: segmenting every written buffer as its virtio header asks gives back every packet, once, with
  every header byte but those that `GroRoundTrip.Forgotten` lists.
- *Handshake.* Cryptography is symbolic: key derivation, hashing and sealing are free constructors, and Diffie-Hellman
  commutes. Both messages are also those that the token pattern of the Noise framework prescribes (`NoisePattern`). Each
  protocol step is atomic. Random draws are parameters and may fail, and index zero may be drawn: the table stays exact
  through a run if and only if every step is `DeviceSessions.Harmless` where it happens (`DeviceSessions.Device.Run`).
  The run's history is in turn what the laws of `SessionSteps` speak about: no initiation is accepted twice, and a session
  that this side has initiated stays current until a later one takes its place.
- *Concurrency.* The nonce counter is a state machine over its atomic accesses, in any interleaving.
- *Faults.* Every file-system step of the data store may fail or be the last before a crash, and an interrupted write leaves
  anything behind.

## Where the code does something else than its names or comments suggest

- Despite its name, `packetsBurstable`, which is 5, lets the fifth of five packets through only if it comes later than the first,
  because the comparison with the packet cost is strict (`Ratelimiter.BurstIff`). In general, all packets of a new address
  pass if and only if those from any j-th to any i-th cost less than five packets and the time between the two
  (`Ratelimiter.AllPassIff`); `Ratelimiter.BurstOfFour` is the instance at one instant.
- A TCP packet that is found corrupt when a later packet is compared with it leaves the table but is still written, and its
  buffer gets no virtio header: whatever precedes the packet goes to the device as one. A listed buffer goes without a header
  if and only if some turn of the pass gets as far as its item and finds it corrupt (`Gro.Pass.HandleGro`,
  `GroLosses.PassTold`). Such buffers hold a single corrupt packet, so without corrupt TCP packets every listed buffer has its
  header (`GroHeaders.EveryBufferHeaded`). For two packets `GroDropped.NoHeaderIff` and `GroExamples.TwoPackets` give the exact
  condition on the input, and `GroExamples.StaleHeader` an instance.
- A PSH flag is lost when a packet is merged in front of the one that has it. Of two packets, the first with PSH, the buffer
  ends up without PSH if and only if the second is merged with the first (`GroPsh.PshLostIff`, `GroExamples.TwoPackets`);
  `GroExamples.PshLost` is an instance. Among any number of packets the flag stays when no later packet of its flow comes in
  (`GroPsh.PshKept`), and segmentation gives it back exactly when the buffer's first packet did not come in later
  (`GroRoundTrip.TcpWritten`).
- `splitCoalescedMessages` does not cut a segment size back to the number of bytes received; pieces are right exactly when the
  segment size is at most that number (`UdpBatch.PiecesIff`, `UdpBatch.StaleByteHandedOn`).
- Index 0 means "no index", is deleted from the table as if it were one, and is not ruled out when an index is drawn
  (`IndexTable.AssignIff`, `IndexTable.ZeroIndexIsLost`).
- When the random source fails while a new index is drawn, the old one has already left the table: an initiation keeps the
  table exact if and only if the handshake had no index before, a response if and only if the failed draw left zero
  (`IndexTable.FailedDrawIff`, `IndexTable.StaleIndex`).
- The nonce counter wraps as soon as more than 2^13 senders are between drawing a number and putting the counter back
  (`Nonce.OneMoreRepeats`): a bound on the pending senders rules out repeated nonces if and only if it is at most 2^13
  (`Nonce.UniqueIff`).

## Model

| member | source | states |
|---|---|---|
| IpBits.CommonBitsSpec | awg-ios/device/allowedips.go:35-56 | `commonBits`, one 32-bit or two 64-bit words, is the length of the longest common prefix |
| AllowedIPs.MaskedAddress | awg-ios/device/allowedips.go:73-78 | masking leaves the prefix followed by zeros, the address that names the entry |
| AllowedIPs.CommonBitsTest | awg-ios/device/allowedips.go:89 | the loop test holds exactly when the entry's prefix is a prefix of the address |
| AllowedIPs.ForkPoint | awg-ios/device/allowedips.go:146-149 | the new branch is cut where the two prefixes part, and each continues on its own bit |
| AllowedIPs.Trie.NodePlacement | awg-ios/device/allowedips.go:88-99 | the deepest live entry above the prefix, and whether it is the prefix itself |
| AllowedIPs.Trie.NotPlaced | awg-ios/device/allowedips.go:88-99 | when placement is not exact, no live entry has the prefix: a new entry's name is fresh |
| AllowedIPs.Trie.Lookup | awg-ios/device/allowedips.go:191-205 | the peer of the longest matching prefix in the abstract map, none when nothing matches |
| AllowedIPs.Trie.InsertMissing | awg-ios/device/allowedips.go:134-188 | linking in a missing entry, with a splice or a new branch where needed, keeps the trie valid and canonical |
| AllowedIPs.Trie.Insert | awg-ios/device/allowedips.go:101-189 | the map gains exactly this prefix, the per-peer lists follow, the trie stays canonical |
| AllowedIPs.Trie.RemoveEntry | awg-ios/device/allowedips.go:226-257 | the map loses exactly this prefix although a parent may be spliced out with it |
| AllowedIPs.Trie.Remove | awg-ios/device/allowedips.go:259-278 | removes only an exact entry that belongs to the given peer |
| AllowedIPs.PeerLists.PushBack | awg-ios/device/allowedips.go:58-60 | the entry joins the end of its peer's list and no other list |
| AllowedIPs.PeerLists.Remove | awg-ios/device/allowedips.go:62-67 | the entry leaves its peer's list and no other list |
| AllowedIPs.Table.Insert | awg-ios/device/allowedips.go:291-304 | refines insertion into the prefix-to-peer map of the address family |
| AllowedIPs.Table.RemoveEntry | awg-ios/device/allowedips.go:226-257 | one entry goes, from the map and from its peer's list |
| AllowedIPs.Table.Remove | awg-ios/device/allowedips.go:259-278 | refines removal of a prefix that maps to the peer |
| AllowedIPs.Table.RemoveByPeer | awg-ios/device/allowedips.go:280-289 | exactly the peer's prefixes go, in both families, although each removal may splice out another entry |
| AllowedIPs.Table.EntriesForPeer | awg-ios/device/allowedips.go:213-224 | a callback that never declines sees every prefix of the peer exactly once and nothing else |
| AllowedIPs.Table.Lookup | awg-ios/device/allowedips.go:306-317 | longest match in the family's map, for 32- and 128-bit addresses |
| AllowedIPs.Table.Replay | awg-ios/device/allowedips.go:259-304 | after any history of insertions and removals the contents are what the history spells out |
| AllowedIPs.LastGivenStays | awg-ios/device/allowedips.go:259-304 | a history that starts with nothing ends with a prefix at a peer if and only if it was given to that peer and not given again, removed or taken with all of the peer's since |
| AllowedIPs.Table.ShapeDetermined | awg-ios/device/allowedips.go:101-257 | equal contents mean equal shape, with at most 2n-1 entries for n prefixes |
| Outlines.InsertValid | awg-ios/device/allowedips.go:152-188 | splicing an entry in keeps parent and child links inverse and everything reachable |
| Outlines.RemoveValid | awg-ios/device/allowedips.go:236-254 | splicing an entry out keeps parent and child links inverse and everything reachable |
| Outlines.SpliceCanonical | awg-ios/device/allowedips.go:229-244 | removing a one-child entry leaves every peerless entry with two children |
| Outlines.OrphanedBranch | awg-ios/device/allowedips.go:245-256 | removing a leaf below a peerless branch leaves that branch with one child, so that it must go too |
| Outlines.EntriesAreNeeded | awg-ios/device/allowedips.go:101-257 | every live entry carries a peer or is the fork of two that do |
| Outlines.ShapeUnique | awg-ios/device/allowedips.go:101-257 | valid canonical outlines over the same prefixes are equal |
| Outlines.SizeBound | awg-ios/device/allowedips.go:101-257 | a canonical outline over n > 0 prefixes has at most 2n-1 entries |
| InternetChecksum.Add64 | awg-ios/tun/checksum.go:16 | sum and carry out of a 64-bit addition with carry in |
| InternetChecksum.AddWords | awg-ios/tun/checksum.go:15-34 | a chain of additions with its end-around carry preserves the sum modulo 65535, and the last addition of the carry does not overflow |
| InternetChecksum.Cascade | awg-ios/tun/checksum.go:35-75 | the 64- to 2-byte steps absorb all but a last odd byte |
| InternetChecksum.NativeNorm | awg-ios/tun/checksum.go:12-80 | a native word counts like its big-endian 16-bit words, on either kind of host, up to the scaling undone at the end |
| InternetChecksum.ChecksumNoFold | awg-ios/tun/checksum.go:9-84 | the unfolded result stands for the initial sum plus the 16-bit words, on either kind of host |
| InternetChecksum.FourFolds | awg-ios/tun/checksum.go:86-93 | four folds always fit 16 bits and keep the value modulo 65535, with zero only for zero |
| InternetChecksum.Rfc1071IsNorm | awg-ios/tun/checksum.go:86-93 | the one's-complement sum of section 2 of RFC 1071 is the representative modulo 65535 of the plain sum |
| InternetChecksum.Checksum | awg-ios/tun/checksum.go:86-93 | equals the one's-complement sum of section 2 of RFC 1071, started from the initial partial sum, odd byte zero-padded |
| InternetChecksum.PseudoHeaderNoFold | awg-ios/tun/checksum.go:95-102 | the partial sum of addresses, protocol and length |
| Bytes.BigEndianRoundTrip | awg-ios/tun/checksum.go:11-12 | writing a number big-endian and reading it back |
| Bytes.LittleEndianRoundTrip | awg-ios/tun/checksum.go:82-83 | writing a number little-endian and reading it back |
| Gso.CutTiles | awg-ios/tun/offload_linux.go:921-928 | the pieces of a payload tile it: all full but the last, none empty |
| Gso.CutOfRun | awg-ios/tun/offload_linux.go:921-928 | cutting undoes the concatenation of full pieces and a last one that is no longer |
| Gso.ChecksumValidIff | awg-ios/tun/offload_linux.go:388-398 | a transport checksum verifies when the one's-complement sum over the pseudo-header's bytes (section 3.1 of RFC 793, section 8.1 of RFC 8200), header and payload is all ones |
| Gso.CheckChecksum | awg-ios/tun/offload_linux.go:388-398 | accepts exactly when the sum over pseudo-header, header and payload is all ones |
| Gso.EmitIpHeader | awg-ios/tun/offload_linux.go:933-949 | length, ID (IPv4) and a header checksum that verifies; all other bytes as they were |
| Gso.EmitTransportFields | awg-ios/tun/offload_linux.go:954-966 | the sequence number advances by the preceding bytes without wrapping the 16-bit product; of the flags, on every segment but the last, bits 0 and 3 (FIN and PSH) are clear and the other six as they were, and on the last all are; UDP length |
| Gso.SealTransport | awg-ios/tun/offload_linux.go:971-977 | the stored complement makes the whole segment verify |
| Gso.GsoSplit | awg-ios/tun/offload_linux.go:901-983 | fails exactly when there are more pieces than buffers; otherwise the segments carry the pieces in order, each with the right header fields and a checksum that verifies |
| GroSteps.TcpMetaFacts | awg-ios/tun/offload_linux.go:531-592 | a parsed TCP packet is headers of 40 to 120 bytes and a nonempty payload, at most 65535 bytes in all |
| GroSteps.UdpMetaFacts | awg-ios/tun/offload_linux.go:786-829 | a parsed datagram is headers and a nonempty payload, and never also a TCP packet |
| GroParses.TcpReadIff | awg-ios/tun/offload_linux.go:531-592 | which packets are taken for TCP segments, byte by byte: version, header length, length field, no fragment, data offset, payload, flags |
| GroParses.UdpReadIff | awg-ios/tun/offload_linux.go:786-829 | which packets are taken for datagrams, byte by byte |
| GroParses.TcpFlowIff | awg-ios/tun/offload_linux.go:92-110 | two segments are of one flow when version, addresses, ports and acknowledgement number are the same bytes |
| GroParses.UdpFlowIff | awg-ios/tun/offload_linux.go:200-217 | two datagrams are of one flow when version, addresses and ports are the same bytes |
| GroRuns.LhsLenTrue | awg-ios/tun/offload_linux.go:350-352 | the 16-bit length of an item is its true payload length whenever all its pieces are full, wrapping product or not |
| GroRuns.AppendKeepsRun | awg-ios/tun/offload_linux.go:352-368 | an accepted append keeps the item a contiguous run in sequence order, with PSH only at its end |
| GroRuns.PrependKeepsRun | awg-ios/tun/offload_linux.go:369-383 | an accepted prepend keeps the item a contiguous run in sequence order, with PSH only at its end |
| GroRuns.UdpAppendKeepsRun | awg-ios/tun/offload_linux.go:314-329 | an accepted datagram keeps the item a run of gsoSize pieces with only the last shorter |
| GroState.AddGroup | awg-ios/tun/offload_linux.go:884-893 | listing a packet's own buffer conserves traffic |
| GroState.AppendedGroup | awg-ios/tun/offload_linux.go:494-498 | behind the group's payloads comes the packet's, whatever is set in the header |
| GroState.PrependedGroup | awg-ios/tun/offload_linux.go:469-474 | the group's payloads follow the packet's in the swapped-in buffer |
| GroState.MergeInto | awg-ios/tun/offload_linux.go:444-506 | merging a packet into a written buffer conserves traffic |
| GroSteps.StepNoop | awg-ios/tun/offload_linux.go:884-891 | a packet left alone keeps the invariant of the pass |
| GroTcpSteps.StepTcpInsert | awg-ios/tun/offload_linux.go:112-129 | a new TCP item keeps the invariant of the pass |
| GroTcpSteps.StepTcpDelete | awg-ios/tun/offload_linux.go:136-140 | dropping an item from the table keeps the invariant: its buffer is still written |
| GroTcpMerge.StepTcpAppend | awg-ios/tun/offload_linux.go:476-505 | a successful append keeps the invariant of the pass |
| GroTcpMerge.StepTcpPrepend | awg-ios/tun/offload_linux.go:449-475 | a successful prepend, with its swap of the two slices, keeps the invariant of the pass |
| GroUdpSteps.StepUdpInsert | awg-ios/tun/offload_linux.go:219-234 | a new UDP item keeps the invariant of the pass |
| GroUdpSteps.StepUdpAppend | awg-ios/tun/offload_linux.go:414-438 | a successful append of a datagram keeps the invariant of the pass |
| GroTables.UdpTableUpdated | awg-ios/tun/offload_linux.go:829-857 | a flow's items go on holding exactly its datagrams in arrival order, and other flows are untouched |
| GroJoins.TcpFitsIff | awg-ios/tun/offload_linux.go:279-506 | a segment is merged with an item if and only if, in terms of the packets that came in, the compared bytes agree, it follows on or leads up, sizes and PSH allow it, the buffer has room and all checksums verify; which checksum is found wrong otherwise |
| GroJoins.UdpFitsIff | awg-ios/tun/offload_linux.go:314-438 | the same for a datagram: compared bytes, all datagrams so far of one size, the new one no larger, room, checksums |
| GroJoins.TcpJoinsAt | awg-ios/tun/offload_linux.go:531-621 | a segment is merged if and only if some buffer of its flow takes it, and then into the last that does |
| GroJoins.UdpJoinsAt | awg-ios/tun/offload_linux.go:786-858 | a datagram is merged if and only if the buffer with its flow's latest datagram takes it, and then into that one |
| Gro.Pass.CoalesceTcp | awg-ios/tun/offload_linux.go:444-506 | the checks in their order, and the exact new buffers and item, both for append and for prepend |
| Gro.Pass.MergeTcp | awg-ios/tun/offload_linux.go:600-611 | comparing with one item: its outcome, which `GroJoins.TcpFitsIff` spells out, and the new table, with the invariant kept |
| Gro.Pass.ScanFlow | awg-ios/tun/offload_linux.go:584-616 | stops at the last item that takes the packet or reveals it corrupt; exactly the items found corrupt on the way are dropped |
| Gro.Pass.TcpGro | awg-ios/tun/offload_linux.go:531-621 | result, buffers and table in every case, with the invariant kept |
| Gro.Pass.CoalesceUdp | awg-ios/tun/offload_linux.go:414-438 | the checks in their order, and the exact new buffers and item |
| Gro.Pass.MergeUdp | awg-ios/tun/offload_linux.go:836-845 | only the last item of the flow is considered, and its outcome, which `GroJoins.UdpFitsIff` spells out, decides |
| Gro.Pass.UdpGro | awg-ios/tun/offload_linux.go:786-858 | result, buffers and table in every case; a parsed datagram is always in the table afterwards |
| Gro.Pass.Take | awg-ios/tun/offload_linux.go:866-894 | one turn of the loop: what is listed, what gets an empty header, what the tables become, and which buffer the packet is in, told by the packets alone (`GroJoins.Told`) |
| Gro.Pass.Account | awg-ios/tun/offload_linux.go:625-739 | one item's accounting touches only its buffer and only length and checksum bytes |
| Gro.Pass.AccountTcp | awg-ios/tun/offload_linux.go:625-679 | every TCP item is accounted for, in whatever order the flows come |
| Gro.Pass.AccountUdp | awg-ios/tun/offload_linux.go:683-739 | every UDP item is accounted for, in whatever order the flows come |
| Gro.Pass.HandleGro | awg-ios/tun/offload_linux.go:865-896 | fails exactly on a bad offset; otherwise every packet has been taken in turn and merged with others exactly when it fits (`GroJoins.AllTold`), the others are listed in the order in which they came, traffic is conserved, every item's buffer has its headers and virtio header, packets left alone keep their empty header, and a listed buffer has none exactly when some turn found its item corrupt |
| GroHeaders.AllHeaded | awg-ios/tun/offload_linux.go:882-895 | the accounting pass gives every tracked buffer its virtio header and leaves the others as they were |
| GroHeaders.DropTracks | awg-ios/tun/offload_linux.go:608-610 | an item that is dropped stands for one packet whose checksum does not verify; no other written buffer loses its item |
| GroHeaders.NoHeaderIsCorrupt | awg-ios/tun/offload_linux.go:600-616 | a listed buffer without a virtio header holds a single corrupt TCP packet, as it came |
| GroHeaders.EveryBufferHeaded | awg-ios/tun/offload_linux.go:865-896 | when no TCP packet is corrupt every listed buffer has a virtio header |
| GroLosses.ItemFate | awg-ios/tun/offload_linux.go:600-616 | an item is gone after a scan exactly when the scan got as far as the item and found it corrupt |
| GroLosses.TurnLoses | awg-ios/tun/offload_linux.go:866-894 | the listed buffers left without header and item after a turn are those before it and the one whose item the turn found corrupt |
| GroLosses.PassTold | awg-ios/tun/offload_linux.go:865-896 | after a pass over any number of packets a listed buffer has no virtio header if and only if some turn found its item corrupt |
| GroDropped.NoHeaderIff | awg-ios/tun/offload_linux.go:600-616 | of two packets, the first is written without a virtio header if and only if the second is of its flow, goes together with it, fits, and finds its checksum wrong |
| GroPairs.PairListed | awg-ios/tun/offload_linux.go:865-896 | of two packets only the first is listed, for both, if and only if they are of one flow, adjacent, alike where merging compares, in size and PSH such that merging is allowed, with room, and with checksums that verify |
| GroExamples.TwoPackets | awg-ios/tun/offload_linux.go:865-896 | handleGRO on two packets: only the first is listed, with an offload header, exactly when the two go together; the first one's buffer has no virtio header, or has lost its PSH, exactly when the input meets the condition for it |
| GroExamples.StaleHeader | awg-ios/tun/offload_linux.go:600-616 | two consecutive one-byte segments, the first without a checksum |
| GroFronts.MergedFront | awg-ios/tun/offload_linux.go:449-505 | after a merge the buffer has the headers of its first packet, agrees with every packet where merging compares, and has PSH exactly when its last packet has it and did not come in before the first |
| GroPsh.PshLostIff | awg-ios/tun/offload_linux.go:449-475 | of two packets, the first with PSH, the buffer ends up without PSH if and only if the second is merged with the first |
| GroPsh.PshKept | awg-ios/tun/offload_linux.go:444-506 | a packet's PSH is on the buffer that holds it when no later packet of its flow comes in |
| GroExamples.PshLost | awg-ios/tun/offload_linux.go:449-475 | a segment with PSH, and then the one before it, meet the condition |
| GroAccount.FixHeaders | awg-ios/tun/offload_linux.go:637-670 | lengths, IPv4 header checksum and pseudo-header sum are right, nothing else changes |
| GroResults.TcpItemCut | awg-ios/tun/offload_linux.go:531-679 | cutting an item's payload at its gsoSize gives its packets' payloads in sequence order; its buffer is listed |
| GroResults.UdpFlowCut | awg-ios/tun/offload_linux.go:786-983 | cutting a flow's written buffers gives the payloads of all its datagrams in arrival order |
| GroRoundTrip.TcpWritten | awg-ios/tun/offload_linux.go:625-983 | segmenting a merged TCP buffer as its virtio header asks gives back its packets: same flow, sequence number, sizes, payload and compared header bytes, a checksum that verifies, and PSH exactly where it was when the buffer's first packet did not come in later, else no PSH |
| GroRoundTrip.UdpWritten | awg-ios/tun/offload_linux.go:681-983 | segmenting a merged UDP buffer as its virtio header asks gives back its datagrams: same flow, size, payload and compared header bytes, and a checksum that verifies |
| GroRoundTrip.NotOffloaded | awg-ios/tun/offload_linux.go:625-739 | a buffer whose header asks for no segmentation, or that has none, holds one packet as it came |
| GroRoundTrip.ExactlyOnce | awg-ios/tun/offload_linux.go:865-896 | every packet sits in exactly one place of one written buffer |
| GroRoundTrip.ThereAndBack | awg-ios/tun/offload_linux.go:865-983 | receive offload followed by segmentation of all written buffers gives back every packet in its place: unmerged ones as they came, merged ones with all header bytes but those no comparison covers |
| GroResults.FlowsAreThere | awg-ios/tun/offload_linux.go:829-857 | every parsed datagram's flow is in the table |
| GroResults.CorruptStaysAlone | awg-ios/tun/offload_linux.go:424-432 | a packet whose transport checksum does not verify is never merged |
| NoiseTerms.SharedSecretCommutes | awg-ios/device/noise-helpers.go:100-108 | both sides of a Diffie-Hellman exchange get the same secret |
| Noise.WriteInitiation | awg-ios/device/noise-protocol.go:180-236 | fails exactly on an unusable remote key or missing static-static secret; otherwise the message and the transcript |
| Noise.OpenStatic | awg-ios/device/noise-protocol.go:252-287 | the static key that opens, or none, and the transcript so far |
| Noise.AcceptInitiation | awg-ios/device/noise-protocol.go:298-346 | accepted exactly when the time opens, is newer than that of the last one accepted, and comes more than 20 ms after it; both times are then those of this initiation |
| Noise.WriteResponse | awg-ios/device/noise-protocol.go:373-422 | the response and the transcript that it completes |
| Noise.ReadResponse | awg-ios/device/noise-protocol.go:441-515 | taken exactly when the state and the sealed empty field fit |
| Noise.ExchangeCompletes | awg-ios/device/noise-protocol.go:180-561 | paired sides complete an exchange with equal hash and chain key, and each one's send key is the other's receive key (Noise Protocol Framework revision 34, sections 5.2, 5.3 and 9) |
| Noise.ClaimedIff | awg-ios/device/noise-protocol.go:262-287 | an initiation opens at exactly the device it was made for |
| Noise.StampedIff | awg-ios/device/noise-protocol.go:300-322 | its time opens under exactly the static-static secret it was sealed with |
| Noise.CompletesIff | awg-ios/device/noise-protocol.go:441-502 | a response is taken if and only if transcript, preshared key and both shared secrets agree |
| Noise.AnswersOwnInitiation | awg-ios/device/noise-protocol.go:424-519 | an accepted response answers this very initiation, from the intended device, under the same preshared key |
| Noise.FreshKeys | awg-ios/device/noise-protocol.go:524-561 | sessions with different ephemeral keys share no key |
| NoisePattern.InitiationFollows | awg-ios/device/noise-protocol.go:180-250 | the initiation's fields, hash and chain key are what the tokens e, es, s, ss and the timestamp as payload prescribe (Noise Protocol Framework revision 34, sections 5.2 and 5.3) |
| NoisePattern.ResponseFollows | awg-ios/device/noise-protocol.go:356-422 | the response is what the tokens e, ee, se, psk and an empty payload prescribe (Noise Protocol Framework revision 34, sections 5.3 and 9.2) |
| IndexTable.PeerStep | awg-ios/device/indextable.go:15-98 | a change confined to one peer's entries keeps the whole table exact |
| IndexTable.EntriesExact | awg-ios/device/indextable.go:38-98 | a peer's entries are exactly its handshake's nonzero index and its live keypairs' indices, at most four |
| IndexTable.NeverShared | awg-ios/device/indextable.go:58-92 | no two peers share an index |
| IndexTable.NeverSharedWithin | awg-ios/device/indextable.go:44-56 | nor do a peer's handshake and keypairs among themselves |
| IndexTable.AssignIff | awg-ios/device/noise-protocol.go:239-244 | assigning a fresh index keeps the table exact if and only if it is not zero |
| IndexTable.ZeroIndexIsLost | awg-ios/device/noise-protocol.go:239-244 | a peer with index 0 loses its entry when another peer starts a handshake |
| IndexTable.FailedDrawIff | awg-ios/device/noise-protocol.go:239-243 | when no new index can be drawn the table stays exact if and only if the handshake is left with index zero |
| IndexTable.StaleIndex | awg-ios/device/noise-protocol.go:239-243 | a handshake under way with a nonzero index loses its entry on a failed draw |
| IndexTable.IndexGivenUp | awg-ios/device/peer.go:235-249 | clearing a handshake and deleting its index keeps the table exact |
| IndexTable.SlotGivenUp | awg-ios/device/keypair.go:48-52 | dropping one keypair and its index keeps the table exact |
| IndexTable.KeypairsRotated | awg-ios/device/noise-protocol.go:578-611 | a new keypair takes over the handshake's index while the dropped ones lose theirs |
| SessionSteps.LastAcceptedDecides | awg-ios/device/noise-protocol.go:298-346 | through any run, a peer's two times are those of the last initiation accepted for it |
| SessionSteps.AcceptedApart | awg-ios/device/noise-protocol.go:318-341 | of two initiations accepted for a peer in a run, the later carries a newer time and came more than 20 ms later |
| SessionSteps.NeverAcceptedTwice | awg-ios/device/noise-protocol.go:318-341 | no initiation is accepted twice, whatever happens in between |
| SessionSteps.OneResponsePerInitiation | awg-ios/device/noise-protocol.go:424-519 | between two responses accepted for a peer a new initiation has been sent to it |
| SessionSteps.OneSessionPerHandshake | awg-ios/device/noise-protocol.go:524-611 | between two sessions begun with a peer a response has been sent to it or accepted from it |
| SessionSteps.StaysCurrent | awg-ios/device/noise-protocol.go:580-611 | a session that this side has initiated is current, and none waits to be confirmed, until another begins or the peer is flushed |
| SessionSteps.ConfirmedIsLater | awg-ios/device/noise-protocol.go:580-630 | once this side has initiated a session, a keypair that is confirmed belongs to a session begun later |
| DeviceSessions.Device.NewIndexForHandshake | awg-ios/device/indextable.go:58-92 | the first unused draw, entered for the handshake; none, and nothing changed, when the random source fails before one comes up |
| DeviceSessions.FirstUnusedIff | awg-ios/device/indextable.go:58-92 | that draw is unused and all draws before it are in use |
| DeviceSessions.Device.SwapIndexForKeypair | awg-ios/device/indextable.go:44-56 | an entry in use passes to the keypair, an unused index changes nothing |
| DeviceSessions.Device.CreateMessageInitiation | awg-ios/device/noise-protocol.go:180-250 | message, handshake and table after success and after each kind of failure: key, public keys, index; the table stays exact exactly when the index drawn is not zero, or the draw fails and there was none before |
| DeviceSessions.Device.ConsumeMessageInitiation | awg-ios/device/noise-protocol.go:252-354 | which peer accepts, what it then remembers (the sealed time, the moment, the sender's index and key), and that nothing changes when none does |
| DeviceSessions.Device.CreateMessageResponse | awg-ios/device/noise-protocol.go:356-422 | message, handshake and table after success and after each kind of failure: state, index, key, public keys; the table stays exact exactly when the index in place afterwards is right |
| DeviceSessions.Device.ConsumeMessageResponse | awg-ios/device/noise-protocol.go:424-519 | the handshake under the receiver index completes exactly when the response fits |
| DeviceSessions.Device.BeginSymmetricSession | awg-ios/device/noise-protocol.go:524-611 | keys by role, an exact table, and the slots by case: an initiator's new keypair is current, with the one waiting, or else the old current one, as previous, and none waiting; a responder's waits, with current as before and no previous |
| DeviceSessions.Exchange | awg-ios/device/noise-protocol.go:180-611 | the two messages and both new sessions on two devices that know each other: it succeeds exactly when the responder is willing, and then the new keypairs have crossed keys and crossed indices under which both tables find them |
| DeviceSessions.Device.ReceivedWithKeypair | awg-ios/device/noise-protocol.go:613-630 | the next keypair becomes current exactly when it is the one received with |
| DeviceSessions.Device.ExpireHandshake | awg-ios/device/peer.go:244-250 | the handshake's secrets and state are cleared, its times kept, and its index freed |
| DeviceSessions.Device.ZeroAndFlushAll | awg-ios/device/peer.go:218-242 | the peer is left without keypairs, handshake and entries; its times are kept |
| DeviceSessions.SessionKeepsExact | awg-ios/device/noise-protocol.go:563-611 | neither rotation leaks a dead keypair's index or drops a live one's |
| DeviceSessions.Device.Run | awg-ios/device/indextable.go:38-98 | as long as each event of a run is harmless every peer's entries are exact and at most four; with the first that is not the table ceases to be exact; the history is a run in the sense of `SessionSteps` |
| Replay.WindowMoved | awg-ios/replay/replay.go:48-50 | clearing the next block moves the exact window up by one |
| Replay.WindowCleared | awg-ios/replay/replay.go:45-50 | clearing 128 blocks makes the window exact however far it jumps |
| Replay.BitSet | awg-ios/replay/replay.go:56-61 | the bit tells whether the counter was accepted, and setting it accounts for it |
| Replay.Filter.Reset | awg-ios/replay/replay.go:29-32 | clearing the first block alone forgets everything |
| Replay.Filter.ValidateCounter | awg-ios/replay/replay.go:36-62 | accepts exactly the counters below the limit, not accepted since the last reset, and at most 8128 behind |
| Replay.NeverTwice | awg-ios/replay/replay.go:36-62 | between two resets no counter passes twice |
| Replay.PassesIff | awg-ios/replay/replay.go:29-62 | in terms of the calls alone: a counter passes if and only if it is below its limit and, among the counters checked below theirs since the last reset, it is not, and none is more than 8128 ahead of it |
| Replay.Run | awg-ios/replay/replay.go:29-62 | any run of resets and checks answers as its history demands |
| UdpBatch.CoalesceMessages | awg-ios/conn/bind_std.go:450-498 | the messages stand for the same datagrams in order, at most 64 each and within the payload limit, and a new message begins only where a datagram did not fit |
| UdpBatch.SplitOne | awg-ios/conn/bind_std.go:503-542 | one message's datagrams in consecutive slots, cut back to the slots' buffers, without touching unread data; overflow exactly when the slots up to its own do not suffice |
| UdpBatch.SplitCoalescedMessages | awg-ios/conn/bind_std.go:502-544 | all datagrams in order in the first slots, each as far as its slot's buffer takes it; fails exactly on an unreadable segment size or an overflow |
| UdpBatch.HoldsWhole | awg-ios/conn/bind_std.go:529-531 | a slot holds the whole datagram exactly when its buffer takes it |
| UdpBatch.LastSlotsNeverOverflow | awg-ios/conn/bind_std.go:243-247 | messages of at most 64 datagrams in the last len/64 slots never overflow |
| UdpBatch.PiecesIff | awg-ios/conn/bind_std.go:516-539 | pieces are those of the received bytes if and only if the segment size is at most their number |
| UdpBatch.StaleByteHandedOn | awg-ios/conn/bind_std.go:516-530 | one byte received with a segment size of two is handed on as two |
| UdpBatch.SplitUndoesCoalesce | awg-ios/conn/bind_std.go:450-544 | messages that arrive as they were coalesced split into the same datagrams |
| UdpBatch.SplitRead | awg-ios/conn/bind_std.go:243-252 | messages read into the last len/64 slots are split without error into their datagrams |
| UdpBatch.SendAndReceive | awg-ios/conn/bind_std.go:243-544 | a batch that is coalesced, read into the last len/64 slots and split: no error, and the first slots hold the first datagrams of the batch, whole and in order, all of them exactly when the slots suffice for the messages |
| Ratelimiter.Ratelimiter.Allow | awg-ios/ratelimiter/ratelimiter.go:101-137 | answers as if no entry were ever collected |
| Ratelimiter.Ratelimiter.Cleanup | awg-ios/ratelimiter/ratelimiter.go:84-99 | collects exactly the entries idle for more than a second |
| Ratelimiter.IdleIsNew | awg-ios/ratelimiter/ratelimiter.go:89-93 | an idle entry is as good as none |
| Ratelimiter.Ratelimiter.Run | awg-ios/ratelimiter/ratelimiter.go:84-137 | a whole history of queries and collections answers as without collections |
| Ratelimiter.SpendsItsFunds | awg-ios/ratelimiter/ratelimiter.go:121-137 | what is allowed costs less than the funds at the start and the time that passes |
| Ratelimiter.WindowBound | awg-ios/ratelimiter/ratelimiter.go:14-20 | in any window of t nanoseconds one address is allowed at most 5 + t/50000000 packets |
| Ratelimiter.AllowedIsCounted | awg-ios/ratelimiter/ratelimiter.go:101-137 | the bounded count is the number of yes answers to the address |
| Ratelimiter.OthersDoNotMatter | awg-ios/ratelimiter/ratelimiter.go:101-137 | the answers to one address depend on its own query times alone |
| Ratelimiter.AnswerIff | awg-ios/ratelimiter/ratelimiter.go:101-137 | every single answer: a query passes if and only if the earlier yes answers from any of them on cost less, together with it, than five packets and the time between; refused queries leave no trace |
| Ratelimiter.PassesIff | awg-ios/ratelimiter/ratelimiter.go:121-137 | with an entry, all queries pass if and only if the entry's tokens and the time that passes pay for every stretch of them |
| Ratelimiter.AllPassIff | awg-ios/ratelimiter/ratelimiter.go:101-137 | all queries of a new address pass if and only if those from any j-th to any i-th cost less than five packets and the time between, whatever else happens to the limiter |
| Ratelimiter.BurstIff | awg-ios/ratelimiter/ratelimiter.go:14-20 | of five queries of a new address the first four pass, and the fifth if and only if it comes later than the first |
| Ratelimiter.BurstOfFour | awg-ios/ratelimiter/ratelimiter.go:130-135 | of five packets at one instant a new address gets four through |
| Nonce.StepKeepsSafe | awg-ios/device/send.go:455-457 | every atomic access keeps given nonces distinct, below the limit and below the counter |
| Nonce.NoncesAreUnique | awg-ios/device/send.go:436-501 | in any interleaving with at most 2^13 pending senders no (keypair, nonce) is given twice and all are below the limit |
| Nonce.OneMoreRepeats | awg-ios/device/constants.go:16 | with one pending sender more the counter wraps and a nonce repeats |
| Nonce.UniqueIff | awg-ios/device/constants.go:16 | a bound on the pending senders rules out repeated nonces in every run if and only if it is at most 2^13 |
| StagedQueue.Sender.StagePackets | awg-ios/device/send.go:417-434 | when the queue is full the oldest container goes |
| StagedQueue.Sender.FlushStagedPackets | awg-ios/device/send.go:504-517 | everything staged is given back |
| StagedQueue.Sender.Number | awg-ios/device/send.go:452-470 | consecutive nonces for the first packets, the rest set aside once the numbers run out |
| StagedQueue.Sender.SendStagedPackets | awg-ios/device/send.go:436-501 | packets go out in staging order with consecutive nonces below the limit, or back when the peer has stopped; what is left stays staged, none lost or doubled; a handshake is asked for exactly when packets stay staged on a device that is up |
| OutboundGraph.FinishedIsSound | libxray/xray/ping_batch.go:285-325 | a finished search leaves nothing reachable broken or on a cycle |
| PingBatch.BuildTables | libxray/xray/ping_batch.go:198-209 | first position of every tag, and the repeated tags |
| PingBatch.TablesResolve | libxray/xray/ping_batch.go:303-319 | a dependency resolves exactly when its tag is found and not repeated |
| PingBatch.Collector.Visit | libxray/xray/ping_batch.go:285-325 | the search ends; it finishes the node and all below it, in depth-first order, or its error is true: a missing or repeated tag that something reachable depends on, or a reachable cycle |
| PingBatch.Collect | libxray/xray/ping_batch.go:278-331 | every reachable outbound exactly once, the target first, in depth-first order; fails exactly when one is missing, duplicate-tagged or on a cycle, and says which |
| PingBatch.ChooseTarget | libxray/xray/ping_batch.go:211-228 | the requested outbound, else the one called proxy, else the first; fails exactly when there is none such, and says why |
| PingBatch.NamespacedInjective | libxray/xray/ping_batch.go:240-247 | names never clash, within an item or across items |
| PingBatch.Prepare | libxray/xray/ping_batch.go:193-276 | fails exactly when there is no target, its graph is unsound, or a renamed outbound cannot be built, with the error that is true; otherwise every outbound and reference is renamed consistently, in depth-first order, and the tag is that of the target |
| PingBatch.EdgesPreserved | libxray/xray/ping_batch.go:249-267 | prepared outbounds depend on each other exactly as the originals do |
| FileCommit.NamesDiffer | psiphon-ios/psiphon/dataStore_files.go:214-227 | no two files of two keys have the same name |
| FileCommit.ApplyingKeeps | psiphon-ios/psiphon/dataStore_files.go:243-254 | applying a pending commit changes no key's value |
| FileCommit.CommittingSets | psiphon-ios/psiphon/dataStore_files.go:227-231 | the rename to the commit is the moment at which the new value counts |
| FileCommit.Bucket.ApplyCommit | psiphon-ios/psiphon/dataStore_files.go:243-254 | changes no value whatever happens; afterwards no commit is pending |
| FileCommit.Bucket.Put | psiphon-ios/psiphon/dataStore_files.go:204-241 | after any failure or crash the old or the new value, whole; the new one exactly when the commit rename worked |
| FileCommit.Bucket.Get | psiphon-ios/psiphon/dataStore_files.go:107-127 | returns the value the key has unless a pending commit cannot be applied or the file not opened or read, and then none; changes no value |
| FileCommit.Bucket.Run | psiphon-ios/psiphon/dataStore_files.go:187-254 | in any run of puts and gets with failures and crashes, every get returns the last put that took effect |

## Left out

- AllowedIPs.Trie.Insert: entries are named by prefix instead of being heap objects, so it does not model that an insertion reuses no memory of a removed entry.
- Addresses of the trie are bit sequences in network order; the byte and shift positions stored with an entry are not modelled.
- Locks, and the clearing of a removed entry's pointers for the garbage collector.
- InternetChecksum.AddWords: the unrolled chains of additions are a loop over the same words.
- Gso.GsoSplit: `csumStart` is the IP header length, the checksum offset that of the protocol, and the input at most 65535 bytes, as virtio headers that the kernel delivers have them.
- Gro.Pass.HandleGro: buffers are distinct and have capacities of at most 65535; a buffer no longer than the offset counts as empty.
- GroRoundTrip.ThereAndBack: of a merged packet everything comes back that parsing reads or merging compares: addresses, ports, type of service or traffic class, TTL or hop limit, DF, sequence and acknowledgement numbers, TCP options, payload. Not claimed are IPv4 ID and header checksum (segments get new ones), IPv6 flow label, reserved bits of TCP, window, urgent pointer and transport checksum (a new one that verifies).
- Gro.Pass.HandleGro: does not order merged packets relative to packets that were left alone.
- The pools of item slices, and `gsoNoneChecksum`.
- Noise.WriteInitiation: header types, junk packets, padding, MACs and cookies are not part of the transcript that is modelled; a message kind is a number.
- DeviceSessions.Device.CreateMessageInitiation: the random source yields an unused index or fails after finitely many draws.
- DeviceSessions.Device.Run: ends with the first event that is not harmless; what a table that is no longer exact leads to is not followed.
- DeviceSessions.Exchange: both devices draw an index that is not zero.
- DeviceSessions.Device.ExpireHandshake: storing the limit into the send counters of current and next keypair is part of `Nonce`.
- Finer interleavings than whole handshake steps, timers, and adding or removing peers.
- Ratelimiter.Ratelimiter.Allow: one caller at a time, with a clock that does not run backwards and 64-bit times that do not overflow.
- UdpBatch.SplitOne: segment sizes lie within the message's buffer.
- UdpBatch.CoalesceMessages: datagrams are nonempty and shorter than 65536 bytes, as those of the protocol are; source control data and addresses, which all messages of a call share, are not modelled.
- UdpBatch.SendAndReceive: receive buffers of 65535 bytes, as the Linux and Android builds have them; segments a network would lose or reorder are not modelled.
- StagedQueue.Sender.SendStagedPackets: device, peer and keypair keep their condition during a call, and other senders are part of `Nonce`.
- PingBatch.Prepare: whether Xray can build an outbound is a parameter; settings other than tag and references are one opaque body.
- FileCommit.Bucket.Put: one bucket within an update transaction, and file-system operations that persist in order; deletion, cursors and the reuse of read buffers are not modelled.
- Sockets, TUN devices, the JSON interface, the share conversions and the tunnel pool: plumbing around libraries outside this repository.
