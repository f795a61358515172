# Verified model of OPL core

OPL core joins game players' machines into one private network. A host opens a *room*; members pair with
it, get an address in 10.0.23.0/24 and a WireGuard peer, and talk through tunnels that OpenP2P finds for
them. This project models the parts of that program that hold its state and its arithmetic, and proves
what they promise. `dafny verify dfyconfig.toml` checks all of it.

## What is modelled

**The room** (`Lease`, `State`, `Room`, `RoomInvariant`, `RoomSteps`, `RoomRuns`, `RoomHistory`,
`RoomRollback`, `RoomRestart`, `RoomLimits`, `RoomAnswers`, `RoomCalls`, `RoomKeeps`, `RoomService`). Every
callback that runs under the room's lock is one step, together with what WireGuard, the network and the disk
answer during it. The step functions of the datatype `Room` say what each callback does; the class `Service`
does it in place, field by field, on an `Allocator` with its octet array, and each method is proved to do
exactly its step. The invariant says that leases, PSKs and states have the same keys, that pending attempts
belong to members and remember them as they were, that WireGuard has exactly the members with their addresses
and PSKs while the room runs, and that the files of a fixed room decode to a room that can be started. It is
proved over every run, then used for what happens across steps: failed pairings are undone exactly, in memory
and on disk, stale callbacks do nothing, the disk follows memory, and a room that is stopped and started comes
back, with pairings that were in flight undone. Of each call it is said when it succeeds and what it leaves,
in terms of what its caller can see. A timer that could not be stopped in time is part of the model: an armed
expiry callback may run at any later step.

Three facts about the code limit what is true, and each has its exact condition. The expiry callback does not
look at pending attempts, so it breaks the invariant exactly when its member is pairing again
(`RoomRollback.ExpiryNeedsItsGuard`), and every room that takes a new member gets there
(`RoomLimits.ExpiryHitsPairing`). A failed save of a rename rebuilds the allocator, so the next revision is
new exactly when the counter was no further than the greatest revision still leased
(`RoomHistory.RebuildReusesRevisions`), and a stale expiry may then remove a member that is online
(`RoomLimits.StaleExpiryHitsMember`). A restart leaves leases and PSKs alone exactly when no pairing that
failed while the server closed had changed a member's (`RoomRestart.RestartUnchangedIff`).

**The interval index** (`IPTree`, `IPRanges`). The remove-and-restart walk of `AddIntIP` runs over a search
tree written here; its loop has a termination measure and its early return is proved never to follow a
removal. After any additions the stored ranges, not just the covered addresses, are the hulls of the connected
components of what was added, so their order does not matter. CIDR blocks cover exactly the addresses equal to
the base under the mask. Text that is no IPv4 address adds address 0, as in the code.

**Invites** (`Base64`, `Crc`, `Invite`). Base64url as Go decodes it, leftover bits and line breaks included,
and CRC-32 bit by bit (section 8 of RFC 1952, section 5 of RFC 4648). Round trips both ways; any single
damaged symbol is rejected, also the one that reaches from the last checked byte into the stored checksum.

**The overlay data path** (`Cbc`, `Overlay`, `Streams`, `OverlayIO`, `RelayHead`). PKCS#7 (section 6.3 of RFC
5652), CBC (section 6.2 of NIST SP 800-38A) over any block permutation, nested frames, one relay hop, streams
that are read and written in pieces of any size. What was read for a connection is what the far end writes to
it. Through a relay that needs connections of one application to write one at a time: their appends behind the
cached relay header share its spare room. `RelayHead.LongFrameRightIff` and `RelayHead.ShortFrameRightIff` say
exactly which frames go out right when they do not, and `RelayHead.ShortWritersSwap` is a run in which one
connection's bytes go out as another's.

**LAN discovery** (`Discovery`, `DiscoveryTun`, `RelayCore`, `RelayRuns`, `DiscoveryFidelity`, `Replay`,
`Traffic`, `TrafficHistory`, `TrafficFlood`). Capture and in-place compaction, frames, IPv4 headers, the
host's checks and fan-out, unwrapping, the replay cache and the token buckets. The cache answers as the full
history would, and a packet read at one member reaches another once, byte for byte, out of everything that
member is ever given to write; the limits hold in every interleaving of senders. The token buckets refine a
history without buckets: a packet is granted exactly when what was let through before leaves room for it. A
sender is charged for what its own bucket lets through even if the room's then refuses it, so few granted
packets in the last second are not enough for the next one to be granted (`TrafficFlood.RefusedCallsCount`),
unless none of the sender's was refused either (`TrafficHistory.QuietIsGranted`).

**The relay's bandwidth limiter** (`SpeedLimiter`) in 64-bit arithmetic. The bytes let through are bounded as
intended while time times speed fits 63 bits. Past that a limiter at the default ten megabits a second that
was idle for three hours holds its next byte back for most of an hour (`SpeedLimiter.IdleLimiterOverflows`),
and one that was drained and then idle for just under two lets ten megabytes through at once
(`SpeedLimiter.DrainedLimiterBreaksBound`). A call that does not wait and is refused keeps what the time
earned but not the time, so the same time earns again when it is repeated (`SpeedLimiter.RefusedEarnsAgain`).

**Pairing** (`Text`, `Pairing`, `Devices`, `Handshake`, `Control`). Wire formats as mutual inverses, frames
over streams, and the handshake as a state machine over any number of clients and sessions, with HMAC and
SHA-256 as constructors: MAC inputs determine every field, the four domains never meet, and two ends that both
succeed agree on everything. After pairing, every connection's loop takes turns with the others on the
server's device table. Two facts about it are proved as exact conditions: a removed member comes back into the
table exactly when one of its connections was past the membership check (`Control.RemovedReturnsIff`), and a
connected member drops out of it exactly when a second connection of the same key is still at work
(`Control.VanishesIff`). With 253 members reporting, the list is one entry longer than its readers accept
(`Control.ListingReadable`).

`Bytes` and `Buffers` hold what the others share; `Wire` says where each field lies and in which order its
bytes come, without the functions that put it there.

## Model

| member | source | states |
|---|---|---|
| `Lease.Allocator.New` | internal/lease/lease.go:30-48 | accepts exactly lists of member addresses and non-zero keys without repetition; the table is those leases with the counter at their greatest revision |
| `Lease.Allocator.Assign` | internal/lease/lease.go:50-80 | the search of the octet array does what the table's assignment does: rename in place, least free address, ErrFull or ErrInvalid with nothing changed |
| `Lease.Allocator.Remove` | internal/lease/lease.go:82-93 | takes out one lease and frees its octet, and only that |
| `Lease.Allocator.Restore` | internal/lease/lease.go:95-115 | puts a lease back exactly when it is well-formed, does not move its holder and its address is free or its own; the counter never goes back |
| `Lease.Allocator.RemoveIfRevision` | internal/lease/lease.go:117-128 | removes exactly a lease with the expected revision |
| `Lease.Allocator.Snapshot` | internal/lease/lease.go:130-141 | every lease once, by strictly increasing address, whatever order the map yields them in |
| `Lease.SnapshotUnique` | internal/lease/lease.go:130-141 | a table has only one snapshot |
| `Lease.SnapshotRebuilds` | internal/lease/lease.go:30-48 | New accepts every snapshot and rebuilds the same leases from it |
| `Lease.AssignFresh` | internal/lease/lease.go:63-77 | a new key gets the least free address, and a revision above every earlier one if and only if the counter does not wrap |
| `Lease.FullIffCapacity` | internal/lease/lease.go:63-79 | ErrFull exactly when 253 leases exist; never more than 253 |
| `Lease.RestoreUndoesRename` | internal/lease/lease.go:95-115 | restoring the previous lease undoes a rename, counter included, if and only if its revision is not 0 or nothing was renamed |
| `Lease.CallsKeepTable` | internal/lease/lease.go:50-128 | over every sequence of calls distinct keys have distinct member addresses and the counter bounds every revision until it wraps |
| `RoomState.Validate` | internal/state/state.go:93-128 | the passes with their sets of what has been seen accept exactly the valid records whose list of blocked UIDs has no repetition |
| `RoomState.PersistIsAtomic` | internal/room/room.go:831-872 | a save that succeeds is what a later load reads; one that fails and is undone leaves both files as they were |
| `RoomState.BackupIsPrevious` | internal/state/state.go:41-74 | a save over a valid file keeps it as the backup, so a load reads it again should the new file be spoilt; an invalid file never replaces the backup |
| `RoomService.FindLease` | internal/room/room.go:1039-1046 | finds a lease with the key if there is one |
| `RoomService.Service.constructor` | internal/room/room.go:151-183 | a stopped, empty room |
| `RoomService.Service.Create` | internal/room/room.go:185-278 | does the Create step, its three failure paths included |
| `RoomService.Service.Start` | internal/room/room.go:306-401 | does the Start step: load, bring up, apply each member, write the secret back, listen, or clear |
| `RoomService.Service.ApplyMembers` | internal/room/room.go:363-381 | the loop over the members leaves exactly the peers and PSKs Start is to have, or stops at the first one WireGuard refuses |
| `RoomService.Service.Stop` | internal/room/room.go:403-425 | stops the timers and clears a room that is not fixed |
| `RoomService.Service.SetJoinEnabled` | internal/room/room.go:427-442 | changes the flag, or nothing if the save fails |
| `RoomService.Service.UpdateMemberStats` | internal/room/room.go:459-477 | does the stats step |
| `RoomService.Service.RemoveMember` | internal/room/room.go:487-555 | does the removal step, both error paths included |
| `RoomService.Service.UnblockUID` | internal/room/room.go:557-577 | unblocks, or changes nothing if the save fails |
| `RoomService.Service.RenameMember` | internal/room/room.go:579-603 | renames, or rebuilds the allocator from the old snapshot if the save fails |
| `RoomService.Service.RotateKey` | internal/room/room.go:605-629 | replaces the room key, or keeps it if the secret cannot be written |
| `RoomService.Service.Assign` | internal/room/room.go:658-705 | does the assign step: refusals, attempt, peer, save, and the rollback of either failure |
| `RoomService.Service.PairingFailed` | internal/room/room.go:734-764 | rolls a member back or arms a new one's expiry; does nothing for a stale token |
| `RoomService.Service.ExpiryFires` | internal/room/room.go:752-774 | removes the lease with the armed revision unless it is configured |
| `RoomService.Service.PairingAcknowledged` | internal/room/room.go:777-792 | ends the attempt with this token and stops its timer |
| `RoomService.Service.ReportStats` | internal/room/room.go:794-805 | records the UID of the member that has the address |
| `RoomService.Service.RollbackPair` | internal/room/room.go:807-829 | puts back lease, PSK, state and peer of one attempt |
| `RoomService.Service.PersistLocked` | internal/room/room.go:831-860 | writes secret and record, and the old secret back if the record fails |
| `RoomService.Service.Clear` | internal/room/room.go:904-916 | empties the room but not the timers or the attempt counter |
| `RoomSteps.AssignIsTransactional` | internal/room/room.go:658-705 | assign is granted in full, on disk too, or leaves the room as it was but for its counters |
| `RoomSteps.RemoveIsTransactional` | internal/room/room.go:487-555 | a removal happens in full, or leaves the member with lease, PSK, state and peer and only cancels its pairing |
| `RoomSteps.ReportedPointwise` | internal/room/room.go:459-477 | the stats loop writes the state of every reported member and of no one else |
| `RoomRuns.StartLoops` | internal/room/room.go:354-381 | Start leaves every member offline and every enabled one a peer with its stored or derived PSK |
| `RoomRuns.StepKeepsInv` | internal/room/room.go:185-829 | every allowed step keeps the invariant, and keeps the disk current if the ignored saves succeed |
| `RoomRuns.RunKeepsInv` | internal/room/room.go:185-829 | so does every allowed run |
| `RoomRuns.MembersAgreeEverywhere` | internal/room/room.go:459-829 | in every allowed run of a new service, leased keys, PSK keys, state keys and peers are the same, with the lease's address and the stored PSK |
| `RoomRuns.DiskFollowsMemory` | internal/room/room.go:831-872 | a fixed room's files decode to exactly the memory, in every run in which the ignored saves succeed |
| `RoomRestart.StartRestores` | internal/room/room.go:306-401 | a stopped fixed room whose files are current comes back as its memory says |
| `RoomRestart.HandlersFail` | internal/pairing/network.go:240-258 | however many pairings are in flight when the room stops, there is a run of allowed steps in which all their handlers report their failure |
| `RoomRestart.RestartRestores` | internal/room/room.go:403-425 | Stop, any steps while the server closes, and Start: a key whose pairing failed meanwhile has the lease and PSK from before it, every other key those it had at the Stop; settings and peers come back |
| `RoomRestart.RestartUnchangedIff` | internal/room/room.go:403-425 | leases, PSKs and peers are those at the Stop if and only if no pairing that failed meanwhile had changed a member's lease or PSK |
| `RoomHistory.StaleTokensAreHarmless` | internal/room/room.go:734-792 | once an attempt is over no later acknowledgement or failure with its token changes anything, in any run |
| `RoomHistory.EndingSpendsToken` | internal/room/room.go:777-792 | acknowledging or failing an attempt ends it in that sense |
| `RoomHistory.StaleExpiriesAreHarmless` | internal/room/room.go:752-774 | within one allocator's life an expiry whose lease is gone touches only the timer map; renames whose save fails are harmless while the counter is at the greatest revision leased |
| `RoomHistory.RemovalSpendsRevision` | internal/room/room.go:487-555 | removing a member makes the expiries of its lease stale |
| `RoomHistory.RebuildReusesRevisions` | internal/room/room.go:594-602 | after a rename whose save failed, the next revision is new if and only if the counter was at the greatest leased revision |
| `RoomLimits.StaleExpiryHitsMember` | internal/room/room.go:594-602 | a run of allowed steps in which such a reuse lets the timer of an earlier lease remove a member that is online |
| `RoomRollback.FailedPairingRestores` | internal/room/room.go:734-748 | a member's pairing that fails restores lease, PSK, state and peer exactly and keeps all steps on other members in between |
| `RoomRollback.FailedPairingRestoresDisk` | internal/room/room.go:744-746 | and if the ignored saves succeed, room.json and room.secret of a fixed room say about the member what they said before |
| `RoomRollback.FailedFirstPairingExpires` | internal/room/room.go:749-774 | a first pairing that fails leaves no trace of its key after its timer |
| `RoomRollback.RunElsewhere` | internal/room/room.go:459-829 | no run of steps on other members changes anything about a member |
| `RoomRollback.ExpiryNeedsItsGuard` | internal/room/room.go:752-774 | an expiry that removes a member keeps the invariant if and only if the member is not pairing again |
| `RoomLimits.ExpiryHitsPairing` | internal/room/room.go:749-774 | from any room that takes a new member: it pairs, fails, pairs again, and its timer removes it under its pairing |
| `RoomAnswers.AssignAnswers` | internal/room/room.go:658-679 | when its calls are answered, a request is granted if and only if the room runs, takes new members or has this one, nothing is pending for the key, who claims to be a member is one, the key is not zero, and it has an address or one of the 253 is free; otherwise the room is unchanged and the error is that of the first of these that fails |
| `RoomAnswers.GrantHolds` | internal/room/room.go:680-705 | a grant leaves the lease under the new name, new ones at the least free address; the PSK the member had if it proved it, and the one derived from the handler's key, the host's key and its own, in this order, if not; a peer with just these; the reply says what the lease says, and nothing else about anyone changes |
| `RoomKeeps.ExpiryTakesIff` | internal/room/room.go:752-774 | an expiry takes lease, PSK, state and peer of the lease it was armed for unless its member is configured, and otherwise only its own timer |
| `RoomKeeps.AcknowledgedIsKept` | internal/room/room.go:777-792 | from its acknowledgement on a member is left as it is by every run of expiries, its own included, whenever they were armed, and of steps that do not change its state |
| `RoomKeeps.ReportedIsKept` | internal/room/room.go:459-477 | the same from a report without a recent handshake on, though the acknowledgement was lost and the timer is armed |
| `RoomKeeps.BlockingBans` | internal/room/room.go:501-512 | a removal that blocks bans the UID of the member and no other, through every run until that UID is unblocked or the room starts anew; one that does not block bans nobody |
| `RoomKeeps.TimersExactly` | internal/room/room.go:749-792 | of every step: whose timer it sets, to which revision, and whose it stops |
| `RoomKeeps.ArmedExactly` | internal/room/room.go:749-764 | only a first pairing that fails arms a callback, and stopping a timer recalls none |
| `RoomKeeps.RunNoPeersDown` | internal/room/room.go:403-425 | in every run, whatever fails in it, WireGuard has no peers while the network is down |
| `RoomCalls.RotateAnswers` | internal/room/room.go:605-629 | the key is the new one, in memory and in the secret of a fixed room, if and only if the room runs, its settings make an invite, the key is not zero and the secret can be written; otherwise nothing changes |
| `RoomCalls.SetJoinAnswers` | internal/room/room.go:427-442 | joining is set, on disk too, exactly while the room runs |
| `RoomCalls.UnblockAnswers` | internal/room/room.go:557-577 | exactly a blocked UID of a running room is unblocked, and the others stay blocked |
| `RoomCalls.RemoveAnswers` | internal/room/room.go:487-555 | when its calls are answered, removing succeeds if and only if the room runs and has the member, blocking only if the member has reported a UID that is not a fixed room's host; the member is then gone from everything and nobody else is |
| `RoomCalls.RenameAnswers` | internal/room/room.go:579-603 | when it can be saved, a rename succeeds if and only if the name is valid and the room runs and has the member, and changes the name alone |
| `RoomCalls.UidsExactly` | internal/room/room.go:794-805 | of every step: the UID a member is known under is the last one it reported from its own address, until it is removed or the room forgets everyone |
| `RoomCalls.StopLeaves` | internal/room/room.go:403-425 | stopping ends network, peers and timers; a fixed room keeps settings and members, another forgets them |
| `RoomCalls.CreateAnswers` | internal/room/room.go:185-278 | the exact condition under which a room is created, and that it is open, empty and as it was asked for |
| `RoomCalls.StartAnswers` | internal/room/room.go:306-401 | the exact condition under which a fixed room starts, and that it has the settings, leases and key of its files |
| `IPTree.IPTree.AddIntIP` | internal/openp2pengine/iptree.go:30-72 | the stored ranges become the old ones with everything the new range overlaps merged into one; false and no change for a reversed range |
| `IPTree.IPTree.Load` | internal/openp2pengine/iptree.go:102-122 | hits exactly the covered addresses, with the value of the range that has the address |
| `IPTree.WalkContained` | internal/openp2pengine/iptree.go:46-49 | the early return never follows a removal, so no range is lost |
| `IPTree.MergedDisjoint` | internal/openp2pengine/iptree.go:59-70 | merging keeps the ranges pairwise disjoint |
| `IPTree.MergedCovers` | internal/openp2pengine/iptree.go:59-70 | merging adds exactly the new addresses |
| `IPTree.HullExists` | internal/openp2pengine/iptree.go:59-66 | the merged range exists: the smallest around the new one and all it overlaps |
| `IPTree.RemoveEntries` | internal/openp2pengine/iptree.go:60 | removing a key takes out one range and keeps the search order |
| `IPTree.PutEntries` | internal/openp2pengine/iptree.go:70 | inserting a range that overlaps none adds it and keeps the search order |
| `IPRanges.AddedCovers` | internal/openp2pengine/iptree.go:30-72 | after any additions exactly the union of the added ranges is covered |
| `IPRanges.StoredAreComponents` | internal/openp2pengine/iptree.go:30-72 | after any additions the stored ranges are exactly the maximal runs linked by added ranges |
| `IPRanges.OrderDoesNotMatter` | internal/openp2pengine/iptree.go:30-72 | neither order nor repetition of the additions changes a stored range |
| `IPRanges.SharedIffJoined` | internal/openp2pengine/iptree.go:30-72 | two added ranges share a stored one if and only if a chain of overlapping added ranges joins them |
| `IPRanges.CalculateMaxIP` | internal/openp2pengine/iptree.go:171-178 | the copy has every host bit set and the network bits unchanged |
| `IPRanges.CidrIsMask` | internal/openp2pengine/iptree.go:153-161 | an address lies between the two ends of a CIDR block if and only if it equals the base under the mask |
| `IPRanges.NewIPTree` | internal/openp2pengine/iptree.go:147-170 | the tree built from a list holds what its entries add, bad blocks skipped |
| `IPRanges.ListCovers` | internal/openp2pengine/iptree.go:147-170 | an address is in the index if and only if some entry stands for it |
| `Base64.ParsePrinted` | internal/invite/invite.go:44 | decoding inverts encoding |
| `Base64.PrintParsed` | internal/invite/invite.go:51 | encoding inverts decoding of whole groups |
| `Base64.HexParsePrinted` | internal/invite/invite.go:68 | hexadecimal text of bytes decodes to them and is lower case |
| `Base64.HexPrintParsed` | internal/invite/invite.go:31 | lower-case hexadecimal text decodes, and prints back as itself |
| `Crc.AdjacentBytesDetected` | internal/invite/invite.go:43 | any change confined to two neighbouring bytes changes the checksum |
| `Crc.LastNibbleDifference` | internal/invite/invite.go:55 | a change in the low half of the last checked byte shows outside the top byte of the checksum |
| `Crc.StepsInjective` | internal/invite/invite.go:43 | the register forgets nothing |
| `Invite.IsZero` | internal/invite/invite.go:74-80 | the accumulator is zero exactly when every byte is |
| `Invite.Encode` | internal/invite/invite.go:30-45 | the filled buffer is the payload of the value, or the value is refused |
| `Invite.AcceptableIffValid` | internal/invite/invite.go:31-34 | exactly sixteen lower-case hexadecimal digits, a port and a non-zero key are accepted |
| `Invite.RoundTrip` | internal/invite/invite.go:30-72 | every valid invite encodes, to 41 characters, and decodes to itself |
| `Invite.Reprint` | internal/invite/invite.go:47-72 | whatever decodes is valid and encodes to the same text, line breaks aside |
| `Invite.DamagedSymbolRejected` | internal/invite/invite.go:47-57 | replacing any one symbol of an invite that decodes by any other character makes Decode return ErrFormat |
| `Wire.AlphabetIs` | internal/invite/invite.go:44 | the digits are the URL-safe alphabet of table 2 of RFC 4648, in its order |
| `Wire.DigitsInOrder` | internal/invite/invite.go:44 | three bytes are four six-bit digits, the first byte first |
| `Wire.CheckValue` | internal/invite/invite.go:43 | the checksum of the digits 1 to 9 is CBF43926, the check value of CRC-32 |
| `Wire.InviteIs` | internal/invite/invite.go:36-43 | the payload carries the flag, the host's UID, the port, the room key and the checksum of all before it, numbers with the high byte first |
| `Wire.FirstCountsMost` | internal/invite/invite.go:41-43 | in a big-endian number of any length the first octet counts most |
| `Cbc.Pad` | internal/openp2pengine/common.go:73-79 | the padding lands behind the data in the same buffer |
| `Cbc.CryptBlocks` | internal/openp2pengine/common.go:102-104 | block by block, the output is the chained encryption |
| `Cbc.EncryptBytes` | internal/openp2pengine/common.go:90-106 | the sealed plaintext, or the plaintext itself without a key |
| `Cbc.DecryptBytes` | internal/openp2pengine/common.go:108-119 | the opened ciphertext, or an error for wrong padding |
| `Cbc.DecryptEncrypted` | internal/openp2pengine/common.go:90-119 | chained decryption inverts chained encryption for any block permutation |
| `Cbc.OpenSealed` | internal/openp2pengine/common.go:73-119 | opening a sealed plaintext gives it back |
| `Cbc.EachBlockChained` | internal/openp2pengine/common.go:90-106 | every block is combined with the ciphertext block before it, the first with the initial vector, and then encrypted |
| `Cbc.FitsBuffer` | internal/openp2pengine/overlay.go:54-56 | a padded plaintext fits the buffers if and only if it has at most 4111 bytes |
| `Overlay.HeaderRoundTrip` | internal/openp2pengine/protocol.go:63-85 | a header decodes to what it was made from if and only if the fields fit their widths |
| `Overlay.KeyBytesUnique` | internal/openp2pengine/p2papp.go:806-814 | the AES key is the only sixteen bytes that hold the number in both halves |
| `Wire.LastCountsMost` | internal/openp2pengine/protocol.go:63-85 | in a little-endian number of any length the last octet counts most |
| `Wire.OverlayHeaderIs` | internal/openp2pengine/protocol.go:63-85 | a header is length, main type and subtype, each with its lowest octet first |
| `Wire.PaddedAsInRfc` | internal/openp2pengine/common.go:73-79 | data is padded to whole blocks with one to sixteen octets, each of which holds their number |
| `Overlay.OthersUntouched` | internal/openp2pengine/p2ptunnel.go:645-690 | whatever a stream holds, a connection that is closed or that no frame is data for is left as it was |
| `Overlay.TunnelGets` | internal/openp2pengine/p2pnetwork.go:1032-1046 | a tunnel is written exactly what the frames naming it carry, in their order, unless the loop panics |
| `Overlay.DataIsDelivered` | internal/openp2pengine/p2ptunnel.go:651-676 | the body of a data frame delivers exactly its plaintext to its connection |
| `Overlay.DirectIsTransparent` | internal/openp2pengine/overlay.go:60-76 | over a direct tunnel each connection gets at the far end what was read for it, in order, in every interleaving |
| `Overlay.RelayForwards` | internal/openp2pengine/p2pnetwork.go:1032-1046 | the relay writes the inner frames unchanged to the tunnel they are for, and nothing else |
| `Overlay.RelayedIsTransparent` | internal/openp2pengine/p2ptunnel.go:685-693 | the same through one relay hop, for connections that write one at a time |
| `Overlay.CrashesIff` | internal/openp2pengine/p2ptunnel.go:651-676 | the read loop panics if and only if its stream has a data frame for a known connection with a key whose payload is not a whole number of blocks between 1 and what the buffer holds |
| `Streams.Source.ReadFull` | internal/openp2pengine/underlay.go:25-39 | pieces of any size add up to the bytes asked for |
| `Streams.WriteFull` | internal/openp2pengine/common.go:337-347 | short writes add up to the whole data |
| `OverlayIO.ReadBuffer` | internal/openp2pengine/underlay.go:25-39 | reads exactly the frame at the front of the stream |
| `OverlayIO.WriteFrame` | internal/openp2pengine/underlay.go:41-48 | writes exactly one frame |
| `OverlayIO.App.PreCalcKeyBytes` | internal/openp2pengine/p2papp.go:806-814 | the filled buffer is sixteen bytes either half of which reads back as the key; without a key nothing changes |
| `OverlayIO.App.SetRelayTunnelID` | internal/openp2pengine/p2papp.go:485-489 | the cached relay header follows the tunnel ID |
| `OverlayIO.App.WriteBytes` | internal/openp2pengine/p2papp.go:791-804 | one frame, or one frame inside one for the relay, though the appends use the spare room behind the cached header; one writer at a time |
| `OverlayIO.App.Run` | internal/openp2pengine/overlay.go:50-76 | everything the connection delivers is sent, in chunks of at most 4096 bytes, encrypted and framed |
| `RelayHead.OneAtATime` | internal/openp2pengine/p2papp.go:791-804 | in every run in which no connection starts to write while another is writing, every frame the relay gets is the one meant |
| `RelayHead.LongFrameRightIff` | internal/openp2pengine/p2papp.go:799-801 | in every interleaving of writers, a frame too long for the spare room is the one meant if and only if the last header put before its data was appended announces its length |
| `RelayHead.ShortFrameRightIff` | internal/openp2pengine/p2papp.go:799-801 | in every interleaving of writers, a frame whose data fits the spare room is the one meant if and only if, when it is sent, the last header put announces its length and each of its bytes is that of the short data appended last among those that reach so far |
| `RelayHead.TwoWritersCross` | internal/openp2pengine/p2papp.go:799-801 | two long writers at once: the first frame goes out under the second one's length |
| `RelayHead.ShortWritersSwap` | internal/openp2pengine/p2papp.go:799-801 | two short writers at once, of one length: the first sends the second's data, in a well-formed frame |
| `OverlayIO.Receiver.ReadLoop` | internal/openp2pengine/p2ptunnel.go:605-759 | the loop, with its reused buffer, does to the node what the stream says |
| `OverlayIO.Receiver.RelayData` | internal/openp2pengine/p2pnetwork.go:1032-1046 | the body goes to the tunnel it names, if there is one |
| `Discovery.Encode` | internal/discovery/frame.go:31-45 | the filled buffer is the frame, for valid packets only |
| `Discovery.FrameRoundTrip` | internal/discovery/frame.go:31-65 | a frame that encodes decodes to itself |
| `Discovery.FrameReprint` | internal/discovery/frame.go:47-65 | bytes that decode are the encoding of what they decode to |
| `Discovery.IPv4Checksum` | internal/discovery/tun.go:154-163 | the two loops compute the folded sum's complement |
| `Discovery.Folded` | internal/discovery/tun.go:159-161 | folding keeps the sum modulo 65535 and is zero only for zero |
| `Discovery.ChecksumVerifies` | internal/discovery/tun.go:154-163 | a header whose blank checksum field is filled in checks out |
| `Discovery.HeaderChecks` | internal/discovery/tun.go:122-129 | so does the header of every wrapped packet |
| `Discovery.BuildIPv4UDP` | internal/discovery/tun.go:122-135 | the filled buffer is the wrapped packet |
| `DiscoveryTun.KeepPacket` | internal/discovery/tun.go:108-115 | the packet is in its buffer, or did not fit and nothing changed |
| `DiscoveryTun.Wrapper.Compact` | internal/discovery/tun.go:41-59 | the in-place compaction leaves exactly the packets to keep, in order, and overwrites none before it is examined |
| `DiscoveryTun.Wrapper.Read` | internal/discovery/tun.go:38-64 | returns the first batch of which something is left, or that came with an error |
| `DiscoveryTun.FirstKeptIs` | internal/discovery/tun.go:38-64 | Read passes over exactly the batches that leave nothing and do not fail, returns the first other one whole and leaves those behind it |
| `DiscoveryTun.Wrapper.Write` | internal/discovery/tun.go:66-95 | over the life of a client everything passed on is what its replay cache let through of everything offered, and the cache was asked about exactly the frames offered, in order |
| `DiscoveryFidelity.CompactionIsFilter` | internal/discovery/tun.go:38-64 | with large enough buffers of one length nothing is lost |
| `DiscoveryFidelity.ClientKeepsAll` | internal/discovery/tun.go:41-59 | a client keeps every packet in its place, discovery packets wrapped, others unchanged |
| `DiscoveryFidelity.HostTakesDiscovery` | internal/discovery/tun.go:52-55 | the host takes out exactly its discovery packets, in order |
| `DiscoveryFidelity.Unwraps` | internal/discovery/tun.go:122-152 | unwrapping gives back what was wrapped |
| `DiscoveryFidelity.WrappedIsNotDiscovery` | internal/discovery/frame.go:67-102 | a wrapped packet is never taken for a discovery packet |
| `DiscoveryFidelity.TakenIffBroadcast` | internal/discovery/frame.go:67-102 | of the UDP packets that fit a frame exactly those a member sends itself to the broadcast and multicast addresses are discovery packets |
| `DiscoveryFidelity.LetThroughIff` | internal/discovery/tun.go:81-84 | a frame that reaches a client is let through if and only if none with its sender and number was within the ttl before |
| `DiscoveryFidelity.Arrives` | internal/discovery/tun.go:52-58 | a packet read at a client reaches the relay as the frame made of it, and is accepted if and only if its client is listed, it is new, within the limits, and the host takes it |
| `DiscoveryFidelity.WrapperLived` | internal/discovery/tun.go:66-95 | the whole life of a client's wrapper is a run of its replay cache over everything it was given, and it wrote what that let through |
| `DiscoveryFidelity.Fidelity` | internal/discovery/tun.go:38-95 | from a client's Read through the relay to another client's wrapper: of the packets given to it that bring a copy exactly one leaves a trace in what it has written, the packet read, byte for byte, in that place |
| `DiscoveryFidelity.HostFidelity` | internal/discovery/tun.go:52-55 | the same for a packet captured on the host |
| `DiscoveryFidelity.OthersPass` | internal/discovery/tun.go:73-79 | whatever else a client was given, every packet that is not the host's has been written as it came, in its place |
| `DiscoveryFidelity.RelayedPass` | internal/discovery/tun.go:66-95 | of what comes from the host's relay a client passes on the packet of each frame its cache lets through, in its place, and nothing else |
| `RelayCore.TargetsExact` | internal/discovery/relay.go:165-169 | the sender, the host and invalid addresses get no copy, every other member one for each time it is listed |
| `RelayCore.RelayedExactly` | internal/discovery/relay.go:136-176 | a payload is relayed if and only if it is a checked, new frame within the limits; then it is injected once, and everyone else listed gets its bytes once per listing |
| `RelayCore.Core.Fanout` | internal/discovery/relay.go:165-176 | sends exactly those copies, and counts the sends that succeed as forwarded and the others as dropped |
| `RelayCore.Core.Member` | internal/discovery/relay.go:136-150 | does to limits, counters, host and members what the replay cache's answer calls for, and asks the cache about checked frames only |
| `RelayCore.Core.Receive` | internal/discovery/relay.go:79-92 | the same from the bytes received; what is not relayed counts as dropped |
| `RelayCore.Core.Host` | internal/discovery/relay.go:152-163 | a frame of the host is charged and copied exactly when it is the host's and within the limits |
| `RelayRuns.FloodsAreBounded` | internal/discovery/relay.go:136-187 | in every run from a new relay under a clock that does not go back, over T seconds at most 128(1+T) packets of 262144(1+T) bytes of one member are handed to the host's interface, and at most 2048(1+T) frames of all are accepted |
| `RelayRuns.CarriedIff` | internal/discovery/relay.go:136-176 | after any run a payload is injected, counted and sent to everyone else listed if and only if it is an unflagged frame under the address of the listed member it came from, new, taken by the interface, and what the member was charged for and all were granted before leaves room for it; otherwise none of it happens |
| `RelayRuns.HostCarriedIff` | internal/discovery/relay.go:152-163 | the same of a packet captured on the host, which is sent to every member listed and never injected |
| `RelayRuns.CopiesAreCounted` | internal/discovery/relay.go:82-94 | every copy is counted once, as forwarded or as dropped by the answer to its send; what is not carried counts as one dropped |
| `Replay.ReplayWindow.Accept` | internal/discovery/frame.go:126-155 | purge, refuse a duplicate, make room, remember, whatever order the map yields its entries in |
| `Replay.ReplayWindow.FindOldest` | internal/discovery/frame.go:144-150 | finds an entry as old as any |
| `Replay.RefinesHistory` | internal/discovery/frame.go:126-155 | while no ttl-long window holds more accepts than the cache, a pair is refused if and only if it was accepted within the ttl |
| `Replay.RunSize` | internal/discovery/frame.go:142-152 | the cache never holds more than its maximum, in any run |
| `Replay.BurstsForgetOldest` | internal/discovery/frame.go:126-155 | bursts or not, a duplicate was accepted within the ttl; and what was accepted within the ttl is refused until as many others as the cache holds have been accepted at the same time or after it |
| `Traffic.TrafficBucket.Take` | internal/discovery/relay.go:199-213 | refill, then spend a packet and its bytes if both suffice |
| `Traffic.Limiter.Allow` | internal/discovery/relay.go:178-187 | the room is charged only for what the sender's bucket lets through |
| `Traffic.IntervalBounds` | internal/discovery/relay.go:178-221 | over T seconds at most 128(1+T) packets and 262144(1+T) bytes of one sender and 2048(1+T) packets of all, in every interleaving |
| `TrafficHistory.GrantedIffAfforded` | internal/discovery/relay.go:178-213 | after any calls under a clock that does not go back, the next is granted if and only if, from every earlier call on, what its sender was charged for and all were granted and this call are no more than a full bucket and what the rate has earned since |
| `TrafficHistory.QuietIsGranted` | internal/discovery/relay.go:178-213 | a call is granted whenever in the last second none of its sender was refused, fewer than 128 of them were granted, with its own no more than 262144 bytes, and of all fewer than 2048, with its own no more than 2^30 bytes, whatever came before |
| `TrafficFlood.RefusedCallsCount` | internal/discovery/relay.go:178-187 | without "none was refused" that fails: a run after which a sender that was granted nothing is refused though fewer than 2048 empty packets of all were granted in the last second, because the room refused packets its own bucket was charged for |
| `Traffic.RateLimiter.Allow` | internal/pairing/network.go:611-624 | refill at five a second up to ten, then spend one |
| `Traffic.AttemptBound` | internal/pairing/network.go:605-624 | over T seconds at most 10+5T pairing attempts |
| `TrafficHistory.AdmittedIffAfforded` | internal/pairing/network.go:605-624 | an attempt is let through if and only if, from any attempt let through before it on, there are with it no more than ten and five for every second |
| `SpeedLimiter.Limiter.Add` | internal/openp2pengine/speedlimiter.go:29-50 | a waiting call does the credited, capped, debited update and sleeps its debt off; one that does not wait is refused without moving the time of the last update |
| `SpeedLimiter.StretchBound` | internal/openp2pengine/speedlimiter.go:29-50 | in any run of waiting calls of a new limiter, for one frame each and never after an idle time whose product with the speed exceeds 63 bits, any stretch passes at most the full bucket, speed times time, and one byte |
| `SpeedLimiter.RunBound` | internal/openp2pengine/speedlimiter.go:29-50 | the same from any state whose debt is paid |
| `SpeedLimiter.WaitingExact` | internal/openp2pengine/speedlimiter.go:29-50 | while the products fit 63 bits a waiting call passes at once if its bytes are free, and otherwise after the time in which the missing ones are earned, to a nanosecond |
| `SpeedLimiter.TriedExact` | internal/openp2pengine/speedlimiter.go:40-42 | a call that does not wait passes exactly if its bytes are free, and a refused one is charged nothing |
| `SpeedLimiter.RefusedEarnsAgain` | internal/openp2pengine/speedlimiter.go:35-42 | a refused call leaves the time of the last update, so asked again at once the same time earns twice: the exact condition under which that lets the call through |
| `SpeedLimiter.SleepExact` | internal/openp2pengine/speedlimiter.go:44-48 | the sleep is the true one if and only if debt times nanoseconds fits 63 bits |
| `SpeedLimiter.DrainedLimiterBreaksBound` | internal/openp2pengine/speedlimiter.go:35-48 | without the condition on idle times the bound fails: a run at the default speed that passes ten megabytes at one instant |
| `SpeedLimiter.CreditExact` | internal/openp2pengine/speedlimiter.go:35 | the credit is the true one if and only if time times speed fits 63 bits |
| `SpeedLimiter.IdleLimiterOverflows` | internal/openp2pengine/speedlimiter.go:35-48 | a concrete idle limiter whose next byte waits most of an hour |
| `Pairing.ChallengeRoundTrip` | internal/pairing/pairing.go:64-80 | a challenge parses back if and only if it has the version and a host key; what parses marshals back |
| `Pairing.MarshalRequest` | internal/pairing/pairing.go:109-123 | the filled buffer is the request, for valid requests only |
| `Pairing.RequestRoundTrip` | internal/pairing/pairing.go:109-145 | a request that marshals parses to itself |
| `Pairing.RequestReprint` | internal/pairing/pairing.go:125-145 | bytes that parse are what the request marshals to |
| `Pairing.ResultRoundTrip` | internal/pairing/pairing.go:206-241 | a result that marshals parses to itself if and only if it reports success |
| `Pairing.ResultReprint` | internal/pairing/pairing.go:223-241 | bytes that parse are what the result marshals to |
| `Pairing.StatsRoundTrip` | internal/pairing/network.go:484-511 | a report that marshals parses to itself, negative timestamps included |
| `Pairing.StatsReprint` | internal/pairing/network.go:498-511 | bytes that parse are what the report marshals to |
| `Devices.MarshalDevices` | internal/pairing/network.go:513-528 | the loop writes the count and every entry |
| `Devices.ParseDevices` | internal/pairing/network.go:530-559 | the loop with its offset finds the list if entries fill the payload and every UID is valid |
| `Devices.DevicesRoundTrip` | internal/pairing/network.go:513-559 | a list of valid devices is read back if and only if it has at most 253 entries; a longer one is refused |
| `Devices.DevicesReprint` | internal/pairing/network.go:530-559 | a payload that parses is what its devices marshal to |
| `Devices.DevicesFit` | internal/pairing/network.go:513-528 | every such list fits one frame |
| `Devices.WriteFrame` | internal/pairing/pairing.go:315-327 | writes one frame, or nothing if it may not be sent |
| `Devices.ReadFrame` | internal/pairing/pairing.go:329-346 | reads the frame at the front of the stream |
| `Devices.ListRoundTrip` | internal/pairing/pairing.go:315-346 | a list of frames is read back as the same list and what follows is untouched |
| `Wire.ResultIs` | internal/pairing/pairing.go:206-221 | where the fields of a result lie: status, address, prefix, WireGuard port, relay port, host key, revision, MAC |
| `Wire.ReportIs` | internal/pairing/network.go:484-496 | where the fields of a report lie: UID, bytes received, bytes sent, time |
| `Wire.DeviceIs` | internal/pairing/network.go:513-528 | where the fields of a listed device lie: UID, address, bytes received, bytes sent, latency |
| `Handshake.RequestInputInjective` | internal/pairing/pairing.go:159-172 | the input of a request's MAC determines the challenge and every field |
| `Handshake.ResultInputInjective` | internal/pairing/pairing.go:255-280 | the input of a result's MAC determines the challenge, the request and every field |
| `Handshake.AckInputInjective` | internal/pairing/pairing.go:286-293 | the input of an acknowledgement determines the revision |
| `Handshake.DomainsDisjoint` | internal/pairing/pairing.go:37-42 | no input of one domain equals one of another |
| `Handshake.RequestWasSent` | internal/pairing/network.go:206-218 | a request that verifies was made by a client for this very challenge |
| `Handshake.ResultWasSent` | internal/pairing/network.go:464-467 | a result that verifies is the server's answer to this very request |
| `Handshake.AckWasSent` | internal/pairing/network.go:253-258 | an acknowledgement that verifies comes from a client that accepted this revision |
| `Handshake.StepKeepsInv` | internal/pairing/network.go:189-266 | every step of every participant keeps the invariant |
| `Handshake.Agreement` | internal/pairing/network.go:189-266 | in every run: answered requests were made, accepted results were given, and a completed session follows an acceptance of its revision under its key |
| `Handshake.CompletesIff` | internal/pairing/network.go:249-258 | an answered session can be completed if and only if a client, of this session or another, has accepted its revision under its key |
| `Handshake.CompletedByItsClient` | internal/pairing/network.go:249-258 | and it was its own client if no other session accepted that revision under that key |
| `Handshake.BothSucceed` | internal/pairing/network.go:449-481 | both ends of a session that succeed agree on key, UID, name, address, prefix, ports, host key and revision |
| `Handshake.AcceptedWasReplied` | internal/pairing/network.go:189-245 | in every run, what a client accepted under a secret key is what some earlier reply to its challenge and request was given: address, WireGuard port, relay port and revision each in its place, with prefix 24 and the challenge's host key |
| `Handshake.AnsweredWasAsked` | internal/pairing/pairing.go:94-107 | in every run, what the server answered under a secret key is what a client put into an earlier request for that challenge: nonce, key, UID and name each in its place |
| `Handshake.AcceptedIsUsable` | internal/pairing/pairing.go:243-253 | whatever the key, a client accepts only an answer to its own request that names the challenge's host key, an IPv4 address, a prefix and two usable ports |
| `Handshake.ExchangeSucceeds` | internal/pairing/network.go:449-481 | for every key, challenge, request and assignment, messages that arrive as they were sent form a run in which both ends complete |
| `Handshake.PskInputParts` | internal/pairing/pairing.go:307-313 | the input of a PSK is its domain, the host's key and the client's, in this order |
| `Control.Server.RemoveMember` | internal/pairing/network.go:116-131 | takes the key out of all three maps and tells the connection that owned its entry |
| `Control.Server.Register` | internal/pairing/network.go:262-264 | a pairing that succeeds records the UID it was made under |
| `Control.Server.Record` | internal/pairing/network.go:303-318 | records the device for its connection; the list sent back has the host and every device once, by address, whatever order the map yields them in |
| `Control.NumberOrders` | internal/pairing/network.go:305-318 | the addresses of the list are compared octet by octet, the first one first |
| `Control.Server.Release` | internal/pairing/network.go:269-276 | a closing connection takes out its own entry and no other's |
| `Control.ListingReadable` | internal/pairing/network.go:305-322 | the list is read back if and only if at most 252 members are in it; a longer one is refused |
| `Control.RunKeepsInv` | internal/pairing/network.go:268-328 | in every interleaving of connections each entry belongs to an open connection of its key and shows that connection's address |
| `Control.ListedAreConnected` | internal/pairing/network.go:268-328 | in every run a key is shown only while a connection of it is open |
| `Control.RecordsBounded` | internal/pairing/network.go:287-305 | once a key is no member, each of its connections past the membership check records at most once more, and no other does |
| `Control.RemovedReturnsIff` | internal/pairing/network.go:116-131 | a removed member is shown again without being admitted again if and only if one of its connections was past the check |
| `Control.ShownUnderPairedUid` | internal/pairing/network.go:293-302 | whatever its reports claim, a member is shown under the UID it paired with until it is removed |
| `Control.ShownAsReported` | internal/pairing/network.go:287-318 | a member that is shown is shown with the bytes received and sent and the latency of its last recorded report, at its connection's address and under its UID, whatever other connections do in between |
| `Control.VanishesIff` | internal/pairing/network.go:269-276 | the entry of an open connection can vanish, with no removal and no new connection, if and only if another connection of the key is still at work |

## Left out

- Cryptographic primitives: AES is any pair of inverse block functions, HMAC and SHA-256 are constructors, key generation is a parameter.
- File formats of the room: JSON, base64 keys and the text of addresses; `room.json` and `room.secret` are replaced whole or not at all, and the sorted list of blocked UIDs is a set.
- RoomState.Validate: keys, addresses and UIDs are values; text that does not decode to one, and two base64 spellings of one key, are not part of this model.
- RoomService.Service.Create: the ports, the host UID and the keys are given, or not to be had; how they are chosen is left out.
- RoomService.Service.Start: the host's own key is given, or not to be had.
- RoomService.Service.RemoveMember: the traffic figures it deletes, and the notice to the pairing server, which `Control.Server.RemoveMember` has.
- RoomService.Service.UpdateMemberStats: the traffic figures it keeps for the interface (`runtimeStats`).
- RoomService.Service.ReportStats: the figures it keeps for the interface (`reportedStats`).
- Snapshots of the room for the interface, and callbacks that are not set.
- IPRanges.NewIPTree: starts from entries already parsed; splitting the list and reading addresses is not part of this model.
- RoomRestart.RestartRestores: assumes that nobody calls Create or Start while the server is closing, which would clear the memory of the room.
- Interleaving below the room's lock.
- Eventual reclamation of unacknowledged members: the code does not provide it, since a stats update turns their state into "configured".
- Deadlines and connection limits of the pairing server; clocks before 1970.
- Streams.WriteFull: connections that fail while they are written; writes complete, in pieces.
- Overlay.RelayedIsTransparent: for connections that write through the relay one at a time; `RelayHead` has the other interleavings, each append as one step.
- OverlayIO.App.WriteBytes: one writer at a time, as above.
- OverlayIO.Receiver.ReadLoop: heartbeats, node data and the requests that connect or disconnect overlay connections do nothing here.
- The balance of the interval index's tree, and `DelIntIP` (which ignores its upper end).
- Floating point: the token buckets count in real numbers.
- `compareVersion`, retry intervals, hole punching, login, the web interface, launchers and logging.
- RoomRuns.MembersAgreeEverywhere: assumes that compensating calls succeed, that no expiry fires for a key that is pairing again and that the 64-bit revision counter does not wrap.
- RoomRuns.DiskFollowsMemory: assumes that the two saves whose errors the room ignores succeed.
- RoomHistory.StaleExpiriesAreHarmless: not across a Create or a Start, which make a new allocator, nor across a failed save of a rename when the counter is ahead of the leased revisions (`RoomLimits.StaleExpiryHitsMember`).
- SpeedLimiter.StretchBound: only for runs in which every idle time fits the program's arithmetic, and at most a gigabyte a second; `SpeedLimiter.DrainedLimiterBreaksBound` shows a run that does not.
- Handshake.BothSucceed: assumes a key that only participants who follow the program know, and server nonces that do not repeat.
- Replay.ReplayWindow.Accept: which of several equally old entries is given up is left open.
