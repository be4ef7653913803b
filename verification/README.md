# ixgbe: verified models of the driver's tables, protocols and allocators

A Dafny 4.11 model of the Intel 10 Gigabit Ethernet driver's integer and register code, with proofs.
Each area is a specification (functions on register contents, or a machine whose steps are single
register accesses), theorems about it for all inputs or all runs, and, where the driver works on
arrays and fields with loops, methods on arrays and fields proved to do what the specification says.

| area | files |
|---|---|
| VLAN pool filter (VFTA, VLVF, VLVFB) | `Vlan.dfy`, `VlanTable.dfy` |
| receive-address table (RAL/RAH, MPSAR) | `Rar.dfy`, `RarTable.dfy` |
| PF/VF mailbox | `Mailbox.dfy`, `MailboxUp.dfy`, `MailboxDown.dfy`, `MailboxLost.dfy`, `MailboxExchange.dfy`, `MailboxWriters.dfy`, `MailboxStatus.dfy` |
| software/firmware semaphore | `SwFwSync.dfy` |
| rings and interrupt vectors, ring registers | `QVectors.dfy`, `RingMap.dfy` |
| FCoE direct data placement | `DdpList.dfy`, `Ddp.dfy` |
| Flow Director hashes | `FdirHash.dfy`, `PerfectHash.dfy` |
| EEPROM writing, page detection, checksum | `Eeprom.dfy`, `EepromWrite.dfy`, `EepromDriver.dfy`, `Checksum.dfy` |
| data center bridging | `DcbCredits.dfy`, `DcbRules.dfy`, `DcbRegs.dfy`, `DcbMaps.dfy` |
| shared | `Arith.dfy`, `Options.dfy` |

`dafny verify dfyconfig.toml` checks everything.

## Conventions

- A bitmap register (VFTA, VLVFB, MPSAR, GSSR, the hash words and keys) is the set of positions of its
  1 bits; shifts cut at 32. Where a register is a number, `&`, `|`, `<<` and `>>` are `And`, `Or`, `*` and
  `Shr` of `Arith.dfy`.
- 8-, 16- and 32-bit arithmetic is written out with `%` wherever it can wrap.
- What the driver asks of the outside is a parameter: `granted` (is there memory for vector v), `Grants`
  (is the EEPROM granted), DMA addresses, the page size of the EEPROM part.
- The mailbox and the semaphore are machines: any side may make its next register access at any time.
  The hardware rules they rely on are stated at the head of `Mailbox.dfy` and `SwFwSync.dfy` and come from
  the driver's comments: status bits cleared on read, write-1-to-clear, SMBI set on read, ownership granted
  to one side at a time, SWESMBI granted only while firmware does not have its semaphore. Firmware is
  modelled as taking resources by the same protocol.

## Where the code and what one would expect of it differ

- A bypass VLAN call for VLAN 0 adds a slot, against the comment at `src/ixgbe_common.c` line 3685
  (`Vlan.BypassZeroAddsSlot`; exactly when pairs change: `Vlan.BypassPairs`).
- Inserting an address into a full receive-address table, which inserts can reach (`Rar.FullReached`), reports
  success with an index that is not a slot (`Rar.AddRefused`; exactly when: `Rar.AddIff`).  It moves the
  high-water mark past the table; later searches then read registers past it.
- Initialising the receive addresses does not clear the pools of the slots it empties (`Rar.InitIff`).
- EEPROM page detection is wrong, or leaves scratch words below the buffer, unless the buffer starts at a
  multiple of 128 words or the part's pages have 128 words (`EepromWrite.DetectionIff`).
- The EEPROM byte address sent has 16 bits, although `word_size` can be larger: a word at or above 0x8000 is
  stored 0x8000 or a multiple of it lower (`EepromWrite.WriteReach`; exactly when a write is right:
  `EepromWrite.WriteIff`).
- Writing more than 0xFF00 words to the EEPROM never ends (`Eeprom.NeverThrough`).
- The EEPROM range check lets an offset beyond the end pass (`EepromWrite.InRangeIff`).
- On an image of more than 0xFFFF words the checksum loop over a section that reaches word 0xFFFF never ends
  (`Checksum.LoopEndsIff`).
- Setting up a DDP exchange between its response and its put loses the block it owns (`Ddp.SetupBalanced`,
  reached in `Ddp.BlockLost`); a second response unmaps a null list (`Ddp.UnmapsNothingIff`).
- A PF message without CTS, such as a ping or a refusal before the VF's reset is complete
  (`src/ixgbe_sriov.c` lines 1408 and 1563-1585), can be overwritten before the VF has read it
  (`MailboxLost.Overwritten`; exactly when delivery is guaranteed: `MailboxLost.DeliveredIff`).
- The PF's mailbox lock does not exclude a second PF writer (`MailboxWriters.BothOwners`; exactly when it does:
  `MailboxWriters.SafeIff`; one writer at a time is enough: `MailboxWriters.SerialSafe`).
- The VF's reset counter counts every check while RSTI is up (`MailboxStatus.RstiCountsEachCheck`; exactly
  when a step counts right: `MailboxStatus.RstCountIff`).
- The CEE bandwidth checker sums in 8 bits (`DcbRules.SumsWrap`; exactly when it is right: `DcbRules.RulesIff`).

## Model

| member | source | states |
|---|---|---|
| `Vlan.SearchMeaning` | src/ixgbe_common.c:3676-3714 | the search returns the slot that holds the VLAN, else a zero slot, else `-25`, for any register contents |
| `Vlan.SetVftaRefines` | src/ixgbe_common.c:3726-3867 | every call, bypass or not, in VT mode or not, does to the three register arrays exactly what it should do to a filter (set of VLAN/pool pairs and enabled VLANs), status included, and keeps: no VLAN in two slots, empty slot has an empty bitmap, slot 0 only for VLAN 0 |
| `Vlan.SlottedPair` | src/ixgbe_common.c:3793-3867 | using a slot changes the one pair (vlan, pool) and no other |
| `Vlan.RoomIffFew` | src/ixgbe_common.c:3676-3714 | a zero slot is left exactly while fewer than 63 VLANs other than 0 are in use |
| `Vlan.RefusedWritesNothing` | src/ixgbe_common.c:3726-3867 | a refused call writes no register; refusal for space happens exactly when 63 other VLANs are in use |
| `Vlan.BypassPairs` | src/ixgbe_common.c:3726-3867 | of the registers after the call's writes: a bypass call changes the VLAN/pool pairs if and only if the VLAN is 0 or has a slot and the pair is not already as asked |
| `Vlan.BypassZeroAddsSlot` | src/ixgbe_common.c:3676-3690 | the driver's comment at line 3685, that a bypass call uses no empty slot, does not hold for VLAN 0: on a cleared table such a call gives it slot 0 |
| `Vlan.SetVftaSafe` | src/ixgbe_common.c:3726-3867 | write order: after every single register write of a call a set VFTA bit has an enabled slot with pools, if and only if the call is not a bypass that turns on a VLAN without a slot |
| `Vlan.ClearEffect` | src/ixgbe_common.c:3875-3891 | clearing leaves the cleared table and is safe after every write |
| `Vlan.RunRefines` | src/ixgbe_common.c:3726-3891 | every run of set and clear calls of any kind behaves, statuses included, as the abstract filter |
| `Vlan.RunSafe` | src/ixgbe_common.c:3726-3891 | in every run of non-bypass calls in VT mode from a cleared table the state after each single register write is safe |
| `Vlan.RunExact` | src/ixgbe_common.c:3726-3891 | after every such run the VFTA bit of a VLAN is set if and only if an enabled slot gives it a pool |
| `VlanTable.Table.FindVlvfSlot` | src/ixgbe_common.c:3676-3714 | the downward search loop computes the slot of the specification |
| `VlanTable.Table.SetVlvfEntry` | src/ixgbe_common.c:3793-3867 | makes exactly the specified VFTA, VLVF and VLVFB writes in the specified order |
| `VlanTable.Table.SetVftaEntry` | src/ixgbe_common.c:3726-3778 | the same for the whole call, with its status |
| `VlanTable.Table.ClearTable` | src/ixgbe_common.c:3875-3891 | the two clearing loops make exactly the specified writes |
| `Rar.SearchIs` | src/ixgbe_common.c:3484-3506 | for any slots: an address is found only where its registers are, a valid copy of it is never passed over, else the first empty slot is returned, else none |
| `Rar.ClearRarIs` | src/ixgbe_common.c:2185-2214 | clearing an address together with its pools leaves the slot blank and no other changed |
| `Rar.SetRarIs` | src/ixgbe_common.c:2134-2176 | setting writes the address and the valid bit of one slot and adds the pool |
| `Rar.ClearVmdqIs` | src/ixgbe_common.c:3540-3586 | the mutual recursion of clearing pools and clearing an address ends, and with the slot blank when the last pool of a slot other than 0 goes |
| `Rar.AddRefines` | src/ixgbe_common.c:3474-3532 | with room, an insert adds exactly the pool to the address's pools (never pool 0 for the address of slot 0), returns the slot that holds the address, and keeps addresses unique, blank slots blank and every other valid slot with pools |
| `Rar.AddRefused` | src/ixgbe_common.c:3509-3522 | without room an insert returns an index that is not a slot, changes no slot, and may raise the high-water mark further |
| `Rar.AddIff` | src/ixgbe_common.c:3474-3532 | an insert does what it should if and only if the address is present, or a slot is free and no register past the table that the search reads is mistaken for it |
| `Rar.FullReached` | src/ixgbe_common.c:3509-3522 | for a table of any size inserts of station addresses that all have room, from initialisation on, lead to a table that refuses the next one |
| `Rar.RemoveRefines` | src/ixgbe_common.c:3540-3586 | removing a pool removes that pool, and with the last one the address, unless it is the one of slot 0 |
| `Rar.ForgetRefines` | src/ixgbe_common.c:2185-2214 | clearing the slot of an address other than that of slot 0 removes the address |
| `Rar.RunRefines` | src/ixgbe_common.c:3474-3618 | every run of inserts that have room, pool removals and address removals is a run of a map from addresses to pool sets |
| `Rar.InitIff` | src/ixgbe_common.c:2224-2270 | on any table: initialisation leaves a table in order if and only if slot 0 gets or has a valid address and the slots above, whose pools it does not clear, had none |
| `RarTable.Hw.SetAddress` | src/ixgbe_common.c:2134-2176 | sets pool, address and valid bit (as the enable flag says) as specified, or refuses the index |
| `RarTable.Hw.ClearAddress` | src/ixgbe_common.c:2185-2214 | clears the slot as specified; the recursion's pool bits shrink |
| `RarTable.Hw.ClearVmdqBits` | src/ixgbe_common.c:3540-3586 | the same for one pool or all |
| `RarTable.Hw.SetVmdqBit` | src/ixgbe_common.c:3594-3618 | sets one pool bit in the right half |
| `RarTable.Hw.Find` | src/ixgbe_common.c:3496-3506 | the search loop computes the specified place, also when the mark is past the table |
| `RarTable.Hw.InsertMac` | src/ixgbe_common.c:3474-3532 | slot returned and new table are those of the specification |
| `RarTable.Hw.InitAddresses` | src/ixgbe_common.c:2224-2270 | writes slot 0 and clears the addresses of the others as specified |
| `MailboxUp.MessagesArrive` | src/ixgbe_mbx.c:393-551 | in every interleaving of the VF, the PF's reads and the PF's writes, VF and PF never both own the buffer, and the PF's reads return the VF's messages once, in order and intact: as many words as asked for (at most 16), which agree with the message; a VF send that has returned was read |
| `MailboxUp.NextKeeps` | src/ixgbe_mbx.c:826-1055 | every single register access of the VF, the PF's reader or its writer keeps the invariant behind that |
| `MailboxExchange.VfToPf` | src/ixgbe_mbx.c:826-1055 | that messages do pass: from any state with everyone idle and for every message and read size, the VF's send, the PF's read of it and the VF's end of the send can be completed; everyone is idle again, one message was sent and one read returned it intact |
| `MailboxExchange.PfToVf` | src/ixgbe_mbx.c:598-976 | the same from PF to VF, with or without CTS |
| `MailboxExchange.IdleQuiet` | src/ixgbe_mbx.c:826-1055 | in every state a run reaches with all threads idle nobody owns the buffer, so an exchange can start there |
| `MailboxDown.MessagesHeard` | src/ixgbe_mbx.c:937-976 | the same from PF to VF when every PF message that is not refused for its size carries CTS |
| `MailboxDown.NextKeeps` | src/ixgbe_mbx.c:598-628 | every register access keeps the invariant behind that |
| `MailboxLost.DeliveredIff` | src/ixgbe_mbx.c:937-976 | for any set of messages: a PF that sends only these has all of them but at most the last heard, intact and in order, in every interleaving, if and only if all that are not refused carry CTS |
| `MailboxLost.Overwritten` | src/ixgbe_mbx.c:937-976 | the losing run: any message without CTS can be announced and then overwritten by any other before the VF reads; the VF's read returns the second and nothing tells it of the first |
| `MailboxLost.NoneTwice` | src/ixgbe_mbx.c:598-628 | with or without CTS, in every interleaving the VF hears at most as many messages as were announced |
| `MailboxWriters.MoveIff` | src/ixgbe_mbx.c:826-869 | with two PF writers: a register access leaves at most one of them with the lock if and only if it is not a write of PFU after the other's write, or between the other's write and its check |
| `MailboxWriters.SafeIff` | src/ixgbe_mbx.c:826-869 | so over a whole run the lock excludes if and only if no access of it is such a race |
| `MailboxWriters.SerialSafe` | src/ixgbe_mbx.c:826-869 | in particular in every run in which one of the two is always idle |
| `MailboxWriters.BothOwners` | src/ixgbe_mbx.c:838-853 | two writers that both read PFU clear both end as owners |
| `MailboxStatus.StatusKept` | src/ixgbe_mbx.c:267-385 | a visible PFSTS, PFACK or RSTD bit goes only by the matching check; for PFSTS and PFACK that counts it once |
| `MailboxStatus.RstCountIff` | src/ixgbe_mbx.c:297-306 | a step counts resets right if and only if it is not a reset check that sees RSTI and no RSTD |
| `MailboxStatus.StatusAccounted` | src/ixgbe_mbx.c:267-459 | over every run every raised status bit is counted exactly once or still visible |
| `MailboxStatus.RstiCountsEachCheck` | src/ixgbe_mbx.c:297-306 | the reset counter is not once per reset: while RSTI is up every further check counts one more |
| `MailboxStatus.AckCheckCounts` | src/ixgbe_mbx.c:351-363 | a check for acknowledgements takes and counts the one there is, and nothing else |
| `MailboxStatus.RstCheckCounts` | src/ixgbe_mbx.c:372-385 | a check for a reset takes RSTD and counts it or RSTI, once |
| `MailboxStatus.MsgCheckTakesNothing` | src/ixgbe_mbx.c:333-342 | a check for messages takes nothing |
| `SwFwSync.Exclusion` | src/ixgbe_common.c:1622-1724 | with any number of driver instances and firmware, in every interleaving, each resource has at most one holder, its GSSR bits are set exactly while held, SMBI is set exactly while some agent is inside the guarded part of a call, and SWESMBI only then |
| `SwFwSync.NextKeeps` | src/ixgbe_common.c:3035-3096 | every register access of every agent keeps the invariant behind that |
| `SwFwSync.ReturnMeans` | src/ixgbe_common.c:3035-3096 | in every interleaving an acquire that has returned holds all it asked for, and a release none of it |
| `SwFwSync.CallsReturn` | src/ixgbe_common.c:3035-3096 | in every state runs reach with the locks free, an acquire of free resources and any release return after eight register accesses when no one else makes any |
| `QVectors.ShareIs` | src/ixgbe_lib.c:1173-1193 | repeated rounded-up division gives vector u the number of indices below n congruent to u |
| `QVectors.DealtByResidue` | src/ixgbe_lib.c:1000-1095 | the strided indices a vector takes are exactly those congruent to it |
| `QVectors.DealtOneEach` | src/ixgbe_lib.c:1160-1193 | with no fewer vectors than rings every vector takes at most the one index of its own |
| `QVectors.OneTxOwner` | src/ixgbe_lib.c:883-889 | a Tx or XDP ring is on the list of exactly the vector it names |
| `QVectors.OneRxOwner` | src/ixgbe_lib.c:883-889 | an Rx ring is on the list of exactly the vector it names |
| `QVectors.PlanShare` | src/ixgbe_lib.c:1173-1193 | the rounded-up shares of a vector are its residue class and leave the right rest |
| `QVectors.Adapter.FreeQVector` | src/ixgbe_lib.c:1118-1139 | frees a vector: exactly its rings leave their slots, and every other ring and vector stays |
| `QVectors.Adapter.FillQVector` | src/ixgbe_lib.c:905-1107 | a vector is linked with exactly its Tx, XDP and Rx rings, each in its slot |
| `QVectors.Adapter.AllocRxVectors` | src/ixgbe_lib.c:1160-1171 | the first loop gives each Rx ring a vector, or stops at the first refused one |
| `QVectors.Adapter.AllocShares` | src/ixgbe_lib.c:1173-1193 | the second loop deals all the rest |
| `QVectors.Adapter.AllocQVectors` | src/ixgbe_lib.c:1148-1224 | for any counts and at least one vector: success deals every Rx, Tx and XDP index to exactly one vector; with a vector for every ring no vector has two Rx rings, two Tx rings or one of each, otherwise Rx and Tx rings go round the vectors; XDP rings go in runs that differ by at most one; failure at any point leaves every slot null and every count 0 |
| `QVectors.Adapter.Rollback` | src/ixgbe_lib.c:1234-1245 | freeing all vectors leaves nothing |
| `DdpList.CutSegmentVerdict` | src/ixgbe_fcoe.c:213-251 | why a segment is refused, and how many buffers it adds if it is not |
| `DdpList.CutSegmentBytes` | src/ixgbe_fcoe.c:213-251 | the buffers added describe exactly the segment's bytes |
| `DdpList.BuildListFaithful` | src/ixgbe_fcoe.c:213-268 | for any list of positive segments: it fits if and only if no interior edge is misaligned and at most 256 buffers are needed; then udl, firstoff and lastsize describe the segments' bytes in order and lastsize is never the buffer size |
| `DdpList.Build` | src/ixgbe_fcoe.c:213-268 | the nested loops over the array compute that list |
| `Ddp.PutBalanced` | src/ixgbe_fcoe.c:47-129 | put undoes the mapping and frees the block it owns |
| `Ddp.CompleteBalanced` | src/ixgbe_fcoe.c:408-500 | completion undoes at most the mapping it owns |
| `Ddp.UnmapsNothingIff` | src/ixgbe_fcoe.c:464-470 | a response unmaps a null list if and only if an earlier response has already unmapped the exchange's list |
| `Ddp.SetupBalanced` | src/ixgbe_fcoe.c:141-345 | setup loses nothing on any success or error path if and only if it does not clear a context that still owns a block |
| `Ddp.BlockLost` | src/ixgbe_fcoe.c:141-345 | that is reached: setup, response and setup again, from an unused exchange, lose a block |
| `Ddp.SetupOk` | src/ixgbe_fcoe.c:141-345 | setup succeeds exactly when the exchange afterwards owns a mapping and a block it did not own before, both made by this call |
| `Ddp.PutReturns` | src/ixgbe_fcoe.c:47-129 | after any calls put of an exchange that owns a block returns the length in its last completion with data or response and no error since its setup, 0 if there was none, and invalidates the hardware context unless there was a response |
| `Ddp.Conservation` | src/ixgbe_fcoe.c:47-345 | over every run in which no exchange is set up again before its put, every mapping is undone exactly once and every block freed exactly once, to its own pool |
| `Ddp.Table.SetupDdp` | src/ixgbe_fcoe.c:141-345 | new context, events and buffer list are those of the specification; success as `Ddp.SetupOk` describes |
| `Ddp.Table.CompleteDdp` | src/ixgbe_fcoe.c:448-483 | the same for completion, with the code it returns: 0 exactly for data placed, the length for a response or data not placed, else an error |
| `Ddp.Table.PutDdp` | src/ixgbe_fcoe.c:47-129 | the same for put, with the length it returns and whether it invalidates the hardware context |
| `FdirHash.SigHash` | src/ixgbe_82599.c:1438-1492 | for all inputs, any two 32-bit keys and any mask of at most 16 bits: the one-key hash of the bucket key in the low half and of the signature key in the high half |
| `FdirHash.Iteration` | src/ixgbe_82599.c:1408-1425 | one iteration adds to both hashes what each key's bits choose, although a common bit is folded once |
| `FdirHash.OneKeyIs` | src/ixgbe_82599.c:1438-1492 | the one-key hash is the exclusive or of the 16-bit windows of one 48-bit stream at the key's 1 bits, bit 0 seeing the stream without the flow |
| `FdirHash.SwapIs` | src/ixgbe_82599.c:1445-1448 | the byte-order conversion takes four bytes as a little-endian host loads them to network order |
| `FdirHash.OneKeyBit` | src/ixgbe_82599.c:1438-1492 | bit p of the one-key hash is the sum modulo 2 of the stream bits at p plus each 1 bit of the key, key bit 0 without the flow |
| `FdirHash.SigHashBit` | src/ixgbe_82599.c:1438-1492 | end to end: every bit of the signature function's result from the eight bytes of its two dwords |
| `PerfectHash.SameBucket` | src/ixgbe_82599.c:1600-1624 | on the same stream the perfect-filter bucket is the low 13 bits of the signature hash |
| `PerfectHash.StoredHash` | src/ixgbe_82599.c:1618-1623 | the stored bkt_hash reads back as the bucket; every other bit of the stream is the masked input |
| `PerfectHash.ComputeTwice` | src/ixgbe_82599.c:1580-1624 | with the hash field masked out, computing again changes nothing |
| `PerfectHash.ComputeBytes` | src/ixgbe_82599.c:1577-1624 | end to end: the bytes of the stream afterwards are the masked bytes, with the 13 hash bits of the masked stream in the last two |
| `PerfectHash.BucketHash` | src/ixgbe_82599.c:1558-1616 | the bucket iterations compute the one-key hash |
| `PerfectHash.ComputePerfectHash` | src/ixgbe_82599.c:1577-1624 | masks, hashes and stores in place as specified |
| `Eeprom.WriteBufferExact` | src/ixgbe_common.c:1112-1183 | with page size 0 or right (a power of two) and all words below 0x8000 every word is stored at its own address, once and in order, nothing else is stored and no burst crosses a page |
| `Eeprom.WriteChunksExact` | src/ixgbe_common.c:1085-1097 | the chunk loop, its counter in 16 bits, does the same for the words sent before an attempt is refused |
| `Eeprom.NeverThrough` | src/ixgbe_common.c:1085-1097 | with more than 0xFF00 words the counter wraps and no number of granted chunks ends the loop |
| `Eeprom.GetsThrough` | src/ixgbe_common.c:1085-1097 | with at most 0xFF00 words enough granted chunks do |
| `Eeprom.DetectedIff` | src/ixgbe_common.c:1408-1441 | the page size found is the part's if and only if the write starts in the first page of a maximum-size page |
| `EepromWrite.DetectionIff` | src/ixgbe_common.c:1408-1441 | where the marching data fits below 0x8000: detection finds the right size and stores nothing below its place if and only if the place is aligned to the maximum or pages have the maximum size |
| `EepromWrite.WriteSafe` | src/ixgbe_common.c:1055-1100 | from such a place and below 0x8000, whatever attempts are refused, no word outside the range changes and a successful write leaves exactly the buffer: detection's scratch is overwritten |
| `EepromWrite.WriteReach` | src/ixgbe_common.c:1149-1156 | no write stores anything at or above word 0x8000, since the byte address sent has 16 bits |
| `EepromWrite.LongNeverAccepted` | src/ixgbe_common.c:1085-1097 | a write of more than 0xFF00 words never succeeds |
| `EepromWrite.WriteSucceeds` | src/ixgbe_common.c:1055-1100 | given the EEPROM whenever it asks, a write of up to 0xFF00 words succeeds |
| `EepromWrite.WriteIff` | src/ixgbe_common.c:1055-1100 | a successful write, at any offset, that was let detect leaves exactly the buffer and a right page size if and only if it ends at or below word 0x8000 and needed no detection or detected at such a place |
| `EepromWrite.InRangeIff` | src/ixgbe_common.c:1070-1073 | the range check, an unsigned subtraction, accepts what fits and also every offset beyond the end |
| `EepromDriver.Hw.SendBurst` | src/ixgbe_common.c:1158-1172 | the do-while loop sends exactly one burst of the specification |
| `EepromDriver.Hw.WriteBufferBitBang` | src/ixgbe_common.c:1112-1183 | the word loop stores what the specification says, or nothing when the EEPROM is not granted |
| `EepromDriver.Hw.DetectPageSize` | src/ixgbe_common.c:1408-1441 | marching data, read-back and the page size as specified, also when refused |
| `EepromDriver.Hw.WriteBufferGeneric` | src/ixgbe_common.c:1055-1100 | argument errors, detection and the chunk loop, for any offset and any length: status, stores and page size of the specification |
| `Checksum.TimesAdded` | src/ixgbe_common.c:1973-2006 | a word is added once if it lies below the checksum word, and once more for every live pointer before the firmware pointer whose section holds it |
| `Checksum.CalcIs` | src/ixgbe_common.c:1961-2012 | the calculated word brings the sum of all words, each as often as it counts, to 0xBABA modulo 2^16; there is none exactly when a read would leave the image |
| `Checksum.ValidateIff` | src/ixgbe_common.c:2022-2064 | validation succeeds if and only if no read leaves the image and all words with the stored one add up to 0xBABA |
| `Checksum.UpdateThenValidate` | src/ixgbe_common.c:2022-2096 | update then validate succeeds if and only if the times the walk adds the checksum word times its change is a multiple of 2^16; so always when the walk does not add it |
| `Checksum.ChangeDetected` | src/ixgbe_common.c:1961-2064 | changing a word of a valid image that is not pointer, length or checksum passes if and only if the times it is added times the change is a multiple of 2^16 |
| `Checksum.SingleWordCovered` | src/ixgbe_common.c:1961-2064 | so any change to a word added once is detected |
| `Checksum.LoopEndsIff` | src/ixgbe_common.c:2000-2006 | the loop over a section, its counter in 16 bits, ends if and only if the image has at most 0xFFFF words or the section ends below word 0xFFFF |
| `Checksum.Nvm.CalcChecksum` | src/ixgbe_common.c:1961-2012 | the loops compute the specified sum, or report a read past the image |
| `Checksum.Nvm.ValidateChecksum` | src/ixgbe_common.c:2022-2064 | status of the specification |
| `Checksum.Nvm.UpdateChecksum` | src/ixgbe_common.c:2070-2096 | status and image of the specification: one word changes |
| `RingMap.InPoolIs` | src/ixgbe_lib.c:56-63 | `reg & ~mask` is the position in the pool |
| `RingMap.AlignIs` | src/ixgbe_lib.c:56-63 | `__ALIGN_MASK(reg, ~mask)` is the start of the next pool |
| `RingMap.BothSkip` | src/ixgbe_lib.c:209-266 | the Rx and the Tx test, on different masks, skip to the next pool at the same registers |
| `RingMap.RegIs` | src/ixgbe_lib.c:209-266 | a loop with that test places ring k*p + r at register r of pool p from the offset on |
| `RingMap.VmdqFits` | src/ixgbe_lib.c:552-620 | after VMDq sizing all pools lie inside the 128 registers and the rings fit their pools |
| `RingMap.VmdqMost` | src/ixgbe_lib.c:552-620 | and they are the most pools the limit and the 64 pools allow, with the most rings that are a power of two within the RSS limit and the pool |
| `RingMap.DcbVmdqFits` | src/ixgbe_lib.c:345-421 | the same after DCB and VMDq sizing |
| `RingMap.DcbVmdqMost` | src/ixgbe_lib.c:345-421 | and they are the most pools, with a ring for every class in the smallest pools that hold them |
| `RingMap.RingsPlaced` | src/ixgbe_lib.c:17-79 | after either sizing both loops give ring i register (offset + i/k)*Q + i%k, below 128 |
| `RingMap.TargetsDiffer` | src/ixgbe_lib.c:209-266 | two rings never get the same register |
| `RingMap.DcbInjective` | src/ixgbe_lib.c:115-197 | the DCB-only maps never collide and stay below 128 |
| `RingMap.ClassesTile` | src/ixgbe_lib.c:115-162 | the classes' register blocks start at 0, follow each other with the sizes of the hardware's table and end with the last register |
| `RingMap.DcbInBlock` | src/ixgbe_lib.c:173-197 | every ring lies in its own class's blocks, at its position in the class |
| `RingMap.DcbRingsMost` | src/ixgbe_lib.c:491-509 | the rings of a class are the most the device's queues, the hardware and the limit allow |
| `RingMap.Rings.CacheVmdq` | src/ixgbe_lib.c:209-266 | the Rx and Tx loops leave those registers in place |
| `RingMap.Rings.CacheDcb` | src/ixgbe_lib.c:173-197 | the nested loops leave the DCB registers in place |
| `DcbCredits.MultiplierLeast` | src/ixgbe_dcb.c:35-35 | the multiplier is the least k with min_percent*k > min_credit |
| `DcbCredits.MinCreditLeast` | src/ixgbe_dcb.c:27-28 | the minimum is the least number of 64-byte credits that covers half a frame |
| `DcbCredits.RefillBounds` | src/ixgbe_dcb.c:37-46 | every refill lies in [min_credit, 511]; for a class at or above the smallest percentage only 511 cuts, and then it is 511; without bandwidth it is min_credit |
| `DcbCredits.RefillsProportional` | src/ixgbe_dcb.c:30-46 | uncut refills of classes with bandwidth are exactly proportional to it |
| `DcbCredits.MostBounds` | src/ixgbe_dcb.c:45-45 | maximum credits fit 12 bits |
| `DcbCredits.MostIs` | src/ixgbe_dcb.c:45-45 | the maximum is the percentage of 4095 rounded down, or min_credit without bandwidth |
| `DcbCredits.LinkIs` | src/ixgbe_dcb.c:109-142 | for CEE: the link percentage is rounded down but not to nothing, and the maximum is the least one that is not below min_credit and within one of its percentage of 4095 |
| `DcbCredits.CalculateCredits` | src/ixgbe_dcb.c:20-49 | the loops fill in those refills and maxima |
| `DcbCredits.Paths.CalculateCreditsCee` | src/ixgbe_dcb.c:62-164 | the same for CEE, with link percentages rounded up to 1; the stored percentage is cut to 8 bits, the credits come from the whole one; the descriptor maximum is set in the Tx direction and kept in the other |
| `DcbRules.Check` | src/ixgbe_dcb.c:277-354 | accepts a direction exactly when the coded rules hold of the 8-bit sums |
| `DcbRules.RulesAgree` | src/ixgbe_dcb.c:277-354 | when the true sums fit in 8 bits those are the rules themselves |
| `DcbRules.RulesIff` | src/ixgbe_dcb.c:277-354 | a direction obeys the rules if and only if it is accepted and the true sums fit in 8 bits |
| `DcbRules.SumsWrap` | src/ixgbe_dcb.c:311-345 | otherwise not: eight classes are accepted of which a group adds up to 356 percent, and the link percentages with it |
| `DcbRules.CheckConfig` | src/ixgbe_dcb.c:277-354 | accepts exactly when both directions pass |
| `DcbRules.Conserved` | src/ixgbe_dcb.c:109-120 | the link percentages of an accepted configuration whose sums fit in 8 bits add up to at most 100 before rounding up and at most 100 plus the number rounded up after |
| `DcbRegs.PackUnpack` | src/ixgbe_dcb_82599.c:118-241 | with refill, group and maximum in range every field of the packed arbiter registers can be read back |
| `DcbMaps.GetTcFromUp` | src/ixgbe_dcb.c:231-252 | the downward search returns the highest class other than 0 that takes the priority, else 0 |
| `DcbMaps.UnpackMap` | src/ixgbe_dcb.c:254-261 | the map does so for every priority |
| `DcbMaps.RoundTrip` | src/ixgbe_common.c:4935-4944 | a map of classes below 8 packed into the register is read back unchanged |
| `DcbMaps.WriteMap` | src/ixgbe_dcb_82599.c:111-115 | the loop packs the map |
| `DcbMaps.ReadMap` | src/ixgbe_common.c:4935-4944 | the loop unpacks it |
| `DcbMaps.MapThroughHardware` | src/ixgbe_dcb_82599.c:111-115 | the map built from the class bitmaps, written and read back is unchanged |
| `DcbMaps.UnpackPfc` | src/ixgbe_dcb.c:177-190 | bit p is set exactly when the class of priority p has PFC enabled |
| `DcbMaps.ThresholdIff` | src/ixgbe_dcb_82599.c:289-328 | the low-threshold register of a class is non-zero if and only if its PFC is enabled and some priority maps to it |
| `DcbMaps.ThresholdsRead` | src/ixgbe_dcb_82599.c:289-328 | the registers read back: enable bit and water marks of a class with PFC, 24 KB below the buffer size for another class in use, nothing for the rest |
| `DcbMaps.ConfigThresholds` | src/ixgbe_dcb_82599.c:289-328 | the loops write those thresholds for all eight classes: with PFC the water marks, without it the buffer size less 24 KB up to the highest class in use, and 0 above |

## Left out

- Link, PHY, SFP, thermal, LED and reset sequences, `src/ixgbe_api.c`, devlink, debugfs, firmware update and
  netlink code: dispatch, polling and kernel plumbing with little to prove.
- Timeouts: mailbox and semaphore waits last until they succeed; the forced release after a timeout is not
  modelled.
- Legacy mailbox operations, 82598 variants and the FCoE extra rings in `src/ixgbe_lib.c`: the same ideas with
  more cases.
- MailboxDown.MessagesHeard: stated for PF messages that carry CTS; `MailboxLost.DeliveredIff` shows that
  nothing less will do, and `MailboxLost.NoneTwice` says what is left without it.
- MailboxDown.NextKeeps: likewise.
- MailboxUp.MessagesArrive: status bits raised outside the protocol (`Stray`) are excluded, since a stray
  acknowledgement ends a VF's wait; the status properties include them.
- MailboxUp.NextKeeps: one VF thread, one PF reader and one PF writer, which is what the lock needs by
  `MailboxWriters.SerialSafe` and `MailboxWriters.BothOwners`.
- MailboxWriters.SafeIff: only the lock of two writers against each other and the VF's bit; no PF reader.
- Mailbox and semaphore are modelled on values as machines, not as classes with loops, so that every
  interleaving is a run; the copy and countdown loops are the machine's repeated steps.
- Rar.AddRefines: addresses are the two register halves, not six bytes, and the address 0, which the driver
  never inserts, is excluded; other bits of RAH, which every write keeps, are not modelled.
- EepromDriver.Hw.WriteBufferGeneric: SPI bit framing, the ninth address bit of parts with 8-bit addresses and
  delays are left out; every refused attempt is reported as one error.  Each attempt to get the EEPROM uses up
  one entry of `grants`, and running out counts as a refusal, so a loop that never ends is one that no supply
  of grants gets through.
- EepromWrite.WriteIff: page sizes are powers of two up to 2^15 words.
- Checksum.Nvm.CalcChecksum: requires that the section loops end, as `Checksum.LoopEndsIff` describes, since a
  call that never returns has no result to state.
- Checksum.Nvm.ValidateChecksum: likewise.
- Checksum.Nvm.UpdateChecksum: likewise.
- QVectors.Adapter.AllocQVectors: interrupt moderation, NAPI and NUMA settings of a vector are left out.
- DdpList.BuildListFaithful: DMA addresses do not run past the address space; programming the list into the
  hardware context registers is left out.
- FdirHash.SigHash: the sixteen unrolled iterations are a loop; a little-endian host is assumed for the
  position of bkt_hash.
- RingMap.VmdqFits: the pool offset is at most 64 and limits are at least 1, as the driver sets them up.
- DcbCredits.CalculateCredits: the smallest credit is assumed to fit the 16-bit array it is stored in.
- DcbMaps.ThresholdsRead: water marks below 2^21 KB, which is what the register field holds, and packet buffers
  of at least 24 KB.
- DcbRegs.PackUnpack: only the value of each arbiter register; the enable and disable writes around the loops
  are left out.
