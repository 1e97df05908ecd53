# Proofs about the kernel's core

This project models the parts of a small 32-bit x86 kernel whose correctness does not show from
reading one function, and proves what they promise: packet buffers and the IPv4, ICMP and ARP code
above them, the scheduler with semaphores, bounded queues and fork, wait and exit, the linked
list, bitmap, page and heap allocators, page tables, and calendar arithmetic.

`dafny verify dfyconfig.toml` checks everything.

## How it is built

Code that changes state is a class or a method with loops, proved equal to a function on values or
to a property of the new state; what the system promises is then proved about those functions,
for all inputs and for all sequences of calls. Events that cannot happen in a state are skipped,
and so are the few calls in which the source itself goes wrong; "Left out" names those.

| files | contents |
|---|---|
| `Arith`, `Chunks`, `Lists` | arithmetic, byte chunks, lists without repetitions |
| `Pktbuf`, `PktCursor`, `PktSurvive`, `PktRun` | packet buffers as flat bytes, the cursor, when it survives a change of the chain, conservation over every sequence of calls |
| `Checksum`, `Icmp` | the Internet checksum, echo replies |
| `Ipv4`, `Reassembly`, `FragTable`, `Streams`, `Fragmentation`, `FragSend`, `FragRecv`, `FragBufs`, `NetIn`, `Datagrams` | headers, reassembly per source, the table of sources, several datagrams of a source, fragmentation, the sending and the receiving code, the table of buffers, the references on the input path, the way from sender to receiver |
| `Arp`, `Ether` | the address cache, and its one user |
| `Segment`, `Fixq`, `FixqParts` | the counting semaphore; every interleaving on a bounded queue (`FixqRun`) and its code; the ring access interrupted anywhere |
| `Links`, `RunLists` | the doubly linked list at the level of its pointers, and the two run lists that share their nodes |
| `Scheduler`, `Kernel`, `KernelRuns`, `Orphans`, `KernelMiss`, `KernelSleep`, `KernelTurns`, `KernelCode` | scheduling, the step system of system calls, how runs are written out, orphans that init is not told about, a run that reaches one, the length of a sleep, when a ready thread runs, the code |
| `Bitmap`, `Malloc`, `Paging` | allocators and page tables |
| `Calendar` | dates and times |

## What the code does not do as promised

Each of these is a theorem; most give the exact condition under which the code does what is meant.

- A send or receive on a bounded queue that must not wait can wait (`FixqRun.NonBlockingSendWaitsIff`,
  `FixqRun.NonBlockingRecvWaitsIff`, with the runs `FixqRun.NonBlockingSendCanWait` and
  `FixqRun.NonBlockingRecvCanWait`), and its count goes wrong when two updates of it overlap
  (`FixqParts.ExactIff`, `FixqParts.CountLost`).
- init can stay blocked beside a hanging child that it inherited (`Orphans.MissedSince`).
- Reassembly mixes datagrams of one source (`Reassembly.MixesDatagrams`, `Streams.LateRepeatMixes`),
  exactly under the condition of `Streams.HandsUpItsOwnIff`, and never completes one of more than
  ten fragments (`Reassembly.TooManyFragments`).
- Fragmentation makes no progress for an MTU from 20 to 27 (`Fragmentation.ProgressIff`).
- A failed request for a header that need not be contiguous still lengthens the packet
  (`Pktbuf.PktPool.AddHeader`), and a joined source that is still referenced keeps a wrong size
  (`Pktbuf.PktPool.Join`).
- A sleep is measured in calls of `schedule`, whoever makes them, and not in ticks; one of 0 ticks
  lasts 2^32 calls (`KernelSleep.TicksSlept`, `KernelSleep.WokenByCall`).
- A cursor does not survive most changes of the chain. `PktSurvive.AddHeader`, `RemoveHeader`,
  `Resize`, `SetCont` and `Join` there give the exact condition for each call, on the state before
  it, and `PktSurvive.ShrinkUnderCursor` an input.
- Removing a list node twice can unlink another one (`Links.RemoveStaleIff`).
- While an address is being resolved only its first packet waits; every other one goes out at once
  with a hardware address that was never set (`Ether.OutcomeIff`, `Ether.SecondPacketLost`). So the
  order in which `arp.c`, taken alone, sends what waits, newest first (`Arp.SendsNewestFirst`), has no
  effect. A new address can evict the one before it (`Arp.EvictsIff`).
- A received buffer is freed twice (`NetIn.NetifIn`, `NetIn.OtherHost`).
- A ready thread can starve (`KernelTurns.TurnIff`, `KernelTurns.Starves`).
- `vfree` gives large blocks to `munmap` (`Malloc.MallocState.FreeNow`, `Malloc.LargeVfree`).
- `malloc` of the last sizes below 2^32 returns a block of one page or none (`Malloc.PagesAskedIff`).
- `bitmap_scan` counts one bit too many (`Bitmap.GuardNeeded`), `vaddr2paddr` drops two offset bits
  (`Paging.PhyAddrIff`), and `mkdatetime` knows no centuries (`Calendar.GregorianIff`).

## Assumptions

- A system call runs with interrupts off, so it is one step up to its `schedule()`; `switch_to` is
  the change of the current thread. The idle thread only halts, so it makes no call, and init
  never exits. At most ten sleepers wake at once, and a fork finds a free pid.
- In `FixqRun` the access to the ring is one step. The source does not protect it (fixq.c:35-39 and
  56-60): a thread can be interrupted inside it, by the interrupt handler of the network card for
  one. `FixqParts` takes it apart under the assumption that remains: one thread at a time is inside
  the access on each side. Without it a message is lost (`FixqParts.SendersOverlap`,
  `FixqParts.ReceiversOverlap`).
- The memory of the kernel is a multiple of 4 MB; otherwise `create_big_mem_map` rounds up
  (paging.c:285) and booting sets a directory entry of user space.
- `frag_alloc`, which has no return statement, returns its entry. `segment_wakeup` is called with a
  NULL pid and its store through that pointer is ignored.
- Blocks of packet buffers are values with an identity in a sequence instead of linked objects, and
  `all_tasks` is a sequence; the linked lists themselves are the subject of `Links`.
- The bit behind a bitmap can be read, and the allocator built on it has that bit set. Page and
  heap allocation from the layer below succeeds and returns pages that are not in use; page
  addresses are aligned.
- The layer below IP is a counter of the frames it still accepts; whether an ARP send succeeds is a
  parameter.
- 32-bit and 16-bit wrap-around is written out where it can occur (checksum accumulator, length
  fields, sleep counter, `mktime64`); elsewhere sizes are below the limits stated in the contracts.

## Model

| member | source | states |
|---|---|---|
| Pktbuf.PktPool.AllocList | kernel/net/pktbuf.c:118-169 | A chain for `size` bytes is allocated if and only if the pool has enough blocks; it uses exactly that many, each filled from the front (or from the end for a header), and a failure loses no block |
| Pktbuf.PktPool.InsertLast | kernel/net/pktbuf.c:174-204 | Appending a chain concatenates the flat bytes and the blocks |
| Pktbuf.PktPool.InsertFirst | kernel/net/pktbuf.c:174-204 | Prepending a chain block by block puts its bytes, in order, before the old ones |
| Pktbuf.PktPool.Alloc | kernel/net/pktbuf.c:218-247 | Succeeds if and only if a buffer and enough blocks are free; the result holds `size` bytes, one reference and a cursor at 0; after a failure no block is missing |
| Pktbuf.PktPool.Free | kernel/net/pktbuf.c:87-92 | The last reference gives all blocks and the buffer back, any other one changes only the count |
| Pktbuf.PktPool.AddHeader | kernel/net/pktbuf.c:252-294 | Prepends exactly `size` bytes and keeps all old ones, with the exact condition for success; a failed request that is not contiguous leaves the slack of the first block in the packet |
| Pktbuf.PktPool.RemoveHeader | kernel/net/pktbuf.c:299-325 | Drops exactly the first `size` bytes whatever blocks they lie in, and conserves the blocks |
| Pktbuf.PktPool.Grow | kernel/net/pktbuf.c:330-406 | Growing keeps the old bytes as a prefix, uses tail slack before new blocks, and fails exactly when the blocks do not suffice, changing nothing |
| Pktbuf.PktPool.Shrink | kernel/net/pktbuf.c:330-406 | Shrinking keeps exactly the prefix and frees the blocks behind it; a shrink to 0 is the one case that leaves an empty block in the chain |
| Pktbuf.PktPool.Resize | kernel/net/pktbuf.c:330-406 | Keeps the common prefix, and the chain is untouched on failure |
| Pktbuf.PktPool.Join | kernel/net/pktbuf.c:412-427 | Concatenates the bytes and moves every block; a source that is still referenced afterwards is consistent if and only if it was empty |
| Pktbuf.PktPool.SetCont | kernel/net/pktbuf.c:433-491 | Changes no byte, puts the first `size` bytes into one block, fails exactly if they do not fit a block or the packet |
| Pktbuf.PktPool.Gather | kernel/net/pktbuf.c:464-488 | The copying loop of the same function: the first block ends with exactly `size` bytes, emptied blocks go back |
| PktCursor.MoveForward | kernel/net/pktbuf.c:508-525 | The cursor moves by `n` bytes and position, block and offset keep agreeing |
| PktCursor.Seek | kernel/net/pktbuf.c:598-635 | Reaches exactly the asked position, forwards from where it is and backwards from the start; otherwise an error and no change |
| PktCursor.Write | kernel/net/pktbuf.c:530-557 | Overwrites exactly bytes[pos..pos+size] across blocks; the error cases change nothing |
| PktCursor.Read | kernel/net/pktbuf.c:566-593 | Returns exactly bytes[pos..pos+size] and advances |
| PktCursor.Fill | kernel/net/pktbuf.c:672-698 | Overwrites exactly the bytes from the position on with one value |
| PktCursor.Copy | kernel/net/pktbuf.c:642-666 | Moves the bytes between two buffers that are divided into blocks differently; the loop terminates even over empty blocks |
| PktRun.Run | kernel/net/pktbuf.c:64-698 | Block conservation over every sequence of calls, structural ones and stores, each of which does to its buffer what it is meant to: each pool block is on the free list or in one chain, once, allocation failures, joins, last-reference frees and buffers handed out again included; and every buffer of the pool is live or free, and not both |
| PktRun.OnePlace | kernel/net/pktbuf.c:64-247 | What conservation means for a block: never free and in a chain, never in two chains |
| PktRun.LiveOrFree | kernel/net/pktbuf.c:87-92 | What it means for a buffer: each one of the pool is live or free, and not both |
| PktRun.Moved | kernel/net/mblock.c:26-56 | Moving blocks between the free list and one chain keeps every block in one place |
| Checksum.Checksum16 | kernel/net/pktbuf.c:700-728 | One area, starting at an even or odd byte of the summed data, adds exactly the byte sum of its position to the accumulator, with 32-bit wrap-around written out |
| Checksum.FoldCarries | kernel/net/pktbuf.c:720-725 | The folding loop terminates and gives the one's-complement value |
| Checksum.AccumulatorExactIffNoWrap | kernel/net/pktbuf.c:700-728 | The result is the one's-complement sum if and only if the 32-bit accumulator does not wrap |
| Checksum.ByteSumAppend | kernel/net/pktbuf.c:736-761 | A sum taken in two areas, with the parity of the boundary carried over, is the sum of the whole |
| Checksum.WordSumIsByteSum | kernel/net/pktbuf.c:700-728 | The sum by 16-bit words, odd tail included, is the sum by bytes |
| Checksum.StoredChecksumCloses | kernel/net/pktbuf.c:700-761 | A message that received the checksum computed over it with a zero field sums to 0xffff (section 1 of RFC 1071) |
| PktCursor.ChecksumArea | kernel/net/pktbuf.c:736-761 | Over any division into blocks, odd-sized ones included, the result is the checksum of the flat bytes in one pass (section 2(A) of RFC 1071) if and only if the first block does not make the 32-bit accumulator wrap, which a 16-bit initial sum never does |
| PktSurvive.AddHeader | kernel/net/pktbuf.c:252-294 | The cursor (pos, blk_offset and the block that curr_blk points to, wherever it now stands) is right afterwards if and only if no byte was asked for, or the request fails and takes no slack either |
| PktSurvive.RemoveHeader | kernel/net/pktbuf.c:299-325 | The cursor is right afterwards if and only if no byte was removed; it stands `size` bytes too far if and only if it was behind the bytes removed, and in a freed block or before the data otherwise |
| PktSurvive.Resize | kernel/net/pktbuf.c:330-406 | A cursor with a current block survives all growth, and a shrinking call if and only if it stood in front of the cut or at the start of a first block that is left empty; one at the end survives if and only if the size does not change |
| PktSurvive.SetCont | kernel/net/pktbuf.c:433-491 | The cursor survives if and only if nothing is moved, or it stood at the end, or in a first block without slack in front, or in a later block behind the bytes gathered |
| PktSurvive.Join | kernel/net/pktbuf.c:412-427 | The cursor of the destination survives if and only if it has a current block or the source holds no byte; that of the source if and only if it stood at the end of no byte |
| PktSurvive.RaisedKeepsIff | kernel/net/pktbuf.c:252-294 | The same for the chains alone: slack taken into use and blocks put in front |
| PktSurvive.CutKeepsIff | kernel/net/pktbuf.c:299-325 | The first n bytes gone: the block and offset of the cursor denote position q if and only if it stood behind them and q is its old position less n |
| PktSurvive.ExtendedKeepsIff | kernel/net/pktbuf.c:336-367 | Tail slack taken into use and blocks added behind |
| PktSurvive.BackCutKeepsIff | kernel/net/pktbuf.c:368-403 | The end of a chain cut off, inside a block or between two |
| PktSurvive.PulledKeepsIff | kernel/net/pktbuf.c:451-488 | The first block slid to the front of its payload and filled from the others |
| PktSurvive.ShrinkUnderCursor | kernel/net/pktbuf.c:368-403 | Ten bytes, cursor at the eighth, resized to five: the block of the cursor is kept and the cursor is wrong |
| Icmp.EchoReplyChecks | kernel/net/icmp.c:39-78 | Every reply passes the check applied to the request and differs from it in type and checksum only |
| Icmp.IcmpIn | kernel/net/icmp.c:28-78 | On the real buffer: an echo request with a correct checksum becomes exactly its reply, every other packet keeps its bytes |
| Ipv4.FieldsHost | kernel/net/ip.c:246-250 | Reading a stored header gives its fields back |
| Ipv4.HtonsWire | kernel/net/ip.c:246-250 | The receiver's byte swap undoes the sender's |
| FragBufs.InsertBuf | kernel/net/ip.c:147-171 | The loop over the buffers puts the new one where the recursive specification says, or reports a fragment that is there already |
| FragBufs.ArrivedBufs | kernel/net/ip.c:173-187 | The loop over the headers decides the specification of completeness |
| Reassembly.ReassemblySound | kernel/net/ip.c:128-219 | For arbitrary well-formed fragments: when all have arrived, the joined data holds each fragment exactly at its offset, with no gap and no overlap |
| Reassembly.InsertPick | kernel/net/ip.c:147-171 | Whatever subset of a datagram's fragments is present, insertion keeps the list in datagram order or reports a repetition |
| Reassembly.ArrivedPick | kernel/net/ip.c:173-187 | All fragments count as arrived if and only if none is missing |
| Reassembly.EndExactIff | kernel/net/ip.c:137-145 | The 16-bit end of a fragment is exact if and only if it is below 65536 |
| Reassembly.RoundTrip | kernel/net/ip.c:147-244 | For deliveries in any order with any repetition the datagram is handed up at exactly the deliveries that complete it |
| Reassembly.HandedUpWithLastMissing | kernel/net/ip.c:221-244 | Nothing before the last missing fragment, everything with it |
| Reassembly.TooManyFragments | kernel/net/ip.c:147-171 | A datagram of more than ten fragments is never handed up, whatever is delivered |
| Reassembly.MixesDatagrams | kernel/net/ip.c:81-92 | The identification is ignored: halves of two datagrams of one source make a third one |
| FragTable.FragInOk | kernel/net/ip.c:94-126 | Over every arrival: one entry per source, and entries used and free make ten |
| FragTable.SourcesIndependent | kernel/net/ip.c:81-244 | With at most ten sources, each one is handed up exactly what it would be if it were alone |
| FragTable.LostIff | kernel/net/ip.c:94-126 | With more sources: a source loses its fragments to another one if and only if the table is full, the other one is new, and its entry is the last |
| FragTable.LeastRecentlyUsed | kernel/net/ip.c:81-120 | Over every sequence of arrivals the entries stand in the order of last use, so that is the source not heard of for longest |
| FragRecv.Ipv4In | kernel/net/ip.c:252-279 | On the real buffer: the header comes into one block, its fields are swapped, and the padding is cut off, so that the buffer holds exactly the packet received |
| FragRecv.JoinBufs | kernel/net/ip.c:189-219 | On the real buffers: the first one ends with its header followed by the data of all fragments, the others are empty |
| FragBufs.FreeAll | kernel/net/ip.c:94-100 | Every buffer of the list loses exactly one reference |
| FragBufs.BufTable.Open | kernel/net/ip.c:81-120 | The entry of the source comes first, opened in a free slot or in that of the last entry, whose buffers lose one reference each |
| FragBufs.BufTable.Complete | kernel/net/ip.c:189-219 | The first buffer of a complete list goes up with the whole datagram, the others lose one reference each |
| FragBufs.BufTable.Receive | kernel/net/ip.c:221-244 | On a table of real buffers: ipv4_frag_in takes exactly the step of the specification and hands up a buffer with exactly the joined bytes; each buffer ever received waits in the table, or was handed up, refused or given back, once, and lost its reference exactly when given back |
| FragBufs.BufTable.FrameIn | kernel/net/ip.c:252-279 | From the bytes that the link delivers: ipv4_in and ipv4_frag_in together take that step for the packet received |
| NetIn.FragmentIn | kernel/net/ip.c:221-244 | ipv4_frag_in to its end: a datagram that the upper layer refuses is freed and its error returned, and how many references the buffer received has lost by then |
| NetIn.PacketIn | kernel/net/ip.c:252-279 | ipv4_in: what it returns, that only fragments for this host reach the table, and the references lost by then |
| NetIn.NetifIn | kernel/net/exmsg.c:98-118 | The whole input path: the buffer received loses two references if and only if the frame is not for this host, or completes a datagram that the upper layer refuses, at most one otherwise, and no waiting buffer loses more than one |
| NetIn.OtherHost | kernel/net/exmsg.c:98-118 | With every frame for another host a count of one ends at -1 |
| Fragmentation.ProgressIff | kernel/net/ip.c:281-301 | The sending loop makes progress for every length if and only if the MTU is below 20 or at least 28 |
| Fragmentation.FragmentsContiguous | kernel/net/ip.c:281-368 | The fragments follow each other without gap, carry the payload, and only the last has no more flag |
| Fragmentation.FragmentRoundTrip | kernel/net/ip.c:281-368 | The round trip: every payload below 65536 bytes and every MTU from 28 on that gives at most ten fragments comes back whole, precisely with the last missing fragment, behind 20 bytes that carry the identification, lifetime, protocol and addresses of the sender |
| Fragmentation.FragmentCount | kernel/net/ip.c:281-301 | How many fragments a payload makes, as an equivalence |
| Fragmentation.ReceivedFrame | kernel/net/ip.c:252-279 | What is sent is what is received, whatever padding the link adds |
| Fragmentation.HeaderChecks | kernel/net/ip.c:345-350 | The header of every fragment passes the checksum test of RFC 791 |
| Fragmentation.LengthFieldExactIff | kernel/net/ip.c:303-315 | The 16-bit length field is exact for every fragment if and only if the MTU fits 16 bits |
| FragSend.FragOut | kernel/net/ip.c:281-368 | On the real buffers: success sends exactly the fragments in order, a failure a prefix of them. Read as bytes, the frames carry the whole payload, each within the MTU and all but the last filled up to a multiple of eight; every header says version 4, its length, the identification, its offset and whether more follow, lifetime 64, the protocol and the addresses of source and destination, and its checksum closes |
| FragSend.FramesCarry | kernel/net/ip.c:281-368 | The same for the frames as values |
| Streams.ListIsGathered | kernel/net/ip.c:147-244 | For arbitrary packets of a source, its list always holds exactly the packets accepted since it was last empty |
| Streams.OneIdIff | kernel/net/ip.c:81-244 | A datagram that is handed up carries one identification if and only if all packets accepted since the list was last empty do |
| Streams.HandsUpItsOwnIff | kernel/net/ip.c:81-244 | For fragments of any datagrams in any order: what is handed up is the datagram of the last fragment, whole and alone, if and only if all fragments accepted since the list was last empty carry its identification |
| Streams.InOrder | kernel/net/ip.c:147-244 | Datagrams that arrive one after the other, each complete before the next and without a late repetition, are all handed up, in order |
| Streams.LateRepeatMixes | kernel/net/ip.c:147-244 | One late repetition makes the next datagram begin with data of the one before |
| Datagrams.StreamComesThrough | kernel/net/ip.c:221-368 | The same among the traffic of up to nine other sources |
| Datagrams.ComesThrough | kernel/net/ip.c:221-368 | Sender to receiver: while at most ten sources send fragments, whatever the others send in between, a fragmented payload is handed up whole, precisely with its last missing fragment, behind a header with the values that the sender gave it |
| Arp.RunInv | kernel/net/arp.c:34-190 | Over every run of resolves and receptions, failing sends included: one entry per address, cached and free entries make 50, no queue exceeds 51, every queued packet waits or was sent once or freed once |
| Arp.InsertCleanIff | kernel/net/arp.c:138-190 | A resolved entry keeps packets if and only if a send fails that is not the last one |
| Arp.RunClean | kernel/net/arp.c:138-281 | While all sends succeed, no resolved entry holds packets |
| Arp.QueueNewestFirst | kernel/net/arp.c:138-281 | Over every run, with other addresses asked for, learned and evicted in between: the packets that wait for an address are exactly those queued for it since its entry was opened, newest first |
| Arp.SendsNewestFirst | kernel/net/arp.c:138-190 | So, whatever the calls of arp_resolve were, an answer sends them last come, first served, up to the first send that fails (of arp.c alone: Ether.OneWaits says that its one caller never queues two) |
| Ether.EtherOut | kernel/net/ether.c:169-183 | The code takes exactly the step: to itself, to the address that arp_find returns whatever the state of the entry, or to arp_resolve |
| Ether.OneWaits | kernel/net/ether.c:169-183 | Over every run of ether_out and receptions, failing sends included: an entry that waits holds exactly one packet and a resolved one none |
| Ether.OutcomeIff | kernel/net/ether.c:169-183 | Over every run: a packet goes out with an unset hardware address if and only if its address has a waiting entry at the call, with the known one if and only if the address is known, and waits if and only if there is no entry |
| Ether.SentToIff | kernel/net/ether.c:169-183 | Over every run: a packet goes to hardware address h if and only if its address is resolved and h is the one in the last reception for it that was accepted |
| Ether.OutOrder | kernel/net/ether.c:169-183 | A packet for the host itself goes to its own hardware address; any other one makes its address the last used or, if it is new, the next to be evicted |
| Ether.SecondPacketLost | kernel/net/ether.c:169-183 | The second packet for any new address does |
| Ether.AnswerSends | kernel/net/arp.c:138-190 | Whatever the run was, an answer sends exactly the one packet that waited, or frees it if the send fails |
| Arp.FromInit | kernel/net/arp.c:28-281 | All of this from the empty cache on |
| Arp.EvictsIff | kernel/net/arp.c:57-73 | Resolving takes a waiting entry and its packets out if and only if the address is unknown, no entry is free and that entry is the last one |
| Arp.ResolveOrder | kernel/net/arp.c:34-73 | Where every address stands in the cache after arp_resolve, and which one goes |
| Arp.InsertOrder | kernel/net/arp.c:168-190 | The same after cache_insert |
| Arp.ResolveOutcome | kernel/net/arp.c:261-281 | A packet is refused if and only if 51 wait for its address, and sent at once if and only if the address is known |
| Arp.ResolveDrops | kernel/net/arp.c:50-73 | Exactly the packets of that entry are freed |
| Arp.NextOneEvicts | kernel/net/arp.c:261-281 | So with a full cache the packet of one new address is freed unsent when a second one is resolved |
| Arp.ArpCache.CacheInsert | kernel/net/arp.c:168-190 | The code takes exactly the step of the specification |
| Arp.ArpCache.ArpResolve | kernel/net/arp.c:261-281 | The code takes exactly the step of the specification, with its outcome |
| FixqRun.StepInv | kernel/net/fixq.c:26-64 | Every step of every sender and receiver keeps the accounting of units, the ring contents and the waiter queues |
| FixqRun.QueueSafe | kernel/net/fixq.c:11-64 | Over every interleaving: units in both semaphores plus operations in flight equal the size, no unread slot is overwritten, no empty one is read, messages come out in order, none lost or doubled |
| FixqRun.RefusedIff | kernel/net/fixq.c:26-50 | Over every run: a send that must not wait is refused, and changes nothing, if and only if the queue holds as many messages as it has slots, a receive if and only if every message stored was fetched; every other call goes on |
| FixqRun.OwnMessage | kernel/net/fixq.c:26-64 | Over every run: what a thread stores is the message that it called fixq_send with, what it fetches is the oldest one in the queue, and that is what fixq_recv returns to it |
| FixqRun.NoLostWakeup | kernel/net/fixq.c:26-64 | With no operation in flight, a sender waits only for a full queue and a receiver only for an empty one |
| FixqRun.NonBlockingSendWaitsIff | kernel/net/fixq.c:26-43 | A send that is not to wait and has passed its test, whatever other threads do in between, waits if and only if operations in flight then claim all free slots |
| FixqRun.NonBlockingRecvWaitsIff | kernel/net/fixq.c:48-64 | The same for a receive and the items |
| FixqRun.NonBlockingSendCanWait | kernel/net/fixq.c:26-43 | A run in which it does, on an empty queue |
| FixqRun.NonBlockingRecvCanWait | kernel/net/fixq.c:48-64 | And one for a receive, with a message in the queue |
| FixqParts.PartsSafe | kernel/net/fixq.c:34-39 | With the ring access taken apart into slot and index, in either order, and load and store of cnt, and the two sides interleaved in any way: messages are fetched in the order of storing, no slot is overwritten or read too early, and no unit is lost |
| FixqParts.StepInv | kernel/net/fixq.c:26-64 | Every part keeps that accounting |
| FixqParts.OwnMessage | kernel/net/fixq.c:26-64 | Through all parts a sender keeps its message and stores it once, and a receiver fetches the oldest one and keeps it |
| FixqParts.ExactIff | kernel/net/fixq.c:35-60 | cnt stays exact through a run if and only if no two updates of it overlap |
| FixqParts.ExactFromInit | kernel/net/fixq.c:11-64 | From fixq_init on |
| FixqParts.SendersOverlap | kernel/net/fixq.c:35-38 | Two senders that write the slot before either moves the index, on any queue: both messages are in the ring if and only if the slot that nobody wrote happened to hold the lost one |
| FixqParts.ReceiversOverlap | kernel/net/fixq.c:56-59 | Two receivers that read the slot before either moves the index, on any queue: what they fetched is what was stored if and only if the next two messages are equal |
| FixqParts.CountLost | kernel/net/fixq.c:35-60 | A run after which a message is in the queue and cnt is 0 |
| Fixq.FixQueue.Perform | kernel/net/fixq.c:11-64 | The code takes exactly these steps |
| Segment.SegmentHistory | kernel/thread/schedule/segment.c:12-64 | Over every sequence of calls: waiters leave in arrival order, and initial units plus wakeups equal completed waits plus the count |
| Kernel.SemaphoreHistory | kernel/thread/schedule/segment.c:12-64 | The same for each semaphore over every run of the kernel |
| Kernel.SemaphoresSafe | kernel/thread/schedule/segment.c:12-64 | Over every run: a positive count means no waiters, the waiters are exactly the blocked threads, each at one semaphore and there once |
| Scheduler.ScheduleInv | kernel/thread/thread.c:126-174 | schedule restores the invariant of the run lists whatever made its caller give up the processor |
| Scheduler.ScheduleFrame | kernel/thread/thread.c:126-174 | schedule only moves threads between running, ready and asleep |
| Scheduler.GiveUp | kernel/thread/thread.c:253-296 | The running thread can leave with any status: it is in no list and its links are unset, so the removal is harmless |
| Scheduler.WakersLast | kernel/thread/thread.c:126-148 | A sleeper that was put last is woken last, so one that sleeps a single tick goes on first |
| KernelSleep.SleepsThrough | kernel/thread/thread.c:126-148 | Over every run: a thread that sleeps with n is asleep while fewer than n calls of schedule have been made, its own being the first (2^32 for n = 0) |
| KernelSleep.WokenByCall | kernel/thread/thread.c:126-148 | Exactly the n-th call makes it ready |
| KernelSleep.OwnCall | kernel/thread/thread.c:290-296 | The call itself counts as the first; with n = 1 the caller keeps the processor, READY and with a full time slice |
| KernelSleep.ShortTurn | kernel/thread/thread.c:144-174 | And so the next tick takes the processor away from it and gives it to the first ready thread, although its slice is full |
| KernelSleep.TicksSlept | kernel/thread/thread.c:253-296 | Timer ticks and other calls of schedule since its own add up to n - 1 when it wakes: it never sleeps n ticks for n > 0, and n - 1 if and only if nothing but the timer called schedule |
| KernelSleep.AwakeWithoutATick | kernel/thread/thread.c:253-296 | A run in which a sleep of two ticks ends without a tick |
| KernelTurns.TurnStep | kernel/thread/thread.c:126-174 | One step moves a ready thread back by the threads put in front of ready_tasks and forward by the one taken, and it gets the processor exactly if that leads past the front |
| KernelTurns.TurnIff | kernel/thread/thread.c:126-309 | Over every run: a thread at place i of ready_tasks gets the processor if and only if at some point more threads have been taken than i and those put in front since, by waking or by segment_wakeup |
| KernelTurns.Starves | kernel/thread/schedule/segment.c:43-64 | From boot, for any number of ticks: two threads that wake each other through semaphores keep the processor, and a third one that is ready all the time never gets it |
| Kernel.SchedulerSafe | kernel/thread/thread.c:126-309 | Over every run: no list holds a thread twice, no thread is in two lists, the running one is in none, ready ones are runnable, sleepers are exactly the sleeping ones, links are set exactly in a list |
| KernelCode.RunKernel | kernel/thread/thread.c:126-309 | Over every run, on the pointers: both run lists are linked in both directions, their sizes match the links, and they hold exactly what the specification says |
| RunLists.RunLists.PushReady | common/lib/list.c:13-40 | Pushing a task that is in no list keeps both lists linked |
| RunLists.RunLists.PopReady | common/lib/list.c:21-32 | Popping clears the links of the first task and keeps both lists linked |
| RunLists.RunLists.RemoveReady | common/lib/list.c:89-98 | Removing a task that is ready or has cleared links, as the kernel always does, keeps both lists linked |
| KernelCode.Machine.ScheduleNow | kernel/thread/thread.c:126-174 | On linked lists: schedule with its two loops and its array of ten computes exactly the specification, as long as at most ten sleepers wake |
| KernelCode.Machine.CountDown | kernel/thread/thread.c:130-136 | The counting loop decrements every sleeper once, with the wrap of an unsigned 0, and collects the wakers in order |
| KernelCode.Machine.WakeUp | kernel/thread/thread.c:137-143 | The waking loop moves them to the front of the ready list and unlinks them |
| KernelCode.Machine.SetThreadStatus | kernel/thread/thread.c:253-273 | Changes status and linked lists exactly as specified |
| KernelCode.Machine.ThreadExit | kernel/thread/thread.c:364-379 | Both removals find cleared links; the task, its place in the list of all tasks and its pid are gone |
| KernelCode.Machine.Perform | kernel/thread/process.c:186-283 | Every event: the code takes exactly the step of the specification and keeps the lists linked |
| KernelCode.Machine.SegmentWait | kernel/thread/schedule/segment.c:12-31 | Takes exactly the step of the specification |
| KernelCode.Machine.SegmentWakeup | kernel/thread/schedule/segment.c:43-64 | Takes exactly the step of the specification |
| Kernel.ProcessesSafe | kernel/thread/process.c:186-283 | Over every run: a process blocked in wait has a child, and none that hangs unless it is init; every parent is there and has not exited; pids are distinct and taken exactly while their process is there; each process is reaped at most once, and exactly the reaped ones are gone |
| Kernel.ReapsFirst | kernel/thread/process.c:197-222 | If a child hangs, process_wait reaps the one that stands first in all_tasks |
| Kernel.WaitsIff | kernel/thread/process.c:197-222 | Otherwise it waits if and only if there is a child |
| Kernel.CreationOrder | kernel/thread/thread.c:100-108 | Over every run, all_tasks is in the order of creation |
| Orphans.MissedIff | kernel/thread/process.c:250-283 | After an exit, init waits beside a hanging child if and only if it waits, the exiting process is not its child, and init or the exiting process had a hanging child |
| Orphans.OnlyExit | kernel/thread/process.c:186-248 | No other call and no tick changes whether init waits beside a hanging child |
| Orphans.MissedSince | kernel/thread/process.c:186-283 | Over every run: init waits beside a hanging child if and only if some exit handed it one while it waited and no child of init has exited since |
| KernelMiss.InitMissesAnOrphan | kernel/thread/process.c:250-283 | A run from boot in which it happens |
| Kernel.StepInv | kernel/thread/process.c:186-283 | Every system call and every tick keeps the invariants of scheduler, semaphores and process tree |
| Kernel.FreePid | kernel/thread/thread.c:50-57 | The lowest free pid below 1024, or none |
| KernelCode.Machine.ProcessFork | kernel/thread/process.c:170-195 | Takes exactly the step of the specification |
| KernelCode.Machine.ProcessWait | kernel/thread/process.c:197-222 | One round of the loop takes exactly the step; it reaps if and only if a child hangs, and the pid it returns becomes free |
| KernelCode.Machine.ProcessExit | kernel/thread/process.c:259-283 | Takes exactly the step; the parent it looks up exists |
| KernelCode.Machine.RechildAll | kernel/thread/process.c:250-257 | The loop gives exactly the children in the list of all tasks to init |
| Links.List.PushL | common/lib/list.c:13-19 | Prepends to the contents, with all links and the size right, and disturbs no list of other nodes |
| Links.List.PushR | common/lib/list.c:34-40 | Appends, with the same guarantees |
| Links.List.PopL | common/lib/list.c:21-32 | Removes the first node and clears its links, or returns NULL for an empty list |
| Links.List.Index | common/lib/list.c:111-120 | The first position, or -1 if and only if the node is not there |
| Links.List.Remove | common/lib/list.c:89-98 | The list is intact afterwards if and only if the node was in it, has a cleared link, or its links name neighbours |
| Links.RemoveStaleIff | common/lib/list.c:89-98 | Exactly when removing a node that is not in a list leaves that list alone |
| Links.RemoveTwiceLosesANode | common/lib/list.c:89-98 | A second removal of the same node that unlinks another one |
| Bitmap.BitmapScan | common/lib/bitmap.c:12-42 | The lowest run of cnt clear bits, or -1 if and only if there is none, counting the one bit behind the bitmap for cnt > 1; and what a scan for 0 bits answers |
| Bitmap.GuardNeeded | common/lib/bitmap.c:27-41 | The bit behind the bitmap does no harm if and only if it is set, the last cnt - 1 bits are not all clear, or a run exists without it |
| Bitmap.CountMemUsed | kernel/memory/paging.c:589-600 | The byte-skipping count is the plain count of set bits |
| Bitmap.WithBitIs | common/lib/bitmap.c:44-52 | Setting or clearing a bit changes that bit only |
| Bitmap.AddrAlloc.AllocMemUse | kernel/memory/paging.c:43-49 | Exactly the bits of the pages from the address on change |
| Bitmap.AddrAlloc.Alloc | kernel/memory/paging.c:66-74 | First fit: the lowest place is taken and nothing else changes; it fails if and only if there is no place; a request for no pages changes nothing |
| Bitmap.FreeRestores | kernel/memory/paging.c:51-74 | Giving back what was just allocated restores the bitmap |
| Bitmap.NeverOverlap | kernel/memory/paging.c:43-102 | Over every run of allocations and frees, live extents never overlap and the bitmap is exactly their union |
| Bitmap.AllocTakes | kernel/memory/paging.c:66-102 | A successful allocation is a step of such a run |
| Bitmap.FreeGivesBack | kernel/memory/paging.c:51-64 | And so is a free |
| Bitmap.StartOk | common/lib/bitmap.c:5 | A cleared bitmap is where a run begins |
| Malloc.BlockRoundTrip | glibc/memory/malloc/malloc.c:28-31 | block2arena undoes arena2block, and a block lies between the header and the end of its page |
| Malloc.HeapSafe | glibc/memory/malloc/malloc.c:91-158 | After every run: a small arena's free_cnt is the number of its blocks on the free list, each of its blocks is free or held but not both, and what callers hold does not overlap |
| Malloc.ReleaseInv | glibc/memory/malloc/malloc.c:149-157 | A page is given back only without live blocks, none of its blocks stays on the list, and the class keeps the blocks of at least one arena |
| Malloc.ReleasedIff | glibc/memory/malloc/malloc.c:135-158 | A page goes back if and only if it is large, or nothing else on it is held and its class then has the free blocks of two pages; a block goes to the end of its list |
| Malloc.NewPageIff | glibc/memory/malloc/malloc.c:91-132 | A page is asked for if and only if the block is large or its class has no free block; blocks are handed out oldest first |
| Malloc.UnlinksMembers | glibc/memory/malloc/malloc.c:151-155 | Every removal of the unlinking loop finds its block on the list, so that `remove` of list.c leaves the list intact |
| Malloc.PushesNew | glibc/memory/malloc/malloc.c:146 | What _free pushes is not on the list |
| Malloc.PagesAskedIff | glibc/memory/malloc/malloc.c:97-100 | A large block gets the pages it needs if and only if the 32-bit arithmetic does not wrap; otherwise it gets one page or none |
| Malloc.LiveInside | glibc/memory/malloc/malloc.c:91-132 | What a caller holds lies inside its arena's pages, behind the header |
| Malloc.LiveDisjoint | glibc/memory/malloc/malloc.c:91-132 | Two held blocks do not overlap |
| Malloc.ClassOf | glibc/memory/malloc/malloc.c:108-113 | The smallest size class that is large enough |
| Malloc.InitMallocDesc | glibc/memory/malloc/malloc.c:33-42 | Sizes 8 to 1024 and the blocks per arena of each class |
| Malloc.MallocState.MallocNow | glibc/memory/malloc/malloc.c:91-132 | Unless the size wraps, the code takes exactly the step: a fresh pointer to at least `size` bytes |
| Malloc.MallocState.FreeNow | glibc/memory/malloc/malloc.c:135-158 | The code takes exactly the step; pages go to a function other than the one given if and only if the block is large and that function is not munmap |
| Malloc.LargeVfree | glibc/memory/malloc/malloc.c:142-145 | Every large block of the kernel heap given to vfree goes to munmap |
| Paging.MapRangeEffect | kernel/memory/paging.c:247-266 | Page i of the range translates to frame i with the permissions asked for, both levels counted, and no other translation or permission changes, in this or any other directory; the call succeeds if and only if no page of the range was mapped, and otherwise stops at the first one; it takes exactly one frame per absent directory entry up to there |
| Paging.EntryBits | kernel/memory/paging.c:261 | Besides the present bit the low twelve bits of a page table entry are the permissions given |
| Paging.Isolated | kernel/memory/paging.c:225-386 | Over every run of user mappings and new address spaces, nothing changes for a directory that none of the mappings was for |
| Paging.KernelShared | kernel/main_test.c:68-118 | Over every run, all address spaces see the kernel part alike |
| Paging.SharedFromBoot | kernel/memory/paging.c:301-386 | From the state that booting leaves |
| Paging.WithDirEffect | kernel/memory/paging.c:373-386 | A new address space shares the kernel part, maps nothing else and touches no other one |
| Paging.PhyAddrIff | common/cpu/mmu.h:12-13 | The physical address of vaddr2paddr is right if and only if the offset in the page is below 1024 |
| Paging.Mmu.FindPteAlloc | kernel/memory/paging.c:225-244 | Finds or makes the table of a page |
| Paging.Mmu.CreateMemMap | kernel/memory/paging.c:247-266 | The loop computes exactly the specification |
| Paging.Mmu.CreateUvm | kernel/memory/paging.c:373-386 | The loop computes exactly the specification |
| Calendar.DivU64Rem | common/tool/math.h:62-84 | The 64-by-32 division is exact and its instruction never overflows |
| Calendar.MkTimeGregorianIff | common/tool/datetime.h:37-56 | mktime64 is right for a Gregorian date from 1970 on if and only if the days of its years fit 32 bits |
| Calendar.MkDateTime | common/tool/datetime.h:59-97 | mkdatetime finds the date with exactly this number of seconds in the calendar where every fourth year is a leap year; the month loop stays inside its table |
| Calendar.RoundTripIff | common/tool/datetime.h:37-97 | mktime64 after mkdatetime returns t if and only if t < 4107628800 |
| Calendar.RoundTripIs | common/tool/datetime.h:37-97 | What it returns otherwise: t less one day per century without a leap day |
| Calendar.RoundTripFails | common/tool/datetime.h:37-97 | The first t for which it fails |
| Calendar.GregorianIff | common/tool/datetime.h:59-97 | mkdatetime finds the Gregorian date if and only if t < 4107542400 |
| Calendar.DateUnique | common/tool/datetime.h:59-97 | A time has one date |

## Left out

- Pktbuf.PktPool.RemoveHeader: asks for a size that the packet has, because the source walks off the chain otherwise.
- PktCursor.ChecksumArea: asks that no empty block follows an odd number of bytes, because the source reads a byte of an empty area there.
- PktRun.Run: skips a header in front of a packet without blocks, the removal of more bytes than there are, and all calls but inc_ref, free and join on a buffer that was joined away while still referenced, until it is handed out again; stores go through a reset of the cursor.
- Checksum.Checksum16: asks for a byte in an area that starts at an odd offset, because the source reads one there.
- FixqRun.StepInv: takes the access to the ring as one step; FixqParts.StepInv has its parts, with one thread at a time inside the access on each side.
- FixqRun.QueueSafe: the same.
- FixqParts.PartsSafe: covers one thread at a time inside the access on each side; so do StepInv, ExactIff and ExactFromInit there.
- FragBufs.BufTable.Receive: ends at the hand-over; NetIn.FragmentIn has the rest.
- NetIn.NetifIn: takes the answer of the upper layer as a parameter, and the same frames as FrameIn or ones too short for a header; the Ethernet header is gone already.
- Ether.EtherOut: leaves out the request that arp_resolve sends and whether sends succeed.
- FragSend.FragOut: takes the source address that is to be sent; the choice of the interface's own one and the counting up of packet_id are not modelled.
- FragBufs.BufTable.FrameIn: covers frames whose length field is at least 20 and at most the bytes received; for shorter ones the source reads header bytes that it has cut off.
- PktSurvive.AddHeader: asks, as its neighbours do, that no block stands twice in the free list and the chain, which PktRun.Run keeps.
- PktCursor.Copy: takes two different buffers; one copied onto itself would move its one cursor twice per step.
- Icmp.IcmpIn: asks for a chain without empty blocks, because the source reads a byte of an empty area at an odd offset.
- Calendar.MkDateTime: covers times below 2^55 seconds, beyond which the year does not fit an int; negative times are not modelled.
- Calendar.RoundTripIff: covers the times that mkdatetime does.
- Paging.MapRangeEffect: covers ranges in user space; mappings in the kernel part change tables that all directories share.
- Paging.Mmu.CreateMemMap: the same.
- Paging.SharedFromBoot: asks that booting sets no directory entry of user space, which holds for kernel memory in multiples of 4 MB.
- Malloc.MallocState.MallocNow: says of a size that wraps only which header is written and what is returned.
- KernelCode.Machine.ProcessFork: asks for a free pid; without one the source gives the child pid -1.
- KernelCode.Machine.ThreadExit: leaves out the release of the page directory and the kernel stack.
- KernelCode.Machine.ProcessExit: leaves out the release of memory and the completion of a vfork.
- Malloc.MallocState.FreeNow: takes pointers that malloc returned and that are still held; the contents of blocks are not modelled.
- The boot thread `main`, which shares pid 0 with the idle thread, and other threads that share a pid; CLONE_VM and vfork.
- `segment_wakeup` by pid, which does not unlink the waiter.
- `nlist.c` and `mblock.c` as pointers: their lists are sequences in the models that use them; so are the lists of free blocks of `malloc.c`, where `Malloc.UnlinksMembers` and `Malloc.PushesNew` give what the pointer operations ask for.
- The conversion of milliseconds into ticks in `thread_sleep`, and exit codes.
- Received packets whose length field exceeds the bytes received.
- Timeouts of ARP entries and fragments: the fields are set but no timer uses them.
- Freeing of kernel pages, `destroy_uvm` and 4 MB mappings.
- File systems, drivers, interrupts, boot, UDP, raw and socket layers, console, shell and applications.
