# Verified models of lwIP and the luadb tools

The repository runs LuatOS on a PC.  It contains the lwIP network stack and its own tools for Lua
bytecode files and luadb images.  The Dafny files here model its most intricate parts and prove what
these parts promise.  `dafny verify dfyconfig.toml` checks the whole project.

- **Heap allocator** (`HeapSpec.dfy`, `HeapLaws.dfy`, `Heap.dfy`).  `lwip/core/mem.c` keeps a doubly linked list
  of blocks inside the heap.  `HeapSpec` describes a heap as the sequence of its blocks and proves the laws of
  allocating, freeing and shrinking.  `HeapLaws` says what each call does to the live allocations, which
  determine that sequence.  `Heap` works on the headers in place and follows it.
- **Internet checksum** (`Checksum.dfy`).  Three algorithms and the sums over buffer chains in
  `lwip/core/inet_chksum.c` all compute the sum of sections 1 and 2 of RFC 1071, on a little-endian host.
- **select** (`Select.dfy`, `SelectRuns.dfy`) and **socket references** (`SocketTable.dfy`).  Two protocols of
  `lwip/api/sockets.c` as transition systems whose steps are the protected regions, and what their runs come to.
- **Netconn operations** (`VectorWrite.dfy`, `Netconn.dfy`).  Blocking write, connect and close of a TCP
  netconn in `lwip/api/api_msg.c`, finished by callbacks.
- **TCP receive path** (`RecvStream.dfy`).  From the mailbox to the caller of `recv`.
- **DNS resolver** (`DnsSpec.dfy`, `Dns.dfy`, `DnsNames.dfy`).  Tables, timer and callbacks of
  `lwip/core/dns.c`, and names in messages (sections 3.1, 4.1.2 and 4.1.4 of RFC 1035).
- **Bytecode reader and luadb writer** (`ByteOrder.dfy`, `BytecodeSpec.dfy`, `Bytecode.dfy`,
  `BytecodeTree.dfy`, `DupCount.dfy`, `Luadb.dfy`).  `port/luat_luac_report.c` and `port/luat_luadb2.c`.

`Basics.dfy` holds the few types and functions they share.

## Assumptions

- TCP, UDP, memory pools, semaphores and mailboxes are the environment.  Their answers are parameters.
- The variant is core locking.  The netconn model is not full-duplex; the reference counting model is the
  full-duplex one, the only variant that has it.
- What the application writes into its memory does not imitate a used, linked header where no block starts.
- A socket slot is reused only while no select is waiting on it, as `lwip/api/sockets.c:565` asserts.
- A pcb whose non-blocking connect is pending closes in the first call.  One application operation of a
  netconn is outstanding at a time; calls made meanwhile are modelled and refused as the code does.
- The inner write loop is modelled for sequences of TCP answers that end it.  When it makes progress is
  stated by `VectorWrite.RoundStuck`, and for which vectors it always ends by `VectorWrite.EndlessLoop`.
- TCP delivers no data after a FIN or an error.
- The resolver takes transaction ids from a counter; `DNS_MAX_REQUESTS` equals `DNS_TABLE_SIZE`.

## Where the code differs from its comments and asserts

- `lwip/core/mem.c:777` asserts that a trimmed block is not the last one (`HeapSpec.TrimAssertFails`,
  `HeapSpec.LastBlockIsTrimmed`).  The code after it handles that case, and so does the model.
- Neither update of `lfree` in `plug_holes` is ever made: its guard is refuted by an assert in
  `Heap.Mem.PlugForward` and in `Heap.Mem.PlugBackward`.
- `lwip/api/sockets.c:401` asserts that a slot with a pending free has references.  After a deferred free has
  completed it has none, but the flag stays set until the slot is reused (`SocketTable.PendingMeansReferenced`).
- The inner write loop repeats without progress if the rest of a vector is a positive multiple of 65536
  bytes and the send buffer is exhausted, and only then (`VectorWrite.RoundStuck`, `VectorWrite.StuckForever`).
- The assert `offset < len` of `lwip/api/api_msg.c:1659` can fail if the last vector is empty, and only then
  (`VectorWrite.OffsetBelowLen`; `VectorWrite.WaitsWithNothingLeft` is an example).
- After deleting a netconn during a non-blocking connect the connect flag stays set
  (`Netconn.DeleteWhileConnecting`), and only then (`Netconn.Conn.Handle`).
- A cached DNS entry whose age is a multiple of 256 requests is not reused (`Dns.Resolver.FindSlot`), so a
  table can count as full because of it (`Dns.CachedEntryNotReused`).
- `dns_compare_name` accepts labels of up to 191 bytes and stops at an empty label inside a name
  (`DnsNames.EchoAccepted`); it compares neither dots nor the end of the query string (`DnsNames.NameAccepted`).
- `do_data_group_report` looks at the mark of the first entry only (`DupCount.Group.Report`).
- A luadb record with a name of more than 494 bytes does not fit the room made for it (`Luadb.RecordFits`).
- The luadb count byte wraps at 256 files (`Luadb.ImageRoundTrip`).

## Model

| member | source | states |
|---|---|---|
| `HeapSpec.RunWellFormed` | lwip/core/mem.c:503-963 | after mem_init and any sequence of malloc, free and trim calls the blocks tile the heap without gaps, are aligned, have room for the minimum size, and no two free blocks are neighbours; heap size, alignment, header size, minimum size and integer width are arbitrary |
| `HeapSpec.StepKeepsWellFormed` | lwip/core/mem.c:554-595 | every single call keeps what mem_sanity checks, and more |
| `HeapSpec.FirstFit` | lwip/core/mem.c:854-875 | the result is the lowest free block that can hold the request, or the number of blocks if no block can |
| `HeapSpec.FirstFitShortcuts` | lwip/core/mem.c:854-875 | starting at lfree and stopping at MEM_SIZE_ALIGNED - size skips no block that could hold the request |
| `HeapSpec.RequestSizeExact` | lwip/core/mem.c:827-843 | a request is refused exactly if its aligned size, at least the minimum size, exceeds the heap, although the size is computed modulo the width of mem_size_t |
| `HeapSpec.AllocShape` | lwip/core/mem.c:873-914 | taking a block, split or whole, keeps the list well formed |
| `HeapSpec.AllocRoom` | lwip/core/mem.c:873-914 | the block taken is used, starts where the free block started and has room for the request; how much more it may have is in HeapLaws.AllocExact |
| `HeapSpec.AllocLive` | lwip/core/mem.c:873-914 | an allocation adds one live range and touches no other |
| `HeapSpec.AllocUsed` | lwip/core/mem.c:903-913 | the used bytes grow by the size of the block taken |
| `HeapSpec.FreeShape` | lwip/core/mem.c:656-667 | freeing and joining neighbours keeps the list well formed |
| `HeapSpec.FreeLive` | lwip/core/mem.c:656-667 | freeing removes exactly the freed range |
| `HeapSpec.FreeUsed` | lwip/core/mem.c:664 | the used bytes shrink by the size of the freed block |
| `HeapSpec.FreeUndoesAlloc` | lwip/core/mem.c:603-963 | freeing the block just allocated gives back the same block list |
| `HeapSpec.FreeAfterMalloc` | lwip/core/mem.c:603-963 | mem_free of the pointer mem_malloc just returned restores the block list, hence lfree and the used statistic |
| `HeapSpec.TrimShape` | lwip/core/mem.c:737-797 | shrinking keeps the list well formed, keeps the block where it is and leaves it the requested room |
| `HeapSpec.TrimLive` | lwip/core/mem.c:737-797 | shrinking changes the trimmed range and no other |
| `HeapSpec.TrimUsed` | lwip/core/mem.c:766-789 | the used bytes shrink by what was cut off |
| `HeapSpec.TrimAssertFails` | lwip/core/mem.c:768-790 | for every trim, the assert is reached and fails if and only if the block is the last one and big enough to be cut |
| `HeapSpec.LastBlockIsTrimmed` | lwip/core/mem.c:768-790 | a run on which the last block is trimmed and a free block is cut off behind it |
| `HeapSpec.LiveDisjoint` | lwip/core/mem.c:503-963 | live allocations never overlap, lie inside the heap and are aligned |
| `HeapSpec.NothingLive` | lwip/core/mem.c:460-497 | when nothing is live the heap is one free block again |
| `HeapLaws.LiveDeterminesBlocks` | lwip/core/mem.c:537-595 | two well-formed heaps with the same live allocations have the same block list, free blocks included |
| `HeapLaws.AllocExact` | lwip/core/mem.c:873-914 | a request gets exactly what it needs, or the whole block if what is left over could not be a block; never room for another block |
| `HeapLaws.TrimExact` | lwip/core/mem.c:737-797 | a trimmed block keeps exactly what it needs, unless what it gives up could be neither a block nor joined to one |
| `HeapLaws.MallocGrants` | lwip/core/mem.c:827-937 | a call hands out a range if and only if some free block has room, at the start of the lowest such block, and ends it at the requested size or at the end of the block |
| `HeapLaws.MallocChooses` | lwip/core/mem.c:827-937 | the same in terms of the size computed modulo the width of mem_size_t |
| `HeapLaws.FreeReleases` | lwip/core/mem.c:603-673 | after a call exactly the range that starts there is no longer live |
| `HeapLaws.TrimShortens` | lwip/core/mem.c:686-807 | a call shortens the live range to header and requested size, or leaves it, and changes no other range |
| `Heap.Mem.constructor` | lwip/core/mem.c:503-532 | the headers written by mem_init represent one free block and the end marker |
| `Heap.Mem.PlugForward` | lwip/core/mem.c:473-483 | joins the freed block with a free successor |
| `Heap.Mem.PlugBackward` | lwip/core/mem.c:485-497 | joins it with a free predecessor |
| `Heap.Mem.PlugHoles` | lwip/core/mem.c:460-497 | in place: the freed block is joined with free neighbours, next and prev agree, lfree is the lowest free block |
| `Heap.Mem.BlocksAreLinkValid` | lwip/core/mem.c:537-551 | every block, live or free, passes mem_link_valid |
| `Heap.Mem.Free` | lwip/core/mem.c:603-673 | NULL is ignored, a pointer that is no live allocation is refused and counted and changes nothing else, a live one is freed; headers, lfree and statistics follow |
| `Heap.Mem.FreeTwice` | lwip/core/mem.c:603-673 | the second free of a pointer is refused and counted, and changes nothing else |
| `Heap.Mem.FreeBlock` | lwip/core/mem.c:656-667 | the part behind the checks: block list, headers, lfree and used statistic |
| `Heap.Mem.LiveIffChecks` | lwip/core/mem.c:603-654 | the checks of mem_free accept exactly the live allocations, for every address |
| `Heap.Mem.Trim` | lwip/core/mem.c:686-807 | the block list becomes that of TrimAt; NULL is returned exactly if the size is refused or exceeds the block; pointers outside the heap are counted |
| `Heap.Mem.TrimBlock` | lwip/core/mem.c:737-797 | in place, whether the next block is free, used or missing, the headers, lfree and the used statistic follow the block list |
| `Heap.Mem.TrimMove` | lwip/core/mem.c:741-767 | a free next block moves down; links and lfree follow |
| `Heap.Mem.TrimSplit` | lwip/core/mem.c:768-790 | a new free block is cut off, also at the end of the heap; links and lfree follow |
| `Heap.Mem.Shrink` | lwip/core/mem.c:720-735 | a live block is shrunk, left alone, or refused because it is too small |
| `Heap.Mem.Search` | lwip/core/mem.c:854-875 | the loop from lfree finds the first fit of the whole heap, or nothing if nothing fits |
| `Heap.Mem.Take` | lwip/core/mem.c:878-914 | the block is marked used and split exactly if the rest is big enough (AllocAt, whose sizes HeapLaws.AllocExact gives); links and used statistic follow |
| `Heap.Mem.AdvanceLowestFree` | lwip/core/mem.c:918-937 | lfree ends up at the lowest free block |
| `Heap.Mem.Malloc` | lwip/core/mem.c:817-963 | NULL exactly if the size is 0 or no free block has room; otherwise one range becomes live, at the data of the first fit, with no more than the request needs unless the rest could not be a block; the headers, lfree, used and error counters follow the block list |
| `Heap.Execute` | lwip/core/mem.c:460-963 | after every sequence of calls the headers in place represent the block list of that sequence, with lfree the lowest free block and used the size of the used blocks |
| `Checksum.Chksum1` | lwip/core/inet_chksum.c:79-114 | returns the canonical ones-complement sum of the bytes |
| `Checksum.Chksum2` | lwip/core/inet_chksum.c:132-173 | returns the same value for even and odd start addresses and lengths up to 0x20000, without overflowing 32 bits |
| `Checksum.FinishSum` | lwip/core/inet_chksum.c:154-173 | the dangling byte, two folds and the swap for odd addresses end at the sum of all bytes |
| `Checksum.Chksum3` | lwip/core/inet_chksum.c:188-255 | returns the same value for every start address and every length, with the end-around carries it makes |
| `Checksum.EightAtATime` | lwip/core/inet_chksum.c:213-225 | the unrolled loop keeps the sum of bytes read and unread |
| `Checksum.LastWords` | lwip/core/inet_chksum.c:232-236 | so does the loop over the words that remain |
| `Checksum.ChainSum` | lwip/core/inet_chksum.c:263-283 | the swap-and-fold loop stands for the sum of the concatenation, for every split into buffers including empty and odd ones |
| `Checksum.AddBuffer` | lwip/core/inet_chksum.c:266-279 | adding a buffer to a possibly swapped accumulator |
| `Checksum.SwapBoth` | lwip/core/inet_chksum.c:274-277 | swapping accumulator and flag together keeps what they stand for |
| `Checksum.InetChksum` | lwip/core/inet_chksum.c:554-558 | the complement of the sum |
| `Checksum.InetChksumPbuf` | lwip/core/inet_chksum.c:567-588 | the checksum of a chain equals that of its bytes in a row |
| `Checksum.PseudoHeaderSum` | lwip/core/inet_chksum.c:285-294 | the words added for protocol, length and addresses are those of the pseudo header |
| `Checksum.AddressSum` | lwip/core/inet_chksum.c:310-363 | the address words of both addresses, folded |
| `Checksum.FinishPseudo` | lwip/core/inet_chksum.c:285-294 | protocol, length, folds and complement |
| `Checksum.ChksumPseudo` | lwip/core/inet_chksum.c:259-363 | exactly the checksum of the pseudo header followed by the payload, for IPv4 and IPv6 |
| `Checksum.PartialChainSum` | lwip/core/inet_chksum.c:402-429 | the loop covers exactly the first min(chksum_len, total) bytes although it swaps on the full length of each buffer |
| `Checksum.ChksumPseudoPartial` | lwip/core/inet_chksum.c:398-440 | exactly the checksum of the pseudo header followed by those bytes |
| `Checksum.FilledInVerifies` | lwip/core/inet_chksum.c:544-558 | data whose checksum field holds the computed checksum sums up to 0 at the receiver |
| `Select.SleepersAreNotForgotten` | lwip/api/sockets.c:2003-2213 | in every state of every interleaving, a thread asleep and unsignalled has no watched socket whose event condition holds, unless a callback for that socket is still ahead of it; select_waiting is the number of registered waiters; closed sockets may be reused whenever nobody waits on them |
| `Select.WalkWakes` | lwip/api/sockets.c:2622-2695 | the callback a ready sleeper is waiting for does signal it |
| `Select.EventWakesSleeper` | lwip/api/sockets.c:2523-2695 | an event a sleeping thread awaits signals it, from recording the event to the end of the walk |
| `Select.WalkKeepsSignals` | lwip/api/sockets.c:2622-2695 | a walk never takes back a signal |
| `Select.WalkSignalsOnlyWatchers` | lwip/api/sockets.c:2622-2695 | only threads that watch the socket for one of the saved events are signalled |
| `Select.RunKeepsInv` | lwip/api/sockets.c:1810-2213 | the invariant holds in every state of every run |
| `Select.NextKeeps` | lwip/api/sockets.c:1810-2695 | every protected region keeps the invariant |
| `Select.RegisterKeeps` | lwip/api/sockets.c:2078-2110 | increasing select_waiting, also when a socket is gone or the counter is full |
| `Select.ScanKeeps` | lwip/api/sockets.c:1873-1939 | one descriptor of the second scan |
| `Select.UnregisterKeeps` | lwip/api/sockets.c:2140-2165 | decreasing select_waiting for exactly the descriptors registered |
| `Select.PostKeeps` | lwip/api/sockets.c:2523-2608 | an event is recorded and, with waiters present, a walk is started with the events saved then; what is recorded over a run is in SelectRuns.EventsCounted |
| `Select.WalkKeeps` | lwip/api/sockets.c:2622-2695 | one waiter of the walk |
| `SelectRuns.EventsCounted` | lwip/api/sockets.c:2565-2590 | in every state of every run, for every socket: rcvevent is the number of receive events less those taken back, sendevent is what the last send event said, errevent tells whether there was an error, each since the slot was last reused |
| `SelectRuns.SleepersHaveNothing` | lwip/api/sockets.c:2003-2213 | no lost wakeup in terms of the events posted: a thread asleep and unsignalled, with no walk ahead of it, has no unread receive event on a socket it reads and no writable or failed socket it watches for that |
| `SelectRuns.PostStartsWalk` | lwip/api/sockets.c:2565-2600 | a walk starts exactly if somebody is registered for the socket and the event is news, and it signals exactly the threads the socket is then ready for |
| `SelectRuns.WalkSignalsExactly` | lwip/api/sockets.c:2622-2695 | a whole walk signals a thread if and only if it is on the list and watches the socket for a saved event, and changes nothing else of it |
| `SelectRuns.EventSignalsExactly` | lwip/api/sockets.c:2523-2695 | from an event to the end of its walk: which threads it signals, in both directions |
| `SelectRuns.SignalsHaveCauses` | lwip/api/sockets.c:2003-2695 | in every run a thread in select is signalled only if an event posted after it joined made a socket ready for it |
| `SelectRuns.RegisterAllIs` | lwip/api/sockets.c:2078-2110 | the loop increases select_waiting of the watched sockets up to the end or to the first one that is closed or has 255 waiters |
| `SelectRuns.ScanAllIs` | lwip/api/sockets.c:1873-1939 | the scan leads to sleep if and only if every watched socket is open and has nothing for the thread |
| `SelectRuns.UnregisterAllIs` | lwip/api/sockets.c:2140-2165 | the loop decreases select_waiting of exactly the watched sockets below its limit |
| `SelectRuns.WholeCall` | lwip/api/sockets.c:2003-2213 | an uninterrupted call sleeps if and only if every watched socket is open, has room for a waiter and has nothing for it, and in either case leaves sockets, list and other threads as it found them |
| `SocketTable.Table.IncUsed` | lwip/api/sockets.c:373-408 | a reference is taken unless a free is pending |
| `SocketTable.Table.FreeSocketLocked` | lwip/api/sockets.c:586-606 | the last reference hands out the netconn and leaves the slot free; otherwise the free is marked pending and nothing is handed out |
| `SocketTable.Table.DoneSocket` | lwip/api/sockets.c:415-440 | a reference is dropped; the last one completes a deferred free |
| `SocketTable.Table.AllocSocket` | lwip/api/sockets.c:539-577 | without interruption between slots, the lowest slot without owner and references is taken, or none if there is none |
| `SocketTable.HolderMayRelease` | lwip/api/sockets.c:415-606 | the asserts on fd_used hold whenever a holder drops its reference or closes |
| `SocketTable.NextKeeps` | lwip/api/sockets.c:373-650 | every protected region keeps fd_used equal to the references held and the ownership of netconns |
| `SocketTable.RunKeepsInv` | lwip/api/sockets.c:373-650 | so does every run of any number of users, closers and allocators |
| `SocketTable.HandedOutWithLastReference` | lwip/api/sockets.c:586-650 | a netconn is handed out only with the last reference to its socket, and a slot is reallocated only when unreferenced |
| `SocketTable.FreedExactlyOnce` | lwip/api/sockets.c:811-850 | a netconn is handed out at most once, and exactly once when no socket owns it any more; that closing leads there is in ClosedIsFreed |
| `SocketTable.ClosedIsFreed` | lwip/api/sockets.c:586-650 | a netconn that some step of a run closed is, in every later state, handed out exactly once, or in a slot that is marked as closed and still referenced |
| `SocketTable.PendingIffDeferred` | lwip/api/sockets.c:586-606 | in every run a free is pending exactly for the slots that were closed while others referenced them, since they were last allocated |
| `SocketTable.ReferenceUnlessClosed` | lwip/api/sockets.c:373-408 | in every run a reference to a slot can be had if and only if it has not been closed so |
| `SocketTable.PendingMeansReferenced` | lwip/api/sockets.c:394-408 | in every reachable state the assert on a pending free holds of a slot if and only if it still has its netconn |
| `SocketTable.PendingStaysSet` | lwip/api/sockets.c:394-408 | a run to a slot of which it does not hold: a deferred free that has been completed |
| `VectorWrite.RoundSends` | lwip/api/api_msg.c:1680-1730 | one round sends exactly the bytes its offset moves over and keeps the position in the vectors |
| `VectorWrite.LoopSends` | lwip/api/api_msg.c:1643-1807 | for all send-buffer sizes and tcp_write results, what the loop sends is exactly the slice of the concatenated vectors between the old and the new offset |
| `VectorWrite.FinishMeansAll` | lwip/api/api_msg.c:1731-1786 | a blocking write that ends with ERR_OK has sent everything, and one that goes on after ERR_OK has something left |
| `VectorWrite.FinishExact` | lwip/api/api_msg.c:1747-1786 | a write has to wait if and only if it is blocking, a route was found, and tcp_write ran out of memory or something is left; otherwise it ends, with the result given for each case |
| `VectorWrite.LoopEnds` | lwip/api/api_msg.c:1680-1730 | the loop stops only when everything is sent, when the send buffer is used up to the last byte, or when tcp_write fails; what tcp_write did not take is not counted |
| `VectorWrite.RoundEnds` | lwip/api/api_msg.c:1680-1730 | the same of one round, which passes over an empty vector |
| `VectorWrite.LoopErrs` | lwip/api/api_msg.c:1680-1730 | a blocking write gets no other error from the loop than one of tcp_write |
| `VectorWrite.RoundStuck` | lwip/api/api_msg.c:1705-1730 | a round is repeated without progress if and only if the send buffer is exhausted, tcp_write accepts nothing without error, and a positive multiple of 65536 bytes is left in a vector that is not the last of a blocking write |
| `VectorWrite.StuckForever` | lwip/api/api_msg.c:1680-1730 | in that position the loop goes on for as long as the send buffer stays exhausted |
| `VectorWrite.ShortVectorsProgress` | lwip/api/api_msg.c:1705-1730 | with vectors of at most 0xffff bytes every repeated round makes progress |
| `VectorWrite.ShortVectorsEnd` | lwip/api/api_msg.c:1680-1730 | with vectors of at most 0xffff bytes the loop ends after at most one round per vector left |
| `VectorWrite.EndlessLoop` | lwip/api/api_msg.c:1680-1730 | the inner loop of a blocking write can be kept going for any number of rounds if and only if the caller passed a vector, other than the last, of at least 65536 bytes |
| `VectorWrite.LoopBounded` | lwip/api/api_msg.c:1680-1730 | without such a vector the number of rounds is bounded by the vectors left and the bytes of the last one |
| `VectorWrite.StuckRound` | lwip/api/api_msg.c:1705-1730 | an input on which a repeated round makes none |
| `VectorWrite.OffsetBelowLen` | lwip/api/api_msg.c:1659-1660 | over all runs of a blocking write the assert that offset is below len holds whenever the write is taken up again, if and only if the last vector the caller passed is not empty |
| `VectorWrite.ReachLastVector` | lwip/api/api_msg.c:1680-1730 | with an empty last vector, answers of TCP that carry the loop there and run out of memory |
| `VectorWrite.WaitsWithNothingLeft` | lwip/api/api_msg.c:1659-1660 | an input on which that assert fails: a last empty vector and ERR_MEM |
| `VectorWrite.TotalSize` | lwip/api/api_lib.c:1020-1028 | the sum of the sizes as a size_t; the wrap-around test refuses exactly the sums that do not fit |
| `Netconn.Conn.constructor` | lwip/api/api_msg.c:707-770 | a new netconn is idle and consistent |
| `Netconn.Conn.PushVectors` | lwip/api/api_msg.c:1680-1730 | the do-while loop leaves the message, the bytes sent and the error that the loop specification gives |
| `Netconn.Conn.WriteMore` | lwip/api/api_msg.c:1643-1807 | waits exactly in the cases of FinishExact and ends with its result; finished: everything reported as written was sent and the caller is signalled only if it waits; unfinished: exactly the first offset bytes were sent |
| `Netconn.Conn.ContinueWrite` | lwip/api/api_msg.c:367-368 | a callback takes up the write of the caller, and it waits on exactly in the cases of FinishExact; an error it ends with is ERR_RTE of tcp_output or an error of tcp_write other than ERR_MEM |
| `Netconn.Conn.CloseInternal` | lwip/api/api_msg.c:923-1107 | finished unless tcp_close ran out of memory and polls are left; then nothing changes |
| `Netconn.BothDirections` | lwip/api/api_msg.c:942-957 | the pcb is closed instead of shut exactly if both directions are shut now or were before |
| `Netconn.CloseEnds` | lwip/api/api_msg.c:1028-1064 | a close waits exactly while tcp_close is short of memory and polls are left; given up, it succeeds exactly if it closes both directions |
| `Netconn.Conn.Complete` | lwip/api/api_msg.c:1787-1800 | the message is handed back, the state is reset, and a waiting caller is signalled once |
| `Netconn.Conn.DoWrite` | lwip/api/api_msg.c:1816-1862 | a write is refused with the code for each reason, else it waits or ends exactly as FinishExact says; its caller is never signalled for one that finishes at once |
| `Netconn.Conn.StartWrite` | lwip/api/api_msg.c:1827-1845 | the branch that writes: the caller waits exactly if the write has to |
| `Netconn.Conn.DoConnect` | lwip/api/api_msg.c:1353-1419 | a blocking connect makes its caller wait, a non-blocking one sets the flag, every other case is refused without effect, with the code for each |
| `Netconn.Conn.DoClose` | lwip/api/api_msg.c:1937-2008 | a close starts only in the states that allow it; its caller waits exactly if it is not finished |
| `Netconn.Conn.DoDelconn` | lwip/api/api_msg.c:1116-1210 | a running blocking operation is left alone; otherwise the pcb is closed, with the final state and error given, or the caller waits; the connect flag is not touched |
| `Netconn.Conn.StartClose` | lwip/api/api_msg.c:1177-1192 | the caller waits exactly if the close is not finished, and is not signalled otherwise |
| `Netconn.Conn.DoListen` | lwip/api/api_msg.c:1452-1526 | only an idle netconn with a closed pcb starts to listen; a failure leaves it idle, without pcb if the accept mailbox could not be made |
| `Netconn.Conn.Resume` | lwip/api/api_msg.c:1400-1850 | after a wait the state is NETCONN_NONE, as the asserts behind each wait say |
| `Netconn.Conn.SentTcp` | lwip/api/api_msg.c:400-425 | the current write or close goes on, and ends exactly when it can; a write stays that of its caller, finishing gives exactly one signal, and a result already handed over stays |
| `Netconn.Conn.PollTcp` | lwip/api/api_msg.c:359-391 | the same, and a close that is not finished has used up one of its polls |
| `Netconn.Conn.ErrTcp` | lwip/api/api_msg.c:434-508 | the operation under way, if any, is finished and signalled once, a write as that of its caller, a close with success; a result already handed over stays |
| `Netconn.Conn.Connected` | lwip/api/api_msg.c:1304-1343 | the connect is finished; its caller is signalled exactly if it waits; a result already handed over stays |
| `Netconn.Conn.PollToClose` | lwip/api/api_msg.c:923-1107 | a close with k polls left is finished, with one signal, within k polls whatever tcp_close returns and however many sent callbacks come between |
| `Netconn.Conn.Handle` | lwip/api/api_msg.c:359-2008 | every call and callback takes effect and keeps state, current message, semaphore and caller consistent; a signal is given exactly when a waited-for operation ends; a write under way stays that of its caller until it is finished, ends with an error only for a reason in the event, and its result stays until the caller runs; the connect flag is set exactly during a non-blocking connect or after a deletion during one, and nothing but such a deletion leads there |
| `Netconn.Run` | lwip/api/api_msg.c:359-2008 | on every run each operation that made its caller wait has been signalled exactly once, or is the current one and has not been |
| `Netconn.Conn.WriteAndWait` | lwip/api/api_msg.c:1643-1862 | a blocking write that is accepted, as its caller sees it until it runs again, with any callbacks and any calls of other threads in between: the bytes sent are the beginning of the vectors, all of them if the result is ERR_OK; an error has its reason in the answers or events; a broken connection ends the wait |
| `Netconn.DeleteWhileConnecting` | lwip/api/api_msg.c:1116-1210 | a run on which the connect flag stays set: idle, without pcb, with the flag |
| `RecvStream.Socket.Deliver` | lwip/api/api_msg.c:295-346 | a buffer is queued behind the others, refused when the mailbox is full, or acknowledged and dropped when the receive side is shut |
| `RecvStream.Socket.DeliverFin` | lwip/api/api_msg.c:295-346 | the end of the stream is queued behind the data |
| `RecvStream.Socket.Abort` | lwip/api/api_msg.c:434-477 | an error is queued behind the data and recorded as pending |
| `RecvStream.Socket.Arrive` | lwip/api/api_msg.c:295-508 | any sequence of deliveries, ends and errors keeps the stream, and what it delivers and ends is given for every sequence |
| `RecvStream.Socket.Drain` | lwip/api/api_msg.c:830-863 | shutting the receive side drops exactly what is queued |
| `RecvStream.Socket.RecvData` | lwip/api/api_lib.c:578-673 | the next buffer of the stream, or the error, the wait or the end that each state of the mailbox leads to |
| `RecvStream.Socket.RecvDataTcp` | lwip/api/api_lib.c:702-769 | what the fetch meets first decides what it gives; a FIN that cannot be reported with data is kept for the next call |
| `RecvStream.Socket.HandleFin` | lwip/api/api_lib.c:752-766 | the end of the stream or the error behind it is reported; nothing is lost by closing the mailbox |
| `RecvStream.Socket.TcpRecvd` | lwip/api/api_msg.c:1592-1609 | the window update adds up to the length, in pieces of at most 0xffff |
| `RecvStream.Socket.NextBuffer` | lwip/api/sockets.c:979-1007 | the buffer to copy from is lastdata or the next of the stream; what arrives before a fetch is taken in |
| `RecvStream.Socket.Copy` | lwip/api/sockets.c:1012-1052 | what is copied moves from lastdata to the caller, or stays when peeking; the overflow guard never shortens it |
| `RecvStream.Socket.CopyOut` | lwip/api/sockets.c:1012-1058 | the loop returns the next bytes of the stream, all asked for or all there are, and never waits once there is data |
| `RecvStream.Socket.RecvTcp` | lwip/api/sockets.c:959-1058 | the bytes returned are the next of the stream, a peek consumes nothing, a short or failed read means that everything delivered was returned; with the end of the stream queued the call returns data or, behind all data, 0; without data, what is queued decides between 0, each error and waiting |
| `RecvStream.Socket.ReadAll` | lwip/api/sockets.c:959-1058 | reading until 0 is returned gives exactly what was still to come, whatever the length asked for |
| `RecvStream.Run` | lwip/api/sockets.c:959-1058 | on every run the bytes returned, lastdata, the mailbox and what was dropped by a shutdown are the bytes delivered, in order; the window updates add up to the bytes returned |
| `DnsSpec.TickUsesOne` | lwip/core/dns.c:1089-1121 | every timer tick uses up exactly one of the ticks a query has left |
| `DnsSpec.RoundsClosed` | lwip/core/dns.c:1089-1121 | the ticks of a query add up to S * (1 + R * (R - 1) / 2) for S servers and R retries |
| `DnsSpec.GivesUpLast` | lwip/core/dns.c:1089-1121 | with k servers to try a query gives up exactly with the last tick it has left |
| `DnsSpec.GivenUpExactly` | lwip/core/dns.c:1073-1121 | a query without reply is pending for exactly k * (1 + R * (R - 1) / 2) ticks if the first k servers are set |
| `DnsSpec.SentToEach` | lwip/core/dns.c:1073-1121 | and is sent R times to each of them |
| `DnsSpec.KeptFor` | lwip/core/dns.c:1122-1130 | a cached answer is kept for exactly as many ticks as its time to live |
| `Dns.AnswerKept` | lwip/core/dns.c:1155-1185 | which is that of the answer, but at most DNS_MAX_TTL |
| `DnsSpec.LowerCharExact` | lwip/core/def.c:186-213 | letters are the same regardless of case, and nothing else is |
| `DnsSpec.CalledOnce` | lwip/core/dns.c:980-987 | a request has been called exactly once if and only if it is no longer waiting |
| `Dns.Resolver.CreateTxid` | lwip/core/dns.c:1018-1037 | a fresh id is found within table size + 1 attempts |
| `Dns.Resolver.Notify` | lwip/core/dns.c:980-987 | every callback waiting for the entry is called once and forgotten, the others are untouched |
| `Dns.Resolver.ReleasePcb` | lwip/core/dns.c:994-1014 | the pcb is closed unless another query uses it |
| `Dns.Resolver.CallFound` | lwip/core/dns.c:960-1015 | both, and the address type is narrowed to the one found |
| `Dns.Resolver.Finish` | lwip/core/dns.c:1101-1107 | the end of a query: callbacks called, pcb released, entry unused or cached, nothing else changed |
| `Dns.Resolver.Send` | lwip/core/dns.c:782-793 | the query is sent to the current server; for one that is not set any more the query ends with a failure call of its callbacks |
| `Dns.Resolver.StartQuery` | lwip/core/dns.c:1073-1088 | a new entry gets a fresh id and its whole budget of ticks |
| `Dns.Resolver.RetryQuery` | lwip/core/dns.c:1089-1121 | a pending entry waits, is sent again, changes server or gives up, as DnsSpec.Ticks says, and one query is sent exactly if it says so; callbacks are called exactly if it ends, with failure |
| `Dns.Resolver.CheckEntry` | lwip/core/dns.c:1065-1137 | every entry becomes what DnsSpec.Ticks says, or starts; nobody who waits for a query that goes on is called |
| `Dns.Resolver.Tick` | lwip/core/dns.c:1142-1150 | every entry, once per tick; the queries sent are those of the entries in order |
| `Dns.Resolver.Elapse` | lwip/core/dns.c:1065-1150 | n ticks without replies: every entry is what DnsSpec.Ticks says, and only failures are reported |
| `Dns.Resolver.Unanswered` | lwip/core/dns.c:1065-1526 | a request whose query is never answered is called back exactly once, with failure, at tick k * (1 + R * (R - 1) / 2) and not before, where the first k servers are set |
| `Dns.Resolver.AllocPcb` | lwip/core/dns.c:918-949 | the first free slot gets a new pcb if possible, else the next one in use after the last is shared; none exactly if there is none |
| `Dns.Resolver.ReusePcb` | lwip/core/dns.c:935-949 | the next slot in use, going up cyclically from the last one; none exactly if there is none |
| `Dns.Resolver.FindSlot` | lwip/core/dns.c:1438-1468 | the first unused entry, else the oldest cached one; full exactly if every entry is busy or cached with an age that is 0 modulo 256 |
| `Dns.Resolver.FindDuplicate` | lwip/core/dns.c:1409-1421 | the first pending query for the same name, ignoring case, and the same address type |
| `Dns.Resolver.FreeRequest` | lwip/core/dns.c:1471-1483 | the first free request slot |
| `Dns.Resolver.Attach` | lwip/core/dns.c:1424-1430 | a request with callback gets the next number and waits for the entry in the given slot |
| `Dns.Resolver.NewQuery` | lwip/core/dns.c:1489-1526 | the entry is filled in and sent; without a pcb the request is refused without trace |
| `Dns.Resolver.Enqueue` | lwip/core/dns.c:1393-1526 | a request is attached to a pending query for the same name and type if there is one, and else starts one, sent at once, in the entry FindSlot takes; it is refused if and only if no request slot is free or, without such a query, the table is full or no pcb can be had, and then leaves requests and callbacks as they were; queries under way are untouched |
| `Dns.Resolver.NextServer` | lwip/core/dns.c:1269-1286 | an error response with another server left goes on with that server at once, with new retries |
| `Dns.Resolver.TryOtherType` | lwip/core/dns.c:1351-1366 | a missing address restarts the query with the other type, which happens once |
| `Dns.Resolver.FindTxid` | lwip/core/dns.c:1212-1217 | the asking entry with the id of a packet |
| `Dns.Resolver.Respond` | lwip/core/dns.c:1269-1373 | what each reply makes of its entry: an address is cached with its time to live cut to the maximum, or not at all if that is 0; an error goes on with the next server or ends the query; a missing address restarts it with the other type or ends it; callbacks are called with success exactly for an address; no other entry changes |
| `Dns.Resolver.Receive` | lwip/core/dns.c:1188-1382 | a reply changes only the entry asking with its id, as Respond states; an address is reported as success |
| `Dns.Resolver.SetServer` | lwip/core/dns.c:360-370 | exactly the given server changes, and everything is kept |
| `Dns.Resolver.QueriesEnd` | lwip/core/dns.c:1065-1137 | in every reachable state no query has been asking for S * (1 + R * (R - 1) / 2) ticks since it was started or restarted, and none was restarted twice |
| `Dns.Resolver.CalledBackOnce` | lwip/core/dns.c:960-1526 | every accepted request is called at most once, and exactly once at the latest after twice that many ticks, whatever happens |
| `Dns.Resolver.TablesConsistent` | lwip/core/dns.c:918-1037 | asking entries have distinct ids and a pcb slot is filled exactly while an asking entry uses it |
| `Dns.Run` | lwip/core/dns.c:960-1526 | all this holds after every sequence of requests, packets, ticks and server changes |
| `Dns.CachedEntryNotReused` | lwip/core/dns.c:1438-1468 | a run to a refused request with a cached answer in the table, whose age has wrapped to 0, and a request slot free |
| `DnsNames.WriteName` | lwip/core/dns.c:807-828 | the labels are written behind their lengths, inside the space allocated, and nothing else is changed |
| `DnsNames.WriteLabel` | lwip/core/dns.c:812-826 | one label behind its length, and no byte outside it |
| `DnsNames.ExactSpace` | lwip/core/dns.c:796-828 | the strlen + 2 bytes allocated are filled exactly if and only if no label has 256 bytes or more |
| `DnsNames.CompareName` | lwip/core/dns.c:669-717 | the offset behind the name, or 0xffff; it ends |
| `DnsNames.MatchLabel` | lwip/core/dns.c:688-706 | whether the characters of a label agree, ignoring case |
| `DnsNames.SkipName` | lwip/core/dns.c:726-758 | it ends with 0xffff or a larger offset |
| `DnsNames.EchoAccepted` | lwip/core/dns.c:669-717 | the echo of a query is accepted up to its exact end if and only if its labels are shorter than 192 bytes and none but the first is empty |
| `DnsNames.NameAccepted` | lwip/core/dns.c:669-717 | any name in a packet is accepted up to its exact end if and only if its labels are shorter than 192 bytes, none but the first is empty, and every character but its dots is that of the query string, ignoring case |
| `DnsNames.LowerExact` | lwip/core/dns.c:693 | letters are the same regardless of case, and nothing else is |
| `DnsNames.CompareSkips` | lwip/core/dns.c:669-758 | an accepted name ends where dns_skip_name ends it |
| `DnsNames.EchoSkipped` | lwip/core/dns.c:726-758 | and dns_skip_name finds the same end under the same condition |
| `DnsNames.SkipFinds` | lwip/core/dns.c:726-758 | for any bytes: an end that is found is behind a chain of labels that ends in 0 or in a compression pointer |
| `DnsNames.SkipReaches` | lwip/core/dns.c:726-758 | and the end of every such chain is found |
| `DnsNames.OrdinaryEcho` | lwip/core/dns.c:669-828 | for labels of 1 to 63 bytes both do |
| `Bytecode.Reader.LoadInt` | port/luat_luac_report.c:21-25 | four bytes, least significant first |
| `Bytecode.Reader.LoadString` | port/luat_luac_report.c:45-64 | the string and its stored size, in the short and the long form |
| `Bytecode.Reader.LoadConst` | port/luat_luac_report.c:92-138 | a constant of each type, filed under strings or numbers |
| `Bytecode.Reader.LoadHead` | port/luat_luac_report.c:219-251 | the parts of a function before its inner functions |
| `Bytecode.Reader.LoadConstants` | port/luat_luac_report.c:76-140 | the constants, their strings and numbers filed in order |
| `Bytecode.Reader.LoadDebug` | port/luat_luac_report.c:165-216 | line numbers, local names and upvalue names, filed in order |
| `Bytecode.Reader.LoadProtos` | port/luat_luac_report.c:155-162 | the inner functions, each in the next free slot |
| `Bytecode.Reader.LoadFunction` | port/luat_luac_report.c:219-259 | exactly the dump of the function tree is consumed, its parts are appended to the tables, and its functions fill the next slots in preorder |
| `Bytecode.ReadTree` | port/luat_luac_report.c:219-259 | from an empty report: slot 0 stands for the tree, there is one slot per function, and every entry and every inner slot is pointed to by exactly one field |
| `BytecodeTree.TreeFound` | port/luat_luac_report.c:219-259 | the function tree can be recovered from the tables and slots |
| `BytecodeTree.TreeUnique` | port/luat_luac_report.c:219-259 | and no other tree is represented by the same slot of the same tables |
| `BytecodeTree.HitOnce` | port/luat_luac_report.c:76-259 | every stored entry is reached by exactly one field of one function, every slot but the root by exactly one pointer |
| `BytecodeTree.ProtoSlots` | port/luat_luac_report.c:155-162 | slots are numbered in preorder |
| `BytecodeTree.SlotPerFunction` | port/luat_luac_report.c:219-259 | one slot per function of the tree |
| `BytecodeTree.FuncRest` | port/luat_luac_report.c:219-259 | the dump of a function does not depend on what follows it |
| `DupCount.Group.Report` | port/luat_luac_report.c:316-340 | with mark 0 on the first entry uni_count is the number of different contents of at least two bytes, otherwise the number of such entries; total, maximum and empty counts |
| `DupCount.Group.SeenBefore` | port/luat_luac_report.c:330-336 | finds whether a content occurs among the entries before |
| `DupCount.Group.Add` | port/luat_luac_report.c:342-347 | entries are appended; the contents become the union |
| `DupCount.CountsAgree` | port/luat_luac_report.c:316-340 | counting entries equals counting contents if and only if nothing occurs twice |
| `DupCount.Summary` | port/luat_luac_report.c:342-377 | the report on merged groups counts the union of their contents |
| `Luadb.Database.Init` | port/luat_luadb2.c:15-66 | the header of an empty image; a second call changes nothing |
| `Luadb.Database.Write` | port/luat_luadb2.c:69-128 | the image of one file more; all writes stay in the reallocated block, no earlier byte but 0x12 changes; -1 and -2 change nothing |
| `Luadb.WriteRecord` | port/luat_luadb2.c:82-118 | a record is written inside the 512 spare bytes for names of up to 494 bytes |
| `Luadb.RecordFits` | port/luat_luadb2.c:75-118 | a record fits the room allocated for it if and only if its name has at most 494 bytes |
| `Luadb.ImageRoundTrip` | port/luat_luadb2.c:69-128 | decoding an image gives back its files if and only if there are fewer than 256, names are shorter than 256 bytes and data than 2 to the 32; byte 0x12 is the count modulo 256 |
| `Luadb.AppendImage` | port/luat_luadb2.c:113-121 | counting up byte 0x12 turns an image followed by a record into the image with one file more |
| `Luadb.RecordRead` | port/luat_luadb2.c:82-118 | decoding one record gives back the file and the rest |
| `Luadb.Build` | port/luat_luadb2.c:15-128 | init and any sequence of writes, some of which may fail for lack of memory, give the image of exactly the files written, in order |

## Left out

- Heap.Mem.Trim: asks that an address inside the heap be a live allocation, because mem_trim does not check it.
- Heap overflow checks, mem_calloc, memory pools used as heap, and the thread protection around the heap.
- Checksum.Chksum1: lengths above 0x20000, for which the 32-bit accumulator may overflow; the callers pass at most 0xffff.
- Checksum copy variants and big-endian hosts.
- Select.SleepersAreNotForgotten: is about the event counters; data left in lastdata makes a socket readable without raising an event.
- The first scan of lwip_select, which only may return early; lwip_poll; select timeouts are a step that may come at any time.
- select_cb_list is a sequence and not a linked list.
- SocketTable.Table.AllocSocket: the scan is one step; that other threads run between two slots is in the transition system, where a slot is taken in one step whenever it is free.
- Socket creation before its descriptor is returned, and the full-duplex netconn variants.
- Accepting connections on a listening netconn.
- Netconn.Conn.DoClose: closing a second time during a close is excluded, because the code asserts against it.
- Netconn.Conn.constructor: whether a netconn is non-blocking is fixed here; the code lets it be changed at any time, also during a write.
- Netconn.Conn.CloseInternal: that a listening pcb never fails to close is not used.
- Send timeouts, linger, receive timeouts, the message thread without core locking, select events of netconns, and writes of more than SSIZE_MAX bytes.
- RecvStream.Socket.RecvDataTcp: only with NETCONN_NOAUTORCVD, as sockets use it; a pbuf chain is its bytes, and recv_avail is not kept.
- Dns.Resolver.Send: a packet that cannot be built or sent for lack of memory is not modelled; the entry would stay as it is.
- SelectRuns.WholeCall: is about a call that nothing interrupts; for interleavings see SleepersHaveNothing and SignalsHaveCauses.
- Dns.Resolver.Receive: how dns_recv takes a packet apart is reduced to its outcome; names are modelled in DnsNames.
- Dns.Resolver.CreateTxid: random ids are not modelled; uniqueness would be the same, the bound on attempts would not hold.
- Resolver callbacks that call the resolver, multicast DNS, the local host list and the choice of a random source port.
- DnsNames.CompareName: that an accepted name equals the query name is not claimed, because the comparison checks neither the dots nor the end of the query string (NameAccepted).
- Bytecode.Reader.LoadFunction: specified on well-formed dumps within the limits of the tables, because the reader checks neither; the file header is not modelled.
- The DupCount counters are unbounded integers.
- Luadb.Database.Init: the first allocation succeeds; the code does not check it.
- Luadb.WriteRecord: as Luadb.Database.Write.
- Luadb.Build: as Luadb.Database.Write.
- Luadb.Database.Write: names of more than 494 bytes are excluded, because the spare room of 512 bytes does not hold their records.
- Everything else in the repository: file systems, fonts, video, serial and CAN devices, command line, Lua interpreter, socket options and address tables.
