# Verified model of the lwIP cores and the telnet engine

A small telnet shell (`TcpShell/`) runs on a copy of the lwIP stack (`LwIP/`). This project models the parts
of both that are hardest to get right and proves what they are for.

| file | models |
|---|---|
| `BlockList.dfy`, `Mem.dfy` | the first-fit heap: a doubly linked block list threaded through the heap bytes, the cached lowest free block, coalescing, trimming, and frees and trims from other contexts in the middle of an allocation |
| `Checksum.dfy`, `ChksumChain.dfy` | the Internet checksum: three algorithms, and the versions over chains and with pseudo headers |
| `PbufChain.dfy`, `PbufData.dfy`, `PbufCopy.dfy` | packet buffer chains, the operations on their bytes, and for which chains `pbuf_copy` succeeds |
| `PbufBook.dfy`, `PbufLink.dfy`, `PbufGrow.dfy`, `PbufOwner.dfy` | reference counts, joining, cutting, pool allocation and release of chains |
| `Memp.dfy` | the pool free list and its cycle check |
| `Dns.dfy` | the name encoder of a DNS query and the two readers of encoded names |
| `Select.dfy` | `lwip_select` against `event_callback` |
| `Netconn.dfy` | completion of the calls on a TCP netconn |
| `TelnetOption.dfy` | option negotiation by the Q method, measured against section 7 of RFC 1143, and two parties that use it |
| `TelnetStore.dfy` | the array of option states, and exactly when it serves as a table of options |
| `TelnetEnviron.dfy`, `TelnetMssp.dfy` | the NEW-ENVIRON and MSSP decoders that work in place, and the NEW-ENVIRON writers |
| `TelnetTracker.dfy`, `TelnetEngine.dfy`, `TelnetCodec.dfy` | the telnet byte machine, as a function of single bytes and as it is implemented, the writers, and the round trips |
| `TelnetStream.dfy` | what a whole input stream means, item by item |
| `TelnetCut.dfy` | exactly when it does not matter how input is cut |
| `TelnetDuo.dfy`, `TelnetDuoExact.dfy`, `TelnetDuoTold.dfy` | two telnet trackers that negotiate over byte channels: exactly which runs refine the two parties of `TelnetOption.dfy`, a run that does not, and what the applications are told |
| `Bytes.dfy`, `Sets.dfy` | definitions shared by the others |

## How the model is built

- Code that works in place is a class with the source's fields, and its methods are proved against functions
  of the old state. The heap is an array of bytes that holds the headers; a ghost map repeats them, and the
  invariant says that the bytes hold that map. The live allocations are a set of blocks; `Keeps` says that
  the bytes of every one of them are unchanged.
- The invariant of the heap comes in two strengths: `Sound` holds whenever the heap is unlocked, even in the
  middle of `mem_malloc`; `Valid` adds that `lfree` is exact. A `mem_malloc` takes the frees and trims that
  other contexts may make while it runs; each restart uses one up, which is why it ends.
- A pbuf chain is read as one flat byte sequence (`PbufChain.Flat`). References are kept in a ghost book beside
  the memory: how many each pbuf's callers hold and which pbuf points to it. `Owner.Valid` says that
  every count is the number of those references and that all `tot_len` fields add up in 16 bits.
- `Cong` is congruence modulo 65535 that also tells 0 from 65535, which is what the checksum preserves.
- The telnet byte machine is the function `TelnetTracker.Step` of one byte; two traces are the same when they
  agree after their data has been taken byte by byte (`TelnetTracker.Flat`), which joins adjacent data.
  Handlers only record their events.
- `lwip_select` and `event_callback` are atomic actions, one for each stretch that runs under protection, and
  the results are about all runs of such actions. The netconn methods run one at a time in any order; what
  TCP answers is a parameter.
- Bytes are `int`s below 256; the arithmetic of 8, 16 and 32 bit fields is written out where it can wrap.
  I/O, time, randomness and memory that the source leaves uninitialised are parameters.

## Where code and documentation differ

The model follows the code.

- `pbuf_dechain` promises NULL if the remainder was released (`LwIP/src/core/pbuf.c:884`). It tests a count of
  8 bits, so the promise fails exactly when the number released is a positive multiple of 256
  (`PbufOwner.Owner.Dechain`, `PbufOwner.DechainMisleads`).
- `_negotiate` queues a request for the remote end as section 7 of RFC 1143 asks, but does not send it when the
  earlier one is confirmed (`TcpShell/libtelnet.c:438-441`). `TelnetOption.RemoteAgreement` says exactly which
  runs suffer, `TelnetOption.RemoteForgets` shows one, and `TelnetOption.Agreement` that the own end is free of it.
  In exactly these runs the application has also been told DO last for an option that stays off
  (`TelnetOption.ToldAtRest`). `TelnetOption.ReceivesByRfc` shows that this is the only deviation from that section.
- The flags for binary transmission do not follow the option when BINARY is the first option stored or has lost its
  element (`TcpShell/libtelnet.c:327-350`). `TelnetTracker.BinaryFlags` says exactly when they do,
  `TelnetTracker.BinaryMissed` shows a tracker that agrees to BINARY and goes on to send text.
- Growing the array of option states copies as many bytes as it has elements, which have two bytes each
  (`TcpShell/libtelnet.c:339`), and clears only the last four. `TelnetStore.FaithfulExactly`: options are found as they
  were stored exactly as long as no option but BINARY is stored after the first. `TelnetDuoExact.DuoExactly`
  is the same for whole negotiations, and `TelnetDuoExact.DuoLoses` a negotiation of three options that ends with one
  of them off although it was asked for and granted: two that the shell calls for (`TcpShell/console.c:199-200`) and a
  third, with a table that lacks the second as the shell's does (`TcpShell/TcpServer.c:105-114`).
- The start of version 1 of the compression protocol skips the next byte of the same piece of input, or, at its end, passes
  on a DATA event of size -1 (`TcpShell/libtelnet.c:1093-1101` and `1174-1179`). `TelnetCut.CutExactly` says when the way input is
  cut matters, `TelnetCut.CutMatters` shows an input for which it does.
- A NEW-ENVIRON payload whose last byte is ESC is refused, also if that byte is itself escaped
  (`TcpShell/libtelnet.c:567-572`): `TelnetEnviron.EscapedRoundTrip`, `TelnetEnviron.EscapeRefused`.
- An MSSP event announces a setting for every VAL, also for one at the very end, for which none is decoded
  (`TelnetMssp.AnnouncedExactly`, `TelnetMssp.AnnouncedMisleads`, `TelnetMssp.MsspRoundTrip`).
- `pbuf_copy` documents errors for NULL and for a target that is too small only (`LwIP/src/core/pbuf.c:931-934`). It
  also refuses some chains that end in empty pbufs, because a pbuf followed by nothing but empty ones looks like the
  last of a packet in a queue, and it can run out of target although there is room. `PbufCopy.Accepts` is the
  condition on the lengths, computable before the call, and `PbufData.Buffers.Copy` succeeds exactly when it
  holds; `PbufCopy.CopyMisleads` shows two pairs of chains for which the promise fails.
- Aligning a request in `mem_malloc` and `mem_trim` can wrap the 16-bit size. A block returned has room for the
  request exactly up to 0xfffc bytes (`Mem.Heap.MemMalloc`), and `mem_trim` returns NULL for a block that is too
  small, as documented, exactly for sizes up to 0xfffc (`Mem.Heap.MemTrim`); above, it shrinks the block.
  `Mem.MallocMisleads` is a request that gets too little.
- `pbuf_alloc` sizes the block of a PBUF_RAM pbuf by a sum in 16 bits (`LwIP/src/core/pbuf.c:354`), although any length is
  allowed. `PbufOwner.RamFits` and `PbufOwner.RamBlockFits` say for which lengths the payload fits,
  `PbufOwner.RamMisleads` shows one that does not.
- `dns_compare_name` compares labels only, not what separates them and not the end of the query
  (`LwIP/src/core/dns.c:568-606`). `Dns.MatchMeans` says exactly what a match implies, `Dns.MatchMisleads` shows two
  different names that match. `Dns.MatchIsName` says exactly when a match is one of names.
- `dns_skip_name` promises the end of the name (`LwIP/src/core/dns.c:609-614`). `Dns.SkipExactly` says what it returns;
  for the name of the root it is never the end of that name (`Dns.SkipsTooMuch`).
- `mem_init` marks the end of the heap as used although the comment at its declaration calls it unused
  (`LwIP/src/core/mem.c:292-293`); nothing reads its `prev`.

## Model

| member | source | states |
|---|---|---|
| Mem.RequestCovers | LwIP/src/core/mem.c:612-619 | rounding a request up to the alignment in 16 bits covers the request exactly as long as it does not wrap around, and by less than one alignment unit when it is above the minimum; a request that is not, or that wraps around, gets the minimum |
| Mem.Heap.constructor | LwIP/src/core/mem.c:377-405 | the initial heap is one free block with `lfree` at its start, stored in the bytes of `ram`, and satisfies the whole invariant |
| Mem.Heap.PlugHoles | LwIP/src/core/mem.c:339-370 | starting from a list whose only holes are around the freed block, none is left; the live blocks and their bytes are as before, and `lfree` stays below every free block, and exact if it was |
| Mem.Heap.Join | LwIP/src/core/mem.c:352-360 | one merge removes exactly the hole at the merged block, rewrites the two links in the heap bytes, and keeps `lfree` and all live contents right |
| Mem.CarvedCovers | LwIP/src/core/mem.c:653-693 | the block carved for a request holds all its bytes exactly if the request is at most 0xfffc |
| Mem.TrimCovers | LwIP/src/core/mem.c:483-510 | the test that a block is too small for the new size is right exactly for sizes of at most 0xfffc |
| Mem.ByteStored | LwIP/src/core/mem.c:255-267 | a byte stored inside a live block changes no header and no other block's data |
| Mem.Heap.Store | LwIP/src/core/mem.c:718-737 | whatever the owner of a live block writes inside it, the heap invariant, the block list and all other live data are unchanged |
| Mem.Heap.MemFree | LwIP/src/core/mem.c:414-461 | an illegal pointer changes nothing; a live block is taken out of the live set and no other is touched in place or content; the invariant that also holds inside an interrupted allocation is kept; the other-context flag is raised |
| Mem.Heap.FreeBlock | LwIP/src/core/mem.c:438-456 | the same for the part under protection, including the lowering of `lfree` |
| Mem.Heap.MemTrim | LwIP/src/core/mem.c:473-590 | NULL exactly when the size after adjustment exceeds the heap or the block, which is when the block is too small for the request just for requests of at most 0xfffc; the live set changes in that one block only, which keeps its address and its bytes up to the new end; it ends where asked, with a free block behind, exactly if a free block followed or the tail can hold one; the invariant that also holds inside an interrupted allocation is kept; the other-context flag is raised exactly when the block is larger than requested |
| Mem.Heap.TrimLegal | LwIP/src/core/mem.c:507-589 | the same for a live block: the cases of equal size, of a larger size and of shrinking |
| Mem.Heap.TrimBlock | LwIP/src/core/mem.c:524-587 | the block ends where requested if a free block follows or the tail can hold one; otherwise it keeps its size; which of the two can be read off the live blocks |
| Mem.Heap.TrimDown | LwIP/src/core/mem.c:528-553 | the header of the free block behind moves down; tiling, back links, absence of holes and an exact `lfree` survive |
| Mem.Heap.TrimOff | LwIP/src/core/mem.c:554-576 | the tail becomes a free block; the same is kept |
| Mem.Heap.MemMalloc | LwIP/src/core/mem.c:598-738 | NULL exactly when the size is 0, exceeds the heap, or nothing fits at the moment of the decision; otherwise the lowest block that fits, cut to the adjusted size exactly if it has room for another block behind, and handed out whole otherwise; it has room for the request exactly up to 0xfffc bytes; the live blocks are what the frees and trims of other contexts, before and after the decision, leave of those of before and of it; every byte that stays live is kept, and `lfree` is exact at the end |
| Mem.MallocMisleads | LwIP/src/core/mem.c:598-738 | a heap of 64 bytes answers a request for 0xfffd bytes with a block of 12 |
| Mem.Heap.Allocate | LwIP/src/core/mem.c:623-737 | the same for the part under the mutex |
| Mem.Heap.Search | LwIP/src/core/mem.c:626-733 | the search restarted after every disturbance ends with a pass that was not disturbed; every restart uses up a change |
| Mem.Heap.Scan | LwIP/src/core/mem.c:634-656 | one pass from `lfree` finds the lowest block that fits, or shows that there is none, unless a change interferes |
| Mem.Heap.Pause | LwIP/src/core/mem.c:641-645 | the unprotected window: if the flag stays clear nothing has changed; `lfree` never rises above a free block |
| Mem.Heap.Window | LwIP/src/core/mem.c:642-644 | any number of frees and trims of blocks owned by other contexts in one window |
| Mem.Heap.ChangeFirst | LwIP/src/core/mem.c:414-590 | a free or trim from another context does to its block what it says and leaves all others live with their contents; without the flag it changed nothing |
| Mem.AfterWithin | LwIP/src/core/mem.c:414-590 | whatever other contexts do, every live block is one of before or one of before cut short |
| Mem.KeepsTaken | LwIP/src/core/mem.c:598-738 | of the blocks live at the end only the new one has contents that are not those of before |
| Mem.Heap.Commit | LwIP/src/core/mem.c:653-693 | the block taken has less than a minimal block more than was asked for; if there is room for another block behind it ends where asked and that one is free, otherwise the whole block is taken |
| Mem.Heap.Cut | LwIP/src/core/mem.c:669-681 | a header written inside a block keeps tiling and the contents of all blocks that remain live |
| Mem.Heap.Take | LwIP/src/core/mem.c:653-718 | the block becomes live and was not live before; the cache is repaired; contents are kept |
| Mem.Heap.AdjustLfree | LwIP/src/core/mem.c:694-717 | `lfree` is exact again although every step of the walk lets other contexts free and trim blocks; each restart uses up a change |
| Mem.Heap.NextFree | LwIP/src/core/mem.c:700-714 | an undisturbed walk from a used block stops at the lowest free block or the end of the heap |
| Mem.Heap.MallocThenFree | LwIP/src/core/mem.c:414-738 | freeing what an allocation returned restores the block list and `lfree` exactly |
| Mem.Heap.MallocTwice | LwIP/src/core/mem.c:653-693 | if the block a request is served from has room for another block of a second size behind, both requests are served, the first with exactly the adjusted size |
| Mem.RestFits | LwIP/src/core/mem.c:658-681 | behind the bytes taken from a larger block the rest is free, whatever list the live blocks have |
| Mem.CutTarget | LwIP/src/core/mem.c:524-576 | a live block cut down ends where asked, with a free block behind, exactly if a free block followed or the tail can hold one |
| Mem.Heap.FreeAll | LwIP/src/core/mem.c:414-590 | any frees and trims that leave nothing live, in any order, leave one free block and `lfree` at 0 |
| BlockList.Canonical | LwIP/src/core/mem.c:255-267 | in a well-formed heap the live blocks alone determine every header |
| BlockList.LowestUnique | LwIP/src/core/mem.c:294-295 | and the lowest free block, so the cache is determined as well |
| BlockList.AllFree | LwIP/src/core/mem.c:328-334 | with no live block the heap is one free block |
| BlockList.LiveDisjoint | LwIP/src/core/mem.c:255-267 | distinct live blocks share no byte |
| BlockList.Covered | LwIP/src/core/mem.c:255-267 | every byte of the heap lies in a block |
| BlockList.MergeOk | LwIP/src/core/mem.c:352-368 | merging two neighbours keeps the blocks tiling the heap with mutually inverse links |
| BlockList.MergeHoles | LwIP/src/core/mem.c:328-334 | it mends the hole at the first of them and makes no new one |
| BlockList.MergeBound | LwIP/src/core/mem.c:354-366 | no cache value below every free block needs to change for a merge |
| BlockList.SplitOk | LwIP/src/core/mem.c:669-681 | inserting a header inside a block keeps the tiling and the links, whether or not the end of the heap follows |
| BlockList.ShiftOk | LwIP/src/core/mem.c:528-551 | moving the header of a free block down keeps them, too |
| BlockList.AllocOk | LwIP/src/core/mem.c:653-693 | taking n bytes from a free block that fits keeps the list well formed and adds exactly the carved block to the live ones |
| BlockList.AllocFree | LwIP/src/core/mem.c:653-693 | it leaves all headers in place and makes nothing free at or below the block |
| BlockList.BeyondBound | LwIP/src/core/mem.c:637-638 | nothing fits at or behind the scan bound MEM_SIZE_ALIGNED - size |
| BlockList.FreeBound | LwIP/src/core/mem.c:446-451 | lowering `lfree` to the freed block keeps it below every free block, and at one |
| BlockList.TrimIntoFreeLive | LwIP/src/core/mem.c:528-553 | after trimming into a free neighbour there is no hole and only the trimmed block differs among the live ones |
| BlockList.TrimIntoNew | LwIP/src/core/mem.c:554-576 | the same when the tail becomes a new block |
| BlockList.OpenIs | LwIP/src/core/mem.c:527-528 | whether the block behind is free can be read off the live blocks |
| BlockList.TrimDownBound | LwIP/src/core/mem.c:533-537 | `lfree` stays below every free block when the free block behind moves down, and is exact if it was or if it is lowered |
| BlockList.TrimOffBound | LwIP/src/core/mem.c:564-566 | and when the tail becomes a new free block |
| Checksum.StandardChksum1 | LwIP/src/core/inet_chksum.c:80-118 | up to 0x20000 bytes: 16-bit representative of the one's-complement word sum; the accumulator does not overflow |
| Checksum.StandardChksum2 | LwIP/src/core/inet_chksum.c:120-175 | the same for any start alignment |
| Checksum.StandardChksum3 | LwIP/src/core/inet_chksum.c:177-256 | the same for any length and any alignment, with end-around carries |
| Checksum.AllVersionsAgree | LwIP/src/core/inet_chksum.c:80-256 | the three versions return the identical value within the common bound |
| Checksum.AddWords | LwIP/src/core/inet_chksum.c:142-160 | the word loop and the stray first and last bytes add exactly the word sum, without overflow |
| Checksum.FinishChksum | LwIP/src/core/inet_chksum.c:162-172 | two folds and the swap for an odd start turn the accumulated sum into the canonical value |
| Checksum.AddCarry | LwIP/src/core/inet_chksum.c:214-221 | adding with the carry brought back preserves the sum modulo 65535 and tells 0 from 65535 |
| Checksum.AddLoad | LwIP/src/core/inet_chksum.c:213-223 | one 32-bit load moves four bytes from the rest into the sum |
| Checksum.AddTail | LwIP/src/core/inet_chksum.c:228-246 | the tail of at most seven bytes is added without overflow after one fold |
| Checksum.ZeroSum | LwIP/src/core/inet_chksum.c:80-256 | the sum is 0 exactly for all-zero data |
| Checksum.BigIsSwapped | LwIP/src/core/inet_chksum.c:88-117 | summing network-order words gives the byte-swapped sum (section 2 (B) of RFC 1071) |
| Checksum.AppendSum | LwIP/src/core/inet_chksum.c:270-281 | the sum of a concatenation depends on the second part's sum and the parity of the first part only |
| Checksum.ShiftSum | LwIP/src/core/inet_chksum.c:131-172 | prepending one byte moves all others to the other half of their words |
| Checksum.FoldCong | LwIP/src/include/lwip/inet_chksum.h:50-53 | one fold keeps the sum modulo 65535; two bring any 32-bit value into 16 bits, one does for sums of two 16-bit values |
| Checksum.SwapCanon | LwIP/src/include/lwip/inet_chksum.h:45-48 | swapping the bytes of a folded sum multiplies what it stands for by 256 |
| ChksumChain.InetChksum | LwIP/src/core/inet_chksum.c:545-560 | complement of the Internet sum of the bytes |
| ChksumChain.InetChksumPbuf | LwIP/src/core/inet_chksum.c:562-590 | for every chain, cut in any way into odd or even pbufs at any addresses, the checksum of the flat bytes |
| ChksumChain.InetChksumPseudo | LwIP/src/core/inet_chksum.c:297-325 | the checksum of the pseudo header of section 3.1 of RFC 793 followed by the flat bytes |
| ChksumChain.InetChksumPseudoPartial | LwIP/src/core/inet_chksum.c:443-475 | the same over the first chksum_len payload bytes; a build with assertions gets there exactly if fewer than 0x7fff bytes remain behind the first pbuf |
| ChksumChain.ChainSum | LwIP/src/core/inet_chksum.c:267-286 | the loop over the chain, from any folded start value |
| ChksumChain.PartialSum | LwIP/src/core/inet_chksum.c:404-430 | the loop that stops after chksum_len bytes and tests the parity of the pbuf instead of that of the bytes added, and the exact condition under which its assertion holds |
| ChksumChain.AddPbuf | LwIP/src/core/inet_chksum.c:270-281 | one round keeps the accumulator within 16 bits and the swap flag equal to the parity of the bytes summed so far |
| ChksumChain.AddPiece | LwIP/src/core/inet_chksum.c:270-281 | adding the next pbuf's own sum is right when the flag tells that parity |
| ChksumChain.TurnOver | LwIP/src/core/inet_chksum.c:277-281 | swapping the accumulator changes over what it stands for |
| ChksumChain.AddressSum | LwIP/src/core/inet_chksum.c:314-322 | the two addresses are summed as four words and folded |
| ChksumChain.FinishPseudo | LwIP/src/core/inet_chksum.c:288-294 | protocol and length complete the pseudo header |
| PbufData.Buffers.CopyPartial | LwIP/src/core/pbuf.c:1003-1040 | exactly the available slice of the flat bytes |
| PbufData.Buffers.Skip | LwIP/src/core/pbuf.c:1092-1107 | the pbuf and the offset in it that hold the byte, or NULL exactly behind the end |
| PbufData.Buffers.TryGetAt | LwIP/src/core/pbuf.c:1303-1314 | the flat byte, or -1 exactly behind the end |
| PbufData.Buffers.PutAt | LwIP/src/core/pbuf.c:1325-1335 | changes exactly that flat byte, or nothing behind the end |
| PbufData.Buffers.Take | LwIP/src/core/pbuf.c:1136-1168 | overwrites the first bytes and nothing else, or fails without a change exactly when there is no buffer or not enough room |
| PbufData.Buffers.TakeAll | LwIP/src/core/pbuf.c:1150-1166 | the copy loop overwrites the first bytes of the flat view |
| PbufData.Buffers.TakeAt | LwIP/src/core/pbuf.c:1180-1201 | overwrites exactly the bytes from the offset on, or fails without a change exactly when the offset or the data reach behind the end |
| PbufData.Buffers.WriteAcross | LwIP/src/core/pbuf.c:1188-1198 | its two copies together are one write to the flat view |
| PbufData.PatchReads | LwIP/src/core/pbuf.c:1003-1201 | what was written at an offset is read back there, and every other byte is as before |
| PbufData.Buffers.Copy | LwIP/src/core/pbuf.c:936-990 | success exactly if the lengths of source and target meet `PbufCopy.Accepts`; ERR_ARG exactly for NULL, a target that is too small, or a source run out of target; ERR_VAL otherwise; success means the source is the prefix of the target, and nothing outside the target changes in any case |
| PbufData.Buffers.CopyAll | LwIP/src/core/pbuf.c:949-988 | the same for the copy loop |
| PbufData.QueueTail | LwIP/src/core/pbuf.c:974-985 | with right `tot_len` fields the packet-queue check refuses a pbuf exactly if others follow and none of them holds a byte |
| PbufCopy.Ended | LwIP/src/core/pbuf.c:949-990 | a run that reaches the end of the source without a refusal has met the condition |
| PbufCopy.Refused | LwIP/src/core/pbuf.c:974-985 | a run that a packet-queue check stops has not met it |
| PbufCopy.TargetEnds | LwIP/src/core/pbuf.c:970 | the target ends before the source only in the one case the condition names |
| PbufCopy.NoTailAccepted | LwIP/src/core/pbuf.c:936-990 | chains that do not end in an empty pbuf, or are a single pbuf, are always copied |
| PbufCopy.LongTailRefused | LwIP/src/core/pbuf.c:974-979 | a source of more than two pbufs that ends in an empty one never is |
| PbufCopy.CopyMisleads | LwIP/src/core/pbuf.c:931-990 | two pairs of chains with room for the whole source, the lengths [1] into [1, 0, 0] and [4, 0] into [2, 2], for which the documented promise fails |
| PbufData.Buffers.MemCmp | LwIP/src/core/pbuf.c:1348-1380 | 0 exactly for equal bytes, 0xffff for a chain that is too short, otherwise one more than the first difference |
| PbufData.Buffers.MemFind | LwIP/src/core/pbuf.c:1390-1404 | the least index from the start offset on where the bytes occur, 0xffff exactly when there is none |
| PbufBook.HasChain | LwIP/src/core/pbuf.c:282-300 | in every state the operations can reach, following `next` from a live pbuf ends at NULL |
| PbufBook.TotalsWrap | LwIP/src/include/lwip/pbuf.h:149-156 | the `tot_len` fields of a chain count the bytes to its end modulo 65536 |
| PbufBook.NoLeak | LwIP/src/include/lwip/pbuf.h:167-172 | when callers hold no reference any more, no pbuf is allocated |
| PbufBook.FreeStep | LwIP/src/core/pbuf.c:727-767 | releasing the next pbuf of the head run turns its `next` pointer into a reference to be dropped, and all counts stay right |
| PbufBook.FreeTotals | LwIP/src/core/pbuf.c:727-773 | the `tot_len` fields of all surviving pbufs stay right |
| PbufOwner.Owner.constructor | LwIP/src/core/pbuf.c:282-285 | an empty memory with all pool elements free satisfies the ownership invariant |
| PbufOwner.Owner.Free | LwIP/src/core/pbuf.c:704-780 | releases exactly the maximal head run of pbufs with count one, takes one reference off the next, changes nothing else and keeps every count equal to its references; the result is the number released in 8 bits |
| PbufOwner.Owner.FreeLoop | LwIP/src/core/pbuf.c:722-773 | the same for the loop |
| PbufOwner.Owner.AddRef | LwIP/src/core/pbuf.c:809-818 | one more reference for the caller and nothing else, in 16 bits; every count stays right exactly if this one was below 0xffff; NULL changes nothing |
| PbufOwner.Owner.Cat | LwIP/src/core/pbuf.c:828-852 | the joined chain holds the bytes of both, all counts and `tot_len` fields are right, and the caller's reference to the tail has become the link |
| PbufOwner.Owner.Chain | LwIP/src/core/pbuf.c:870-880 | the joined chain holds the bytes of both and the caller keeps its reference to the tail; without a head only the reference is added, without a tail nothing; the counts stay right exactly if the tail's was below 0xffff |
| PbufOwner.Owner.Bump | LwIP/src/core/pbuf.c:837-847 | every `tot_len` of the head chain grows by the tail's, and the last pbuf is found |
| PbufOwner.Owner.Dechain | LwIP/src/core/pbuf.c:887-916 | cuts the first pbuf off and releases from the rest exactly what nobody else refers to; the result is NULL exactly when the 8-bit count of those is not 0, and a returned pbuf is live exactly when none was released |
| PbufOwner.DechainMisleads | LwIP/src/core/pbuf.c:887-916 | a chain of 257 pbufs for which the returned tail has been released |
| PbufOwner.Owner.Realloc | LwIP/src/core/pbuf.c:482-545 | the chain holds exactly the first new_len bytes; the rest is released as by a free; no change when the chain is not longer |
| PbufOwner.Owner.ReallocWalk | LwIP/src/core/pbuf.c:501-515 | the walk stops at the pbuf that becomes the last, with the 16-bit `tot_len` fields in front of it adjusted |
| PbufOwner.Owner.ReallocCut | LwIP/src/core/pbuf.c:531-543 | the cut and the release of the tail |
| PbufOwner.Owner.Split64k | LwIP/src/core/pbuf.c:1055-1089 | two chains whose bytes joined are the original's; the front's `tot_len` fields are exact, the rest is unchanged but for the FIN flag, and the cut comes only before an empty pbuf or where the front would reach 64K |
| PbufOwner.Owner.SplitPoint | LwIP/src/core/pbuf.c:1059-1068 | the 16-bit sum stops exactly there |
| PbufOwner.Owner.AllocPool | LwIP/src/core/pbuf.c:281-351 | a chain of as many elements as needed whose bytes are the requested ones, with right counts and exact `tot_len`; NULL exactly when the pool holds fewer, and then everything taken has been given back |
| PbufOwner.Owner.AllocRest | LwIP/src/core/pbuf.c:312-346 | the same for the loop that extends the chain |
| PbufOwner.Owner.AllocRam | LwIP/src/core/pbuf.c:352-366 | one pbuf in a heap block, or no change |
| PbufOwner.RamFits | LwIP/src/core/pbuf.c:352-366 | the payload fits into what is requested exactly if the sum of the aligned sizes fits into 16 bits |
| PbufOwner.RamBlockFits | LwIP/src/core/pbuf.c:352-366 | and so it does into the block that `mem_malloc` carves out for the request, which can be larger |
| PbufOwner.RamMisleads | LwIP/src/core/pbuf.c:354-366 | for 65500 bytes behind the header of a TCP segment the block has 36 bytes |
| PbufOwner.Owner.AllocRef | LwIP/src/core/pbuf.c:367-385 | one pbuf from the pool of headers, NULL exactly when it is empty |
| PbufLink.CatLinks | LwIP/src/core/pbuf.c:828-852 | joining keeps every count equal to its references and all chains free of circles |
| PbufLink.CatTotals | LwIP/src/core/pbuf.c:836-847 | and every `tot_len` right |
| PbufLink.CatFlat | LwIP/src/core/pbuf.c:828-852 | and gives the concatenation of the bytes |
| PbufLink.CutOk | LwIP/src/core/pbuf.c:537-543 | cutting a chain gives two chains with right counts and `tot_len` fields |
| PbufGrow.BuildUndo | LwIP/src/core/pbuf.c:316-321 | giving back what an unfinished pool allocation took restores memory and references exactly |
| Memp.Pool.constructor | LwIP/src/core/memp.c:225-259 | the free list holds every element once |
| Memp.Pool.Sanity | LwIP/src/core/memp.c:93-113 | ends on every list and returns true exactly when following `next` reaches NULL |
| Memp.Meeting | LwIP/src/core/memp.c:104-108 | the two pointers meet or the fast one reaches the end after finitely many rounds |
| Memp.Circle | LwIP/src/core/memp.c:105-107 | pointers that meet are on a circle |
| Memp.Pool.Malloc | LwIP/src/core/memp.c:287-345 | an element that was not out, NULL exactly when the list is empty; free and outstanding elements stay a partition without duplicates |
| Memp.Pool.Free | LwIP/src/core/memp.c:403-440 | the element is free again, the partition is kept, and the sanity assertion holds |
| Memp.Pool.Scribble | LwIP/src/core/memp.c:313-340 | whatever a user writes into an outstanding element leaves the free list intact |
| Memp.ListEnds | LwIP/src/core/memp.c:99-113 | a free list without duplicates has no circle |
| Dns.WriteName | LwIP/src/core/dns.c:687-704 | the loop, with label lengths counted in 8 bits and refused writes ignored, on any chain |
| Dns.PutNameIs | LwIP/src/core/dns.c:690-704 | for labels of up to 255 bytes, good ones or not, it writes the encoded name in one stretch of strlen + 2 bytes |
| Dns.EncodedLength | LwIP/src/core/dns.c:678-679 | and that is the room the packet is allocated with |
| Dns.WriteQuery | LwIP/src/core/dns.c:677-713 | header, encoded name and query fill the allocated packet exactly, for labels of up to 255 bytes and however the packet is cut into pbufs |
| Dns.CompareName | LwIP/src/core/dns.c:568-606 | the offset behind a matching name or 0xffff, on the flat bytes |
| Dns.MatchMeans | LwIP/src/core/dns.c:568-606 | in packets below 65535 bytes a name matches exactly if it is whole, without compression, and every label is the stretch of the query at the label's own position, whatever stands at the separators and behind; the result is then the offset behind the name |
| Dns.MatchMisleads | LwIP/src/core/dns.c:568-606 | the response a.b is taken for the query a-b |
| Dns.MatchIsName | LwIP/src/core/dns.c:568-606 | for a query of non-empty labels of at most 63 bytes, a match is a match of the whole names exactly if the query has its dots and its end where the response has its labels, and no label of the response holds a dot or a NUL |
| Dns.DotInside | LwIP/src/core/dns.c:568-606 | the response with the one label a.b matches the query for the labels a and b, with nothing wrong at the separators |
| Dns.SkipOver | LwIP/src/core/dns.c:615-644 | the offset behind the name or compression pointer, in 16 bits, or 0xffff |
| Dns.SkipExactly | LwIP/src/core/dns.c:615-644 | in packets of at most 0xfffd bytes an offset is returned exactly if labels and a zero byte or a compression pointer stand there, and it is the one behind them |
| Dns.SkipsName | LwIP/src/core/dns.c:625-644 | in any packet, behind labels that end in a compression pointer the offset behind its two bytes, in 16 bits, of which only the first is read |
| Dns.SkipsTooMuch | LwIP/src/core/dns.c:630-641 | the name of the root, a zero byte alone, is never skipped rightly: the bytes behind it are taken to belong to it |
| Dns.NameFound | LwIP/src/core/dns.c:568-644 | an encoded name is matched by its own text, and both readers return the offset just behind it |
| Dns.RoundTrip | LwIP/src/core/dns.c:568-713 | what the writer puts into a packet both readers read back |
| Select.NoLostWakeup | LwIP/src/api/sockets.c:1359-1448 | over all interleavings: once a waiter's second scan has passed a socket without a hit, data, room or an error that it wants and that is still there when no callback for that socket is under way has signalled the waiter |
| Select.WokenInTime | LwIP/src/api/sockets.c:1575-1640 | and it was signalled since it went on the list, not in an earlier select |
| Select.ScanFinds | LwIP/src/api/sockets.c:1272-1442 | in every run a scan that is through has come to every socket below `max`, once and in order, and the thread leaves at once exactly if one of them, when the scan came to it, had data to read or left over, room to write or an error, and the waiter wanted that; otherwise it waits |
| Select.SelScan | LwIP/src/api/sockets.c:1272-1332 | the three sets reported hold exactly the sockets below `max` that were asked for and ready, and the count is that of all three |
| Select.SignalMeans | LwIP/src/api/sockets.c:1609-1640 | a waiter is signalled only while it is on the list, for something it wants that the socket has at that moment |
| Select.EventsRecorded | LwIP/src/api/sockets.c:1575-1596 | in every run a socket holds the balance of data arrived and fetched, the last report about writing, and any error ever reported |
| Select.SignalledOnce | LwIP/src/api/sockets.c:1575-1640 | each waiter is signalled at most once, `select_waiting` is the number of threads counted in, and 8 bits hold it for fewer than 256 waiters |
| Select.InvStep | LwIP/src/api/sockets.c:1333-1649 | every action keeps the list, the counts, the walks and the wake-up promise right |
| Select.InvRuns | LwIP/src/api/sockets.c:1333-1649 | so every run does |
| Select.RestInv | LwIP/src/api/sockets.c:286-289 | and the initial state satisfies it |
| Select.ListStep | LwIP/src/api/sockets.c:1388-1401 | exactly the threads inside select are on the list, once each |
| Select.CountStep | LwIP/src/api/sockets.c:1403-1472 | each action keeps the counts of waiting threads right |
| Select.CountFits | LwIP/src/api/sockets.c:1411-1414 | the counter does not overflow |
| Select.WalkStep | LwIP/src/api/sockets.c:1610-1649 | a callback that has not noticed a change stands at an element of the list |
| Select.CallbackKeeps | LwIP/src/api/sockets.c:1575-1649 | an event just reported is seen by its own callback, and takes no other waiter's callback away |
| Select.ResumeKeeps | LwIP/src/api/sockets.c:1640-1647 | going on, or starting over after a change, misses nobody |
| Select.OtherKeeps | LwIP/src/api/sockets.c:1333-1530 | threads entering, scanning and leaving take no promised wake-up away |
| Select.NotLostStep | LwIP/src/api/sockets.c:1333-1649 | the promise survives every action |
| Select.WalkStepEnds | LwIP/src/api/sockets.c:1610-1649 | a callback that goes on comes closer to its end |
| Select.WalksEnd | LwIP/src/api/sockets.c:1610-1649 | in any run in which the list does not change for a callback it takes fewer of its own steps than remained at the start, whatever happens in between, so it comes to its end |
| Netconn.Netconn.constructor | LwIP/src/api/api_msg.c:608-717 | a new TCP netconn has a pcb, no error, no flag set, no current message, and satisfies the invariant |
| Netconn.Netconn.DoConnect | LwIP/src/api/api_msg.c:1206-1276 | waits exactly for a blocking connect that TCP has accepted; every other case is acknowledged at once with its own error, and only an accepted connect changes the state |
| Netconn.Netconn.Connected | LwIP/src/api/api_msg.c:1155-1205 | the waiting connect, if any, is acknowledged once with the outcome; a fatal error recorded earlier stays |
| Netconn.Netconn.DoListen | LwIP/src/api/api_msg.c:1301-1380 | acknowledged once with the error of its case, successfully exactly when the netconn is listening afterwards; the pcb is lost only if the listening one has to be closed again |
| Netconn.Netconn.DoWrite | LwIP/src/api/api_msg.c:1637-1692 | starts a write and its first round, or is acknowledged at once with the error the state demands and changes nothing else |
| Netconn.Netconn.WriteMore | LwIP/src/api/api_msg.c:1487-1635 | if `tcp_write` accepts, the offset grows by the least of the rest, the free send buffer and 0xffff, otherwise not at all; the bytes accepted are exactly the prefix up to it; when the call ends, with which error and length: a blocking call with success only in a round in which the rest fitted, so that it has handed over everything |
| Netconn.RoundMeans | LwIP/src/api/api_msg.c:1535-1611 | what one round accepts, when it ends the call, and its result, for every combination of room and answers of tcp_write and tcp_output |
| Netconn.Netconn.RoomEndsWrite | LwIP/src/api/api_msg.c:1487-1635 | a blocking write that TCP keeps accepting, with any room at all in each round, is acknowledged once, with success, all of its data taken, in at most as many rounds as there are bytes |
| Netconn.Netconn.TakeAnswer | LwIP/src/api/api_msg.c:1573-1611 | offset, accepted bytes, length, result and end of the call for every combination of answers of tcp_write and tcp_output |
| Netconn.Netconn.DoClose | LwIP/src/api/api_msg.c:1758-1832 | refused without a pcb, during a connect, and for half a listener; otherwise as one attempt to close |
| Netconn.Netconn.DoDelete | LwIP/src/api/api_msg.c:997-1098 | acknowledged at once without a pcb, otherwise as one attempt to close both ends |
| Netconn.Netconn.CloseInternal | LwIP/src/api/api_msg.c:810-985 | goes on exactly if TCP lacks memory and polls are left, otherwise acknowledged once; without polls a full close aborts and succeeds; the pcb is gone exactly after a successful full close |
| Netconn.Netconn.Conclude | LwIP/src/api/api_msg.c:1613-1635 | the round's result is stored, and the call acknowledged once if it ends |
| Netconn.Netconn.Complete | LwIP/src/api/api_msg.c:947-976 | one acknowledgement, and no current message afterwards |
| Netconn.Netconn.Sent | LwIP/src/api/api_msg.c:333-366 | one more round of what is under way; nothing else changes in any other state, a connect included; the request to be told of free space is kept exactly while there is none |
| Netconn.Netconn.Poll | LwIP/src/api/api_msg.c:290-331 | the same on a timer, with one poll less for a stalled close |
| Netconn.Netconn.PollsEndClose | LwIP/src/api/api_msg.c:308-315 | whatever TCP answers, a stalled close is acknowledged once after at most as many polls as it had left |
| Netconn.Netconn.Failed | LwIP/src/api/api_msg.c:368-440 | the current call is acknowledged once, successfully if it was a close; no pcb and no current message remain |
| TelnetOption.OneRequest | TcpShell/libtelnet.c:363-508 | over all runs of calls and deliveries: at most one unanswered request, never a refusal answered by its opposite, every message of the kind its receiver expects |
| TelnetOption.DrainsInFour | TcpShell/libtelnet.c:363-508 | once calls stop at most four deliveries follow |
| TelnetOption.Agreement | TcpShell/libtelnet.c:449-508 | about the caller's own end every run comes to rest with both parties agreed; if the peer supports the option it is on exactly when the last call was WILL |
| TelnetOption.RemoteAgreement | TcpShell/libtelnet.c:390-447 | about the remote end this holds for exactly the runs in which no queued request is confirmed off |
| TelnetOption.RemoteForgets | TcpShell/libtelnet.c:438-441 | a run in which the queued DO is never sent: both channels are empty, the last call was DO, and the option stays off |
| TelnetOption.StuckRuns | TcpShell/libtelnet.c:438-441 | nothing the application calls afterwards gets out of that |
| TelnetOption.InvStep | TcpShell/libtelnet.c:363-508 | the relation between both option states and the channels that every action keeps, except the one that forgets |
| TelnetOption.InvRuns | TcpShell/libtelnet.c:363-508 | so every run keeps it |
| TelnetOption.ReceivesByRfc | TcpShell/libtelnet.c:363-508 | in every state a command received does what section 7 of RFC 1143 says, except exactly that a queued request for the remote end is not sent when the earlier one is confirmed |
| TelnetOption.CallsByRfc | TcpShell/libtelnet.c:1248-1331 | a call always does what that section says |
| TelnetOption.Ignored | TcpShell/libtelnet.c:363-508 | a command for the state an option is in stores, sends and tells nothing |
| TelnetOption.ReceivesTells | TcpShell/libtelnet.c:363-508 | the application is told exactly when the option goes on or off, by the verb received unless it had been asked to go off, and when a queued request is due or granted after all |
| TelnetOption.ToldAtRest | TcpShell/libtelnet.c:363-508 | over all runs: at rest the last verb the peer's application was told agrees with its option; the caller's does exactly in the runs that forget no queued request, so always about its own end |
| TelnetTracker.BinaryFlags | TcpShell/libtelnet.c:307-318 | when BINARY is stored the flags say what is stored exactly if there was an element for it, or they said so before |
| TelnetTracker.BinaryMissed | TcpShell/libtelnet.c:327-350 | a tracker for which BINARY is the first option agrees to it and goes on to send text |
| TelnetTracker.NegotiateByRfc | TcpShell/libtelnet.c:362-508 | state, answer and events for a verb received are those section 7 of RFC 1143 asks for, but for the request that is not sent |
| TelnetTracker.RequestByRfc | TcpShell/libtelnet.c:1248-1331 | likewise for a verb the application wants to send |
| TelnetTracker.AlreadySo | TcpShell/libtelnet.c:362-508 | a command for the state the option is in changes nothing and raises no event |
| TelnetDuo.DuoRefines | TcpShell/libtelnet.c:280-508 | in a run in which neither tracker stores an option but BINARY after its first, two trackers that exchange the bytes of their SEND events over channels take, for every option at either end, the steps of the two abstract parties |
| TelnetDuo.DuoOneRequest | TcpShell/libtelnet.c:280-508 | so in such runs at most one command about an option at one end is under way, and no refusal is answered by its opposite |
| TelnetDuo.DuoAgreement | TcpShell/libtelnet.c:280-508 | once all bytes of such a run are read both trackers hold an option of the caller's own end in the same settled state, the one the last call and the peer's support ask for; at the other end exactly in the runs that forget no queued request |
| TelnetDuoTold.DuoTold | TcpShell/libtelnet.c:363-508 | in such runs, once all bytes are read, the last option event at each tracker tells what it holds: the peer's always, the caller's exactly if no queued request was forgotten |
| TelnetDuoTold.RunSaid | TcpShell/libtelnet.c:363-508 | what the option events of a run say last is what the abstract parties are told last |
| TelnetDuoExact.DuoExactly | TcpShell/libtelnet.c:299-349 | exactly those runs take the steps of the abstract parties at every moment, for every option and end and whatever new memory holds |
| TelnetDuoExact.OneCalled | TcpShell/libtelnet.c:1248-1331 | every run whose calls are about a single option is one of them |
| TelnetDuoExact.DuoLoses | TcpShell/libtelnet.c:299-508 | a run that is not: WILL for the options 1, 3 and 24 with a peer that supports all three and a table without 3; everything is delivered, the last call was WILL, and 3 is off at both ends |
| TelnetDuoExact.ChunkReturned | TcpShell/libtelnet.c:975-1180 | a piece of several bytes read by the caller does what its bytes do one by one |
| TelnetStore.FaithfulExactly | TcpShell/libtelnet.c:280-349 | after every store each option is found in the array as it was last stored, whatever new memory held, exactly if no option but BINARY is stored after the first |
| TelnetStore.StoredTidy | TcpShell/libtelnet.c:299-349 | a store that finds an element, or no array, changes that option only, and does not depend on what new memory holds |
| TelnetStore.StoredLost | TcpShell/libtelnet.c:331-349 | any other store into an array that has grown once keeps two elements, takes two from new memory, and is not found if one of those has its number |
| TelnetStore.SecondIsAnything | TcpShell/libtelnet.c:331-349 | once two options are stored, the second can be found in any state |
| TelnetStore.SecondIsGone | TcpShell/libtelnet.c:331-349 | once a third is stored the second is not found at all, unless the memory holds its number or that of the third |
| TelnetStore.StoredWraps | TcpShell/libtelnet.c:331-349 | the array with 252 elements that is enlarged once more has length 0 in 8 bits, and every option is forgotten |
| TelnetDuo.ChunkDelivered | TcpShell/libtelnet.c:975-1180 | a piece of several bytes, cut anywhere, does what its bytes do one by one |
| TelnetDuo.WireFlat | TcpShell/libtelnet.c:353-360 | joining or splitting data events does not change what is sent |
| TelnetEnviron.Decode | TcpShell/libtelnet.c:522-660 | returns the decoding of the payload (section 2 of RFC 1572), every error case included, although it overwrites the buffer it reads; bytes behind the payload are untouched |
| TelnetEnviron.Parse | TcpShell/libtelnet.c:592-647 | the argument array points at the decoded strings once all entries are parsed |
| TelnetEnviron.ParseEntry | TcpShell/libtelnet.c:596-646 | one entry: its strings are written below the read position and earlier ones are not touched |
| TelnetEnviron.CopyString | TcpShell/libtelnet.c:599-617 | copies one string without escapes and terminates it, strictly behind the read cursor |
| TelnetEnviron.CountEntries | TcpShell/libtelnet.c:574-583 | counts the unescaped entry starts |
| TelnetEnviron.CountsEntries | TcpShell/libtelnet.c:574-595 | the counting pass and the parsing pass see the same number of entries |
| TelnetEnviron.EnvironRoundTrip | TcpShell/libtelnet.c:1586-1599 | entries whose strings hold none of the bytes 0 to 3 are recovered exactly |
| TelnetEnviron.EscapedRoundTrip | TcpShell/libtelnet.c:599-646 | entries whose strings hold any bytes, those that must be and any others escaped, are recovered up to the first NUL of each string; except that a payload whose last byte is ESC is refused even if that byte is escaped |
| TelnetEnviron.EnvironExactly | TcpShell/libtelnet.c:522-660 | a payload is accepted exactly if it is a command and such entries, and its last byte is not ESC |
| TelnetEnviron.EscapeRefused | TcpShell/libtelnet.c:565-571 | a value that is one escaped ESC is refused |
| TelnetTracker.RunAppend | TcpShell/libtelnet.c:975-1180 | state and events of two stretches in a row are those of the whole |
| TelnetTracker.NoMccp1Append | TcpShell/libtelnet.c:1093-1101 | the MCCPv1 start can be excluded stretch by stretch |
| TelnetCut.CutExactly | TcpShell/libtelnet.c:975-1238 | it does not matter how a stream is cut into pieces exactly if no byte of it is skipped by the MCCPv1 start |
| TelnetCut.AnyCuts | TcpShell/libtelnet.c:975-1238 | if none is, every cut gives the very state and events of the whole |
| TelnetCut.NoMccp1Free | TcpShell/libtelnet.c:1093-1101 | without that start none is skipped |
| TelnetCut.CutMatters | TcpShell/libtelnet.c:1093-1179 | a letter behind the start is dropped without a trace in one piece; cut in front of it, there is a DATA event of size -1 and one with the letter |
| TelnetMssp.Decode | TcpShell/libtelnet.c:662-738 | returns the settings of the payload and the number the event announces, every error case included, although it overwrites the buffer it reads; bytes behind the payload are untouched |
| TelnetMssp.CopyString | TcpShell/libtelnet.c:691-697 | copies one string and terminates it, strictly behind the read cursor |
| TelnetMssp.AnnouncedExactly | TcpShell/libtelnet.c:681-721 | the announced number is the number of settings exactly if the payload does not end in a VAL; it is never too small |
| TelnetMssp.AnnouncedMisleads | TcpShell/libtelnet.c:681-721 | a payload with one setting announced and none decoded |
| TelnetMssp.MsspRoundTrip | TcpShell/libtelnet.c:687-721 | names and values come back, each value with the name in front of it, exactly if the payload does not end in a VAL; an empty value at the end is lost |
| TelnetTracker.NegotiationArrives | TcpShell/libtelnet.c:353-360 | a negotiation command on the wire reaches the option state of its receiver |
| TelnetCodec.DataArrives | TcpShell/libtelnet.c:1333-1356 | escaped data arrives unchanged where no end-of-line translation is done |
| TelnetCodec.TextArrives | TcpShell/libtelnet.c:1358-1399 | text arrives as the same bytes at a non-binary NVT receiver (RFC 854, "The NVT Printer and Keyboard") |
| TelnetCodec.PayloadArrives | TcpShell/libtelnet.c:931-973 | an escaped payload of up to 16384 bytes is buffered whole |
| TelnetCodec.SubArrives | TcpShell/libtelnet.c:1411-1424 | a sub-negotiation of up to 16384 bytes, for any option but 85, arrives as one event with the same payload |
| TelnetCodec.ArgsOf | TcpShell/libtelnet.c:741-780 | splitting a ZMP payload gives the arguments it was made of |
| TelnetCodec.ZmpExactly | TcpShell/libtelnet.c:740-780 | the ZMP event is raised for exactly the payloads that some arguments make up, with these; the complaint for all that do not end in a NUL |
| TelnetCodec.ZmpArrives | TcpShell/libtelnet.c:1616-1630 | a ZMP argument list comes back with the same arguments |
| TelnetCodec.EnvironArrives | TcpShell/libtelnet.c:1584-1599 | NEW-ENVIRON entries come back as one event with the same names and values |
| TelnetCodec.EscapedArrives | TcpShell/libtelnet.c:522-660 | escaped entries come back over the wire as one event, or as the complaint about an ESC at the end |
| TelnetCodec.MsspArrives | TcpShell/libtelnet.c:662-738 | names and values come back over the wire as one event, exactly if the payload does not end in a VAL |
| TelnetCodec.TtypeArrives | TcpShell/libtelnet.c:782-828 | the terminal type told, a string without NUL, comes back as it was, and so does the question for it |
| TelnetStream.PlainArrives | TcpShell/libtelnet.c:1058-1067 | IAC and a command that is none of SB, WILL, WONT, DO, DONT and IAC raise that command and no data |
| TelnetStream.StreamArrives | TcpShell/libtelnet.c:979-1171 | any mixture of characters, ends of line, commands, negotiations, whole, broken off and too long sub-negotiations, ENVIRON values after which a byte is lost included: the data, commands, payloads and complaints of the trace are exactly those of the stream, in its order |
| TelnetStream.ItemArrives | TcpShell/libtelnet.c:979-1171 | each of these alone, and what it leaves in the tracker |
| TelnetStream.Mccp1Discarded | TcpShell/libtelnet.c:1087-1101 | the sequence that starts version 1 of the compression protocol is taken away whole |
| TelnetEngine.Telnet.constructor | TcpShell/libtelnet.c:879-895 | the initial state |
| TelnetEngine.Telnet.CheckTelopt | TcpShell/libtelnet.c:253-278 | true exactly if the first entry of the table for the option says so |
| TelnetEngine.Telnet.GetOption | TcpShell/libtelnet.c:280-297 | the state in the first element for the option, or the state of an unknown option |
| TelnetEngine.Telnet.SetOption | TcpShell/libtelnet.c:300-349 | the array with its 8-bit length, of which a growth copies half and leaves the rest as the memory was found; the BINARY flags follow only when an element for it is found |
| TelnetEngine.Telnet.NegotiateByte | TcpShell/libtelnet.c:362-508 | state, answer and events are those that section 7 of RFC 1143 asks for in the state found in the array, but for one request that is not sent; a command for the state the option is in stores, sends and tells nothing |
| TelnetEngine.Telnet.RequestOption | TcpShell/libtelnet.c:1248-1331 | likewise for the application's calls |
| TelnetEngine.Telnet.BufferByte | TcpShell/libtelnet.c:930-973 | appends the byte across every buffer growth, or reports overflow at exactly 16384 bytes |
| TelnetEngine.Telnet.Grow | TcpShell/libtelnet.c:952-967 | moving to a larger buffer keeps the payload |
| TelnetEngine.Telnet.StrLen | TcpShell/libtelnet.c:755-756 | the string up to the first NUL |
| TelnetEngine.Telnet.CountArgs | TcpShell/libtelnet.c:754-756 | the number of NUL-terminated strings |
| TelnetEngine.Telnet.CollectArgs | TcpShell/libtelnet.c:765-769 | the strings themselves |
| TelnetEngine.Telnet.ZmpTelnet | TcpShell/libtelnet.c:740-780 | one event with the arguments, or the complaint |
| TelnetEngine.Telnet.TtypeTelnet | TcpShell/libtelnet.c:782-828 | the terminal type event or the complaint that the payload calls for |
| TelnetEngine.Telnet.EnvironTelnet | TcpShell/libtelnet.c:522-660 | the event or complaint for the decoded payload, and whether input has to be processed anew |
| TelnetEngine.Telnet.MsspTelnet | TcpShell/libtelnet.c:662-738 | the event or complaint for the decoded payload |
| TelnetEngine.Telnet.Subnegotiate | TcpShell/libtelnet.c:831-877 | the payload event and what the decoder of the option makes of it |
| TelnetEngine.Telnet.OneByte | TcpShell/libtelnet.c:979-1171 | one round of the loop advances state and trace as that byte alone would, or the rest of the input has been processed by re-entry |
| TelnetEngine.Telnet.EolByte | TcpShell/libtelnet.c:1007-1024 | CR NUL, CR LF and the invalid sequences |
| TelnetEngine.Telnet.CommandByte | TcpShell/libtelnet.c:1026-1069 | the byte behind IAC: a command without arguments is raised as one, IAC is data, the others raise nothing and go on |
| TelnetEngine.Telnet.PayloadByte | TcpShell/libtelnet.c:1102-1106 | a payload byte, or the end of a sub-negotiation that is too long |
| TelnetEngine.Telnet.SubEnd | TcpShell/libtelnet.c:1112-1129 | the end of a payload, with re-entry after an ENVIRON event |
| TelnetEngine.Telnet.SubBroken | TcpShell/libtelnet.c:1141-1167 | an invalid byte behind IAC in a payload, taken as a command by a recursive call |
| TelnetEngine.Telnet.Process | TcpShell/libtelnet.c:975-1238 | whatever the state, a piece of input leaves the state and trace that its bytes one by one would, and at its end everything pending is passed on |
| TelnetEngine.Telnet.Feed | TcpShell/console.c:95-99 | state and trace of pieces fed one after the other are those of the pieces |
| TelnetEngine.Telnet.FeedAnyhow | TcpShell/console.c:95-99 | without the MCCPv1 start they are those of the whole, however the input is cut; feeding single bytes is one way of cutting |
| TelnetEngine.Telnet.Send | TcpShell/libtelnet.c:1333-1356 | only SEND events, whose bytes are the escaped data |
| TelnetEngine.Telnet.SendText | TcpShell/libtelnet.c:1358-1399 | only SEND events, whose bytes are the translated text |
| TelnetEngine.Telnet.SendSub | TcpShell/libtelnet.c:1410-1424 | only SEND events, whose bytes are the framed and escaped payload |
| TelnetEngine.Telnet.SendZmp | TcpShell/libtelnet.c:1616-1630 | likewise for an argument list |
| TelnetEngine.Telnet.SendEnviron | TcpShell/libtelnet.c:1584-1599 | likewise for a list of entries |
| TelnetEngine.Telnet.SendValue | TcpShell/libtelnet.c:1591-1599 | likewise for one type and string |
| TelnetEngine.DeliverText | TcpShell/libtelnet.c:975-1399 | text written by one end, cut in any way on the wire, is handed over as it was by the other end |
| TelnetEngine.DeliverData | TcpShell/libtelnet.c:975-1356 | the same for data where no end-of-line translation is done |
| TelnetEngine.DeliverSub | TcpShell/libtelnet.c:931-1424 | the same for sub-negotiations |
| TelnetEngine.DeliverStream | TcpShell/libtelnet.c:975-1238 | whatever mixture a stream says is heard in its order, however the stream is cut |

## Left out

- PbufData.Buffers.MemFind: for `tot_len` up to 0xfffe, as its documentation demands, since 0xffff means not found.
- PbufOwner.Owner.Cat: for two whole chains without a common pbuf; the same holds for the chains given to `pbuf_dechain`, `pbuf_realloc` and `pbuf_split_64k`, which must not be shared from the middle.
- PbufOwner.Owner.Realloc: unlinks the tail before releasing it, where the code does so afterwards; shrinking the memory of a PBUF_RAM pbuf by `mem_trim` does not show in the model.
- PbufOwner.Owner.AllocPool: the header offset is a parameter instead of being looked up from the layer; the callback for an empty pool is not modelled.
- PbufOwner.Owner.AllocRam: the pbuf gets all the bytes its length records; the heap block behind it, which is smaller for the lengths that `PbufOwner.RamFits` excludes, is not part of the pbuf model.
- PbufData.Buffers.Take: the data is a sequence, so the NULL test of its pointer is not modelled.
- TelnetEngine.Telnet.Process: allocation succeeds, and handlers neither call back nor change flags.
- TelnetMssp.Decode: a setting that is announced but not decoded, whose pointers the source leaves uninitialised, does not show in the event; nor does the byte read behind the payload, which is not used.
- TelnetOption.Agreement: the peer only answers, and what it supports does not change during a run.
- Select.NoLostWakeup: sockets stay open, the counters of list changes and received events are unbounded, and the links of the list, semaphores and time-outs are not captured: a waiter may stop waiting at any time. The scans before a thread goes on the list and after it has left are `Select.SelScan`, but no steps of a run. Modelled on values because the stretches of many threads interleave.
- Netconn.Netconn.WriteMore: no send time-out; the same for the close timeout and SO_LINGER.
- Netconn.Netconn.DoDelete: one outstanding call, so the ERR_INPROGRESS answers of `lwip_netconn_do_delconn` and `lwip_netconn_do_close` cannot arise; closing a listening pcb or one that has only sent its SYN succeeds, as `tcp_close` does.
- Dns.CompareName: the query text is a function from positions to bytes; what lies behind its end is not known to be anything.
- Dns.NameFound: packets of at most 65535 bytes, and names of non-empty labels of at most 63 bytes.
- Memp.Pool.constructor: the elements' addresses are given as a list without duplicates.
- Mem.Heap.constructor: heaps of up to 64000 bytes, for which `mem_size_t` has 16 bits.
- `mem.c`: the libc and pool variants, statistics, and `prev` of the end marker, which splits do not maintain and nothing reads.
- `inet_chksum.c`: copying with checksum and the IPv6 pseudo header, whose sums are the same loops with more words.
- `pbuf.c`: moving the payload pointer (`pbuf_header`), custom pbufs, `pbuf_coalesce`, `pbuf_fill_chksum`, the queue of out-of-sequence data, and interrupt protection.
- `memp.c`: overflow checks, statistics, and pools backed by the heap.
- `dns.c`: the table of requests, time-outs and the parsing of answers.
- `api_msg.c`: core locking, full duplex, RAW and UDP, mailboxes, and the events for select.
- `libtelnet.c`: compression, proxy mode, `telnet_ttype_is`, the printf family, and message texts.
- `tcp.c`, the console and the shell's applications, and everything that drives the hardware.
