# Manticore, verified

A Dafny model of the parts of the Manticore kernel and its user-space library where a small
abstract meaning stands behind a lot of address and offset arithmetic:

- **Flattened device trees** (`Fdt*.dfy`, `Bytes.dfy`). A blob is a byte array with header fields; its
  meaning is a tree of named nodes and properties. The format is that of chapter 5 of the Devicetree
  Specification. The layers are: bytes and tokens (`FdtFormat`), tokens and trees (`FdtTree`,
  `FdtNodes`, `FdtProps`, `FdtEdits`), memory reservations (`FdtRsv`), reading (`FdtRo`, `FdtPath`, `FdtAlias`,
  `FdtGetPath`), editing in place (`FdtSplice`, `FdtRw`, `FdtWip`, `FdtAddNode`), writing sequentially
  (`FdtReloc`, `FdtSw`, `FdtFinish`). Every reader is proved against the tree, every editor against a function
  on trees and to leave the bytes around the tree, the reservations among them, and the writer against the reader.
- **x86-64 page tables** (`Paging.dfy`, `PageTable.dfy`, `Words.dfy`, `MapRange.dfy`). The processor's walk
  (sections 4.5 and 4.6 of the Intel Software Developer's Manual, volume 3A) is a function on memory; user code
  gets through only if every table on the way lets it. The mapping code is proved to change exactly the
  translations it is asked to change, its answers to depend only on the requests before and the number of free
  pages, and the tables to stay a tree.
- **The ring buffer between kernel and processes** (`RingBuffer.dfy`): the operations as a class, and
  every interleaving of one producer and one consumer, each acting on stale indices.
- **malloc** (`Malloc.dfy`): segments, pages, free lists threaded through the free blocks; what a client writes to
  an object is what it reads from it.
- **The kernel's page arena** (`Arena.dfy`): split at the front, joined on both sides when freed.
- **The scheduler** (`Scheduler.dfy`), **the Internet checksum** (`Checksum.dfy`), **the ARP cache**
  (`ArpCache.dfy`) and **number printing** (`NumberFormat.dfy`).

Code that updates fields and buffers in place is a class or a method with `modifies`; loops are loops.
Each such method is proved against a specification on values, and the lemmas are about that
specification. The system, the network and randomness are parameters: the pages and segments an
allocator will hand out are a list, and an interleaving is a list of steps.

Where a property the code is meant to have fails for some inputs, the exact condition is proved, and
an input at which it fails is given:

- a walk over tags ends unless it reaches a property whose length is 2^32 - 12: `NextTagAdvances`,
  `AdvancesIff`; `StandsStill`.
- the path of a node is asked for in front of the end of the root, or, where no name holds a slash, the code
  reads before the buffer: `GetPath`; `PastTheRoot`.
- a node is found by its offset or by its path unless padding stands in front of the root: `GetPath`,
  `PathOffset`; `PaddedRoot`.
- the path of a node is built right unless a node closed before it has a slash in its name and a path that
  fits: `GetPath`; `TornPath`.
- the path of a node leads back to it unless a name on it is empty or holds a slash, an earlier sibling
  matches, or the root has a name that is no alias for it: `PathLeadsBack`, `PathRoundTrip`;
  `PathLeadsAstray`, `NamedRoot`.
- a path that starts with an alias can be looked up unless following aliases runs into a circle:
  `AliasesEnd`; `AliasOfItself`.
- a child can be added unless the parent is the error code "not found" and there is room: `AddSubnode`;
  `AddedToNothing`.
- a node can be removed unless it is the root: `DelNode`, `NopNode`; `RootRemoved`.
- the space test of the sequential writer is right unless the blocks overlap already: `GrabMeansRoom`,
  `Create`; `GrabsTooMuch`.
- reservations are read back as they were written unless one has no size: `BeforeEnd`, `WriteBlob`;
  `SizelessReservation`.
- a page is mapped as asked unless its physical address is not that of a frame, or it is for user code and a
  table on its way was made for a page that was not: `PageRight`; `PageWrong`, `ShutOut`.
- a range is mapped as asked unless a large page is used where the addresses differ modulo 2 MiB, or it is for user
  code and an older table shuts that out: `BlockRight`, `RightIff`, `MapAddressRange`; `BlockWrong`,
  `MisplacedRange`, `ShutOut`.
- aligning up is right unless it wraps around: `AlignUpRight`; `AlignUpWraps`.
- an object of at most 1023 bytes has a size class unless it has more than 1016: `ClassInRange`, `Malloc`;
  `ClassOutOfRange`.
- a span of memory is divided exactly unless it lies inside one large page: `SpanExact`; `SpanTooSmall`.
- an element can be popped unless the queue is empty: `Pop`; `PopFresh`.
- an address can be entered in the ARP cache unless it is new and the cache is full: `FullKnows`, `Insert`;
  `InsertTooMany`.

## Model

| member | source | states |
|---|---|---|
| FdtFormat.ReadTag | lib/libfdt/fdt.c:94-142 | the tag reader, with its byte loop over a node's name, returns what the pure reader NextTag returns for every window and offset, all error codes included |
| FdtFormat.TagErrors | lib/libfdt/fdt.c:94-142 | truncated if and only if the window is too short for a tag; bad structure if and only if there is one without an end of its name or value, or of no known kind; no other error |
| FdtFormat.Codes | lib/libfdt/libfdt.h:61-104 | the numbers of the tags and of the errors |
| FdtFormat.NextTagAdvances | lib/libfdt/fdt.c:94-142 | an accepted tag moves the offset forward if and only if the bytes there are not a property tag with a length of 2^32 - 12 |
| FdtFormat.StandsStill | lib/libfdt/fdt.c:119-126 | eight such bytes, on which the reader returns the offset it was given |
| FdtFormat.NextTagAt | lib/libfdt/fdt.c:94-142 | wherever an encoded token stands in a block, the reader returns its tag and the offset of the next token |
| FdtFormat.WalkIffBlock | lib/libfdt/fdt.c:94-142 | printer and parser agree: a window reads whole as a token sequence if and only if it is an encoding of that sequence |
| FdtFormat.EncodesReplace | lib/libfdt/fdt_rw.c:97-137 | exchanging the bytes of a run of tokens for an encoding of others exchanges exactly those tokens |
| FdtTree.ParseIff | lib/libfdt/fdt.c:94-142 | unique readability: an event sequence parses to a tree if and only if it is the linear form of that tree |
| FdtTree.FlattenPut | lib/libfdt/fdt_rw.c:272-288 | replacing a node replaces its stretch of the linear form and leaves all before and behind it |
| FdtTree.FlattenPrune | lib/libfdt/fdt_rw.c:378-390 | pruning a node cuts exactly its stretch out of the linear form |
| FdtTree.MeaningExtend | lib/libfdt/fdt_rw.c:152-172 | appending to the strings block changes the meaning of no token |
| FdtNodes.NodeSpan | lib/libfdt/fdt_wip.c:118-126 | every node of the tree occupies one run of tokens, from its begin tag to the end tag the depth count finds, at any nesting |
| FdtNodes.NodePathUnique | lib/libfdt/fdt_ro.c:183-226 | a begin tag belongs to exactly one path of the tree |
| FdtProps.PropSearch | lib/libfdt/fdt_ro.c:134-156 | the property search over tokens, padding skipped, finds exactly the first property of a name |
| FdtEdits.PropEdit | lib/libfdt/fdt_rw.c:203-247 | exchanging tokens among a node's properties changes that node's properties and nothing else in the tree |
| FdtEdits.RemoveNode | lib/libfdt/fdt_wip.c:128-139 | cutting a node's tokens out, or writing padding over them, gives the tree without that node, and for the root nothing at all |
| FdtRo.AdvancesIff | lib/libfdt/fdt.c:94-142 | a walk from tag to tag always gets further, and so ends, if and only if it reaches no property whose length is 2^32 - 12 |
| FdtRo.NextNode | lib/libfdt/fdt.c:162-200 | the walk to the next node reports the next begin tag and its depth, the end tag that left the node, or the end; errors and progress on any input |
| FdtRo.NodeEndOffset | lib/libfdt/fdt_wip.c:118-126 | the end of a node is the offset just past the end tag that matches its begin tag |
| FdtRo.NextProp | lib/libfdt/fdt_ro.c:134-156 | the next property of the same node, padding skipped, or the reason there is none |
| FdtRo.GetProperty | lib/libfdt/fdt_ro.c:292-314 | the lookup finds the first property of that name of that node, its length, or the error |
| FdtRo.FindString | lib/libfdt/fdt.c:230-240 | the first place where a string stands in the strings block, whole or as the tail of another, if and only if there is one |
| FdtRo.PathOffsets | lib/libfdt/fdt_ro.c:183-226 | offsets and tree paths name the same nodes, both ways |
| FdtRsv.NumMemRsv | lib/libfdt/fdt_ro.c:125-132 | the loop counts the entries in front of the first one of no size |
| FdtRsv.GetMemRsv | lib/libfdt/fdt_ro.c:117-123 | the address and size of any of those entries |
| FdtRsv.EntriesRead | lib/libfdt/fdt_sw.c:142-168 | entries written behind each other, one of them without size, are read back up to the first such one |
| FdtRsv.BeforeEnd | lib/libfdt/fdt_ro.c:125-132 | a prefix, and all of the entries if and only if each has a size |
| FdtRsv.SizelessReservation | lib/libfdt/fdt_sw.c:142-168 | behind a reservation of no size another one is lost |
| FdtBlob.Fdt.CheckHeader | lib/libfdt/fdt.c:58-75 | bad magic, bad version and bad state each if and only if the header fields are so |
| FdtBlob.OffsetPtrIsWindow | lib/libfdt/fdt.c:77-92 | on a laid-out blob the wrapping 32-bit pointer test admits exactly the bytes of the structure block |
| FdtSplice.Splice | lib/libfdt/fdt_rw.c:97-110 | moving the data opens or closes a gap, or fails for want of room, with the exact buffer afterwards |
| FdtSplice.SpliceStruct | lib/libfdt/fdt_rw.c:125-137 | a structure splice exchanges the given bytes and keeps the strings block, although it moves, and all bytes in front of the structure and behind the blob |
| FdtSplice.FindAddString | lib/libfdt/fdt_rw.c:152-172 | the name is found or appended, can be read at the offset returned, and fails if and only if it is missing and does not fit; structure, bytes in front and bytes behind stay |
| FdtRw.Misread | lib/libfdt/fdt.c:144-151 | the value of a property in a readable blob passes the begin-tag check although no node is there |
| FdtRw.SetProp | lib/libfdt/fdt_rw.c:272-288 | setting a property gives the same tree with that property of that node set, the node still at its offset under its path; no room if and only if the growth does not fit; on failure the same tree; the memory reservations and all bytes in front of the structure and behind the blob stay; the structure block is the old one with the property's bytes exchanged or put in |
| FdtRw.ResizeProperty | lib/libfdt/fdt_rw.c:203-219 | an existing property gets a new value, and the other bytes stay, or the error says why not, with the exact room condition |
| FdtRw.AddProperty | lib/libfdt/fdt_rw.c:221-247 | a new property goes in front, its name into the strings, with the exact room condition |
| FdtRw.GetProp | lib/libfdt/fdt_ro.c:324-353 | reading a property returns the value the tree has for that name at that node, or the error |
| FdtRw.SetThenGet | lib/libfdt/fdt_rw.c:272-288 | what was set is read back, byte for byte, and setting fails only for want of a node or of room; reservations stay |
| FdtRw.DelProp | lib/libfdt/fdt_rw.c:317-330 | deleting gives the tree without that property, and fails if and only if there is no such node or property; strings, reservations and the bytes around stay |
| FdtRw.AddThenDelete | lib/libfdt/fdt_rw.c:272-330 | adding a property the node lacks and deleting it again restores the structure block byte for byte, and leaves the reservations |
| FdtRw.DelNode | lib/libfdt/fdt_rw.c:378-390 | deleting a node cuts exactly its bytes out and gives the tree without it, and leaves a tree if and only if the node is not the root; each error if and only if its cause; strings, reservations and the bytes around stay |
| FdtWip.NopRegion | lib/libfdt/fdt_wip.c:96-102 | the bytes, rounded up to whole tags, become padding tags and the rest of the blob stays |
| FdtWip.NopProperty | lib/libfdt/fdt_wip.c:104-116 | padding over exactly the bytes of a property gives the tree without it; each error if and only if its cause; strings, reservations and the bytes around stay |
| FdtWip.NopNode | lib/libfdt/fdt_wip.c:128-139 | padding over exactly the bytes of a node gives the tree without it, and leaves a tree if and only if the node is not the root; each error if and only if its cause; strings, reservations and the bytes around stay |
| FdtWip.RootRemoved | lib/libfdt/fdt_wip.c:128-139 | whether cut out or padded over, the root of the smallest blob leaves a block that is no tree |
| FdtWip.NopOrDelete | lib/libfdt/fdt_wip.c:128-139 | padding over a node and splicing it out leave blobs with the same tree, or both leave none |
| FdtAddNode.AddSubnode | lib/libfdt/fdt_rw.c:332-376 | an empty node becomes the first child and the result is its offset; each of the three errors if and only if its cause; other error codes given for the parent are returned, except that "not found" lets the node be written in front of the block if it fits, over the last bytes of what stands there; the blob stays well formed if and only if that does not happen, and then its reservations stay |
| FdtAddNode.NodeInFront | lib/libfdt/fdt_rw.c:350-371 | a structure block that starts with the rest of such a node stands for no tree, whatever the name |
| FdtAddNode.AddedToNothing | lib/libfdt/fdt_rw.c:332-371 | a node named "a" added to no parent makes the smallest blob unreadable |
| FdtPath.NodenameMatches | lib/libfdt/fdt_ro.c:58-76 | the byte comparison behind a begin tag decides whether the name equals the component, whole or up to the unit address |
| FdtPath.MatchesMeans | lib/libfdt/fdt_ro.c:58-76 | a component names a node if and only if it is its whole name or, having no at sign itself, all in front of an at sign |
| FdtPath.SubnodeOffset | lib/libfdt/fdt_ro.c:158-175 | the offset of the first matching child among the tokens, or not found; bad offset if there is no node, and a negative offset is returned as it is |
| FdtPath.ChildPlace | lib/libfdt/fdt_ro.c:158-175 | the child the token search finds is the first child of the tree node that matches, and none exactly if none matches |
| FdtPath.Descend | lib/libfdt/fdt_ro.c:206-225 | following a path down from a node leads to the node the tree has there, taking the first match at each step, or is not found; error codes given for the node come back |
| FdtPath.ResolveConcat | lib/libfdt/fdt_ro.c:206-225 | following names and then more names is following all of them |
| FdtAlias.GetAlias | lib/libfdt/fdt_ro.c:372-382 | the string the property of that name has in the node /aliases, if it has a terminator; none if and only if there is no such property or padding stands in front of the root |
| FdtAlias.PathOffset | lib/libfdt/fdt_ro.c:183-231 | a path, which may start with an alias that may stand for another, leads to the node the tree has there; not found or bad path if and only if a name or an alias is missing; it runs out of stack if and only if more aliases follow each other than there is room for nested calls; the outcome also where padding stands in front of the root |
| FdtAlias.MeantOnce | lib/libfdt/fdt_ro.c:191-204 | where a path leads does not depend on how many aliases are followed, once it leads somewhere |
| FdtAlias.MeantOnwards | lib/libfdt/fdt_ro.c:183-226 | a path that goes on behind another leads on from where that one does, or to its error |
| FdtAlias.AliasExpands | lib/libfdt/fdt_ro.c:191-204 | writing a non-empty value for an alias at the start of a path leads to the same node or the same error |
| FdtAlias.AliasesEnd | lib/libfdt/fdt_ro.c:191-204 | a path leads somewhere or to an error if and only if it starts with a slash or following its aliases never comes back to one; then it does so after at most as many aliases as there are |
| FdtAlias.AliasOfItself | lib/libfdt/fdt_ro.c:191-204 | in a tree with the node /aliases an alias that stands for itself is a circle |
| FdtGetPath.GetPath | lib/libfdt/fdt_ro.c:389-439 | the buffer ends up holding the node's path, no room if it does not fit, bad offset if there is no node there; another string or no room if a node closed before has a slash in its name and was in the buffer; reading before the buffer only if the offset is not in front of the end of the root, and always then if no name holds a slash |
| FdtGetPath.NodeInRoot | lib/libfdt/fdt_ro.c:389-439 | every node lies in front of the end of the root |
| FdtGetPath.PopTo | lib/libfdt/fdt_ro.c:403-408 | stepping back over names leaves the names of the enclosing nodes, or, if one of those dropped holds a slash, more slashes than they have; behind the root it leaves the buffer if no name holds one |
| FdtGetPath.TornPath | lib/libfdt/fdt_ro.c:403-420 | the path of "c" behind a sibling named "/" is built wrong if and only if the buffer has room for that one's |
| FdtGetPath.PaddedRoot | lib/libfdt/fdt_ro.c:183-231 | behind one padding tag the root of the smallest blob is at offset 4, and no node at offset 0 |
| FdtGetPath.PastTheRoot | lib/libfdt/fdt_ro.c:400-408 | in the smallest blob offset 12 is not in front of the end of the root |
| FdtGetPath.ComponentsOfPath | lib/libfdt/fdt_ro.c:183-226 | splitting a path string at its slashes gives the components of each of the names it was joined from |
| FdtGetPath.PathLeadsBack | lib/libfdt/fdt_ro.c:158-226 | looking up a node's own path leads back to it if and only if every name on it is there and holds no slash, no earlier sibling matches on the way, and the root has no name or one that is an alias for it; a root name that is no alias is a bad path |
| FdtGetPath.NamedRoot | lib/libfdt/fdt_ro.c:191-201 | the path of "a" below a root named "r" is "r/a", and is a bad path |
| FdtGetPath.PathLeadsAstray | lib/libfdt/fdt_ro.c:58-226 | the path of a node "a" behind a sibling "a@1" leads to that sibling |
| FdtGetPath.PathRoundTrip | lib/libfdt/fdt_ro.c:183-439 | the offset found for the path built for a node, if it is built right, is its own offset under the same if-and-only-if condition |
| FdtReloc.SaysPrepended | lib/libfdt/fdt_sw.c:200-221 | strings put in front of the block change no name written before, because offsets count from the end |
| FdtSw.GrabMeansRoom | lib/libfdt/fdt_sw.c:73-86 | the mixed signed and unsigned space test means there is room, for all requests, if and only if the blocks do not overlap already |
| FdtSw.GrabsTooMuch | lib/libfdt/fdt_sw.c:73-86 | four bytes are granted where the structure starts eight bytes behind the end of the buffer |
| FdtSw.Create | lib/libfdt/fdt_sw.c:88-108 | a created blob is empty; its blocks lie inside the buffer if and only if it has 48 bytes |
| FdtSw.AddReservemapEntry | lib/libfdt/fdt_sw.c:142-163 | exactly the entry's 16 bytes are put behind those there, in front of the structure, or the error tells and nothing changes; whether the blocks still do not overlap |
| FdtSw.WriteBegin | lib/libfdt/fdt_sw.c:170-184 | what was written so far, plus one opening, if and only if it fits; the blocks never overlap; the bytes in front of the structure stay |
| FdtSw.WriteEnd | lib/libfdt/fdt_sw.c:186-198 | what was written so far, plus one closing, if and only if it fits; the bytes in front of the structure stay |
| FdtSw.FindAddString | lib/libfdt/fdt_sw.c:200-221 | the name stands at the offset returned, counted from the end of the buffer; no room if and only if it is missing and does not fit |
| FdtSw.WriteProperty | lib/libfdt/fdt_sw.c:223-243 | what was written so far, plus one property with its name, if and only if both fit; the bytes in front of the structure stay |
| FdtFinish.Relocate | lib/libfdt/fdt_sw.c:266-281 | walking the finished structure makes every name offset count from the start of the strings and changes no other token |
| FdtFinish.Finish | lib/libfdt/fdt_sw.c:245-288 | if the end tag fits, the finished blob denotes whatever tree the calls spelled out, with the same bytes in front of it; no room if and only if it does not fit, and then all stays |
| FdtFinish.WriteTree | lib/libfdt/fdt_sw.c:170-243 | writing a tree call by call succeeds if and only if it fits, shared strings counted once; the bytes in front of the structure stay |
| FdtFinish.WriteReservations | lib/libfdt/fdt_sw.c:142-168 | the reservations and their end are written if and only if they fit, and read back up to the first one of no size |
| FdtFinish.WriteBlob | lib/libfdt/fdt_sw.c:88-288 | round trip: writing reservations and a tree succeeds if and only if the buffer has room for them, and the blob then passes the header check, has the expected size, and reads back as exactly that tree and as those reservations up to the first one of no size |
| Paging.EntryRoundTrip | arch/x86_64/mmu.c:43-155 | unpacking an entry gives back the frame and flags packed into it, and the processor sees the same frame |
| Paging.IndexRoundTrip | arch/x86_64/mmu.c:189-195 | the four indices of an address give back bits 12 to 47 of it |
| Paging.NoSharing | arch/x86_64/mmu.c:221-308 | two table words that refer to the same table are the same word |
| Paging.WalkFrame | arch/x86_64/mmu.c:221-308 | a translation that does not use a word does not depend on it |
| Paging.GrowTree | arch/x86_64/mmu.c:227-259 | linking a cleared fresh page into an empty word keeps the tables a tree |
| Paging.GrowWalk | arch/x86_64/mmu.c:227-259 | and changes the translation of no address |
| Paging.PutWalk | arch/x86_64/mmu.c:264-307 | writing a leaf changes exactly the translations that use its word, to that leaf, which user code may use only if all tables above let it |
| Paging.WalkOn | arch/x86_64/mmu.c:221-308 | a walk that comes by a table goes on from it, with the access the tables above leave |
| Paging.WayLinked | arch/x86_64/mmu.c:227-259 | linking a table in adds it to the way of exactly the addresses that come by its word, open to user code as its word says |
| Paging.WayPut | arch/x86_64/mmu.c:264-307 | a leaf ends the way of exactly the addresses that use it, if it is a large one, and opens or shuts nothing |
| PageTable.PageEntry | arch/x86_64/mmu.c:197-219 | what the processor makes of a written page leaf, for every physical address: the address without its low and high bits, which are taken for access bits |
| PageTable.PageRight | arch/x86_64/mmu.c:197-219 | with the tables above it open or not to user code, that is the address and the access asked for if and only if the physical address is that of a frame and, for a page for user code, the tables are open |
| PageTable.PageWrong | arch/x86_64/mmu.c:197-219 | a page asked for at physical address 2 and read only can be written |
| PageTable.BlockRight | arch/x86_64/mmu.c:271-308 | a 2 MiB leaf translates its whole block right if and only if its physical address is that of a frame and a multiple of 2 MiB and, for user code, the tables above are open |
| PageTable.BlockWrong | arch/x86_64/mmu.c:271-308 | a 2 MiB leaf for 0x1000 translates to another block, one for 0x2000 faults |
| PageTable.ShutOut | arch/x86_64/mmu.c:223-267 | a page for user code at 0x1000, mapped after one at 0 that is not, cannot be used by user code |
| PageTable.OpenKept | arch/x86_64/mmu.c:223-267 | a request for user code makes nothing open or shut to it |
| PageTable.Answers | arch/x86_64/mmu.c:221-308 | -12 if and only if the free pages are fewer than the tables missing, three or two levels down, -22 if and only if the block is in use for pages of the other size, else 0 |
| PageTable.Mmu.MapSmallPage | arch/x86_64/mmu.c:221-269 | on success exactly the 4 KiB page translates differently, as the processor reads the leaf for that address below its tables, which PageRight is about; out of memory if and only if more tables are missing than pages are free, refused if and only if a large page is there, and then no address changes; which tables every address has then, whether each is open to user code, and how many pages are left; tables stay a tree and nothing but tables is written |
| PageTable.Mmu.MapLargePage | arch/x86_64/mmu.c:271-308 | the same for a 2 MiB block |
| PageTable.Run | arch/x86_64/mmu.c:221-308 | after any sequence of requests on any tables each answer is what the requests before it and the number of free pages say, each address translates as the last granted request that covers it and its tables say, or as before, and so many pages are left; the tables are a tree |
| PageTable.GrantedIff | arch/x86_64/mmu.c:221-308 | requests that do not ask for both page sizes in one block are all granted if and only if no block is in use for the other size and there are as many free pages as tables to make, shared ones counted once |
| MapRange.EveryAddress | mm/mmu.c:22-73 | the numbers below 2^64 stand for all addresses |
| MapRange.AlignUpRight | include/kernel/align.h:17-25 | aligning up to 2 MiB rounds up if and only if the sum does not wrap around |
| MapRange.AlignUpWraps | include/kernel/align.h:17-25 | an address at which it gives zero |
| MapRange.RightIff | mm/mmu.c:22-73 | a mapped range translates every address to its match with the access asked for and no other differently if and only if no large page was used where the addresses differ modulo 2 MiB and, for user code, no table there was shut to it |
| MapRange.MisplacedRange | mm/mmu.c:51-59 | 2 MiB at address 0 mapped to 0x1000 are such a range |
| MapRange.SmallStep | mm/mmu.c:33-39 | one more small page extends the mapped range by exactly that page |
| MapRange.BigStep | mm/mmu.c:53-59 | one more large page extends the mapped range by exactly that block |
| MapRange.AskedUnmixed | mm/mmu.c:22-73 | no block of a range is asked for in both page sizes |
| MapRange.MapAddressRange | mm/mmu.c:22-73 | on success exactly the addresses of the range, rounded up to whole pages, translate differently, as the processor has its small and large pages; on failure the same holds of exactly the pages before the first request refused, and the error is the answer to that one; the call succeeds if and only if, in the tables before it, no block of the range is in use for pages of the other size and there are as many free pages as tables to make; each address translates to its match if and only if no large page is misplaced and user code is not shut out |
| RingBuffer.CheckRoom | kernel/atomic-ring-buffer.c:56-65 | the full test against any stale tail succeeds if and only if the queue was full when that tail was current |
| RingBuffer.InvCheck | kernel/atomic-ring-buffer.c:56-69 | an emplace goes ahead if and only if the queue had room at the tail it saw, and its first step keeps the invariant |
| RingBuffer.InvFront | kernel/atomic-ring-buffer.c:36-44 | front returns the oldest element's place if and only if the head it saw is past the tail, and keeps the invariant |
| RingBuffer.InvStep | kernel/atomic-ring-buffer.c:36-69 | every step of either side keeps the invariant |
| RingBuffer.InBounds | kernel/atomic-ring-buffer.c:56-69 | each kind of step is possible if and only if its side is at that point: no reachable copy or pop leaves the data area, and neither side waits for the other |
| RingBuffer.FirstInFirstOut | kernel/atomic-ring-buffer.c:17-69 | after every interleaving with stale indices the emplaced elements are those last asked for before each publication, in order, the popped ones are as many of the first of them as there were pops, at most slots - 1 are queued, and head and tail are the places of the two counts |
| RingBuffer.EmplaceRun | kernel/atomic-ring-buffer.c:56-69 | the steps of an emplace with a current tail do to queue, indices and bytes what Queue.Emplace does |
| RingBuffer.PopRun | kernel/atomic-ring-buffer.c:36-54 | the steps of a front and a pop with a current head find and drop the oldest element, as Queue.Front and Queue.Pop do |
| RingBuffer.SlotStable | usr/libmanticore/src/atomic-ring-buffer.c:14-60 | until the consumer pops, the bytes behind its pointer stay those of the oldest element, half-finished copies included |
| RingBuffer.Queue.constructor | kernel/atomic-ring-buffer.c:17-27 | an empty queue over as many whole elements as fit behind the header |
| RingBuffer.Queue.IsEmpty | kernel/atomic-ring-buffer.c:29-34 | true if and only if nothing is queued |
| RingBuffer.Queue.Front | kernel/atomic-ring-buffer.c:36-44 | the place of the bytes of the oldest element, none if and only if empty |
| RingBuffer.Queue.Pop | kernel/atomic-ring-buffer.c:46-54 | the queue without its oldest element, the tail moved by one place; popping an empty queue fills it with slots - 1 stale elements |
| RingBuffer.PopFresh | kernel/atomic-ring-buffer.c:46-54 | a fresh queue with two slots is not empty once it has been popped |
| RingBuffer.Queue.Emplace | usr/libmanticore/src/atomic-ring-buffer.c:47-60 | the queue with the element behind, its bytes at the old head and no others changed, the head moved by one place; refused if and only if slots - 1 are queued, and then nothing changes |
| Malloc.BlockFits | usr/liblinux/src/malloc.c:129-139 | a block is at least as big as its object, by less than 8 bytes more, and the class times 8 is its size |
| Malloc.ClassInRange | usr/liblinux/src/malloc.c:79-139 | a small size has a class in the heap's table if and only if it is at most 1016 |
| Malloc.ClassOutOfRange | usr/liblinux/src/malloc.c:79-139 | 1017 bytes are taken for a small object and have no class |
| Malloc.Layout | usr/liblinux/src/malloc.c:64-104 | the sizes of metadata, pages and table agree with each other |
| Malloc.Recovered | usr/liblinux/src/malloc.c:159-197 | the page computed from a block's address is the page it belongs to |
| Malloc.HeapSeparate | usr/liblinux/src/malloc.c:391-456 | in every valid heap live objects are 8-byte aligned, lie between the metadata and the end of their segment and are pairwise disjoint |
| Malloc.PageCounts | usr/liblinux/src/malloc.c:87-96 | in every claimed page of a valid heap the used count is the number of live objects there, and with the length of the free list it makes up the capacity |
| Malloc.UsedPositive | usr/liblinux/src/malloc.c:443-456 | the page of a live object counts at least one block as used |
| Malloc.WriteOk | usr/liblinux/src/malloc.c:167-185 | whatever becomes of the word that holds a byte of a live object, the heap stays valid, free lists included |
| Malloc.Allocator.ClaimPage | usr/liblinux/src/malloc.c:332-353 | cutting a page links all its blocks and keeps the heap valid; no other page and no object changes |
| Malloc.Allocator.FindPage | usr/liblinux/src/malloc.c:373-385 | the first page with a free block of the size or to be claimed for it, none if and only if every page of the segment is taken and full or of another size; at most that page changes |
| Malloc.Allocator.AllocPage | usr/liblinux/src/malloc.c:355-388 | a page with a free block within two passes, in the queued segment if that has one, else in a new one; none if and only if neither the queued segment nor the system has one; no object is touched |
| Malloc.Allocator.GetPage | usr/liblinux/src/malloc.c:390-405 | the page in use while it has a free block, and then nothing changes |
| Malloc.Allocator.Malloc | usr/liblinux/src/malloc.c:407-440 | a new live object of the size, disjoint from all others, the first free block of the page found; the contents of no live object change; null if and only if the class's page is full and no page is left; large sizes change nothing; the table of pages is left if and only if the size is from 1017 to 1023; the heap stays valid |
| Malloc.Allocator.Free | usr/liblinux/src/malloc.c:442-467 | exactly that object is no longer live and its block is first on its page's list; the contents of no other object change; the heap stays valid |
| Malloc.CarvedUntouched | usr/liblinux/src/malloc.c:332-353 | the links written into a page when it is cut are in no live object |
| Malloc.GivenUntouched | usr/liblinux/src/malloc.c:167-173 | the link written into a freed block is in no other object |
| Malloc.Session | usr/liblinux/src/malloc.c:407-467 | through any calls of malloc, free and stores into objects, what was last written to an object still held is what is read from it |
| Malloc.Allocator.Write | usr/liblinux/src/malloc.c:167-185 | a byte stored in a live object changes the word that holds it and nothing the heap relies on |
| Malloc.Allocator.Recycle | usr/liblinux/src/malloc.c:479-489 | malloc, free and malloc in one size class return the same block |
| Arena.Canonical | kernel/memory.rs:101-137 | ordered segments that cannot be joined are determined by the bytes they hold |
| Arena.FreedOk | kernel/memory.rs:101-142 | freeing adds exactly the block's bytes, and keeps the segments ordered, disjoint, joined and multiples of a page if they were |
| Arena.FrontSuffices | kernel/memory.rs:80-99 | while sizes are multiples of a page, the front segment is too small for a page if and only if no page is free anywhere |
| Arena.MemoryArena.Alloc | kernel/memory.rs:58-99 | the first bytes of the front segment, null if and only if that is too small; free and allocated bytes remain exactly the registered ones |
| Arena.MemoryArena.Free | kernel/memory.rs:101-142 | the block's bytes are free again, joined with what they touch; nothing else changes |
| Arena.MemoryArena.AllocAndFree | kernel/memory.rs:80-142 | freeing the block just allocated gives back the very same segments, if they were joined |
| Arena.SpanExact | kernel/memory.rs:158-185 | a span is divided exactly between the arenas if and only if it reaches a 2 MiB boundary |
| Arena.SpanTooSmall | kernel/memory.rs:158-173 | a span inside one large page is registered beyond its end |
| Arena.AddSpan | kernel/memory.rs:158-201 | the large pages of the span go to one arena, the rest to the other, and nothing else |
| Scheduler.Scheduler.Schedule | kernel/sched.rs:54-92 | in every state the current process goes where its state says and the next runnable one, or the idle task, runs |
| Scheduler.Scheduler.ProcessWait | kernel/sched.rs:138-145 | the process waits; places, states and turns stay in order, and the scheduler did not find it in another state |
| Scheduler.Scheduler.WakeUpProcesses | kernel/sched.rs:192-203 | every waiting process becomes runnable, in order |
| Scheduler.Scheduler.IdleStep | kernel/init.c:22-29 | when all wait, all are woken and the first one runs |
| Scheduler.Operate | kernel/sched.rs:43-203 | from boot through any number of steps every process is in exactly one place with the matching state, none is preempted, and dispatches go round; who runs, who waits and how often processes were dispatched are functions of the number of steps |
| Scheduler.StepAfter | kernel/sched.rs:54-92 | each step lets one more process of the round wait and dispatches the next, and when all wait a new round begins |
| Scheduler.Fair | kernel/sched.rs:54-92 | between two dispatches of one process every process is dispatched |
| Checksum.ChecksumAdd | usr/liblinux/src/internal/ip.c:61-79 | the loop adds up the 32-bit words, the 16-bit word and the byte of a buffer, within 64 bits |
| Checksum.ChecksumFinalize | usr/liblinux/src/internal/ip.c:81-87 | folding ends and complements the folded sum |
| Checksum.SameChecksum | usr/liblinux/src/internal/ip.c:61-94 | for every buffer the folded sum of 32-bit words is the one's complement sum of its 16-bit words (section 2 of RFC 1071) |
| Checksum.ByteOrderIndependent | usr/liblinux/src/internal/ip.c:61-94 | stored in host order the checksum has the bytes it would have when summed in network order |
| Checksum.Verifies | usr/liblinux/src/internal/ip.c:226-230 | a buffer whose zeroed check field received its checksum has checksum zero, whatever else is added to the sum |
| Checksum.WorkedExample | usr/liblinux/src/internal/ip.c:61-87 | the sum of the example in section 3 of RFC 1071 |
| Checksum.Ipv4Checksum | usr/liblinux/src/internal/ip.c:89-94 | the complement of the one's complement sum of the header's 16-bit words, in host and in network order; zero once it is stored in the header |
| Checksum.UdpChecksum | usr/liblinux/src/internal/ip.c:96-111 | the same for the bytes of the pseudo-header, addresses, zero, protocol 17 and length (RFC 768), followed by the datagram |
| ArpCache.ProbeVisits | usr/liblinux/src/internal/arp_cache.c:33-44 | the probes from any start visit every entry exactly once |
| ArpCache.FullKnows | usr/liblinux/src/internal/arp_cache.c:65-74 | a table knows as many addresses as it has entries if and only if none of them is empty |
| ArpCache.Cache.FindEntry | usr/liblinux/src/internal/arp_cache.c:22-44 | an entry with that address, none if and only if there is none |
| ArpCache.Cache.Insert | usr/liblinux/src/internal/arp_cache.c:65-74 | the map with that address entered, all other addresses as before; no entry to write if and only if the address is new and the table full |
| ArpCache.InsertTooMany | usr/liblinux/src/internal/arp_cache.c:65-74 | after the addresses 1 to 128 there is no entry to write for 129 |
| ArpCache.Cache.Lookup | usr/liblinux/src/internal/arp_cache.c:76-86 | what the map has for the address; for address 0 the bytes of an empty entry, none if and only if the table is full |
| NumberFormat.ReadDigits | kernel/printf.c:36-54 | the digits of a number read back to it, in every base |
| NumberFormat.NoLeadingZero | kernel/printf.c:36-54 | the first digit is zero only in zero itself, which is one digit |
| NumberFormat.AtMostTwenty | kernel/printf.c:36-54 | a 64-bit number has at most 20 digits in base 10 or above |
| NumberFormat.FormatNumber | kernel/printf.c:36-54 | the 32-byte buffer ends up with the sign, the digits and a terminator, and is never written in front of its start |
| NumberFormat.Alphabets | kernel/printf.c:28-34 | the two digit tables have the digits and the letters from a, or from A, in order, 16 characters each, none twice and no sign |
| NumberFormat.TextReadsBack | kernel/printf.c:36-54 | the text reads back to the signed or unsigned number printed, the most negative one included |

## Left out

- FdtGetPath.GetPath: what the buffer holds after the code has read before it is not said, nor which wrong string is built after a name with a slash; for an offset behind the root and names with slashes it is left open whether the code reads before the buffer or returns bad offset.
- FdtAlias.PathOffset: where an alias that is followed has no terminator, so that the code reads on behind its value, nothing is said of the result.
- FdtAlias.GetAlias: of an alias without a terminator it is only said that there is one.
- FdtRw.SetProp: property values are shorter than 2^31 - 16 bytes, so that lengths fit an int.
- FdtRw.Plausible: offsets inside the value of a property that look like a begin tag, which the code takes for nodes, are left out of all editors and lookups; Misread gives one.
- MapRange.MapAddressRange: the range does not cross a 2^48 boundary and does not wrap around, and the physical range starts at a page and ends below 2^52; the code checks none of this.
- Malloc.Allocator.Malloc: what the code makes of the bytes behind the heap's table, for sizes from 1017 to 1023, is not modelled.
- Arena.AddSpan: spans inside one large page, whose pieces overlap memory beyond them, are not registered; SpanExact and SpanTooSmall are about those.
- ArpCache.Cache.Insert: what a write through the null pointer does is not modelled.
- Header fields of a device tree blob are fields of an object, not bytes at the start of its buffer.
- Blobs of versions before 17, fdt_resize, fdt_open_into, fdt_pack, fdt_set_name, fdt_appendprop, parent lookups, phandles, string lists and overlays.
- The ring buffer's bytes are sequentially consistent; only the two indices are seen stale.
- The queue of malloc's segments and the arena's tree of segments are sequences; their links are not modelled.
- The slab allocator, process address spaces, sockets, drivers, interrupts, loading and boot.
- Flushing the translation buffer after a mapping.
- What happens while a process runs, and device work before it waits.
- Field widths and padding of printf.
