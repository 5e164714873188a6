# A verified model of libevent's core

The project models the libevent sources vendored under `core/src/main/jni/libevent` and proves what their
callers rely on. Where the C code updates structures in place, the model is a class or an array algorithm
proved against a specification on plain values; where threads interleave, it is a state machine.

| files | models |
|---|---|
| `Chains`, `Evbuffer`, `EvbufferMoves`, `EvbufferSearch`, `EvbufferReserve`, `EvbufferRuns` | `buffer.c`: the chain list with its hand-patched `last_with_datap`, refined to a byte string |
| `EpollTable`, `InterestMap` | `evmap.c`, `epoll.c`, `epolltable-internal.h`: counts for each descriptor, the coalescing change list, the kernel's interest set |
| `DnsNames`, `DnsLimits` | `evdns.c`: name compression (section 4.1.4 of RFC 1035) and the name parser |
| `Nameservers`, `RequestLists`, `ResolverSpec`, `Resolver`, `ResolverPromises` | `evdns.c`: server rotation, requests in flight and waiting, hash buckets |
| `TagCodec`, `Tagging` | `event_tagging.c`: tagged records, on byte strings and on evbuffers |
| `TokenBuckets`, `RateLimits`, `RateLimitRuns`, `GroupSuspension` | `bufferevent_ratelim.c`: buckets, suspension and refill timers, the try-lock protocol of groups |
| `PairSpec`, `BuffereventPair` | `bufferevent_pair.c` with the watermarks of `bufferevent.c` |
| `MinHeap`, `EventLists`, `EventBase`, `EventSpec`, `EventLoop`, `EventRuns`, `EventPromises` | `event.c`, `minheap-internal.h`: flags, queues, timeouts, common timeouts, counters |
| `Basics` | bytes and options |

Check everything with `dafny verify dfyconfig.toml --resource-limit 2000000 --verification-time-limit 0`.

## Where the code and expectation differ

Each point is stated exactly by the member named.

- `Evbuffers.Evbuffer.Prepend`: a prepend whose last allocation is refused fails but leaves part of the data in
  the buffer (buffer.c:1874-1889); `Evbuffers.PartialPrepend` reaches that.
- `EvbufferReserve.ReserveMany`: reserving 0 bytes in two or more vectors fails an assertion when the last chain is
  full and writable (buffer.c:2240-2247); `EvbufferReserve.AbortedReservation` reaches that state.
- `EvbufferReserve.AddReservedOne`: space reserved with one vector cannot be committed when it lies in the chain
  after the last one with data and that chain is not the last (buffer.c:1995-2003, 739-767);
  `EvbufferReserve.StrandedReservation` reaches that state.
- `EvbufferSearch.SearchRange`: an empty pattern is found at start even if start is behind end.
- `DnsNames.VisibleIsName`, `DnsNames.PointerRoundTrip`: names with an empty label (a doubled or trailing dot) are
  not read back as written (`DnsNames.EmptyLabelLost`), and positions from 0x4000 on cannot be pointed at. The encoder writes its final NUL
  without a check (evdns.c:1674), so `DnsNames.ToLabels` asks for one spare byte.
- `Tagging.UnmarshalHeader`, `Tagging.Consume`, `Tagging.PeekLength`: lengths from 2^31 on come out negative and then
  drain everything, and the peeked length wraps at 2^32. The comments in event_tagging.c describe integers with the
  most significant nibble first; the code puts the least significant first, and the model follows the code. At the
  front of a frozen buffer refused drains are ignored, so the length is read from the bytes of the tag.
- `Resolver.Base.SearchNext`: a search that moves on to its next name with a limit of one request in flight leaves
  the new request waiting with nothing in flight that would wake it (evdns.c:3325-3328).
- `ResolverSpec.SearchClashesIff`: the id of such a request is chosen before the pump runs, so a waiting request may
  take it first (evdns.c:3318-3328). That can happen if and only if requests wait although there is room and a server,
  as after a raised limit (`Resolver.RaisedLimit`).
- `PairSpec.FlushIs`: a flush ignores the partner's high watermark only once the mark is reached; below
  it, it hands over up to the mark and leaves the rest.
- `RateLimitRuns.RefillsGoOn`, `RateLimitRuns.StallLasts`: replacing a configuration keeps the number of the last tick
  although the new configuration may count ticks of another length (bufferevent_ratelim.c:49-71). While the
  counts are less than 2^31 apart, refills go on if and only if the new count of ticks is not behind the old one;
  otherwise they stop until it has caught up.
- `RateLimits.WantsNothing`, `RateLimits.FullBucketLooksEnded`: the amount to read is cast to an int, so that exactly a
  multiple of 2^32 asks for no bytes; reading none counts as the end of the stream (bufferevent_sock.c:183-211).
- `EventPromises.StepKeepsWaiting`: a persistent event is scheduled again before its callback runs, and the result of
  that is not looked at (event.c:1610); if the interest map refuses the event then, it is pending nowhere any more.

## Model

| member | source | states |
|---|---|---|
| Chains.ChainNew | core/src/main/jni/libevent/buffer.c:156-193 | a new chain is empty and writable, and its size is exactly that of the allocation rule; it is refused exactly above the size limit |
| Chains.LeastAllocation | core/src/main/jni/libevent/buffer.c:168-183 | the allocation is the least power of two, from 1024 on, that holds header and request |
| Chains.Sizes | core/src/main/jni/libevent/buffer.c:156-193 | the size limits and the first two allocation sizes in numbers |
| Chains.GrowLast | core/src/main/jni/libevent/buffer.c:1729-1824 | bytes written behind the last chain with data land at the end of the byte string, and that chain stays the last one with data |
| Chains.DropFront | core/src/main/jni/libevent/buffer.c:1100-1166 | dropping whole chains and then part of the next one drops exactly that prefix of the byte string |
| Evbuffers.Evbuffer.constructor | core/src/main/jni/libevent/buffer.c:361-375 | a new buffer satisfies the invariant and is empty |
| Evbuffers.Evbuffer.FreeTrailingEmptyChains | core/src/main/jni/libevent/buffer.c:290-303 | only chains behind the last one with data go, so the bytes stay; the returned link is where the next chain goes |
| Evbuffers.Evbuffer.ChainInsert | core/src/main/jni/libevent/buffer.c:308-327 | the chain replaces the trailing empty chains, its bytes are appended, last and last_with_datap are right again |
| Evbuffers.Evbuffer.Add | core/src/main/jni/libevent/buffer.c:1729-1824 | appends exactly the data and keeps the invariant; fails, changing no byte, exactly when frozen or too long; an empty buffer gets one chain of the allocation rule's size |
| Evbuffers.Evbuffer.AddToLast | core/src/main/jni/libevent/buffer.c:1752-1815 | the three ways of using the last chain with data (behind it, after realigning, in part plus a new chain) all append the data |
| Evbuffers.Evbuffer.Prepend | core/src/main/jni/libevent/buffer.c:1826-1910 | prepends the data; when the last allocation is refused the call fails but the tail that fitted in front stays, and exactly that tail |
| Evbuffers.PartialPrepend | core/src/main/jni/libevent/buffer.c:1874-1889 | such a failed prepend, reached by operations, that leaves 966 bytes of its data behind |
| Evbuffers.Evbuffer.Drain | core/src/main/jni/libevent/buffer.c:1100-1166 | removes exactly the first min(len, length) bytes and keeps the invariant; fails exactly when frozen and not empty |
| Evbuffers.Evbuffer.DrainSome | core/src/main/jni/libevent/buffer.c:1120-1158 | the loop over whole chains, with last_with_datap repaired on the way, drops exactly len bytes |
| Evbuffers.Evbuffer.AddReference | core/src/main/jni/libevent/buffer.c:2920-2958 | the caller's memory is appended as a read-only chain |
| EvbufferMoves.AddBuffer | core/src/main/jni/libevent/buffer.c:965-1009 | dst becomes dst followed by src and src becomes empty; the two lists never share a chain; failure changes nothing |
| EvbufferMoves.PrependBuffer | core/src/main/jni/libevent/buffer.c:1054-1098 | dst becomes src followed by dst and src becomes empty; no chain is shared; failure changes nothing |
| EvbufferMoves.CopyChain | core/src/main/jni/libevent/buffer.c:874-886 | src's list moves into an empty dst, with last_with_datap re-anchored if it was src's first link |
| EvbufferMoves.AppendChain | core/src/main/jni/libevent/buffer.c:888-905 | src's list is linked behind dst's last chain with data and both byte strings are joined |
| EvbufferMoves.PrependChain | core/src/main/jni/libevent/buffer.c:947-963 | src's list is linked in front, its trailing empty chains included, and the invariant holds |
| EvbufferMoves.RemoveBuffer | core/src/main/jni/libevent/buffer.c:1259-1347 | moves exactly the first min(n, length) bytes; both invariants hold and no chain is shared; the result is the count as a C int |
| EvbufferMoves.TakeChains | core/src/main/jni/libevent/buffer.c:1292-1323 | whole chains move by relinking and the rest that is still to be copied is inside the next chain |
| EvbufferMoves.AdvanceLastWithData | core/src/main/jni/libevent/buffer.c:703-721 | from any earlier chain with data, last_with_datap ends at the last chain with data; says how many chains were passed |
| EvbufferMoves.Pullup | core/src/main/jni/libevent/buffer.c:1349-1461 | no byte changes and the first size bytes become contiguous in the first chain; fails exactly when size is 0, too large for the buffer or too large for a chain |
| EvbufferMoves.Relink | core/src/main/jni/libevent/buffer.c:1437-1454 | the gathered chain replaces the chains it absorbed and last_with_datap is repaired |
| EvbufferSearch.PtrSet | core/src/main/jni/libevent/buffer.c:2622-2672 | a position becomes a pointer into the right chain; fails exactly past the end |
| EvbufferSearch.PtrAdd | core/src/main/jni/libevent/buffer.c:2622-2672 | advancing a pointer adds positions; fails exactly past the end or on overflow |
| EvbufferSearch.CopyOut | core/src/main/jni/libevent/buffer.c:1189-1254 | returns exactly the bytes from the position on, at most datlen of them, across chains; the error conditions exactly |
| EvbufferSearch.Remove | core/src/main/jni/libevent/buffer.c:1169-1181 | bytes returned followed by bytes left are the old content; nothing changes on failure |
| EvbufferSearch.PtrMatches | core/src/main/jni/libevent/buffer.c:2678-2712 | comparing chain by chain is true exactly if the pattern occurs there in the byte string |
| EvbufferSearch.SearchRange | core/src/main/jni/libevent/buffer.c:2720-2782 | the least match at or after start that fits before end, matches across chains included, or none exactly if there is none; an empty or oversized pattern gives start |
| EvbufferSearch.SearchLoop | core/src/main/jni/libevent/buffer.c:2747-2777 | the memchr-and-compare walk skips no match |
| EvbufferSearch.FoundMeans | core/src/main/jni/libevent/buffer.c:2720-2782 | what a search result means byte by byte: a match within the limit with none before it, or none within the limit |
| EvbufferSearch.FindEolChar | core/src/main/jni/libevent/buffer.c:1495-1520 | two memchrs on 128 bytes at a time find what a byte-by-byte scan finds |
| EvbufferSearch.Scan | core/src/main/jni/libevent/buffer.c:1473-1542 | the first end-of-line byte, or given byte, across chains, or none exactly if there is none |
| EvbufferSearch.StrSpn | core/src/main/jni/libevent/buffer.c:1544-1581 | the length of the run of end-of-line bytes, maximal |
| EvbufferSearch.SearchEol | core/src/main/jni/libevent/buffer.c:1596-1684 | for every style the first terminator and its length, or none exactly if there is none |
| EvbufferSearch.EolUnique | core/src/main/jni/libevent/buffer.c:1596-1684 | the terminator of a style is determined by the text alone |
| EvbufferSearch.EolMeans | core/src/main/jni/libevent/buffer.c:1596-1684 | what a terminator of each style is in bytes 13, 10 and 0, and that none comes before it |
| EvbufferSearch.NoEolMeans | core/src/main/jni/libevent/buffer.c:1596-1684 | what it means in bytes that there is none |
| EvbufferSearch.ReadLn | core/src/main/jni/libevent/buffer.c:1686-1723 | old content is line, first terminator of the style, and new content; no line exactly if there is no terminator or the front is frozen |
| EvbufferReserve.ExpandFast | core/src/main/jni/libevent/buffer.c:2050-2158 | no byte changes and at least datlen bytes are free in at most n chains from last_with_datap; succeeds up to the size limit; when fewer than n chains have room and too little, exactly one chain for what is missing is added |
| EvbufferReserve.CountSpace | core/src/main/jni/libevent/buffer.c:2074-2099 | the counting loop says enough exactly when the chains it walked hold enough; empty chains only get realigned |
| EvbufferReserve.ExpandSinglechain | core/src/main/jni/libevent/buffer.c:1938-2046 | no byte changes and one chain has datlen free bytes, by realigning, resizing, the next chain or a new one |
| EvbufferReserve.SetupVecs | core/src/main/jni/libevent/buffer.c:2224-2260 | the vectors are the free space of consecutive chains until there is enough, in exact mode cut to exactly the size asked for; the walk never runs off the list, and the assertion fails exactly if no chain has room |
| EvbufferReserve.ReserveMany | core/src/main/jni/libevent/buffer.c:670-701 | grants vectors covering the size in at most n chains; asking for 0 bytes fails an assertion exactly when the last chain is full and writable |
| EvbufferReserve.ReserveOne | core/src/main/jni/libevent/buffer.c:670-701 | grants one vector that covers the size, and says in which chain it lies |
| EvbufferReserve.Commit | core/src/main/jni/libevent/buffer.c:723-791 | appends exactly the committed prefixes in order, or changes nothing; succeeds exactly when the vectors are where a reservation would be |
| EvbufferReserve.CommitAll | core/src/main/jni/libevent/buffer.c:771-785 | the second pass, vector by vector, appends the pieces and repairs last_with_datap, also when an empty chain comes between |
| EvbufferReserve.AddReserved | core/src/main/jni/libevent/buffer.c:670-791 | reserve, fill and commit has the effect of evbuffer_add |
| EvbufferReserve.AddReservedOne | core/src/main/jni/libevent/buffer.c:670-791 | with one vector too, except that the commit is refused exactly when the next empty chain was used and it is not the last |
| EvbufferReserve.StrandedReservation | core/src/main/jni/libevent/buffer.c:670-791 | such a refusal reached by operations: 8100 bytes added, two reservations with three vectors, then the commit of 100 bytes fails |
| EvbufferReserve.AbortedReservation | core/src/main/jni/libevent/buffer.c:2240-2247 | the failed assertion reached by operations: 976 bytes added, 0 reserved |
| EvbufferRuns.Perform | core/src/main/jni/libevent/buffer.c:1100-1910 | each operation on chains is the same operation on a byte string, answer included |
| EvbufferRuns.PerformMove | core/src/main/jni/libevent/buffer.c:965-1347 | each move between buffers is the same move between byte strings |
| EvbufferRuns.Run | core/src/main/jni/libevent/buffer.c:888-1910 | every run of operations on two buffers is a run on two byte strings, both invariants hold throughout and no chain is ever shared |
| EvbufferRuns.LeftwardKeepsOrder | core/src/main/jni/libevent/buffer.c:1259-1347 | moving in one direction, in whatever pieces, keeps every byte and its place |
| EpollTable.TableIsRuleAt | core/src/main/jni/libevent/epolltable-internal.h:124-1166 | all 512 rows follow one rule: add if nothing was registered, delete if nothing is left, modify otherwise, no-op without a change, impossible for add plus delete |
| InterestMaps.CountsShowInterest | core/src/main/jni/libevent/evmap.c:951-980 | the counts are non-zero exactly for the kinds somebody waits for |
| InterestMaps.RoomIs | core/src/main/jni/libevent/evmap.c:272-349 | an event is taken exactly while fewer than 65535 others wait for its kinds; descriptors below 2^27 are sure of a slot |
| InterestMaps.IoMap.ApplyOne | core/src/main/jni/libevent/epoll.c:268-355 | whatever the kernel holds, even after the descriptor was closed and reopened, it ends up holding what the change leaves; no impossible row is selected |
| InterestMaps.IoMap.MakeSpace | core/src/main/jni/libevent/evmap.c:204-232 | the slot exists afterwards for every descriptor below the limit, and no pending list changes |
| InterestMaps.IoMap.TellKernel | core/src/main/jni/libevent/epoll.c:376-416 | the kernel is told at once and the records stay consistent |
| InterestMaps.IoMap.Queue | core/src/main/jni/libevent/evmap.c:834-946 | there is at most one queued change for each descriptor and it leads from what the kernel has to what is wanted |
| InterestMaps.OneChangeEach | core/src/main/jni/libevent/evmap.c:751-770 | no two queued changes are about the same descriptor |
| InterestMaps.IoMap.ApplyChanges | core/src/main/jni/libevent/epoll.c:357-374 | every queued change reaches the kernel and no call fails |
| InterestMaps.IoMap.RemoveAll | core/src/main/jni/libevent/evmap.c:778-797 | the change list is empty, no slot refers to it, and the kernel holds what is wanted everywhere |
| InterestMaps.IoMap.Flush | core/src/main/jni/libevent/epoll.c:462-463 | after the part of a dispatch before the wait, kernel and wanted kinds agree for every descriptor |
| InterestMaps.IoMap.IoAdd | core/src/main/jni/libevent/evmap.c:272-349 | the event joins its descriptor's list; refused exactly when a count would pass 0xffff; returns 1 exactly if the wanted kinds change |
| InterestMaps.IoMap.IoDel | core/src/main/jni/libevent/evmap.c:353-417 | the event leaves its list; returns 1 exactly if the wanted kinds change |
| InterestMaps.Run | core/src/main/jni/libevent/evmap.c:272-417 | over every legal run of adds, deletes and dispatches the invariant and the pending lists are right |
| InterestMaps.FlushedInterest | core/src/main/jni/libevent/evmap.c:951-980 | with nothing queued the kernel holds exactly the kinds with a non-zero count |
| InterestMaps.CoalescingAgrees | core/src/main/jni/libevent/epoll.c:268-416 | a run through the coalesced change list and the same run telling the kernel at once end with the same kernel state: the kinds somebody waits for |
| DnsNames.NameParse | core/src/main/jni/libevent/evdns.c:976-1030 | terminates on every packet, pointer cycles included, and succeeds exactly when the recursive walk does and the dotted name fits; then it gives that name and an index strictly further and inside the packet |
| DnsNames.GetPos | core/src/main/jni/libevent/evdns.c:1574-1583 | the position of the first entry with that name, or -1 exactly if there is none |
| DnsNames.PointerRoundTrip | core/src/main/jni/libevent/evdns.c:1546-1678 | a pointer's two bytes are read as a pointer, and to the same position exactly below 0x4000 |
| DnsNames.VisibleIsName | core/src/main/jni/libevent/evdns.c:1614-1678 | what a reader sees of an encoded name is the name exactly when it has no empty label |
| DnsNames.EmptyLabelLost | core/src/main/jni/libevent/evdns.c:1614-1678 | two names, with a trailing and with a doubled dot, of which a reader sees the first label only |
| DnsNames.ToLabels | core/src/main/jni/libevent/evdns.c:1614-1678 | the byte array holds what the recursive encoder yields, table and error codes included; the final NUL may use one byte beyond the limit |
| DnsNames.ReadIsWalk | core/src/main/jni/libevent/evdns.c:976-1030 | pointers that only lead back cannot use up the parser's pointer budget |
| DnsNames.ReadExtends | core/src/main/jni/libevent/evdns.c:976-1030 | appending to the message does not change what is stored in it |
| DnsNames.EncodeStores | core/src/main/jni/libevent/evdns.c:1614-1678 | whatever a table of finished names holds, the encoded name reads back as its visible labels and each new entry as its suffix |
| DnsNames.FinishedTable | core/src/main/jni/libevent/evdns.c:1546-1678 | after a whole name every table entry's position reads back as its suffix |
| DnsNames.MessageReadsBack | core/src/main/jni/libevent/evdns.c:1906-2001 | in a message of any names sharing one table every name reads back at its place |
| DnsNames.ParsedNameIsName | core/src/main/jni/libevent/evdns.c:976-1030 | parsing such a name with the reply parser's 256-byte output succeeds; it gives the name exactly if there is no empty label, and then stops at the index the encoder returned |
| DnsLimits.EncodeIs | core/src/main/jni/libevent/evdns.c:1614-1678 | the encoder succeeds exactly if no label it writes out is above 63 bytes and labels and pointer fit, gives -1 exactly if a label that is reached is longer, else -2; the bytes are the labels behind their lengths and a pointer or a zero |
| DnsLimits.GoodNamesAreEncoded | core/src/main/jni/libevent/evdns.c:1614-1678 | every name of labels up to 63 bytes is encoded where there is room for it and two bytes more, whatever the table holds |
| DnsLimits.GoodMessagesAreWritten | core/src/main/jni/libevent/evdns.c:1614-1678 | so is every message of names up to 255 bytes that has room, and it reads back |
| DnsLimits.EncodeName | core/src/main/jni/libevent/evdns.c:1614-1678 | the same of the byte array and the return code |
| DnsLimits.NamesAreRemembered | core/src/main/jni/libevent/evdns.c:1546-1678 | compression works: while the table has room for its 128 entries, a name written before, or a suffix of one, takes two bytes |
| DnsLimits.WireFormat | core/src/main/jni/libevent/evdns.c:1614-1678 | an encoded name byte by byte |
| DnsLimits.PointerFormat | core/src/main/jni/libevent/evdns.c:976-1030 | a pointer byte by byte, and how its bytes are read |
| TagCodec.IntRoundTrip | core/src/main/jni/libevent/event_tagging.c:121-397 | an encoded integer decodes to itself and its own length, whatever follows |
| TagCodec.Fits32 | core/src/main/jni/libevent/event_tagging.c:144-154 | every 32-bit integer is within the decoder's limit of 8 nibbles |
| TagCodec.Fits64 | core/src/main/jni/libevent/event_tagging.c:144-154 | every 64-bit integer is within the decoder's limit of 16 nibbles |
| TagCodec.DecodedFits | core/src/main/jni/libevent/event_tagging.c:319-377 | a decoded number fits the C type it is stored in |
| TagCodec.TagRoundTrip | core/src/main/jni/libevent/event_tagging.c:177-246 | an encoded 32-bit tag decodes to itself and its own length, whatever follows |
| TagCodec.DecodedTagFits | core/src/main/jni/libevent/event_tagging.c:200-246 | a decoded tag has 32 bits |
| TagCodec.WireFormat | core/src/main/jni/libevent/event_tagging.c:121-198 | a tag, an integer and a record byte by byte |
| TagCodec.HeaderRoundTrip | core/src/main/jni/libevent/event_tagging.c:260-455 | a marshalled record's header gives tag, length and the place of the payload |
| TagCodec.UnmarshalIntRoundTrip | core/src/main/jni/libevent/event_tagging.c:280-538 | a marshalled 32- or 64-bit integer unmarshals to itself and is consumed exactly |
| TagCodec.UnmarshalTimevalRoundTrip | core/src/main/jni/libevent/event_tagging.c:310-609 | a marshalled timeval with 32-bit fields unmarshals to itself and is consumed exactly |
| TagCodec.OtherTagRefused | core/src/main/jni/libevent/event_tagging.c:488-609 | a record with another tag is refused, as an integer and as a time |
| TagCodec.ShortRecordRefused | core/src/main/jni/libevent/event_tagging.c:488-609 | an integer that needs more bytes than its payload has is refused, and so is a payload longer than what is there |
| Tagging.EncodeIntInternal | core/src/main/jni/libevent/event_tagging.c:121-154 | the nibble loop over a byte array produces the integer's encoding |
| Tagging.EncodeInt | core/src/main/jni/libevent/event_tagging.c:156-170 | appends the integer's encoding to the buffer; a frozen or full one stays as it is |
| Tagging.EncodeTag | core/src/main/jni/libevent/event_tagging.c:177-198 | appends the tag's encoding to the buffer; a frozen or full one stays as it is |
| Tagging.DecodeTagInternal | core/src/main/jni/libevent/event_tagging.c:200-246 | decodes the tag from the buffer's bytes for every content, and drains exactly what was read if asked to and not frozen |
| Tagging.DecodeIntInternal | core/src/main/jni/libevent/event_tagging.c:319-377 | decodes the integer at the offset for every content without changing a byte |
| Tagging.DecodeInt | core/src/main/jni/libevent/event_tagging.c:379-387 | decodes the integer at the front and drains exactly it, unless frozen |
| Tagging.Marshal | core/src/main/jni/libevent/event_tagging.c:260-267 | adds tag, length and payload one by one, each refused on its own if the buffer is frozen or full |
| Tagging.MarshalledIs | core/src/main/jni/libevent/event_tagging.c:260-267 | a frozen buffer stays as it is, one with room gets exactly the record's bytes |
| Tagging.UnmarshalHeader | core/src/main/jni/libevent/event_tagging.c:441-455 | drains the header and gives tag and length as a C int, -1 exactly for a bad header or a short payload (or a length of 2^32-1); a bad length still costs the tag; in a frozen buffer nothing is drained and the length is read from the tag's bytes |
| Tagging.Consume | core/src/main/jni/libevent/event_tagging.c:457-466 | succeeds exactly for a complete record and drops header and payload; a length that is negative as an int drains all that is left; a frozen buffer stays as it is |
| Tagging.PeekLength | core/src/main/jni/libevent/event_tagging.c:405-421 | header plus payload modulo 2^32, without draining |
| Tagging.PeekThenConsume | core/src/main/jni/libevent/event_tagging.c:405-466 | what was peeked is what a successful consume drains, for payloads below 2^31 in a buffer that is not frozen |
| Tagging.Unmarshal | core/src/main/jni/libevent/event_tagging.c:470-484 | moves exactly the payload to the other buffer; refused, with only the header gone, exactly if that buffer is frozen or full or the length is negative as an int |
| Tagging.MarshalInt | core/src/main/jni/libevent/event_tagging.c:280-301 | adds the integer as a record, as Marshal does |
| Tagging.UnmarshalInt | core/src/main/jni/libevent/event_tagging.c:488-538 | agrees with the byte-string decoder for every content, frozen or not, what is left included |
| Tagging.MarshalTimeval | core/src/main/jni/libevent/event_tagging.c:310-317 | adds both fields, cut to 32 bits, as one record, as Marshal does |
| Tagging.UnmarshalTimeval | core/src/main/jni/libevent/event_tagging.c:583-609 | agrees with the byte-string decoder, frozen or not; a length that is negative as an int fails and drains all that is left |
| Tagging.MarshalAll | core/src/main/jni/libevent/event_tagging.c:260-267 | a list of records becomes its stream |
| Tagging.UnmarshalAll | core/src/main/jni/libevent/event_tagging.c:441-484 | unmarshalling a marshalled stream gives the same records back and leaves exactly what followed |
| TokenBuckets.CfgNew | core/src/main/jni/libevent/bufferevent_ratelim.c:142-173 | accepted exactly with rates of at least 1, not above their burst, and within the limit; keeps the four numbers and the tick length in milliseconds |
| TokenBuckets.RefillIsClippedSum | core/src/main/jni/libevent/bufferevent_ratelim.c:73-111 | the overflow-safe refill is min(maximum, limit + ticks * rate) in unbounded arithmetic |
| TokenBuckets.ElapsedIs | core/src/main/jni/libevent/bufferevent_ratelim.c:73-111 | ticks between two tick numbers are seen exactly if fewer than 2^32, a wrap included |
| TokenBuckets.TokenBucket.Init | core/src/main/jni/libevent/bufferevent_ratelim.c:49-71 | a new bucket holds one tick's rate and is within its maximum |
| TokenBuckets.TokenBucket.Reinit | core/src/main/jni/libevent/bufferevent_ratelim.c:49-71 | a new configuration only clips the limits |
| TokenBuckets.TokenBucket.Update | core/src/main/jni/libevent/bufferevent_ratelim.c:73-111 | refills by the ticks elapsed modulo 2^32, ignoring ticks in the past |
| RateLimits.Bufferevent.SuspendRead | core/src/main/jni/libevent/bufferevent.c:66-75 | the backend reads exactly while enabled and not suspended for any reason |
| RateLimits.Bufferevent.UnsuspendRead | core/src/main/jni/libevent/bufferevent.c:77-86 | one reason less; the backend reads again exactly if none is left |
| RateLimits.Bufferevent.SuspendWrite | core/src/main/jni/libevent/bufferevent.c:88-97 | as for reading |
| RateLimits.Bufferevent.UnsuspendWrite | core/src/main/jni/libevent/bufferevent.c:99-108 | as for reading |
| RateLimits.Bufferevent.Enable | core/src/main/jni/libevent/bufferevent.c:481-503 | the enabled directions grow; the backend moves bytes exactly in those nobody suspended |
| RateLimits.Bufferevent.Disable | core/src/main/jni/libevent/bufferevent.c:572-587 | the enabled directions shrink, and the backend's with them |
| RateLimits.Bufferevent.DecrementRead | core/src/main/jni/libevent/bufferevent_ratelim.c:272-293 | charges the bucket; suspended exactly if it is exhausted, and then the timer is pending |
| RateLimits.Bufferevent.DecrementWrite | core/src/main/jni/libevent/bufferevent_ratelim.c:310-331 | as for reading |
| RateLimits.Bufferevent.RefillFired | core/src/main/jni/libevent/bufferevent_ratelim.c:393-439 | refills; unsuspends exactly the directions that are positive again; the timer is pending again exactly if a direction stays suspended |
| RateLimits.Bufferevent.SetRateLimit | core/src/main/jni/libevent/bufferevent_ratelim.c:559-635 | what the limits and the suspensions become for a new, changed, same or removed configuration; no wake-up is lost |
| RateLimits.Bufferevent.ReadMax | core/src/main/jni/libevent/bufferevent_ratelim.c:197-227 | the bucket's content after the refill due at this tick, or the single-read maximum without a bucket |
| RateLimits.Bufferevent.ReadReady | core/src/main/jni/libevent/bufferevent_sock.c:148-211 | asks for the least of what bucket and watermark admit, cast to int, and what evbuffer_read allows; at the watermark it suspends reading without a refill; the bucket is charged with exactly the bytes read; reading is disabled exactly when none were asked for or the stream is over |
| RateLimits.WantedWithin | core/src/main/jni/libevent/bufferevent_sock.c:174-190 | a read never asks for more than the bucket lets through and the watermark admits, whatever the cast to int does |
| RateLimits.WantsNothing | core/src/main/jni/libevent/bufferevent_sock.c:183-190 | it asks for nothing exactly if what is admitted is a multiple of 2^32 |
| RateLimits.ReadAmount | core/src/main/jni/libevent/bufferevent_sock.c:174-190 | otherwise a read gets exactly the least of what waits, what is admitted, and what the socket reports, or 4096 |
| RateLimits.AdmittedIs | core/src/main/jni/libevent/bufferevent_ratelim.c:197-258 | what is admitted is the bucket, or the single-read maximum without one, but not beyond the watermark |
| RateLimits.ReadIsCharged | core/src/main/jni/libevent/bufferevent_sock.c:182-211 | a read takes exactly its bytes from the refilled bucket |
| RateLimits.ChargeIs | core/src/main/jni/libevent/bufferevent_ratelim.c:272-331 | a charge takes exactly its bytes, suspends exactly at an exhausted bucket and keeps the timer exactly while one is needed, in both directions |
| RateLimits.RefillIs | core/src/main/jni/libevent/bufferevent_ratelim.c:73-111 | both buckets grow by the rate for each tick up to their maximum, and not at all for a tick in the past |
| RateLimits.FiredIs | core/src/main/jni/libevent/bufferevent_ratelim.c:393-439 | a direction is let go exactly if its refilled bucket is positive |
| RateLimits.ConfiguredIs | core/src/main/jni/libevent/bufferevent_ratelim.c:559-635 | what a first, a changed, the same and no configuration make of limits, suspensions and timer |
| RateLimits.FullBucketLooksEnded | core/src/main/jni/libevent/bufferevent_sock.c:183-211 | an instance: with a full bucket of 2^32 bytes a readable socket is taken to be at its end |
| RateLimitRuns.Step | core/src/main/jni/libevent/bufferevent_ratelim.c:272-635 | each step of the bufferevent is the step of the specification, bytes read included |
| RateLimitRuns.Run | core/src/main/jni/libevent/bufferevent_sock.c:148-211 | every run is a run of the specification, state by state and read by read, up to the first step that is not allowed; no wake-up is lost on the way |
| RateLimitRuns.AlwaysAllowed | core/src/main/jni/libevent/bufferevent_ratelim.c:272-635 | runs leave out nothing but charges that underflow the counter and callers that touch the bucket's own flag |
| RateLimitRuns.StepKeepsWakeUps | core/src/main/jni/libevent/bufferevent_ratelim.c:272-635 | every step, changes of the configuration included, keeps suspensions and timer right |
| RateLimitRuns.StepBalance | core/src/main/jni/libevent/bufferevent_sock.c:182-211 | bytes read plus credit left never exceed credit before plus the ticks seen times the rate |
| RateLimitRuns.RunBalance | core/src/main/jni/libevent/bufferevent_sock.c:182-211 | the same over every run |
| RateLimitRuns.SeenPassed | core/src/main/jni/libevent/bufferevent_ratelim.c:73-111 | ticks seen through 32-bit tick numbers are ticks of the clock that really passed, wrap-around included |
| RateLimitRuns.ReadsWithinRate | core/src/main/jni/libevent/bufferevent_sock.c:182-211 | between two clock ticks every run reads at most the maximum plus the ticks between them times the rate |
| RateLimitRuns.FiringShrinksDeficit | core/src/main/jni/libevent/bufferevent_ratelim.c:393-439 | a firing that sees a new tick shrinks each deficit by at least one tick's rate and lets go of a direction exactly when it is positive |
| RateLimitRuns.FiringsShrink | core/src/main/jni/libevent/bufferevent_ratelim.c:393-439 | the same over every series of firings |
| RateLimitRuns.Wait | core/src/main/jni/libevent/bufferevent_ratelim.c:393-439 | the timer stays pending until both directions are let go, and for every deficit a bounded number of firings lets its direction go |
| RateLimitRuns.RefillsGoOn | core/src/main/jni/libevent/bufferevent_ratelim.c:49-71 | after a change of the configuration the next tick refills if and only if the gap between old and new tick count, modulo 2^32, is below INT_MAX; for counts less than 2^31 apart: if and only if the new count is not behind |
| RateLimitRuns.StallLasts | core/src/main/jni/libevent/bufferevent_ratelim.c:49-71 | otherwise nothing is refilled until the new count has caught up with the old one, and the tick after that refills |
| RateLimitRuns.ShorterTicksAreSafe | core/src/main/jni/libevent/bufferevent_ratelim.c:126-140 | a tick length that does not grow never puts the new count behind |
| RateLimitRuns.LongerTicksStall | core/src/main/jni/libevent/bufferevent_ratelim.c:49-71 | an instance: from ticks of a millisecond to ticks of a second at second 1000, nothing is refilled before second 1000001 |
| GroupSuspension.StepKeepsBucket | core/src/main/jni/libevent/bufferevent_ratelim.c:272-557 | the group bucket stays within its bounds, and an overdrawn one has its group suspended |
| GroupSuspension.StepRemembers | core/src/main/jni/libevent/bufferevent_ratelim.c:348-557 | after every step of any thread each flagged member is remembered: by a pass that will still visit it, a pass that will set pending, the suspended flag or the pending flag |
| GroupSuspension.StepKeepsInv | core/src/main/jni/libevent/bufferevent_ratelim.c:228-807 | every step of every thread keeps the whole invariant |
| GroupSuspension.RunKeepsInv | core/src/main/jni/libevent/bufferevent_ratelim.c:228-807 | so does every interleaved run |
| GroupSuspension.FlaggedMembersAreRemembered | core/src/main/jni/libevent/bufferevent_ratelim.c:734-778 | in every reachable state without a pass in progress a member flagged, or about to be by an unfinished add, has its group suspended or an unsuspend pending |
| GroupSuspension.RefillRetries | core/src/main/jni/libevent/bufferevent_ratelim.c:528-557 | the refill timer starts a pass over every such member once the minimum share is there, which a bounded number of ticks ensures |
| GroupSuspension.PassReleases | core/src/main/jni/libevent/bufferevent_ratelim.c:487-504 | a member whose lock could be taken when the pass came to it is unflagged at its end, whatever other threads do meanwhile |
| GroupSuspension.PassEnds | core/src/main/jni/libevent/bufferevent_ratelim.c:487-504 | whoever is still flagged when a pass ends has an unsuspend pending |
| GroupSuspension.ChargeIs | core/src/main/jni/libevent/bufferevent_ratelim.c:272-293 | a charge takes exactly its bytes and starts a suspend pass over every member exactly if the bucket is exhausted |
| GroupSuspension.RefillingIs | core/src/main/jni/libevent/bufferevent_ratelim.c:528-557 | a refill is the clipped sum and starts an unsuspend pass exactly if one is pending or the minimum share is there |
| GroupSuspension.RunHolds | core/src/main/jni/libevent/bufferevent_ratelim.c:348-373 | a flagged member stays flagged while its group stays suspended, whatever other threads do, until it has left |
| GroupSuspension.SuspendedMembersStop | core/src/main/jni/libevent/bufferevent_ratelim.c:228-373 | a suspended group stops its members: each whose lock the pass got is flagged from then on, each other one from its next question on |
| GroupSuspension.AddedMembersStop | core/src/main/jni/libevent/bufferevent_ratelim.c:734-778 | a member added to a suspended group is flagged when the add is done |
| GroupSuspension.NobodyIsStuck | core/src/main/jni/libevent/bufferevent_ratelim.c:228-807 | no pass gets stuck, and between passes members can ask, charge, join and leave |
| GroupSuspension.RemovedIs | core/src/main/jni/libevent/bufferevent_ratelim.c:786-807 | a member that has left is neither flagged nor in the group |
| GroupSuspension.ConfigureIs | core/src/main/jni/libevent/bufferevent_ratelim.c:671-722 | a new configuration only clips the bucket; the minimum share is at most one tick's rate |
| BuffereventPair.PairNew | core/src/main/jni/libevent/bufferevent_pair.c:114-150 | both directions start empty with the ends frozen that only the pair may use |
| BuffereventPair.Move | core/src/main/jni/libevent/bufferevent_pair.c:152-192 | moves exactly the portion the watermark allows, and the frozen ends are frozen again |
| BuffereventPair.Transfer | core/src/main/jni/libevent/bufferevent_pair.c:152-192 | be_pair_transfer is the specified one: the portion the watermark allows moves, and the flag follows; the frozen ends are frozen again |
| BuffereventPair.EnableBackend | core/src/main/jni/libevent/bufferevent_pair.c:224-250 | hands over in both directions exactly what the specification says |
| BuffereventPair.CheckMark | core/src/main/jni/libevent/bufferevent.c:135-149 | the watermark flag is set exactly when the input has reached the mark, and bytes that may move again do, as specified |
| BuffereventPair.SetHigh | core/src/main/jni/libevent/bufferevent.c:593-638 | a new mark is in force at once, as specified |
| BuffereventPair.UnsuspendRead | core/src/main/jni/libevent/bufferevent.c:77-86 | lifting the last suspension hands over what was waiting, as specified |
| BuffereventPair.UnsuspendWrite | core/src/main/jni/libevent/bufferevent.c:99-108 | lifting the last suspension hands over what was waiting, as specified |
| BuffereventPair.SuspendRead | core/src/main/jni/libevent/bufferevent.c:66-75 | one reason more and nothing else |
| BuffereventPair.SuspendWrite | core/src/main/jni/libevent/bufferevent.c:88-97 | one reason more and nothing else |
| BuffereventPair.Enable | core/src/main/jni/libevent/bufferevent.c:481-503 | enabling hands over what was waiting for it, as specified |
| BuffereventPair.Disable | core/src/main/jni/libevent/bufferevent.c:572-587 | flags shrink and nothing else |
| BuffereventPair.Write | core/src/main/jni/libevent/bufferevent_pair.c:204-222 | accepted bytes are behind what was on its way, and handed over at once if the partner reads; refused exactly above the chain limit |
| BuffereventPair.Read | core/src/main/jni/libevent/bufferevent.c:469-473 | gives the oldest bytes of the input and lets the partner's waiting bytes follow, as specified |
| BuffereventPair.FlushPair | core/src/main/jni/libevent/bufferevent_pair.c:304-337 | a flush hands over what the specification says, in normal mode nothing |
| BuffereventPair.Perform | core/src/main/jni/libevent/bufferevent_pair.c:114-337 | each operation has exactly its specified effect on both ends, and hands its user exactly the specified bytes |
| PairSpec.StepConserves | core/src/main/jni/libevent/bufferevent_pair.c:152-192 | each direction is a queue: a write adds at its end, a read takes from its front, nothing else changes what is on its way |
| PairSpec.StepSettles | core/src/main/jni/libevent/bufferevent_pair.c:152-250 | after every operation the watermark flags are right and nothing waits that could move: with writer and reader enabled and neither suspended the output is empty |
| PairSpec.GoodIsHanded | core/src/main/jni/libevent/bufferevent_pair.c:194-222 | written in the flags alone: writer enabled and not suspended, reader enabled and not suspended, then no output waits |
| PairSpec.ClosedStays | core/src/main/jni/libevent/bufferevent_pair.c:194-222 | through a direction whose reader or writer is disabled, or whose reader is suspended, nothing goes: its input does not grow |
| PairSpec.OpensOnlyIfFree | core/src/main/jni/libevent/bufferevent.c:66-108 | disabling and suspending move nothing; enabling and unsuspending move bytes only where nobody suspends any more; a reached mark moves nothing |
| PairSpec.StepFlags | core/src/main/jni/libevent/bufferevent.c:66-108 | what each operation does to flags, suspensions and mark of both ends |
| PairSpec.StepNotOver | core/src/main/jni/libevent/bufferevent.c:135-149 | no operation but a flush or a new mark takes an input above its mark |
| PairSpec.FlushIs | core/src/main/jni/libevent/bufferevent_pair.c:304-337 | a flush empties the output exactly if there is no mark, the mark is reached already, or all of it fits below the mark; otherwise it fills the input to the mark |
| PairSpec.LosslessQueues | core/src/main/jni/libevent/bufferevent_pair.c:114-337 | over every run of the specification each direction is a lossless queue |
| PairSpec.RunSettles | core/src/main/jni/libevent/bufferevent_pair.c:114-337 | in every state of every run no output waits if writer and reader are enabled and neither is suspended |
| PairSpec.RunClosed | core/src/main/jni/libevent/bufferevent_pair.c:194-222 | in every run a step that opens nothing adds nothing to the input of a closed direction |
| PairSpec.RunNotOver | core/src/main/jni/libevent/bufferevent.c:135-149 | over every run without flushes and new marks no input grows above its mark |
| PairSpec.AlwaysAllowed | core/src/main/jni/libevent/bufferevent_pair.c:114-337 | runs leave out nothing: every operation is allowed in every state but setting the watermark's flag and writing more than memory holds |
| BuffereventPair.Run | core/src/main/jni/libevent/bufferevent_pair.c:114-337 | every run is a run of the specification, state by state and read by read; in each direction what was on its way, then what was written, is what was read, then what is in the partner's input and own output; an output is empty whenever writer and reader are enabled and not suspended; nothing goes through a closed direction; without flushes and new marks no input grows above its mark |
| Nameservers.PickRotates | core/src/main/jni/libevent/evdns.c:1349-1382 | picking the first server that is up moves it behind the others that are up |
| Nameservers.Servers.Add | core/src/main/jni/libevent/evdns.c:2575-2586 | a new server goes behind the head and counts as up; a known one changes nothing |
| Nameservers.Servers.Failed | core/src/main/jni/libevent/evdns.c:561-590 | the count equals the number of servers that are up |
| Nameservers.Servers.CameUp | core/src/main/jni/libevent/evdns.c:621-640 | the count equals the number of servers that are up |
| Nameservers.Servers.Pick | core/src/main/jni/libevent/evdns.c:1349-1382 | the server and the new order are those of the rotation: a server exactly if there is one, an up one exactly if one is up, and then the one waiting longest; with none up each has its turn |
| Nameservers.Servers.PickUp | core/src/main/jni/libevent/evdns.c:1362-1381 | the search ends before it is back at its start, so its assertion is never reached |
| Nameservers.PickRound | core/src/main/jni/libevent/evdns.c:1349-1382 | nameserver_pick called again and again gives exactly the specified rotation; as many calls as servers are up give each of them exactly once, and with none up as many calls as servers give each server once |
| Nameservers.FairRound | core/src/main/jni/libevent/evdns.c:1349-1382 | fairness from every ring: as many picks in a row as servers are up pick each of them exactly once; with none up each server has its turn |
| RequestLists.OneBucket | core/src/main/jni/libevent/evdns.c:394-394 | looking in the id's bucket is as good as looking everywhere |
| RequestLists.Find | core/src/main/jni/libevent/evdns.c:472-487 | finds a request exactly if one in flight has the id, the first of its bucket |
| RequestLists.SomeIdUnused | core/src/main/jni/libevent/evdns.c:1332-1344 | with fewer than 65535 requests in flight the search for an id can end |
| Resolver.Base.constructor | core/src/main/jni/libevent/evdns.c:3962-4049 | a new base is consistent and empty |
| Resolver.Base.PickId | core/src/main/jni/libevent/evdns.c:1332-1344 | an id that nobody in flight has, never 0xffff |
| Resolver.Base.SwapNs | core/src/main/jni/libevent/evdns.c:548-557 | the request moves to the server and both servers' counts follow |
| Resolver.Base.Pump | core/src/main/jni/libevent/evdns.c:746-774 | a pump of the specification: the oldest requests go out one by one, each with an unused id and the rotation's server, until nothing waits, the limit is reached or there is no server |
| Resolver.Base.Finish | core/src/main/jni/libevent/evdns.c:652-710 | exactly this request goes; the counters follow and the queue is pumped |
| Resolver.Base.FinishWaiting | core/src/main/jni/libevent/evdns.c:2878-2911 | exactly this waiting request goes and the queue is pumped |
| Resolver.Base.New | core/src/main/jni/libevent/evdns.c:2780-2854 | gets an unused id below the limit, and a server exactly if below the limit and one exists |
| Resolver.Base.Submit | core/src/main/jni/libevent/evdns.c:2857-2875 | goes in flight exactly with a server, else last in the queue; ids stay unique exactly if its own is unused then |
| Resolver.Base.Resolve | core/src/main/jni/libevent/evdns.c:2915-2939 | in flight exactly if below the limit with a server, else last in the queue; ids stay unique |
| Resolver.Base.Probe | core/src/main/jni/libevent/evdns.c:2331-2356 | forced into flight to that server, with an unused id |
| Resolver.Base.SearchNext | core/src/main/jni/libevent/evdns.c:3289-3330 | replaces the request; ids stay unique if the queue was pumped; leaves it waiting with nothing in flight to wake it exactly if the limit is 1, the old request was the only one and nothing waited |
| ResolverSpec.PumpsIds | core/src/main/jni/libevent/evdns.c:746-774 | a pump keeps ids unique, gives up no id in use and ends pumped |
| ResolverSpec.CanPump | core/src/main/jni/libevent/evdns.c:746-774 | there always is a pump to the end, with an unused id for every request |
| ResolverSpec.SearchKeepsIds | core/src/main/jni/libevent/evdns.c:3289-3330 | going on to the next name keeps ids unique in a pumped state |
| ResolverSpec.SearchMayClash | core/src/main/jni/libevent/evdns.c:3289-3330 | in every other state it may put two requests with one id in flight |
| ResolverSpec.SearchClashesIff | core/src/main/jni/libevent/evdns.c:3289-3330 | so a search may break uniqueness if and only if requests wait although there is room and a server |
| Resolver.RaisedLimit | core/src/main/jni/libevent/evdns.c:3425-3454 | such a state is reached: limit 1, two requests, the limit raised |
| Resolver.Base.ReassignBucket | core/src/main/jni/libevent/evdns.c:606-618 | every unsent request of the failed server in the bucket moves, in order, to the server whose turn it is, one that is up; nothing else changes |
| Resolver.Base.Failed | core/src/main/jni/libevent/evdns.c:561-619 | exactly the specified reassignment, bucket by bucket in the order of the rotation; while another server is up no unsent request stays with the failed one; nothing else changes |
| Resolver.Base.CameUp | core/src/main/jni/libevent/evdns.c:621-640 | a probe in flight is cancelled first, then the server counts as up |
| Resolver.Base.Reissue | core/src/main/jni/libevent/evdns.c:718-739 | pointless exactly when the rotation gives the same server; never pointless if the old one is down and another is up |
| Resolver.Base.Timeout | core/src/main/jni/libevent/evdns.c:2176-2212 | gives up on exactly this request after the last attempt, pumps and fails its server, or sends it once more to the rotation's server; which requests are held changes by exactly that |
| Resolver.Base.AddServer | core/src/main/jni/libevent/evdns.c:2501-2598 | one more server without load |
| Resolver.Rehash | core/src/main/jni/libevent/evdns.c:3425-3454 | every request is appended to its bucket for the new number of buckets, in the order of the old ones; none lost or doubled |
| Resolver.Base.SetMax | core/src/main/jni/libevent/evdns.c:3425-3454 | the limit is at least 1 and the buckets are rehashed to fit it |
| Resolver.Perform | core/src/main/jni/libevent/evdns.c:472-774 | each step of a run is the step of the specification; requests held plus requests ended are those held before plus those asked for; ids stay unique unless a search meets an unpumped queue |
| Resolver.Run | core/src/main/jni/libevent/evdns.c:472-774 | every run is a run of the specification; over it the counters equal the list lengths, each request in flight has a server, an id and its bucket, per-server counts match, requests held and ended are exactly those asked for, and ids are unique if searches met pumped queues only |
| ResolverPromises.StepLedger | core/src/main/jni/libevent/evdns.c:472-774 | in every step of the specification what is held and what ended are what was held and what was asked for |
| ResolverPromises.ResendCounts | core/src/main/jni/libevent/evdns.c:2176-2299 | a timeout that does not give up counts one transmission more of this request, to the rotation's server, also if that server fails by it |
| ResolverPromises.StepTracks | core/src/main/jni/libevent/evdns.c:472-774 | a request in flight that does not end stays in flight, and its count of transmissions changes only when it is sent or reissued |
| ResolverPromises.GivenUpInTime | core/src/main/jni/libevent/evdns.c:2176-2212 | in every run a request sent tx times survives at most retransmits - tx timeouts, and the next one ends it |
| ResolverPromises.FailureMoves | core/src/main/jni/libevent/evdns.c:561-619 | when a server fails exactly its unsent requests move, to servers that are up, and nothing else changes |
| ResolverPromises.ProbeGoes | core/src/main/jni/libevent/evdns.c:2331-2356 | a probe is in flight to the server it is about |
| ResolverPromises.AlwaysPossible | core/src/main/jni/libevent/evdns.c:472-774 | runs leave out nothing: every step is possible whenever its request or server is there |
| MinHeaps.TopIsLeast | core/src/main/jni/libevent/minheap-internal.h:69-69 | the first entry of an ordered heap is a least one |
| MinHeaps.MinHeap.Top | core/src/main/jni/libevent/minheap-internal.h:69-69 | an earliest event, or none exactly for an empty heap |
| MinHeaps.MinHeap.ShiftUp | core/src/main/jni/libevent/minheap-internal.h:153-174 | a hole anywhere above which entries may be later is filled; order and positions are right again |
| MinHeaps.MinHeap.ShiftDown | core/src/main/jni/libevent/minheap-internal.h:177-190 | a hole anywhere below which entries may be earlier is filled; order and positions are right again |
| MinHeaps.MinHeap.Push | core/src/main/jni/libevent/minheap-internal.h:71-77 | one more entry, order and positions kept |
| MinHeaps.MinHeap.Pop | core/src/main/jni/libevent/minheap-internal.h:79-89 | the entry that goes was an earliest one |
| MinHeaps.MinHeap.Erase | core/src/main/jni/libevent/minheap-internal.h:96-115 | exactly this event goes, from wherever it is; the last entry moves up or down and never needs both |
| EventLists.InsertInOrder | core/src/main/jni/libevent/event.c:3330-3358 | the list stays sorted and without repetition, the others keep their order, and the new one is in front of exactly those that are later |
| EventBases.EventBase.constructor | core/src/main/jni/libevent/event.c:604-741 | a new base is consistent and empty |
| EventBases.EventBase.InsertActive | core/src/main/jni/libevent/event.c:3376-3395 | at the end of its priority's queue; flags and both counters follow |
| EventBases.EventBase.RemoveActive | core/src/main/jni/libevent/event.c:3235-3250 | off its queue only; flags and both counters follow |
| EventBases.EventBase.InsertLater | core/src/main/jni/libevent/event.c:3397-3412 | at the end of the later queue; flags and both counters follow |
| EventBases.EventBase.RemoveLater | core/src/main/jni/libevent/event.c:3251-3265 | off the later queue; flags and both counters follow |
| EventBases.EventBase.InsertInserted | core/src/main/jni/libevent/event.c:3360-3374 | flag and event count follow |
| EventBases.EventBase.RemoveInserted | core/src/main/jni/libevent/event.c:3223-3234 | flag and event count follow |
| EventBases.EventBase.InsertTimeout | core/src/main/jni/libevent/event.c:3414-3436 | into the heap, or in order into its common-timeout list; first there exactly if earlier than all |
| EventBases.EventBase.RemoveTimeout | core/src/main/jni/libevent/event.c:3266-3286 | off the heap or its list, and nothing else moves |
| EventBases.EventBase.Add | core/src/main/jni/libevent/event.c:2596-2766 | registered exactly if needed and accepted; the new deadline; off the active queue exactly if it was there by timeout; nothing else changes, and every common timeout still has its timer in time |
| EventBases.EventBase.Schedule | core/src/main/jni/libevent/event.c:1449-1456 | the timer is in the heap at the first event's deadline |
| EventBases.EventBase.Del | core/src/main/jni/libevent/event.c:2809-2898 | off every list, every other callback in place |
| EventBases.EventBase.DelEvent | core/src/main/jni/libevent/event.c:2768-2790 | the same for users' events: timers stay in time |
| EventBases.EventBase.RemoveTimer | core/src/main/jni/libevent/event.c:2554-2571 | only the timeout goes |
| EventBases.EventBase.Activate | core/src/main/jni/libevent/event.c:3005-3034 | active exactly once, from the later queue if it was there; says whether it was new |
| EventBases.EventBase.ActivateEvent | core/src/main/jni/libevent/event.c:2918-2967 | the same, with the result bits added or set |
| EventBases.EventBase.ActivateLater | core/src/main/jni/libevent/event.c:3036-3047 | in the later queue exactly if it was in neither; never in both |
| EventBases.EventBase.Fire | core/src/main/jni/libevent/event.c:3196-3202 | off every list and at the end of its priority's queue |
| EventBases.EventBase.TimeoutProcess | core/src/main/jni/libevent/event.c:3180-3204 | exactly the due heap entries become active, appended to each priority's queue in deadline order; what is still overdue is in a list whose timer is active or running |
| EventBases.EventBase.PromoteFirst | core/src/main/jni/libevent/event.c:3438-3451 | moves from the later queue to its priority's queue, no counter changing |
| EventBases.EventBase.Assign | core/src/main/jni/libevent/event.c:2112-2161 | a new callback in no list |
| EventBases.EventBase.InitCommon | core/src/main/jni/libevent/event.c:1486-1558 | one list for each length, an existing one found again; refused exactly with 256 others |
| EventBases.TimedChange | core/src/main/jni/libevent/event.c:2666-2757 | timers stay in time when an event leaves a list or joins one not in front |
| EventBases.TimedFire | core/src/main/jni/libevent/event.c:3180-3204 | timers stay in time when a timeout fires, a timer's own included |
| EventLoop.Announced | core/src/main/jni/libevent/event.c:3142-3177 | with nothing active every pending deadline has a heap entry no later than it |
| EventLoop.TimeoutNext | core/src/main/jni/libevent/event.c:3142-3177 | when the loop asks, the wait never goes past a pending deadline and is endless only if nothing is pending; it always is some deadline's |
| EventLoop.FireList | core/src/main/jni/libevent/event.c:1467-1477 | the due events are the front of the list and fire in order |
| EventLoop.CommonTimeout | core/src/main/jni/libevent/event.c:1461-1482 | exactly the due events of the list fire and the timer is set again for the first that is left |
| EventLoop.ExpireAll | core/src/main/jni/libevent/event.c:1461-3204 | heap and lists together behave as one queue of deadlines: exactly the due events become active, exactly the others stay pending |
| EventLoop.Activate | core/src/main/jni/libevent/event.c:2900-2967 | event_active on a user's event keeps the whole invariant |
| EventLoop.ActivateLater | core/src/main/jni/libevent/event.c:2977-2992 | in the later queue unless active or there already |
| EventLoop.ScheduleDeferred | core/src/main/jni/libevent/event.c:3123-3140 | queued now up to the round's quota, else for the next round; counted exactly if newly active |
| EventLoop.MakeLaterActive | core/src/main/jni/libevent/event.c:3438-3451 | each priority's queue gets its callbacks in order behind what it held, and the later queue is empty |
| EventLoop.Take | core/src/main/jni/libevent/event.c:1642-1667 | the first callback leaves its queue; a persistent one stays elsewhere, another event leaves every list |
| EventLoop.PersistClosure | core/src/main/jni/libevent/event.c:1561-1608 | reschedules exactly an event with an interval that the interest map does not refuse; the next run is one interval after the last deadline if that fired and is not past, else after now; the assertion on common timeouts cannot fail |
| EventLoop.AddShown | core/src/main/jni/libevent/event.c:2596-2766 | event_add as a step of the specification, refusal by the interest map included |
| EventRuns.ProcessOne | core/src/main/jni/libevent/event.c:1633-1751 | one round up to the user's callback takes the first callback off its queue, and exactly then reschedules a persistent event |
| EventRuns.RunTimer | core/src/main/jni/libevent/event.c:1461-1482 | the common timeout's callback fires exactly the due front of its list, in order, and sets its timer again |
| EventRuns.Expire | core/src/main/jni/libevent/event.c:3180-3204 | exactly the due heap entries move, in deadline order, to the ends of their queues |
| EventRuns.AddEvent | core/src/main/jni/libevent/event.c:2596-2766 | event_add by a user, with the interval remembered for persistent events |
| EventRuns.Activate | core/src/main/jni/libevent/event.c:2900-2967 | event_active with EV_TIMEOUT or without, as a step of the specification |
| EventRuns.ActivateLater | core/src/main/jni/libevent/event.c:2969-2992 | event_active_later_ with EV_TIMEOUT or without, as a step of the specification |
| EventRuns.BeginRound | core/src/main/jni/libevent/event.c:1956-1958 | the loop's quota of deferred callbacks starts anew and nothing else changes |
| EventRuns.Perform | core/src/main/jni/libevent/event.c:2596-3451 | each step of users, loop and timers is the step of the specification |
| EventRuns.Run | core/src/main/jni/libevent/event.c:2596-3451 | every run from a new base is a run of the specification; over it each callback is in exactly the lists its flags say, active and later exclusive, counters equal to memberships, lists sorted, timers in time (what event_base_assert_ok_nolock_ checks, and more) |
| EventPromises.AddStarts | core/src/main/jni/libevent/event.c:2596-2766 | a persistent event added with a timeout is pending for now plus that timeout |
| EventPromises.Rescheduled | core/src/main/jni/libevent/event.c:1561-1751 | after its callback was taken a persistent event is pending again, never before now and without drift while it is on time, and registered again |
| EventPromises.StepKeepsWaiting | core/src/main/jni/libevent/event.c:2596-3451 | no step of users, loop or timers loses a persistent event with an interval unless it deletes it, takes its timer, sets a timeout of nothing, or the interest map refuses it |
| EventPromises.RunKeepsWaiting | core/src/main/jni/libevent/event.c:2596-3451 | so over every run such an event is pending or queued in every state |
| EventPromises.QuotaOfARound | core/src/main/jni/libevent/event.c:3123-3140 | callbacks are deferred to the next round exactly after 33 in one round |
| EventPromises.CommonIs | core/src/main/jni/libevent/event.c:1486-1558 | up to 256 lengths have a list each |
| EventPromises.AssignedIs | core/src/main/jni/libevent/event.c:2112-2161 | an assigned event has exactly the flags it was given |
| EventPromises.AlwaysPossible | core/src/main/jni/libevent/event.c:2596-3451 | runs leave out nothing: a user's event can be added, deleted and activated in every state, and the loop can go on |

## Left out

- Memory of chains, the chain list, queues and buckets are sequence-valued fields with identities instead of linked nodes, so aliasing of one node by two lists is ruled out by stated disjointness and not by pointers; pointers into a list (`last_with_datap`) are links named by the identity of the chain before.
- Allocation succeeds except above the size limits the code checks itself; 64-bit sizes are assumed (48-byte chain header, 1024-byte minimum).
- In a bufferevent's read, an error of the allocation or the assertion that an empty request can fail; a refused connection is a read that finds nothing.
- Multicast and file-segment chains, sendfile, pinned chains, `evbuffer_peek`, `evbuffer_add_printf`, iovec input and the socket reads and writes of evbuffers.
- evbuffer callbacks and their counters, except the two that drive a bufferevent pair; user callbacks are steps of a run and do not re-enter an operation in progress.
- Locks, except the member and group locks of rate-limit groups and the window before a common timeout's callback takes the base lock; cross-thread wake-ups of the event loop.
- Edge-triggered events, signal events, finalizers, debug checks, `event_reinit`, virtual events, priorities changing after assignment, `event_continue` and the dispatch limits.
- Other backends than epoll, and the epoll errors EPERM and EBADF; the wait itself and the delivery of its results.
- evdns: parsing replies beyond names, building queries, sending and receiving (a transmission is a step of its own), resolv.conf and hosts files, getaddrinfo, clearing all nameservers, random case.
- OpenSSL, filter and IOCP bufferevents, bufferevent timeouts, freeing bufferevents and unlinking pairs.
- The magic bits that mark common timeouts inside a `struct timeval` are an explicit field; times are microsecond counts.
- Evbuffers.Evbuffer.AddReference: memory up to the chain limit only, because the C code takes any size the caller has.
- EvbufferMoves.RemoveBuffer: the two lengths together fit a size_t, as buffers in one address space do.
- EvbufferSearch.PtrMatches: only whether the comparison is zero, because its one caller asks nothing else.
- DnsNames.ToLabels: one spare byte behind the limit, because the C code writes its final NUL there unchecked.
- Tagging.Marshal: payloads below 2^32 bytes, the range of the length parameter.
- TokenBuckets.Tick: the tick length is at least a millisecond, since shorter ones make the C code divide by zero.
- RateLimits.Bufferevent.DecrementRead: charges are byte counts that were read, so not negative, and do not pass the counter's range.
- RateLimits.Bufferevent.DecrementWrite: charges are byte counts that were written, likewise.
- GroupSuspension.StepKeepsInv: one direction of one group; which members a pass visits first does not matter and is left open.
- EventLoop.ExpireAll: no user callback runs between the timers; with user callbacks in between the invariant of EventRuns.Run holds.
- Resolver.Base.PickId: the random source is any unused id, and the loop that draws ids is not modelled draw by draw.
