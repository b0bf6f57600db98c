# Buffers, rate limits, a memory pool and a thread pool

A verification project in Dafny 4.11 for five parts of the repository: the buffers of libevent with
the bufferevents over them, libevent's rate limiting, the generator behind `arc4random`, the
nginx-style memory pool, and the thread pool.  `dafny verify dfyconfig.toml` checks all of it.

What works in place is modelled in place.  Each such method is proved against a function on values,
and what the system promises is proved about that function, for every input and every run.

- **Buffers** (`ChainValues`, `EvBuffer`, `EvBufferSplice`, `EvBufferReserve`, `EvBufferExpand`,
  `EvBufferRead`, `EvBufferSearch`, `EvBufferLines`, `EvBufferRun`).  A buffer is a linked list of
  chains on the heap, each an array with its `misalign` and `off`, and a cached length, `last` and
  `last_with_datap`.  The last is a pointer to a pointer: here it is the chain whose `next` it is, or
  null for the head.  The meaning is a plain `seq<byte>`.  `Valid` says that the list is wired, that
  `last_with_datap` names the last chain with data (empty chains may stand before and behind it), and
  that the length is that of the bytes.  `EvBufferRuns.RunAll` puts it together: any run of operations
  on two buffers is the same run on two byte sequences.
- **Pairs** (`PairSpec`, `Pair`, `PairRun`).  Two ends over four such buffers, with freezing,
  watermarks and the callbacks that start further transfers.  No byte is lost, doubled or reordered in
  any run, on values (`PairSpec.RunKeeps`) and over the buffers (`PairRuns.RunNewPair`).
- **Rate limits** (`TokenBucket`, `RateLimit`, `SocketBufferevent`, `RateGroup`, `RateLimitGroup`,
  `RateLimitRun`, `RateGroupRun`).  Buckets in the machine's `size_t` and `ssize_t` arithmetic with
  wrapping ticks; one bufferevent with its suspend flags, events and refill timer; and a group whose
  members' locks may be taken.  `RateLimitRuns.RunWindow` and `RateGroupRuns.RunGroup` bound what the
  objects move, whatever is called in a window of time.
- **Memory pool** (`PoolSpec`, `Pool`, `PoolRun`).  Blocks with bump pointers and failure counters, and
  the list of large regions whose nodes lie in the pool.  What malloc answers is a parameter of each
  step; `PoolRuns.Life` accounts for every region it gives.
- **Thread pool** (`ThreadPoolSpec`, `ThreadPool`, `ThreadPoolRun`).  A state machine of what each thread
  does while it holds the mutex.  `pthread_cond_wait` may return unasked and `pthread_cond_signal` wakes
  at least one of those waiting, as in the System Interfaces volume of IEEE Std 1003.1-2017.  The linked
  queue with its tail pointer is proved to take the same steps, and `ThreadPoolRuns.RunQueue` follows
  each task from its posting to its release.
- **Generator** (`Arc4`).  `arc4random_uniform` without bias, and the permutation under it.

Sizes are those of an LP64 system: chain header 48, pool header 56, node 16, `size_t` 64 bits.

## Where the code does less than one may expect

Each of these is stated with its exact condition or bound.

- `evbuffer_remove_buffer` ignores the result of its last `evbuffer_add`: bytes are lost exactly if the
  two lengths overflow a `size_t` and the cut falls inside a chain (`EvBufferSplice.Arrives`).  Chains
  in memory never hold as much, so with the chains modelled here this is a limit of the contract only.
- `evbuffer_prepend` that cannot get its new chain has already put in what fitted the first
  (`EvBuffers.EvBuffer.Prepend`).  The model refuses only chains larger than any can be; in the source
  it is whenever `malloc` in `evbuffer_chain_new` gives nothing.
- A single vector from `evbuffer_reserve_space` is refused by `evbuffer_commit_space` exactly if the
  chain behind the last one with data was used although others follow it (`EvBufferExpand.ReserveOne`,
  `EvBufferExpand.RefusedCommit`).
- Setting a new rate limit keeps the time of the last update, although it counts ticks of the old
  length.  After a change to longer ticks an exhausted bufferevent stays suspended, however often its
  timer goes off, until the new count is ahead of the old one: 56 years for a change from milliseconds
  to seconds made in 2023 (`RateLimit.ReconfiguredRefills`, `RateLimit.StallReached`).
- An update clamps only limits at or below the maximum; one that refunds raised above it is added to
  and may wrap (`TokenBucket.RefillExact`, `TokenBucket.RefillPositive`, `RateLimit.RefundWraps`).
- Reserving 0 bytes in two vectors or more runs into an assertion exactly if the last chain with data
  is full and none follows (`EvBufferReserve.ReserveSpace`, `EvBufferReserve.AbortedReservation`).  So
  does a read that asks for 0 bytes; where there is a chain to start in it returns 0, as at the end of
  the stream (`EvBufferRead.Read`).
- An allowance that is a multiple of 2^32 is cast to such an ask (`TokenBucket.CastKeepsAllowance`):
  with bytes waiting the bufferevent is disabled as at the end of the stream, or aborts
  (`SocketBufferevents.CastStarves`).
- With a least share of 0 a group can be released at limit 0 (`RateGroup.TickKeepsExactly`,
  `RateGroup.ReleasedWithNothing`, `RateLimitGroups.Group.RefillCallback`), and a member can be offered
  nothing (`RateGroup.ShareOfNothing`), which ends the same way (`RateLimitGroups.ShareStarves`).
- A group's own bucket is updated by its timer alone, so that the ticks the timer is late come on top of
  the burst (`RateGroup.GroupWindow`, `RateGroup.LateTimer`).
- A pool whose size is not a multiple of 8 serves an aligned request behind its block, because the
  negative difference is cast to `size_t` (`PoolSpec.SafeExactly`).

## Model

| member | source | states |
|---|---|---|
| EvBuffers.ChainNew | libevent/libevent-2.1.12-stable/buffer.c:157-193 | the allocation doubles from the least size until it holds the request and its header, and is refused exactly above the largest chain |
| ChainValues.AllocSize | libevent/libevent-2.1.12-stable/buffer.c:157-177 | the rounded size is at least what was asked and at most the largest chain |
| ChainValues.AllocIs | libevent/libevent-2.1.12-stable/buffer.c:164-177 | the memory of a new chain is the least of 1024, 2048, 4096 ... that is enough with the header, or just what is asked for if that is huge |
| EvBuffers.EvBuffer.constructor | libevent/libevent-2.1.12-stable/buffer.c:362-375 | a new buffer is valid and holds nothing |
| EvBuffers.EvBuffer.SetFreeze | libevent/libevent-2.1.12-stable/buffer.c:3401-3423 | freezing changes no contents |
| EvBuffers.EvBuffer.FreeAllChains | libevent/libevent-2.1.12-stable/buffer.c:255-263 | frees each chain from one on once, in order, and reads none of them after that |
| EvBuffers.EvBuffer.FindTrailing | libevent/libevent-2.1.12-stable/buffer.c:291-297 | stops at the link behind the last data |
| EvBuffers.EvBuffer.FreeTrailingEmptyChains | libevent/libevent-2.1.12-stable/buffer.c:290-306 | exactly the chains behind the last one with data go, each freed once and not read after, and the list stays wired |
| EvBuffers.EvBuffer.InsertChain | libevent/libevent-2.1.12-stable/buffer.c:308-327 | the new chain follows what is left after the empty chains are freed, and last_with_datap names it if it has data |
| EvBuffers.EvBuffer.ChainInsert | libevent/libevent-2.1.12-stable/buffer.c:308-327 | an inserted chain appends its bytes, last is that chain, and the invariant holds |
| ChainValues.InsertContent | libevent/libevent-2.1.12-stable/buffer.c:308-327 | trimming empty chains and adding one appends its bytes and keeps the index of the last data |
| ChainValues.TrimmedContent | libevent/libevent-2.1.12-stable/buffer.c:290-306 | freeing the trailing empty chains loses no byte |
| EvBuffers.EvBuffer.AddTo | libevent/libevent-2.1.12-stable/buffer.c:1762-1816 | whichever of the last chain, its realigned memory or a new chain takes them, the bytes are appended |
| EvBuffers.EvBuffer.RealignLast | libevent/libevent-2.1.12-stable/buffer.c:1912-1920 | moving the data to the start of the memory keeps the contents |
| EvBuffers.EvBuffer.Add | libevent/libevent-2.1.12-stable/buffer.c:1729-1824 | appends exactly the bytes, in the last chain with data if that has the room; unless frozen or too long, when nothing changes |
| EvBuffers.EvBuffer.PrependSplit | libevent/libevent-2.1.12-stable/buffer.c:1874-1902 | what does not fit in front of the first chain goes into a new one before it; when that cannot be made only the tail is in |
| EvBuffers.EvBuffer.PrependTo | libevent/libevent-2.1.12-stable/buffer.c:1860-1902 | an empty first chain is filled from its end |
| EvBuffers.EvBuffer.Prepend | libevent/libevent-2.1.12-stable/buffer.c:1826-1910 | puts the bytes in front; succeeds exactly if they fit, and a refused one leaves in what fitted the room in front |
| EvBuffers.EvBuffer.AdvanceLastWithData | libevent/libevent-2.1.12-stable/buffer.c:703-721 | last_with_datap ends at the last chain with data |
| EvBuffers.EvBuffer.DrainWalk | libevent/libevent-2.1.12-stable/buffer.c:1129-1151 | passes over exactly the chains that the length uses up; frees each once, and reads none of them after |
| EvBuffers.EvBuffer.DrainUse | libevent/libevent-2.1.12-stable/buffer.c:1135-1140 | last_with_datap, which is followed at each chain, does not lie in one that was freed before |
| EvBuffers.EvBuffer.DrainSome | libevent/libevent-2.1.12-stable/buffer.c:1125-1157 | drops exactly that many bytes and repairs last_with_datap; the chains freed are those before what is left |
| ChainValues.DropContent | libevent/libevent-2.1.12-stable/buffer.c:1125-1157 | dropping bytes that end inside a chain drops them from the whole, and the index of the last data moves with it |
| EvBuffers.EvBuffer.Drain | libevent/libevent-2.1.12-stable/buffer.c:1100-1166 | the contents lose exactly their first bytes, or all; a frozen front refuses unless there is nothing; the chains freed and those left are those there were, each freed once and not read after |
| EvBuffers.EvBuffer.Gather | libevent/libevent-2.1.12-stable/buffer.c:1419-1435 | the first chain grows by whole chains as long as they fit, which are freed, each once and not read after; the flags say whether last_with_datap was passed |
| EvBuffers.EvBuffer.CloseGap | libevent/libevent-2.1.12-stable/buffer.c:1437-1454 | the list and last_with_datap are right without the chains pulled in, in each of the cases |
| ChainValues.PullContent | libevent/libevent-2.1.12-stable/buffer.c:1419-1443 | chains pulled in whole or in part leave the same bytes |
| EvBuffers.EvBuffer.PullInto | libevent/libevent-2.1.12-stable/buffer.c:1419-1456 | the first chain holds that many bytes more, the contents are the same |
| EvBuffers.EvBuffer.Pullup | libevent/libevent-2.1.12-stable/buffer.c:1349-1461 | never changes the contents; the first chain then holds just the size, or what it held if that is more, whenever there are that many bytes and a chain can be that large; the chains that have gone were freed, each once and not read after |
| EvBufferSplice.TakeChains | libevent/libevent-2.1.12-stable/buffer.c:874-886 | the destination frees its own chains, each once, and gets those of the source, which is empty; no chain is shared |
| EvBufferSplice.AppendChain | libevent/libevent-2.1.12-stable/buffer.c:888-905 | the contents are concatenated behind, the source is empty |
| EvBufferSplice.PrependChain | libevent/libevent-2.1.12-stable/buffer.c:947-963 | the contents are concatenated in front, with last_with_datap of the right buffer |
| EvBufferSplice.AddBuffer | libevent/libevent-2.1.12-stable/buffer.c:965-1009 | appends all of the source and empties it; frozen buffers stay as they were |
| EvBufferSplice.PrependBuffer | libevent/libevent-2.1.12-stable/buffer.c:1054-1098 | puts all of the source in front and empties it; frozen buffers stay as they were |
| EvBufferSplice.Detach | libevent/libevent-2.1.12-stable/buffer.c:1306-1319 | the chains before the cut leave the source, which stays in order |
| EvBufferSplice.AttachedContent | libevent/libevent-2.1.12-stable/buffer.c:1306-1323 | chains handed over append their bytes |
| EvBufferSplice.MoveWhole | libevent/libevent-2.1.12-stable/buffer.c:1292-1323 | the chains that end within the length change hands themselves: the destination has them behind its data, and the source keeps the rest |
| EvBufferSplice.Arrives | libevent/libevent-2.1.12-stable/buffer.c:1259-1347 | no byte is lost exactly if the lengths fit a size_t or the cut falls between chains |
| EvBufferSplice.RemoveFrom | libevent/libevent-2.1.12-stable/buffer.c:1292-1335 | whole chains are spliced and the rest copied: the destination gets the first bytes in order |
| EvBufferSplice.RemoveBuffer | libevent/libevent-2.1.12-stable/buffer.c:1259-1347 | the source loses min(n, length) bytes from its front and the destination gains all of them, in order, if the lengths fit a size_t; else those that arrive |
| EvBufferRuns.StepAt | libevent/libevent-2.1.12-stable/buffer.c:965-1910 | each operation on two buffers does to their contents, and to their frozen ends, what the plain form says |
| EvBufferRuns.StepAlone | libevent/libevent-2.1.12-stable/buffer.c:670-2410 | adding, prepending, draining, removing, reading a line, pulling up, expanding, reserving and committing, reading from a socket, and freezing do to one buffer what the plain form says |
| EvBufferRuns.ReadAt | libevent/libevent-2.1.12-stable/buffer.c:1686-1723 | evbuffer_readln takes out the line before the one terminator there is, or nothing |
| EvBufferRuns.ReceiveAt | libevent/libevent-2.1.12-stable/buffer.c:2283-2410 | evbuffer_read of at least a byte appends what arrives, up to what it asks for; it never aborts |
| EvBufferRuns.ArrivesMost | libevent/libevent-2.1.12-stable/buffer.c:2302-2308 | that is the front of what arrives, as long as it lasts and as much as may be asked for |
| EvBufferRuns.RunAll | libevent/libevent-2.1.12-stable/buffer.c:965-1910 | every run of these operations on two buffers, frozen or not, equals the run on two plain sequences, and keeps both buffers valid and apart |
| EvBufferRuns.PipeStep | libevent/libevent-2.1.12-stable/buffer.c:1170-1347 | adding, filling reserved room, reading from a socket, moving and removing keep the order of the bytes, whatever is frozen |
| EvBufferRuns.PipeKeeps | libevent/libevent-2.1.12-stable/buffer.c:1170-1347 | in any run through two buffers the bytes that were let in come out once each, in the order they went in |
| EvBufferReserve.CountRoom | libevent/libevent-2.1.12-stable/buffer.c:2071-2096 | counts the room of the first chains with room, which are as they were but that empty ones start at the beginning of their memory |
| EvBufferReserve.AppendEmpty | libevent/libevent-2.1.12-stable/buffer.c:2106-2115 | a new chain without data changes no contents |
| EvBufferReserve.FreeEmpty | libevent/libevent-2.1.12-stable/buffer.c:2117-2136 | the chains without data behind the last one with data are freed, or all of them when there is no data; each once, and not read after |
| EvBufferReserve.ReplaceEmpty | libevent/libevent-2.1.12-stable/buffer.c:2117-2156 | a new chain then makes up the room; it fails exactly if that chain would be too large |
| EvBufferReserve.ExpandFast | libevent/libevent-2.1.12-stable/buffer.c:2048-2158 | at most n chains have the room asked for, contents unchanged; it fails exactly if the new chain it takes would be larger than any; for 0 bytes there is a chain to start in exactly if there was one, or the buffer was empty |
| ChainValues.ReplacedRoom | libevent/libevent-2.1.12-stable/buffer.c:2117-2156 | the last chain with data and the new one have enough room |
| ChainValues.OfferedIsRoom | libevent/libevent-2.1.12-stable/buffer.c:2071-2096 | what is counted is the room of the first chains with room, once the empty ones start at the beginning of their memory |
| EvBufferReserve.SetupVecs | libevent/libevent-2.1.12-stable/buffer.c:2224-2262 | the vectors are the room of consecutive chains from the first with room, all of it but in the last; at least as much as asked, and just as much where that is demanded |
| EvBufferReserve.ReserveSpace | libevent/libevent-2.1.12-stable/buffer.c:670-701 | for two vectors or more: contents unchanged, at most n vectors, each all the room of its chain, with at least size bytes; refused exactly if frozen, the size is negative, or the chain needed is larger than any; aborts exactly if not frozen, the size is 0, the last chain with data is full and none follows |
| EvBufferReserve.HasStart | libevent/libevent-2.1.12-stable/buffer.c:2237-2246 | whether the assertion on the first chain with room holds |
| EvBufferReserve.AbortedReservation | libevent/libevent-2.1.12-stable/buffer.c:670-701 | that case is reached: 976 bytes added to a new buffer, then 0 bytes reserved in two vectors or more |
| EvBufferReserve.RegionsDisjoint | libevent/libevent-2.1.12-stable/buffer.c:2224-2262 | the regions are behind all data, inside their chains, and do not overlap |
| EvBufferReserve.WriteInto | libevent/libevent-2.1.12-stable/buffer.c:670-701 | writing into a region changes no contents and only the memory of that chain, where the bytes then stand |
| EvBufferReserve.CheckVecs | libevent/libevent-2.1.12-stable/buffer.c:760-770 | pass 1 accepts exactly room handed out, or less of it |
| EvBufferReserve.CommitAll | libevent/libevent-2.1.12-stable/buffer.c:771-780 | pass 2 appends what was written in each vector and moves last_with_datap |
| EvBufferReserve.CommitSpace | libevent/libevent-2.1.12-stable/buffer.c:723-791 | succeeds exactly if not frozen and the vectors are room of the first chains with room, or none, or one behind the last chain; appends the bytes in them |
| EvBufferReserve.FillAndCommit | libevent/libevent-2.1.12-stable/buffer.c:670-791 | regions reserved, filled with any shorter pieces and committed: always succeeds and appends exactly the pieces |
| EvBufferReserve.Fill | libevent/libevent-2.1.12-stable/buffer.c:670-791 | data written into reserved room and committed stands at the end of the buffer, unless the end is frozen |
| EvBufferExpand.Resize | libevent/libevent-2.1.12-stable/buffer.c:2010-2035 | the last chain with data is replaced by a larger copy, also where it is the last of all; contents unchanged |
| EvBufferExpand.InsertNew | libevent/libevent-2.1.12-stable/buffer.c:2037-2040 | a new chain behind the data has the room, unless no chain can be that large |
| EvBufferExpand.MakeRoom | libevent/libevent-2.1.12-stable/buffer.c:1975-2040 | realigns, uses the next chain, adds one or resizes, as the sizes decide |
| EvBufferExpand.CopiesLittle | libevent/libevent-2.1.12-stable/buffer.c:1912-2010 | making room moves at most 2048 bytes within a chain and copies at most 4096 into another |
| EvBufferExpand.FailsWhere | libevent/libevent-2.1.12-stable/buffer.c:1938-2046 | making room fails only where no chain can hold what is asked for with the data to be copied, and always where what is asked for alone is too much |
| EvBufferExpand.ExpandSingle | libevent/libevent-2.1.12-stable/buffer.c:1938-2046 | the chain returned has the room and stands where the way taken puts it, and nothing changes where the first chain with room has enough; null exactly if the chain needed would be too large |
| EvBufferExpand.SingleCommittable | libevent/libevent-2.1.12-stable/buffer.c:723-767 | a single vector is accepted exactly in the first chain with room or the last |
| EvBufferExpand.ReserveOne | libevent/libevent-2.1.12-stable/buffer.c:670-687 | one vector of at least the size; committing it, or less, is refused exactly if the chain after the last one with data was used and others follow |
| EvBufferExpand.Reserve | libevent/libevent-2.1.12-stable/buffer.c:670-701 | for any number of vectors: refused exactly if frozen, without a vector, the size is negative or the chain needed is larger than any; aborts exactly on 0 bytes in two or more without a chain to start in; else at most n vectors with at least size bytes, which can be committed but in the one case |
| EvBufferExpand.Expand | libevent/libevent-2.1.12-stable/buffer.c:2160-2169 | contents unchanged and some chain has the room; it fails exactly if the chain needed is larger than any |
| EvBufferExpand.RefusedCommit | libevent/libevent-2.1.12-stable/buffer.c:670-791 | that case is reached: 900 bytes added, 500 reserved in two vectors, 1500 in three, 500 in one; the last cannot be committed |
| EvBufferRead.TakeAll | libevent/libevent-2.1.12-stable/buffer.c:2378-2399 | the loop over the chains behind readv: the bytes in the vectors become data in their order, and last_with_datap names the chain the last of them is in |
| EvBufferRead.ReadInto | libevent/libevent-2.1.12-stable/buffer.c:2313-2403 | what readv put into the vectors stands at the end of the contents, and the length is right |
| EvBufferRead.Read | libevent/libevent-2.1.12-stable/buffer.c:2283-2410 | asks for the most that is at most 4096, what is waiting, and howmuch if that is not negative; appends as much of that as arrives; -1 with nothing changed if frozen or the read fails; aborts exactly on an ask of 0 where the last chain with data is full and none follows |
| EvBufferSearch.SetPtr | libevent/libevent-2.1.12-stable/buffer.c:2622-2672 | SET gives the position of a byte, ADD that of a later one, so SET p then ADD n is SET p + n; refused exactly past the end |
| EvBufferSearch.PositionGood | libevent/libevent-2.1.12-stable/buffer.c:2622-2672 | a position denotes the byte it names |
| EvBufferSearch.SubtractPtr | libevent/libevent-2.1.12-stable/buffer.c:2602-2620 | goes back exactly that far, or not at all |
| EvBufferSearch.Memcmp | libevent/libevent-2.1.12-stable/buffer.c:2679-2712 | 0 exactly if the bytes are equal; less than 0 exactly if the first that differ are smaller on the left, more than 0 exactly if on the right |
| EvBufferSearch.BelowEither | libevent/libevent-2.1.12-stable/buffer.c:2674-2677 | of two different sequences of one length exactly one is below the other |
| EvBufferSearch.OccursSplit | libevent/libevent-2.1.12-stable/buffer.c:2679-2712 | a match in two parts is a match of the whole |
| EvBufferSearch.MemcmpAt | libevent/libevent-2.1.12-stable/buffer.c:2678-2712 | 0 exactly if the pattern stands at that position, across chains; else the sign is that of the first difference, or less than 0 if there are not as many bytes |
| EvBufferSearch.NextCandidate | libevent/libevent-2.1.12-stable/buffer.c:2747-2775 | skips only places where the pattern cannot start |
| EvBufferSearch.SearchRange | libevent/libevent-2.1.12-stable/buffer.c:2720-2782 | the first place from the start at which the pattern stands and ends by the end, or none if there is none; the position found is the one SET would give |
| EvBufferSearch.CopyLoop | libevent/libevent-2.1.12-stable/buffer.c:1229-1248 | copies the bytes at a position, across chains |
| EvBufferSearch.CopyOutFrom | libevent/libevent-2.1.12-stable/buffer.c:1189-1254 | copies min(n, what is left) bytes from the position, buffer unchanged; -1 if the position is past the largest ssize_t or the front is frozen |
| EvBufferSearch.Remove | libevent/libevent-2.1.12-stable/buffer.c:1169-1181 | hands out the first bytes and drops exactly those |
| EvBufferLines.TerminatorUnique | libevent/libevent-2.1.12-stable/buffer.c:1596-1684 | there is at most one terminator for a style |
| EvBufferLines.LineComesBack | libevent/libevent-2.1.12-stable/buffer.c:1596-1684 | a line written with its terminator is found again as it was written, in each style, whatever follows |
| EvBufferLines.FindEolInRun | libevent/libevent-2.1.12-stable/buffer.c:1495-1520 | the first CR or LF of a run, found in stretches of 128 |
| EvBufferLines.Find | libevent/libevent-2.1.12-stable/buffer.c:1473-1542 | the first such byte from a position on, across chains |
| EvBufferLines.Span | libevent/libevent-2.1.12-stable/buffer.c:1544-1581 | how many CR and LF follow, across chains, and no more |
| EvBufferLines.IsChar | libevent/libevent-2.1.12-stable/buffer.c:1584-1594 | whether that byte stands there |
| EvBufferLines.SearchCrlf | libevent/libevent-2.1.12-stable/buffer.c:1639-1659 | CRLF takes one CR in front of the LF into the terminator |
| EvBufferLines.SearchEol | libevent/libevent-2.1.12-stable/buffer.c:1596-1684 | the terminator of the style: the maximal run for ANY, CR LF for strict, LF with one optional CR for CRLF, LF, or NUL; not found exactly if there is none |
| EvBufferLines.ReadLn | libevent/libevent-2.1.12-stable/buffer.c:1686-1723 | old bytes are line, terminator, new bytes; NULL with nothing changed exactly if there is no terminator or the front is frozen |
| PairSpec.Amount | libevent/libevent-2.1.12-stable/bufferevent_pair.c:152-176 | a transfer that heeds the watermark stops at it, and otherwise moves all |
| PairSpec.AmountIs | libevent/libevent-2.1.12-stable/bufferevent_pair.c:152-176 | all of it where there is no mark or a flush finds it reached, nothing else where it is reached, and up to the mark below it |
| PairSpec.TransferKeeps | libevent/libevent-2.1.12-stable/bufferevent_pair.c:152-192 | a transfer keeps the stream in order and leaves nothing to say |
| PairSpec.TalkKeeps | libevent/libevent-2.1.12-stable/bufferevent_pair.c:194-222 | a transfer made only when wanted keeps both streams and leaves nothing to say |
| PairSpec.RecheckKeeps | libevent/libevent-2.1.12-stable/bufferevent.c:133-147 | the watermark callback suspends exactly at the mark, and on unsuspending takes what waits |
| PairSpec.EnableKeeps | libevent/libevent-2.1.12-stable/bufferevent_pair.c:224-250 | enabling either direction keeps the invariant |
| PairSpec.FlushKeeps | libevent/libevent-2.1.12-stable/bufferevent_pair.c:304-337 | flushing keeps the invariant |
| PairSpec.ApplyKeeps | libevent/libevent-2.1.12-stable/bufferevent_pair.c:152-337 | every call at an end keeps the invariant |
| PairSpec.ApplyBounded | libevent/libevent-2.1.12-stable/bufferevent_pair.c:152-176 | a call that is not a flush and does not set the mark below what the input holds takes no input past its high watermark |
| PairSpec.ApplySets | libevent/libevent-2.1.12-stable/bufferevent.c:481-640 | each call sets or clears exactly the flags it names, and the mark is the one set |
| PairSpec.ReadTakes | libevent/libevent-2.1.12-stable/bufferevent.c:471-475 | a read takes as many bytes as are asked for, or all there are, off the front |
| PairSpec.MovesWhere | libevent/libevent-2.1.12-stable/bufferevent_pair.c:194-250 | apart from flushes bytes go over only where the one end may write, the other may read and is not suspended |
| PairSpec.FlushMoves | libevent/libevent-2.1.12-stable/bufferevent_pair.c:304-337 | a flush takes what waits on either side named, past the mark only where that is reached already |
| PairSpec.FlagsRun | libevent/libevent-2.1.12-stable/bufferevent.c:481-585 | in every run each flag is what the last enable or disable that named it made it |
| PairSpec.DeliveredRun | libevent/libevent-2.1.12-stable/bufferevent_pair.c:194-250 | in any run from a new pair, where writing is still enabled at one end and reading was enabled at the other, with room, everything written has arrived |
| PairSpec.RunKeeps | libevent/libevent-2.1.12-stable/bufferevent_pair.c:152-337 | in every run: written at one end = read at the other, then its input, then the output; suspension follows the watermark; nothing that could move is left |
| PairSpec.FreshPair | libevent/libevent-2.1.12-stable/bufferevent_pair.c:114-150 | from a new pair on |
| PairSpec.Delivered | libevent/libevent-2.1.12-stable/bufferevent_pair.c:194-202 | if one end may write and the other read and has room, everything written has arrived |
| PairSpec.RunBounded | libevent/libevent-2.1.12-stable/bufferevent_pair.c:152-176 | in a run without flush, where no mark is set below what the input holds at the time, no input passes its high watermark |
| PairSpec.FreshBounded | libevent/libevent-2.1.12-stable/bufferevent_pair.c:152-176 | from a new pair on, wherever the watermarks are moved |
| PairedBufferevents.NewPair | libevent/libevent-2.1.12-stable/bufferevent_pair.c:114-150 | two ends with nothing in them, apart, frozen where only transfers go |
| PairedBufferevents.MoveBytes | libevent/libevent-2.1.12-stable/bufferevent_pair.c:161-176 | the bytes moved between the buffers are as many as the watermark allows |
| PairedBufferevents.Pour | libevent/libevent-2.1.12-stable/bufferevent_pair.c:152-192 | the same between buffers that are frozen before and again after |
| PairedBufferevents.Transfer | libevent/libevent-2.1.12-stable/bufferevent_pair.c:152-192 | be_pair_transfer does to both ends what the model says |
| PairedBufferevents.Talk | libevent/libevent-2.1.12-stable/bufferevent_pair.c:194-222 | the test for a wanted transfer, and the transfer, do to both ends what the model says |
| PairedBufferevents.Recheck | libevent/libevent-2.1.12-stable/bufferevent.c:133-147 | the watermark callback does to both ends what the model says |
| PairedBufferevents.Write | libevent/libevent-2.1.12-stable/bufferevent_pair.c:204-222 | bufferevent_write at an end, and what it sets off |
| PairedBufferevents.Read | libevent/libevent-2.1.12-stable/bufferevent.c:471-475 | bufferevent_read at an end, which hands out as many bytes of the front as are asked for or all there are, and what it sets off |
| PairedBufferevents.Enable | libevent/libevent-2.1.12-stable/bufferevent_pair.c:224-250 | bufferevent_enable, down to both transfers: exactly the directions named are enabled as well |
| PairedBufferevents.Disable | libevent/libevent-2.1.12-stable/bufferevent.c:567-585 | bufferevent_disable: exactly the directions named are not enabled any more, and nothing else changes |
| PairedBufferevents.SetHigh | libevent/libevent-2.1.12-stable/bufferevent.c:593-640 | bufferevent_setwatermark for reading |
| PairedBufferevents.Flush | libevent/libevent-2.1.12-stable/bufferevent_pair.c:304-337 | be_pair_flush in each mode, and what the event callback of the partner is told when it is the last |
| PairRuns.StepPair | libevent/libevent-2.1.12-stable/bufferevent_pair.c:152-337 | each call at an end does to the four buffers what the model says; what a write accepts and a read hands out are the bytes the model says |
| PairRuns.GivenIs | libevent/libevent-2.1.12-stable/bufferevent.c:471-475 | a read hands out the front of the input, as many bytes as are asked for or all there are |
| PairRuns.ApplyGives | libevent/libevent-2.1.12-stable/bufferevent_pair.c:152-337 | a call counts as written exactly what it accepts, as read exactly what it hands out, and nothing at the other end |
| PairRuns.RunPair | libevent/libevent-2.1.12-stable/bufferevent_pair.c:152-337 | any calls at both ends, in any order, do to the buffers what they do in the model, and all that they accept and hand out is what the model counts as written and read |
| PairRuns.RunNewPair | libevent/libevent-2.1.12-stable/bufferevent_pair.c:114-337 | from a new pair on, on the heap: the ends are where the run of the model is; each flag is what the last call that named it made it; what the writes at an end accepted is what the reads at the other handed out, then its input, then the output, and has all arrived where one may write and the other read and has room; no input is past its mark unless flushed or the mark is set below what is there |
| TokenBucket.RefillExact | libevent/libevent-2.1.12-stable/bufferevent_ratelim.c:95-98 | an update is min(maximum, limit + n * rate) without overflow exactly if the limit was not above the maximum (or the worth wraps past it) |
| TokenBucket.RefillPositive | libevent/libevent-2.1.12-stable/bufferevent_ratelim.c:95-98 | it leaves a positive limit positive exactly if the sum does not land in the negative half of the word |
| TokenBucket.TicksAdd | libevent/libevent-2.1.12-stable/bufferevent_ratelim.c:80-82 | the wrapping tick difference adds up |
| TokenBucket.UpdatedAdds | libevent/libevent-2.1.12-stable/bufferevent_ratelim.c:73-111 | each direction gains its rate per tick up to the maximum when time went forward, and nothing otherwise |
| TokenBucket.UpdatedInTime | libevent/libevent-2.1.12-stable/bufferevent_ratelim.c:73-111 | by the clock: after up to 2^31 - 1 ticks each direction has gained its rate for each, up to the maximum; at the same tick, or after more, nothing |
| TokenBucket.RefillRaised | libevent/libevent-2.1.12-stable/bufferevent_ratelim.c:95-98 | a limit above the maximum is added to all the same |
| TokenBucket.UpdatedPositive | libevent/libevent-2.1.12-stable/bufferevent_ratelim.c:73-111 | both directions of an update, for limits that refunds raised |
| TokenBucket.UpdatesCompose | libevent/libevent-2.1.12-stable/bufferevent_ratelim.c:73-111 | two updates are one exactly if the two stretches together are still recognised as forward |
| TokenBucket.Bucket.Init | libevent/libevent-2.1.12-stable/bufferevent_ratelim.c:49-71 | a first tick of each rate, or the old limits clipped downwards with the old time |
| TokenBucket.InitialIs | libevent/libevent-2.1.12-stable/bufferevent_ratelim.c:49-71 | a bucket made anew is an empty one after a tick; one made over has what is left of its limits below the maximum, and its time |
| TokenBucket.Bucket.Update | libevent/libevent-2.1.12-stable/bufferevent_ratelim.c:73-111 | the update in size_t arithmetic; whether time went forward |
| TokenBucket.CastKeepsAllowance | libevent/libevent-2.1.12-stable/bufferevent_sock.c:187-190 | casting the allowance to int never lets a read exceed it, and asks for nothing exactly if it is a multiple of 2^32 |
| TokenBucket.ReadsMost | libevent/libevent-2.1.12-stable/buffer.c:2302-2308 | a read asks for the most that is at most 4096, what is waiting, and what is wanted |
| TokenBucket.CastIs | libevent/libevent-2.1.12-stable/bufferevent_sock.c:190 | the cast takes off a multiple of 2^32 and changes nothing that an int holds |
| TokenBucket.CastAsks | libevent/libevent-2.1.12-stable/bufferevent_sock.c:187-190 | so an allowance that an int holds is asked for as it is |
| TokenBucket.TicksGrow | libevent/libevent-2.1.12-stable/bufferevent_ratelim.c:80-87 | a wrapped difference never credits more ticks than passed |
| TokenBucket.PotentialGrows | libevent/libevent-2.1.12-stable/bufferevent_ratelim.c:73-111 | what an update would leave grows by at most the rate per tick |
| TokenBucket.EventCosts | libevent/libevent-2.1.12-stable/bufferevent_ratelim.c:272-308 | what is moved comes off it |
| TokenBucket.WindowHolds | libevent/libevent-2.1.12-stable/bufferevent_ratelim.c:197-308 | in any window at most what the bucket held plus rate times ticks is moved |
| TokenBucket.WindowBound | libevent/libevent-2.1.12-stable/bufferevent_ratelim.c:197-308 | in any window at most the burst plus rate times ticks is moved, in each direction, however the counter wraps |
| RateLimit.ChargedKeeps | libevent/libevent-2.1.12-stable/bufferevent_ratelim.c:272-292 | charging the bucket keeps the invariant |
| RateLimit.ChargedLimitKeeps | libevent/libevent-2.1.12-stable/bufferevent_ratelim.c:968-1022 | the public decrement keeps the invariant, with any sign |
| RateLimit.AskedKeeps | libevent/libevent-2.1.12-stable/bufferevent_ratelim.c:113-124 | asking keeps the invariant |
| RateLimit.FiredKeeps | libevent/libevent-2.1.12-stable/bufferevent_ratelim.c:393-439 | the refill timer keeps the invariant |
| RateLimit.ConfiguredKeeps | libevent/libevent-2.1.12-stable/bufferevent_ratelim.c:559-635 | setting, changing or removing a limit keeps the invariant |
| RateLimit.StepKeeps | libevent/libevent-2.1.12-stable/bufferevent_ratelim.c:272-635 | every step keeps: limit <= 0 implies suspended, timer added exactly while some direction is suspended for bandwidth, events added exactly where something can happen |
| RateLimit.RunKeeps | libevent/libevent-2.1.12-stable/bufferevent_ratelim.c:272-635 | in every state of every run |
| RateLimit.FreshRun | libevent/libevent-2.1.12-stable/bufferevent.c:317-353 | from a new bufferevent: writing enabled, no event added |
| RateLimit.SpendingKeeps | libevent/libevent-2.1.12-stable/bufferevent_ratelim.c:272-635 | a step that refunds nothing needs no condition on the limits and leaves none above its maximum |
| RateLimit.SpendingRun | libevent/libevent-2.1.12-stable/bufferevent_ratelim.c:272-635 | so every run without refunds is possible, keeps the invariant, and keeps to the conditions of the bound and of recovery |
| RateLimit.FreshSpending | libevent/libevent-2.1.12-stable/bufferevent_ratelim.c:272-635 | from a bufferevent that was never limited |
| RateLimit.StepsAreEvents | libevent/libevent-2.1.12-stable/bufferevent_sock.c:186-211 | what the steps do to a bucket is what the window bound counts |
| RateLimit.CallbackIsFair | libevent/libevent-2.1.12-stable/bufferevent_sock.c:186-211 | a callback that asks and then moves no more than it was let meets the conditions of the bound |
| RateLimit.RunIsSchedule | libevent/libevent-2.1.12-stable/bufferevent_ratelim.c:197-439 | a run of steps in a window is a schedule of events on the bucket that moves the same bytes |
| RateLimit.RunBound | libevent/libevent-2.1.12-stable/bufferevent_ratelim.c:197-439 | in any window of any run under one configuration a bufferevent moves at most the burst plus rate times ticks |
| RateLimit.RefundWraps | libevent/libevent-2.1.12-stable/bufferevent_ratelim.c:73-111 | a limit that a negative decrement raised to the largest ssize_t wraps at the next tick: exhausted but not suspended |
| RateLimit.FiredFrees | libevent/libevent-2.1.12-stable/bufferevent_ratelim.c:412-427 | the timer frees a direction exactly if its new limit is positive |
| RateLimit.StaysFree | libevent/libevent-2.1.12-stable/bufferevent_ratelim.c:412-427 | the timer never chokes a direction |
| RateLimit.Recovers | libevent/libevent-2.1.12-stable/bufferevent_ratelim.c:393-439 | whatever the clock does, a choked direction is freed exactly when the ticks credited so far pay its debt; a reading that is not ahead credits nothing |
| RateLimit.RecoversInTime | libevent/libevent-2.1.12-stable/bufferevent_ratelim.c:393-439 | by the clock: a choked direction is freed exactly when the ticks since the last update pay its debt |
| RateLimit.NoCredit | libevent/libevent-2.1.12-stable/bufferevent_ratelim.c:80-87 | nothing is credited exactly if no reading is ahead of the last update |
| RateLimit.ReconfiguredRefills | libevent/libevent-2.1.12-stable/bufferevent_ratelim.c:596-608 | after a change of configuration an exhausted direction is freed exactly when the debt is paid by new ticks counted from the old time; it stays suspended as long as no reading is ahead of it |
| RateLimit.LongerTicksStall | libevent/libevent-2.1.12-stable/bufferevent_ratelim.c:126-140 | an exhausted direction that goes from 1 ms ticks to 1 s ticks in November 2023 stays suspended whenever the timer goes off in the next 1,787,918,080 seconds |
| RateLimit.StallReached | libevent/libevent-2.1.12-stable/bufferevent_ratelim.c:559-635 | such a state is reached by limiting a new bufferevent, reading a byte and changing the limit |
| RateLimit.StepCharges | libevent/libevent-2.1.12-stable/bufferevent_ratelim.c:272-635 | bytes come off one limit, as many as were charged, and off nothing else; only updates and a new configuration add |
| RateLimit.StepSets | libevent/libevent-2.1.12-stable/bufferevent.c:481-585 | the configuration is the last one set, a direction is enabled as the program said, and the output is what is queued and not sent |
| RateLimit.StepFlags | libevent/libevent-2.1.12-stable/bufferevent.c:65-108 | a step takes and gives the flags it names; the bandwidth flag follows the limit |
| RateLimit.StepListens | libevent/libevent-2.1.12-stable/bufferevent.c:481-585 | an enabled direction listens at once unless suspended, and a disabled or suspended one does not |
| RateLimit.SettingsRun | libevent/libevent-2.1.12-stable/bufferevent.c:481-585 | in every run a direction is enabled as the last step about it said, and the output is what was queued and not sent |
| RateLimit.LimitRun | libevent/libevent-2.1.12-stable/bufferevent_ratelim.c:272-308 | as long as nothing is credited each limit is what it was, less exactly what was charged |
| SocketBufferevents.Half.Suspend | libevent/libevent-2.1.12-stable/bufferevent.c:65-75 | a suspended direction has no event |
| SocketBufferevents.Half.Unsuspend | libevent/libevent-2.1.12-stable/bufferevent.c:77-86 | the event comes back when the last flag goes, if enabled |
| SocketBufferevents.Limited.constructor | libevent/libevent-2.1.12-stable/bufferevent_sock.c:339-372 | a new socket bufferevent: writing enabled, no event added, no limit, the default amounts |
| SocketBufferevents.Limited.DecrementBuckets | libevent/libevent-2.1.12-stable/bufferevent_ratelim.c:272-292 | own part of the decrement, as a step |
| SocketBufferevents.Limited.DecrementLimit | libevent/libevent-2.1.12-stable/bufferevent_ratelim.c:968-1022 | the public decrement, as a step |
| SocketBufferevents.Limited.GetMax | libevent/libevent-2.1.12-stable/bufferevent_ratelim.c:197-226 | own part of the allowance; positive whenever the direction is not suspended |
| SocketBufferevents.Limited.RefillCallback | libevent/libevent-2.1.12-stable/bufferevent_ratelim.c:393-439 | the refill timer, as a step |
| SocketBufferevents.Limited.SetRateLimit | libevent/libevent-2.1.12-stable/bufferevent_ratelim.c:559-635 | the configuration, as a step; removing a limit where none was ever set does nothing |
| SocketBufferevents.Limited.SetDirection | libevent/libevent-2.1.12-stable/bufferevent_ratelim.c:612-623 | one direction follows the sign of its limit |
| SocketBufferevents.Limited.Written | libevent/libevent-2.1.12-stable/bufferevent_sock.c:308-318 | what was written is charged, and an empty output drops the event |
| SocketBufferevents.Limited.Enable | libevent/libevent-2.1.12-stable/bufferevent.c:481-503 | enabling, as a step |
| SocketBufferevents.Limited.Disable | libevent/libevent-2.1.12-stable/bufferevent.c:567-585 | disabling, as a step |
| SocketBufferevents.Limited.AddOutput | libevent/libevent-2.1.12-stable/bufferevent_sock.c:128-146 | new output starts writing unless suspended |
| SocketBufferevents.Limited.ReadCallback | libevent/libevent-2.1.12-stable/bufferevent_sock.c:148-227 | a timeout disables reading; else a read asks for its allowance up to the watermark, at least one byte but for the cast, never passes limit or watermark, and is charged; an ask of 0 aborts or is taken for the end of the stream; a refused connection is noted, other failures disable reading |
| SocketBufferevents.Limited.Receive | libevent/libevent-2.1.12-stable/bufferevent_sock.c:189-215 | the read itself, of any amount, 0 too: what was asked for, which exit is taken exactly when, and what is charged or disabled |
| SocketBufferevents.EndedSays | libevent/libevent-2.1.12-stable/bufferevent_sock.c:189-215 | a read charges what it moved, a failed one disables reading, and others change nothing |
| SocketBufferevents.Limited.WriteCallback | libevent/libevent-2.1.12-stable/bufferevent_sock.c:229-337 | a timeout disables writing; a connection not finished changes nothing, one that fails removes both events; else, also when just connected, a write moves min(accepted, allowance, output), is charged, and drops the event when the output is empty |
| SocketBufferevents.Limited.FinishConnecting | libevent/libevent-2.1.12-stable/bufferevent_sock.c:245-279 | a connection refused before counts as failed; one that fails leaves no event |
| SocketBufferevents.CastStarves | libevent/libevent-2.1.12-stable/bufferevent_sock.c:187-215 | it does happen: a new bufferevent with an allowance of 2^32 and 100 bytes waiting reads nothing and is disabled as at the end of the stream, or aborts |
| RateGroup.RefilledSign | libevent/libevent-2.1.12-stable/bufferevent_ratelim.c:539-540 | a refill keeps a positive group limit positive and never lowers an exhausted one |
| RateGroup.ShareFloor | libevent/libevent-2.1.12-stable/bufferevent_ratelim.c:233-250 | a share is at least 1 in a running group and leaves the limit at 1 - min_share or more; 0 in a suspended one |
| RateGroup.ShareDivides | libevent/libevent-2.1.12-stable/bufferevent_ratelim.c:244-250 | the share of a running group is the limit divided by its members, or the least share where that is more |
| RateGroup.SharesWithin | libevent/libevent-2.1.12-stable/bufferevent_ratelim.c:244-250 | so all members together are let no more than there is, unless the least share alone comes to more |
| RateGroup.DividesOnce | libevent/libevent-2.1.12-stable/bufferevent_ratelim.c:244-250 | there is only one such share |
| RateGroup.ShareOfNothing | libevent/libevent-2.1.12-stable/bufferevent_ratelim.c:244-250 | a share is 0 exactly if the least share is 0 and there are more members than bytes |
| RateGroup.TickKeepsExactly | libevent/libevent-2.1.12-stable/bufferevent_ratelim.c:539-549 | a tick breaks the invariant exactly if the least share is 0 and the limit comes to 0 |
| RateGroup.ReleasedWithNothing | libevent/libevent-2.1.12-stable/bufferevent_ratelim.c:539-549 | it does happen: the only member reads the last byte and the timer goes off within the same tick |
| RateGroup.StepKeeps | libevent/libevent-2.1.12-stable/bufferevent_ratelim.c:294-556 | read_limit <= 0 implies suspended, a member with the flag in a running group is owed an unsuspend: kept by every move except, exactly, a tick that wakes a group with nothing to give; and limit >= 1 - min_share where min_share is at least 1 |
| RateGroup.RunKeeps | libevent/libevent-2.1.12-stable/bufferevent_ratelim.c:294-556 | in every run of members reading, ticks, joins and leaves |
| RateGroup.GroupBound | libevent/libevent-2.1.12-stable/bufferevent_ratelim.c:197-308 | in any run of members and ticks all members together move at most the limit, plus rate times ticks, plus the least share less a byte |
| RateGroup.DueGrows | libevent/libevent-2.1.12-stable/bufferevent_ratelim.c:80-87 | what a late timer would credit grows no faster than time |
| RateGroup.PassedWithin | libevent/libevent-2.1.12-stable/bufferevent_ratelim.c:80-87 | the ticks credited in a window are at most those that pass and those that were due at its start, however the counter wraps |
| RateGroup.GroupWindow | libevent/libevent-2.1.12-stable/bufferevent_ratelim.c:197-308 | in any window of time all members together move at most the limit, the rate for each tick of the window and for those the timer was late, and the least share less a byte; the burst instead of the limit where it was not late |
| RateGroup.LateTimer | libevent/libevent-2.1.12-stable/bufferevent_ratelim.c:528-556 | the ticks that the timer is late do count: with a burst and a rate of 10 a group moves 20 bytes at one tick |
| RateGroup.TickReleases | libevent/libevent-2.1.12-stable/bufferevent_ratelim.c:539-549 | a tick releases an exhausted group exactly if it lifts the limit to the least share |
| RateGroup.TwoTicksRelease | libevent/libevent-2.1.12-stable/bufferevent_ratelim.c:539-549 | two ticks always release an exhausted group |
| RateGroup.ReleaseFrees | libevent/libevent-2.1.12-stable/bufferevent_ratelim.c:487-504 | a release frees exactly those whose lock was free, and pending says whether somebody was missed |
| RateGroup.ReadSays | libevent/libevent-2.1.12-stable/bufferevent_ratelim.c:294-305 | bytes read come off the limit, all of them; the group is suspended when nothing is left, and whoever asks then has the flag |
| RateGroup.DecrementSays | libevent/libevent-2.1.12-stable/bufferevent_ratelim.c:1024-1062 | the public decrement takes its amount off the limit, of either sign, and acts exactly where that changes the sign |
| RateGroup.TickSays | libevent/libevent-2.1.12-stable/bufferevent_ratelim.c:528-556 | the timer credits the rate for each tick up to the maximum, and releases a group that it lifts to the least share |
| RateGroup.MembersSay | libevent/libevent-2.1.12-stable/bufferevent_ratelim.c:734-811 | a member that comes has the flag exactly if the group is suspended; one that goes has it no more |
| RateGroup.OrderOnce | libevent/libevent-2.1.12-stable/bufferevent_ratelim.c:474-485 | the random-start loop visits each member exactly once |
| RateLimitGroups.HeldMarked | libevent/libevent-2.1.12-stable/bufferevent_ratelim.c:349-371 | visiting gives the flag to, or takes it from, exactly those whose lock is free |
| RateLimitGroups.Missed | libevent/libevent-2.1.12-stable/bufferevent_ratelim.c:487-504 | again is set exactly if some lock was not free |
| RateLimitGroups.SuspendEach | libevent/libevent-2.1.12-stable/bufferevent_ratelim.c:362-369 | every member whose lock is free is suspended, the others stay |
| RateLimitGroups.UnsuspendEach | libevent/libevent-2.1.12-stable/bufferevent_ratelim.c:474-504 | every member whose lock is free is unsuspended, in rotated order; whether some lock was not free |
| RateLimitGroups.MembersCount | libevent/libevent-2.1.12-stable/bufferevent_ratelim.c:244-248 | n_members counts the members |
| RateLimitGroups.Group.constructor | libevent/libevent-2.1.12-stable/bufferevent_ratelim.c:637-669 | an empty group with a first tick of each rate |
| RateLimitGroups.Group.SetMinShare | libevent/libevent-2.1.12-stable/bufferevent_ratelim.c:702-721 | refused exactly above the largest ssize_t; else kept as configured and clipped to both rates |
| RateLimitGroups.Group.Suspend | libevent/libevent-2.1.12-stable/bufferevent_ratelim.c:349-390 | the group is suspended, pending is cleared, and each member whose lock is free gets the flag |
| RateLimitGroups.Group.Unsuspend | libevent/libevent-2.1.12-stable/bufferevent_ratelim.c:487-523 | releases the group and whom it can lock |
| RateLimitGroups.Group.RefillCallback | libevent/libevent-2.1.12-stable/bufferevent_ratelim.c:528-556 | one update of the bucket, then both directions released if pending or lifted to the least share; the invariant is kept exactly if neither wakes with nothing to give |
| RateLimitGroups.Group.Decrement | libevent/libevent-2.1.12-stable/bufferevent_ratelim.c:1024-1062 | the public decrement |
| RateLimitGroups.Group.ChargeGroup | libevent/libevent-2.1.12-stable/bufferevent_ratelim.c:294-305 | the group's part of a member's decrement |
| RateLimitGroups.Group.DecrementBuckets | libevent/libevent-2.1.12-stable/bufferevent_ratelim.c:272-308 | both parts: the member's bucket and timer are as charged alone, and the group's limit is charged |
| RateLimitGroups.Group.GetMax | libevent/libevent-2.1.12-stable/bufferevent_ratelim.c:197-258 | 0 in a suspended group, where the member picks up the flag it may have missed; else the least of its own allowance and the share, which is the limit divided by the members or the least share |
| RateLimitGroups.Group.AskAll | libevent/libevent-2.1.12-stable/bufferevent_ratelim.c:244-250 | members that ask in turn without reading are together let no more than there is, unless the least share alone comes to more |
| RateLimitGroups.Group.Add | libevent/libevent-2.1.12-stable/bufferevent_ratelim.c:734-778 | a bufferevent in no group becomes a member, suspended where the group is |
| RateLimitGroups.WelcomedSays | libevent/libevent-2.1.12-stable/bufferevent_ratelim.c:734-778 | a new member is limited from then on, has the flag of each direction that is suspended, and is otherwise as it was |
| RateLimitGroups.Group.AddFrom | libevent/libevent-2.1.12-stable/bufferevent_ratelim.c:734-811 | one that is in this group already stays as it is; one in another group leaves that first, loses its flag and gets the flags of this one; both groups keep their invariants |
| RateLimitGroups.Group.Remove | libevent/libevent-2.1.12-stable/bufferevent_ratelim.c:786-811 | a member that leaves loses the flag |
| RateLimitGroups.Group.ReadCallback | libevent/libevent-2.1.12-stable/bufferevent_sock.c:148-227 | a timeout disables the member, a full input suspends it, a suspended group flags it; else it asks for the least of its allowance, its share and its watermark, which is 0 exactly if the share is but for the cast; its own bucket and timer are as after the read alone, a failed read disables it, and the group sees one step |
| RateLimitGroups.Group.Receive | libevent/libevent-2.1.12-stable/bufferevent_sock.c:189-215 | the read itself, of any amount, 0 too: which exit is taken, that the member's bucket and timer are charged as without a group, that a failed read disables it, and that the group is charged |
| RateLimitGroups.ReadsWithin | libevent/libevent-2.1.12-stable/bufferevent_sock.c:187-211 | what a member moves is within its own allowance, its share and its watermark |
| RateLimitGroups.Group.Allowance | libevent/libevent-2.1.12-stable/bufferevent_ratelim.c:197-258 | an ask updates the member alone, and picks up a missed flag; what is let is the least of allowance, share and wish |
| RateLimitGroups.Group.Pay | libevent/libevent-2.1.12-stable/bufferevent_ratelim.c:272-308 | what was read is charged to the member as on its own, and to the group |
| RateLimitGroups.ShareStarves | libevent/libevent-2.1.12-stable/bufferevent_ratelim.c:244-250 | it does happen: two members, a limit of 1 and a least share of 0; the read of one with 100 bytes waiting asks for nothing and is disabled as at the end of the stream, or aborts |
| RateLimitRuns.BoundedEvent | libevent/libevent-2.1.12-stable/bufferevent_ratelim.c:197-308 | what is moved and what may be moved at once stay within the bound whatever happens to the bucket |
| RateLimitRuns.CallsSaw | libevent/libevent-2.1.12-stable/bufferevent_ratelim.c:197-439 | whatever is called, a bufferevent moves only what its bucket allows, and that is charged |
| RateLimitRuns.Read | libevent/libevent-2.1.12-stable/bufferevent_sock.c:148-227 | the read callback of an object does to it, and reads, what its value form says |
| RateLimitRuns.Write | libevent/libevent-2.1.12-stable/bufferevent_sock.c:229-337 | so does the write callback |
| RateLimitRuns.Other | libevent/libevent-2.1.12-stable/bufferevent_ratelim.c:393-439 | and so do its timer, the decrement, enabling and disabling, and new output |
| RateLimitRuns.RunWindow | libevent/libevent-2.1.12-stable/bufferevent_ratelim.c:197-439 | any calls on an object in a window of time do to it what their value forms do, one after the other, until a connection fails; it reads in all at most the burst plus rate times ticks, and writes at most its own |
| RateGroupRuns.OwedRead | libevent/libevent-2.1.12-stable/bufferevent_ratelim.c:197-308 | the read of a member comes off the limit, which stays above the floor |
| RateGroupRuns.OwedTick | libevent/libevent-2.1.12-stable/bufferevent_ratelim.c:528-556 | the timer credits no more than is due |
| RateGroupRuns.GroupAccounted | libevent/libevent-2.1.12-stable/bufferevent_ratelim.c:197-556 | reads, ticks, joins and leaves keep the account of what was moved, what is left and what is due |
| RateGroupRuns.MemberRead | libevent/libevent-2.1.12-stable/bufferevent_sock.c:148-227 | the read callback of a member leads from one state of the group to the next as its contract says |
| RateGroupRuns.GroupTimer | libevent/libevent-2.1.12-stable/bufferevent_ratelim.c:528-556 | so does the timer of the group |
| RateGroupRuns.GroupJoin | libevent/libevent-2.1.12-stable/bufferevent_ratelim.c:734-778 | and a new member |
| RateGroupRuns.GroupLeave | libevent/libevent-2.1.12-stable/bufferevent_ratelim.c:786-811 | and one that leaves |
| RateGroupRuns.RunGroup | libevent/libevent-2.1.12-stable/bufferevent_ratelim.c:197-308 | any reads, ticks, joins and leaves on a group object in a window of time lead it through states that follow from each other; its members read in all at most the limit, the rate for each tick of the window and for those the timer was late, and the least share less a byte |
| PoolSpec.AlignBits | mem_pool/mem_core.h:42-44 | the macro's bit trick rounds up to a multiple of 8 |
| PoolSpec.AlignNext | mem_pool/mem_core.h:42-44 | it is the least multiple not below |
| PoolSpec.FitsMeans | mem_pool/mem_pool_palloc.c:157-166 | the wrapping test means that the region ends by the end, if the end or the pointer is aligned |
| PoolSpec.FitsWhere | mem_pool/mem_pool_palloc.c:157-166 | the test of a block in order is that it has room, and the place is the first there is |
| PoolSpec.SmallFinds | mem_pool/mem_pool_palloc.c:146-172 | a small request is served at the first place in the first block from current on that has room; no other block changes |
| PoolSpec.SmallGrows | mem_pool/mem_pool_palloc.c:175-208 | where none from current on has room a new block serves it; those from current on but the last are charged a failure, and current moves behind the last that had failed more than four times |
| PoolSpec.SmallIs | mem_pool/mem_pool_palloc.c:32-33 | a request is small exactly if it fits a block behind the header of the pool and is less than a page |
| PoolSpec.LargeFinds | mem_pool/mem_pool_palloc.c:223-246 | a large region takes the first of the first five nodes that is empty, else a new node at the head |
| PoolSpec.PushSays | mem_pool/mem_pool_palloc.c:236-246 | a node of its own goes to the head, exactly if the pool has room for it |
| PoolSpec.FreeFinds | mem_pool/mem_pool_palloc.c:275-291 | a pointer given back empties the first node that holds it, and is unknown exactly if none does |
| PoolSpec.BumpKeeps | mem_pool/mem_pool_palloc.c:157-168 | bumping a block keeps the blocks in order |
| PoolSpec.BumpPieces | mem_pool/mem_pool_palloc.c:157-168 | the new region is apart from all before |
| PoolSpec.GrownKeeps | mem_pool/mem_pool_palloc.c:175-208 | a new block is in order and holds even the largest small request |
| PoolSpec.GrownPieces | mem_pool/mem_pool_palloc.c:175-208 | the first region of a new block is apart from all before |
| PoolSpec.SmallKeeps | mem_pool/mem_pool_palloc.c:146-172 | a small allocation hands out one region more, or nothing, and earlier ones stay |
| PoolSpec.SlotKeeps | mem_pool/mem_pool_palloc.c:223-229 | an empty node among the first five takes the new pointer |
| PoolSpec.PushKeeps | mem_pool/mem_pool_palloc.c:236-246 | a new node at the head holds it; without one the region is given back |
| PoolSpec.FreeKeeps | mem_pool/mem_pool_palloc.c:275-291 | pfree frees exactly what the list holds |
| PoolSpec.ResetKeeps | mem_pool/mem_pool_palloc.c:97-117 | a reset leaves every block empty and no large region |
| PoolSpec.ResetSays | mem_pool/mem_pool_palloc.c:97-117 | every counter is 0, every block is empty and the first is current |
| PoolSpec.AfterReset | mem_pool/mem_pool_palloc.c:97-117 | so a small request that comes next is served right behind the header of the pool |
| PoolSpec.StepKeeps | mem_pool/mem_pool_palloc.c:120-291 | every operation keeps the whole invariant |
| PoolSpec.RunKeeps | mem_pool/mem_pool_palloc.c:120-291 | every run keeps the invariant, whatever malloc answers |
| PoolSpec.RunStays | mem_pool/mem_pool_palloc.c:146-208 | between resets a region once handed out stays |
| PoolSpec.InvSafe | mem_pool/mem_pool_palloc.c:146-208 | regions lie in blocks behind the headers, aligned where asked, pairwise apart |
| PoolSpec.OverrunUnsafe | mem_pool/mem_pool_palloc.c:157-168 | with an odd end one aligned byte after unaligned ones is served behind the block |
| PoolSpec.SafeExactly | mem_pool/mem_pool_palloc.c:17-42 | all runs are safe exactly if the size is a multiple of the alignment (or pages of one byte leave no small regions) |
| PoolSpec.StairsCurrent | mem_pool/mem_pool_palloc.c:199-203 | current moves on past a block that failed more than four times |
| PoolSpec.StairsStep | mem_pool/mem_pool_palloc.c:199-205 | the failure counters stay a staircase |
| PoolSpec.StairsRun | mem_pool/mem_pool_palloc.c:152-205 | in every run without reset they are k, ..., 1, 0, 0 with k <= 5 from current on, so at most seven blocks are looked at |
| PoolSpec.StairsFirst | mem_pool/mem_pool_palloc.c:17-42 | from a new pool on |
| PoolSpec.AllocsAre | mem_pool/mem_pool_palloc.c:211-248 | the pointers in the list are the outstanding large mallocs |
| PoolSpec.LargeOrderly | mem_pool/mem_pool_palloc.c:77-81 | the walk over the list reads no node that is gone, before or after each free, and frees no region twice |
| PoolSpec.BlocksOrderly | mem_pool/mem_pool_palloc.c:83-89 | the walk over the blocks reads the next link before it frees |
| PoolSpec.DestroyedOrderly | mem_pool/mem_pool_palloc.c:45-90 | destroying frees each large region and each block exactly once and reads no part of a node or a header after it was freed |
| MemoryPool.NgxPool.constructor | mem_pool/mem_pool_palloc.c:17-42 | the new pool |
| MemoryPool.NgxPool.PallocSmall | mem_pool/mem_pool_palloc.c:146-172 | the first block from current that fits, or a new one; looks at no block before current |
| MemoryPool.NgxPool.PallocBlock | mem_pool/mem_pool_palloc.c:175-208 | charges the failures, moves current, appends the block |
| MemoryPool.NgxPool.PushNode | mem_pool/mem_pool_palloc.c:236-246 | the node of a large region; when there is none the region is freed |
| MemoryPool.NgxPool.PallocLarge | mem_pool/mem_pool_palloc.c:211-248 | reuses a slot among the first five or pushes a node |
| MemoryPool.NgxPool.Palloc | mem_pool/mem_pool_palloc.c:120-143 | small up to max, large above |
| MemoryPool.NgxPool.Pmemalign | mem_pool/mem_pool_palloc.c:250-272 | always pushes a node |
| MemoryPool.NgxPool.Pfree | mem_pool/mem_pool_palloc.c:275-291 | clears the first node with that pointer, and frees it |
| MemoryPool.NgxPool.FreeLarge | mem_pool/mem_pool_palloc.c:77-81 | the order of reads and frees over the list, with the link read after the free |
| MemoryPool.NgxPool.ResetPool | mem_pool/mem_pool_palloc.c:97-117 | frees the large regions and rewinds the blocks |
| MemoryPool.NgxPool.DestroyPool | mem_pool/mem_pool_palloc.c:45-90 | the order of reads and frees over everything |
| PoolRuns.LargeReleased | mem_pool/mem_pool_palloc.c:77-81 | what the walk over the list frees is what stands in it, each once |
| PoolRuns.StepBalance | mem_pool/mem_pool_palloc.c:97-291 | what an operation gets from malloc and what was held before is what is held after and what it frees |
| PoolRuns.RunBalance | mem_pool/mem_pool_palloc.c:97-291 | the same in any run |
| PoolRuns.DestroyBalance | mem_pool/mem_pool_palloc.c:45-90 | destroying frees what the pool holds |
| PoolRuns.LifeBalance | mem_pool/mem_pool_palloc.c:17-291 | from creation to destruction each region that malloc gives is freed exactly once, whatever it answers in between |
| PoolRuns.AnswerServes | mem_pool/mem_pool_palloc.c:120-272 | what an allocation returns is a region of the size asked for |
| PoolRuns.StepPool | mem_pool/mem_pool_palloc.c:97-291 | an operation on the object is the step of the model, with what it returns and frees |
| PoolRuns.RunPool | mem_pool/mem_pool_palloc.c:97-291 | any run of operations on the object; in one without reset each looks at no more than seven blocks |
| PoolRuns.Life | mem_pool/mem_pool_palloc.c:17-291 | an object made, used in any way and destroyed has freed each region that malloc gave it exactly once |
| ThreadPoolSpec.CountWake | threadpool/thread_pool.c:156-159 | a signal moves at least one sleeper to the awake, if there is one |
| ThreadPoolSpec.PostedKeeps | threadpool/thread_pool.c:135-171 | posting keeps the balance and loses no wakeup |
| ThreadPoolSpec.ServedKeeps | threadpool/thread_pool.c:187-216 | entering the loop or rechecking keeps the balance and loses no wakeup |
| ThreadPoolSpec.AttendedStep | threadpool/thread_pool.c:135-226 | every step: waiting = queue length - workers inside; somebody sleeps only if as many are awake as tasks are queued |
| ThreadPoolSpec.QueueBound | threadpool/thread_pool.c:141-148 | the queue is at most max_queue plus the number of workers |
| ThreadPoolSpec.PostRefused | threadpool/thread_pool.c:141-148 | a post is refused, and changes nothing, exactly while max_queue tasks are queued that no worker is there for; else the task is the last in the queue |
| ThreadPoolSpec.RunRefuses | threadpool/thread_pool.c:141-148 | so in every run |
| ThreadPoolSpec.StepMoves | threadpool/thread_pool.c:135-226 | a step moves the worker it names and a signal those it wakes; nobody else |
| ThreadPoolSpec.ServedSays | threadpool/thread_pool.c:194-210 | a worker takes the task that has been queued longest, and sleeps only when there is none |
| ThreadPoolSpec.NoStall | threadpool/thread_pool.c:194-202 | while tasks are queued and a worker lives, one can move without being woken |
| ThreadPoolSpec.OnceStep | threadpool/thread_pool.c:205-226 | tasks leave in posting order, each with one worker or ended, never twice |
| ThreadPoolSpec.ClosingStep | threadpool/thread_pool.c:76-117 | where the exit task and the workers are at each point of destroy, also after it has given up |
| ThreadPoolSpec.StepKeeps | threadpool/thread_pool.c:76-226 | every step keeps the balance, the order and the closing protocol together |
| ThreadPoolSpec.RunKeeps | threadpool/thread_pool.c:76-226 | every run keeps the invariant |
| ThreadPoolSpec.InitKeeps | threadpool/thread_pool.c:14-73 | the pool starts in order |
| ThreadPoolSpec.PoolRun | threadpool/thread_pool.c:135-226 | what every reachable state satisfies |
| ThreadPoolSpec.FreedClean | threadpool/thread_pool.c:76-104 | at the frees every worker has exited, nothing is queued, and every handler has ended |
| ThreadPoolSpec.ExitTaskOnce | threadpool/thread_pool.c:86-95 | the task on the stack of destroy is queued at most once, and nobody has it when it is posted or once destroy has given up |
| ThreadPoolSpec.RefusedFirst | threadpool/thread_pool.c:86-95 | destroy is all or nothing: only its first exit task can be refused, while every worker is alive |
| ThreadPools.ThreadPool.constructor | threadpool/thread_pool.c:14-31 | the empty queue, tail pointer at its head |
| ThreadPools.ThreadPool.Link | threadpool/thread_pool.c:161-162 | the task goes to the tail pointer, which moves to its next field |
| ThreadPools.ThreadPool.Post | threadpool/thread_pool.c:135-171 | the posting step on the linked queue; accepted exactly while waiting is below max_queue |
| ThreadPools.ThreadPool.Serve | threadpool/thread_pool.c:194-210 | the first task, or none; the tail pointer goes back to the head of an emptied queue |
| ThreadPools.ThreadPool.Enter | threadpool/thread_pool.c:187-210 | the same with the worker counted in |
| ThreadPoolRuns.QueuedAlive | threadpool/thread_pool.c:135-210 | no task that is queued has been freed |
| ThreadPoolRuns.HeldAlive | threadpool/thread_pool.c:205-226 | no task that a worker has was freed or is queued, and no other worker has it |
| ThreadPoolRuns.ReturnsOnce | threadpool/thread_pool.c:218-226 | a task whose handler returns had not been freed before |
| ThreadPoolRuns.ExitNotQueued | threadpool/thread_pool.c:86-95 | the task on the stack of destroy is not queued when it is posted again |
| ThreadPoolRuns.PostOne | threadpool/thread_pool.c:135-171 | posting on the linked queue keeps step with the protocol, and the task is accepted exactly if it does |
| ThreadPoolRuns.TakeOne | threadpool/thread_pool.c:187-210 | so does a worker that takes a task or waits |
| ThreadPoolRuns.FinishOne | threadpool/thread_pool.c:218-226 | so does one whose handler returns, which frees its task |
| ThreadPoolRuns.AllFreed | threadpool/thread_pool.c:98-104 | once the pool is freed every task was handed out, nobody has one, and all but that of destroy were freed, each once |
| ThreadPoolRuns.RunQueue | threadpool/thread_pool.c:14-226 | any run of the protocol over the linked queue: tasks are handed out in the order they were accepted, and each is freed once and not queued after |
| Arc4.ThresholdIs | libevent/libevent-2.1.12-stable/arc4random.c:519-529 | min is 2^32 mod bound, and below 2^31 |
| Arc4.OneEach | libevent/libevent-2.1.12-stable/arc4random.c:537-545 | every stretch as long as the bound has one draw for each value |
| Arc4.UniformExactly | libevent/libevent-2.1.12-stable/arc4random.c:513-545 | each value below the bound has exactly floor(2^32 / bound) accepted draws |
| Arc4.Uniform | libevent/libevent-2.1.12-stable/arc4random.c:513-545 | the first accepted draw of those given, reduced; below the bound; none exactly if none is accepted |
| Arc4.NextInvertible | libevent/libevent-2.1.12-stable/arc4random.c:415-428 | a byte keeps the state a permutation, and the step can be undone |
| Arc4.NextSays | libevent/libevent-2.1.12-stable/arc4random.c:415-428 | i goes on by one, j by the entry there, the two entries are exchanged, and the byte is the entry at their sum |
| Arc4.StirSays | libevent/libevent-2.1.12-stable/arc4random.c:110-127 | stirring in 0 is a step of the stream, and the byte stirred in can be read off |
| Arc4.StirredSays | libevent/libevent-2.1.12-stable/arc4random.c:110-127 | step n stirs in byte n of the data, repeated |
| Arc4.AddedOk | libevent/libevent-2.1.12-stable/arc4random.c:110-127 | adding data keeps a permutation, and looks at no more than 256 bytes |
| Arc4.Rs.constructor | libevent/libevent-2.1.12-stable/arc4random.c:99-108 | the identity permutation |
| Arc4.Rs.GetByte | libevent/libevent-2.1.12-stable/arc4random.c:415-428 | the step on the array |
| Arc4.Rs.GetWord | libevent/libevent-2.1.12-stable/arc4random.c:430-440 | four bytes, the first the most significant |
| Arc4.Rs.AddRandom | libevent/libevent-2.1.12-stable/arc4random.c:110-127 | the key schedule on the array |

## Left out

- Buffer callbacks, their counters of added and deleted bytes, and deferred callbacks, except those that a pair or a bandwidth limit sets off.
- Pinned, immutable, reference, multicast, sendfile and file-segment chains, and everything for Windows.
- Failing allocations in the buffers other than for size: a chain can be made whenever it is not larger than the largest chain.
- The first test of PREPEND_CHAIN for a missing chain, which cannot succeed after the line before it.
- The int results of remove and readln are not truncated, and a length counts as a nat bounded by `size_t` only where an operation tests it; positions are at most the largest ssize_t.
- EvBuffers.EvBuffer.Gather: raises the length of the first chain as bytes are copied rather than once before, and links its next chain at the end rather than first; nothing reads either in between.
- Timeouts of pairs, user callbacks, low and write watermarks, unlinking and freeing of pairs.
- Locks inside buffers and bufferevents: each public call is one step; only the group's try-lock is kept, as the set of locks that are free.
- The rate-limited callbacks know their buffers by length, and by whether there is a chain to start in; what a read does to a buffer is `EvBufferRead.Read`.
- Sockets: what the kernel reports and moves is a parameter; and evbuffer_write, which hands the first chains to the kernel and drains what was taken.
- The low-level errors of adding timer and socket events, which the source mostly ignores.
- Overflow of a limit by a charge is excluded: such signed arithmetic is undefined in the source.
- TokenBucket.WindowBound: is for decrements that are not negative, because refunds let more through; so is RateLimit.RunBound.
- RateGroup.RunKeeps: keeps the floor 1 - min_share only in runs without the public decrement, which can lower the limit at will.
- RateGroupRuns.RunGroup: is for reading, since the write callback of a member is left out, and without the public decrement.
- The totals of a group, changing its configuration, and a member's write callback.
- Cleanup handlers and chains of the pool, which are commented out in the source; ngx_pcalloc, which only zeroes what ngx_palloc returns.
- Debug output, and the thread pool's failing system calls: locking and signalling succeed.
- ThreadPools.ThreadPool.Post: numbers the tasks of one pool, where the counter of the source is shared by all pools; only messages show it.
- Whether the operating system's scheduler lets every worker run, so that destroying the thread pool ends; also a poster that runs while it is destroyed.
- Seeding and reseeding of the generator, and any claim about the quality of its output.
- Arc4.Uniform: is over a finite list of draws, where the source would go on drawing.
- OpenSSL and filter bufferevents, the event loop, and the generated and demonstration code of the repository.
