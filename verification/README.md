# Kernel algorithms of Linux 2.3.29 in Dafny

Models of thirteen algorithms of the kernel and proofs about them.  Code that works in
place is a class or a method with the loops of the C code; what it is meant to do is a
function or a predicate, and the two are tied together by contracts and lemmas.  Regions
between taking and giving up a lock (or sleeping) are single methods, so a statement about
"every run" is an invariant that every method of a class keeps, for whatever the other
processes do in between.

| Files | Subject |
|---|---|
| Timer* | the timer wheel of kernel/sched.c refines a clock with a set of pending timers |
| Huffman*, Huft* | the decoding tables of lib/inflate.c and the canonical code of section 3.2.2 of RFC 1951 |
| InflateWindow, BitReader, Chains, Deflate*, Inflate* | inflate of lib/inflate.c as a whole, with its 32K window and bit buffer, against the format of sections 3.2.3 to 3.2.7 of RFC 1951 |
| LockSpec, LockSteps, LockFile | posix_lock_file of fs/locks.c as an update of a map from bytes to lock types |
| LockWaits, LockSystem | blocking, wakeups and the deadlock search over all inodes |
| Dentry*, Dcache | the dentry tree, reference counts, hash, shrinking and rename (fs/dcache.c, fs/namei.c) |
| Inode* | the lists, hash chains and counts of fs/inode.c |
| SemSpec, SemQueue, SemSet | batches, undo, rollback and the queue of ipc/sem.c |
| MsgText, MsgQueue | ipc/msg.c |
| Pipe, PrintkLog | the rings of fs/pipe.c and kernel/printk.c |
| Bootmem, PageWrite, PidAlloc | mm/bootmem.c, block_write_partial_page, get_pid |
| Lists, Bytes, Options | linked lists as sequences, bytes and copying |

## Where the code does less than one would expect

- huft_build (line 407 of lib/inflate.c) lets a table below the root grow beyond the
  requested number of bits.  inflate_codes takes such an entry for a leaf or goes astray.
  Walking the tables is right exactly when the code is not `Crowded`; `CrowdedExample` is a
  complete code that is, and `ShortCodesNotCrowded` and `FewCodesNotCrowded` show that the
  codes the kernel itself builds are not.  The comment above huft_build says that all-zero
  lengths return 2; the code returns 0 for them.
- inflate_dynamic accepts a code with no code word or with one of a single bit.  Bits that no
  code word starts with are then not always reported as an error (`Fault` in the model, and
  `FaultExample`).  `Decompress` shows that this concerns only streams that are not valid.
- The test before the memcpy of inflate_codes lets ranges overlap, exactly when the source
  starts inside the target (`OverlapIsExact`, `OverlapExample`).  The copy is right for a
  memcpy that goes from low addresses to high ones (`Move`).
- posix_lock_file adds one to `fl_end` in `off_t` (line 995 of fs/locks.c).  The list keeps
  its form exactly when the request does not `Wrap`; `WrapExample` is a list and a request
  that do.
- `semadj` is a short.  The value of a semaphore and all its adjustments add up to what the
  batches without SEM_UNDO made of it modulo 65536, and exactly as long as no adjustment
  goes around; `TurnExample` is a batch that does.
- Wakeups of semaphore sleepers can be lost in two ways.  update_queue makes one pass, in
  which a batch that waits for zero and adds is done; exactly such a batch can leave one
  asleep in front of it that could go on (`LossIsExact`, `LossExample`).  And a pass stops at
  a sleeper that was told to try itself, which makes no pass when it fails.  In a run without
  batches of the first kind, whoever could go on is told or is behind one that is, in every
  state, if and only if no sleeper that was told and that others rely on fails to go on or
  exits (`RunLosesNone`, `StepLosesNone`); `ForsakenExample` is a run of single decrements
  and increments on a fresh set in which one does.
- is_root_busy reports an idle tree exactly when no leaf is used and there is at most one
  user altogether.  For a root that somebody holds, as its callers do, this means one user
  of the root and none below.  `IdleExample` is a root that nobody holds, with a user below.
- do_syslog compares positions in 32 bits.  The test for one character is right exactly when
  no multiple of 2^32 lies between the positions it compares (`TestIsExact`), and a read
  stops where it should exactly when this holds for every character up to there
  (`ReadIsExact`).  `PrintkLog.WrapExample` is a character that is gone and returned,
  `TruncatedExample` a read that returns nothing although nobody writes; without writers
  this happens exactly in the last 16383 positions before a multiple of 2^32 (`NoWriter`).
- convert_mode negates the message type, so LONG_MIN stays negative: it asks for every
  message and gets none.  All other types get what they ask for (`ConvertIsExact`,
  `LongMinExample`).  A negative type bounds by its magnitude, inclusively; the comment in
  convert_mode says less than it.
- switch_names does not copy a short name to the dentry that is moved out of the way.  That
  dentry has the name exactly when it is long or its buffer happens to start with it
  (`MovedNames`, `ShortNameExample`).
- The second pass of __alloc_bootmem goes on with the stretch of free pages at the end of
  memory and is blind up to the first reserved page.  A run is missed exactly when there is
  none from the goal on, the last page is free, and every run comes before the first
  reserved page (`FindIsExact`, `MissedExample`).
- get_pid tries ids for ever exactly when none that its counter comes to is free: its first n
  tries fail exactly when the first n ids of the counter are in use (`ScanTries`), and these
  are the ids ahead (`NoneToFind`).  `AllTakenExample` is such a list of tasks; with fewer
  than 10823 tasks the scan always ends (`FewTasks`).

## Model

| member | source | states |
|---|---|---|
| TimerSpec.PendingUntilFired | kernel/sched.c:964-988 | in every legal run of the simple clock a timer armed and left alone is pending with its due tick, or has fired once, and then while the clock showed that tick |
| TimerSpec.FiresExactlyOnce | kernel/sched.c:964-988 | once the clock has passed the due tick of a timer left alone, it has fired exactly once, at that tick |
| TimerPlacement.PlaceIsHome | kernel/sched.c:443-475 | the slot internal_add_timer selects is one in which the timer will be found when it is due; an expiry in the past is due at the next slot to be run |
| TimerPlacement.CascadedTimerMoves | kernel/sched.c:946-962 | a timer re-inserted by a cascade goes to another slot than the one being emptied |
| TimerPlacement.HomeOtherSlot | kernel/sched.c:946-962 | timers outside the slot of a cascade stay rightly placed |
| TimerPlacement.HomeAcrossTick | kernel/sched.c:984-985 | placement survives the step to the next tick |
| TimerPlacement.DueNowIsInRoot | kernel/sched.c:975-983 | a timer due now is in the current slot of the root vector once the cascades are done |
| TimerPlacement.HomeWithoutCascade | kernel/sched.c:969-974 | a level need not be cascaded while the index below is not zero |
| TimerPlacement.IndexOneMeansNextLevel | kernel/sched.c:969-974 | the test of the index for one tells whether the next level has to be cascaded |
| TimerPlacement.IndexAcrossTick | kernel/sched.c:984-985 | the indices of all vectors are those of the clock after the step |
| TimerLists.LinkedUnlink | kernel/sched.c:497-508 | detaching keeps every pending timer on exactly one list |
| TimerLists.CascadeOne | kernel/sched.c:955-959 | moving one timer of a cascade keeps the others rightly placed |
| TimerLists.PlacedAcrossTick | kernel/sched.c:984-985 | all pending timers stay rightly placed when the clock advances past an empty slot, and are due later |
| TimerLists.HeadIsDueNow | kernel/sched.c:975-979 | the timer at the head of the current slot is due now |
| TimerWheel.Wheel.constructor | kernel/sched.c:420-432 | an empty wheel |
| TimerWheel.Wheel.InternalAddTimer | kernel/sched.c:443-475 | the timer is linked at the head of its slot and of no other |
| TimerWheel.Wheel.Detach | kernel/sched.c:497-508 | the timer is pending no more; says whether it was |
| TimerWheel.Wheel.AddTimer | kernel/sched.c:479-495 | arms a timer in the simple clock; a pending one is left alone |
| TimerWheel.Wheel.ModTimer | kernel/sched.c:510-519 | disarms and arms again |
| TimerWheel.Wheel.DelTimer | kernel/sched.c:521-531 | disarms; returns whether the timer was pending |
| TimerWheel.Wheel.CascadeTimers | kernel/sched.c:946-962 | empties a slot into lower ones without losing a timer |
| TimerWheel.Wheel.Sweep | kernel/sched.c:969-974 | after the sweep all levels are as the tick wants them |
| TimerWheel.Wheel.RunSlot | kernel/sched.c:975-983 | runs the slot empty, whatever the functions of the timers and other processors add, change or delete |
| TimerWheel.Wheel.NextTick | kernel/sched.c:984-985 | one tick of the simple clock; nothing due is left behind |
| TimerWheel.Wheel.RunTimerList | kernel/sched.c:964-988 | every step is one of the simple clock, and afterwards the wheel has caught up with jiffies |
| TimerWheel.Wheel.EveryTimerRunsOnTime | kernel/sched.c:443-531 | in every reachable state, a timer left alone since it was armed has run exactly once if its due tick is past, only while the clock showed that tick, and is pending otherwise |
| HuffmanSpec.NextCodeIsEnd | lib/inflate.c:374-392 | the first code of each length of section 3.2.2 of RFC 1951 follows the space the shorter ones use up |
| HuffmanSpec.PrefixUnique | lib/inflate.c:384-482 | no bit stream begins with the codes of two symbols |
| HuffmanBits.SuccessorIsNextCode | lib/inflate.c:468-471 | the backwards increment of the bit-reversed code is the reversal of the next canonical code |
| HuftCode.CountLengths | lib/inflate.c:310-318 | counts the lengths |
| HuftCode.FindLengths | lib/inflate.c:328-342 | the shortest and the longest length, and the number of bits to look up bounded by them |
| HuftCode.FillOut | lib/inflate.c:346-352 | fails exactly when the lengths are oversubscribed; otherwise the longest length is filled up to a complete code |
| HuftCode.Offsets | lib/inflate.c:356-361 | where the symbols of each length begin |
| HuftCode.SortValues | lib/inflate.c:365-370 | the symbols in order of length and number |
| HuftCode.NthSymbol | lib/inflate.c:365-370 | the n-th symbol of a length is the one of canonical rank n |
| HuftBuild.PickBits | lib/inflate.c:400-415 | the size chosen for a table; it exceeds the requested size exactly where the code is crowded |
| HuftBuild.FillTable | lib/inflate.c:463-466 | the entries whose index ends in a code, and no others, get its leaf |
| HuftBuild.BackwardsIncrement | lib/inflate.c:468-471 | the next code |
| HuftState.OpenTable | lib/inflate.c:394-443 | a new table hangs below the one it extends and the tables above stay as they were |
| HuftState.FillCode | lib/inflate.c:446-471 | all patterns of one more code lead to its leaf |
| HuftMake.OpenTables | lib/inflate.c:394-443 | the tables a code needs are open |
| HuftMake.BackUp | lib/inflate.c:473-478 | the stack of tables is that of the next code |
| HuftMake.MakeTables | lib/inflate.c:384-482 | every pattern of every code leads to its leaf; a table is too wide exactly for a crowded code; a single table suffices where the root takes the longest code; fails only for lack of memory |
| HuftDecode.DecodesUnlessCrowded | lib/inflate.c:538-547 | walking the tables finds the code that matches on every bit stream if and only if the code is not crowded |
| HuftWhole.BuildTables | lib/inflate.c:274-488 | returns 2 exactly for oversubscribed lengths, 0 for complete ones; the tables decode every stream exactly when the code is not crowded, looking at no more bits than the longest code has; returns 3 only for lack of memory |
| HuftTheorems.SymbolsDecoded | lib/inflate.c:538-547 | a stream that begins with the canonical code of a symbol decodes to that symbol and uses up just its length |
| HuftTheorems.CompleteCovers | lib/inflate.c:487-488 | with complete lengths every stream begins with the code of some symbol |
| HuftTheorems.EveryStreamDecodes | lib/inflate.c:538-547 | with complete lengths every stream decodes, to the one symbol whose code is a prefix of it |
| HuftTheorems.UnusedPatterns | lib/inflate.c:448-449 | a stream no code begins decodes to the invalid entry, when every symbol has a code |
| HuftTheorems.ShortCodesNotCrowded | lib/inflate.c:400-415 | codes up to twice as long as the requested bits are not crowded |
| HuftTheorems.FewCodesNotCrowded | lib/inflate.c:400-415 | fewer codes than root entries are not crowded |
| HuftTheorems.CrowdedExample | lib/inflate.c:407 | the lengths 1, 3, 3, 3, 3 with one bit requested are crowded |
| InflateWindow.ChunkAtOnce | lib/inflate.c:589-594 | copying a chunk no longer than the distance at once gives what copying byte by byte gives |
| InflateWindow.Window.FlushIfFull | lib/inflate.c:552-556 | nothing of the history is lost when the window is flushed |
| InflateWindow.Window.Put | lib/inflate.c:550-556 | a literal extends the history |
| InflateWindow.Window.CopySlowly | lib/inflate.c:597-600 | the byte by byte copy is the expansion of the pair |
| InflateWindow.Window.Move | lib/inflate.c:591 | an ascending copy gives the target the old bytes of the source, also where the ranges overlap |
| InflateWindow.OverlapIsExact | lib/inflate.c:589 | the ranges of a copy at once overlap exactly when the source starts inside the target |
| InflateWindow.OverlapExample | lib/inflate.c:589 | they do for a distance of 32767 at the start of the window |
| InflateWindow.Window.CopyAtOnce | lib/inflate.c:589-594 | so is the copy at once, whenever the test allows it |
| InflateWindow.Window.CopyRound | lib/inflate.c:587-605 | one chunk of the copy, stopping at the end of the window on either side |
| InflateWindow.Window.CopyMatch | lib/inflate.c:585-606 | a length and a distance expand byte by byte as section 3.2.3 of RFC 1951 says |
| InflateWindow.Window.FlushedAndLive | lib/inflate.c:548-607 | what has been flushed and the live part of the window are the whole output |
| InflateWindow.Window.FlushRest | lib/inflate.c:993-994 | at the end everything has been passed on |
| BitReader.Reader.NeedBits | lib/inflate.c:224-225 | the bits are in the buffer and none is used up, unless fewer are left |
| BitReader.Reader.DumpBits | lib/inflate.c:226 | uses up the bits |
| BitReader.Reader.SkipToByte | lib/inflate.c:638-640 | the next bit is the first of a byte |
| BitReader.Reader.Unread | lib/inflate.c:985-991 | the input stands at the first byte none of whose bits was used |
| DeflateSpec.LengthTables | lib/inflate.c:167-173 | the tables of lengths hold what the format says: each symbol starts where the one before ends, with one extra bit more every four symbols, and the last is for 258 |
| DeflateSpec.DistanceTables | lib/inflate.c:174-181 | the same for distances, with one bit more every two symbols, from 1 to 32768 |
| DeflateSpec.SpellsOnce | lib/inflate.c:529-616 | bits begin with at most one literal or pair |
| DeflateSpec.PriorIrrelevant | lib/inflate.c:548-607 | with distances within the output, what the window held before does not matter |
| DeflateFormat.HeaderOnce | lib/inflate.c:762-848 | the bits of a header give one pair of codes |
| DeflateFormat.BlocksExact | lib/inflate.c:910-952 | the bits from a place on are at most one block |
| DeflateFormat.CompressedOnce | lib/inflate.c:957-1002 | a stream is the compressed form of at most one list of blocks |
| DeflateFormat.OutputIsOriginal | lib/inflate.c:957-1002 | with distances within the output, the window gives the byte by byte expansion of all blocks |
| InflateCodes.DecodeSymbol | lib/inflate.c:538-547 | the entry the tables give for the stream, and its bits used up; at most 16 bits are looked at |
| InflateCodes.ReadSymbol | lib/inflate.c:538-547 | the one symbol whose code the stream begins with; it stops only where there is none, or for lack of input |
| InflateCodes.ReadDistance | lib/inflate.c:569-582 | the distance spelled by the stream; it stops only where there is none |
| InflateCodes.ReadCopy | lib/inflate.c:564-582 | a length and a distance spelled by the stream; it stops only where there is none |
| InflateCodes.OneToken | lib/inflate.c:536-607 | one literal or pair spelled by the stream is written, or the end of the block is found |
| InflateCodes.InflateTokens | lib/inflate.c:513-618 | what the block adds to the output is what the tokens spelled by its bits expand to, up to the end code; it stops only where the stream spells none, and without an error code only if a code is incomplete |
| InflateCodes.InflateStored | lib/inflate.c:622-674 | the bytes of a stored block; an error exactly when its length and the complement do not agree |
| InflateDecoders.GapIsRight | lib/inflate.c:446-449 | a code with a single code word of one bit: no symbol starts with the other bit |
| InflateDecoders.NotCrowded | lib/inflate.c:793-877 | no call of huft_build in the kernel is for a crowded code |
| InflateDecoders.MakeDecoder | lib/inflate.c:274-488 | a code is rejected exactly when it is neither complete nor a single code word of one bit, or for lack of memory; otherwise the tables decode it |
| InflateDecoders.FaultExample | lib/inflate.c:876 | two distances of which one has a code word, of one bit: huft_build accepts them as inflate_dynamic passes them, and the other bit goes unreported |
| InflateHeader.OrderFacts | lib/inflate.c:165-166 | the table of the order is the one of the format and its inverse |
| InflateHeader.ReadLengthCode | lib/inflate.c:781-789 | the lengths of the code length code, in the order of the alphabet, the rest zero |
| InflateHeader.LookUp | lib/inflate.c:810-813 | one look into the one table finds the symbol |
| InflateHeader.ReadItem | lib/inflate.c:810-847 | a length or a run spelled by the stream |
| InflateHeader.ReadList | lib/inflate.c:804-848 | the list of lengths spelled by the stream; an error only where there is no list of that many lengths |
| InflateHeader.ReadHeader | lib/inflate.c:762-848 | the header spelled by the stream; an error only where there is none, and error 2 exactly for a code length code with too many code words |
| Inflate.FixedComplete | lib/inflate.c:692-702 | the fixed literal code uses every pattern |
| Inflate.FixedDistances | lib/inflate.c:706-709 | the fixed distance code does not |
| Inflate.FixedLengths | lib/inflate.c:692-700 | the lengths of section 3.2.6 of RFC 1951 |
| Inflate.InflateFixed | lib/inflate.c:678-728 | the block the bits spell with the fixed codes is added to the output; stops only where they spell none |
| Inflate.InflateDynamic | lib/inflate.c:732-906 | the same for a block with codes of its own |
| Inflate.InflateBlock | lib/inflate.c:910-953 | the same for any block, and whether it is the last; other types are rejected |
| Inflate.InflateBlocks | lib/inflate.c:971-983 | the blocks up to the first that is marked as the last, and their output |
| Inflate.Decompress | lib/inflate.c:957-1002 | for every input: on success it begins with the compressed form of exactly one list of blocks, the output is what they expand to (their original, if no distance reaches back before its start), and the input stands behind them; any other end than for lack of memory or input means that it begins with no compressed form; with memory, every compressed form with eight bytes behind it succeeds |
| DeflateStored.PackedIsCompressed | lib/inflate.c:622-674 | every string of bytes has a compressed form in stored blocks, and is its original |
| DeflateStored.RoundTrip | lib/inflate.c:957-1002 | inflate gives back what was packed, and uses up just the packed form, whatever follows |
| LockFile.WalkOwn | fs/locks.c:986-1063 | the walk over the owner's locks, in terms of what is kept, cut, merged and replaced |
| LockFile.SameKind | fs/locks.c:989-1017 | a lock of the same type is passed, merged or lies beyond the request |
| LockFile.OtherKind | fs/locks.c:1018-1058 | a lock of another type is passed, cut, split, replaced or deleted |
| LockFile.Epilogue | fs/locks.c:1065-1089 | the new lock is inserted and the outer locks are cut |
| LockFile.ApplyLock | fs/locks.c:975-1089 | the caller's lock types are the old ones overwritten by the request on its range, other owners' are unchanged, and the list keeps its form exactly when the request does not wrap; sleepers are woken or stay on a conflicting lock, and none is lost |
| LockFile.ResultAlone | fs/locks.c:968-1100 | the locks of other owners, and those of the owner that do not touch the request, stay as they are with their sleepers |
| LockFile.SuccIs | fs/locks.c:995 | what fl_end plus one is in 32 bits |
| LockSystem.WrapExample | fs/locks.c:995 | a well formed list and a request up to the largest offset that wraps |
| LockWaits.OneBlocker | fs/locks.c:783-797 | with one wait per task an owner waits for one owner |
| LockWaits.CycleClosed | fs/locks.c:798-831 | one more wait closes a cycle exactly when the one waited for leads back to the waiter |
| LockWaits.FindWait | fs/locks.c:814-829 | finds the owner another one waits for, if there is one |
| LockWaits.Deadlock | fs/locks.c:798-831 | the search ends, and reports a deadlock exactly when the lock's owner waits, directly or through others, for the caller |
| LockSystem.FreeIsExact | fs/locks.c:766-780 | the tests on the list find no conflict exactly when on every byte of the request nobody else holds a lock, all only read, or it is an unlock |
| LockSystem.CompatibleUpdate | fs/locks.c:945-966 | a request without a conflict keeps every byte free of incompatible holders |
| LockSystem.QuietAsleep | fs/locks.c:955-963 | going to sleep keeps one wait per task, and keeps waits acyclic exactly when the search finds nothing |
| LockSystem.Scan | fs/locks.c:945-951 | the first lock on the list that blocks the request |
| LockSystem.Locks.constructor | fs/locks.c:141 | no locks, nobody waiting |
| LockSystem.Locks.LockFile | fs/locks.c:924-1100 | in every run: lists well formed, no incompatible holders, sleepers on conflicting locks, one wait per task, no cycle of waits; granted exactly when no byte is held in conflict, a deadlock exactly when waiting for the first lock in the way would close a cycle |
| LockSystem.Locks.Leave | fs/locks.c:222-241 | a sleeper leaves its queue |
| DentryTree.RankedAcyclic | fs/dcache.c:678-703 | depths that grow downwards exclude cycles of parent links |
| DentryTree.ExchangeRanked | fs/dcache.c:691-698 | exchanging the parents of a dentry and of a childless one not below it leaves no cycle |
| DentryTree.ExchangeForest | fs/dcache.c:691-702 | child lists and parent links agree after the exchange, and every directory has as many children as before |
| DentryWalk.PassedOnce | fs/dcache.c:311-327 | the child about to be visited lies below no other one ahead, so none is visited twice |
| DentryWalk.Descend | fs/dcache.c:312-323 | visiting a child takes just it from what is ahead |
| DentryWalk.Ascend | fs/dcache.c:331-335 | going up changes nothing about what is ahead |
| DentryBusy.Advance | fs/dcache.c:311-335 | one turn of the traversal: a descendant not seen before, or up, or all have been seen |
| DentryBusy.BusyMeansUsed | fs/dcache.c:305-337 | for a root somebody holds: not busy exactly when it has one user and nothing below has any |
| DentryBusy.IsRootBusy | fs/dcache.c:305-337 | visits each descendant at most once; idle exactly when no leaf is used and there is at most one outside reference in all |
| DentryBusy.IdleExample | fs/dcache.c:305-337 | a root that nobody holds is reported idle with a user below |
| DentryState.FreedOk | fs/dcache.c:132-143 | freeing a childless unused dentry leaves one reference of its parent to be dropped |
| DentryMove.MovedHash | fs/dcache.c:684-689 | the hash table agrees with parents and names after the move |
| DentryMove.MovedNames | fs/dcache.c:648-662 | the moved dentry has the name of the target; the target has that of the moved dentry exactly when it is long or its buffer happens to start with it |
| DentryMove.ShortNameExample | fs/dcache.c:648-661 | two short names after which both dentries have one name |
| DentryMove.MovedOk | fs/dcache.c:678-703 | tree, counts, hash table and unused list stay right, and the dentry is found where the target was |
| DentryPut.PrunedOk | fs/dcache.c:208-220 | pruning an unused dentry keeps all but one reference of its parent |
| Dcache.Cache.constructor | fs/dcache.c:854-870 | an empty cache |
| Dcache.Cache.DAlloc | fs/dcache.c:435-481 | a new child with one user; the parent has one reference more |
| Dcache.Cache.DAllocRoot | fs/dcache.c:500-513 | a new root |
| Dcache.Cache.DInstantiate | fs/dcache.c:493-498 | a dentry gets its inode |
| Dcache.Cache.DropRef | fs/dcache.c:103-155 | only unhashed ancestors without users go; counts equal children plus outside references afterwards; the end of the unused list stays |
| Dcache.Cache.DPut | fs/dcache.c:103-155 | the user's reference is gone, and with it only unhashed unused ancestors |
| Dcache.Cache.DLookup | fs/dcache.c:522-551 | the hashed dentry with that parent and name, with one user more, or there is none |
| Dcache.FoundIsMoved | fs/dcache.c:522-551 | after a move, a lookup of the old parent and name of the target finds the moved dentry |
| Dcache.Cache.DRehash | fs/dcache.c:626-631 | hashed where lookups look |
| Dcache.SelectParent | fs/dcache.c:346-390 | the unused descendants, and they alone, are at the end of the unused list |
| DentryShrink.PrunedAbove | fs/dcache.c:208-220 | pruning takes the dentry and ancestors of it |
| DentryShrink.VictimsBelow | fs/dcache.c:394-400 | victims below a dentry that is held take nothing else with them but dentries below it |
| DentryShrink.InUseIs | fs/dcache.c:184-194 | with everything unused below it gone, a held directory has a count above one exactly when somebody else used it or something below it |
| Dcache.Cache.PruneOne | fs/dcache.c:208-220 | the dentry and ancestors of it go, all unused, and what was before it at the end of the unused list is last now |
| Dcache.Cache.PruneDcache | fs/dcache.c:227-246 | unused dentries go from the end of the list, no more than asked for and fewer only if the list gets empty; if that many at its end are unused they are the victims |
| Dcache.Cache.ShrinkParent | fs/dcache.c:394-400 | ends, and then every descendant left is in use and nothing but unused descendants is gone |
| Dcache.Cache.DInvalidate | fs/dcache.c:169-201 | fails exactly for a hashed directory that somebody else uses, or something below it; only unused descendants are gone; a directory that is dropped has no children |
| Dcache.IsSubdir | fs/dcache.c:799-816 | true exactly when the first dentry is the second or lies below it |
| Dcache.Cache.DMove | fs/dcache.c:678-703 | keeps the invariant; a lookup finds the dentry in place of the target; child counts as before; both names, and nothing else changed |
| Dcache.Cache.RenameDir | fs/namei.c:1290-1308 | parent links stay acyclic; exactly when the directory is moved; then it is found in place of the target and the target is not; nothing is gone but unused dentries below the target |
| Dcache.Cache.RenameOther | fs/namei.c:1310-1345 | the same for other files, with the exact condition for the move; two links of one inode are left alone |
| InodeState.KeepOk | fs/inode.c:39-49 | a step that changes one inode and accounts for it keeps lists, chains and counts right |
| InodeSteps.DirtiedOk | fs/inode.c:112-128 | keeps the invariant: a hashed inode goes to the dirty list of its super block |
| InodeSteps.DirtiedIs | fs/inode.c:112-128 | an inode with a super block becomes dirty; hashed and not dirty before it goes to the front of the dirty list, otherwise nothing moves |
| InodeSteps.SyncStartedOk | fs/inode.c:164-170 | a synced inode goes to the list its count dictates |
| InodeSteps.SyncStartedIs | fs/inode.c:164-170 | clean and locked, and at the front of the list its count dictates |
| InodeSteps.GotOk | fs/inode.c:415-426 | the first user takes a clean inode to the list in use |
| InodeSteps.GotIs | fs/inode.c:415-426 | one reference more; an idle clean inode goes to the front of the list in use, and nothing else moves |
| InodeSteps.RestedOk | fs/inode.c:682-690 | the last user of a hashed inode leaves it unused |
| InodeSteps.RestedIs | fs/inode.c:682-690 | one reference less; a clean inode that is idle now goes to the front of the unused ones |
| InodeSteps.CondemnedIs | fs/inode.c:660-681 | no reference, not hashed, on no list, and being freed |
| InodeSteps.HeldInode | fs/inode.c:39-49 | an inode that somebody holds is there, and is neither unused nor on its way out |
| InodeSteps.EnhashedOk | fs/inode.c:520-528 | an inode entered when no hashed one has its number is the only one |
| InodeCache.FindInode | fs/inode.c:434-455 | the hashed inode that matches, or there is none |
| InodeCache.Icache.constructor | fs/inode.c:732-749 | an empty cache |
| InodeCache.Icache.MarkInodeDirty | fs/inode.c:112-128 | the new record and place of the inode, everything else as before; keeps the invariant |
| InodeCache.Icache.SyncOne | fs/inode.c:158-178 | waits for a locked inode, or takes it off the dirty list before the lock is dropped |
| InodeCache.Icache.Take | fs/inode.c:415-426 | the holder has one reference more, and the count is the number of references |
| InodeCache.Icache.Iget4 | fs/inode.c:607-621 | finds an inode and takes a reference, or there is none |
| InodeCache.Icache.GetNewInode | fs/inode.c:511-562 | enters the new inode only if none has come up since, and takes a reference; without an actor there is one inode per super block and number |
| InodeCache.Icache.GetEmptyInode | fs/inode.c:483-503 | an inode in use that is not hashed |
| InodeCache.Icache.Igrab | fs/inode.c:594-605 | a reference unless the inode is being freed |
| InodeCache.Icache.InsertInodeHash | fs/inode.c:629-635 | hashing an inode that is not dirty |
| InodeCache.Icache.RemoveInodeHash | fs/inode.c:637-643 | an inode in use is not hashed any more |
| InodeCache.Icache.Iput | fs/inode.c:645-700 | the reference is gone; which inodes are kept, handed to the file system or destroyed, by the number of references, and where they stand |
| InodeCache.Icache.DestroyInode | fs/inode.c:249-283 | the inode is gone |
| InodeCache.Icache.InvalidateList | fs/inode.c:288-318 | exactly the unused inodes of the super block are discarded; busy exactly when one is used |
| InodeCache.Icache.InvalidateInodes | fs/inode.c:327-342 | inodes in use are left alone; those of the super block that are left are in use, and busy is the answer exactly when there is one |
| InodeCache.Icache.PruneIcache | fs/inode.c:369-390 | from the end of the unused list, exactly the clean unlocked inodes without pages are discarded, up to the goal; inodes in use are left alone; the BUG is unreachable |
| SemSpec.Forth | ipc/sem.c:255-264 | values and adjustments after one more operation |
| SemSpec.Back | ipc/sem.c:293-301 | one operation back is the exact inverse, also in a short |
| SemSet.Sems.constructor | ipc/sem.c:123-148 | a new set |
| SemSet.Sems.DoOps | ipc/sem.c:254-270 | the operations are done in order up to the first that cannot be |
| SemSet.Sems.UndoOps | ipc/sem.c:292-301 | values and adjustments are exactly what they were |
| SemSet.Sems.TryAtomicSemop | ipc/sem.c:246-304 | succeeds exactly when every operation passes after those before it; all or nothing, with the code of the first failure |
| SemSet.BatchAccounted | ipc/sem.c:246-304 | a batch changes value plus adjustments by its operations without SEM_UNDO, but for turns of a short |
| SemSet.BatchCharged | ipc/sem.c:263-264 | the adjustments of each process are what its own operations with SEM_UNDO have added since the semaphore was set, negated, in a short; other processes are not charged |
| SemQueue.StaysPositive | ipc/sem.c:266-267 | a batch that passes leaves no value negative |
| SemSet.NothingCarried | ipc/sem.c:263-264 | no adjustment out of range, no difference |
| SemSet.TurnExample | ipc/sem.c:263-264 | a batch on a fresh set that takes an adjustment around |
| SemSet.Sems.TryNext | ipc/sem.c:314-332 | one sleeper of the pass; if its batch is done it is charged to its own process |
| SemSet.Sems.UpdateQueue | ipc/sem.c:309-335 | values and queue are those of one pass: sleepers whose batch can be done or is refused leave, up to the first that decrements and can be done, which is to try itself; and which batches of whom were done |
| SemQueue.PassLosesNone | ipc/sem.c:309-335 | if sleepers that decrement nothing only wait for zero, whoever could go on after a pass is told or behind one that is |
| SemQueue.LossIsExact | ipc/sem.c:323-332 | a sleeper makes the pass leave another behind exactly when its batch decrements nothing, adds something and is done in the pass |
| SemQueue.LossExample | ipc/sem.c:323-332 | two sleepers of which one is left behind |
| SemQueue.PlainWaits | ipc/sem.c:255-288 | a batch that has to wait decrements something, waits for zero only, or waits for zero and adds |
| SemQueue.StepLosesNone | ipc/sem.c:845-896 | a semop, try, interrupt, exit, SETVAL or SETALL keeps that whoever could go on is told or behind one that is, exactly unless one that others rely on fails to go on |
| SemQueue.RunLosesNone | ipc/sem.c:845-896 | the same for whole runs, in both directions |
| SemQueue.ForsakenExample | ipc/sem.c:877-882 | a run of six steps on a fresh set that leaves one asleep that could go on |
| SemQueue.TwoToldExample | ipc/sem.c:323-330 | a run in which two sleepers are told at once |
| SemSet.Sems.SemOp | ipc/sem.c:765-851 | zero exactly when the batch passes, and else the code of the first failure; sleeps exactly when it has to wait, at the end of the queue if it alters anything and else at the front; otherwise makes a pass if it alters anything; which batches of whom were done |
| SemSet.Sems.FindUndo | ipc/sem.c:810-832 | the undo structure of the process itself |
| SemSet.Sems.Submit | ipc/sem.c:834-851 | the rest of a semop, charged to that structure |
| SemSet.Sems.Retry | ipc/sem.c:877-896 | a sleeper that was told leaves the queue and makes a pass, or goes on sleeping without one exactly when it still has to wait |
| SemSet.Sems.Interrupt | ipc/sem.c:877-896 | a sleeper that is interrupted leaves the queue, with a pass if it would alter anything; one that was told tries first |
| SemSet.Sems.LeaveQueue | ipc/sem.c:924-939 | a sleeper that exits leaves the queue |
| SemSet.Sems.AllocUndo | ipc/sem.c:735-763 | a structure of zeros changes no sum |
| SemSet.Sems.SetVal | ipc/sem.c:604-620 | value set, adjustments cleared and a pass made, in range only |
| SemSet.Sems.SetAll | ipc/sem.c:531-569 | all values set, all adjustments cleared and a pass made, in range only |
| SemSet.Sems.Exit | ipc/sem.c:941-980 | the adjustments are added and a pass made; the difference to the account is what was clamped at zero |
| MsgText.LoadMsg | ipc/msg.c:158-208 | head and segments hold the text |
| MsgText.StoreMsg | ipc/msg.c:210-237 | the first bytes of the text come out again |
| MsgQueue.ConvertIsExact | ipc/msg.c:633-650 | a receive accepts the messages its type asks for, and fails to exactly for LONG_MIN |
| MsgQueue.LongMinExample | ipc/msg.c:643-646 | a message that LONG_MIN asks for and does not get |
| MsgQueue.FindMsg | ipc/msg.c:674-689 | the first match; for a bound the earliest message of the least type; none only if nothing matches |
| MsgQueue.ExactlyOnce | ipc/msg.c:281-300 | each accepted message is in exactly one of queued, handed over, received, destroyed |
| MsgQueue.Queue.constructor | ipc/msg.c:117-144 | an empty queue |
| MsgQueue.Queue.PipelinedSend | ipc/msg.c:525-549 | the message goes to the first receiver on the list that matches and has room, if there is one; exactly the matching ones before it are sent away with E2BIG, and nobody behind it is touched |
| MsgQueue.Queue.Send | ipc/msg.c:551-631 | accepted exactly when it fits, and else refused or asleep as asked; then handed over if a receiver takes it and queued otherwise; no receiver on the list matches a queued message; bytes and number are right |
| MsgQueue.Queue.Receive | ipc/msg.c:652-733 | gets the message selected, or reports that it is too big; sleeps or fails, as asked, exactly if nothing matches |
| MsgQueue.Queue.Wake | ipc/msg.c:735-763 | a receiver picks up what it was given |
| MsgQueue.Queue.Free | ipc/msg.c:281-300 | queued messages are destroyed, receivers on the list get EIDRM |
| Pipe.RingTake | fs/pipe.c:97-115 | a chunk from the front of the ring |
| Pipe.RingAdd | fs/pipe.c:196-216 | a chunk at its end |
| Pipe.TakeFrom | fs/pipe.c:95-119 | the loop takes the oldest bytes |
| Pipe.MoreWritten | fs/pipe.c:165-216 | stretches of the stream stay where they are |
| Pipe.Buffer.constructor | fs/pipe.c:562-599 | an empty pipe |
| Pipe.Buffer.Read | fs/pipe.c:68-137 | what was read followed by the ring is what was written; the BUG is unreachable |
| Pipe.Buffer.Put | fs/pipe.c:194-216 | the loop appends as much as fits |
| Pipe.Buffer.Write | fs/pipe.c:160-245 | nothing is written exactly when there is no room (for all of a small write) or no reader, and else as much as fits; when it would block, sleeps and in which phase; a write of at most PIPE_BUF bytes is one stretch of the stream, apart from the others |
| Pipe.Buffer.WriteAll | fs/pipe.c:160-245 | whatever sequences of reads and writes others make each time it sleeps, a write of at most PIPE_BUF bytes goes in as one stretch when it finishes and not at all before |
| PrintkLog.TestIsExact | kernel/printk.c:193-195 | the comparison in 32 bits is right exactly when no multiple of 2^32 lies between the two positions |
| PrintkLog.ReadIsExact | kernel/printk.c:192-200 | a read stops at the first character that is gone exactly when the comparison is right for all up to it |
| PrintkLog.NoWriter | kernel/printk.c:192-200 | with nobody writing a read gives all, or nothing at all in the last 16383 positions before a multiple of 2^32 |
| PrintkLog.TruncatedExample | kernel/printk.c:194 | a read of 100 characters that returns none |
| PrintkLog.WrapExample | kernel/printk.c:194 | a position 20000 before a multiple of 2^32, overwritten since, that the comparison takes for present |
| PrintkLog.Log.constructor | kernel/printk.c:37-51 | an empty log |
| PrintkLog.Log.Put | kernel/printk.c:286-293 | the ring holds the latest characters, and the counters are right |
| PrintkLog.Log.Printk | kernel/printk.c:254-315 | the text goes into the log, and the counters are right |
| PrintkLog.Log.CopyBack | kernel/printk.c:186-200 | the loop that goes back from the end of the log, with the lock given up for each character |
| PrintkLog.Log.ReadLast | kernel/printk.c:164-212 | for whatever is logged while the lock is given up: how many characters are read, and that each is the latest in its place when it was asked for; they are the run of the log that ended where the read began as far as none of them is gone; what counts as logged afterwards |
| PrintkLog.Log.ReadOne | kernel/printk.c:151-155 | the oldest character that has not been read |
| PrintkLog.Shift | kernel/printk.c:203-210 | the characters read move to the front of the buffer |
| Bootmem.ScanFrom | mm/bootmem.c:137-150 | finds the first run that the pass sees, exactly if there is one; after a first pass that ended in free pages it is blind up to the first reserved page |
| Bootmem.FindIsExact | mm/bootmem.c:113-162 | when a run that exists is not found |
| Bootmem.MissedExample | mm/bootmem.c:151-154 | two free pages that are not found |
| Bootmem.HandOut | mm/bootmem.c:163-199 | a range in the tail and in pages just taken is apart from all others |
| Bootmem.NewTail | mm/bootmem.c:184-190 | the tail of the last page belongs to nobody |
| Bootmem.Boot.constructor | mm/bootmem.c:34-48 | everything is reserved |
| Bootmem.Boot.Alloc | mm/bootmem.c:113-201 | succeeds exactly when one of the passes sees a run, and takes the first one, from the goal on if there is one; aligned, disjoint from all that was handed out; reserves the pages touched and no others, and keeps the tail |
| Bootmem.Boot.Merge | mm/bootmem.c:168-187 | an allocation merged into the tail of the last one, at the first aligned byte |
| Bootmem.Boot.ReserveBootmem | mm/bootmem.c:55-71 | succeeds exactly when all pages touched are there and free, and reserves them and no others |
| Bootmem.Boot.FreeBootmem | mm/bootmem.c:73-94 | succeeds exactly when the whole pages in the range are there and reserved, and frees them and no others |
| PageWrite.LengthIs | fs/buffer.c:1409-1478 | the length computed for a block is that of the write's bytes in it, and it counts as partly written exactly when it is not covered |
| PageWrite.DoBlock | fs/buffer.c:1451-1507 | the user's bytes in the range, elsewhere what the block held in the page, on disk, or zero when new; the exact error, with the page left alone |
| PageWrite.WritePartialPage | fs/buffer.c:1382-1537 | the same for the whole page; fails exactly when a touched block does, with the error of the first; touched buffers up to date and dirty; the page is newly up to date exactly if all buffers are |
| PidAlloc.Pass | kernel/fork.c:206-223 | whether an id is in use, and a bound below which none is |
| PidAlloc.TryOne | kernel/fork.c:204-223 | one try: the counter goes on exactly when the id is in use |
| PidAlloc.ScanTries | kernel/fork.c:202-224 | the first n tries fail exactly when the first n ids of the counter are in use |
| PidAlloc.Scan | kernel/fork.c:202-224 | ends if the counter comes to a free id, with the first one that nobody uses |
| PidAlloc.NoneToFind | kernel/fork.c:202-224 | every try fails exactly when no id that the counter comes to is free |
| PidAlloc.AllTakenExample | kernel/fork.c:202-224 | a list of tasks with which every try fails |
| PidAlloc.FewTasks | kernel/fork.c:202-224 | with fewer than 10823 tasks the counter comes to a free id |
| PidAlloc.Pids.constructor | kernel/fork.c:190 | at boot nothing but zero is in use |
| PidAlloc.Pids.GetPid | kernel/fork.c:188-229 | the first id of the counter that no task, group or session uses, with or without a scan |
| PidAlloc.Pids.Fork | kernel/fork.c:637-727 | no id in use lies between last_pid and next_safe when the new task is linked |
| PidAlloc.Pids.SetIds | kernel/fork.c:207-222 | nor when groups and sessions change to ids in use |
| PidAlloc.Pids.Exit | kernel/exit.c:25-49 | nor when tasks go |

## Left out

- Linked lists are sequences of their elements: pointer updates, and the trick that any
  list entry can be a head, are not modelled.  A dentry, an inode or a message is an id, and
  its fields are maps from ids; allocation gives an id that is not in use.
- Names of dentries are compared byte by byte; d_op->d_compare, d_hash and d_delete of a file
  system, mount points (d_mounts, d_covers) and inode aliases are not part of this model.
- Dcache.Cache.RenameDir: the call into the file system is an answer, so nothing else happens
  to the cache during it; the parents' semaphores are held then.
- Dcache.Cache.DAlloc: expects a directory as parent, which is what lookups pass.
- InodeCache.Icache.InsertInodeHash: expects an inode that has not been dirtied, as the
  comment above __mark_inode_dirty demands of its callers.
- InodeCache.Icache.Iput: what delete_inode and clear_inode of a file system do in between is
  not modelled; page cache pages are an input of PruneIcache.
- sync_list and sync_all_inodes are sequences of SyncOne and Unlock, with anything in between.
- InflateWindow.Window.Move: bytes are copied one by one in ascending order; a memcpy in another
  order is not modelled.
- InflateCodes.DecodeSymbol: where the code goes through a null table, or takes a value from an
  entry of `v` that huft_build never set, the model stops with `Fault`.  Both need a code that
  is not complete and bits that no code starts with.
- Inflate.Decompress: memory is a number of tables for each call of huft_build; running out of
  input ends the model with `NoInput`, where the kernel calls fill_inbuf and error().
- The gzip header and the CRC.
- PageWrite.WritePartialPage: expects at least one byte, as generic_file_write passes.
- FLOCK locks appear on the lists but are never requested; leases, mandatory locking, lockd
  entry points that block without the deadlock search, and locks_remove_posix (a loop of
  unlocks) are left out.
- TimerWheel.Wheel.RunTimerList: other processors act at the points where the lock is dropped,
  as a script; del_timer_sync and the old timers of timer_table are left out.
- The sempid history, semaphore permissions, and removal of sets (IPC_RMID).
- Values of semaphores are unbounded integers; sem_exit has no upper bound on them either.
- Message permissions, IPC_SET of q_qbytes, the sleeping of senders beyond the answer that
  they sleep, and the atomic totals over all queues.
- Bootmem.Boot.Alloc: sizes within a page of 2^32 are not part of the model.
- PidAlloc.Pids.GetPid: expects a free id that the counter comes to.
- Wakeups of message receivers by IPC_SET: a receiver may look again at any time anyway.
- copy_to_user and copy_from_user are total; EFAULT paths are left out.
- SMP memory ordering, interrupts and the locks themselves: lock regions are single steps.
- Offsets of file locks are 32 bits wide; 64-bit locks do not exist in this version.
