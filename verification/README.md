# MLDB's shared algorithms, modelled and proved in Dafny

MLDB rests on a few small algorithms whose correctness depends on whole runs, on
loops or on index structures rather than on any one line: the epoch lock that
decides when memory may be reclaimed, the work-stealing ring of its thread pool,
the chunked parsing cursor, the compressed set intersection behind its distance
computations, the merge join, bit-packed arrays, ordered reduction over parallel
maps, and the allocator of growing mapped files. This project models them as the
code has them and proves what they are for.

* `GcWord`, `GcProtocol`, `GcTheorems` -- the epoch lock (arch/gc_lock.cc) as a step
  relation over any number of threads, with one step for each load, compare-and-swap,
  spinlock operation and callback. History variables number the critical sections and
  the deferred work. `DueWork` says what deferred work waits for and when it is due,
  `GcCalls` and `GcWalk` what each call does while the others stand still. `GcWitnesses` holds runs that show where its promises stop,
  `Exclusives` is about exclusive sections and `DeferBarriers` about deferBarrier.
* `ThreadEntry`, `Nesting` -- the per-thread nesting counters as a class, and the
  counters on top of the lock's steps.
* `Rcu`, `RcuWitnesses`, `RcuGuards` -- RCU cells on top of the lock, runs that show where
  their promise stops, and the guards as a class.
* `WorkQueue` -- the deque, one step for each atomic access, one owner and any
  number of thieves.
* `ParseContexts` -- the cursor as a class over a list of buffers and tokens, proved
  to answer like a plain position in a string, whatever the chunk size.
* `Intersection`, `Buckets`, `IntersectionEntries`, `WholeEntries` -- all four overlap
  paths, compression and decompression, up to whole 64-bucket entries.
* `Joins` -- the merge join as a class that records rows and keeps its indexes,
  against the relational definition. `Sorting` says what std::sort promises.
* `BitRanges`, `BitArrays` -- ranges of bits that cross words, mixed-width streams
  from either end, and the table-driven fixed-width writer and its reader. Words
  are sequences of bits of any length.
* `OrderedReduce`, `Chunks` -- the in-order reduction over racing workers,
  claims of chunks, and the equal-work chunking.
* `FileSerializers` -- the allocator of a file that grows by arenas.
* `Arithmetic` -- a few facts about products, remainders and sizes of sets.

Assumed throughout: memory is sequentially consistent, an atomic access is one
step, and what is done under a mutex is one step.

Where the proofs found that the code does less than it promises, the code was
kept as it is; a lemma gives an input or a run, and others the exact extent:

* checkDefers evaluates visibleEpoch() load by load on shared memory. An entry that
  moves the epoch on after the third load and before the fifth can make it overshoot
  (`TornOvershoots`, exactly when), and then work is run while a section it must outlast
  is open (`TornReadBreaksGrace`; `EntrySuffices`, from any state of that kind). Without
  such an entry it is not, as far as shared sections go (`GracePeriod`,
  `GraceWithoutEntries`).
* An exclusive section, with whatever shared locks are taken inside it, is in neither
  reader count, so work that another thread hands over meanwhile is run at once and
  visibleBarrier does not wait (`ExclusiveIsOverlooked`, `RunsAtOnce`). Both promises hold
  for all critical sections exactly when nobody else holds the lock exclusively at that
  moment (`KeptExactly`, `BarrierExactly`), and an object loaded under an exclusive lock is
  freed under it as soon as somebody hands it over (`ExposedIsFreed`,
  `ExclusiveReaderSeesFreed`; `ReadersNeverSeeFreed` otherwise).
* operator () of a cell loads its object before the guard's section is entered, and an
  object handed over in between is not kept for it (`LateGuardSeesFreed`;
  `LateAfterHandover`, `HandoverWaits`).
* cmp_xchg with a barrier, called where current.unlock() does not leave the section, throws
  after its exchange, and the new object is freed in the cell (`XchgBarrier`, exactly when;
  `ThrowFrees`, `ThrowFreesCell`); the old one is lost, as it is in replace.
* Move assignment between guards on the same lock leaves a shared lock that nobody gives
  back (`MoveFrom`, exactly when).
* The deferred map is ordered by signed 32-bit images. While two pending keys have an odd
  multiple of 2^31 between them the later one comes first, and a walk can end with the
  earlier one visible and nobody about to look at it (`StraddlingKeysAreLeft`). Otherwise
  it cannot (`VisibleIsCovered`, `StraysOutOfOrder`, `InOrderIfSameTurn`), and once nobody is
  inside nothing stays behind in any case (`NothingStranded`).
* doDefer's -1 for "no live epoch" is also a possible epoch (`PackRunNow`, exactly when;
  `SentinelRunsEarly`).
* deferBarrier does not wait for work that another thread has taken to run
  (`DeferBarrierOvertakes`); it does see to it that what was pending has at least been
  taken (`DeferBarrierFlushes`).
* A speculative lock parked inside an exclusive one outlives it, and the next
  speculative lock is outside any critical section (`SpeculationOutlivesExclusion`,
  `TruthfulAfter`).
* topLessThanBottom misjudges an empty ring whose top has just wrapped to 0
  (`TopLessThanBottomWrapped`, exactly when), and pop then returns an item that a thief
  has (`WrapHandsOutTwice`).
* Compressed run lengths are read as signed (`CursorStepsOver`, exactly when a run is
  stepped over; `LongRunStepsBack`).
* `Buffered_Mem_Buffer::operator ++` does not advance its data pointer
  (`BufferedMemBuffer.Increment`).
* A reduce that throws is called again by the next worker to deliver
  (`ReducedTwice`, `AgainOnlyAfterThrow`); of a chunk, with all the elements before the one
  that threw (`ElementsRepeat`, exactly how often; `ElementReducedTwice`).
* parallelMapInOrderReduceChunked ignores a nonzero first index
  (`ChunkedIsFromZero`).
* Expanding an arena adds a number of pages as if it were bytes, after which no new arena
  can be mapped and every later growth fails (`ExpandThenCreate`, exactly when;
  `GrowAgain`), an
  alignment that the arena's address lacks makes an assertion fail after the space is taken
  (`AllocateWritable`), and after a commit the last arena still gives out blocks, all beyond
  the end of the file (`AllocateAfterCommit`).

## Model

| member | source | states |
|---|---|---|
| GcWord.EnterKeepsVisible | arch/gc_lock.cc:557-591 | entering never changes the visible epoch, in either branch of the loop |
| GcWord.ExitRaisesVisible | arch/gc_lock.cc:594-621 | leaving keeps the epoch and can only raise visibility, at most to the epoch |
| GcWord.PackReads | arch/gc_lock.cc:318-372 | with fewer than 2^15 readers every test on the packed 64-bit word reads the unbounded one, exclusive bit and wrap included |
| GcWord.PackEnter | arch/gc_lock.cc:349-359 | enterCS's setIn and addIn on the packed word are entry on the unbounded one |
| GcWord.PackExit | arch/gc_lock.cc:594-618 | exitCS's addIn(-1) on a field that may hold the exclusive bit is exit on the unbounded word |
| GcWord.PackExclusive | arch/gc_lock.cc:323-345 | setting and resetting the exclusive bit leaves both counts alone |
| GcWord.PackUpdate | arch/gc_lock.cc:461-467 | updateAtomic's wrapped assertion and wake test decide as on unbounded epochs |
| GcWord.CompareEpochsNear | arch/gc_lock.cc:47-72 | on the 32-bit images of epochs at most 2^30 apart compareEpochs is the true order |
| GcWord.CompareEpochsExact | arch/gc_lock.cc:47-72 | up to half a turn apart, exactly when it is the true order |
| GcWord.PackRunNow | arch/gc_lock.cc:866-880 | doDefer's wrapped re-check is the intended one, or the oldest live epoch is the sentinel -1 |
| GcWord.PackCheck | arch/gc_lock.cc:529-541 | checkDefers' two comparisons, made on 32-bit images, decide as on unbounded epochs up to 2^30 apart |
| GcWord.SignedOrder | arch/gc_lock.cc:232 | two keys less than a turn apart are walked in epoch order exactly when no odd multiple of 2^31 lies between them |
| GcWord.TornIsNotStale | arch/gc_lock.cc:364-372 | visibleEpoch read load by load is never behind what was visible at the first load |
| GcWord.TornOvershoots | arch/gc_lock.cc:364-372 | read load by load it reaches the epoch of a reader who is inside all along exactly when an entry moves the epoch on between the third load and the fifth and the fourth finds the epoch before the reader's empty |
| GcProtocol.ReaderIsCounted | arch/gc_lock.cc:594-618 | in an invariant state the count that exitCS decrements is positive |
| GcProtocol.InvStep | arch/gc_lock.cc:461-912 | every step keeps: readers in the current epoch or the one before, counts equal to holders, one exclusive owner, each piece of work in one place, what checkDefers' loads can have seen, and what the theorems below need |
| GcProtocol.InvRun | arch/gc_lock.cc:461-912 | all of that in every state of every run from a fresh lock, from any starting epoch |
| GcTheorems.GracePeriod | arch/gc_lock.cc:833-912 | in any run in which no entry has moved the epoch on between the third load and the fifth of a test of the inner loop, deferred work that has been run -- inline, after the locked re-check, or from a list -- ran after every shared section open at doDefer's first snapshot had closed |
| GcTheorems.NoEntryNoTear | arch/gc_lock.cc:525-553 | no run is torn in which nobody enters between the first load and the last of a test |
| GcTheorems.GraceWithoutEntries | arch/gc_lock.cc:833-912 | in those runs the promise holds for shared sections without proviso |
| Exclusives.RunsAtOnce | arch/gc_lock.cc:833-862 | in any state of any run with an exclusive holder, work that another thread hands over is run in its next step, with the section open |
| Exclusives.KeptExactly | arch/gc_lock.cc:833-912 | doDefer's invariant about every critical section of another thread, shared or exclusive, holds whatever happens afterwards without a torn test if and only if no other thread holds the lock exclusively |
| Exclusives.ExclusiveIsOverlooked | arch/gc_lock.cc:625-862 | a whole run, from any epoch, after which work has been run and the exclusive section that was open when it was handed over still is |
| GcTheorems.NothingStranded | arch/gc_lock.cc:461-553 | nothing runs twice; if no exit was told to skip, then at quiescence the deferred map is empty and everything handed over has run, in whatever order the map was walked |
| GcTheorems.QuietIsEmpty | arch/gc_lock.cc:525-553 | when all threads are out, no key can still be waiting |
| GcTheorems.VisibleIsCovered | arch/gc_lock.cc:461-553 | at every moment a pending key that visibility has reached is about to be looked at, if no walk has ended with the map out of epoch order, which only such a walk does |
| DueWork.DeferKey | arch/gc_lock.cc:845-862 | in every run an idle thread that calls doDefer while nobody reads is to run the work itself, and while somebody does the work is to wait for the greatest epoch that a reader is then in |
| DueWork.DueWhenReadersLeave | arch/gc_lock.cc:833-912 | whatever happens afterwards, work still in the map is under that greatest epoch; its key is visible exactly when no reader of that epoch or an earlier one is left, whoever has entered since; and somebody is then about to look, unless an exit was told to skip or a walk has strayed |
| GcCalls.EnterAlone | arch/gc_lock.cc:557-591 | enterCS while the others stand still: a section of its own, in the current epoch exactly if a reader is in the one before, and otherwise in the next |
| GcCalls.ExitAlone | arch/gc_lock.cc:594-621 | exitCS likewise: outside, with runDefers to follow exactly if it was asked for and no other reader is in the same epoch or an earlier one |
| GcCalls.ExclusiveAlone | arch/gc_lock.cc:625-711 | lockExclusive with nobody inside gets in, and unlockExclusive puts the word back |
| GcCalls.DeferAlone | arch/gc_lock.cc:833-912 | doDefer likewise, while somebody reads: the work becomes the last of the list of the greatest epoch that a reader is in, and nothing else changes |
| GcWalk.OneOutcome | arch/gc_lock.cc:525-548 | each test of checkDefers' loops has one outcome: the inner one pops a first key or is left, the outer one goes in or ends |
| GcWalk.RunDefersAlone | arch/gc_lock.cc:509-553 | runDefers likewise, with the map in epoch order: every item under a visible key is run, once each and no other, and every other key keeps its list |
| GcTheorems.InOrderIfSameTurn | arch/gc_lock.cc:229-242 | the map is in epoch order exactly when no odd multiple of 2^31 lies between two of its keys |
| GcTheorems.VisibleIsExact | arch/gc_lock.cc:364-372 | in every reachable state the visible epoch is exactly the greatest epoch with no reader at or below it |
| GcTheorems.VisibleNeverFalls | arch/gc_lock.cc:461-467 | no step lowers visibility or the epoch, and only an exit raises visibility |
| GcTheorems.Exclusion | arch/gc_lock.cc:625-711 | an exclusive holder is alone in every reachable state, and the epoch assertions cannot fire |
| GcTheorems.FrozenWhileExclusive | arch/gc_lock.cc:557-573 | while the exclusive bit is set no step changes the epoch or opens a shared section |
| GcTheorems.BarrierWaits | arch/gc_lock.cc:718-759 | whatever the others do, when visibleBarrier's loop may be left every shared section open at its start has closed |
| GcCalls.BarrierExact | arch/gc_lock.cc:718-759 | in any state of any run its loops may be left exactly when no reader is in the epoch it began in or an earlier one |
| GcCalls.BarrierLeaves | arch/gc_lock.cc:672-759 | and a look that finds it so leaves the loop, into the exclusive section if it is lockExclusive's |
| Exclusives.BarrierExactly | arch/gc_lock.cc:718-759 | every section has, shared or exclusive, whatever the others do, if and only if none was exclusive |
| GcWitnesses.EntrySuffices | arch/gc_lock.cc:525-548 | from any state with a reader in the current epoch, nobody in the one before, that epoch the first key and a walk at the start of an inner test, one entry is enough for the key to be popped with the reader inside |
| GcWitnesses.TornReadBreaksGrace | arch/gc_lock.cc:525-553 | from any even starting epoch that keeps its two keys in order, a whole run of four threads after which an item has been run and a section it must outlast is open |
| GcWitnesses.StraddlingKeysAreLeft | arch/gc_lock.cc:525-553 | a whole run after which a visible key is pending with nobody about to look at it: keys 2^31 - 1 and 2^31 |
| GcWitnesses.SentinelRunsEarly | arch/gc_lock.cc:866-880 | a whole run to the re-check, which on the packed word says that nobody is inside while one reader is; and, the branch taken by hand since the protocol's own test is the unbounded one, the work then runs with the reader inside |
| DeferBarriers.DeferBarrierFlushes | arch/gc_lock.cc:763-803 | whatever the others do, when the last walk of deferBarrier ends in epoch order every item that was pending at its beginning has been run or is in the hands of a thread that runs a batch |
| DeferBarriers.DeferBarrierOvertakes | arch/gc_lock.cc:763-803 | with nobody inside and a batch being run elsewhere, a whole deferBarrier goes through and the batch is as it was |
| Rcu.ReadersNeverSeeFreed | arch/rcu_protected.h:179-226 | in every run nothing a thread has loaded in or for its present section, shared or exclusive, has been cleaned up, unless a guard was taken on an object handed over before its section was entered, a test of checkDefers was torn, a cmp_xchg threw after its exchange, or the section is exclusive and something such a holder had loaded was handed over |
| Rcu.NoRecycledAddress | arch/rcu_protected.h:202-226 | with the same proviso, a cmp_xchg in a section that finds the loaded address in the cell has found the loaded object |
| Rcu.SwappedOutIsNotIn | arch/rcu_protected.h:179-190 | after the exchange the object taken out is not the one in the cell, as the assertion says, as long as no cmp_xchg has thrown |
| Rcu.RcuRun | arch/rcu_protected.h:179-226 | the lock's invariant, and the cell's until a cmp_xchg throws, over all interleavings of loads in any section or before it, swaps, deferred and barrier cleanups and barriers that throw |
| RcuWitnesses.SeenLasts | arch/rcu_protected.h:156-226 | no step makes a thread inside a section forget what it has loaded, and only its own loads, guards and deferring exchanges add to it |
| RcuWitnesses.MayExchange | arch/rcu_protected.h:179-226 | an address whose objects have all been cleaned up may be given again, and a cmp_xchg of a loaded object succeeds whenever its address is the cell's |
| RcuWitnesses.LateAfterHandover | arch/rcu_protected.h:156-160 | a guard is late only if what its thread had loaded was handed over before, and does not wait for its section |
| RcuWitnesses.HandoverWaits | arch/rcu_protected.h:179-195 | what is handed over once the section is entered does wait for it |
| RcuWitnesses.LateGuardSeesFreed | arch/rcu_protected.h:156-195 | a whole run from any epoch after which a guard refers to a freed object |
| RcuWitnesses.ExposedIsFreed | arch/rcu_protected.h:179-226 | in any state of any run, an object that an exclusive holder has loaded is cleaned up under the lock in the step after it is handed over |
| RcuWitnesses.ExclusiveReaderSeesFreed | arch/rcu_protected.h:156-195 | a whole run from any epoch in which it is |
| RcuWitnesses.XchgBarrier | arch/rcu_protected.h:202-226 | after the exchange and current.unlock(), the barrier throws if and only if the caller is still in a section |
| RcuWitnesses.BarrierEnds | arch/rcu_protected.h:192-226 | when it ends instead, just the object taken out is cleaned up, and the caller may exchange again |
| RcuWitnesses.ThrowFrees | arch/rcu_protected.h:202-226 | when it throws, the object put in is freed, wherever it is, and the one taken out is lost |
| RcuWitnesses.LostStays | arch/rcu_protected.h:179-195 | what a barrier that threw has lost stays uncleaned in every further step, but for one that throws with it as its own new value |
| RcuWitnesses.ThrowFreesCell | arch/rcu_protected.h:202-226 | a whole run from any epoch after which the cell holds a freed object and a reader inside a section has loaded it |
| RcuGuards.RcuLocked.constructor | arch/rcu_protected.h:21-26 | a new guard owns one shared lock more, and every other guard what it did |
| RcuGuards.RcuLocked.Transfer | arch/rcu_protected.h:29-51 | a guard made by a move owns what the other did |
| RcuGuards.RcuLocked.Copy | arch/rcu_protected.h:38-44 | a copy owns a shared lock of its own |
| RcuGuards.RcuLocked.MoveFrom | arch/rcu_protected.h:53-63 | move assignment keeps each guard owning exactly one of the locks taken if and only if the two guards do not have the same lock; if they do, one is taken that no guard gives back |
| RcuGuards.RcuLocked.MoveFromOther | arch/rcu_protected.h:65-73 | assignment from a guard of another type always keeps it |
| RcuGuards.RcuLocked.Unlock | arch/rcu_protected.h:80-87 | gives back the one lock owned, and cannot throw |
| RcuGuards.RcuLocked.Destroy | arch/rcu_protected.h:75-78 | the guards that are left own exactly what is taken |
| ThreadEntry.ThreadGcInfoEntry.LockShared | arch/gc_lock_impl.h:39-47 | on truthful counters: never throws, holds one more shared lock and nothing else changes, and the thread is inside |
| ThreadEntry.ThreadGcInfoEntry.UnlockShared | arch/gc_lock_impl.h:49-59 | gives up one of the caller's own shared locks; throws and changes nothing when none is held; makes the counters lie exactly when the one it takes is the one that speculation keeps |
| ThreadEntry.ThreadGcInfoEntry.LockExclusive | arch/gc_lock_impl.h:68-76 | succeeds exactly when an exclusive lock or no lock of any kind is held, and then holds one more; otherwise throws and changes nothing |
| ThreadEntry.ThreadGcInfoEntry.UnlockExclusive | arch/gc_lock_impl.h:78-88 | gives up one; the counters then lie exactly when it was the last and a lock of another kind, held or parked, is left, though the thread is outside |
| ThreadEntry.ThreadGcInfoEntry.LockSpeculative | arch/gc_lock_impl.h:90-98 | never throws on truthful counters, holds one more speculative lock, and the thread is inside |
| ThreadEntry.ThreadGcInfoEntry.UnlockSpeculative | arch/gc_lock_impl.h:100-114 | throws exactly when none is held; gives up one, the last being parked and every fifth parking giving all up; the counters stay truthful |
| ThreadEntry.ThreadGcInfoEntry.ForceUnlock | arch/gc_lock_impl.h:116-126 | throws exactly while a speculative lock is held; otherwise nothing stays parked and the caller's other locks are kept |
| ThreadEntry.TruthfulAfter | arch/gc_lock_impl.h:39-126 | exactly which calls keep the counters equal to what is held |
| ThreadEntry.Throws | arch/gc_lock_impl.h:49-126 | exactly which calls throw, and that a throw changes nothing |
| ThreadEntry.InsideIffHeld | arch/gc_lock_impl.h:39-126 | over any sequence of calls without the two misuses, a thread is inside a section exactly while it holds a lock of any kind |
| ThreadEntry.SpeculationOutlivesExclusion | arch/gc_lock_impl.h:78-98 | a properly nested sequence after which a speculative lock is held outside any section |
| ThreadEntry.FifthReleaseLeaves | arch/gc_lock_impl.h:100-114 | a speculative release leaves the section exactly when it is the threshold's |
| Nesting.CountsAreHolders | arch/gc_lock_impl.h:39-126 | counters and lock together, over any run of nested shared, speculative and exclusive calls without the two misuses: whenever nobody is on the way in or out, each parity's count in the shared word is the number of threads whose counters hold a shared lock of some kind in it, and the exclusive holder is the one whose counters say so |
| Nesting.UnlockPassesOn | arch/gc_lock_impl.h:49-59 | a call that undoes the last shared lock leaves the section, with the choice about deferred work it was given; one that undoes another leaves the lock as it is |
| Nesting.NestedRun | arch/gc_lock_impl.h:39-126 | the lock's invariant, and that each entry's inEpoch is what the thread holds or is about to, over all interleavings |
| WorkQueue.PlayConserves | base/thread_pool_impl.h:37-138 | a log that plays as a deque gives out, with what is left, exactly what was pushed |
| WorkQueue.RingIsDeque | base/thread_pool_impl.h:37-138 | in every interleaving the log of calls plays on a plain deque, what is untaken is the window from top to bottom in push order, and each caller has exactly its own log entries, so each push is given out at most once |
| WorkQueue.StealTakesFirst | base/thread_pool_impl.h:59-81 | in any state of any run, steal by a thief while the others stand still returns the first of the untaken items if there are two, or one that the owner is not trying for, and null otherwise |
| WorkQueue.StealGivesUp | base/thread_pool_impl.h:59-81 | whatever the others do, steal returns null only if it has seen nothing it may take, or another call has taken an item since it began |
| WorkQueue.PopTakesLast | base/thread_pool_impl.h:83-127 | pop while the thieves stand still returns the last of two or more untaken items |
| WorkQueue.PopTakesOnly | base/thread_pool_impl.h:83-127 | and of one, that one |
| WorkQueue.PushAddsLast | base/thread_pool_impl.h:37-57 | push puts the item behind all others whenever the ring has room |
| WorkQueue.PushOverwritesNothing | base/thread_pool_impl.h:37-57 | push stores only into a slot with no untaken item |
| WorkQueue.PushRefusedExactly | base/thread_pool_impl.h:37-42 | between calls push refuses exactly when untaken items and takes in progress fill the ring |
| WorkQueue.TakenIsNotNull | base/thread_pool_impl.h:59-127 | in every state of every run no pointer that pop or steal is about to assert on is null, and none has been returned as an item |
| WorkQueue.TopLessThanBottomWrapped | base/thread_pool_impl.h:131-138 | the test on wrapping counters is the true order in every queue state but one |
| WorkQueue.WrapHandsOutTwice | base/thread_pool_impl.h:59-138 | a whole run from a fresh queue to that state, with a thief holding the last item; and, the branch taken by hand since the model's own test is the unbounded one, pop then returns it too |
| WorkQueue.InvRun | base/thread_pool_impl.h:37-138 | the inductive invariant, with the owner's taking without a CAS, over all runs |
| ParseContexts.ParseContext.Run | base/parse_context.h:111-721 | any program of advances, matches, captures and tokens, tokens applied out of turn included, answers as on a flat cursor; the line is the first one plus the newlines before the position, and the column counts from the last of those, or from where the input starts if there is none; no linked token's buffer is freed |
| ParseContexts.RunInChunks | base/parse_context.cc:623-670 | the answers do not depend on the chunk size |
| ParseContexts.RunInMemory | base/parse_context.cc:41-62 | and are those for a memory region |
| ParseContexts.ParseContext.ReadNewBuffer | base/parse_context.cc:623-670 | appends the next non-empty piece of the input, or nothing at its end |
| ParseContexts.ParseContext.NextBuffer | base/parse_context.cc:490-529 | from the end of a buffer to a valid cursor in the next, or at the end of the input |
| ParseContexts.ParseContext.GotoOfs | base/parse_context.cc:533-576 | reaches any buffered position, with the line and column given; found exactly when the cursor is there or the position is buffered; the cursor is then valid but for the end of what has been read of a longer stream, where it looks like the end of the input |
| ParseContexts.ParseContext.TextBetween | base/parse_context.cc:580-600 | the input between two buffered positions, across buffers |
| ParseContexts.ParseContext.FreeBuffers | base/parse_context.cc:604-619 | frees a prefix, as far as the current buffer and the earliest token allow, and no less |
| ParseContexts.ParseContext.Do | base/parse_context.h:111-721 | each single operation answers, and leaves position and tokens, as the flat cursor does |
| ParseContexts.ParseContext.Advance | base/parse_context.h:111-123 | one character on, or the error at the end; line and column as in Run |
| ParseContexts.LineColIsPlace | base/parse_context.h:111-123 | counting lines and columns character by character gives the number of newlines and the distance from the last |
| ParseContexts.ParseContext.Eof | base/parse_context.h:481 | true exactly at the end of the input |
| ParseContexts.ParseContext.Peek | base/parse_context.h:152-156 | the character at the position, or the error at the end |
| ParseContexts.ParseContext.MatchLiteral | base/parse_context.h:161-166 | moves by one exactly when the next character is the one asked for |
| ParseContexts.ParseContext.MatchText | base/parse_context.h:209-275 | the text up to the first character of which the predicate holds, or the end |
| ParseContexts.ParseContext.MatchString | base/parse_context.cc:469-486 | matches exactly when the input goes on with the string, and moves nothing if not |
| ParseContexts.ParseContext.NewToken | base/parse_context.h:557-578 | the token remembers offset, line and column and is the latest |
| ParseContexts.ParseContext.ApplyToken | base/parse_context.h:588-623 | the latest token's position comes back; another token is disabled and stays linked, with an error unless in a destructor; a disabled one does nothing |
| ParseContexts.ParseContext.RemoveToken | base/parse_context.h:625-657 | the token goes and nothing else moves |
| ParseContexts.ParseContext.CapturedText | base/parse_context.h:715-721 | the input since a live token was made, or the error for one that is not |
| Intersection.CountByEights | builtin/intersection_utils.cc:278-394 | the 8-wide block algorithm returns the size of the intersection for all increasing arrays of any lengths, and loads stay in memory given the padding |
| Intersection.BlockStep | builtin/intersection_utils.cc:301-376 | what two blocks share plus what is left after dropping the one that ends lower is what was left |
| Intersection.MatchesAreCommon | builtin/intersection_utils.cc:332-375 | the population count of the compare mask is the size of the blocks' intersection |
| Intersection.CountIntersection | builtin/intersection_utils.cc:407-441 | co-iteration with signed comparisons returns the size of the intersection of rows below 2^31 |
| Intersection.AsIntOrder | builtin/intersection_utils.cc:411-437 | the signed comparison of two rows is their order exactly when both are below 2^31 or neither is |
| Intersection.CountBasic | builtin/intersection_utils.cc:396-405 | and so does the size of std::set_intersection, for any rows |
| Buckets.Lookups | builtin/intersection_utils.cc:493-515 | the binary-search path: size of the intersection or dot product, or the missing-count exception exactly when there is a match and no counts |
| Buckets.LowerBound | builtin/intersection_utils.cc:496 | the first row not below the one looked for |
| Buckets.OverlapSwaps | builtin/intersection_utils.cc:472-473 | swapping the buckets does not change the overlap, so the recursion for the smaller one is right |
| Buckets.DotProduct | builtin/intersection_utils.cc:741-757 | the co-iterating path gives the sum of count products, or the exception |
| Buckets.CompressedOverlap | builtin/intersection_utils.cc:519-588 | the high/low path over compressed rows returns the size of the intersection, by either inner algorithm |
| Buckets.RunsStep | builtin/intersection_utils.cc:565-583 | one step over runs: what the runs share and what is left |
| Buckets.CursorStarts | builtin/intersection_utils.cc:104-144 | compressed rows with their padding are read back run by run |
| Buckets.CursorStepsOver | builtin/intersection_utils.cc:525-583 | in any compressed rows the loop's next position is the next run exactly when the run is below 32768 rows; otherwise it is one place on at most |
| Buckets.LongRunStepsBack | builtin/intersection_utils.cc:525-583 | the compressor takes rows 0 to 32767, and the loop goes from them to before the start of the array |
| IntersectionEntries.Bucket.Sort | builtin/intersection_utils.cc:76-102 | rows in order, the same rows with the same counts, those of equal rows ascending; an error exactly when some count is missing |
| IntersectionEntries.MapsApart | builtin/intersection_utils.cc:489-491 | with disjoint bitmaps there is no row in common |
| IntersectionEntries.Bucket.Compress | builtin/intersection_utils.cc:104-144 | the compressed form with padding; the assertion fails exactly when a run exceeds 65535 rows |
| IntersectionEntries.Bucket.ForEach | builtin/intersection_utils.h:111-134 | yields exactly the rows, in order, despite the padding |
| IntersectionEntries.Bucket.CalcOverlap | builtin/intersection_utils.cc:467-760 | bitmap rejection and all other paths give the same overlap |
| IntersectionEntries.HasStrict | builtin/intersection_utils.cc:76-102 | sorting distinct rows makes them strictly increasing |
| IntersectionEntries.HasRows | builtin/intersection_utils.cc:146-163 | a bucket holds exactly the added rows that hash to it |
| IntersectionEntries.HashBits | builtin/intersection_utils.cc:36-53 | the lowest 16 bits of a hash are not used, the next six are the bucket and the six after them the bit |
| WholeEntries.IntersectionEntry.CalcOverlap | builtin/intersection_utils.cc:183-228 | the sum over 64 buckets, with rejected buckets skipped, is the overlap of the rows added |
| WholeEntries.IntersectionEntry.Add | builtin/intersection_utils.cc:146-164 | the row, with its count or without, is in the bucket of its hash and nowhere else, for any mixture |
| WholeEntries.IntersectionEntry.Sort | builtin/intersection_utils.cc:166-172 | every bucket in order, holding what it held; an error exactly when in some bucket rows with counts meet rows without |
| WholeEntries.IntersectionEntry.Compress | builtin/intersection_utils.cc:174-180 | every bucket compressed, or an error exactly when some run does not fit |
| WholeEntries.IntersectionEntry.NoBuckets | builtin/intersection_utils.cc:194-198 | entries with disjoint bitmaps have no row in common |
| WholeEntries.Measure | builtin/intersection_utils.cc:146-228 | rows added in any order with or without counts, sorted, compressed or not: an error exactly when sort has one, and otherwise in every mode the intersection size, the dot product, or the missing-count exception exactly when a common row has no count |
| WholeEntries.BucketOverlap | builtin/intersection_utils.cc:196-203 | a bucket's overlap in terms of the rows added to the two entries |
| WholeEntries.MeaningIsHamming | builtin/intersection_utils.cc:186-224 | in Hamming space the meaning is the size of the intersection |
| WholeEntries.MeaningIsDotProduct | builtin/intersection_utils.cc:493-515 | in Pythagorean space it is the sum over the common rows of the two counts multiplied, if each product is below 2^32; in any case each summand is below 2^32 and off by a multiple of 2^32 |
| WholeEntries.ItemCountIs | builtin/intersection_utils.cc:155-164 | where a row's count is the one it was added with |
| WholeEntries.BucketFits | builtin/intersection_utils.cc:104-144 | with at most 32767 rows of a bucket sharing a high half, every run fits |
| Joins.JoinedDataset.Join | builtin/joined_dataset.cc:226-629 | for every qualification, constant condition, side conditions, duplicate and null keys the recorded pairs are, as a multiset, the relational join; a cross join is refused exactly when too big |
| Joins.JoinedDataset.Merge | builtin/joined_dataset.cc:534-629 | the merge loop on sorted sides records the relational join of the two |
| Joins.JoinedDataset.MergeGroup | builtin/joined_dataset.cc:564-612 | equal keys give their cross product, null keys the unmatched rows of outer sides |
| Joins.JoinedDataset.RecordGroup | builtin/joined_dataset.cc:579-595 | every pair of two matching groups is recorded once |
| Joins.JoinedDataset.RunSide | builtin/joined_dataset.cc:397-492 | rows to join come back in key order; rejected rows of an outer side are recorded once each |
| Joins.JoinedDataset.Split | builtin/joined_dataset.cc:461-482 | which rows go on to be joined and which an outer side keeps aside |
| Joins.JoinedDataset.RecordJoinRow | builtin/joined_dataset.cc:328-383 | the row, its name, the row index and both side indexes stay true to everything recorded |
| Joins.RelationalSplits | builtin/joined_dataset.cc:405-432 | the join of whole sides is their rejected rows, where outer, and the join of the others in any order |
| Joins.RelationalCounts | builtin/joined_dataset.cc:386-629 | the relational join counted pair by pair: each match as often as rows match; a left row alone, in a left or a full join only, once for each row that matches nothing; a right row alone likewise in a right or a full join only; and no other pair |
| Joins.RelationalMirrors | builtin/joined_dataset.cc:386-629 | the right join is the left join of the sides exchanged, and inner and full joins are their own mirrors |
| Joins.KeysAscend | builtin/joined_dataset.cc:483-484 | the order of a sorted side: nulls first, then values from the least |
| Joins.JoinedNameLists | builtin/joined_dataset.cc:328-348 | a joined row's name lists those of its rows in brackets, with a blank for each table of a side that is missing |
| Joins.ListedTells | builtin/joined_dataset.cc:328-348 | of rows whose names have no brackets, different lists have different names |
| Joins.SumPermuted | builtin/joined_dataset.cc:483-484 | sorting a side does not change what it joins to |
| BitRanges.ShrdEmulated | arch/bit_range_ops.h:43-50 | bit i of the result is bit i+bits of the two words together |
| BitRanges.MaskLower | arch/bit_range_ops.h:163-171 | the low bits and nothing else, for any width |
| BitRanges.ExtractBitRange | arch/bit_range_ops.h:231-234 | the bits asked for, and zeros above |
| BitRanges.SetBits | arch/bit_range_ops.h:263-280 | the range takes the value's bits and all others stay |
| BitRanges.MaskableIs | arch/bit_range_ops.h:263-280 | of the four word sizes, only the full width of a 32-bit word is outside |
| BitRanges.SetBitRange | arch/bit_range_ops.h:282-307 | of the two words just the range takes the value's bits; the second is untouched if not reached |
| BitRanges.SetIsWritten | arch/bit_range_ops.h:725-766 | in memory only the written bits change, in the order of either end |
| BitRanges.BitWriter.Write | arch/bit_range_ops.h:725-766 | write and rwrite: the value's bits at the cursor, all others as before, cursor advanced |
| BitRanges.BitWriter.Skip | arch/bit_range_ops.h:768-772 | the position advances by exactly the bits skipped |
| BitRanges.BitBuffer.Extract | arch/bit_range_ops.h:454-529 | extract and rextract return the number kept in the bits at the cursor, reading only words that hold it |
| BitRanges.WrittenIsField | arch/bit_range_ops.h:725-766 | what was written is what is there |
| BitRanges.WrittenKeeps | arch/bit_range_ops.h:263-307 | any field beside the written bits keeps its value |
| BitRanges.FieldUnique | arch/bit_range_ops.h:454-529 | a field determines what is read |
| BitRanges.TakenIsField | arch/bit_range_ops.h:454-529 | what is extracted from the two words at the cursor is the field there, from either end |
| BitRanges.RoundTrip | arch/bit_range_ops.h:440-772 | any values with any widths, from either end and any start, are read back as their low bits, and no bit outside the range changes |
| BitRanges.BufferedMemBuffer.Skip | arch/bit_range_ops.h:411-416 | the buffered words are the memory's after any offset, so both cursors agree |
| BitRanges.BufferedMemBuffer.Increment | arch/bit_range_ops.h:418-422 | operator ++ agrees with the simple cursor only if the next word is repeated |
| BitArrays.Init | arch/bit_array.h:135-164 | the do-while loop ends within a word's worth of steps with a cycle of states for exactly the offsets |
| BitArrays.OffsetIs | arch/bit_array.h:157 | a state's offset is the remainder of its value's position |
| BitArrays.Follow | arch/bit_array.h:126 | following next keeps step with the values |
| BitArrays.Fits | arch/bit_array.h:177-181 | every access of writer and reader is inside numWordsToAllocate |
| BitArrays.NumWordsAreFewest | arch/bit_array.h:177-181 | which is the fewest words that hold the values, and one more |
| BitArrays.WriteSteps | arch/bit_array.h:110-127 | a write keeps the bits before the cursor, adds the value's and leaves the pending word clear |
| BitArrays.StepKeeps | arch/bit_array.h:110-127 | such a step keeps every value written before |
| BitArrays.StepAdds | arch/bit_array.h:110-127 | and adds the new one in its place |
| BitArrays.Writer.Write | arch/bit_array.h:110-127 | the same of the writer's memory; later words are untouched |
| BitArrays.Writer.Finish | arch/bit_array.h:129-132 | the array then is the memory the writer stood for |
| BitArrays.ReadIs | arch/bit_array.h:83-95 | shifting two words and masking gives the value that starts there |
| BitArrays.Reader.Read | arch/bit_array.h:83-95 | the value's low bits, and the cursor at the next value |
| BitArrays.RoundTrip | arch/bit_array.h:71-181 | values of any width from 1 to the word size come back as their low bits whatever the array held, and nothing beyond is touched |
| OrderedReduce.DrainKeeps | base/map_reduce.h:30-39 | drainWriteQueue takes just the keys from next to where it stops, in order |
| OrderedReduce.DrainThrows | base/map_reduce.h:30-39 | a reduce that throws leaves its index and all later ones in the queue, after one returned call for each before |
| OrderedReduce.RunInv | base/map_reduce.h:20-53 | in every interleaving each claimed index is in one worker, in the queue, reduced, or lost to an exception |
| OrderedReduce.AlwaysInOrder | base/map_reduce.h:20-53 | in every run, exceptions included, what has been reduced is an initial stretch of the range, in order, once each, with its own map result |
| OrderedReduce.Complete | base/map_reduce.h:41-52 | when all workers have returned and nothing threw, every index has been reduced in order and the queue is empty |
| OrderedReduce.AgainOnlyAfterThrow | base/map_reduce.h:30-39 | reduce is called again for an index only if it threw for it |
| OrderedReduce.ReturnsOnce | base/map_reduce.h:30-39 | in every run exactly one call for an index has returned if it has been passed, and none if not |
| OrderedReduce.CanFinish | base/parallel.cc:34-47 | from any state without exceptions the workers can all go on to return: none is ever stuck |
| OrderedReduce.CanComplete | base/map_reduce.h:20-53 | so a whole reduction can always be brought to its end, with every index reduced in order |
| OrderedReduce.StopsClaiming | base/parallel.cc:34-47 | after an exception, whatever happens, no more indices are claimed than there were workers between the test and the claim |
| OrderedReduce.ThrowStops | base/map_reduce.h:20-53 | and a map or a reduce that throws is such an exception |
| OrderedReduce.ReducedTwice | base/map_reduce.h:30-49 | a run in which it is |
| Chunks.ClaimsTile | base/parallel.cc:18-177 | in every run the work begun is consecutive chunks without gap or overlap, reaching the end if no worker threw or halted |
| Chunks.CanFinish | base/parallel.cc:18-177 | from any state, halted or not, the workers can all go on to return |
| Chunks.CanCover | base/parallel.cc:18-177 | and so from the start can go through the whole range |
| Chunks.StopsTaking | base/parallel.cc:18-177 | after an exception or a halt, whatever happens, no more chunks are begun than there were workers about to claim one |
| Chunks.ThrowStops | base/parallel.cc:18-177 | and work that throws, or that answers false where it may, has that effect |
| Chunks.TilesPartition | base/parallel.cc:150-156 | then every index is in exactly one chunk |
| Chunks.EqualWorkChunks | base/map_reduce.h:128-189 | contiguous non-empty chunks covering the range, single elements where over budget, at most twice the target less one; nothing for an empty range, an error exactly for no work |
| Chunks.NextChunk | base/map_reduce.h:164-182 | one chunk: at least one element, as many as the budget allows, and no fewer |
| Chunks.FewChunks | base/map_reduce.h:158-184 | why there are at most that many: neighbours exceed the budget |
| Chunks.PreChunked | base/map_reduce.h:94-122 | reducing chunk by chunk is reducing every element in order |
| Chunks.EqualWorkReduces | base/map_reduce.h:128-189 | with the chunks that the equal-work version cuts, every run that ends without an exception has reduced every element once, in order |
| Chunks.ElementsRepeat | base/map_reduce.h:30-122 | in every run, exceptions included, the calls of reduce that returned for an element are one if its chunk has succeeded and one for each call of its chunk that threw on a later element |
| Chunks.ElementReducedTwice | base/map_reduce.h:112-122 | a run in which an element whose reduce had returned is reduced again |
| Chunks.FixedTilesAll | base/map_reduce.h:63-75 | the fixed-size chunks tile the range from 0 |
| Chunks.FixedAreFull | base/map_reduce.h:63-75 | all of them are of the size asked for but the last, which is not empty and ends with the range |
| Chunks.ChunkedIsFromZero | base/map_reduce.h:55-88 | every run of the fixed-size version that ends without an exception has reduced the first last - first indices once, in order; they are those asked for if and only if first is 0 or there are none |
| FileSerializers.FileSerializer.AllocateWritable | block/file_serializer.cc:157-186 | a new block of the size asked for, beyond all earlier ones, at an aligned address; or the assertion on the address, exactly when the arena's own address is not aligned, with the space taken; no exception if the padded block fits the last arena, and otherwise, as long as an expansion is of whole pages, only if the system refused or the file cannot grow; the retry loop ends |
| FileSerializers.FileSerializer.AllocateInLast | block/file_serializer.cc:63-79 | null exactly when the padded block does not fit, and then nothing changes |
| FileSerializers.FileSerializer.CreateNewMappedArena | block/file_serializer.cc:188-225 | the arenas still tile the file, with room for what is needed; an exception leaves them alone, and is certain if the file does not end at a page |
| FileSerializers.NewLengthIsLeast | block/file_serializer.cc:188-201 | its length is the least number of whole pages that holds what is needed, is at least 1024, and is at least an eighth of what there is |
| FileSerializers.GrowthIs | block/file_serializer.cc:242-245 | an expansion by 10000 pages, or by as many bytes as pages are needed if that is more |
| FileSerializers.FileSerializer.ExpandLastMappedArena | block/file_serializer.cc:237-283 | only the last arena's length grows, or nothing changes |
| FileSerializers.FileSerializer.Commit | block/file_serializer.cc:131-155 | the file is cut at or after the end of every block |
| FileSerializers.BlocksApart | block/file_serializer.cc:157-186 | any two blocks given out are disjoint |
| FileSerializers.PaddedAligned | block/file_serializer.cc:68-70 | the padding aligns the offset |
| FileSerializers.ExpandThenCreate | block/file_serializer.cc:188-283 | an expansion that succeeds leaves a file of whole pages exactly when few enough pages were asked for, or their number happens to be a multiple of the page size; otherwise no new arena can be mapped behind it |
| FileSerializers.GrowAgain | block/file_serializer.cc:227-283 | once the file's length is not what is allocated, every growth fails and changes nothing |
| FileSerializers.AllocateAfterCommit | block/file_serializer.cc:131-138 | after a commit the last arena gives out a block whenever the padded block fits, and the block is wholly beyond the file's end |

## Left out

- Weak memory orders: memory is sequentially consistent in every model.
- Futex and eventfd waits, wake-ups and sleeping: a wait is a step that does nothing, and only safety is stated.
- The lock's epoch and reader counts are unbounded in the protocol; the Pack lemmas of GcWord tie each test and update of the packed 64-bit word to them for fewer than 2^15 threads and epochs compared at most 2^30 apart, with the -1 sentinel as the one exception; the map's signed order is in the protocol itself.
- GcTheorems.GracePeriod: is about shared sections, and needs that no entry tore a test; without either it is false (Exclusives.KeptExactly, GcWitnesses.TornReadBreaksGrace).
- GcTheorems.BarrierWaits: is about shared sections, and false of exclusive ones (Exclusives.BarrierExactly); and it says what holds whenever the loop may be left, not that it is ever left.
- Rcu.ReadersNeverSeeFreed: needs the proviso in its row, each part of which is shown to be needed (RcuWitnesses, GcWitnesses.TornReadBreaksGrace).
- Rcu.NoRecycledAddress: needs the same.
- Rcu.SwappedOutIsNotIn: needs that no cmp_xchg has thrown, after which the cell may hold a freed object.
- A caller that catches what cmp_xchg throws and releases newValue itself: the model's exception always unwinds to its destructor. replaceCustomCleanup, which leaves the cleanup to the caller.
- RcuGuards: guards of one thread; ownership is stated after each operation.
- GcTheorems.VisibleIsCovered: needs that no walk ended with the map out of epoch order, without which it is false (GcWitnesses.StraddlingKeysAreLeft).
- DeferBarriers.DeferBarrierFlushes: deferBarrier's own two callbacks may be any steps; they add nothing to what is promised.
- Deferred callbacks that take the lock or defer more work from inside runDefers, and the order of the arities within a deferred list.
- An RCU cell's move operations and its destructor.
- WorkQueue: counters are unbounded, the ring index is taken modulo 4096; TopLessThanBottomWrapped covers the wrapped test.
- ParseContexts: tokens are a list of values instead of a doubly linked list on the stack; a disabled token stays in the list, and what happens once its memory is reused is not modelled; numbers and quoted text are left out.
- ParseContexts.RunInChunks: needs a chunk size above zero, which set_chunk_size insists on and the constructor does not check.
- Position and filename of parse errors: errors are values.
- Totals are converted to double at the end of calcOverlap; the models keep integers. Products of counts wrap at 2^32, as in the code.
- The overlap estimate that stops early, and the answer for an entry that has all eligible rows (builtin/intersection_utils.cc, 188-192 and 211-215).
- WholeEntries.Measure: rows must be distinct and below 2^31, the hash a function of the row, and at most 32767 rows of a bucket may share a high half; both entries are compressed once or not at all.
- The compare instruction is modelled by its meaning in the mode used, and a bitmap by the set of its bits.
- The order of equal keys in a side, which the code settles by row name: the join's result is stated as a multiset.
- The branch for a constant cross condition that is not true (builtin/joined_dataset.cc, 234-236), which no query reaches: such a condition is built from clauses that name columns or functions, or is the constant true. Joins with a non-constant cross condition, the analysis of join conditions, column indexes, and key values beyond null and a total order.
- BitRanges: a full-width write of a 32-bit word, which the mask test of arch/bit_range_ops.h, 268 leaves undefined; sign extension; the unmasked and unsafe extractors; the fast extractors' reading of the word after the last.
- BitArrays.RoundTrip: width 0 is left out; its reader would read one word more than is allocated.
- The thread pool's scheduling: every worker that is added runs, at any speed.
- parallelMap's limit on the range and occupancy.
- FileSerializers: pages are of 4096 bytes; munmap, msync and the temporary serializer; memory addresses of different arenas are assumed not to overlap, so disjointness is stated for file offsets.
- std::sort, std::lower_bound and std::set_intersection are modelled by short versions with the standard's contracts.
