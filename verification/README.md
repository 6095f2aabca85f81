# A verified model of valgrind-memlog

This project models, in Dafny, the simulators, the accounting and the log tools of the
valgrind-memlog repository, and proves properties of the model over every input, every run and
every reachable state.

Five parts of the repository are modelled.

* **Cache and branch simulators** (`LruStack`, `CacheSim`, `Hierarchy`, `WriteBack`, `UseMask`,
  `CacheUse`, `AccessUse`, `CacheArch`, `BranchPred`). Tag arrays are shuffled in place; the proofs say what
  they hold after any trace of references, in terms of the trace alone. The write-back set and the
  set with use records are shown to follow the plain one, the second by showing that each bit of
  its use masks behaves like the dirty bit of the first.
* **Cachegrind's instrumentation pass** (`Instrument`, `InstrumentMeaning`, `InstrumentPass`,
  `InstrumentState`, `InstrumentEffect`, `InstrumentTotals`). Events are queued, merged and flushed
  as calls to fused helpers. The instrumented block is proved to do what its executed statements
  mean, for every block, run, exit and queue capacity, and every counter of every source line to
  hold the number of actions that belong in it.
* **Callgrind's accounting** (`CallCosts`, `ShadowStack`, `CallEntries`, `CallRuns`, `CallHistory`,
  `CallStackState`, `ChainedHash`, `CallArcs`, `QSort`, `QSortArray`, `ExecCounts`, `Events`,
  `CostLine`). Inclusive costs telescope over calls and dumps in every run: what a dump has written
  is told from the events alone. The shadow stack stays in step with the program's, chained tables
  are rehashed in place, and counts are rebuilt when dumping.
* **The debuginfo server's frames** (`Adler`, `DiFrames`). The blocked checksum is the checksum of
  RFC 1950, and a receiver takes exactly what a sender sends.
* **memlog's log splitter and converter** (`StoreFiles`, `FileCache`, `LogSplit`, `LogRun`,
  `LogOwners`, `LogStack`, `LiveAllocs`, `LogIndex`, `LogSplitter`, `LogDriver`, `Parquet`,
  `Memlog`). From log to table nothing is lost, doubled or reordered, and every store goes to the
  allocation that the log alone determines.

Code that updates things in place is modelled by classes, arrays and loops, each method proved
against a specification function; what the source promises is then proved of that function.

Where the source turns out not to do what it is meant to do, the code is kept and the exact
condition is proved, with an input that shows the failure:

* `QSort.SortedIffRunsFit`: the quicksort leaves ties unsorted when a run of pivot-equals overruns
  the lesser part (`QSort.TiesLeftUnsorted`).
* `ExecCounts.DumpExactIff`: counts rebuilt at dump time need ordered exits
  (`ExecCounts.UnorderedOvercounts`).
* `CallCosts.DumpFlushesIff`: a dump writes all call costs only if exits are strictly increasing
  (`CallCosts.RepeatedExitKeepsCall`).
* `ShadowStack.EnterSyncsIff`: two kinds of block entries leave recorded stack pointers behind the
  program's (`ShadowStack.SkippedFrameStays`, `ShadowStack.PoppedFrameStays`).
* `CallStackState.GrownRoom`: a grown call stack can still be too small for the index asked for
  (`CallStackState.NoRoomAtDouble`), but its only caller never asks for such an index.
* `CacheArch.TweakedSize`: a last-level cache can be adjusted to a size that is negative as a signed
  number (`CacheArch.TweakOverflows`).
* `CacheArch.CheckCacheCrashesIff`: instead of rejecting some parameters the check divides by zero
  (`CacheArch.CheckCacheCrashes`).
* `AccessUse.UseRightIff`: use masks are wrong when a cache of one set gets an access over a line end
  (`AccessUse.OneSetLosesStraddle`).
* `AccessUse.SameLineIff`: lines 4 GiB apart are one line to Callgrind's simulator.
* `CacheUse.RecordOwnIffHeld`: the pointer from a first-level line to its last-level use record goes
  stale when the last level evicts the line (`CacheUse.FirstLevelOutlives`).

Cleared tags equal tag 0, so `LruStack.HitIffRecentlyUsed` has a case for it. The comparison given
to the quicksort subtracts pointers and cuts the difference to 32 bits, so it need not be an
ordering; then only `QSort.QuickSortPermutes` holds. A cost centre with several active calls can be
in the list twice, so ties do occur.

## Model

| member | source | states |
|---|---|---|
| LruStack.TouchFollowsHistory | valgrind/cachegrind/cg_sim.c:87-121 | after any further reference a set is still the distinct tags of its history, most recent first, padded with zeros and cut to the associativity |
| LruStack.RecencyIsDistinctHistory | valgrind/cachegrind/cg_sim.c:87-121 | the recency list holds every tag of the history exactly once |
| LruStack.HitIffRecentlyUsed | valgrind/cachegrind/cg_sim.c:87-121 | a reference hits if and only if fewer than `assoc` other tags were used since the tag's last use; an unused tag only if it is 0 and there is padding |
| LruStack.ResidentPrefix | valgrind/cachegrind/cg_sim.c:87-121 | the set with fewer ways is always a prefix of the set with more |
| CacheSim.HitIffFewRivals | valgrind/cachegrind/cg_sim.c:87-161 | the same for a whole cache: only blocks of the same set count as rivals, after any history |
| CacheSim.MoreWaysNeverMissMore | valgrind/cachegrind/cg_sim.c:87-161 | with equal set count and line size more ways never give more misses, over every trace and straddling accesses included |
| CacheSim.RefMissesMonotone | valgrind/cachegrind/cg_sim.c:123-161 | access by access, the cache with more ways misses only where the other one does |
| CacheSim.ShortAccessNeverPanics | valgrind/cachegrind/cg_sim.c:123-161 | an access no longer than a line that does not wrap touches one line or two adjacent ones |
| CacheSim.BlocksAreLines | valgrind/cachegrind/cg_sim.c:123-161 | for every access that does not wrap, the blocks looked up are exactly the lines in which a byte is touched, in ascending order, and the simulator gives up if and only if a byte is in a third line |
| CacheSim.RefMissesIff | valgrind/cachegrind/cg_sim.c:144-161 | an access misses if and only if one of its lines does, each looked up after the ones before it |
| CacheSim.MoveToFront | valgrind/cachegrind/cg_sim.c:103-118 | the shifting loop moves exactly the entries in front of the given one down by one and changes nothing else |
| CacheSim.SegmentRef | valgrind/cachegrind/cg_sim.c:87-121 | the lookup in the tag array updates its set as the abstract list does, leaves the other entries alone, and reports a miss exactly when the tag was not there |
| CacheSim.TracksStep | valgrind/cachegrind/cg_sim.c:87-121 | touching the set of a block extends the history that the whole tag array stands for by that block |
| CacheSim.Cache.constructor | valgrind/cachegrind/cg_sim.c:50-82 | a cleared cache stands for the empty history |
| CacheSim.Cache.SetRefIsMiss | valgrind/cachegrind/cg_sim.c:87-121 | a set reference changes that set only, as the abstract list does |
| CacheSim.Cache.BlockRef | valgrind/cachegrind/cg_sim.c:123-143 | a block reference keeps the invariant, appends the block to the history and misses as the history says |
| CacheSim.Cache.RefIsMiss | valgrind/cachegrind/cg_sim.c:123-161 | an access looks up exactly the lines in which it touches a byte, in order, misses if one does, and gives up if and only if it reaches a third line |
| Hierarchy.NoXAccess | valgrind/cachegrind/cg_sim.c:186-232 | for a fetch within one line the general access is one lookup per level |
| Hierarchy.MoreWaysOneAccess | valgrind/cachegrind/cg_sim.c:175-213 | access by access, more last-level ways leave what reaches each level the same and miss only where fewer do |
| Hierarchy.Simulator.constructor | valgrind/cachegrind/cg_sim.c:164-173 | three cleared, separate caches |
| Hierarchy.Simulator.DorefGen | valgrind/cachegrind/cg_sim.c:175-213 | miss counters and both histories after an access are those of the two-level specification; the lines added to each history are exactly those touched |
| Hierarchy.Simulator.DorefNoX | valgrind/cachegrind/cg_sim.c:186-204 | the shortcut for fetches within a line does exactly what the general access does |
| Hierarchy.HistoriesAre | valgrind/cachegrind/cg_sim.c:164-213 | after every run of fetches and data accesses each first level has looked up the lines of the accesses of its kind, and the last level the lines of those that missed there, in order |
| Hierarchy.MissesAre | valgrind/cachegrind/cg_sim.c:175-213 | so an access misses at either level exactly as the accesses before it say |
| Hierarchy.MoreLastLevelWays | valgrind/cachegrind/cg_sim.c:164-213 | more last-level ways never give more last-level misses, over any interleaving of instruction fetches and data accesses through their two first-level caches |
| WriteBack.ErasureSimulates | valgrind/callgrind/sim.c:352-387 | erasing dirty bits before or after a reference is the same: the write-back set does what the plain one does |
| WriteBack.ErasureOverRuns | valgrind/callgrind/sim.c:246-278 | over every trace the erased set is the plain set, so hits and misses agree |
| WriteBack.DirtyConserved | valgrind/callgrind/sim.c:352-387 | write-backs plus dirty lines present equal clean-to-dirty transitions, which never exceed the write references |
| WriteBack.DirtyIffWritten | valgrind/callgrind/sim.c:352-387 | after every trace a line is dirty if and only if it was written since it was loaded |
| WriteBack.WritesBackIff | valgrind/callgrind/sim.c:352-387 | a reference writes back exactly when it misses and the evicted line was written since it was loaded |
| WriteBack.SetRefWb | valgrind/callgrind/sim.c:352-387 | the code's update of the tag array and its result are those of the specification, and no other set changes |
| UseMask.CountBits | valgrind/callgrind/sim.c:832-848 | the logarithmic counter returns the number of bits set |
| UseMask.StageKeepsSum | valgrind/callgrind/sim.c:841-846 | each of its lines turns twice as many fields into fields of twice the size with the same sum |
| UseMask.InitMasks | valgrind/callgrind/sim.c:603-665 | the two mask tables mark the parts of a line from a byte on and up to a byte, for every line size |
| UseMask.NarrowTables | valgrind/callgrind/sim.c:634-647 | the loop for lines shorter than 32 bytes builds these tables |
| UseMask.WideTables | valgrind/callgrind/sim.c:648-663 | so does the loop for longer lines |
| UseMask.MaskOfAccess | valgrind/callgrind/sim.c:620-632 | ANDing a start and an end mask marks exactly the parts that contain a touched byte |
| CacheUse.PointersPermute | valgrind/callgrind/sim.c:152-169 | after every trace the use-record pointers of a set are a permutation of 0..assoc-1, so resident lines never share a record |
| CacheUse.ValidKept | valgrind/callgrind/sim.c:683-828 | every reference keeps the pointers distinct and in range |
| CacheUse.BitSimulates | valgrind/callgrind/sim.c:683-828 | on each bit of the use masks the set follows the write-back set, step for step |
| CacheUse.MaskIffTouched | valgrind/callgrind/sim.c:683-972 | for any masks given to the references: after every trace the lines held are the most recent ones and a bit of a line's mask is set if and only if a reference with that bit came since the line was loaded |
| CacheUse.MaskOfPiece | valgrind/callgrind/sim.c:700-785 | the mask taken from the tables marks exactly the parts of the line in which a byte is touched, for a reference within a line, to its end or from its start on |
| CacheUse.MaskIffBytesTouched | valgrind/callgrind/sim.c:683-828 | after every history of such references, with masks from the tables, a bit of a line's mask is set if and only if a byte of that part was touched since the line was loaded; `AccessUse.UseRightIff` says when accesses are split into such references |
| AccessUse.UseRightIff | valgrind/callgrind/sim.c:683-828 | for every history of accesses of 1 to 255 bytes and every number of sets: after each access every set holds the lines last touched with masks telling the parts touched since load, if and only if no access crosses a line end, or each crosses at most one and there is more than one set |
| AccessUse.ExactSplit | valgrind/callgrind/sim.c:687-780 | for those accesses the references made are exactly the pieces of lines touched |
| AccessUse.TouchedAreBytes | valgrind/callgrind/sim.c:683-828 | these pieces are the bytes of the access: a byte is in one of them if and only if the access covers it |
| AccessUse.OneSetLosesStraddle | valgrind/callgrind/sim.c:699-703 | a cache of 512 bytes with eight ways of 64 bytes and an access to 8 bytes at offset 60: the second line is not referenced, and no part of the first one is marked |
| AccessUse.SameLineIff | valgrind/callgrind/sim.c:180-185 | two addresses are in the same line to the simulator if and only if they are with the upper half of the word left aside, as the tag mask is 32 bits wide |
| CacheUse.RecordOwnIffHeld | valgrind/callgrind/sim.c:881-927 | a pointer kept to the use record of a line stays that line's own if and only if the line was held ever since; a first-level line keeps such a pointer to its last-level line |
| CacheUse.EvictionReuses | valgrind/callgrind/sim.c:915-927 | the record of an evicted line goes at once to the line that takes its place |
| CacheUse.FirstLevelOutlives | valgrind/callgrind/sim.c:935-972 | three references to two lines after which a line is in a first level of two ways while the record it points to in a last level of one way belongs to the other line |
| CacheUse.EveryAccessCounted | valgrind/callgrind/sim.c:935-972 | every reference is in the count of exactly one line, held or evicted |
| CacheUse.SetUse | valgrind/callgrind/sim.c:683-828 | the code's update of tags and use records is that of the specification and touches no other set |
| CacheUse.Rotate | valgrind/callgrind/sim.c:712-733 | the shifting loop puts an entry in front of the others |
| CacheArch.FloorPowerOf2 | valgrind/cachegrind/cg_arch.c:207-217 | the largest power of two not above the argument, and 0 for 0 |
| CacheArch.CheckCacheAccepts | valgrind/cachegrind/cg_arch.c:42-82 | of all 32-bit parameters, negative ones included, the check accepts exactly those that give a power of two of sets, a line size that is a power of two of at least 16, and at least two lines; the wrapping product does not matter to this |
| CacheArch.CheckCacheCrashesIff | valgrind/cachegrind/cg_arch.c:42-82 | of all 32-bit parameters the check divides by zero or out of range on exactly those whose line size and associativity multiply to a multiple of 2^32, or with the smallest number as size to one less, or whose line size is -1 and associativity divides that size |
| CacheArch.CheckCacheCrashes | valgrind/cachegrind/cg_arch.c:54-59 | lines of 65536 bytes and associativity 65536 are such parameters, whatever the size |
| CacheArch.CacheConfig.MaybeTweakLLc | valgrind/cachegrind/cg_arch.c:219-278 | for all 32-bit parameters: the line size stays, the set count becomes the largest power of two not above the old one, the associativity is scaled and the size recomputed in 32 bits; fails exactly on a negative parameter or when associativity times line size wraps to zero |
| CacheArch.TweakIsSmall | valgrind/cachegrind/cg_arch.c:243-265 | the associativity does not shrink and the total size moves by at most half a line per new set |
| CacheArch.TweakedSize | valgrind/cachegrind/cg_arch.c:219-278 | the new size divides exactly into the chosen sets and fits 32 bits unless associativity times line size does not; it is right as a signed number if and only if that product fits and the old set count is a power of two or twice the old lines and the new sets stay below a bound given by the old parameters |
| CacheArch.KeepsIntForPowers | valgrind/cachegrind/cg_arch.c:219-278 | for lines of a power of two of bytes that condition is: twice the old size and one line per new set are below 2^32 |
| CacheArch.TweakOverflows | valgrind/cachegrind/cg_arch.c:219-278 | a direct-mapped cache of 1.5 GiB with 64-byte lines gets a negative size; it lies exactly on the bound |
| BranchPred.SameOutcomeBound | valgrind/cachegrind/cg_branchpred.c:81-130 | any run of branches with one outcome, at whatever addresses, is mispredicted at most 7 + 2 * 128 times |
| BranchPred.BankStep | valgrind/cachegrind/cg_branchpred.c:91-130 | once the history is all one outcome, each misprediction moves a counter of one bank towards it and no branch moves one away |
| BranchPred.SameCounterIff | valgrind/cachegrind/cg_branchpred.c:91-104 | two branches of a trace use the same counter if and only if the seven outcomes before them are equal and their instruction numbers are equal modulo 128 |
| BranchPred.MispredictedIff | valgrind/cachegrind/cg_branchpred.c:91-130 | over every trace a branch is mispredicted if and only if the count of earlier branches sharing its counter, up for taken and down for others between 0 and 3, disagrees with it |
| BranchPred.TargetIsLast | valgrind/cachegrind/cg_branchpred.c:133-151 | the target remembered for an address is that of the latest indirect branch whose instruction number is equal modulo 512, and 0 if there was none |
| BranchPred.Unit.constructor | valgrind/cachegrind/cg_branchpred.c:87-88 | history, counters and targets start at zero, with no branch seen |
| BranchPred.Unit.DoCondBranchPredict | valgrind/cachegrind/cg_branchpred.c:91-130 | over every trace of branches: mispredicts exactly when that count over the earlier branches says so |
| BranchPred.Unit.DoIndBranchPredict | valgrind/cachegrind/cg_branchpred.c:133-151 | mispredicts exactly when the latest indirect branch in its slot went elsewhere |
| InstrumentPass.InstrumentedRunsAlike | valgrind/cachegrind/cg_main.c:1050-1354 | for every block, run, exit and queue capacity the instrumented block performs exactly what its executed statements mean, in order, and leaves at the same exit |
| InstrumentMeaning.StmtMeans | valgrind/cachegrind/cg_main.c:1112-1310 | the operations of one statement are its meaning: a mark fetches its own address and length; a load, a guarded load that is on, a load-linked, a compare-and-swap and a helper that reads give one read at their address; a store gives one write unless it changes what was just read; an exit of guest code gives one branch, taken exactly when control goes elsewhere than to the next instruction |
| InstrumentMeaning.FusedIff | valgrind/cachegrind/cg_main.c:924-958 | a store adds no write exactly if its own statement reads, or the latest statement of interest before it is an unconditional load of the same address and size |
| InstrumentMeaning.RunMeans | valgrind/cachegrind/cg_main.c:1106-1354 | performing each statement's operations at once is the meaning of a block told from its statements; at its end there is one indirect branch exactly for a computed jump or call |
| InstrumentPass.ErasureIsOriginal | valgrind/cachegrind/cg_main.c:1050-1354 | dropping what the pass inserted gives back the original block |
| InstrumentPass.FlushActs | valgrind/cachegrind/cg_main.c:700-880 | the calls emitted by a flush perform exactly the actions of the queued events, in order |
| InstrumentPass.HelperCovers | valgrind/cachegrind/cg_main.c:720-867 | the helper chosen for the front of the queue performs the actions of the events it covers |
| InstrumentPass.OpAchieves | valgrind/cachegrind/cg_main.c:882-1045 | each operation adds its own actions behind those still queued, merging a read and a write of the same place included |
| InstrumentPass.RestRunsAlike | valgrind/cachegrind/cg_main.c:1106-1354 | from any point of the traversal and with any valid queue the rest of the instrumented block performs what is queued and then the operations of the remaining statements one at a time |
| InstrumentEffect.SimulationAsIfOneAtATime | valgrind/cachegrind/cg_main.c:310-468 | caches, predictors and counters end up as if what each executed statement means had been simulated alone and in general form |
| InstrumentEffect.ShortcutIsGeneral | valgrind/cachegrind/cg_main.c:336-354 | the helper for a fetch within a line has the effect of the general one |
| InstrumentTotals.EveryCounterIs | valgrind/cachegrind/cg_main.c:310-468 | after every program run from cleared simulators, for every queue capacity, each of the 13 counters of every line is the number of actions meant by executed statements of that line that belong in it: fetches, reads, writes, conditional and indirect branches, each with the misses or mispredictions told from the actions before it |
| InstrumentTotals.ActionCounts | valgrind/cachegrind/cg_main.c:310-468 | an action adds one to exactly those counters of its own line and changes no other |
| InstrumentTotals.RunsOnIff | valgrind/cachegrind/cg_sim.c:148-160 | the simulation goes on to the end if and only if no access reaches a third line of a cache it goes to |
| InstrumentState.FetchOwnsData | valgrind/cachegrind/cg_main.c:738-770 | for every block and capacity, whenever the pass comes to an operation, a data event right behind a fetch in the queue belongs to the same instruction, as the pass asserts when it fuses them |
| InstrumentState.InstrumentBlock | valgrind/cachegrind/cg_main.c:1050-1354 | with a queue of 16 the pass over a block emits what the specification says, and running that performs exactly what the executed statements mean |
| InstrumentState.VisitAll | valgrind/cachegrind/cg_main.c:1106-1354 | the loop over the statements emits the rest of the block as the traversal does, and uses up exactly the instruction records reserved |
| InstrumentState.CountMarks | valgrind/cachegrind/cg_main.c:607-636 | the number of records reserved is the number of instruction marks |
| InstrumentState.CopyPreamble | valgrind/cachegrind/cg_main.c:1078-1083 | everything before the first instruction mark is copied |
| InstrumentState.CgState.FlushEvents | valgrind/cachegrind/cg_main.c:700-880 | emits the calls for all queued events and empties the queue |
| InstrumentState.CgState.ChooseHelper | valgrind/cachegrind/cg_main.c:720-867 | the choice of helper is that of the specification |
| InstrumentState.CgState.AddEventIr | valgrind/cachegrind/cg_main.c:882-899 | queues a fetch, flushing first if the queue is full |
| InstrumentState.CgState.AddEventDr | valgrind/cachegrind/cg_main.c:901-922 | queues a read |
| InstrumentState.CgState.AddEventDw | valgrind/cachegrind/cg_main.c:924-958 | queues a write or turns the read before it into a modify |
| InstrumentState.CgState.AddEventDGuarded | valgrind/cachegrind/cg_main.c:960-1005 | flushes and emits a guarded call |
| InstrumentState.CgState.AddBranch | valgrind/cachegrind/cg_main.c:1288-1307 | widens the guard into fresh temporaries and queues a branch |
| InstrumentState.CgState.AddEventBi | valgrind/cachegrind/cg_main.c:1027-1045 | queues an indirect branch |
| InstrumentState.CgState.SetupInstrInfo | valgrind/cachegrind/cg_main.c:680-693 | takes the next instruction record |
| InstrumentState.CgState.AddStmt | valgrind/cachegrind/cg_main.c:1112-1330 | queues the operations of one statement, whose meaning `InstrumentMeaning.StmtMeans` gives |
| InstrumentState.CgState.Finish | valgrind/cachegrind/cg_main.c:1330-1354 | the indirect branch at the end, if any, and the last flush |
| CallCosts.EveryCallCountedOnce | valgrind/callgrind/callstack.c:334-368 | over every run of charges, calls, returns and dumps, what was written plus what is held is the sum over calls of (total at return minus total at entry), per call arc and event; nothing is written of an arc that dumps do not reach; `CallHistory` says what these totals are |
| CallCosts.StepKeeps | valgrind/callgrind/callstack.c:198-216 | every step keeps: written plus held equals finished calls plus what active calls had gathered when last accounted |
| CallCosts.DumpKeeps | valgrind/callgrind/dump.c:699-829 | a dump keeps that too; of the arcs its walk reaches nothing is left unwritten, and of the others all is still held |
| CallCosts.DumpFlushesIff | valgrind/callgrind/dump.c:733-807 | every dump after every run leaves nothing unwritten if and only if the exits of every block are strictly increasing |
| CallCosts.RepeatedExitKeepsCall | valgrind/callgrind/dump.c:759-807 | with two side exits at one instruction, be it the last one, the cost of a call at the final exit is not written |
| CallCosts.FullRun | valgrind/callgrind/callstack.c:184-368 | the books are right after every run from the start |
| CallRuns.EveryRunIsRight | valgrind/callgrind/bbcc.c:560-870 | after every sequence of block entries, counts and dumps from the start the recorded stack pointers descend, no counter is below its value at the last dump, and the books are right against the history of the calls and returns the blocks stand for |
| CallHistory.EveryRunTells | valgrind/callgrind/bbcc.c:560-870 | after every sequence of block entries, counts and dumps: the counters are the sums of the counts, the active calls are those told from the events, each is entered with the total at the entry that began it, and every arc has taken from its ended calls exactly what was counted between their beginning and end, from the latest dump on for calls only found out when they returned |
| CallHistory.EveryDumpWrites | valgrind/callgrind/dump.c:1393-1471 | what has been written after every dump of every run: for an arc that dumps reach, the sum over all its calls, ended or active, of what was counted between their beginning and their end or now; for the others nothing |
| CallHistory.EntryTook | valgrind/callgrind/callstack.c:334-368 | the calls a block entry ends take what was counted since they began |
| CallEntries.EntryFrames | valgrind/callgrind/bbcc.c:635-775 | a block entry leaves on the stack exactly the calls that stay and the one that begins, both told from the entry, the recorded stack pointers and the return addresses; the new one has the present counters |
| CallEntries.OneHigherIff | valgrind/callgrind/bbcc.c:688-790 | the stack gets one higher if and only if the entry is a call or a jump taken for one that replaces none, and no recorded stack pointer is below the program's |
| CallEntries.Classified | valgrind/callgrind/bbcc.c:635-726 | an entry is a return if and only if nothing is active, the latest call is below the stack pointer, or the return address is that of a call with this stack pointer and only such above it; a jump is taken for a call if and only if it is an unmatched return or crosses into a function entry, section or object |
| CallEntries.PopsReturned | valgrind/callgrind/bbcc.c:655-675 | a return ends exactly the calls below the stack pointer, or those down to the latest one with its return address |
| CallEntries.EntryOpsAre | valgrind/callgrind/bbcc.c:560-870 | as accounted steps an entry is the calls that end and then the one that begins, or one call from the latest dump on that ends at once |
| CallRuns.EveryUnwindCounts | valgrind/callgrind/callstack.c:405-435 | so in every reachable state an unwind pops the frames below the stack pointer, and of those equal to it just enough to reach the number asked for |
| CallRuns.LastDumpIs | valgrind/callgrind/dump.c:1466-1468 | the counters an underflow counts from are those at the latest dump |
| CallRuns.StepInOrder | valgrind/callgrind/bbcc.c:560-870 | each event keeps the stack descending and the counters above those of the last dump |
| CallCosts.AddDiff | valgrind/callgrind/events.c:375-398 | only the given arc's cost grows, by the difference, and it is allocated when first needed |
| ShadowStack.UnwindCount | valgrind/callgrind/callstack.c:405-435 | on a descending stack an unwind pops the frames below the stack pointer, and of those equal to it just enough to reach the number asked for |
| ShadowStack.UnwindSyncs | valgrind/callgrind/callstack.c:405-435 | after an unwind no recorded stack pointer is below the program's |
| ShadowStack.EnterKeepsDescending | valgrind/callgrind/bbcc.c:560-870 | every block entry keeps the recorded stack pointers descending; `CallRuns.EveryRunIsRight` takes it over whole runs |
| ShadowStack.EnterSyncsIff | valgrind/callgrind/bbcc.c:560-870 | a block entry leaves the stack in step if and only if it is not one of two named cases |
| ShadowStack.SkippedFrameStays | valgrind/callgrind/bbcc.c:746-760 | a call to a skipped function and the return from it with the function stack at its marker: the frame stays |
| ShadowStack.PoppedFrameStays | valgrind/callgrind/bbcc.c:704-718 | a jump out of a function popped on jumps, after the program dropped its frame: the new call is recorded below the stack pointer |
| ShadowStack.EnterIsARun | valgrind/callgrind/bbcc.c:560-870 | what a block entry does to the stack and the costs is a run of returns and at most one call; `CallEntries.EntryOpsAre` says which |
| CallStackState.GrownRoom | valgrind/callgrind/callstack.c:87-110 | growing makes room for an index if and only if that is not the size doubled some times; the only caller, a push, asks for at most the current size and always gets room |
| CallStackState.NoRoomAtDouble | valgrind/callgrind/callstack.c:87-96 | an array of 500 entries grown for index 1000 has 1000 entries |
| CallStackState.CallStack.constructor | valgrind/callgrind/callstack.c:46-57 | an empty stack with zero costs |
| CallStackState.CallStack.EnsureStackSize | valgrind/callgrind/callstack.c:87-110 | grows to the specified size and keeps all entries |
| CallStackState.CallStack.PushCallStack | valgrind/callgrind/callstack.c:184-284 | pushes a frame with the current counters |
| CallStackState.CallStack.PopCallStack | valgrind/callgrind/callstack.c:312-397 | pops a frame and settles its arc |
| CallStackState.CallStack.UnwindCallStack | valgrind/callgrind/callstack.c:405-435 | stack and costs are those of the unwind function, the count is that of the frames below and equal, and no frame is left below the pointer |
| CallStackState.CallStack.SettleActive | valgrind/callgrind/dump.c:1036-1061 | brings the arcs of all active calls up to date |
| CallStackState.CallStack.PrintBbcc | valgrind/callgrind/dump.c:699-807 | the walk over a block writes and clears the lists of the exits up to the one where it stops, and no others; written plus held stays the same |
| CallStackState.CallStack.DumpProfile | valgrind/callgrind/dump.c:1393-1471 | a dump settles active calls, writes and clears what the specification says, and remembers the counters |
| CallStackState.CallStack.SetupBbcc | valgrind/callgrind/bbcc.c:560-870 | a block entry does to stack and costs what the specification says; the frames afterwards are those told from the entry and the frames before it |
| CallStackState.CallStack.CountPops | valgrind/callgrind/bbcc.c:639-675 | how many frames a return pops, with the search for a matching return address; none if it is to count as a jump |
| CallStackState.CallStack.HandleReturn | valgrind/callgrind/bbcc.c:746-775 | the return part of it, with a call stack underflow |
| ChainedHash.RoomyAfter | valgrind/callgrind/jumps.c:139-142 | after growing to twice the size plus three, one more entry keeps the table within its fill limit |
| ChainedHash.Rehash | valgrind/callgrind/jumps.c:81-127 | relinking all nodes into a bigger bucket array keeps every node, in the bucket its hash gives |
| ChainedHash.MoveChain | valgrind/callgrind/jumps.c:98-114 | the in-place move of one chain does so for its nodes |
| ChainedHash.Walk | valgrind/callgrind/jumps.c:209-217 | the chain walk stops at the node of the key or at the end, having passed only other keys |
| ChainedHash.Table.constructor | valgrind/callgrind/jumps.c:37-52 | an empty table |
| ChainedHash.Table.Lookup | valgrind/callgrind/bb.c:175-190 | returns the node of a key if and only if the key is in the table |
| ChainedHash.Table.Resize | valgrind/callgrind/bb.c:65-113 | keeps the contents and gives twice the buckets plus three |
| ChainedHash.Table.Insert | valgrind/callgrind/bb.c:117-170 | adds one new node for a new key, keeps all others and stays within the fill limit |
| ChainedHash.Table.Delete | valgrind/callgrind/bb.c:286-344 | unlinks the node of a key, or nothing if there is none |
| CallArcs.ArcTable.constructor | valgrind/callgrind/jumps.c:37-52 | no arcs |
| CallArcs.ArcTable.NewJcc | valgrind/callgrind/jumps.c:134-180 | a new arc is in the table and at the head of the list of its exit, and no other list changes |
| CallArcs.ArcTable.TryShortcuts | valgrind/callgrind/jumps.c:192-205 | finds the arc exactly if it is the last one used to its callee or from its caller, and then its own cost centre |
| CallArcs.ArcTable.GetJcc | valgrind/callgrind/jumps.c:184-230 | there is one cost centre per arc, made on first use and the same ever after; unless a shortcut had it both shortcuts are set to it; lists and table stay consistent |
| CallArcs.BlockTable.GetBb | valgrind/callgrind/bb.c:239-282 | one block per object and offset; reports whether it was seen before |
| CallArcs.BlockTable.DeleteBb | valgrind/callgrind/bb.c:286-344 | removes that block from the table and no other |
| QSort.QuickSortPermutes | valgrind/callgrind/dump.c:911-1011 | the result is a permutation of the input for every comparison in which an element equals itself, be it an ordering or not |
| QSort.SortedIffRunsFit | valgrind/callgrind/dump.c:911-1011 | for an ordering with ties the result is sorted if and only if no left run of pivot-equals overran the lesser part at some level |
| QSort.TieFreeSorts | valgrind/callgrind/dump.c:911-1011 | without ties it always sorts |
| QSort.TiesLeftUnsorted | valgrind/callgrind/dump.c:975-978 | a list of seven numbers with ties that it leaves unsorted |
| QSort.PivotIsMedian | valgrind/callgrind/dump.c:934-946 | the pivot is the median of the first, middle and last element, for more than 40 elements that of three medians |
| QSort.PartsShorter | valgrind/callgrind/dump.c:934-1011 | the pivot is in neither part, so both recursive calls are on shorter stretches |
| QSort.PartitionRegions | valgrind/callgrind/dump.c:948-971 | the partition loop ends with equals, lesser, greater, equals, from left to right |
| QSort.RightRunSlides | valgrind/callgrind/dump.c:977-978 | the right run of equals always ends up next to the middle |
| QSort.ArrangeFits | valgrind/callgrind/dump.c:972-978 | when the left run fits, the arranged stretch is lesser, equals, greater |
| QSort.ArrangeOverlaps | valgrind/callgrind/dump.c:972-978 | when it does not, an equal ends up in front of a lesser element |
| QSort.InsertFromSorts | valgrind/callgrind/dump.c:919-922 | insertion sort of a small stretch sorts it |
| QSortArray.Sort | valgrind/callgrind/dump.c:911-1011 | the sort in place does to its stretch what the function says and leaves the rest alone |
| QSortArray.InsertionSort | valgrind/callgrind/dump.c:919-922 | so does its insertion sort |
| QSortArray.PartitionAt | valgrind/callgrind/dump.c:948-971 | so does its partition loop |
| QSortArray.ArrangeAt | valgrind/callgrind/dump.c:972-978 | so does the exchange of the runs |
| ExecCounts.DumpRebuildsTotal | valgrind/callgrind/dump.c:699-764 | with strictly increasing exits the instruction total rebuilt by walking the block equals the total added at run time, for any history |
| ExecCounts.DumpExactIff | valgrind/callgrind/dump.c:699-764 | they agree on every history if and only if the exits in front of the last instruction are ordered and the final exit is at the last instruction |
| ExecCounts.UnorderedOvercounts | valgrind/callgrind/dump.c:759-764 | with an exit out of order one execution is dumped as a complete one |
| ExecCounts.EarlyEndOvercounts | valgrind/callgrind/main.c:1326-1336 | so is one leaving at the final exit, if that changed places with a side exit before the last instruction |
| ExecCounts.AllReachedIff | valgrind/callgrind/dump.c:733-768 | the walk reaches the lists of all exits if and only if the exits are strictly increasing |
| ExecCounts.Bbcc.constructor | valgrind/callgrind/bbcc.c:266-312 | counters start at zero |
| ExecCounts.Bbcc.Execute | valgrind/callgrind/bbcc.c:598-625 | an execution adds (exit instruction index + 1) and counts its exit; nothing while collection is off, and only the cost in a skipped function |
| ExecCounts.Bbcc.Dump | valgrind/callgrind/dump.c:699-764 | the walk returns the rebuilt total and starts over |
| Events.PlacesDiffer | valgrind/callgrind/events.c:120-148 | for every mask different events have different places in a cost array |
| Events.PlaceTaken | valgrind/callgrind/events.c:120-148 | and every place is that of an event |
| Events.PlacesInOrder | valgrind/callgrind/events.c:120-148 | places follow the order of groups and of the events in them |
| Events.RegisterKeepsLayoutIff | valgrind/callgrind/events.c:53-66 | registering a group keeps the layout of a mask if and only if the mask does not select it |
| Events.EventSets.constructor | valgrind/callgrind/events.c:37-50 | no groups and no sets |
| Events.EventSets.Register | valgrind/callgrind/events.c:53-109 | the sets already made stay right if and only if none selects the new group |
| Events.EventSets.FromMask | valgrind/callgrind/events.c:120-148 | offsets, size and count of the set are those of its mask, and a set is made once |
| Events.AddAndZeroCost2 | valgrind/callgrind/events.c:321-351 | every counter moves to the same event of the larger layout, per-event sums are conserved, the source is all zero, and the result tells whether there was anything |
| Events.MoveGroup | valgrind/callgrind/events.c:341-347 | the inner loop does so for one group |
| Events.AddDiffCost | valgrind/callgrind/events.c:357-373 | adds the difference, brings the old counters up to date and tells whether they differed |
| Events.EventMapping.constructor | valgrind/callgrind/events.c:402-416 | an empty mapping with room for the whole set |
| Events.EventMapping.AppendEvent | valgrind/callgrind/events.c:419-443 | appends the first event of that name with its place in the cost array |
| CostLine.ReadOfTrimmed | valgrind/callgrind/events.c:476-505 | reading a printed line, missing numbers being zero, gives the costs back |
| CostLine.NumbersOfJoin | valgrind/callgrind/events.c:484-499 | reading a line of decimal numbers gives the numbers printed |
| CostLine.TrimPads | valgrind/callgrind/events.c:487-497 | what is left out are zeros at the end, and all of those but the first number |
| CostLine.MappingCostAsString | valgrind/callgrind/events.c:476-505 | the line printed for a mapping reads back as the mapped costs, for a missing cost array as zeros |
| Adler.ComputeAdler32 | valgrind/auxprogs/valgrind-di-server.c:247-365 | the blocked computation equals the definition that reduces both sums after every byte, for every buffer length |
| Adler.BlockFits | valgrind/auxprogs/valgrind-di-server.c:252-253 | no sum leaves 32 bits within a block of 5552 bytes, and the bound used would fail for one byte more |
| Adler.ClosedForm | valgrind/auxprogs/valgrind-di-server.c:247-365 | the checksum in closed form: the first sum plus all bytes, and the second plus each byte times the number of bytes from it on plus the first sum times the length, modulo 65521 |
| Adler.RawReduces | valgrind/auxprogs/valgrind-di-server.c:307-350 | summing without reduction and reducing once is the same |
| Adler.PlainConcat | valgrind/auxprogs/valgrind-di-server.c:247-365 | the checksum of two buffers one after the other is that of their concatenation |
| Adler.Reduce | valgrind/auxprogs/valgrind-di-server.c:261-290 | the conditional subtractions compute the remainder |
| DiFrames.AcceptIffSent | valgrind/auxprogs/valgrind-di-server.c:697-724 | the receiver takes a frame from a stream if and only if it is at most 4 MiB long and the stream starts with what the sender writes for it |
| DiFrames.FrameSumIsOverBoth | valgrind/auxprogs/valgrind-di-server.c:883-897 | the checksum is that of the length field and the data together |
| DiFrames.ReadWritten | valgrind/auxprogs/valgrind-di-server.c:373-413 | a little-endian number is read back as written |
| DiFrames.ByteOf | valgrind/auxprogs/valgrind-di-server.c:373-402 | byte i of a number written is its i-th digit in base 256 |
| DiFrames.WriteRead | valgrind/auxprogs/valgrind-di-server.c:373-413 | bytes read as a number are written back as they were |
| DiFrames.WriteLe | valgrind/auxprogs/valgrind-di-server.c:373-402 | the writing loop produces the low-order bytes, lowest first |
| DiFrames.ReadLe | valgrind/auxprogs/valgrind-di-server.c:382-413 | the reading loop computes the number |
| DiFrames.Send | valgrind/auxprogs/valgrind-di-server.c:883-903 | builds the frame that goes on the wire |
| DiFrames.Receive | valgrind/auxprogs/valgrind-di-server.c:697-724 | accepts what the specification accepts and drops the rest |
| DiFrames.ParseAsciiz | valgrind/auxprogs/valgrind-di-server.c:436-462 | a string frame is accepted if and only if the tag matches and its only zero is the last byte, and the string is what was framed |
| LogSplit.Probe | tools/parser.py:216-231 | a store finds an allocation if and only if a live one holds its address, and then one that does |
| LogSplit.GuessSuffices | tools/parser.py:217-223 | for blocks that are not empty and do not overlap the bisection alone agrees with the full scan |
| LogSplit.InsertOrdered | tools/parser.py:172-176 | inserting where the bisection says keeps the list sorted, newest first among equal starts |
| LogSplit.NewestAt | tools/parser.py:278-282 | the first entry of a start address is the newest |
| LogRun.EveryStoreOnce | tools/parser.py:196-288 | of every accepted log: each store, and nothing else, is given to one allocation holding its address, which `LogOwners.OwnersFromLog` names; each allocation has exactly the stores it was given, in log order; no two allocations share a name |
| LogRun.StepKeeps | tools/parser.py:196-283 | every line keeps that invariant, the order of the index and the use counts |
| LogOwners.OwnersFromLog | tools/parser.py:210-283 | told from the log alone, every store goes to the live use of an address with the greatest start not above it and of those the oldest, if that holds the address, and else to the one with the smallest start, the newest of it, among those that do |
| LogOwners.LiveUntilFreed | tools/parser.py:254-283 | a use of an address is live if and only if an ALLOC header made it and at no point since then more FREE than ALLOC headers of that address have come |
| LogOwners.AcceptedIffHeld | tools/parser.py:210-240 | a log is accepted if and only if every store has a live use that holds its address |
| LogOwners.OwnersUnique | tools/parser.py:210-231 | a log determines the owner of each of its stores |
| LogOwners.OwnerIsOnly | tools/parser.py:219-231 | where live blocks do not overlap the owner is the only use that holds the address |
| LogOwners.FreedTakesNothing | tools/parser.py:272-283 | after ALLOC and FREE of a block a store to it is an error, and after another ALLOC only the second use is live |
| LogStack.AllocsAreHeaders | tools/parser.py:254-270 | the allocations are the headers of ALLOC blocks, numbered per address, with the size of the header and the stripped text of the block |
| LogStack.StacksComeFirst | tools/parser.py:242-248 | in well-formed logs each file is the stack and then the stores |
| FileCache.Cache.constructor | tools/parser.py:19-22 | no open files |
| FileCache.Cache.WriteLine | tools/parser.py:34-44 | with room for one handle the line is appended to its file, no other file's contents change, and this is the file's latest write; with room for none it fails |
| FileCache.Cache.EvictIfNeeded | tools/parser.py:24-32 | a full cache closes the handle whose latest write is the longest ago and loses nothing |
| FileCache.Cache.LeastRecent | tools/parser.py:27-28 | the handle with the smallest tick, which is the number of its latest write |
| FileCache.Cache.ClosePath | tools/parser.py:46-52 | closing writes the buffer and changes no contents |
| FileCache.Cache.CloseAll | tools/parser.py:54-60 | the same for all handles |
| StoreFiles.KindIff | tools/parser.py:96-123 | the class of an allocation is 64-bit if and only if all offsets are multiples of 8, and neither if and only if one is not a multiple of 4 |
| LiveAllocs.LiveAlloc.constructor | tools/parser.py:78-89 | an allocation without stores or stack |
| LiveAllocs.LiveAlloc.WriteStore | tools/parser.py:91-105 | appends the store to the file, counts it and keeps the alignment flags right; rejects an address outside |
| LiveAllocs.LiveAlloc.CloseAndFinalize | tools/parser.py:107-144 | a file with stores gets the name of its alignment class, one without is deleted, other files stay |
| LogIndex.BisectLeft | tools/parser.py:173-174 | the number of starts below a value |
| LogIndex.BisectRight | tools/parser.py:217-218 | the number of starts not above a value |
| LogIndex.Index.constructor | tools/parser.py:165-167 | an empty index |
| LogIndex.Index.Add | tools/parser.py:172-176 | both sorted lists and the stacks stay one index, with the allocation in its place |
| LogIndex.Index.Remove | tools/parser.py:178-182 | the same for taking the newest allocation of an address out |
| LogIndex.Index.Newest | tools/parser.py:278-280 | the top of the stack is the first of its address in the list |
| LogIndex.Index.Lookup | tools/parser.py:216-231 | bisection and fallback find what the specification finds |
| LogSplitter.StoreAt | tools/parser.py:219-231 | a store reaches the file of its allocation and no other |
| LogSplitter.HeadAt | tools/parser.py:244-247 | so does the stack at the end of a block |
| LogSplitter.AllocAt | tools/parser.py:257-265 | a new allocation enters the index |
| LogSplitter.FinishNewest | tools/parser.py:279-282 | a free finishes the file of the newest allocation at the address and removes it |
| LogDriver.ProcessLine | tools/parser.py:210-283 | one line does to index, objects, files and variables what the step function says; what that is over whole logs `LogOwners` and `LogRun` say |
| LogDriver.FinishAll | tools/parser.py:285-288 | what is still live at the end is finished in the order of the index |
| LogDriver.ParseLog | tools/parser.py:147-298 | with room for one open file it succeeds if and only if every store has a live use of an address that holds it, told from ALLOC and FREE headers, and what is left on disk are the files of the run and nothing else |
| Parquet.ConvertArchive | tools/to_parquet.py:174-317 | the batches decode to the rows of the files in order, all but the last have exactly 2^20 rows and the last has at least one and no more, and the counts returned are right |
| Parquet.Converter.constructor | tools/to_parquet.py:185-200 | empty buffers and dictionary |
| Parquet.Converter.Flush | tools/to_parquet.py:202-230 | writing a batch changes nothing of what all batches and buffers decode to, and adds one only if there are rows |
| Parquet.Converter.Intern | tools/to_parquet.py:275-281 | each stack gets one index, earlier indices stay valid |
| Parquet.Converter.ConsumeLine | tools/to_parquet.py:269-292 | a store becomes one row with the file's stack, other lines none |
| Parquet.Converter.ConvertMember | tools/to_parquet.py:239-299 | a file's rows are appended in order |
| Parquet.ReadStackHeader | tools/to_parquet.py:88-100 | the stack lines in front of the stores and where the stores begin |
| Parquet.StripIs | tools/to_parquet.py:96-98 | stripping takes the blanks from both ends and nothing else |
| Parquet.JoinConcat | tools/to_parquet.py:264 | stack lines are joined by line ends, in order |
| Parquet.JoinTellsLines | tools/to_parquet.py:264 | stacks with different lines have different texts, so a dictionary entry stands for one stack |
| Parquet.DecodeAdd | tools/to_parquet.py:282-288 | appending to the columns appends one row |
| Parquet.DecodeLonger | tools/to_parquet.py:278-280 | a grown dictionary decodes old rows the same |
| Memlog.FileIsAllocation | tools/to_parquet.py:202-308 | for a well-formed log the rows of each file are those that the log gives for one use of an address: address, size, alignment class, number of use, stripped stack, offsets and values in order |
| Memlog.AllocationHasFile | tools/parser.py:242-298 | and each use of an address that received a store has exactly one file, with these rows |
| Memlog.LogToTable | tools/to_parquet.py:174-317 | splitting a log, packing its files and converting them: with room for one open file this succeeds if and only if every store has a live use that holds its address, and for a well-formed log the decoded batches hold, for every use of every address, exactly the rows of the stores it owns, told from the log alone, in log order |
| Memlog.ArchiveIsLog | tools/to_parquet.py:239-308 | the same of an archive of the files in any order, for each use of an address |
| Memlog.ReadBackIs | tools/to_parquet.py:96-98 | a stack line is read back as the log line without surrounding blanks |

## Left out

- Counters and costs are unbounded in the model; wrap-around of 64-bit counters is not modelled. Address arithmetic of the cache simulator, the branch history, hashes and checksums are modelled with their width.
- Signal handlers, threads and thread switches of callgrind: one thread's call stack is modelled.
- Callgrind's own event queue and instrumentation, which repeats cachegrind's scheme.
- Hardware prefetch simulation, alone and with write-back.
- Write-back is modelled per set and tag, not per address, and leaves out straddling accesses.
- What first-level lines add to last-level use records when they are evicted, and the cost figures derived from use records. Which last-level record a first-level line points to, and when that is no longer its own line's, is proved.
- CacheUse.SetUse: the bookkeeping of who loaded a line and the access to the last level on a miss are left out; a straddling access is two calls, as `AccessUse.Split` says.
- Context and function lookup, cloning of cost centres for recursion, and the separation of skipped calls beyond what the call stack needs.
- Printing of positions and names in callgrind's dump files; the cost lines themselves are modelled.
- CallArcs.ArcTable.NewJcc: the list of spontaneous call arcs is left out, as a caller is always known where arcs are looked up.
- CallArcs.BlockTable.GetBb: the assertions that a block translated again has the same counts are left out.
- CallStackState.CallStack.PushCallStack: contexts, call counters and counts of active calls per function are left out.
- CallStackState.CallStack.PopCallStack: the same.
- CallStackState.CallStack.SetupBbcc: the choice of the cost centre of the block entered is left out; the arc of a call is given.
- Recording of jumps: with that option a cost centre used for a jump is printed without its cost.
- Sockets, file access and compression in the debuginfo server; its requests other than string frames.
- Regular expressions and the text of numbers in the log tools: log and file lines are records of what the patterns recognise; file names are records too.
- Column widths of the table: offsets, values and counts beyond 64 and 32 bits, which the column types reject.
- The progress bar, the status file, archives and their decompression, pyarrow and DuckDB.
- The output directory of the log splitter is taken to be empty at the start; files left by an interrupted earlier run would be appended to.
- Adler.ComputeAdler32: a running checksum passed in must have both sums below 65521, as every checksum it returns has.
- CacheArch.CacheConfig.MaybeTweakLLc: the scaling is over real numbers, which is exact in double precision as long as associativity times line size does not wrap.
- Events.AddAndZeroCost2: source and destination are different arrays.
- ExecCounts.Bbcc.Execute: cache simulation is off, so that each instruction costs one.
- QSort.QuickSortPermutes: a comparison in which an element does not equal itself is left out; the code would not stop on it.
