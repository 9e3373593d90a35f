# A verified model of the PowerPC emulator's hard core

A Dafny model of the parts of the emulator whose correctness rests on an
argument rather than on a table, with that argument proved. `dafny verify
dfyconfig.toml` checks all of it.

| files | what they model | what is proved |
|---|---|---|
| `Units`, `FlatMemory`, `CacheHierarchy`, `Transparency` | 8-way write-back L1 over a 2-way L2 over the bus, dcbz/dcbf/dcbst/icbi, DMA snoops, flushes, the decoded fetch buffer | every run reads, fetches and DMAs exactly what one flat byte memory would give, and a fetch sees what a load does |
| `JitChain` | the block table, fetch lines, chain sites in their park/thunk/live states, back-references, severing, arena reset | in every run, native code that executes was compiled from the words now resident for its address, and is entered at that address's own word |
| `NativeRun` | the cache hierarchy and the JIT over one set of fetch lines | every instruction executed in native code, entered, hopped to or fallen through to, is the word the flat memory holds at its address at that moment |
| `Dyadic`, `Words`, `Rounding`, `SoftFloat`, `SoftSingle`, `SoftFormats`, `SoftDivide`, `SoftDropped`, `SoftFma`, `SoftSpecial`, `SoftNegate`, `SoftReach` | integer softfloat: unpack, roundPack, the 128-bit helpers, fused multiply-add, divide, square root, single loads and stores | correct rounding against the real numbers (section 4.3 of IEEE 754-2008) with exact flags, enabled traps and NI included; NaNs, infinities and invalid operations as its sections 6 and 7 say; where the fused add drops bits or negates first, exactly when it is still right |
| `Fpscr`, `FcmpOrder` | FPSCR, commit with its fast path, compares, mcrfs/mtfs* | derived bits in every reachable state, the fast path refines the general one, fcmp orders real values, FPRF says what the result is |
| `Huffman`, `Inflate`, `DeflateWriter`, `InflateStrict` | bit reader, canonical Huffman tables, inflateRaw | it succeeds exactly on the DEFLATE streams its description admits and that fit, with their LZ77 expansion; blocks written and inflated come back; where that description is wider than RFC 1951 |
| `HfsRecord`, `HfsNode`, `HfsSearch`, `HfsHeader`, `HfsCatalog`, `HfsVolume` | the HFS catalog builder down to the bytes of each node, and the guest's search of those bytes | a search finds a key exactly when a record has it; the leaves list every record in order from either end; the reservation always suffices |
| `OhciRam`, `OhciQueues`, `OhciRuns` | endpoint queues, done list and HccaDoneHead as linked lists in RAM, and the data of each transfer | what a device answers lands in its descriptor's buffer and nothing else changes; queues lose exactly a prefix, and a list service stops only when nothing is ready or 64 descriptors have moved; over every run of frames and driver turns each descriptor that left a queue is on the done list or in one list handed over, once per time it left |
| `AtapiMedium` | eject/insert/swap/stage, tick and packet commands of the CD drive | unit attention before any success after an insertion; a READ serves exactly its blocks, once and in order, up to the first audio block; exactly when a read disc stays until the guest ejects it |
| `Dbdma` | the channel engine with a streaming sink | the sink is handed the list's bytes once and in order, across stalls, rings and parking, never past a STOP, and enough wakes deliver any part of the list that can move |

How the parts hang together. The cache is a class over the source's own arrays;
two ghost maps say what each level holds, `Coherent` says that clean copies equal
the level below and dirty ones the flat memory, and `Valid` ties arrays to maps.
Softfloat methods return the real number they rounded to as a ghost result, and
`Outcome` states the standard's requirement about it without naming any bit of the
code. The inflater's methods take a planned reading of the stream as a ghost
argument and return the reading they made as a ghost result, so one contract
states both directions. The catalog is judged by a reader (`Find`, `Lookup`,
`Listing`, `BackListing`) that sees only bytes.

Things the proofs show about the code:

- `add128`'s carry is right exactly when the addend's high word is not all ones under
  a low-word carry into a nonzero high word (`Words.Add128Is`); `AddAligned` shows the fused add
  never meets that case.
- The catalog's clash check compares unfolded names (machine/src/hfs.cpp:642-648)
  while the tree compares folded ones, so "a" and "A" in one folder are both
  accepted and one of them cannot be reached (`HfsVolume.CaseClash`,
  `HfsVolume.FoundIffUnambiguous`).
- inflateRaw is more lenient than RFC 1951 in two ways: the last run of a dynamic
  header may announce more lengths than HLIT + HDIST and the excess is dropped
  (`InflateStrict.OvershootAccepted` inflates such a stream), and a code may leave
  code space unused (`InflateStrict.IncompleteAccepted`). No earlier run is ever
  cut, and an accepted header means what RFC 1951 says exactly when its last run
  does not overshoot (`InflateStrict.AcceptedHeader`).
- Where fmaCore subtracts and the alignment drops set bits, it rounds a value just
  above the truncated difference although the exact one lies just below. The rounded
  value is right exactly when that difference is no boundary of the rounding mode, at
  the adjusted exponent when an underflow traps (`SoftFma.FmaCore`,
  `SoftDropped.SteadyIff`). 1.0 - 2^-200 toward zero is delivered as 1.0
  (`SoftFma.OneMinusTiny`); to nearest the value is right and FR is missed
  (`SoftFma.NearestMissesFr`).
- With `negResult`, fmaCore promises the rounded sum, negated
  (core/src/softfp.cpp:302), but negates before it rounds (lines 734-737). Word and
  flags are the same either way exactly when the mode is to nearest or toward zero, or
  the exact magnitude needs no rounding (`SoftNegate.NegatedFma`); -(1.0 + 2^-60)
  toward plus infinity comes out as -1.0 instead of -(1.0 + 2^-52)
  (`SoftNegate.FnmaddTowardPlus`). NI can hide the difference in the word, never in
  the flags (`SoftNegate.FlushedAlike`); in a directed mode an overflow with OE clear
  always shows it, even where it is exact.
- An overflow adjusted for the trap handler that is still past 2^1024 wraps its
  exponent, and a carry out of the field overwrites the sign
  (`SoftFloat.DeliverOverrun`); such a result is not negated in any mode. Operands of
  the target format never produce one (`SoftReach.FmaInFormat`, `SoftReach.DivInFormat`).
- hostEject, hostInsert and hostSwap displace a disc the guest has read, against the
  promise of hostStage; over every run the promise holds exactly when none of them
  came while the guest held a disc (`AtapiMedium.Drive.Run`, `AtapiMedium.SwapDisplaces`).
- An OUTPUT descriptor with a zero count parks a DBDMA channel for good
  (`Dbdma.EmptyOutputParks`).
- The comment before the L1/L2 flush is borne out: a block dirty in both levels
  reaches memory with its L1 contents (`CacheHierarchy.Hierarchy.L1FlushAll`).

## Model

| member | source | states |
|---|---|---|
| `Transparency.Execute` | core/src/cache.cpp:387-674 | Over every run of reads and writes of 1 to 8 bytes (block-crossing included), dcbz, dcbst, dcbf, icbi, fetches, snooped DMA reads and writes, full flushes and L2TS changes, everything observed equals what a flat byte memory shows. |
| `Transparency.PowerOn` | core/src/cache.cpp:387-674 | The same from power-on, for any memory image, L2 size and L2 enable. |
| `Transparency.Step` | core/src/cache.cpp:387-674 | One operation observes and changes exactly what its flat counterpart does. |
| `Transparency.FetchIsLoad` | core/src/mmu.cpp:496-551 | In the flat memory a fetch sees what a four-byte load of the same word sees, whatever the low address bits. |
| `Transparency.ZerosAreBytes` | core/src/cache.cpp:532-551 | Zeroing a block is writing 32 zero bytes from its first address. |
| `Transparency.WriteWithin` | core/src/cache.cpp:454-498 | A store changes no block but those of its first and last byte, whose fetch lines it drops. |
| `CacheHierarchy.LookupIsFlat` | core/src/cache.cpp:193-205 | L1 if it hits, else L2, else memory is the flat contents; a clean line equals the level below. |
| `CacheHierarchy.CleanMeansCurrent` | core/src/cache.cpp:583-631 | A block dirty in neither level is current in memory. |
| `CacheHierarchy.EvictKeepsCoherent` | core/src/cache.cpp:286-292 | Dropping an L2 line, written back if dirty, loses nothing. |
| `CacheHierarchy.InstallKeepsCoherent` | core/src/cache.cpp:258-299 | Installing a current block in the L2, clean or dirty, keeps both levels coherent. |
| `CacheHierarchy.PushKeepsCoherent` | core/src/cache.cpp:181-191 | Writing a dirty L1 line to memory and killing its L2 copy keeps both levels coherent. |
| `CacheHierarchy.StoreKeepsCoherent` | core/src/cache.cpp:454-498 | A store into a held line changes the flat memory and nothing else. |
| `CacheHierarchy.L2PushKeepsCoherent` | core/src/cache.cpp:620-627 | Writing back a dirty L2 line under a clean or absent L1 line keeps both levels coherent. |
| `CacheHierarchy.DmaKeepsCoherent` | core/src/cache.cpp:574-582 | A bus write to a block no cache holds is a flat write. |
| `CacheHierarchy.Hierarchy.FetchDropAt` | core/include/opm/cpu.hpp:873-878 | After it no fetch line holds the block, and other lines are untouched or shrink. |
| `CacheHierarchy.Hierarchy.FetchDrop` | core/include/opm/cpu.hpp:868-872 | No fetch line holds anything. |
| `CacheHierarchy.Hierarchy.Icbi` | core/src/exec_int.cpp:1336-1339 | icbi empties the fetch buffer and changes no contents. |
| `CacheHierarchy.Hierarchy.BusWriteLine` | core/src/cache.cpp:117-123 | A line write reaches memory and its fetch line is dropped. |
| `CacheHierarchy.Hierarchy.L2Way` | core/src/cache.cpp:275-284 | Finds the way holding a block exactly when the L2 holds it. |
| `CacheHierarchy.Hierarchy.L2Find` | core/src/cache.cpp:242-256 | The same, stamping the age; what the L2 holds is unchanged. |
| `CacheHierarchy.Hierarchy.L2Victim` | core/src/cache.cpp:286-292 | Frees a way of the set, an empty one if any, else the older, casting out a dirty line first. |
| `CacheHierarchy.Hierarchy.L2Slot` | core/src/cache.cpp:275-294 | The way an install goes to, its own or a freed one, and the dirtiness the line keeps. |
| `CacheHierarchy.Hierarchy.L2Install` | core/src/cache.cpp:258-299 | The block is held with the given bytes, dirty exactly if asked or if it already was; coherence kept. |
| `CacheHierarchy.Hierarchy.L2Invalidate` | core/src/cache.cpp:311-323 | The block leaves the L2 and nothing else does. |
| `CacheHierarchy.Hierarchy.LineWayQuiet` | core/src/cache.cpp:136-157 | Finds the way exactly when the L1 holds the block, touching nothing. |
| `CacheHierarchy.Hierarchy.LineWay` | core/src/cache.cpp:159-165 | The same, stamping the age. |
| `CacheHierarchy.Hierarchy.LineCastout` | core/src/cache.cpp:168-176 | A dirty line moves into the L2, or to memory when it is off; the line is clean and the flat contents unchanged. |
| `CacheHierarchy.Hierarchy.LinePush` | core/src/cache.cpp:181-191 | dcbf/dcbst push: to memory, or into the L2 under L2TS; the line is clean afterwards. |
| `CacheHierarchy.Hierarchy.LineVictim` | core/src/cache.cpp:209-224 | Frees a way: the first invalid one, else the least recently used, cast out if dirty. |
| `CacheHierarchy.Hierarchy.LineFill` | core/src/cache.cpp:193-205 | The way then holds the block clean with its current contents. |
| `CacheHierarchy.Hierarchy.ReadInBlock` | core/src/cache.cpp:426-433 | A read inside one block returns the flat bytes, big-endian. |
| `CacheHierarchy.Hierarchy.MemRead` | core/src/cache.cpp:387-434 | A read of any size and alignment returns the flat bytes, big-endian, and keeps the invariant. |
| `CacheHierarchy.Hierarchy.WriteInBlock` | core/src/cache.cpp:478-498 | A store inside one block writes exactly its bytes. |
| `CacheHierarchy.Hierarchy.WriteSplit` | core/src/cache.cpp:473-477 | A block-crossing store, byte by byte, writes exactly its bytes. |
| `CacheHierarchy.Hierarchy.MemWrite` | core/src/cache.cpp:454-498 | A store of any size and alignment writes exactly its bytes in the flat memory. |
| `CacheHierarchy.Hierarchy.DcbzLine` | core/src/cache.cpp:532-551 | The block is zero, whether it hit or was conjured over any L2 copy. |
| `CacheHierarchy.Hierarchy.DcbClean` | core/src/cache.cpp:553-564 | dcbst/dcbf leave the line clean or gone, memory current when it was dirty and L2TS is off, and contents unchanged. |
| `CacheHierarchy.Hierarchy.SnoopL1` | core/src/cache.cpp:604-619 | The L1 half of a snoop: pushed and, for a write, dropped. |
| `CacheHierarchy.Hierarchy.SnoopL2` | core/src/cache.cpp:620-627 | The L2 half, after the L1 is clean. |
| `CacheHierarchy.Hierarchy.SnoopBlock` | core/src/cache.cpp:601-627 | One snooped block: memory is current there; with invalidate no cache and no fetch line holds it. |
| `CacheHierarchy.Hierarchy.SnoopRange` | core/src/cache.cpp:601-631 | The block loop, with its break at the last block and at the wrap. |
| `CacheHierarchy.Hierarchy.SnoopPush` | core/src/cache.cpp:583-631 | Memory equals the processor's view, which is unchanged, over the range, or up to the end of memory when the range wraps; with invalidate nothing still holds those blocks; memory elsewhere is untouched. |
| `CacheHierarchy.Hierarchy.DmaStore` | core/src/cache.cpp:639-643 | DMA bytes stored after a snooped write are what the processor then reads. |
| `CacheHierarchy.Hierarchy.L2FlushAll` | core/src/cache.cpp:344-354 | The L2 is empty, dirty lines are in memory, contents unchanged. |
| `CacheHierarchy.Hierarchy.FlushWay` | core/src/cache.cpp:662-671 | One L1 way emptied; a dirty line reaches memory and its older L2 copy dies. |
| `CacheHierarchy.Hierarchy.L1FlushAll` | core/src/cache.cpp:656-674 | Both levels are empty and memory equals the processor's view everywhere. |
| `CacheHierarchy.Hierarchy.FetchUncached` | core/src/mmu.cpp:457-464 | The path without the buffer returns the big-endian word the flat memory holds at the aligned address, and its decode row. |
| `CacheHierarchy.Hierarchy.FetchRaw` | core/src/mmu.cpp:505-520 | L1, then L2, then memory: the block's current bytes. |
| `CacheHierarchy.Hierarchy.FetchFill` | core/src/mmu.cpp:521-534 | A refilled line is the block's words with their decode rows; other lines stay right. |
| `CacheHierarchy.Hierarchy.FetchDecoded` | core/src/mmu.cpp:496-551 | The buffered fetch returns that same word and row in every reachable state. |
| `CacheHierarchy.WordIsRead` | core/src/mmu.cpp:496-551 | The word a fetch picks out of a block is the four bytes at its aligned address, most significant first. |
| `CacheHierarchy.LineLoadBE` | core/src/cache.cpp:49-80 | The big-endian number in the bytes. |
| `CacheHierarchy.LineStoreBE` | core/src/cache.cpp:82-114 | Splices the number's big-endian bytes into the line. |
| `FlatMemory.ToBytesRoundTrip` | core/src/cache.cpp:49-114 | Storing a number and loading it back gives it modulo the width. |
| `FlatMemory.BlockPlace` | core/src/cache.cpp:136-157 | Byte pa is byte pa % 32 of its block, and blocks lie one after another. |
| `JitChain.Machine.Run` | core/src/jit.cpp:1865-2021 | Over every run of entries, hops, resolves, refills, drops and resets, every segment executed was compiled from the resident words for its address, and is the segment of the address's own word in its line. |
| `JitChain.ColdRun` | core/src/jit.cpp:1865-2021 | The same from an empty cache. |
| `JitChain.Machine.Step` | core/src/jit.cpp:1934-2021 | One event keeps the invariant; what runs is faithful. |
| `JitChain.Machine.Sever` | core/src/jit.cpp:1773-1786 | No site jumps into the block any more; its back-reference list is empty; other blocks are untouched. |
| `JitChain.Machine.Unlink` | core/src/jit.cpp:1776-1783 | Exactly the sites listed by one block go back to their thunks. |
| `JitChain.Machine.ClearBrefs` | core/src/jit.cpp:1784-1786 | Once its sites are on their thunks the list can be emptied: no site is on record as leading here. |
| `JitChain.Machine.DropAll` | core/src/jit.cpp:1759-1771 | No block is live, so no site can be traversed, and the invariant holds without rewriting the arena. |
| `JitChain.Machine.Victim` | core/src/jit.cpp:1879-1889 | An invalid way of the slot whenever there is one, else the one whose turn it is, and the turn moves on. |
| `JitChain.Machine.Kill` | core/src/jit.cpp:1891-1892 | Unlinked, then dead; nothing else changes. |
| `JitChain.Machine.Emit` | core/src/jit.cpp:1893-1920 | A new block above the cursor disturbs no existing block, site or link. |
| `JitChain.Machine.EmitCode` | core/src/jit.cpp:1893-1912 | The eight entries hold the segments of the resident words; the cursor moves past them. |
| `JitChain.Machine.EmitSites` | core/src/jit.cpp:1893-1920 | New sites start on their thunks. |
| `JitChain.Machine.CompileLine` | core/src/jit.cpp:1865-1925 | On success the way describes the resident line; a full arena is reset first; the invariant holds either way. |
| `JitChain.Machine.Resolve` | core/src/jit.cpp:294-323 | A compiled successor gets linked to the right entry and recorded, or the site is parked when its list is full; otherwise nothing changes. |
| `JitChain.Machine.Link` | core/src/jit.cpp:316-319 | The site jumps to the entry of its own target, and the target block lists it. |
| `JitChain.Machine.Park` | core/src/jit.cpp:305-314 | A parked site is the only word that changes. |
| `JitChain.Machine.Hop` | core/src/jit.cpp:771-804 | Past the residency check, a taken jump lands on code of the resident words at the site's own target. |
| `JitChain.Machine.LinkRuns` | core/src/jit.cpp:771-804 | The safety of any live link in any reachable state. |
| `JitChain.Machine.LinkReadsAsJump` | core/src/jit.cpp:787-794 | A patched site can never be read as parked or unresolved. |
| `JitChain.Machine.RunLine` | core/src/jit.cpp:1934-1994 | Finds or compiles the block and enters the segment of the word at the pc; the fail-safe return after a successful compile is unreachable. |
| `JitChain.Machine.Refill` | core/src/jit.cpp:1996-2021 | Blocks of this base with other words die unlinked; every other block and its links survive. |
| `NativeRun.Run` | core/src/mmu.cpp:496-551 | Over every run of memory operations mixed with JIT entries and hops, what act k enters is the word the flat memory holds at its pc after the first k acts, the block begins there and goes on word by word or to a branch target inside its line, and each instruction it executes is the one memory holds after the operations before it. |
| `NativeRun.ColdStart` | core/src/jit.cpp:1865-2021 | The same from power-on, for any memory image and an empty code cache. |
| `NativeRun.Step` | core/src/mmu.cpp:496-551 | One memory operation, or one door and the work behind it, keeps both machines in step. |
| `NativeRun.Within` | core/src/jit.cpp:599-604 | A block starts at the entered word and falls to the next or goes where its branch says; it leaves as soon as its own fetch line is gone, so every instruction it goes on to is current, and it leaves early for no other reason. |
| `NativeRun.Door` | core/src/jit.cpp:771-804 | An entry or a hop enters a block whose line is there and holds what memory says. |
| `NativeRun.EntryWord` | core/src/jit.cpp:1981-1981 | The word entered is the one memory holds at the aligned pc. |
| `NativeRun.Sync` | core/src/mmu.cpp:521-551 | Reporting each dropped and refilled line restores the agreement of the two views. |
| `SoftFloat.UnpackValue` | core/src/softfp.cpp:110-139 | The normalised significand and exponent denote the operand's magnitude, denormals included. |
| `SoftFloat.PackExactValue` | core/src/softfp.cpp:146-154 | packExact denotes the exact value it was given. |
| `SoftFloat.KeptAtCut` | core/src/softfp.cpp:171-187 | Denormalising with a sticky jam and then reading guard, round and sticky is reading the original significand at the shifted cut. |
| `SoftFloat.RoundPackCorrect` | core/src/softfp.cpp:158-235 | For any exact value its significand and sticky stand for and any setting of OE, UE and NI, roundPack returns the correctly rounded 53- or 24-bit result, denormals, overflow, flush to zero and trap-adjusted results included, with XX, FR, UX and OX exactly when they should be. |
| `SoftFloat.RoundTrappedTiny` | core/src/softfp.cpp:167-170 | With UE set a tiny result is the value times 2^192 or 2^1536, rounded once with the exponent unbounded, with UX; below the normalised doubles the bits under 2^-1074 are cut off. |
| `SoftFloat.RoundOverflowed` | core/src/softfp.cpp:208-225 | Overflow: the rounded value divided by that power with OE set, its exponent wrapping past 2^1024; with OE clear the largest number when correct rounding in this mode never exceeds a magnitude of this sign, else infinity; with OX. |
| `SoftFloat.InfinityMeans` | core/src/softfp.cpp:208-225 | The code's choice of infinity is that question about correct rounding, put without naming a mode. |
| `SoftFloat.DeliverFlushed` | core/src/softfp.cpp:227-235 | The delivered word denotes the rounded value, or zero for a denormal under NI. |
| `SoftFloat.DeliverChopped` | core/src/softfp.cpp:146-154 | A result below the normalised doubles that reaches packExact unrounded is cut off at 2^-1074. |
| `SoftFloat.DeliverOverrun` | core/src/softfp.cpp:146-154 | One past the doubles keeps its significand, its exponent modulo 2048, and ORs the next exponent bit into the sign. |
| `SoftReach.TrapsDeliver` | core/src/softfp.cpp:167-212 | A result within reach of the target format: what an enabled trap finds is the adjusted result, rounded once and whole, and no sign is overwritten. |
| `SoftReach.AdjustmentSuffices` | core/src/softfp.cpp:167-212 | One exponent adjustment brings every such tiny or overflowed result into the range of a double. |
| `SoftReach.FmaReach` | core/src/softfp.cpp:600-739 | A nonzero a * c + b of finite numbers of one format lies within that reach, with a factor of two to spare. |
| `SoftReach.DroppedReach` | core/src/softfp.cpp:700-738 | So does the value rounded in its place where bits were dropped. |
| `SoftReach.QuotientReach` | core/src/softfp.cpp:783-840 | So does a quotient. |
| `SoftReach.DoubleHolds` | core/src/softfp.cpp:110-139 | Every finite double is a number of the double format, in units of 2^-1074. |
| `SoftReach.SingleHolds` | core/src/softfp.cpp:1042-1060 | Every loaded finite single is one of the single format, in units of 2^-149. |
| `SoftReach.FmaInFormat` | core/src/softfp.cpp:600-739 | The fused multiply-add on any operands of the target format delivers every enabled trap its adjusted result. |
| `SoftReach.DivInFormat` | core/src/softfp.cpp:783-840 | So does division. |
| `Rounding.GridRounds` | core/src/softfp.cpp:184-200 | The increment decision picks the value section 4.3 of IEEE 754-2008 demands, in all four modes. |
| `Rounding.NothingBetween` | core/src/softfp.cpp:184-200 | No representable number lies strictly between two neighbours of the rounding grid. |
| `Rounding.RoundingUnique` | core/src/softfp.cpp:184-200 | A value has only one correct rounding, and to nearest or toward zero it is the same for either sign. |
| `Rounding.SignsAgree` | core/src/softfp.cpp:184-200 | In a directed mode the two signs agree if and only if the value is representable. |
| `Rounding.SomeUp` | core/src/softfp.cpp:213-215 | To nearest, or in the direction away from zero, some magnitude is correctly rounded up. |
| `Rounding.OnlyDown` | core/src/softfp.cpp:213-215 | In every other mode and sign none is. |
| `SoftSingle.StoreAfterLoad` | core/src/softfp.cpp:1042-1075 | Storing a loaded single gives back its own word, for all 2^32 words. |
| `SoftSingle.LoadExact` | core/src/softfp.cpp:1042-1060 | A load changes neither the sign nor the value of any finite single. |
| `SoftSingle.LoadInjective` | core/src/softfp.cpp:1042-1060 | Distinct singles load as distinct doubles. |
| `SoftFormats.DoublesAre` | core/src/softfp.cpp:161-163 | The numbers of the 53-bit format up to its largest are exactly the magnitudes of the finite doubles. |
| `SoftFormats.SinglesAre` | core/src/softfp.cpp:161-163 | Those of the 24-bit format are exactly the magnitudes of the finite singles. |
| `SoftFormats.ScaleIs` | core/src/softfp.cpp:164-164 | The trap handler's exponent adjustment is three quarters of the format's exponent range. |
| `Words.Mul64Is` | core/src/softfp.cpp:237-246 | The four partial products with their carries are the 128-bit product. |
| `Words.Shl128Is` | core/src/softfp.cpp:252-257 | Shifting the pair multiplies its value, when it fits. |
| `Words.Shr128Is` | core/src/softfp.cpp:260-273 | The shifted value is the floor and the jam says exactly whether anything was lost. |
| `Words.OrIsSum` | core/src/softfp.cpp:252-273 | The bitwise OR of a multiple of 2^k and a number below 2^k is their sum. |
| `Words.Ge128Is` | core/src/softfp.cpp:280-283 | The comparison is that of the values. |
| `Words.Sub128Is` | core/src/softfp.cpp:285-288 | The wrapped subtraction is exact when it does not go below zero. |
| `Words.Add128Is` | core/src/softfp.cpp:290-300 | Sum and carry are right if and only if the addend's high word is not all ones under a low carry into a nonzero word. |
| `SoftFma.Normalise128` | core/src/softfp.cpp:275-278 | Shifting out the leading zeros loses nothing and sets bit 127. |
| `SoftFma.Align` | core/src/softfp.cpp:691-699 | Both operands at one exponent, each within its window; jam exactly when a set bit was dropped. |
| `SoftFma.AddAligned` | core/src/softfp.cpp:700-707 | Like signs: the sum, its carry folded back in, still brackets the exact value. |
| `SoftFma.SubAligned` | core/src/softfp.cpp:708-730 | Unlike signs: the exact difference with the right sign, or an exact zero. |
| `SoftFma.Accumulate` | core/src/softfp.cpp:671-732 | The accumulator brackets the exact a * c + b with its sign; where unlike signs dropped bits, a value just above the truncated difference instead, the exact one lying less than one unit below it. |
| `SoftFma.ExactIsTotal` | core/src/softfp.cpp:600-618 | The unpacked operands, after the addend's sign flip, sum to the real a * c +/- b. |
| `SoftFma.FmaFinite` | core/src/softfp.cpp:671-738 | The arithmetic part rounds that value once, for any setting of OE, UE and NI. |
| `SoftFma.FmaCore` | core/src/softfp.cpp:600-739 | For finite operands the exact a * c + b rounded once with its (optionally negated) sign, in all four modes, whenever signs agree or the alignment drops no set bit; otherwise a value just above the truncated difference is rounded, which is correct if and only if that difference is no boundary of the mode, trapped underflows included; zero results with the sign section 6.3 of IEEE 754-2008 gives them; NaNs and infinities as `SoftSpecial` states. |
| `SoftSpecial.FmaSpecialFlags` | core/src/softfp.cpp:623-656 | With an infinite or NaN operand: VXSNAN exactly for a signalling operand, VXIMZ exactly for infinity times zero, VXISI exactly for an infinite product against an infinite addend of the other sign, and nothing else. |
| `SoftSpecial.FmaSpecialMeans` | core/src/softfp.cpp:620-656 | The first NaN of frA, frB, frC is delivered quiet with its payload and sign, the default NaN for an invalid operation, and otherwise an infinity with the sign of the sum, negated on request. |
| `SoftDropped.SteadyIff` | core/src/softfp.cpp:700-738 | Deciding for just above a point instead of just below it is right if and only if the point is neither representable in a directed mode nor halfway in the nearest mode. |
| `SoftFma.DroppedTowardZero` | core/src/softfp.cpp:700-738 | Toward zero, dropped bits under a representable difference: that difference, or the largest number past it, is delivered although the exact magnitude lies below. |
| `SoftFma.OneMinusTiny` | core/src/softfp.cpp:700-738 | 1.0 * 1.0 - 2^-200 toward zero returns the word of 1.0 with XX alone, and 1.0 is not its correct rounding. |
| `SoftFma.NearestMissesFr` | core/src/softfp.cpp:700-738 | To nearest, dropped bits under a representable difference give the right value, rounded up, and leave FR clear. |
| `SoftNegate.NegatedFma` | core/src/softfp.cpp:302-302 | With and without negResult: NaNs are left alone, infinities and exact zeros negated; any other result is negated, word and flags, if and only if the mode has no direction or the exact magnitude needs no rounding, and no carry overwrote the sign. |
| `SoftNegate.NegationIff` | core/src/softfp.cpp:734-737 | The same for any rounded magnitude. |
| `SoftReach.NegatedInFormat` | core/src/softfp.cpp:302-302 | On operands of the target format, a condition on the operands and the mode alone: negated, word and flags, if and only if the sum is zero, the mode has no direction, or no bits are dropped and the exact magnitude needs no rounding. |
| `SoftNegate.FnmaddTowardPlus` | core/src/softfp.cpp:734-737 | An input where negating first differs: both words and both flag sets. |
| `SoftNegate.FlushedAlike` | core/src/softfp.cpp:232-233 | Under NI the words agree again when both roundings flush to zero. |
| `SoftDivide.DivideStep` | core/src/softfp.cpp:824-832 | One quotient bit, exact despite the wrapped doubling. |
| `SoftDivide.DivideLoop` | core/src/softfp.cpp:819-832 | a * 2^55 = q * b + rem with rem < b and q of 55 or 56 bits. |
| `SoftDivide.QuotientStands` | core/src/softfp.cpp:833-836 | The normalised quotient and sticky stand for the real quotient. |
| `SoftDivide.Div` | core/src/softfp.cpp:783-840 | For finite nonzero operands the correctly rounded quotient with its flags, traps and NI included; the special cases as `SoftSpecial` states. |
| `SoftSpecial.DivSpecialMeans` | core/src/softfp.cpp:783-815 | Without two finite nonzero operands: VXSNAN, VXIDI, VXZDZ and ZX exactly when due; NaN exactly for a NaN operand, 0/0 or infinity/infinity; infinite exactly for an infinite dividend or a zero divisor, zero for a zero dividend or an infinite divisor, with the sign of the quotient. |
| `SoftDivide.RootStep` | core/src/softfp.cpp:988-998 | Two radicand bits per step keep radicand = q * q + rem with rem <= 2 q. |
| `SoftDivide.SqrtSig` | core/src/softfp.cpp:982-1002 | q is the integer square root of the aligned radicand, in [2^55, 2^56), sticky exactly when it is not a perfect square. |
| `SoftDivide.RootStands` | core/src/softfp.cpp:1027-1035 | q and sticky stand for the real square root. |
| `SoftDivide.SqrtRound` | core/src/softfp.cpp:1025-1036 | The root inside rsqrte is the correctly rounded square root, for any OE, UE and NI. |
| `Fpscr.CommittedKeeps` | core/src/fpu.cpp:128-200 | VX and FEX are derived, each sticky bit is the old one or a raised one, none is cleared. |
| `Fpscr.CommittedRest` | core/src/fpu.cpp:181-199 | FR and FI follow the flags, FPRF the result unless it is suppressed or the instruction sets none, and the enables are left alone. |
| `Fpscr.RaisedBits` | core/src/fpu.cpp:128-143 | Which register bit each softfloat flag sets, and that a result is suppressed exactly on an enabled invalid operation or an enabled zero divide. |
| `Fpscr.SummaryBits` | core/src/fpu.cpp:53-68 | Which bits VX and FEX summarise, by register position. |
| `Fpscr.QuickIsCommitted` | core/src/fpu.cpp:159-200 | On a consistent FPSCR the one-branch path gives the general path's register. |
| `Fpscr.Fpu.Commit` | core/src/fpu.cpp:159-200 | Register, FPSCR, CR1 and trap decision are the general path's, whichever path ran. |
| `Fpscr.CompareKeeps` | core/src/fpu.cpp:293-315 | A compare clears no sticky bit. |
| `Fpscr.ComparedBits` | core/src/fpu.cpp:293-315 | VXSNAN exactly for a signalling operand, VXVC exactly for an ordered compare with a NaN that is not signalling under VE, FX on either transition, FPCC one-hot, no other bit. |
| `Fpscr.Fpu.Compare` | core/src/fpu.cpp:293-315 | The CR field is one-hot, FPCC, VXSNAN and VXVC follow the operands, derived bits hold. |
| `Fpscr.Fpu.Mcrfs` | core/src/fpu.cpp:328-338 | The field is copied, its exception bits are cleared except FEX and VX. |
| `Fpscr.Fpu.MoveFields` | core/src/fpu.cpp:340-369 | Selected fields take the new bits, FEX and VX excepted and then derived; with Rc, CR1 takes the summary bits. |
| `Fpscr.Fpu.MoveBit` | core/src/fpu.cpp:371-392 | The bit is set or cleared, FX follows a 0 to 1 transition, FEX and VX cannot be written; with Rc, CR1 takes the summary bits. |
| `Fpscr.Fpu.Step` | core/src/fpu.cpp:69-392 | No arithmetic or compare instruction clears a sticky bit. |
| `Fpscr.Fpu.Run` | core/src/fpu.cpp:69-392 | VX is the OR of the invalid bits and FEX of the enabled exceptions in every reachable state. |
| `FcmpOrder.FcmpOrders` | core/src/fpu.cpp:270-289 | For finite operands the bit-pattern comparison is the order of the real values, zeros of either sign equal. |
| `FcmpOrder.FcmpUnordered` | core/src/fpu.cpp:270-289 | Unordered exactly when an operand is a NaN. |
| `FcmpOrder.ClassifyMeans` | core/src/fpu.cpp:85-104 | The five FPRF bits: less, greater and zero as the real value is, C for a denormal of the target format, minus zero and NaN, the last for NaN and infinity. |
| `Huffman.BitIn.Take` | machine/src/cdimage.cpp:74-89 | The number spelled low bit first, if it lies inside the source; otherwise bad and zero. |
| `Huffman.BitIn.Align` | machine/src/cdimage.cpp:90-96 | The next byte boundary. |
| `Huffman.Build` | machine/src/cdimage.cpp:105-128 | Accepts exactly the length vectors whose canonical codes fit, and then files every symbol at its own place. |
| `Huffman.SortSymbols` | machine/src/cdimage.cpp:121-126 | Each used symbol lands at its rank. |
| `Huffman.PlacesDiffer` | machine/src/cdimage.cpp:121-126 | Distinct symbols have distinct places. |
| `Huffman.PrefixPast` | machine/src/cdimage.cpp:131-140 | Longer codewords start past all shorter ones, so no codeword is a prefix of another. |
| `Huffman.DecodeSound` | machine/src/cdimage.cpp:129-142 | What the table walk returns has its codeword in the stream. |
| `Huffman.Decode` | machine/src/cdimage.cpp:129-142 | A symbol's canonical codeword decodes to that symbol, consuming exactly its length whatever follows, and a returned symbol has its codeword there. |
| `Inflate.CopyBack` | machine/src/cdimage.cpp:259-262 | Byte-at-a-time copying is the LZ77 copy, overlaps included. |
| `Inflate.ReadMatch` | machine/src/cdimage.cpp:248-263 | Reads exactly a match token's four parts and applies it, or refuses. |
| `Inflate.ReadTokens` | machine/src/cdimage.cpp:238-264 | Success means some token list lies here up to the end-of-block code and was expanded; any token list that lies here and fits is what is read. |
| `Inflate.ReadRun` | machine/src/cdimage.cpp:220-233 | One code-length symbol with its repeat, clipped at the total. |
| `Inflate.ReadLengths` | machine/src/cdimage.cpp:214-234 | The run-length coded lengths, both directions. |
| `Inflate.ReadClLengths` | machine/src/cdimage.cpp:208-210 | The code-length lengths in their permuted order, both directions. |
| `Inflate.OrderIsPermutation` | machine/src/cdimage.cpp:162-163 | That order names each of the 19 symbols once. |
| `Inflate.OrderOutward` | machine/src/cdimage.cpp:162-163 | The order itself: the three run symbols and 0, then outward from 8 and 7 by turns. |
| `Inflate.LengthTable` | machine/src/cdimage.cpp:147-153 | The ranges of the length codes abut from 3 on, each as wide as its extra bits allow, and 258 has a code of its own. |
| `Inflate.DistanceTable` | machine/src/cdimage.cpp:154-161 | The ranges of the distance codes abut from 1 to 32768. |
| `Inflate.EveryMatch` | machine/src/cdimage.cpp:147-161 | So every length from 3 to 258 at every distance from 1 to 32768 can be spelt. |
| `Inflate.FixedCodes` | machine/src/cdimage.cpp:185-201 | The codewords of the fixed literal code are those of the table in section 3.2.6 of RFC 1951. |
| `Inflate.ReadDynamic` | machine/src/cdimage.cpp:202-237 | The tables of a dynamic block, both directions. |
| `Inflate.FixedFits` | machine/src/cdimage.cpp:185-201 | The fixed codes are never over-subscribed. |
| `Inflate.BuildFixed` | machine/src/cdimage.cpp:185-201 | The fixed tables are always built. |
| `Inflate.ReadStored` | machine/src/cdimage.cpp:170-182 | A stored block with its complemented length, both directions. |
| `Inflate.ReadBlock` | machine/src/cdimage.cpp:170-267 | One block of any kind, both directions. |
| `Inflate.InflateRaw` | machine/src/cdimage.cpp:145-271 | Terminates, reads only inside the source, never outputs more than cap; succeeds exactly on the streams described by `Compressed` that fit, with the expansion of their blocks. |
| `DeflateWriter.RoundTrip` | machine/src/cdimage.cpp:145-271 | Any blocks the format can spell, written to bytes and inflated, give their expansion. |
| `DeflateWriter.Written` | machine/src/cdimage.cpp:145-271 | The bytes written are a stream of exactly those blocks. |
| `DeflateWriter.AcceptedWritable` | machine/src/cdimage.cpp:145-271 | The blocks of every stream inflateRaw accepts are among them. |
| `InflateStrict.AcceptedHeader` | machine/src/cdimage.cpp:214-234 | An accepted dynamic header is strict if and only if its last run does not overshoot; no earlier run is cut, and the lengths are those RFC 1951 reads, less the overshoot. |
| `InflateStrict.AcceptedStream` | machine/src/cdimage.cpp:145-271 | So each dynamic block of an accepted stream is read as RFC 1951 reads it exactly when its header is strict. |
| `InflateStrict.OnlyLastClips` | machine/src/cdimage.cpp:220-234 | Cutting at the total never touches a run before the last. |
| `InflateStrict.OvershootAccepted` | machine/src/cdimage.cpp:214-237 | inflateRaw takes a stream whose last run overshoots, its codes complete. |
| `InflateStrict.IncompleteAccepted` | machine/src/cdimage.cpp:105-128 | It takes one whose runs are exact and whose literal code leaves code space unused. |
| `Inflate.CopiedLength` | machine/src/cdimage.cpp:259-262 | A copy adds exactly its length. |
| `HfsRecord.NameCompare` | machine/src/hfs.cpp:184-197 | Lexicographic order of the case-folded names. |
| `HfsRecord.NameOrderZero` | machine/src/hfs.cpp:184-197 | Equal exactly when the folded names are. |
| `HfsRecord.FoldCase` | machine/src/hfs.cpp:183-184 | Folding identifies a capital with its small letter and nothing else. |
| `HfsRecord.NameOrderTransitive` | machine/src/hfs.cpp:184-197 | The order is transitive, ties included. |
| `HfsRecord.Total` | machine/src/hfs.cpp:419-423 | Keys are totally ordered. |
| `HfsRecord.KeyBytes` | machine/src/hfs.cpp:338-357 | The key image: fixed width in index records, even size always. |
| `HfsRecord.LeafBack` | machine/src/hfs.cpp:426-430 | A leaf record's bytes read back as its key and data. |
| `HfsRecord.IndexBack` | machine/src/hfs.cpp:460-469 | An index record's bytes read back as its key and child. |
| `HfsRecord.FirstKeyBack` | machine/src/hfs.cpp:447-451 | The raw key cut from a leaf record still names it. |
| `HfsNode.MakeNode` | machine/src/hfs.cpp:367-387 | Header, records and offset table, each where a reader looks. |
| `HfsNode.RecordsBack` | machine/src/hfs.cpp:367-387 | A node read through its own offset table gives the records it was made from. |
| `HfsNode.PackLevel` | machine/src/hfs.cpp:391-410 | The records in order, cut greedily into non-empty nodes that fit 512 bytes with their offsets; a record too large for any node is left alone in one. |
| `HfsNode.IndexGroups` | machine/src/hfs.cpp:391-410 | Index nodes hold eleven records each, so a level of n needs ceil(n / 11) and strictly shrinks. |
| `HfsNode.LeafWeight` | machine/src/hfs.cpp:391-410 | Every leaf but the last holds at least 355 bytes of records and offsets. |
| `HfsCatalog.SortRecs` | machine/src/hfs.cpp:419-423 | A sorted permutation. |
| `HfsCatalog.BuildLeaves` | machine/src/hfs.cpp:432-454 | Leaves numbered from 1 and linked both ways, holding all records in order. |
| `HfsCatalog.IndexRecords` | machine/src/hfs.cpp:458-470 | Each child's first key re-encoded at the fixed width with its node number. |
| `HfsCatalog.BuildIndex` | machine/src/hfs.cpp:456-481 | A level of sound index nodes over the one below, covering the same records in the same order. |
| `HfsSearch.FindIs` | machine/src/hfs.cpp:432-482 | Descending by the last key not above the target finds a record exactly when one with that key lies beneath. |
| `HfsSearch.SoundGrows` | machine/src/hfs.cpp:435-505 | Adding nodes and replacing the header disturbs no subtree. |
| `HfsSearch.FindFolds` | machine/src/hfs.cpp:185-197 | Keys that compare equal find the same thing. |
| `HfsHeader.HeaderNode` | machine/src/hfs.cpp:484-505 | Every header field, the free-node count and one map bit per node in use. |
| `HfsHeader.MarkNodes` | machine/src/hfs.cpp:503-504 | Bit i of the map is set exactly for the nodes in use. |
| `HfsVolume.BuildCatalogTree` | machine/src/hfs.cpp:417-507 | For any records: searchable; the leaf chain lists them once in key order from the header's first leaf forward and, the same list, from its last leaf backward; within the file's nodes, header truthful. |
| `HfsVolume.BackChainIs` | machine/src/hfs.cpp:432-454 | Following backward links from leaf i meets exactly the records of the leaves up to it. |
| `HfsVolume.ReservationSuffices` | machine/src/hfs.cpp:743-752 | Header, leaf and index nodes never exceed 2 * ceil(R / 480) + 8. |
| `HfsVolume.FileHolds` | machine/src/hfs.cpp:751-753 | Rounding to allocation blocks loses no node. |
| `HfsVolume.EstimateBytes` | machine/src/hfs.cpp:743-748 | The byte estimate, record by record. |
| `HfsVolume.EstimatesPermute` | machine/src/hfs.cpp:743-748 | The estimate does not depend on record order, so it holds for the sorted list. |
| `HfsVolume.Catalog` | machine/src/hfs.cpp:743-819 | Built exactly when the reservation is within 2048 nodes; the outgrown-reservation refusal never fires; the result is searchable. |
| `HfsVolume.FoundIffUnambiguous` | machine/src/hfs.cpp:642-648 | Every record is found under its own key if and only if folded keys tell the records apart. |
| `HfsVolume.ScanFolder` | machine/src/hfs.cpp:642-648 | The clash check passes exactly when no two unfolded names of a folder are equal. |
| `HfsVolume.CaseClash` | machine/src/hfs.cpp:642-648 | Two files "a" and "A" pass the clash check, their catalog is built, and not every record in it can be found. |
| `OhciQueues.Transfer` | machine/src/ohci.cpp:464-567 | NAK exactly for an IN the device has nothing for; otherwise an IN stores the beginning of the answer as far as the buffer has room, a SETUP moves eight bytes and an OUT the whole buffer. |
| `OhciRam.CarriedFrame` | machine/src/ohci.cpp:570-587 | Carrying out a descriptor changes no word of any descriptor or of the HCCA but three of its own. |
| `OhciRam.LandedOne` | machine/src/ohci.cpp:464-587 | After a descriptor is carried out its data lies from its buffer pointer on, the pointer stands past it or is 0 at the end, and the completion code is 0. |
| `OhciRam.LedgerOne` | machine/src/ohci.cpp:464-587 | And no byte changes but that data and the descriptor itself. |
| `OhciRam.LedgerChain` | machine/src/ohci.cpp:590-623 | Work on some descriptors and then on others is work on all of them: what landed stays when their buffers share no byte, and nothing else changes. |
| `OhciQueues.RetireHead` | machine/src/ohci.cpp:570-587 | The head leaves its queue and heads the done list; every other list in RAM is intact. |
| `OhciQueues.Controller.DoTd` | machine/src/ohci.cpp:458-587 | Refuses exactly on a NAK, changing nothing; else retires the queue's head with its data in its buffer, changing no other byte. |
| `OhciQueues.Controller.ServeEd` | machine/src/ohci.cpp:595-620 | A prefix of the queue, reversed, joins the done list, its data in its buffers; it stops only when skipped, halted, empty, out of budget or NAKed; no other endpoint or queue and no other byte is touched, and nothing at all is when nothing moves. |
| `OhciQueues.Controller.RunList` | machine/src/ohci.cpp:590-623 | Each queue loses a prefix and exactly what left the queues is added to the done list, the data of each in its buffer; unless 64 descriptors moved, every endpoint of the list is afterwards skipped, halted, empty or NAKed. |
| `OhciQueues.Controller.HandOver` | machine/src/ohci.cpp:298-304 | The whole list is handed over once per acknowledgement, intact in RAM at HccaDoneHead. |
| `OhciQueues.Controller.Tick` | machine/src/ohci.cpp:263-305 | One frame: each queue loses a prefix, exactly what left is added to the retired descriptors and is on the done list or in the one list handed over, and what the device answered each of them is in its buffer; no other byte changes but in endpoints, those descriptors and one HCCA cell; an operational frame that retires nothing found nothing ready on any enabled list. |
| `OhciQueues.NeverLostNeverDoubled` | machine/src/ohci.cpp:263-305 | Over any history of frames and driver turns that starts fresh, the descriptors that ever left a queue are those on the done list and in the lists handed over, each as often as it left. |
| `OhciQueues.Controller.Play` | machine/src/ohci.cpp:263-305 | One legal frame or driver turn extends the recorded history by one step and keeps the account of all retirements; a frame leaves each retired descriptor's data in its buffer. |
| `OhciQueues.Controller.Run` | machine/src/ohci.cpp:263-305 | So it is over every run of the controller under a host that moves legally in every state: the run's own history is such a history and the retired descriptors are what left in it. |
| `OhciQueues.PowerUp` | machine/include/opm/ohci.hpp:338-348 | The same from power-up. |
| `OhciRuns.EveryScript` | machine/src/ohci.cpp:263-305 | Every script of moves that are legal in the states they are made in is such a host. |
| `OhciRuns.FirstRetirement` | machine/src/ohci.cpp:263-305 | A run from power-up in which the driver queues a descriptor and the next frame retires it, whatever the device answers. |
| `OhciQueues.Controller.constructor` | machine/include/opm/ohci.hpp:338-348 | A controller at power-on, over any memory laid out as required, satisfies the invariant with empty books. |
| `OhciQueues.Controller.Service` | machine/src/ohci.cpp:276-289 | The list services of one frame compose, data included; one that moves nothing found nothing ready. |
| `OhciQueues.Controller.DriverTurn` | machine/src/ohci.cpp:289-304 | Any driver change that respects the lists it does not own keeps the invariant and retires nothing. |
| `OhciQueues.FlowChain` | machine/src/ohci.cpp:590-623 | Services compose. |
| `AtapiMedium.Drive.Eject` | machine/src/ata.cpp:34-44 | The tray opens once, and a read in flight ends; a read disc is kept exactly when the guest ejects or had not read it. |
| `AtapiMedium.Drive.Insert` | machine/src/ata.cpp:46-66 | A disc that opens is present with its unit attention armed; one that does not leaves the tray empty; the read disc is kept exactly when there was none. |
| `AtapiMedium.Drive.Swap` | machine/src/ata.cpp:68-77 | Ejects and stages, or inserts at once into an empty tray; the read disc is kept exactly when there was none. |
| `AtapiMedium.Drive.Stage` | machine/src/ata.cpp:79-87 | A disc the guest has read stays in and the new one waits; otherwise it swaps. |
| `AtapiMedium.Drive.Advance` | machine/src/ata.cpp:754-768 | The staged disc goes in exactly when the absence was seen and the dwell is over, or after the fallback. |
| `AtapiMedium.Drive.FinishPio` | machine/src/ata.cpp:1112-1169 | Each chunk starts at the next block and is the longest that the byte-count limit (0 and 0xFFFF meaning 0xFE00, one block in any case), what is left and the audio allow; a read that stands on audio fails. |
| `AtapiMedium.Drive.ReadThrough` | machine/src/ata.cpp:991-1169 | A READ and the drains after it serve exactly the blocks asked for, each once and in order, up to the first audio block, where the command fails. |
| `AtapiMedium.OnceInOrder` | machine/src/ata.cpp:1112-1169 | In the log of any run, between one READ and the next, blocks are served from the first asked for on, each once and in order, never more than asked. |
| `AtapiMedium.Drive.Tray` | machine/src/ata.cpp:945-964 | START STOP UNIT: eject by the guest, or reload with a fresh unit attention unless a disc is staged. |
| `AtapiMedium.Drive.Issue` | machine/src/ata.cpp:902-1001 | Unit attention first, absence second, then the command's own outcome; a READ serves its longest first chunk from the block asked for and is left with the rest, or fails on audio. |
| `AtapiMedium.Drive.Run` | machine/src/ata.cpp:34-964 | In every run no medium command succeeds between an insertion and its unit attention, and every chunk served is the next of its READ; a read disc stays until the guest's eject if and only if no host eject, insert or swap came while the guest held one, and then no read mixes discs; staging alone always keeps it. |
| `AtapiMedium.Life` | machine/src/ata.cpp:34-964 | The same from power-on, with or without a disc attached. |
| `AtapiMedium.SwapDisplaces` | machine/src/ata.cpp:68-77 | hostSwap does not give the guarantee: a read, then a swap, with the log they leave. |
| `AtapiMedium.Drive.Step` | machine/src/ata.cpp:34-964 | One operation breaks the guarantee exactly when it is a host eject, insert or swap and hostStage's own test would have refused. |
| `AtapiMedium.KeptSnoc` | machine/src/ata.cpp:79-87 | One more event keeps the promise exactly when it displaces no held disc. |
| `AtapiMedium.OpsApart` | machine/src/ata.cpp:106-130 | Reads are medium commands the drive carries out, which all need the medium; the commands that work on an empty tray are apart from them. |
| `AtapiMedium.NotOwed` | machine/src/ata.cpp:906-911 | Once no announcement is owed, every insertion has a unit attention after it. |
| `AtapiMedium.NotHeld` | machine/src/ata.cpp:79-87 | Once no read disc is held, every block served has a guest eject after it. |
| `Dbdma.Channel.Advance` | machine/src/dbdma.cpp:368-406 | The status word is written with nothing left over and the channel follows the list's own branch. |
| `Dbdma.Channel.Output` | machine/src/dbdma.cpp:270-295 | The sink gets the next bytes; the channel moves on exactly when all of them have moved. |
| `Dbdma.Channel.Run` | machine/src/dbdma.cpp:194-411 | What the sink holds is always the list's own stream up to where the channel stands, nothing it has passed stops a list, and only finished descriptors are reported; ACTIVE falls only at a STOP, and at an unknown command with DEAD; a call that finds a movable descriptor and a byte of room moves a byte or finishes one. |
| `Dbdma.FieldsOf` | machine/src/dbdma.cpp:220-390 | Command, count and branch field lie where the descriptor layout puts them; the quad commands never branch. |
| `Dbdma.MovablePasses` | machine/src/dbdma.cpp:227-380 | A channel moves on by itself exactly over what does not stop a list. |
| `Dbdma.BytesAt` | machine/src/dbdma.cpp:270-284 | The bytes of a buffer lie one after another, round the top of memory. |
| `Dbdma.Channel.Start` | machine/src/dbdma.cpp:158-163 | A fresh list starts at the head of its first descriptor. |
| `Dbdma.Channel.Wake` | machine/src/dbdma.cpp:188-192 | A wake resumes where the channel stands. |
| `Dbdma.Channel.Poke` | machine/src/dbdma.cpp:153-157 | So does a control write with WAKE. |
| `Dbdma.Channel.Flush` | machine/src/dbdma.cpp:108-152 | FLUSH ends the descriptor with its residual, the one way a status word appears early. |
| `Dbdma.Session` | machine/src/dbdma.cpp:188-411 | Whatever prefixes the sink takes and however often it is woken, bytes arrive once and in order. |
| `Dbdma.Delivers` | machine/src/dbdma.cpp:188-411 | As many wakes with a byte of room as the first n descriptors have bytes and descriptors finish all n, when each can move. |
| `Dbdma.StreamGrows` | machine/src/dbdma.cpp:188-411 | Later states extend earlier ones. |
| `Dbdma.EmptyOutputParks` | machine/src/dbdma.cpp:270-288 | A zero-count OUTPUT descriptor parks the channel for good. |

## Left out

- SqrtRound: the reciprocal that rsqrte forms from the root is an estimate and is not modelled.
- MemRead: write-through, cache-inhibited and DCE-off accesses, dcbi and l2WipeAll are not modelled; they are deliberately not transparent.
- L1FlushAll: the writeback=false form discards data on purpose and is not modelled.
- LineLoadBE: the width-specialised byte-swap arms are modelled by the general byte loop they must equal; so are those of LineStoreBE.
- LineWayQuiet: the SIMD compare is modelled by the scalar loop beside it.
- Line ages are compared as the source compares them, on clocks that wrap modulo 2^32; nothing is claimed about how good the replacement choice is after a wrap.
- L2 resizing, the inert-L2 diagnostic, watchpoints and censuses in core/src/cache.cpp.
- Translation in core/src/mmu.cpp: fetches start from the physical address.
- Emit: x86 bytes are not modelled; the emitter is a parameter that places entries and sites as the layout comment in core/src/jit.cpp requires, and the hop counters and direct-call accounting are dropped.
- Host floating-point fast paths, res, rsp's host arm and fctiw in core/src/softfp.cpp.
- BuildCatalogTree: std::sort is modelled by an insertion sort with the same guarantee; the item scan, fork placement and the volume's other structures are not modelled.
- Catalog: the estimate is one sum over all records, where the source adds files separately; its 32-bit casts cannot truncate because catalog ids are 32 bits.
- InflateRaw: the zlib wrapper and chunk tables around it. `DeflateWriter` models no code of the repository; it is the inverse inflateRaw is measured against.
- NativeRun.Run: an instruction's own memory operations contain no instruction fetch, as in the source; what registers hold is not modelled: which way a branch inside a line goes is part of the run.
- Controller.Run: who owns which descriptor is kept in fields beside the registers, which the source does not have, so that the host of a run can act on it.
- DoTd: what an OUT or a SETUP hands to the device is not modelled; what the device answers (descriptors, reports, address changes) is a parameter; pointer sums past 2^32 are not wrapped; root-hub timers are not modelled.
- Tick: the three device answers are fixed for one list service; a descriptor is attempted once per service.
- Issue: reply bytes, task-file registers, interrupts and the deferred-command delay are not modelled; PREVENT is recorded and never enforced, as in the source, and the no-door-lock experiment is dropped.
- Channel.Run: the model fixes descriptors, buffers and the branch condition for a session, as its claim does; INPUT descriptors meet a device that supplies nothing, interrupts and STORE_QUAD/LOAD_QUAD data are not modelled.
- AltiVec, integer execution, decoding, disassembly and the smaller device models: each settled by one branch or table.
