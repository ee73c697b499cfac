# HiStar user library and exporter: models and proofs

A Dafny model of the algorithmic core of HiStar's user-level library (`lib/`) and of
its distributed exporter (`dj/`), with proofs about whole runs of it.
`dafny verify dfyconfig.toml` checks everything; the files need nothing else.

**The address-space mapper** (`Mappings`, `MapScan`, `MapInstall`, `AddressSpace`,
`MapRuns`, `Munmap`). `lib/segment.c` keeps a write-back cache of the kernel's table of
mappings. An unmap may be delayed: the cached entry is marked, the kernel is told
later. `AddressSpace.MapCache` is that cache as an object, with a kernel whose calls may
fail at any time, or, if it is `reliable`, only for a slot that does not exist or a table that
does not fit; then no run panics, and no call fails but for what was asked. In every run of maps, unmaps, range unmaps, lookups and flushes the
kernel's table is the cached entries in use (up to the delayed bit), kernel slots are
distinct and address ranges are disjoint. A map without a requested address takes back a
delayed entry of the same mapping, if there is one, and otherwise goes to the first fit; it
is never refused as busy. The kernel-slot search ends at the least free slot. A replacing map appends at most two entries and changes no
translation outside its range, but for the other pages of a mapping that it takes over
whole: those go. `munmap` on top of it removes exactly the pages asked for.

**Speaks-for delegation** (`Delegation`, `DjProt`). The depth-bounded search for a chain
of signed delegations, with its conjunctive `via` edge, decides exactly the least
fixpoint of the speaks-for rules. A delegation whose signer does not speak for a
category changes no answer about it. The exporter's message handling enforces this on
every send and receive, over all orders of sends, receptions and connection events: every
callback of a message sent fires once; every message is written at most once, to its own
destination, in order, and only if that destination may see it under the delegations it was
sent with; what is delivered is what was received or sent here, and passed its checks.

**Concurrency** (`Mutex`, `Semaphore`, `JLinkData`, `JLink`, `DirSegment`). Step relations
in which loads and the stores that depend on them are separate steps,
over any number of threads, with a schedule as a sequence of moves. The mutex excludes
and loses no wake-up; the semaphore runs on the mutex's own steps, conserves its units,
loses no post and fails exactly the calls that must fail; the link delivers every byte and
every packet in order, gives every call the answer it is due and lets nobody oversleep; a lock-free directory reader only accepts a committed slot.

**Labels** (`Labels`, `Gate`). The sparse entry array with slot reuse stands for a total
function from handles to levels; comparison, merge and transformation are pointwise, and
merges are least upper and greatest lower bounds. `gate_compute_labels` computes the
least target label and clearance that its sources demand.

**Kernels** (`Sha1`, `HashTable`, `MemMove`, `Blowfish`, `Numbers`). SHA-1 in a circular
schedule and in chunks against FIPS 180-4, hashing with tombstones against finite maps,
overlapping word-wise moves, Feistel inverses, and an overflow-exact number parser that
inverts the printer.

## Where the code does not do what it is for

Each of these is kept in the model as the code has it, with a proof of when it matters.

- A replacing map files the parts of a split entry under kernel slot `nent`
  (`lib/segment.c:691`, `lib/segment.c:709`). The tables stay in step exactly when no entry
  owns that slot (`Mappings.AppendStep`, `MapScan.BreakExact`); `MapScan.SplitLosesPage` is a
  table in which a page is lost. Every run keeps slots below the entry count as
  long as the cache is kept (`MapRuns.Run`); reading a table again does so exactly when
  the table has no gap (`Mappings.RereadSlotsBelow`, `Mappings.RereadBreaksSlotsBelow`).
- A full upload writes the delayed bit into the kernel, and taking back a delayed entry
  skips the upload (`lib/segment.c:839-846`). After that, dropping the cache and reading
  it again loses the mapping (`AddressSpace.TakenBackIsLost`, and a run that gets there in
  `AddressSpace.LostMapping`); `Mappings.RereadPreservesMaps` says exactly when.
- A read of a kernel table that fails half way is followed by a write-back of what was read
  into the address space that the cache held (`lib/segment.c:159-172`). That one keeps its
  mappings exactly when nothing marked as delayed was read over an entry, with a slot in use
  there (`AddressSpace.FailedReadKeeps`, `AddressSpace.FailedReadUnmaps`).
- `munmap` of pages at the start of a mapping unmaps by address, so that an empty mapping at
  the same address may go in its place and the pages stay (`Munmap.UnmappedFirst`,
  `Munmap.PageSurvives`).
- Splitting an entry with reversed pages moves the pages that it keeps, in the mapper
  (`MapScan.BreakMapsExactly`) and in `munmap` (`Munmap.ChunkedRemoves`).
- A packet read into too small a buffer returns with the link's lock held
  (`lib/jcomm.cc:117-118`); from then on nothing moves (`JLink.LeakIsForever`).
- A stream read of no bytes can take away the flag of a writer about to sleep
  (`JLink.EmptyReadOversleeps`), and a stream write of no bytes that of a reader
  (`JLink.EmptyWriteOversleeps`). Packet writes of more than 8992 bytes, which are let in
  up to 9000, wait for room that never comes (`JLinkData.NeverRoom`).
- The generation of a directory slot after 2^64 - 1 updates is the mark of a slot being
  written, so that no reader is let go before the next update
  (`DirSegment.UndisturbedIsAccepted`).
- The time test of an address certificate wraps in 32 bits: one valid from time 0, or up to the
  end of time, is not current (`DjProt.CurrentMeans`).
- The generation numbers of a directory slot come round after 2^64 updates; a reader can
  then accept the name of one entry with the id of another (`DirSegment.TornAfterWrap`).
- A put of a key that lies behind a tombstone stores it twice (`HashTable.PutUnsafe`,
  and a run from an empty table in `HashTable.PutTwice`). It is still found with its last
  value (`HashTable.RunAny`), but a delete then brings an older value back
  (`HashTable.DelFound`, `HashTable.ComesBack`).
- Probes that wrap around 2^64 miss a slot unless the capacity divides it
  (`HashTable.CoverCondition`).
- A label assigned to itself loses its entries (`Labels.Label.Assign`).
- The 61-bit cipher shifts by 29 where it needs 31: it inverts only the values in
  `Blowfish.RoundTrip61` and `Blowfish.TakenBack61` and maps pairs of values to one
  (`Blowfish.Collision61`).

## Model

| member | source | states |
|---|---|---|
| `Mappings.ClearStep` | lib/segment.c:66-77 | clearing an entry in the cache and its kernel slot keeps the kernel table equal to the cached entries in use |
| `Mappings.OverwriteStep` | lib/segment.c:818-821 | a new mapping over an entry in use, at that entry's kernel slot, keeps the tables in step |
| `Mappings.FillStep` | lib/segment.c:822-837 | a mapping in an empty entry keeps the tables in step if and only if no entry in use owns its kernel slot |
| `Mappings.AppendStep` | lib/segment.c:681-721 | an appended part of a split entry keeps the tables in step if and only if no entry in use owns the kernel slot it is filed under |
| `Mappings.DelayStep` | lib/segment.c:362-404 | marking an entry for a later unmap, or unmarking it, keeps the tables in step without a kernel call |
| `Mappings.OverlapsMeans` | lib/segment.c:652-656 | the test of the ends of two ranges, if neither is empty, finds exactly the ranges that share a page |
| `Mappings.DisjointFromCoherent` | lib/segment.c:150-175 | the cached ranges are pairwise disjoint if and only if the kernel's are |
| `Mappings.RefreshCoherent` | lib/segment.c:150-175 | a cache just read is in step with the kernel and resolves every page as the kernel does |
| `Mappings.RereadPreservesMaps` | lib/segment.c:839-867 | dropping a flushed cache and reading it again keeps every translation if and only if no live entry with pages is marked delayed in the kernel |
| `Mappings.RereadSlotsBelow` | lib/segment.c:150-175 | after a re-read every kernel slot is below the entry count if and only if no slot below a used one is free |
| `Mappings.RereadBreaksSlotsBelow` | lib/segment.c:150-175 | a concrete kernel table with a gap, after whose re-read a kernel slot is not below the entry count |
| `MapScan.PartsTranslate` | lib/segment.c:681-721 | outside the new range the parts of a split forward entry translate every page as the entry did |
| `MapScan.StepKeep` | lib/segment.c:735-736 | the scan's invariant over an entry that is empty or not in the way |
| `MapScan.StepMatch` | lib/segment.c:660-665 | the scan's invariant when a replacement finds the live entry it takes over |
| `MapScan.StepDelayed` | lib/segment.c:738-746 | the scan's invariant over a delayed entry that may stay, whichever slot eviction prefers |
| `MapScan.StepUnmap` | lib/segment.c:747-763 | the scan's invariant when a second delayed entry in the range is unmapped at once |
| `MapScan.BreakMaps` | lib/segment.c:666-725 | breaking up an entry in the way keeps all translations outside the range |
| `MapScan.BreakMapsExactly` | lib/segment.c:666-725 | in a disjoint table it does so if and only if the entry does not stick out of the range or its pages are not reversed |
| `MapScan.BreakDisjoint` | lib/segment.c:666-725 | breaking up an entry keeps the ranges pairwise disjoint |
| `MapScan.BreakCuts` | lib/segment.c:572-580 | at most one part is cut off on either side, so at most two entries are appended |
| `MapScan.StepBreak` | lib/segment.c:666-725 | the scan's invariant when a live entry in the way is broken up |
| `MapScan.BrokenIsForward` | lib/segment.c:666-725 | an entry that is broken up in a replaceable table finds the slots of its parts free, because their owners, if any, were broken up before it |
| `MapScan.BreakExact` | lib/segment.c:681-763 | breaking up an entry keeps cache and kernel in step if and only if no entry in use, itself included, owns a slot that one of its parts is filed under |
| `MapScan.SplitLosesPage` | lib/segment.c:681-763 | a concrete kernel table with a gap: replacing the middle page of a mapping loses the page behind it |
| `MapInstall.SlotIsSafe` | lib/segment.c:786-808 | the chosen slot is within the table grown by at most two, holds nothing live but an exact match, and leaves nothing else in the way |
| `MapInstall.MatchedMaps` | lib/segment.c:660-725 | outside the range a scan that takes over a match keeps every translation of the other entries |
| `MapInstall.InstalledMaps` | lib/segment.c:786-851 | after installing, pages in the range resolve to the new mapping and pages outside as before, less those of an exact match that was taken over, whatever else was broken up in the range |
| `MapInstall.InstalledDisjoint` | lib/segment.c:848-851 | a mapping written where nothing else overlaps keeps the ranges disjoint |
| `MapInstall.PlainIsFree` | lib/segment.c:652-733 | a plain map that gets through the scan had no live entry in its range |
| `MapInstall.LeastFreeSlot` | lib/segment.c:823-836 | the kernel-slot search ends: its slot number never exceeds the number of entries in use |
| `AddressSpace.SearchAdvances` | lib/segment.c:594-625 | every retry of the address search leaves strictly fewer entries ending at or after the start |
| `AddressSpace.ChosenIsFree` | lib/segment.c:589-626 | an address that was searched for or taken back is free of live entries in a disjoint table |
| `AddressSpace.MapCache.Flush` | lib/segment.c:60-78 | every delayed entry is cleared on both sides and no other kernel slot is touched, every other entry stays, the tables stay in step, or the process panics, which it never does from tables in step with a reliable kernel |
| `AddressSpace.MapCache.Invalidate` | lib/segment.c:80-85 | the cache is empty; in the table of the address space it held only slots of delayed entries were emptied, and no other table changed |
| `AddressSpace.MapCache.Refresh` | lib/segment.c:150-175 | the cache holds the address space asked for, with what its table says, or none; of the tables only the one that was held before lost slots: those of delayed entries, or, if the read failed, also those of marked entries that were read; a reliable kernel's table is read whenever it fits |
| `AddressSpace.FailedReadKeeps` | lib/segment.c:159-172 | after a failed read the address space that was held keeps its mappings if and only if no entry read over its entries is marked as delayed with a slot in use there |
| `AddressSpace.FailedReadUnmaps` | lib/segment.c:159-172 | a concrete pair of tables: one that does not fit into the cache, with a marked entry, unmaps a live page of the other |
| `AddressSpace.MapCache.UnmapAt` | lib/segment.c:361-404 | exactly the first live mapping that starts at the address goes, now or delayed; an error means there was none, or that the kernel failed |
| `AddressSpace.MapCache.UnmapRange` | lib/segment.c:316-359 | exactly the live mappings inside the range go, now or delayed; with a reliable kernel it succeeds for every table that fits |
| `AddressSpace.MapCache.Lookup` | lib/segment.c:450-485 | a live mapping that covers the page without the skipped flags, or the proof that there is none |
| `AddressSpace.MapCache.LookupObject` | lib/segment.c:487-519 | whether a live mapping of an object is left |
| `AddressSpace.MapCache.FindAddress` | lib/segment.c:589-626 | the address of the first delayed entry of the same mapping, if there is one, and otherwise the lowest address from which on the range, with a page to spare on either side, meets no entry in use; the search ends |
| `AddressSpace.MapCache.FreeSlot` | lib/segment.c:823-836 | the least kernel slot that no entry in use owns |
| `AddressSpace.PlacedByRule` | lib/segment.c:735-808 | a map that replaces nothing takes the slot of the first delayed entry in its range, else, with more than four delayed, that of a delayed one, else the last empty one or a new one; the other delayed entries in the range go and no other entry changes |
| `MapScan.BreakFits` | lib/segment.c:691-722 | if there are slots for the parts on each side that is cut anywhere in the table, there are slots for those of the entry at hand |
| `AddressSpace.MapCache.BreakEntry` | lib/segment.c:666-725 | the entry gives way to its parts outside the range, in the cache and in the kernel, which stay in step if and only if no entry in use owns the parts' slots |
| `AddressSpace.MapCache.Scan` | lib/segment.c:648-766 | the whole second pass: what it clears, splits and finds, and that it ends although splitting appends entries; busy only for a plain map with a live entry in its range; with a reliable kernel no other failure, if a replacement is safe and has room for its parts |
| `AddressSpace.MapCache.Upload` | lib/segment.c:848-870 | the new entry is in cache and kernel, with all slots renumbered if the kernel's table had to grow, and the tables stay in step |
| `AddressSpace.MapCache.Install` | lib/segment.c:810-870 | the same, including the case in which nothing has to be uploaded |
| `AddressSpace.MapCache.Map` | lib/segment.c:527-884 | a successful map resolves exactly the new range to the new mapping and every other page as before, less the pages of an exact match that it takes over; without a requested address it is where `FindAddress` says, and in the slot that `PlacedByRule` says; it keeps the tables in step and, for plain maps, disjoint; it is never busy without a requested address in a disjoint table; it lacks room exactly when less than three slots of the cache are left; a failed map that replaces nothing costs the kernel only delayed entries; with a reliable kernel it fails for no other reason, and a safe replacement succeeds if and only if the parts it cuts off have slots |
| `AddressSpace.TakenBackIsLost` | lib/segment.c:839-867 | in any disjoint table, a delayed entry that is taken back after a full upload needs no upload, leaves the tables in step, and is lost at the next re-read |
| `AddressSpace.LostMapping` | lib/segment.c:839-867 | a concrete run: an unmap is delayed, a map falls back to the full upload, the delayed mapping is mapped again; the tables are in step and a re-read loses the mapping |
| `MapRuns.FlushedFits` | lib/segment.c:60-85 | what a flush leaves of the table of a cached address space fits into the cache again |
| `MapRuns.Step` | lib/segment.c:60-884 | any one call, whatever fails in it, keeps the tables in step and disjoint, and kernel slots below the entry count if they were so in the cache or the table it reads has no gap; with a reliable kernel only maps fail for want of room or as busy, and the table keeps fitting |
| `MapRuns.Run` | lib/segment.c:60-884 | so does every sequence of calls, whatever fails, from an empty cache too: kernel slots are below the entry count whenever the table last read had no gap, and only maps at a requested address are refused as busy; with a reliable kernel no run panics and no call fails for another reason |
| `Munmap.ChunksTranslate` | lib/mmap.c:156-189 | the left and the right chunk translate exactly the pages not unmapped |
| `Munmap.ChunkedRemoves` | lib/mmap.c:156-189 | replacing a mapping by its two chunks removes exactly the pages asked for if and only if its pages are not reversed or nothing is cut off it |
| `Munmap.MapRight` | lib/mmap.c:163-179 | mapping the right chunk over the mapping leaves the mapping and all other translations as they were |
| `Munmap.ShrinkLeft` | lib/mmap.c:181-189 | shrinking the mapping to its left chunk, or dropping it, leaves the two chunks |
| `Munmap.UnmappedFirst` | lib/mmap.c:187-189 | unmapping by address leaves the chunks if the first live mapping there has pages; otherwise exactly the unmapping of no pages is right, and a right chunk is left overlapping |
| `Munmap.PageSurvives` | lib/mmap.c:187-189 | a concrete table with an empty mapping before a page at the same address: unmapping the page removes the empty mapping |
| `Munmap.Munmap` | lib/mmap.c:118-205 | a successful `munmap` of pages inside one mapping removes exactly their translations if and only if the cut is clean (`ChunkedRemoves`) or, where an empty mapping comes first at the address, if and only if there are no pages to remove; the segment of an anonymous mapping is released if and only if no mapping of it is left; with a reliable kernel and three slots to spare, every `munmap` of whole pages of a readable mapping succeeds, unless it would cut one that is not anonymous |
| `Delegation.SearchSound` | dj/djkey.cc:51-82 | at any depth, what the search finds is in every set closed under the speaks-for rules |
| `Delegation.DeeperFinds` | dj/djkey.cc:51-82 | a deeper search finds whatever a shallower one finds |
| `Delegation.ReachGrows` | dj/djkey.cc:60-79 | until the search stops finding new keys, every level of depth adds one |
| `Delegation.ReachConverges` | dj/djprot.cc:172 | with depth equal to the number of delegations nothing is left to find |
| `Delegation.SearchExact` | dj/djkey.cc:51-82 | at that depth the search is true if and only if the key is in the least fixpoint of the rules, `via` premises included |
| `Delegation.SignerSpeaksFirst` | dj/djkey.cc:15-49 | the signer of a delegation that can be used speaks for the category already |
| `Delegation.SignerFoundEarlier` | dj/djkey.cc:51-82 | a delegation used at some depth has a signer found at one depth less |
| `Delegation.UnauthorisedIsInert` | dj/djkey.cc:104-132 | inserting a verified delegation whose signer does not speak for a category changes no answer for it, although the depth bound grows |
| `Delegation.VerifyStmtExact` | dj/djkey.cc:15-49 | whose signature a statement of each kind needs |
| `Delegation.AcceptableExact` | dj/djkey.cc:104-120 | the map takes in exactly the delegations to keys that are signed by the key they go through or, without one, by the key they delegate or that owns the category they delegate |
| `Delegation.DelegationMap.Contains` | dj/djkey.cc:122-127 | whether an entry from the first one of the key on carries the signature |
| `Delegation.DelegationMap.Insert` | dj/djkey.cc:104-132 | exactly verified delegations to keys, with a new signature, are added, in their place in the order |
| `Delegation.FromSet` | dj/djkey.cc:84-95 | the map of a set holds only accepted delegations, and all of them if signatures identify statements |
| `DjProt.LabelcheckSend` | dj/djprot.cc:157-180 | true only if the destination is local or speaks for every secrecy category of the taint; exact if signatures identify statements |
| `DjProt.LabelcheckRecv` | dj/djprot.cc:182-223 | the same for the sender and every integrity, grant and clearance category |
| `DjProt.CurrentMeans` | dj/djprot.cc:266-268 | the address of a certificate is used exactly within its span, five seconds wider at either end, unless that wraps in 32 bits |
| `DjProt.FindConnNewest` | dj/djprot.cc:243 | the connection found for a key is the newest one to it |
| `DjProt.Exporter.ClntDone` | dj/djprot.cc:225-232 | a client is told at most once and leaves the queue |
| `DjProt.Exporter.ProcessMsg` | dj/djprot.cc:335-358 | only messages addressed here, with a backend, from a sender that may send them, are delivered |
| `DjProt.Exporter.ClntTransmit` | dj/djprot.cc:234-279 | the five outcomes of a transmission; a connect is only ever tried for a client that still listens |
| `DjProt.Exporter.Send` | dj/djprot.cc:119-138 | the callback fires exactly once before the call returns, and the message is refused, delivered here, written, or queued, accordingly |
| `DjProt.Exporter.Lost` | dj/djprot.cc:480-511 | when a connection fails or goes down, it alone leaves the connections, the others in order, and exactly the clients waiting for its key are dropped, without a second callback; what was submitted stays on record |
| `DjProt.Exporter.Ready` | dj/djprot.cc:513-525 | when a connection comes up, exactly the clients waiting for its key are written to it, in order; what was submitted stays on record |
| `DjProt.RecordHonours` | dj/djprot.cc:119-279 | the record that every call keeps implies all promises below |
| `DjProt.OrderlySend` | dj/djprot.cc:119-279 | a send keeps messages to one destination in order: it is written at once only if none waits for that destination |
| `DjProt.OrderlyReady` | dj/djprot.cc:513-525 | so does a connection that comes up: it leaves none waiting for its key |
| `DjProt.OrderlyLost` | dj/djprot.cc:480-511 | and one that goes down |
| `DjProt.Handle` | dj/djprot.cc:119-537 | one event: what it submits, what it delivers and whether it has to, and the order it keeps |
| `DjProt.Run` | dj/djprot.cc:119-537 | in every run the submissions are the messages and delegation sets of its send events, in order; each callback fires exactly once, in order; each message is written at most once, to a connection of its own destination that has come up and not gone down, which may see it under its own delegations, in order of sending for each destination, and waits only without a connection; the deliveries are those of its events that passed their checks, in order |
| `Mutex.StepSafe` | lib/jthread.c:12-46 | one step of any thread keeps the invariant and is a legal step of a lock |
| `Mutex.StepWakes` | lib/jthread.c:20-45 | no step leaves a sleeper without a marked word or a wake-up still to be issued |
| `Mutex.RunSafe` | lib/jthread.c:12-46 | in every schedule the invariant holds, unlocking never panics, and acquisitions and releases alternate |
| `Mutex.MutualExclusion` | lib/jthread.c:12-46 | at most one thread is between lock and unlock |
| `Mutex.NobodyLeftAsleep` | lib/jthread.c:12-46 | while a thread sleeps, some thread holds the lock or is about to wake all sleepers |
| `Mutex.TriersNeverWait` | lib/jthread.c:26-34 | a thread that only tries to lock never waits, and each try succeeds if and only if nobody holds the lock |
| `Mutex.WaiterSleeps` | lib/jthread.c:12-23 | in every run, a thread that finds the lock taken and is not interrupted is asleep after three steps, with the word marked; one that finds it free is inside after one |
| `Semaphore.StepInStep` | lib/semaphore.c:33-83 | every step of a semaphore call is a step of the mutex or one load or store while holding it |
| `Semaphore.StepNothingStale` | lib/semaphore.c:38-78 | between the test of the value, the load and the store nobody else stores, because the mutex excludes |
| `Semaphore.StepBalanced` | lib/semaphore.c:56-78 | a store is one up or down from the value, because what was loaded is not stale, and the call that makes it is one that will return 0 |
| `Semaphore.StepNoLostPost` | lib/semaphore.c:68-83 | no step leaves a sleeper with units available and nobody about to wake it |
| `Semaphore.RunGood` | lib/semaphore.c:33-83 | every schedule of waits, trywaits and posts keeps the whole invariant |
| `Semaphore.Conservation` | lib/semaphore.c:33-83 | the value is the initial one plus the posts that returned 0 less the waits that did, up to calls on their way out, never negative and never above 2147483647 |
| `Semaphore.CallsJustified` | lib/semaphore.c:33-83 | in every schedule a finished post failed if and only if it saw the value 2147483647, a trywait if and only if it saw 0, and a wait never; each saw what it changed |
| `Semaphore.SleepersAreWoken` | lib/semaphore.c:33-83 | a thread asleep while the value is positive is about to be woken by a thread that holds the lock |
| `Semaphore.WakerWakes` | lib/semaphore.c:78-81 | that thread's next two steps leave nobody asleep |
| `JLinkData.NeverRoom` | lib/jcomm.cc:148-157 | a packet write can never proceed if and only if it exceeds the buffer less the header |
| `JLinkData.RoomMeans` | lib/jcomm.cc:33-43 | a stream write is let in with 128 bytes free of 9000, a packet write with room for itself and its 8 bytes of header |
| `JLinkData.RoundTrip` | lib/jcomm.cc:115-117 | the bytes of a header read back as the length that was written |
| `JLinkData.FramesAppend` | lib/jcomm.cc:188-193 | a written packet goes behind the packets in the buffer |
| `JLinkData.Ring.CopyFrom` | lib/jcomm.cc:45-57 | the first bytes of the ring's contents, across the wrap, and the place behind them |
| `JLinkData.Ring.CopyTo` | lib/jcomm.cc:59-70 | bytes go behind the contents, across the wrap, and the contents stay |
| `JLinkData.Ring.ReadPacket` | lib/jcomm.cc:114-124 | the whole first packet and the others left, or nothing if it does not fit |
| `JLinkData.Ring.ReadStream` | lib/jcomm.cc:125-129 | as many bytes as asked for, or all there are, in order |
| `JLinkData.Ring.WritePacket` | lib/jcomm.cc:188-193 | the packet is appended whole |
| `JLinkData.Ring.WriteStream` | lib/jcomm.cc:194-199 | the longest prefix that fits is appended; a PIPE_BUF-sized write is never cut |
| `JLink.LockedStep` | lib/jcomm.cc:82-208 | whoever is in a critical section has the lock |
| `JLink.FreshStep` | lib/jcomm.cc:82-208 | between copying bytes and storing the new count nobody else changes the buffer, because of the lock |
| `JLink.SafeStep` | lib/jcomm.cc:82-208 | no step overflows the buffer, loses, repeats or reorders a byte, or reads a torn packet |
| `JLink.CallsJustified` | lib/jcomm.cc:82-208 | in every interleaving each finished call has the answer it is due: as many bytes as asked for or there are, or as fit; end of file only of a shut link, a refusal only of a call that is not to wait, without bytes or room; and the bytes reported are those that moved |
| `JLink.ShutByShutters` | lib/jcomm.cc:394-421 | in every interleaving a link is shut once a shutter has done its work, and not without one |
| `JLink.SleepsExactly` | lib/jcomm.cc:98-110 | a wait sleeps exactly while there are no bytes, or no fewer than the writer saw, and the link is open; a wait that fails ends the call |
| `JLink.HoldersGetOn` | lib/jcomm.cc:82-208 | in every run, each step of a reader or a writer that holds the lock brings it nearer to giving it up or returning, which takes at most eight |
| `JLink.StreamDelivers` | lib/jcomm.cc:82-208 | in every interleaving the bytes returned followed by those in the buffer are the bytes accepted |
| `JLink.PacketsDeliver` | lib/jcomm.cc:82-208 | in every interleaving packet reads have returned whole packets in the order they were written |
| `JLink.AwakeStep` | lib/jcomm.cc:82-208 | no step breaks the wake-up invariant of either side |
| `JLink.NobodyOversleeps` | lib/jcomm.cc:82-208 | neither side sleeps once its condition holds, or the link is shut, unless somebody is about to wake it |
| `JLink.ShutterStillWakes` | lib/jcomm.cc:394-421 | whoever shuts a link keeps a wake-up to issue until nobody sleeps |
| `JLink.LeakCondition` | lib/jcomm.cc:114-118 | a packet read returns with the lock held if and only if the next packet is longer than its buffer |
| `JLink.LeakIsForever` | lib/jcomm.cc:114-118 | after that no byte moves and nobody is let in, whatever anybody does |
| `JLink.EmptyReadOversleeps` | lib/jcomm.cc:125-134 | a concrete run with a stream read of no bytes that ends with a writer asleep over an empty buffer and nobody to wake it |
| `JLink.EmptyWriteOversleeps` | lib/jcomm.cc:194-204 | a concrete run with a stream write of no bytes that ends with a reader asleep over a byte in the buffer and nobody to wake it |
| `DirSegment.StepGood` | lib/fs_dir_dseg.cc:84-180 | one step of the writer or of any reader keeps every reader's copy of one state as long as its generation stands |
| `DirSegment.ReaderStepGood` | lib/fs_dir_dseg.cc:111-115 | a copy is accepted only of the state that has been current ever since the reader began |
| `DirSegment.AcceptsExactly` | lib/fs_dir_dseg.cc:111-115 | a copy is accepted if and only if the generation is what it was and not the busy mark |
| `DirSegment.UndisturbedIsAccepted` | lib/fs_dir_dseg.cc:111-115 | with no update since it began a reader is let go with its copy, unless the count of updates has come to the busy mark |
| `DirSegment.AcceptedIsCommitted` | lib/fs_dir_dseg.cc:84-180 | in every interleaving with fewer than 2^64 updates an accepted copy is, byte for byte, one committed state |
| `DirSegment.TornAfterWrap` | lib/fs_dir_dseg.cc:111-115 | with 2^64 removals and insertions in turn it need not be: a reader accepts an entry that was never committed, the old name with the new id |
| `DirSegment.CommitsAreUpdates` | lib/fs_dir_dseg.cc:84-150 | each committed state is the one before it with all of one update's stores |
| `DirSegment.InsertCommits` | lib/fs_dir_dseg.cc:124-150 | an insert commits the name, padded, the id and the mark that it is in use |
| `DirSegment.InsertBytes` | lib/fs_dir_dseg.cc:124-150 | the bytes of the slot after an insert: id, mark, name, zeros behind it, the last byte as it was |
| `DirSegment.RemoveCommits` | lib/fs_dir_dseg.cc:84-98 | a remove commits the same entry, not in use |
| `Labels.CodeRoundTrip` | inc/label.h:17-22 | handle and level of an entry read back |
| `Labels.EveryWordCodes` | inc/label.h:17-22 | every 64-bit word is the code of one handle of 61 bits and one level |
| `Labels.Overwrite` | lib/cpplabel.cc:65-81 | reusing a slot that says no more than the default changes one handle's level and no other's |
| `Labels.StarloIsTotal` | lib/cpplabel.cc:265-275 | the order with `*` lowest is total, and that of the numbers on the other levels |
| `Labels.StarhiIsTotal` | lib/cpplabel.cc:277-287 | the order with `*` highest is too |
| `Labels.MergersMean` | lib/cpplabel.cc:253-263 | max and min give the higher and the lower of two levels in either order |
| `Labels.MaxIsLub` | lib/cpplabel.cc:228-257 | a merge with max is the least upper bound of two labels |
| `Labels.MinIsGlb` | lib/cpplabel.cc:228-263 | a merge with min is the greatest lower bound |
| `Labels.Label.Set` | lib/cpplabel.cc:124-129 | one handle's level is set and every other level stays; the entries stay within their array, which grows as the source says; it fails exactly for a new handle in a label over a given array without a place or an entry at the default, which stays as it was |
| `Labels.Label.Assign` | lib/cpplabel.cc:131-140 | the label represents the same function as its source; assigned to itself it keeps only its default |
| `Labels.Label.Compare` | lib/cpplabel.cc:202-226 | 0 if and only if the comparison holds at every handle and at the default |
| `Labels.Label.Merge` | lib/cpplabel.cc:228-241 | the result is the pointwise combination at every handle and at the default |
| `Labels.Label.Transform` | lib/cpplabel.cc:243-251 | every handle's level and the default are changed by the function |
| `Labels.ULabel.SetLevel` | lib/label.c:59-76 | the second implementation sets one level and no other, and fails exactly for a new handle in a full label that may not grow or for which there is no memory, leaving it as it was |
| `Labels.ULabel.GetLevel` | lib/label.c:78-86 | the level that the label's function has at the handle |
| `Labels.ULabel.Compare` | lib/label.c:142-164 | 0 if and only if the comparison holds at every handle and at the default |
| `Labels.ULabel.ChangeStar` | lib/label.c:132-140 | every `*`, and a `*` default, becomes the new level and nothing else changes |
| `Gate.TargetLevelPromised` | lib/gateinvoke.cc:23-39 | in numbers: at one handle the target level is the least at or above the caller's, the gate's own, which ds may lower, and cs, and it is `*` if and only if gate, ds or cs is |
| `Gate.ClearLevelPromised` | lib/gateinvoke.cc:41-59 | in numbers: at one handle the clearance is the least at or above that of the gate, dr and the target if dr is given, and 3 where caller and target are `*` |
| `Gate.MergeInto` | lib/gateinvoke.cc:26-27 | a merge through a temporary label is the pointwise combination in place |
| `Gate.GateComputeLabels` | lib/gateinvoke.cc:16-59 | both promises hold at every handle and at the default |
| `Sha1.SwapBytes` | lib/sha1.c:15-18 | the rotate-and-mask of a word loaded on a little-endian machine is the big-endian word |
| `Sha1.MixIsF` | lib/sha1.c:28-33 | the source's choice and majority formulas are Ch and Maj of section 4.1.1 of FIPS 180-4 |
| `Sha1.ExpandIsW` | lib/sha1.c:25-26 | the circular buffer of 16 words yields the 80-word schedule of section 6.1.2 |
| `Sha1.CircularStep` | lib/sha1.c:25-26 | the buffer keeps the last 16 words of the schedule |
| `Sha1.Round` | lib/sha1.c:28-33 | a macro on rotated registers is one round on the working variables |
| `Sha1.StepMeans` | lib/sha1.c:28-33 | a round with its rotations as multiplications and divisions of words |
| `Sha1.CombineMeans` | lib/sha1.c:25-26 | the same for the schedule |
| `Sha1.KRoots` | lib/sha1.c:28-33 | the round constants are the square roots of 2, 3, 5 and 10 times 2^30, rounded down |
| `Sha1.H0Counts` | lib/sha1.c:93-107 | the initial hash value counts up and down in its digits |
| `Sha1.Transform` | lib/sha1.c:42-91 | the unrolled transform is the compression function of section 6.1.2 |
| `Sha1.CountAdds` | lib/sha1.c:115-116 | the two 32-bit counts with their carry count the bits modulo 2^64 |
| `Sha1.PadZerosFewest` | lib/sha1.c:141-144 | the padding loop adds the fewest zeros, as section 5.1.1 asks |
| `Sha1.Bytes32Means` | lib/sha1.c:136-140 | the bytes of a count are its digits in base 256, the highest first |
| `Sha1.WordBytesJoin` | lib/sha1.c:146-149 | the digest's bytes are its words, the highest byte first |
| `Sha1.DigestRoundTrip` | lib/sha1.c:146-149 | the five words of a hash value are read back from the bytes of its digest |
| `Sha1.Context.Update` | lib/sha1.c:109-127 | the context has absorbed the message so far followed by the chunk |
| `Sha1.Context.Pad` | lib/sha1.c:141-144 | the padding loop ends and appends the bit and the zeros |
| `Sha1.Context.Final` | lib/sha1.c:131-155 | the digest of everything absorbed, with the padding of section 5.1.1; its bytes read as words are the last hash value |
| `Sha1.HashChunks` | lib/sha1.c:93-155 | any chunking gives the digest of the concatenation |
| `HashTable.CoverCondition` | lib/hashtable.c:123-124 | the probes reach every slot if and only if they do not wrap around 2^64 or the capacity divides it |
| `HashTable.ProbeMeans` | lib/hashtable.c:123-124 | the first probe looks where the hash says and each at the next slot |
| `HashTable.PlaceLeft` | lib/hashtable.c:119-128 | with a slot left and probes that reach it the search for a place succeeds |
| `HashTable.SearchReaches` | lib/hashtable.c:151-159 | a search for a present key meets it before any free slot, past tombstones |
| `HashTable.FoundIfThere` | lib/hashtable.c:141-161 | where every slot can be reached a search finds a key if and only if some slot has it |
| `HashTable.PutSafe` | lib/hashtable.c:122-138 | a put updates the table like a map if the key is absent or met before a tombstone |
| `HashTable.PutUnsafe` | lib/hashtable.c:122-138 | otherwise the key is in the table twice |
| `HashTable.PutFound` | lib/hashtable.c:122-138 | after a put the key is found with its value and every other key as before, stored twice or not |
| `HashTable.DelFound` | lib/hashtable.c:163-187 | a delete hides the key if and only if it was there once, and no other key |
| `HashTable.Table.Put` | lib/hashtable.c:108-139 | in any table: the size stays the number of slots with keys, every error has its exact condition, the assertion fails if and only if every probe meets another key, the entry goes into the first slot that can take it, the key is then found with its value and every other key as before; a table with every key once is updated like a map if and only if the key is absent or met first |
| `HashTable.Table.Get` | lib/hashtable.c:141-161 | what a search finds, and in a table with every key once the value of the key |
| `HashTable.Table.Del` | lib/hashtable.c:163-187 | in any table: the size stays the number of slots with keys, a tombstone takes the first slot of the key, every other key is found as before, and the key is not found any more if and only if it was there once |
| `HashTable.Table.IterNext` | lib/hashtable.c:231-247 | the next slot that holds a key |
| `HashTable.Table.Iterate` | lib/hashtable.c:223-247 | an iteration yields every slot with a key, as many as the size; every key exactly once with its value if it is there once |
| `HashTable.Run` | lib/hashtable.c:108-187 | in every run that puts only absent keys every call answers as a finite map does |
| `HashTable.RunAny` | lib/hashtable.c:108-187 | in every run of any puts, gets and deletes the size is the number of slots with keys, the assertion fails only for a key whose probes miss a slot, and a key put and not deleted since is found with its last value |
| `HashTable.PutTwice` | lib/hashtable.c:108-187 | a run from an empty table of two slots after which one key is stored twice |
| `HashTable.ComesBack` | lib/hashtable.c:108-187 | a run after which a deleted key is found with a value that a later put had replaced |
| `MemMove.MovedUp` | lib/memmove.c:72-96 | copying upwards towards lower addresses never reads a byte already overwritten |
| `MemMove.MovedDown` | lib/memmove.c:97-119 | nor does copying downwards towards higher addresses |
| `MemMove.ToAlignUp` | lib/memmove.c:76-88 | words are left over only if both operands are aligned behind the first bytes |
| `MemMove.ToAlignDown` | lib/memmove.c:103-113 | the same from the end |
| `MemMove.Memmove` | lib/memmove.c:53-123 | the destination is what the source was and nothing else changes, for every overlap, alignment and length |
| `Blowfish.FMeans` | lib/bf60.c:33-38 | each byte of a word looks up its own table, the highest the first |
| `Blowfish.BlendCancels` | lib/bf60.c:33-38 | the first two entries are added, the third taken bit by bit, the fourth added (with `BlendAdds` and `BlendInverts`) |
| `Blowfish.StepBack` | lib/bf60.c:47-53 | two deciphering rounds take back two enciphering rounds, up to the subkeys |
| `Blowfish.Encipher` | lib/bf60.c:40-57 | the loop of every encipherment is the cipher with the subkeys in order |
| `Blowfish.Decipher` | lib/bf60.c:59-76 | the loop of every decipherment is the cipher with the subkeys reversed |
| `Blowfish.CipherInverse` | lib/bf60.c:40-76 | for any tables and masks the reversed cipher with swapped masks is the inverse |
| `Blowfish.RoundTrip64` | lib/bf60.c:217-253 | 64-bit enciphering and deciphering invert each other on every value |
| `Blowfish.RoundTrip60` | lib/bf60.c:137-175 | on 60 bits they invert each other on exactly the values of 60 bits |
| `Blowfish.RoundTrip61` | lib/bf60.c:177-215 | on 61 bits deciphering gives a value back if and only if its bits from 29 on (30 of them) equal its bits from 31 on |
| `Blowfish.RoundTrip61Back` | lib/bf60.c:177-215 | enciphering gives back the low 61 bits of what was deciphered if and only if the deciphered value is one of those |
| `Blowfish.TakenBack61` | lib/bf60.c:177-215 | which is so if and only if what was deciphered is the encipherment of a value that can be taken back |
| `Blowfish.Small61` | lib/bf60.c:177-215 | so it does for values below 2^29 |
| `Blowfish.Collision61` | lib/bf60.c:180-181 | two values that differ in bit 59 alone have the same encipherment |
| `Blowfish.Bf60Encipher` | lib/bf60.c:137-155 | the 60-bit encipherment, and that it can be taken back |
| `Blowfish.Bf60Decipher` | lib/bf60.c:157-175 | the 60-bit decipherment, and that it can be taken back |
| `Blowfish.Bf61Encipher` | lib/bf60.c:177-195 | the 61-bit encipherment, and when it can be taken back |
| `Blowfish.Bf61Decipher` | lib/bf60.c:197-215 | the 61-bit decipherment, and when it can be taken back |
| `Blowfish.Bf64Encipher` | lib/bf60.c:217-234 | the 64-bit encipherment, and that it can be taken back |
| `Blowfish.Bf64Decipher` | lib/bf60.c:236-253 | the 64-bit decipherment, and that it can be taken back |
| `Blowfish.CategoryIdsDiffer` | dj/mapcreate.cc:96 | category ids made at different values of the counter differ, until it has turned once |
| `Numbers.TableIsQuotient` | lib/strtou64.c:4-6 | the overflow table holds the quotients of 2^64 - 1 by the bases 2 to 35 |
| `Numbers.OverflowTest` | lib/strtou64.c:37-59 | the overflow condition holds if and only if the next value needs more than 64 bits |
| `Numbers.ReadDigits` | lib/strtou64.c:41-62 | the exact value of the whole run of digits if it is below 2^64, a range error if and only if it is not |
| `Numbers.Strtou64` | lib/strtou64.c:8-74 | white space, sign, prefix and base as the source has them, and then the value, the error and the end of the digits |
| `Numbers.Reads` | lib/strtou64.c:8-74 | a string of white space, sign, prefix, digits and a rest is read as the number of the digits, in the base that prefix, first digit and argument mean, or as a range error |
| `Numbers.DigitsAre` | lib/strtou64.c:45-52 | which characters are digits, and their values |
| `Numbers.NumeralValue` | lib/printfmt.c:34-35 | the printed digits have the number as their value |
| `Numbers.SixtyFourDigits` | lib/printfmt.c:32-37 | 64 digits, of a buffer of 68, are enough |
| `Numbers.PrintNum` | lib/printfmt.c:27-49 | the digits, highest first, with the padding on the right side |
| `Numbers.RoundTrip` | lib/strtou64.c:8-74 | what was printed, padded or not, is read back as the same number |
| `Numbers.PrintAndRead` | lib/printfmt.c:27-49 | printing and then reading gives back every 64-bit number in every base from 2 to 16 |

## Left out

- AddressSpace.MapCache.Map: a replacing map over a range that also holds a delayed entry is not promised anything, because the scan forgets the delayed entry (`lib/segment.c:724`); the same for a range in which live entries overlap each other, and for a split of reversed pages or without room for the parts (`MapScan.BreakExact`). Growing the cache (`cache_uas_grow`) is not modelled: a cache without two spare slots is an error.
- Munmap.Munmap: the pages must lie in one live mapping that is not at address 0, which the library never maps at (it asks for a search); at an address that is not mapped the source goes on with an uninitialised mapping.
- Mappings.RereadPreservesMaps: the kernel's own permission checks and its limit on slots are a call that may fail.
- JLink.NobodyOversleeps: stream requests for no bytes are excluded; `JLink.EmptyReadOversleeps` and `JLink.EmptyWriteOversleeps` show why for reads and for writes.
- JLink.SafeStep: takes the mutex as a lock, which is what `Mutex.RunSafe` shows its client to see.
- Sha1.Context.Update: chunks of more than 2^32 - 64 bytes, for which `j + len` wraps, are excluded, and so is the wiping of the context.
- Numbers.Strtou64: base 36 is excluded, because the table ends at 35.
- Labels.Label.Set: a label that may grow always finds memory; the exception for a failed allocation (`lib/cpplabel.cc:98-102`) is not modelled, here and in the operations built on it.
- Labels.Label.Merge: an output that is one of the operands, which the reset at the start would empty, is excluded.
- Labels.ULabel.SetLevel: the 32-bit size of a label is not bounded.
- HashTable.Run: puts of present keys are in `HashTable.RunAny`; entries kept in pages (`hash_ent`) are one array.
- DjProt.Run: callbacks do not call the exporter again, callbacks are not null, and the address cache with its expiry timer is an arbitrary input.
- Delegation.SearchExact: signatures are facts that a key signed a statement; time stamps are not read, as in the source.
- Delegation.FromSet: two statements under one signature are taken for one, so the map may hold fewer delegations than the set; it never holds more.
- Addresses of the mapper are page numbers, so that sums of addresses and sizes do not wrap.
- `segment_unmap_kslot`, `segment_set_utrap` and `mmap` itself: the same walks over the same table.
- `hash2` and the key schedule of Blowfish: the results hold for any hash function and any tables.
- Parsing and printing labels, and sockets, pipes, ELF loading, fork and exec: input and output.
