# Verified models of the demos

A Dafny model of the parts of this repository that hold state, loops or a protocol, with proofs
of what they promise. `dafny verify dfyconfig.toml` checks everything.

- **Log follower** (`KlogFollower`, `KlogRuns`). `klog_read_new` reads the kernel log into one of
  two 512-byte buffers, finds the line remembered in the other buffer, writes what follows it, and
  remembers the new last line. The class `Follower` keeps both buffers as arrays. `KlogRuns` says for
  whole runs on an append-only log when the output is exactly what was appended.
- **Start barrier and semaphore** (`StartRace`). Module init and n racers, one shared access a step,
  any interleaving, any spawn failure: safety, no deadlock, and termination under weak fairness.
- **Memory device driver** (`MemdevDriver`, `MemdevRace`, `MemdevSections`, `MemdevOrder`,
  `MemdevProgress`, `MemdevExit`). Each entry point as a method on the nested lists, the counter and the
  page references; then any number of them interleaved at every access: conservation laws, the critical
  sections as the methods, which orders of calls reach a freed file state, that every call ends, and
  what exit can still find listed.
- **Page-table walk** (`PageWalk`, `PageSplit`, `Pagemap`). The five-level walk against the set of
  extents a table tree maps, the effect of splitting a huge page, and pagemap decoding.
- **CPU lists** (`CpuList`, `Decimal`). The parser against the language of lists, with the C
  library's number parsing as ISO C11 section 7.22.1.4 (`strtoul`) and section 7.22.1.2 (`atoi`) define it.
- **Layered configuration** (`ConfigFile`, `ConfigLayers`, `ConfigSources`). Line splitting and
  trimming in buffers, the order of the sources, the documented priority, and what the texts of the
  sources load.
- **Packets over a byte stream** (`TlvStream`), with short and failed reads and writes.
- **Size printing** (`SizeText`).
- `Sums`, `Arith` and `Wrappers` hold helper lemmas and the Option type.

Where the source updates state, a method does too, and its contract ties the new state to a
specification function; the theorems about whole runs are lemmas on those functions.

## What does not hold

Several promises hold only under a condition. For each there is a lemma that says exactly when it
holds, and one that gives an input where it fails:

| promise | exactly when | a failing input |
|---|---|---|
| A call of the log follower prints exactly the new text. | `RunPrintsNewText`: every window is `Recognisable`. | `EmptyRoundWitness`: after a call with nothing to print, the window is printed again. `StaleTailWitness`: a shorter window is printed with the tail of an older one. |
| Nothing but the window and the log decides the output. | `StaleTailPrinted` | `StaleTailWitness` |
| The walk agrees with the flat map of present leaves. | `WalkRefinesFlatMap`: the entry that serves the address is readable. | `SwappedPteWitness`: a PTE neither none nor present is decoded. `BadLeafWitness`: a present huge leaf that is bad is not. |
| `vma_close` removes exactly the regions of its process and address. | `ClosedIsExact`: there is at most one. | `DuplicateMappingWitness` |
| An exit that passes its check finds no region listed when it takes dev_lock. | `ExitMayFindRegions`, and from the moment of the check `CheckMissesRegions`: no region is listed or left listed by the holder of dev_lock, and no mmap under way can still list one. If mmaps may start, never (`ExitMayFindNewRegions`), unless dev_lock is held for ever. | `ExitRaceWitness`: an mmap has listed its region but not counted it. `LateMmapWitness`: an mmap lists its region after the check. |
| Every call finds its file state. | `StrandsExactly`: exit frees no file that a call still needs. | `StrandedReleaseWitness` |
| After a failed receive the next one starts at a packet. | `FailedRecvKeepsFraming`: nothing was read. | `DesynchronisedWitness`: a packet is returned that was never sent. |
| The rendering of every mask is read back. | `CanonicalRoundTrip`: the mask is not empty. | the empty mask |
| The configuration file is chosen with the priority of the other options (table in linux-c/config-demo/README.md). | `FileReadIsDocumented` for the file read, `ReportedIsDocumented` for the name reported. | `ConfigFileWitness`: the variable alone and the long option are reported but not read, the short option is read but not reported, a bare `-c` hides the variable. |

The last row is a disagreement between the documentation and the code, and the model follows the
code: the prescan runs before the environment source and sees only the separate `-c FILE`
(linux-c/config-demo/cli_source.c:11-13), and the short option is declared without argument
(linux-c/config-demo/cli_source.c:25). Address, port, log level and debug do follow the table (`Load`).

## Model

| member | source | states |
|---|---|---|
| KlogFollower.StrLen | linux-c/klog-demo.c:93 | strlen stops at the NUL behind the text and returns the distance to it. |
| KlogFollower.Matches | linux-c/klog-demo.c:74-77 | The inner match loop finds exactly an occurrence of the remembered line, and never reads past the first NUL behind the text. |
| KlogFollower.FindStart | linux-c/klog-demo.c:72-89 | The boundary search yields the position after the first occurrence in the window, or the start of the buffer when nothing is remembered or found; reads stay within the first NUL. |
| KlogFollower.ScanBack | linux-c/klog-demo.c:105-107 | The backward loop stops at the start of the window's last line, and never below the start of the printed text. |
| KlogFollower.Follower.Fill | linux-c/klog-demo.c:63-69 | A window replaces the start of the next buffer; a longer older text keeps its tail, and the other buffer and the remembered line are untouched. |
| KlogFollower.Follower.Scan | linux-c/klog-demo.c:70-102 | What is written is everything in the buffer from the search result on. |
| KlogFollower.Follower.Turn | linux-c/klog-demo.c:94-111 | The buffers swap, and the remembered line is the last line printed (nothing after an empty round); it lies in the buffer not overwritten next. |
| KlogFollower.Follower.ReadNew | linux-c/klog-demo.c:57-114 | One call: return value, output and both buffers' texts and the remembered line afterwards; a failed read changes nothing. |
| KlogRuns.LastLineOfSuffix | linux-c/klog-demo.c:104-108 | A whole-line suffix of a log has the same last line as the log, so the window suffices to find it. |
| KlogRuns.OldLineInPlace | linux-c/klog-demo.c:70-82 | When the window reaches back before the new text, the old last line lies right before the new text in it. |
| KlogRuns.PrintedExactly | linux-c/klog-demo.c:69-102 | For any buffer contents: the text printed is a given text if and only if the buffer ends in it, right behind the first occurrence of the old line that starts in the window (or altogether when there is none). |
| KlogRuns.RoundPrintsNewText | linux-c/klog-demo.c:69-102 | On any window of the log and any older buffer contents, one call prints exactly the text appended since the previous call if and only if the window is recognisable: without a stale tail, it holds new text only and no copy of the old line, or it reaches the old line and holds no earlier copy. |
| KlogRuns.RoundRemembersLastLine | linux-c/klog-demo.c:94-111 | After any call on a window of the log, right or wrong, stale tail or not, the remembered line is the last line of the log, or none when nothing was printed. |
| KlogRuns.LastLineIs | linux-c/klog-demo.c:104-108 | The last line of whole lines and one more line is that line with its newline. |
| KlogRuns.EachCallExactly | linux-c/klog-demo.c:57-114 | Call by call in any run, wrong outputs included: before each call the old line is none or the last line of the log so far, and the call prints exactly the new text if and only if its window is recognisable. |
| KlogRuns.FirstRoundInBounds | linux-c/klog-demo.c:59-69 | The first call stays in its buffer if and only if it delivers at most 511 bytes. |
| KlogRuns.RunPrintsNewText | linux-c/klog-demo.c:57-114 | Over any number of calls on an append-only log, with windows of any sizes, each call prints exactly the text appended before it if and only if every window is recognisable. |
| KlogRuns.RecognisableRunInBounds | linux-c/klog-demo.c:93-107 | A recognisable run never leaves the buffers: strlen meets a NUL and the backward scan starts inside the printed text, in every round. |
| KlogRuns.NothingLostNothingRepeated | linux-c/klog-demo.c:57-114 | From the initial state, the concatenation of all outputs is the first window followed by all text appended since. |
| KlogRuns.FollowTurn | linux-c/klog-demo.c:57-114 | The follower object, in a recognisable run, prints exactly the new text and is ready for the rest of the run. |
| KlogRuns.NoStaleTail | linux-c/klog-demo.c:63-69 | The buffer holds exactly the window if and only if the window is not shorter than what it held. |
| KlogRuns.EmptyRoundForgets | linux-c/klog-demo.c:94-100 | After a round with nothing to print, the next round prints its whole buffer whatever it holds, and that is the window alone if and only if the window leaves no stale tail. |
| KlogRuns.EmptyRoundWitness | linux-c/klog-demo.c:94-100 | Three calls with one line appended once print it, nothing, and then the same line again. |
| KlogRuns.StaleTailPrinted | linux-c/klog-demo.c:63-102 | For every buffer and window: earlier contents do not show in the output if and only if the window is at least as long, or the old line runs on into the stale tail and the rest of that spells the window. |
| KlogRuns.StaleTailWitness | linux-c/klog-demo.c:63-102 | Three calls that each deliver one new line; the third also prints the tail of the first. |
| StartRace.StepInv | kernel-module/semaphore/semaphore_demo.c:38-109 | Every step of init or of a racer keeps the counts of ready racers, holders, semaphore and module references, and what each racer's position says about the shared word. |
| StartRace.ActionFinal | kernel-module/semaphore/semaphore_demo.c:46-58 | Once the shared word leaves WAIT it has its final value, whatever steps follow. |
| StartRace.LastRacerStarts | kernel-module/semaphore/semaphore_demo.c:46-51 | Once all n racers are ready and none is about to announce it, the shared word is RACE, however far init has got. |
| StartRace.Safety | kernel-module/semaphore/semaphore_demo.c:38-109 | In every reachable state, for every n: no racer races while another aborts, at most one is between down and up, the violation branch is not taken, semaphore count plus holders is 1, and module references equal live racers plus a spawn in progress. |
| StartRace.FinalState | kernel-module/semaphore/semaphore_demo.c:54-108 | When all are done: every spawn succeeded and all n raced alone, or one failed and all spawned racers aborted; the semaphore is up and no module reference is left. |
| StartRace.StepDecreases | kernel-module/semaphore/semaphore_demo.c:46-108 | Every step other than spinning decreases a natural number. |
| StartRace.RunBounded | kernel-module/semaphore/semaphore_demo.c:46-108 | A run takes at most the initial measure (11n + 2) of steps. |
| StartRace.SomeoneCanMove | kernel-module/semaphore/semaphore_demo.c:52-83 | No deadlock: unless all are done, init or some racer has a step other than spinning. |
| StartRace.EveryFairRaceEnds | kernel-module/semaphore/semaphore_demo.c:38-109 | Every infinite execution that is weakly fair reaches a state in which all raced or all aborted and no reference is left. |
| MemdevDriver.Driver.FreeMappedRegion | kernel-module/memdev/memdev.c:95-107 | Every page of the region is freed once, in order, and the counter goes down by one. |
| MemdevDriver.Driver.Open | kernel-module/memdev/memdev.c:158-181 | The new file is in front; the number of listed regions and every page's references stay; ids are unique afterwards if and only if they were and the id is new. |
| MemdevDriver.Driver.VmaClose | kernel-module/memdev/memdev.c:124-152 | The nested search unlinks the first matching region, frees its pages and counts it out, or changes nothing. |
| MemdevDriver.ClosedIsExact | kernel-module/memdev/memdev.c:134-145 | Wherever it sits in the nested lists, vma_close removes precisely the regions of that process and address if and only if there is at most one. |
| MemdevDriver.DuplicateMappingWitness | kernel-module/memdev/memdev.c:134-145 | With two mappings of one process and address, vma_close leaves the older one listed. |
| MemdevDriver.Driver.Release | kernel-module/memdev/memdev.c:183-202 | All regions of the file and the file itself are gone, its pages freed in order, every other file's list unchanged. |
| MemdevDriver.Driver.FreeAll | kernel-module/memdev/memdev.c:190-193 | The freeing loop empties one file's list, frees its pages in order and counts each region out. |
| MemdevDriver.Driver.Mmap | kernel-module/memdev/memdev.c:204-289 | Each outcome exactly: success links one region and counts it; every failure leaves lists and counter alone and frees exactly the pages granted, in reverse, each of them once. |
| MemdevDriver.Driver.FreePages | kernel-module/memdev/memdev.c:284-288 | The error path frees the granted pages from the last one down, each as often as it was granted. |
| MemdevDriver.Driver.Exit | kernel-module/memdev/memdev.c:369-389 | Refused with no change when the counter is positive; otherwise every region is freed and counted out and the list is empty. |
| MemdevDriver.UnlinkAccounts | kernel-module/memdev/memdev.c:134-145 | Unlinking a region takes exactly one region and exactly its page references off the lists. |
| MemdevDriver.LinkedThere | kernel-module/memdev/memdev.c:271-273 | A mapped region is first in its own file's list, behind it the old regions, and every other file is as before. |
| MemdevDriver.CloseUndoesLink | kernel-module/memdev/memdev.c:134-145 | If no region of that process and address was listed, vma_close finds the new one in the file it was mapped from and restores the lists. |
| MemdevDriver.ReleaseAfterLink | kernel-module/memdev/memdev.c:188-194 | Releasing the file frees the new region's pages first, and leaves the other files as they were before the mapping. |
| MemdevDriver.ReversedAt | kernel-module/memdev/memdev.c:284-286 | The error path of mmap frees the k-th page from the end as its k-th. |
| MemdevDriver.PagesOfFilesTimes | kernel-module/memdev/memdev.c:381-388 | The pages freed by exit are, counted page by page, those the lists held. |
| MemdevRace.StepInv | kernel-module/memdev/memdev.c:95-389 | Every interleaved step keeps the counter law, the lock law and one reference for each page. |
| MemdevRace.Conservation | kernel-module/memdev/memdev.c:95-389 | Over every interleaving of steps on file states that are still there, failures included: each page handed out is listed once, or carried by one call, or was freed once; the counter is listed regions minus mmaps before their increment plus regions unlinked but not yet counted out. |
| MemdevRace.MutualExclusion | kernel-module/memdev/memdev.c:132-151 | In every reachable state at most one thread is inside dev_lock. |
| MemdevRace.Quiescent | kernel-module/memdev/memdev.c:95-289 | With no call running, the counter is the number of listed regions and every page is listed once or was freed once. |
| MemdevRace.LockProtectsLists | kernel-module/memdev/memdev.c:132-202 | While a thread is inside dev_lock, no other thread's step changes the lists. |
| MemdevSections.SectionIsAtomic | kernel-module/memdev/memdev.c:132-202 | From any point inside dev_lock, whatever runs in between, a thread leaves the lists, frees the pages in the order, and lowers the counter as its uninterrupted remainder would. |
| MemdevSections.VmaCloseIsAtomic | kernel-module/memdev/memdev.c:132-151 | An interleaved vma_close has the lists, freed pages and count of Driver.VmaClose. |
| MemdevSections.ReleaseIsAtomic | kernel-module/memdev/memdev.c:188-195 | An interleaved release has the lists, freed pages and count of Driver.Release for its own file. |
| MemdevSections.ExitIsAtomic | kernel-module/memdev/memdev.c:380-389 | An interleaved exit past its check has the lists, freed pages and count of Driver.Exit. |
| MemdevSections.MmapIsAtomic | kernel-module/memdev/memdev.c:235-288 | An interleaved mmap either links one region, with its own process, address and size and all its new pages, into its own file, and counts it; or frees the pages granted, last first, and does nothing else. |
| MemdevOrder.StrandsExactly | kernel-module/memdev/memdev.c:158-389 | Under the kernel's rules for files, a step takes the file state from under a call if and only if it is exit freeing a file that a call still needs. |
| MemdevOrder.EveryoneProceeds | kernel-module/memdev/memdev.c:132-389 | While every call has its file state, every unfinished call can act or waits for one inside dev_lock that can. |
| MemdevOrder.SteadyByReferences | kernel-module/memdev/memdev.c:162-200 | If exit starts only with no file open and no file is opened during it, as the module references see to, no call loses its file state, and exit runs on an empty list. |
| MemdevOrder.NobodyStranded | kernel-module/memdev/memdev.c:95-389 | Over every interleaving under the kernel's rules for files in which no exit passes its check, or module references are respected, every unfinished call can act or waits for one inside dev_lock that can. |
| MemdevOrder.StrandedReleaseWitness | kernel-module/memdev/memdev.c:183-202 | A run in which exit frees the file state of a release, which then holds dev_lock with no step to take. |
| MemdevProgress.NextCost | kernel-module/memdev/memdev.c:95-389 | Every step of every call lowers one natural number, to which each new call adds an amount fixed by its size. |
| MemdevProgress.StepsBounded | kernel-module/memdev/memdev.c:95-389 | Over every interleaving, the steps taken and what is left to do do not exceed what was to be done at the start plus what the calls made since have added. |
| MemdevProgress.EveryCallEnds | kernel-module/memdev/memdev.c:95-389 | Under the kernel's rules for files, with no exit past its check or module references respected: the steps taken are bounded by the sizes of the calls made, and when no step is left every call has finished. |
| MemdevRace.ExitCheckExact | kernel-module/memdev/memdev.c:374-378 | Exit passes its check if and only if listed regions plus regions being freed do not exceed the mmaps before their increment. |
| MemdevRace.NothingLeftToFree | kernel-module/memdev/memdev.c:380-389 | With no mmap on its way and none starting, lists without regions stay so, whatever else runs. |
| MemdevRace.QuietExit | kernel-module/memdev/memdev.c:374-388 | The case with no mmap under way: such an exit either changes nothing, or finds no region on any list as long as no mmap starts. |
| MemdevRace.ExitRaceWitness | kernel-module/memdev/memdev.c:271-275 | A run in which exit passes its check while a region is listed. |
| MemdevExit.ExitMayFindRegions | kernel-module/memdev/memdev.c:374-388 | From any state in which exit is past its check: some run without a new mmap brings it to take dev_lock with a region listed if and only if a region is listed, or left listed by the holder of dev_lock, or an mmap that can still succeed is under way on a file that stays listed. |
| MemdevExit.CheckMissesRegions | kernel-module/memdev/memdev.c:374-388 | The same from the moment of the check: exit passes and can find a region if and only if the counter lets it pass and regions are ahead. |
| MemdevExit.ExitMayFindNewRegions | kernel-module/memdev/memdev.c:374-388 | When mmaps may start after the check, exit can always find a region, if and only if dev_lock is not held for ever. |
| MemdevExit.LateMmapWitness | kernel-module/memdev/memdev.c:235-275 | A run in which exit passes its check with nothing listed and nothing waiting to be counted, and takes dev_lock with a region listed. |
| PageWalk.Lookup | kernel-module/mm/page_table/page_table_walker.c:93-132 | One level: the entry the address selects, where it lies, and whether the walk goes on. |
| PageWalk.EntryPlaces | kernel-module/mm/page_table/page_table_walker.c:94-146 | The entry addresses reported: eight bytes each, inside the table's page, in index order and without overlap. |
| PageWalk.Query.WalkTables | kernel-module/mm/page_table/page_table_walker.c:72-132 | The five levels with their early exits give the entries, addresses, level count and physical address of the recursive walk. |
| PageWalk.Query.QueryPageTable | kernel-module/mm/page_table/page_table_walker.c:60-155 | The whole result record, field by field: level count, five entry addresses, five values and the physical address; an entry pointer is non-null exactly if its level was visited; a missing process leaves the record untouched and returns -3. |
| PageWalk.ReportsVisited | kernel-module/mm/page_table/page_table_walker.c:90-151 | An entry pointer is reported non-null if and only if its level was visited. |
| PageWalk.PaFits | kernel-module/mm/page_table/page_table_walker.c:111-132 | The shifted frame number plus offset does not overflow. |
| PageWalk.WalkEndsAtLast | kernel-module/mm/page_table/page_table_walker.c:93-132 | The walk ends at the entry that serves the address, and its level count says at which level that is. |
| PageWalk.ExtentOfLast | kernel-module/mm/page_table/page_table_walker.c:93-132 | If any extent mapped by the tree covers the address, it is that of the present leaf that serves the address, with its offset. |
| PageWalk.LastHasExtent | kernel-module/mm/page_table/page_table_walker.c:93-132 | If the entry that serves the address is a present leaf, the tree maps an extent that covers the address. |
| PageWalk.ExtentsDisjoint | kernel-module/mm/page_table/page_table_walker.c:93-132 | No address is mapped by two extents. |
| PageWalk.FlatMapOfLast | kernel-module/mm/page_table/page_table_walker.c:93-132 | The flat map, a union of extents over the whole tree, is decided by the entry that serves the address. |
| PageWalk.WalkRefinesFlatMap | kernel-module/mm/page_table/page_table_walker.c:93-151 | For every tree and address, what the walk finds is what the flat map of present leaves has, if and only if the entry that serves the address is readable: a huge leaf present exactly when not bad, a PTE none or present. |
| PageWalk.ReportedPa | kernel-module/mm/page_table/page_table_walker.c:93-151 | The reported number is then the flat map's address, or 0 when nothing is mapped. |
| PageWalk.SwappedPteWitness | kernel-module/mm/page_table/page_table_walker.c:129-132 | A well-formed tree with a swapped-out PTE, for which an address is reported. |
| PageWalk.BadLeafWitness | kernel-module/mm/page_table/page_table_walker.c:118-123 | A well-formed tree with a present huge leaf that is bad, for which nothing is found. |
| PageSplit.SplitWellFormed | kernel-module/mm/page_table/page_table_walker.c:105-132 | Replacing a huge leaf by a table of consecutive smaller pages gives a table tree again. |
| PageSplit.SplitLast | kernel-module/mm/page_table/page_table_walker.c:105-132 | After a split, an address is served by the small page its next index selects if it lies in the split page, and by the same entry as before otherwise. |
| PageSplit.SplitKeepsTranslation | kernel-module/mm/page_table/page_table_walker.c:105-132 | For every tree, split address and other address: same physical address found, same address mapped, and one more level exactly under the split leaf. |
| PageSplit.SplitLengthens | kernel-module/mm/page_table/page_table_walker.c:105-132 | From the top, the level count grows by one exactly for the addresses in the page that was split. |
| PageSplit.SplitKeepsFlatMap | kernel-module/mm/page_table/page_table_walker.c:105-132 | The flat map before and after a split is the same. |
| Pagemap.TranslateAddress | linux-c/va-to-pa.c:35-102 | Success exactly when open, seek and read succeed in full and the entry is not swapped; the address is then frame times page size plus offset at 64 bits; a swapped page stores 0 and returns ENOMEM; every other failure returns the error of the first call that failed (5 for a short seek or read) and leaves the output alone. |
| Pagemap.ComposedFields | linux-c/va-to-pa.c:27-33 | For every frame below 2^55 and flag bits 55 to 63 put together, the frame is read back and the entry is swapped if and only if bit 62 is set. |
| Pagemap.TranslateComposed | linux-c/va-to-pa.c:88-99 | translate_address of every such entry: frame times page size plus offset with 0 if bit 62 is clear, ENOMEM (12) and address 0 if it is set. |
| Pagemap.ComposedSwap | linux-c/va-to-pa.c:91-92 | For every type below 32 and offset below 2^50 put together, both are read back. |
| Pagemap.SwapFieldsRecompose | linux-c/va-to-pa.c:88-92 | The swap type and offset printed recompose the low 55 bits of the entry. |
| Pagemap.WalkKeepsPageOffset | kernel-module/mm/page_table/page_table_walker.c:110-132 | Whatever the size of the leaf, the walk keeps the offset in a 4 KiB page. |
| Pagemap.PagemapAgreesWithWalk | linux-c/va-to-pa.c:95-99 | For every tree, extent and address in it: decoding the entry with the extent's frame for the page gives the flat map's address, and the walk's if and only if the entry that serves the address is readable. |
| Decimal.ScanSound | linux-c/sysfs-parser.c:53-65 | What strtoul reads is a numeral spelled at the cursor, with all its digits. |
| Decimal.ScanComplete | linux-c/sysfs-parser.c:53-65 | A numeral spelled at the cursor and not followed by a digit is what strtoul reads. |
| Decimal.UnsignedExactly | linux-c/sysfs-parser.c:53-65 | strtoul's value of every numeral: clamped when too large, negated modulo 2^64 after a minus sign. |
| Decimal.StrtoulExamples | linux-c/sysfs-parser.c:53-65 | Plus sign, minus sign, white space, and text without a number. |
| Decimal.WhiteSpace | linux-c/config-demo/file_source.c:53 | White space is exactly the six characters of isspace in the C locale. |
| Decimal.AtoiOfText | linux-c/config-demo/file_source.c:86-89 | atoi of white space, sign, digits and anything that is no digit is the number spelled, if it fits 32 bits. |
| Decimal.AtoiOfRender | linux-c/config-demo/file_source.c:86-89 | atoi of a rendered number that fits an int is that number. |
| CpuList.Record | linux-c/sysfs-parser.c:73-78 | The shifting loop sets exactly the bits of the range, those beyond 64 falling out. |
| CpuList.ParseArrayToBitmask | linux-c/sysfs-parser.c:43-94 | The cursor loop terminates on every string with the outcome of the recursive parser, undefined shifts and the endless range included. |
| CpuList.ParseComplete | linux-c/sysfs-parser.c:48-89 | Every well-formed list is accepted with the union of its items' bits. |
| CpuList.ParseSound | linux-c/sysfs-parser.c:48-89 | Whatever is accepted is a well-formed list and the mask is the union of its items' bits. |
| CpuList.AcceptsExactlyTheLists | linux-c/sysfs-parser.c:43-94 | A string is accepted with a mask if and only if it starts with a newline-ended list of numbers and strictly increasing ranges (starts below 64, ends below the maximum) whose bits are that mask. |
| CpuList.StopsExactly | linux-c/sysfs-parser.c:53-89 | For every string that is not accepted: rejected, undefined shift or endless, exactly by what stands after the good items read so far: no item or one without comma or newline; an item that starts at 64 or more; a range below that which ends at the largest value. |
| CpuList.Limits | linux-c/sysfs-parser.c:74-78 | The outcome of every single number and every increasing range of 64-bit values. |
| CpuList.CanonicalRoundTrip | linux-c/sysfs-parser.c:43-94 | Parsing the canonical rendering of any non-empty 64-bit mask returns it; the empty rendering is rejected. |
| ConfigFile.CopyTrimmed | linux-c/config-demo/file_source.c:64-71 | The buffer receives the slice without trailing white space, NUL-terminated, within its bounds. |
| ConfigFile.SkipWhite | linux-c/config-demo/file_source.c:52-54 | The loop stops at the first character that is not white space. |
| ConfigFile.SplitLine | linux-c/config-demo/file_source.c:52-82 | Key and value buffers hold the pair of the line; comments and lines without '=' are skipped; all indices stay in the buffers. |
| ConfigFile.ParsedIsWritable | linux-c/config-demo/file_source.c:56-82 | A parsed key and value have no white space at the edges, and the key no '=' and no comment sign in front. |
| ConfigFile.LineRoundTrip | linux-c/config-demo/file_source.c:52-82 | A pair rendered with any padding is parsed back if and only if it is free of edge white space and its key has no '=' and starts no comment. |
| ConfigFile.IgnoredExactly | linux-c/config-demo/file_source.c:56-62 | A line sets nothing if and only if it has no '=' or its first visible character starts a comment. |
| ConfigFile.FileRoundTrip | linux-c/config-demo/file_source.c:51-94 | A file of padded pairs, comments and other lines, each of at most 510 characters, is read as exactly its pairs in order. |
| ConfigFile.LongLineIsSplit | linux-c/config-demo/file_source.c:47-51 | A longer line is read in pieces of 511 characters. |
| ConfigLayers.ApplyAllIsLast | linux-c/config-demo/file_source.c:84-93 | Overwriting in order leaves the last setting of each field, decided by presence. |
| ConfigLayers.LoadOrderIsPriority | linux-c/config-demo/config-demo.c:31-37 | Applying defaults, file, environment and options in this order is the documented priority. |
| ConfigLayers.FileLookedFor | linux-c/config-demo/file_source.c:11-33 | Which file is looked for when none is named: the system's, else the user's under HOME, with a path cut to 511 characters. |
| ConfigLayers.FileReadIsDocumented | linux-c/config-demo/cli_source.c:8-18 | The file read is the documented one (the last config option that names a file, else the variable, else the file looked for) if and only if: that option is `-c FILE`; or there is none and the variable is unset or names the file looked for; or it is the long form and an earlier `-c`, else the file looked for, is the same file. |
| ConfigLayers.ReportedIsDocumented | linux-c/config-demo/cli_source.c:25-42 | The name reported is the documented one if and only if the last config option is not the short form, with or without a file, or there is no file to name at all. |
| ConfigLayers.ConfigFileWitness | linux-c/config-demo/config-demo.c:27-40 | Inputs on which the file read, or the name reported, is not the documented one: the variable alone, the long form, the short form, a bare `-c` at the end. |
| ConfigLayers.ShortConfigForgotten | linux-c/config-demo/cli_source.c:25-42 | When config options come in the short form only, and there is one, no file name is reported at the end, wherever the option stands and whatever was read. |
| ConfigSources.PortFromFile | linux-c/config-demo/file_source.c:51-94 | A decimal port on a padded line of the file read is the port loaded, unless a later line, the environment or an option gives one. |
| ConfigSources.PortFromEnv | linux-c/config-demo/env_source.c:18-20 | A decimal port in the environment is the port loaded, unless an option gives one. |
| ConfigSources.PortFromOption | linux-c/config-demo/cli_source.c:31-33 | A decimal port given as an option is the port loaded, unless a later option gives one. |
| ConfigLayers.PortRecovered | linux-c/config-demo/file_source.c:87 | Any rendered number that fits an int is stored as a port modulo 65536. |
| ConfigSources.FileFields | linux-c/config-demo/file_source.c:84-93 | A file sets address, port, log_level and debug each by the last line with that key. |
| ConfigSources.EnvFields | linux-c/config-demo/env_source.c:14-29 | The environment sets each field by its variable. |
| ConfigSources.OptFields | linux-c/config-demo/cli_source.c:27-39 | The command line sets each field by the last option for it. |
| ConfigSources.LoadedFromSources | linux-c/config-demo/config-demo.c:27-40 | For every command line, environment and file of readable lines: each field loaded is the last option's, else the variable's, else the last line's, else "localhost", 8080, 3, false. |
| ConfigSources.TrueExactly | linux-c/config-demo/file_source.c:90-92 | A text switches debug on if and only if it is 1 or true in any mixture of cases. |
| ConfigSources.DebugFromFile | linux-c/config-demo/file_source.c:90-92 | Debug loads as on exactly if the last debug line spells true, unless environment or options say something. |
| ConfigSources.DebugFromEnv | linux-c/config-demo/env_source.c:26-29 | The same for the variable, unless an option says something. |
| ConfigSources.ExampleLoads | linux-c/config-demo/file_source.c:84-93 | The documentation's example file loads as 127.0.0.1, 8080, 2, on. |
| ConfigLayers.Config.Init | linux-c/config-demo/config-demo.c:12-16 | All fields are zero, whatever they were. |
| ConfigLayers.Config.ApplyDefaults | linux-c/config-demo/defaults_source.c:5-17 | Address, port and log level get their defaults where unset; debug stays. |
| ConfigLayers.Config.ApplyCliArgsForConfigFile | linux-c/config-demo/cli_source.c:8-18 | The prescan leaves the argument of the last `-c FILE`. |
| ConfigLayers.Config.ApplyFileConfig | linux-c/config-demo/file_source.c:11-98 | The file name chosen, the settings of exactly that file applied in order, and -1 exactly when none can be opened. |
| ConfigLayers.Config.ReadLines | linux-c/config-demo/file_source.c:47-94 | The line loop applies the settings of all lines in order, for every content. |
| ConfigLayers.Config.ReadLine | linux-c/config-demo/file_source.c:51-94 | One turn of the loop, in the line, key and value buffers, applies what the line sets. |
| ConfigLayers.Config.ApplyPair | linux-c/config-demo/file_source.c:84-93 | The dispatch overwrites the field of a known key, and nothing for any other key. |
| ConfigLayers.Config.ApplyEnvConfig | linux-c/config-demo/env_source.c:10-36 | The four variables that are set overwrite their fields; CONFIG_DEMO_CONFIG overwrites the file name. |
| ConfigLayers.Config.ApplyCliArgs | linux-c/config-demo/cli_source.c:20-52 | Options overwrite their fields in order; help ends the program. |
| ConfigLayers.Config.Load | linux-c/config-demo/config-demo.c:27-40 | For every file content, environment and option list without help, each of address, port, log level and debug is the last setting in the highest-priority source that mentions it; the file name reported is the last config option's, then the environment's, then that of the file looked for. |
| TlvStream.LeRoundTrip | linux-c/socket/inet-socket/inet_io.c:40-46 | A number that fits is read back from its little-endian bytes. |
| TlvStream.MetadataRoundTrip | linux-c/socket/inet-socket/inet_io.c:40-87 | Type and length are read back from the 16-byte metadata record, whatever its padding. |
| TlvStream.MetadataLayout | linux-c/socket/inet-socket/inet_io.h:24-28 | Byte by byte: type in bytes 0 to 3, padding, length in bytes 8 to 15, lowest byte first. |
| TlvStream.Connection.SendPacket | linux-c/socket/inet-socket/inet_io.c:38-72 | 0 exactly when both writes are complete and then the whole encoding is in the stream; otherwise a proper prefix of it. |
| TlvStream.Connection.RecvPayload | linux-c/socket/inet-socket/inet_io.c:74-125 | The packet or NULL, and how far the stream was read, for every outcome of allocations and reads. |
| TlvStream.RecvReturnsSent | linux-c/socket/inet-socket/inet_io.c:74-125 | At a packet boundary the packet sent is returned and the next boundary reached if and only if allocations succeed and reads are complete; empty payloads included. |
| TlvStream.FailedRecvKeepsFraming | linux-c/socket/inet-socket/inet_io.c:79-118 | After NULL the stream is where it was if and only if the first allocation failed or the first read gave nothing. |
| TlvStream.DesynchronisedWitness | linux-c/socket/inet-socket/inet_io.c:103-125 | A packet whose receive fails after the metadata, and a next receive that returns a packet never sent. |
| TlvStream.ReceivedIsPrefix | linux-c/socket/inet-socket/inet_io.c:38-125 | For any interleaving of sends and receives and any reads, the packets received before the first NULL are a prefix of those sent. |
| TlvStream.EveryReceiveReturns | linux-c/socket/inet-socket/inet_io.c:74-125 | With complete reads every receive returns a packet. |
| TlvStream.CompleteReadsReceiveAll | linux-c/socket/inet-socket/inet_io.c:38-125 | As many receives with complete reads as sends return the whole sequence. |
| SizeText.SplitIsExact | kernel-module/mm/mm_show/va_map_show.c:15-20 | G, M, K and B parts are below 1024 and the parts are the only ones within the bounds whose weighted sum is the size. |
| SizeText.SizeRoundTrip | kernel-module/mm/mm_show/va_map_show.c:13-32 | Read back part by part, with units that must get smaller, the printed text gives the size, for every size; 0 prints nothing. |
| SizeText.SizeExample | kernel-module/mm/mm_show/va_map_show.c:22-31 | One of each unit prints as 1T.2G.3M.4K.5B. with every dot. |

## Left out

- System and kernel calls (klogctl, page and record allocation, vm_insert_pages, sockets, files, getenv, getopt_long): parameters that say what they return. getopt_long is a given list of parsed options.
- Messages and diagnostics, and the round numbers of the follower, except where the printed text is the result.
- KlogFollower.Follower.ReadNew: requires a window without NUL and a round whose accesses stay in the buffers (a NUL behind the text; a match that does not run past the window), because the C program is undefined otherwise. Recognisable runs meet this (`RecognisableRunInBounds`).
- KlogRuns.RunPrintsNewText: windows are whole-line suffixes of an append-only log, and each round's accesses stay in the buffers (which recognisable runs ensure).
- StartRace.Safety: the shared word is read and written one access at a time in program order (it is volatile in the source; weaker memory orders are not modelled); the number of workers is any n instead of the constant 6; sleeping and task ids are left out.
- MemdevDriver.Driver.Mmap: bulk allocation fills a prefix of the array, and only the driver's own reference to a page is counted. NUMA node choice and its error, page protection bits, and the module references in open and release are left out (`SteadyByReferences` takes their rule as given).
- MemdevDriver.Driver.Open: the failures before a file state exists (module reference, allocation) change no list and are left out; release of a file without state likewise.
- MemdevOrder.StrandsExactly: follows file states only. After its increment mmap still reads the region it has listed, to store and print it (kernel-module/memdev/memdev.c:277-281); that this region has not been freed by then is not part of this model.
- MemdevRace.Conservation: a step of mmap or release on a file state that exit has already freed is undefined in C, and the call then has no step. `StrandsExactly` says which step leads there, `NobodyStranded` when it cannot happen.
- PageWalk.WalkRefinesFlatMap: none, bad, leaf and present are given for each entry instead of computed from its bits; tables have 512 entries at each of five levels and frames lie below 2^40 (52-bit physical addresses). An entry that is none, bad or a huge leaf points to no table. Locks, `kla_start` and the search for the process are left out.
- Pagemap.TranslateAddress: the flags printed are left out; like the code, it does not test the present bit.
- Pagemap.PagemapAgreesWithWalk: that the kernel's entry carries the frame of the page is an assumption about the kernel.
- CpuList.ParseArrayToBitmask: a shift by 64 or more (ISO C11 section 6.5.7) and a range that ends at the maximum unsigned long are outcomes of their own, after which nothing is claimed. The mask is the set of its bit positions.
- ConfigLayers.Config.ApplyCliArgsForConfigFile: the bare argument `--config=` is excluded, for which the program reads past the end of the argument (a comparison of length 10 with a literal of 9 characters); `--config=FILE` does not match there, as in the code.
- ConfigLayers.FileReadIsDocumented: a `-c` or long config option that is itself the argument of another option (`-s -c x`) counts as a config option, as it does for the prescan; abbreviated long options are left out.
- ConfigLayers.ReportedIsDocumented: takes for granted that getopt_long delivers the last config option of the command line, the short form without argument; abbreviated long options and arguments that look like options are left out.
- ConfigLayers.Config.Load: failed allocations of strings are left out; `atoi` outside the int range is undefined and stands for any value.
- TlvStream.Connection.RecvPayload: heap balance is not modelled; on a failed payload read the source frees the packet but not the payload.
- TlvStream.Connection.SendPacket: metadata is laid out for a 64-bit little-endian machine.
- Printing of address ranges around `pr_cont_size`, and the decoding in kernel-module/mm/page_table/issue_queries.c, which repeats linux-c/va-to-pa.c.
- Netlink, openssl, libnuma, perf, kunit, unix-socket, work-queue and sysfs device demos, and shell scripts: thin wrappers, or logic in libraries that is not part of this model.
