# Verification of the Devilz_Den backend

A Dafny model of the backend's stateful indexes, schedulers and scanners, with proofs of what
they promise. The process image is uninterpreted memory: a function from 64-bit addresses to
bytes.

## What is modelled

- **Pattern resolution.** Both signature parsers (`Pattern.dfy`), the anchored and the
  anchor-free scanner (`Scanner.dfy`), the search for a request in a module
  (`PatternSearch.dfy`), the cache and its key (`PatternCache.dfy`), one resolve with and without
  the cache (`BatchScanner.dfy`), when a cache changes no answer (`CacheTransparency.dfy`), parallel
  resolution over a shared cache (`ParallelJobs.dfy`, `UndisturbedJobs.dfy`, `PatternManager.dfy`), the
  cache file and its rebasing (`CachePersistence.dfy`), why scanning is position independent
  (`Relocation.dfy`), what a file carried over to another session does to its answers
  (`CarriedCache.dfy`), and what module names with meeting keys do (`KeyCollisions.dfy`). Inputs on
  which a finding shows are searched by the real scan in a one-section module
  (`OneSectionImage.dfy`).
- **Natives.** The crossmap with its collision policy (`Crossmap.dfy`), its text format
  (`CrossmapText.dfy`), and the table, second cache, manager and invoker on top
  (`NativeInvoker.dfy`).
- **Queues.** The logger (`Logger.dfy`) and the worker-pool executor (`Executor.dfy`) as step
  protocols, one step per locked region or atomic operation, over all interleavings; the classes
  implement those steps.
- **Smaller cores.** Allocation accounting (`MemoryManager.dfy`), script globals
  (`ScriptGlobals.dfy`), the polling monitor (`FileMonitor.dfy`), chunked reads and address
  chains (`MemoryReader.dfy`).
- **Foundations.** 64-bit arithmetic, ranges and displacements (`Machine.dfy`), number and line
  formats (`Text.dfy`), result shapes (`Wrappers.dfy`).

A class mirrors each source class that updates its fields. Its methods are tied to functions on
values, the laws are proved about those functions, and what a function means is stated without it in
the methods' own clauses or in lemmas, most of them named `...Meaning` or `...Effect`. Hash-table
iteration is an arbitrary choice. Results about the cache are stated for every deterministic scan
(`Scan`); the batch scanner's methods and the manager's constructor use the real one, `Search`.

## What the proofs found

- **Addresses below the module base do not survive the cache file.** `Store` records offset 0 for
  them, so a reload turns them into the module's base. The reloaded cache agrees with the scans
  exactly when no saved address lay below its base (`ReloadAgreesIff`), and changes no answer exactly
  when no such entry's validator accepts the new base (`ReloadIsTransparentIff`, and for the real scan
  `RemappedReload`). `ByteBeforeIsLost` follows one such request through both sessions.
- **A tab or newline in a cached name breaks the cache file**, exactly then
  (`CachePersistence.RoundTripIff`, `EveryModuleRoundTripsIff`); the name need not even be the
  loaded module's (`StrayRecordLoads`).
- **A cached native handler outlives what the table says.** The table can re-register a handler as
  unvalidated, or be cleared and filled again; the invoker keeps using the cached copy
  (`RevocationIsIgnored`, `TableClearIsIgnored`). The two paths agree exactly when the table still
  vouches for it (`PathsAgreeIffVouched`, `PathsAgreeIff`), and the cache never holds a handler the
  table lacks exactly when the table is only cleared under an empty cache (`CacheSoundThroughoutIff`).
- **A newline in a native name breaks the crossmap file**, and nothing else does
  (`CrossmapText.RoundTripIff`, `NewlineNameIsLost`).
- **Module names can share a stable key** exactly when one with its separator is a prefix of the
  other (`CollisionCondition`); colon-free names never do. With the real scan, the caches
  that runs fill are transparent for exactly the module sets without such a pair
  (`TransparentIffUnambiguous`; `ForeignAnswer` is the failing run). In general a cache is transparent
  exactly when every entry its own request would use is the scanned address (`TransparentIff`).
- **A save drops what the cache does not hold.** One module's records are loaded, then the whole file
  is rewritten: another module's record survives exactly when the cache held it before the call
  (`ResolveModule`, `FileSurvivesIff`, `OtherModulesAreDropped`).
- **Global hops wrap at 2^32** and lose their way below zero; `HopsComposeIff` has the exact
  condition under which two hops compose, `HopsThroughZeroLoseTheManager` an input where they do not.
- **Logger order holds per producer only**: numbers are drawn before the lock, so the sinks see
  rising numbers in every run exactly when at most one producer logs (`RisingIffOneProducer`).
- **A stopped executor can leave accepted tasks unrun**, while a stopped logger never leaves a record
  unwritten. What `Stop` can leave is told when it is called: at most, and in some interleaving
  exactly, the queued tasks beyond one for each worker already past its stop check
  (`StopDrainsIff`). It does return, in every interleaving (`StopEnds`).

## Assumptions about the environment

- Cache results fix, per run, one request per pattern name, one image per module name and
  fingerprint, deterministic validators, and module names whose stable keys cannot meet
  (`Unambiguous`; colon-free names suffice).
- For the sequential uncached answer, other users of the shared cache may do anything that leaves no
  wrong address a request would use; for the answer of the cache as it was, there are none. Which jobs
  throw, and whether the executor refuses a submission, is given.
- One thread controls each service's start and stop.
- Region queries describe a partition of memory. Files are text values written and read whole.

## Model

| member | source | states |
|---|---|---|
| Machine.ContainsIsInterval | src/Backend/Memory/Memory_Range.hpp:14-19 | The wrapping containment test is the plain interval test for every range and every block of at least one byte, except that it refuses short blocks in a range that runs past the top of memory |
| Machine.Int32RoundTrip | src/Backend/Memory/Pointer.cpp:15-16 | Reading back a 32-bit displacement written little endian gives it back, for all 32-bit values |
| Text.PrintParse | src/Backend/Memory/Pattern_Cache_Persistence.cpp:24-27 | Printing an unsigned number and parsing it with `from_chars` semantics gives it back, in decimal and upper-case hex, whatever non-digit follows |
| Text.LinesOfUnlines | src/Backend/Memory/Pattern_Cache_Persistence.cpp:46-53 | A `getline` loop over newline-terminated lines reads exactly those lines |
| Text.LinesOfOpenEnd | src/Backend/Memory/Pattern_Cache_Persistence.cpp:46-53 | A last line needs no newline to be read |
| Text.FirstLineMeaning | src/Backend/Memory/Pattern_Cache_Persistence.cpp:44-46 | A text's first line is a given one exactly when the text is that line or starts with it and a newline |
| Text.SplitOfJoin | src/Backend/Memory/Pattern_Cache_Persistence.cpp:54-61 | Cutting a line at its first three tabs undoes joining four fields, the last of which may contain tabs |
| Text.SplitMeaning | src/Backend/Memory/Pattern_Cache_Persistence.cpp:54-57 | The cut fields are the only four fields, none of the first three with a tab, that join to the line; there are none exactly when no such fields exist |
| Text.GetLine | src/Backend/Memory/Pattern_Cache_Persistence.cpp:53 | One `getline` call takes the first remaining line and fails only when none is left |
| Pattern.Compile | src/Backend/Memory/Pattern.cpp:9-57 | Accepts exactly the signatures that spell a token sequence, in words of either wildcard mark or two hex digits of either case with any spaces around them, and yields those tokens with their leftmost longest exact run; otherwise reports the first bad word or emptiness |
| Pattern.FindAnchor | src/Backend/Memory/Pattern.cpp:42-54 | The anchor loop finds the leftmost longest run of exact tokens |
| Pattern.AnchorIsUnique | src/Backend/Memory/Pattern.cpp:42-54 | There is only one leftmost longest run |
| Pattern.AnchorEmptyIffAllWildcards | src/Backend/Memory/Pattern.cpp:42-54 | The anchor is empty exactly when every token is a wildcard, and then sits at offset 0 |
| Pattern.ParseTokenMeaning | src/Backend/Memory/Pattern.cpp:23-36 | Both `?` and `??` are the wildcard, two hex digits are the byte of that value, and anything else is refused, by its length as a bad token or a bad byte |
| Pattern.RenderRoundTrip | src/Backend/Memory/Pattern.cpp:14-40 | Every non-empty token sequence has a signature that reads back as exactly that sequence |
| Pattern.ReadsMeaning | src/Backend/Memory/Pattern.cpp:14-40 | However a token sequence is spelled it is read back, and nothing else is: wildcard marks, letter case, spaces before, between and after the words, none needed at the end |
| Pattern.MisreadsMeaning | src/Backend/Memory/Pattern.cpp:14-40 | A signature is refused for exactly one reason: its first word that spells no token, or having no words |
| Pattern.ExtractWord | src/Backend/Process/Process_Pattern.cpp:14 | Stream extraction yields the next space-free word, or fails when none is left |
| Pattern.ParseProcessPattern | src/Backend/Process/Process_Pattern.cpp:8-34 | The second parser accepts exactly the signatures that spell a token sequence, as the first does, and yields those tokens |
| Scanner.AllMatchesMeaning | src/Backend/Memory/Pattern_Scanner.cpp:37-51 | The reference list of matches is strictly ascending and holds exactly the offsets where every token matches |
| Scanner.PatternScanner.Matches | src/Backend/Memory/Pattern_Scanner.cpp:7-15 | True exactly when every token matches at the offset |
| Scanner.PatternScanner.AnchorMatches | src/Backend/Memory/Pattern_Scanner.cpp:40-47 | The anchor test is the match restricted to the anchor, so it never rejects a match |
| Scanner.PatternScanner.Scan | src/Backend/Memory/Pattern_Scanner.cpp:17-58 | Fails exactly on an empty range, empty pattern or pattern longer than the range; otherwise returns the first `maxResults` matches (all for 0) and exact scan statistics, never indexing outside the range |
| Scanner.PatternScanner.FindFirst | src/Backend/Memory/Pattern_Scanner.cpp:60-68 | Returns the first match of the range, if any |
| Scanner.FirstMatchIsLeast | src/Backend/Memory/Pattern_Scanner.cpp:60-68 | The first match is the least matching offset, and there is none exactly when nothing matches |
| Scanner.ScanOffsetsMeaning | src/Backend/Memory/Pattern_Scanner.cpp:17-58 | What a scan reports is ascending, matches, and leaves out only matches behind a full list |
| Scanner.ScanProcess | src/Backend/Process/Process_Pattern_Scanner.cpp:5-38 | Fails exactly on an invalid request, or on an unreadable image; otherwise as many matches as the anchored scanner has offsets for the same bytes and non-zero limit, each with that offset and the address base plus offset truncated to 64 bits |
| PatternCache.CollisionCondition | src/Backend/Memory/Pattern_Cache.hpp:22-25 | Two different modules can share a stable key exactly when one name with `::` is a prefix of the other with `::` |
| PatternCache.CollisionServesForeignAddress | src/Backend/Memory/Pattern_Cache.cpp:20-28 | Such a collision makes a lookup return an address stored for the other module |
| PatternCache.StableKeyInjective | src/Backend/Memory/Pattern_Cache.hpp:22-25 | Among unambiguous module names the stable key determines module and pattern name |
| PatternCache.ColonFreeIsUnambiguous | src/Backend/Memory/Pattern_Cache.hpp:22-25 | Module names without a colon are unambiguous |
| PatternCache.PatternCache.Store | src/Backend/Memory/Pattern_Cache.cpp:7-18 | Replaces the entry under the stable key, with the offset from the base, zero when the address lies below it |
| PatternCache.PatternCache.Find | src/Backend/Memory/Pattern_Cache.cpp:20-28 | Returns the address only for the same fingerprint, and counts the hit |
| PatternCache.PatternCache.Contains | src/Backend/Memory/Pattern_Cache.cpp:30-35 | True exactly when a lookup would find an address |
| PatternCache.PatternCache.Invalidate | src/Backend/Memory/Pattern_Cache.cpp:37-41 | Erases the one key |
| PatternCache.PatternCache.InvalidateModule | src/Backend/Memory/Pattern_Cache.cpp:43-47 | Erases exactly the module's entries |
| PatternCache.PatternCache.InvalidateFingerprint | src/Backend/Memory/Pattern_Cache.cpp:49-55 | Erases exactly the module's entries of other fingerprints |
| PatternCache.PatternCache.Snapshot | src/Backend/Memory/Pattern_Cache.cpp:69-79 | Lists every entry once, in an arbitrary order |
| PatternSearch.RelativeTransformFindsTarget | src/Backend/Memory/Pointer.cpp:7-20 | An operand holding the distance from the instruction's end to a target resolves to that target, for every field position inside the instruction |
| PatternSearch.TransformMeaning | src/Backend/Memory/Pattern_Batch_Scanner.cpp:15-30 | The address each transform makes of a match: the match itself, the match plus the offset, or the end of the instruction plus its displacement when the field lies inside it and the target is not null; no other address, and none when that fails |
| PatternSearch.SelectSectionsMeaning | src/Backend/Memory/Module_Manager.cpp:115-130 | The selected ranges are the non-empty ranges of the sections with the asked access |
| PatternSearch.FindSectionMeaning | src/Backend/Memory/Module_Manager.cpp:102-113 | A named section is the first of that name |
| PatternSearch.RangesMeaning | src/Backend/Memory/Pattern_Batch_Scanner.cpp:51-61 | A request searches the first section of its name, or in order the non-empty sections with its access; it fails exactly when no section has the name |
| PatternSearch.VerdictMeaning | src/Backend/Memory/Pattern_Batch_Scanner.cpp:65-74 | A range answers with the accepted address its least match leads to, breaks the search when that leads nowhere, and is passed over when it has no match or one that leads to a rejected address |
| PatternSearch.SearchRangesMeaning | src/Backend/Memory/Pattern_Batch_Scanner.cpp:63-92 | The first range with a match that is accepted or cannot be transformed decides the search; no such range means not found (`VerdictMeaning` says what a range contributes) |
| PatternSearch.SearchAnswersIff | src/Backend/Memory/Pattern_Batch_Scanner.cpp:46-92 | The promise of a search, stated on the signature's spelling, the sections and the bytes in memory, is kept by its result and by nothing else: which failure, which address, and the statistics of the ranges tried |
| BatchScanner.PatternBatchScanner.SearchImage | src/Backend/Memory/Pattern_Batch_Scanner.cpp:46-92 | The returned address is accepted by the validator and is what the transform makes of the least match of a chosen range, every earlier chosen range having none or a rejected one; each failure occurs exactly in its case; statistics add up over the ranges tried |
| BatchScanner.PatternBatchScanner.ResolveOne | src/Backend/Memory/Pattern_Batch_Scanner.cpp:32-93 | With a cache, the remembered address of this module version if the validator accepts it inside the module, else the search's answer; a hit is counted, a fresh answer is stored under its key, an unusable entry is removed, older versions of the module are swept and nothing else changes; without one, the search's answer |
| BatchScanner.PatternBatchScanner.Resolve | src/Backend/Memory/Pattern_Batch_Scanner.cpp:95-109 | Each request in turn is answered and leaves the cache as a single resolve promises, up to the first failure; every cached answer is accepted by its validator inside the module |
| CacheTransparency.CachedIsTransparent | src/Backend/Memory/Pattern_Batch_Scanner.cpp:32-93 | Through any cache whose usable entries are scanned addresses a resolve has the uncached success or failure and address, and leaves such a cache |
| CacheTransparency.ServedAsSearched | src/Backend/Memory/Pattern_Batch_Scanner.cpp:36-45 | What a resolve promises through a cache is what it promises without one exactly when an address the cache serves is the search's |
| CacheTransparency.AllAreTransparent | src/Backend/Memory/Pattern_Batch_Scanner.cpp:95-109 | All requests in turn through a harmless cache answer as through none |
| CacheTransparency.TransparentIff | src/Backend/Memory/Pattern_Batch_Scanner.cpp:37-44 | A cache changes no answer exactly when every entry that its own request would use holds the scanned address |
| KeyCollisions.TransparentIffUnambiguous | src/Backend/Memory/Pattern_Cache.hpp:22-25 | For the real scan, every cache that a run of resolves and removals fills, in any world of a set of modules, is transparent exactly when no two of their names can share a stable key; so is every cache of scanned addresses |
| KeyCollisions.ForeignAnswer | src/Backend/Memory/Pattern_Batch_Scanner.cpp:36-45 | For the real scan, wherever two keys can meet there is a run of one resolve after which a resolve in the other module answers with the wrong address |
| KeyCollisions.CollidingResolve | src/Backend/Memory/Pattern_Batch_Scanner.cpp:36-45 | For any scan, where two keys meet a whole resolve, past the fingerprint sweep and the image-range test, answers with the address stored for the other module |
| CacheTransparency.RunsAgree | src/Backend/Memory/Pattern_Cache.cpp:7-61 | Every run of resolves and invalidations keeps an agreeing cache agreeing |
| CacheTransparency.EveryResolveIsTransparent | src/Backend/Memory/Pattern_Batch_Scanner.cpp:32-93 | Over any run from an empty cache every resolve answers as with no cache |
| ParallelJobs.AloneIsResolveOne | src/Backend/Memory/Pattern_Batch_Scanner.cpp:32-93 | The atomic steps of a job, run undisturbed, add up to one cached resolve |
| ParallelJobs.ParallelIsSequential | src/Backend/Memory/Pattern_Manager.cpp:83-136 | For every interleaving of job steps, exceptions in jobs, gathering and other users of the cache, any answer is that of sequential uncached resolving: its addresses in request order or its lowest failure, where a job that throws is one that fails |
| ParallelJobs.ParallelIsSane | src/Backend/Memory/Pattern_Manager.cpp:83-136 | Whatever the cache holds and others do to it, any answer gives each request an address that is the scan's or accepted by its validator inside the module, or fails as some request does |
| UndisturbedJobs.ParallelIsCached | src/Backend/Memory/Pattern_Manager.cpp:83-136 | With no other user of the cache and no exceptions, every interleaving of the jobs answers as resolving the requests one after another through the same cache, whatever it holds, right or wrong; and a complete answer leaves every address it names in the cache |
| UndisturbedJobs.AnswerOnTrack | src/Backend/Memory/Pattern_Manager.cpp:93-136 | Exceptions included: each request is answered from the starting cache if that serves it, else by the scan, or by its exception, and taken in order |
| UndisturbedJobs.SequentialIsWanted | src/Backend/Memory/Pattern_Batch_Scanner.cpp:95-109 | One after another the requests come to the same: one of them does not change what the cache at the start means for another |
| ParallelJobs.NothingThrown | src/Backend/Memory/Pattern_Manager.cpp:93-118 | If no job throws, the expected answer is that of sequential uncached resolving |
| ParallelJobs.CollectedMeaning | src/Backend/Memory/Pattern_Manager.cpp:122-131 | Collecting gives the failure of the lowest failing index, or all the results in order |
| ParallelJobs.UncachedAllMeaning | src/Backend/Memory/Pattern_Manager.cpp:122-131 | The sequential answer is the failure of the lowest failing index, or all the resolutions in order |
| ParallelJobs.AlwaysProgress | src/Backend/Memory/Pattern_Manager.cpp:122-131 | Until there is an answer some step is possible, and every own step uses up a finite amount of work |
| PatternManager.PatternManager.ResolveParallel | src/Backend/Memory/Pattern_Manager.cpp:83-136 | Under an arbitrary scheduler it terminates with the answer of resolving the requests in turn through the cache as it was, hence the uncached one if that was harmless, throwing jobs included, or with the refusal of a stopped executor; a complete answer is all in the cache, and exactly such an answer to some request is followed by a save of the cache as it then is; other modules' entries stay |
| PatternManager.PatternManager.ResolveModule | src/Backend/Memory/Pattern_Manager.cpp:72-81 | The answer is that of the cache with the file's records loaded; whatever the file holds it is sane, and it is the uncached one unless the file names a wrong address that its request would use; the save that follows keeps another module's record exactly when the cache held it before the call |
| CachePersistence.Save | src/Backend/Memory/Pattern_Cache_Persistence.cpp:16-30 | Writes the header and one line per entry, in the snapshot's order |
| CachePersistence.LoadForModule | src/Backend/Memory/Pattern_Cache_Persistence.cpp:32-74 | Missing file, unavailable file, a first line that is not the header, or storing and counting exactly the lines that qualify for the module |
| CachePersistence.ReadLineMeaning | src/Backend/Memory/Pattern_Cache_Persistence.cpp:53-69 | A line gives a record exactly when it reads this module, a name, this fingerprint and an offset inside the image, with a tab after each of the first three |
| CachePersistence.LastRecordStays | src/Backend/Memory/Pattern_Cache_Persistence.cpp:71 | The last record under a key is the entry, at base plus offset, over whatever was there |
| CachePersistence.NoRecordNoChange | src/Backend/Memory/Pattern_Cache_Persistence.cpp:53-72 | An entry no record goes under stays as it is |
| CachePersistence.SaveThenLoad | src/Backend/Memory/Pattern_Cache_Persistence.cpp:16-74 | Saving in any order and loading into an empty cache brings back exactly the module's qualifying entries at the new base, and counts them |
| CachePersistence.SaveAndReload | src/Backend/Memory/Pattern_Cache_Persistence.cpp:16-74 | The same on real caches |
| CachePersistence.UncleanNameIsLost | src/Backend/Memory/Pattern_Cache_Persistence.cpp:53-61 | A qualifying entry whose module or pattern name has a tab or newline never survives, whatever the text |
| CachePersistence.RoundTripIff | src/Backend/Memory/Pattern_Cache_Persistence.cpp:16-74 | When every entry is the loaded module's, the round trip is exact exactly when no name has a tab or newline |
| CachePersistence.EveryModuleRoundTripsIff | src/Backend/Memory/Pattern_Cache_Persistence.cpp:16-74 | For any cache, the round trip is exact for every module exactly when no name has a tab or newline |
| CachePersistence.StrayRecordLoads | src/Backend/Memory/Pattern_Cache_Persistence.cpp:22-72 | A newline in the name of an entry of another module can make the load store a record nobody cached, for any module, name and offset |
| CachePersistence.SavedRecordIff | src/Backend/Memory/Pattern_Cache_Persistence.cpp:16-30 | A saved file holds, for any module, exactly the records of the entries in the cache |
| CachePersistence.FileSurvivesIff | src/Backend/Memory/Pattern_Cache_Persistence.cpp:16-30 | All the records of the old file, of whatever modules, survive a save exactly when the cache holds them all |
| CachePersistence.OtherModulesAreDropped | src/Backend/Memory/Pattern_Manager.cpp:72-81 | A session that cached one module only drops the records of every other module |
| CachePersistence.MovedKeepsDistance | src/Backend/Memory/Pattern_Cache.cpp:13 | An entry at or above its old base keeps its distance from the base and lands inside the image; one below lands on the base |
| CarriedCache.ReloadAgreesIff | src/Backend/Memory/Pattern_Cache_Persistence.cpp:66-71 | For a module that moved, the reloaded cache agrees with the new scans exactly when no saved address lay below its base |
| CarriedCache.ReloadIsTransparentIff | src/Backend/Memory/Pattern_Cache_Persistence.cpp:66-71 | After a reload every resolve answers as with no cache exactly when no saved entry of the module lay below its old base under a validator that accepts the new base |
| CarriedCache.RemappedReload | src/Backend/Memory/Pattern_Batch_Scanner.cpp:32-93 | Both conditions for the real scan, from carried-over section bytes and placed relative operands |
| CarriedCache.ByteBeforeIsLost | src/Backend/Memory/Pattern_Cache.cpp:13 | One request for which it happens with the real scan, for any two mappings of a one-section module: the address base - 1 is stored, saved, reloaded, and answered as the base |
| CarriedCache.BelowBaseEntryMisleads | src/Backend/Memory/Pattern_Batch_Scanner.cpp:39-43 | After the reload of such an entry the resolve differs from the scan exactly when the validator accepts the module's base |
| CarriedCache.LoadKeepsAgreement | src/Backend/Memory/Pattern_Cache_Persistence.cpp:53-72 | A file whose records name scanned addresses keeps any agreeing cache agreeing |
| CarriedCache.LoadKeepsHarmless | src/Backend/Memory/Pattern_Cache_Persistence.cpp:53-72 | A file whose usable records name scanned addresses keeps any harmless cache harmless |
| CarriedCache.LoadKeepsOthers | src/Backend/Memory/Pattern_Cache_Persistence.cpp:53-72 | Whatever a file holds, loading it for one module leaves the other modules' entries alone |
| Relocation.SearchMoves | src/Backend/Memory/Pattern_Batch_Scanner.cpp:46-92 | A module mapped elsewhere with the same section bytes gives the same failure, or the address moved with it; a relative operand must be placed, and only at the first match of a searched range |
| Relocation.PlainTransformMoves | src/Backend/Memory/Pattern_Batch_Scanner.cpp:17-21 | Matches and fixed offsets move with the module whatever memory holds |
| Relocation.RelativeTransformMoves | src/Backend/Memory/Pointer.cpp:7-20 | Relative operands move with the module when the instruction bytes are the same and neither copy wraps or targets null |
| Relocation.InsideRangeIsPlaced | src/Backend/Memory/Pointer.cpp:7-20 | An instruction inside a carried-over section at least 2 GiB from both ends of memory needs no further condition |
| Crossmap.TranslationsInvert | src/Integrations/GTA5_Enhanced/Natives/Native_Crossmap.cpp:58-74 | Per build, canonical x translates to runtime y exactly when y translates back to x |
| Crossmap.PairedSameSize | src/Integrations/GTA5_Enhanced/Natives/Native_Crossmap.cpp:43-45 | Mutually inverse maps have the same number of entries |
| Crossmap.AddKeepsInv | src/Integrations/GTA5_Enhanced/Natives/Native_Crossmap.cpp:20-47 | Adding keeps the bijection and entry count; it succeeds exactly when both hashes are non-zero and each is free or already paired with the other; failure touches only statistics |
| Crossmap.InvalidateKeepsInv | src/Integrations/GTA5_Enhanced/Natives/Native_Crossmap.cpp:135-141 | Invalidating a build keeps the bijection, forgets that build and no other |
| Crossmap.FailingBatchKeepsPrefix | src/Integrations/GTA5_Enhanced/Natives/Native_Crossmap.cpp:49-56 | A failing batch leaves the entries before the first bad one added and no other |
| Crossmap.BatchInTurn | src/Integrations/GTA5_Enhanced/Natives/Native_Crossmap.cpp:49-56 | A batch that succeeds so far takes one more entry as a single addition would; one that failed takes none |
| Crossmap.EveryRunKeepsInv | src/Integrations/GTA5_Enhanced/Natives/Native_Crossmap.cpp:20-149 | Every reachable crossmap is a bijection per build with exact entry counts |
| Crossmap.NativeCrossmap.Add | src/Integrations/GTA5_Enhanced/Natives/Native_Crossmap.cpp:20-47 | Null, canonical collision, runtime collision or both maps updated |
| Crossmap.NativeCrossmap.AddBatch | src/Integrations/GTA5_Enhanced/Natives/Native_Crossmap.cpp:49-56 | Adds in order up to the first failure |
| Crossmap.NativeCrossmap.ToRuntime | src/Integrations/GTA5_Enhanced/Natives/Native_Crossmap.cpp:58-65 | The translation, counted as translated or missed |
| Crossmap.NativeCrossmap.ToCanonical | src/Integrations/GTA5_Enhanced/Natives/Native_Crossmap.cpp:67-74 | The reverse translation, counted as translated or missed |
| Crossmap.NativeCrossmap.InvalidateBuild | src/Integrations/GTA5_Enhanced/Natives/Native_Crossmap.cpp:135-141 | Removes exactly the build's keys from both maps |
| Crossmap.NativeCrossmap.Snapshot | src/Integrations/GTA5_Enhanced/Natives/Native_Crossmap.cpp:151-158 | Lists every entry once, in an arbitrary order |
| CrossmapText.SaveText | src/Integrations/GTA5_Enhanced/Natives/Native_Crossmap.cpp:88-97 | Writes the header and one upper-case hex line per entry, in the snapshot's order |
| CrossmapText.LoadText | src/Integrations/GTA5_Enhanced/Natives/Native_Crossmap.cpp:99-133 | Unreadable file, a first line that is not the header, or the batch of well-formed lines of the expected build |
| CrossmapText.ReadLineMeaning | src/Integrations/GTA5_Enhanced/Natives/Native_Crossmap.cpp:108-126 | A line gives an entry exactly when it reads three hex numbers and a name, with a tab after each number, of the build asked for, if one is |
| CrossmapText.ParsedMeaning | src/Integrations/GTA5_Enhanced/Natives/Native_Crossmap.cpp:107-129 | The batch holds in order what the lines that hold an entry hold, and nothing else |
| CrossmapText.LineRoundTrip | src/Integrations/GTA5_Enhanced/Natives/Native_Crossmap.cpp:93-126 | A saved line reads back as its entry for every 64-bit value and every newline-free name, tabs included |
| CrossmapText.Rebuild | src/Integrations/GTA5_Enhanced/Natives/Native_Crossmap.cpp:129 | Adding the entries of a bijection to an empty crossmap, in any order, succeeds and rebuilds both maps |
| CrossmapText.SaveThenLoad | src/Integrations/GTA5_Enhanced/Natives/Native_Crossmap.cpp:88-133 | Loading the saved text succeeds without collision and rebuilds exactly both maps, or exactly the expected build's restriction |
| CrossmapText.SaveAndReload | src/Integrations/GTA5_Enhanced/Natives/Native_Crossmap.cpp:88-133 | The same on real crossmaps |
| CrossmapText.RoundTripIff | src/Integrations/GTA5_Enhanced/Natives/Native_Crossmap.cpp:88-133 | The full round trip succeeds exactly when no name contains a newline |
| CrossmapText.NewlineNameIsLost | src/Integrations/GTA5_Enhanced/Natives/Native_Crossmap.cpp:88-133 | The crossmap reached by adding one entry named by a newline is one that does not come back |
| CrossmapText.LoadedEntriesAreOfBuild | src/Integrations/GTA5_Enhanced/Natives/Native_Crossmap.cpp:125-126 | A load for one build adds entries of that build only, and some entry exactly when the file has any |
| NativeInvoker.RegisteringAllKeepsHandlers | src/Integrations/GTA5_Enhanced/Natives/Native_Table.cpp:9-32 | Registration never changes the handler of a registered hash |
| NativeInvoker.CacheSoundThroughoutIff | src/Integrations/GTA5_Enhanced/Natives/Native_Table.cpp:62-66 | Over every run of registrations, calls, crossmap changes, cache removals, restarts and table clears, each cached handler is the table's throughout exactly when every table clear found the cache empty |
| NativeInvoker.PathsAgreeIff | src/Integrations/GTA5_Enhanced/Natives/Native_Invoker.cpp:55-73 | With such table clears the cached and the crossmap-plus-table path never pick different handlers, and agree exactly when no cached handler has lost its table validation |
| NativeInvoker.PathsAgreeIffVouched | src/Integrations/GTA5_Enhanced/Natives/Native_Invoker.cpp:55-73 | After any run at all the two paths agree exactly when the table still vouches for the cached handler |
| NativeInvoker.RevocationIsIgnored | src/Integrations/GTA5_Enhanced/Natives/Native_Table.cpp:15-22 | Registering a handler again as unvalidated leaves its cached copy in use |
| NativeInvoker.TableClearIsIgnored | src/Integrations/GTA5_Enhanced/Natives/Native_Table.cpp:62-66 | Clearing the table and registering another handler leaves the old cached one in use |
| NativeInvoker.IndexedPick | src/Integrations/GTA5_Enhanced/Natives/Native_Handler_Table.hpp:44-56 | A call by index reaches a handler exactly when its slot holds a validated non-null one |
| NativeInvoker.CallsBalance | src/Integrations/GTA5_Enhanced/Natives/Native_Invoker.cpp:7-76 | Over every run each call adds one failure and at most one hit |
| NativeInvoker.StatisticsBalance | src/Integrations/GTA5_Enhanced/Natives/Native_Invoker.cpp:46-76 | While the crossmap counters are not started over, its lookups are accounted for: one per translation or cached lookup a client asks for, and per call by hash one on a cache hit, three on a table hit, two otherwise |
| NativeInvoker.NativeTable.Register | src/Integrations/GTA5_Enhanced/Natives/Native_Table.cpp:9-23 | Rejects null and colliding registrations, else replaces the entry |
| NativeInvoker.NativeTable.RegisterBatch | src/Integrations/GTA5_Enhanced/Natives/Native_Table.cpp:25-32 | Registers in order up to the first failure |
| NativeInvoker.BatchInTurn | src/Integrations/GTA5_Enhanced/Natives/Native_Table.cpp:25-32 | A batch that succeeds so far takes one more registration as a single one; one that failed takes none |
| NativeInvoker.NativeManager.Initialize | src/Integrations/GTA5_Enhanced/Natives/Native_Manager.cpp:11-39 | The crossmap it starts with and why it is not ready; ready exactly when the build is known and the file holds, without a collision, an entry of that build, and then only that build is loaded |
| NativeInvoker.NativeManager.FindCached | src/Integrations/GTA5_Enhanced/Natives/Native_Manager.cpp:63-68 | Looks the cache up under the translated hash |
| NativeInvoker.NativeManager.CacheResolved | src/Integrations/GTA5_Enhanced/Natives/Native_Manager.cpp:70-78 | Stores the handler under the translated hash, if there is one |
| NativeInvoker.NativeInvoker.Invoke | src/Integrations/GTA5_Enhanced/Natives/Native_Invoker.cpp:46-76 | The error, handler picked and every counter and cache change of a call by hash |
| NativeInvoker.InvokedHashMeaning | src/Integrations/GTA5_Enhanced/Natives/Native_Invoker.cpp:46-76 | Each outcome of a call by hash with its exact condition, handler, counters, crossmap lookups and cache change |
| NativeInvoker.NativeInvoker.InvokeIndexed | src/Integrations/GTA5_Enhanced/Natives/Native_Invoker.cpp:19-44 | The error, handler picked and counters of a call by index |
| NativeInvoker.InvokedIndexMeaning | src/Integrations/GTA5_Enhanced/Natives/Native_Invoker.cpp:19-44 | Each outcome of a call by index with its exact condition, handler and counters |
| Logger.EveryRunKeepsInv | src/Backend/Logging/LoggerService.cpp:18-113 | Every reachable state keeps the FIFO, lifecycle and sequence invariants |
| Logger.AcceptedIsWrittenInOrder | src/Backend/Logging/LoggerService.cpp:26-113 | Accepted is written ++ in hand ++ queue; once `Stop` has returned everything accepted is written, once, in accept order |
| Logger.WrittenIsOrdered | src/Backend/Logging/LoggerService.cpp:47-64 | Sinks never see a sequence number twice and see each producer's in increasing order |
| Logger.WrittenWereLogged | src/Backend/Logging/LoggerService.cpp:47-64 | Every record the sinks receive is one log call's: its producer, its message, and the count of calls so far as its number |
| Logger.RisingIffOneProducer | src/Backend/Logging/LoggerService.cpp:47-64 | The sinks see rising sequence numbers in every run of a set of producers exactly when the set has at most one producer |
| Logger.NotOrderedAcrossProducers | src/Backend/Logging/LoggerService.cpp:50-62 | Any two producers have a run that writes the later number first |
| Logger.DrainEnds | src/Backend/Logging/LoggerService.cpp:86-113 | After accepting ends the worker is never blocked before it exits and each of its steps uses up work nobody can add |
| Logger.LoggerService.Drain | src/Backend/Logging/LoggerService.cpp:103-112 | The drain loop terminates having written everything accepted |
| Logger.LoggerService.OfferRecord | src/Backend/Logging/LoggerService.cpp:58-62 | The locked half of a log call pushes or drops the record |
| Logger.LoggerService.TakeFront | src/Backend/Logging/LoggerService.cpp:97-98 | The worker takes the oldest record |
| Logger.LoggerService.Dispatch | src/Backend/Logging/LoggerService.cpp:115-119 | The record in hand reaches the sinks |
| Logger.LoggerService.BeginStopService | src/Backend/Logging/LoggerService.cpp:28-32 | Stopping ends acceptance, or returns when there is nothing to stop |
| Executor.EveryRunKeepsInv | src/Backend/Threading/ThreadManager.cpp:9-67 | Every reachable state keeps conservation and the shutdown lifecycle |
| Executor.TasksAreConserved | src/Backend/Threading/ThreadManager.cpp:19-67 | Tasks are taken in accept order, and each taken task is at all times running on one worker or finished, once |
| Executor.StoppedExecutor | src/Backend/Threading/ThreadManager.cpp:38-48 | After `Stop` nothing runs, and accepted is finished plus still queued |
| Executor.NothingAcceptedAfterStop | src/Backend/Threading/ThreadManager.cpp:23-27 | Once acceptance ends it never resumes and nothing more is accepted |
| Executor.StopDrainsIff | src/Backend/Threading/ThreadManager.cpp:38-67 | From any point, stopping leaves at most the queued tasks beyond one per worker already past its stop check, and in some interleaving exactly those; so it drains the queue in every interleaving exactly when there are no more queued tasks than such workers |
| Executor.StopMayLeaveTasksPending | src/Backend/Threading/ThreadManager.cpp:50-67 | A reachable run in which `Stop` returns with an accepted task still queued |
| Executor.StopEnds | src/Backend/Threading/ThreadManager.cpp:38-67 | `Stop` ends in every interleaving: once nothing is accepted the workers and the stopping thread make a bounded number of steps, and until `Stop` returns one of them can make the next, whatever submitters do |
| Executor.AskedWorkersCanExit | src/Backend/Threading/ThreadManager.cpp:52-66 | A worker asked to stop is never blocked and exits after boundedly many of its steps |
| Executor.QueueExecutor.PushOrReject | src/Backend/Threading/ThreadManager.cpp:23-27 | The locked half of a submit accepts the task or reports the stopped executor |
| Executor.QueueExecutor.TurnOf | src/Backend/Threading/ThreadManager.cpp:52-63 | A worker's turn: exit when asked, leave on an empty closed queue, else take the oldest task |
| Executor.QueueExecutor.CloseAndAsk | src/Backend/Threading/ThreadManager.cpp:40-46 | Stopping closes the queue and asks every worker to stop, and changes nothing else |
| MemoryManager.SubtractionNeverClamps | src/Backend/Memory/Memory_Manager.cpp:90-91 | The saturating subtraction never clamps while accounting is exact |
| MemoryManager.EveryHistoryIsExact | src/Backend/Memory/Memory_Manager.cpp:63-136 | While live bytes fit in 64 bits: bytes in use are the live bytes, in all and per tag; the peak is the high-water mark since the last reset; tag peaks are at most it and it at most their sum |
| MemoryManager.ExactIffFits | src/Backend/Memory/Memory_Manager.cpp:86-106 | The counter shows the live bytes throughout a history exactly when they fit in 64 bits |
| MemoryManager.EveryHistoryBalances | src/Backend/Memory/Memory_Manager.cpp:85-135 | Over every history, wrap-around included: the active count is the number of live allocations, totals are the wrapped sums of the per-tag parts, and registrations are live, released or replaced |
| MemoryManager.LiveIffRegistered | src/Backend/Memory/Memory_Manager.cpp:63-136 | Over every history an address is live exactly when its last effective registration came after its last effective release and the last reset, and then with that registration's size, tag and owner |
| MemoryManager.ReleasedEffect | src/Backend/Memory/Memory_Manager.cpp:110-136 | A tracked release takes the address out of the live map and changes no other entry, takes its size from the bytes in use and the tag's bytes, and moves the counts by one; any other changes nothing |
| MemoryManager.AllocatedEffect | src/Backend/Memory/Memory_Manager.cpp:63-108 | A tracked registration makes the address live with its size, tag, owner and the next id in place of what was there, and moves each counter by what that adds and takes; any other changes nothing |
| MemoryManager.AllocatedTags | src/Backend/Memory/Memory_Manager.cpp:63-108 | The statistics of the tag entered and of the tag replaced after a registration; no other tag's change |
| MemoryManager.MemoryManager.RegisterAllocation | src/Backend/Memory/Memory_Manager.cpp:63-108 | The whole new state of a registration, re-registration of a live address included, which `AllocatedEffect` and `AllocatedTags` spell out |
| MemoryManager.MemoryManager.RegisterDeallocation | src/Backend/Memory/Memory_Manager.cpp:110-136 | The whole new state of a deallocation, which `ReleasedEffect` spells out |
| MemoryManager.MemoryManager.UpdatePeak | src/Backend/Memory/Memory_Manager.cpp:199-207 | The peak becomes the maximum |
| MemoryManager.MemoryManager.ResetStatistics | src/Backend/Memory/Memory_Manager.cpp:178-190 | Everything but the tracking switch returns to its initial value |
| MemoryManager.MemoryManager.FindLeaks | src/Backend/Memory/Memory_Manager.cpp:166-176 | Lists every live allocation once |
| ScriptGlobals.AdjacentSuffices | src/Integrations/GTA5_Enhanced/Script/Globals/Script_Global_Manager.cpp:25-30 | After sorting, neighbours are apart exactly when all pairs are disjoint |
| ScriptGlobals.ScriptGlobalManager.Configure | src/Integrations/GTA5_Enhanced/Script/Globals/Script_Global_Manager.cpp:10-36 | Succeeds exactly on a non-zero fingerprint and valid, non-overflowing, pairwise disjoint blocks, and otherwise names the first bad block's fault or the overlap; failure changes nothing |
| ScriptGlobals.ScriptGlobalManager.Resolve | src/Integrations/GTA5_Enhanced/Script/Globals/Script_Global_Manager.cpp:45-60 | The slot address in the first block that contains the index, not configured without a fingerprint, or outside when no block contains it |
| ScriptGlobals.ResolvedByTheBlock | src/Integrations/GTA5_Enhanced/Script/Globals/Script_Global_Manager.cpp:52-59 | At most one block contains an index and whichever does gives the answer |
| ScriptGlobals.ResolvedUnderReordering | src/Integrations/GTA5_Enhanced/Script/Globals/Script_Global_Manager.cpp:45-60 | Resolution does not depend on the order the blocks were given in |
| ScriptGlobals.FirstSlotIsBase | src/Integrations/GTA5_Enhanced/Script/Globals/Script_Global_Manager.cpp:57-59 | The first index of a block resolves to its base |
| ScriptGlobals.SlotsAreEightApart | src/Integrations/GTA5_Enhanced/Script/Globals/Script_Global_Manager.cpp:57-59 | Neighbouring indices of a block are eight bytes apart |
| ScriptGlobals.HopsComposeIff | src/Integrations/GTA5_Enhanced/Script/Globals/Script_Global_Manager.cpp:74-78 | Two hops, with or without a manager, are one hop of the sum exactly when the first loses nothing to zero or to 32-bit truncation; always when the index between is a 32-bit index |
| ScriptGlobals.HopsMeetIff | src/Integrations/GTA5_Enhanced/Script/Globals/Script_Global_Manager.cpp:74-78 | Two hops from one handle meet exactly when both fall below zero or neither does and they are a multiple of 2^32 apart, or, without a manager, one falls below zero and the other lands on index zero |
| ScriptGlobals.HopsThroughZeroLoseTheManager | src/Integrations/GTA5_Enhanced/Script/Globals/Script_Global_Manager.cpp:74-78 | One input on which two hops are not one: from index 5 down by 6 and up by 1 loses the manager that the hop by -5 keeps |
| FileMonitor.FileSystemMonitor.Diff | src/Backend/Filesystem/File_System_Monitor.cpp:95-108 | One poll emits exactly the events the change calls for, at most one per path, in an arbitrary order |
| FileMonitor.PollReplays | src/Backend/Filesystem/File_System_Monitor.cpp:94-110 | Replaying a poll's events over the old paths is legal and gives the new paths |
| FileMonitor.FlipsAlternate | src/Backend/Filesystem/File_System_Monitor.cpp:94-110 | In a legal event sequence a path's creations and removals strictly alternate |
| FileMonitor.FileSystemMonitor.Poll | src/Backend/Filesystem/File_System_Monitor.cpp:84-111 | A failed snapshot changes nothing; a good one reports exactly the difference and replaces the snapshot |
| FileMonitor.FileSystemMonitor.Run | src/Backend/Filesystem/File_System_Monitor.cpp:82-112 | Over any run of polls the emitted events replay the first paths legally to the last |
| MemoryReader.ReadLocalMemory | src/Backend/Process/Process_Memory_Reader.cpp:12-52 | Succeeds exactly when every byte is in a committed region that is neither guarded nor closed and really holds it, and then each byte is memory's; a failure names the first unreadable byte, with all before it copied and the rest untouched |
| MemoryReader.TopByteNeverReadable | src/Backend/Process/Process_Memory_Reader.cpp:37-43 | The top byte of memory is never deemed readable, so no wrapping range can be read |
| MemoryReader.ResolveChain | src/Integrations/GTA5_Enhanced/Memory/GTA_Address_Resolver.cpp:41-74 | A null match fails; otherwise the chain runs op by op to its first failure |
| MemoryReader.ChainsCompose | src/Integrations/GTA5_Enhanced/Memory/GTA_Address_Resolver.cpp:50-73 | Running a concatenation is running its parts in turn |
| MemoryReader.AddChain | src/Integrations/GTA5_Enhanced/Memory/GTA_Address_Resolver.cpp:53-61 | From any address, a chain of additions succeeds exactly when every partial sum of the signed reading is positive, and then adds them up |
| MemoryReader.RipFindsTarget | src/Integrations/GTA5_Enhanced/Memory/GTA_Address_Resolver.cpp:11-38 | A readable displacement holding the distance from its end to a target resolves to that target |
| MemoryReader.RipTargetMeaning | src/Integrations/GTA5_Enhanced/Memory/GTA_Address_Resolver.cpp:11-38 | Each outcome of a relative step: a field not above zero, one not readable, a target not above zero, or the target |

## Left out

- Fingerprint mixing (`FingerprintValue`): a module's fingerprint is a given 64-bit value; different image metadata may collide.
- Module inspection, section headers and module lookup: a module's description is given data.
- Elapsed times, log messages and error formatting; errors are kept as kinds with the data a caller can act on.
- Allocation failures and submitting an empty task.
- Liveness of condition-variable wake-ups: a waiting thread is taken to step whenever its wait condition holds.
- Memory orderings: every atomic operation and every locked region is one step.
- Statistics counters of the scanner, crossmap and invoker, task ids and log sequence numbers are unbounded naturals; allocation accounting does model 64-bit wrap-around.
- The compare-and-swap retry loop of the peak update: it runs inside the lock, so it is a plain maximum.
- PatternManager.PatternManager.ResolveParallel: says what text is saved, not whether writing it succeeds, which is only logged; a job does not throw after its store.
- Storing into the native cache other than by a call, which `Cache()` permits.
- Remote process reads, memory-reader argument checks and `VirtualQuery` failures beyond "no region".
- MemoryReader.RipFindsTarget: the displacement ends below 2^63, beyond which the source's signed sum overflows.
- MemoryReader.AddChain: assumes sums stay below 2^63, where signed overflow is undefined in the source; a first sum below -2^63, undefined there too, counts as not positive.
- CachePersistence.EveryModuleRoundTripsIff: leaves out entries at offset 2^64 - 1, which no 64-bit image size reaches, so no load brings them back whatever their names.
- ScriptGlobals.HopsComposeIff: assumes the sum of the two offsets is a 64-bit offset.
- Machine-code bridges, loader hooks, target evidence and validators, build registries, log sinks and service lifecycle flags.
