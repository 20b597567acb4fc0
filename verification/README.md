# Verified models of the firmware tools

This project models the algorithmic parts of a Nintendo Switch pack updater and of the RCM payload
that comes with it, and proves what they keep, compute and undo. Each file models one source file
or one layer of it. Code that works in place is modelled in place: memory arrays with in-band list
nodes, page tables in physical memory, an array of directory cursors, a line buffer cut with NULs.
Every such method is proved against a function or predicate on values, and the main results are
lemmas about those.

| files | subject |
|---|---|
| `HeapBlocks`, `HeapRuns`, `Heap` | the first-fit allocator of the bootloader |
| `SmmuTables`, `SmmuFlat`, `Smmu`, `SmmuRuns`, `SmmuMixed` | two-level I/O page tables as a flat map |
| `TreeFs`, `TreeWalk`, `TreeRemove`, `TreeCopy`, `FolderOps` | the bounded-stack walk that copies or deletes a folder |
| `IniText`, `IniParse`, `IniLines`, `IniRoundTrip` | the INI parser and what it makes of printed text |
| `Numbers`, `Autoboot`, `AutobootEdit`, `AutobootTrip`, `AutobootStatus` | parse, edit by line number, parse again |
| `Crc8` | the Joy-Con CRC-8 and the Sio header check |
| `ServiceGuard`, `ServiceThreads` | a reference count under a mutex, alone and interleaved |
| `Version` | the version comparison |
| `GetDelim` | reading delimited records into a growing buffer |
| `Installer` | the firmware installation over all service replies |
| `Emunand` | a list counted in one pass and filled in a second |
| `Download` | the buffered and the in-memory download callback |
| `Options` | a value that may be missing |

Run `dafny verify dfyconfig.toml` with `--resource-limit 2000000 --verification-time-limit 0`.

## What the code does that its callers might not expect

- `ALIGN` in `heap.c` is computed in 32 bits: the aligned size covers the request exactly up to
  0xFFFFFFE0 (`HeapBlocks.AlignCovers`).
- `amssu-rcm/Makefile:54` builds with `BDK_MALLOC_NO_DEFRAG`, so a freed block is never reused
  there. The model has both builds (`Heap.Heap.defrag`, `HeapRuns.Build`); only the results about
  merging and reuse are about the other one.
- Deleting a folder leaves directories 12 or more levels below the root, all inside them and all
  that leads to them; the rest goes (`TreeRemove.Spared`).
- The editor of `hekate_ipl.ini` drops what stands between a NUL and the end of the string it has
  read, the newline included (`AutobootEdit.RewriteFile`, `AutobootEdit.NulIsLost`).
- `downloadFile` looks only at the result of its last write: after a short write in between an
  incomplete file is reported as a success (`Download.ShortWriteUnnoticed`; exactly when, in
  `Download.DownloadFile` and `Download.ReportedIsComplete`).
- The parser counts a line longer than 1002 bytes as several lines, the editor of
  `hekate_ipl.ini` does not: both mean the same line exactly when no earlier line is longer
  (`AutobootEdit.SameNumbers`). A setting on a last line without newline is never replaced
  (`AutobootEdit.RewriteUnended`).
- The global `hekate_autoboot` receives the `autoboot_list` value (`source/main_config.c:500-502`), and
  disabling is refused while it is not 0. So disabling works exactly on files in which autoboot is
  already 0 or the list setting is 0 (`AutobootStatus.DisableWorks`).
- The buffer for the second setting has room for numbers above -1000000000 only
  (`Autoboot.ParamsFit`).
- `build_emunand_list` does not reset the count before its first pass. The array is never too small;
  it has exactly the size of the list if and only if the count started at 0, or started low enough
  and twelve entries exist (`Emunand.SizeFits`). In this program it is exact: the only call
  (`amssu-rcm/source/main.c:898`) finds the count at its initial 0. `Emunand.SizeTooLarge` is about a
  second call.
- `verify_update` ignores every character other than digits and dots, and a dot at the end adds no component.
- After a failed opening the service guard calls the cleanup function before it lowers the count; the
  model counts this as the one closing that follows a failed opening (`ServiceGuard.Replay`).

## Model

| member | source | states |
|---|---|---|
| HeapBlocks.AlignCovers | amssu-rcm/bdk/mem/heap.c:37 | the 32-bit rounding yields a multiple of 32 that covers the request if and only if the request is at most 0xFFFFFFE0 |
| HeapBlocks.AlignWraps | amssu-rcm/bdk/mem/heap.c:37 | a request of 0xFFFFFFFF bytes is rounded to 0: appended to any list, it gets an empty block |
| HeapBlocks.PlaceKeeps | amssu-rcm/bdk/mem/heap.c:58-111 | handing out or appending a block keeps tiling and alignment, adds exactly one live block at its place, and moves the heap end only when appending |
| HeapBlocks.PlaceNoAdjacentFree | amssu-rcm/bdk/mem/heap.c:62-91 | neither a split nor an append leaves two free neighbours |
| HeapBlocks.FirstFit | amssu-rcm/bdk/mem/heap.c:59-98 | the slot chosen is the first free block that is large enough; if there is none, no block fits |
| HeapBlocks.PlaceExact | amssu-rcm/bdk/mem/heap.c:64-91 | a remainder of 128 bytes or more becomes a free block directly behind the granted one, 32 bytes smaller; a smaller remainder stays with the granted block; the other blocks stay |
| HeapBlocks.MergeKeeps | amssu-rcm/bdk/mem/heap.c:126-133 | joining two free neighbours keeps tiling, alignment, end and live blocks |
| HeapBlocks.ClearKeeps | amssu-rcm/bdk/mem/heap.c:116-117 | clearing `used` takes exactly that block from the live ones |
| HeapBlocks.CoalesceKeeps | amssu-rcm/bdk/mem/heap.c:121-136 | merging all runs of free neighbours keeps tiling, alignment, end and live blocks and leaves no free neighbours |
| HeapBlocks.Canonical | amssu-rcm/bdk/mem/heap.c:121-136 | a tiling without free neighbours is determined by its live blocks and its end |
| HeapBlocks.SweptIsCoalesced | amssu-rcm/bdk/mem/heap.c:121-136 | whatever one pass leaves, if no pair is free and the live blocks are the same, is the recursively merged list |
| HeapBlocks.TotalSpans | amssu-rcm/bdk/mem/heap.c:180-203 | all block sizes, headers included, add up to end minus start |
| HeapBlocks.TotalSplits | amssu-rcm/bdk/mem/heap.c:183-189 | the bytes between start and end split exactly into live and free blocks, headers included |
| HeapRuns.MallocKeeps | amssu-rcm/bdk/mem/heap.c:32-112 | in both builds an allocation makes one new block live, aligned and large enough, and keeps every live block with address and size; the build that reuses blocks moves the heap end only if no free block can hold the request |
| HeapRuns.MallocExact | amssu-rcm/bdk/mem/heap.c:32-112 | the block handed out starts where the first large enough free block starts (with reuse), or at the end; it exceeds a request of at most 0xFFFFFFE0 bytes by less than 160 bytes, at the end by less than 32 |
| HeapRuns.FreeKeeps | amssu-rcm/bdk/mem/heap.c:114-138 | a free takes exactly the freed block from the live ones; all others keep address and size, and without merging so do the free ones |
| HeapRuns.StepKeeps | amssu-rcm/bdk/mem/heap.c:32-173 | in both builds every legal call, frees below the heap start included, keeps tiling, alignment, the top of memory and (when merging) the absence of free neighbours, and the live blocks are those the callers hold |
| HeapRuns.RunKeeps | amssu-rcm/bdk/mem/heap.c:32-173 | in both builds, after any legal sequence of calls the live blocks are exactly those given out and not freed, each with address and size as given, aligned, inside memory and apart; the list tiles memory |
| HeapRuns.Play | amssu-rcm/bdk/mem/heap.c:32-173 | the program on memory makes any such sequence end in that list, and leaves the bytes of every block that is held throughout |
| Heap.Heap.constructor | amssu-rcm/bdk/mem/heap.c:24-29 | an initialized heap is valid and has no block |
| Heap.LinkTail | amssu-rcm/bdk/mem/heap.c:102-109 | the header writes of an append leave every node correctly linked both ways |
| Heap.LinkCarve | amssu-rcm/bdk/mem/heap.c:66-88 | so do those of a grant with or without a split |
| Heap.LinkMerge | amssu-rcm/bdk/mem/heap.c:128-132 | so do those of a merge, and no live payload byte changes |
| Heap.LinkClear | amssu-rcm/bdk/mem/heap.c:116-117 | so does clearing one `used` word |
| Heap.PayloadWrites | amssu-rcm/bdk/mem/heap.h:23-37 | a caller who writes only inside his block leaves all headers and all other payloads alone |
| Heap.Heap.Search | amssu-rcm/bdk/mem/heap.c:59-98 | the walk along `next` stops at the first fitting free node, or at the true tail |
| Heap.Heap.Alloc | amssu-rcm/bdk/mem/heap.c:32-112 | the invariant holds again; the block list is the specified one; the address is 32-byte aligned with room for the aligned request; no byte of a live block changes |
| Heap.Heap.Sweep | amssu-rcm/bdk/mem/heap.c:118-136 | one left-to-right pass over the nodes in memory produces the fully merged list |
| Heap.Heap.Free | amssu-rcm/bdk/mem/heap.c:114-138 | exactly the freed block leaves the live ones, free neighbours are merged, no byte of a live block changes; pointers below the start are ignored (amssu-rcm/bdk/mem/heap.c:169-173) |
| Heap.Heap.ZeroAlloc | amssu-rcm/bdk/mem/heap.c:155-167 | as malloc, and the whole aligned size is 0 |
| Heap.Heap.Stats | amssu-rcm/bdk/mem/heap.c:175-204 | the total is end minus start, used is the size of the live blocks and the rest that of the free ones, both node counts are right |
| SmmuTables.FrameLaw | amssu-rcm/bdk/mem/smmu.h:30-57 | a frame number stored in the overlaid fields is read back modulo the width of the field |
| SmmuTables.StoredFlags | amssu-rcm/bdk/mem/smmu.h:25-27 | an attribute number stored in its 3-bit field is, modulo 8, the sum of NS = 1, WRITE = 2 and READ = 4 for the permissions it grants |
| SmmuTables.NoneAndAll | amssu-rcm/bdk/mem/smmu.h:25-28 | the attributes of fresh entries are 0, those of an entry that names a table 7 |
| SmmuTables.FieldLaw | amssu-rcm/bdk/mem/smmu.h:30-57 | the fields of an entry lie in the bits the header gives them: frame 0 to 21, page of a 4 MB entry 10 to 21, next 28, attributes 29 to 31 |
| SmmuTables.PteWrite | amssu-rcm/bdk/mem/smmu.c:242-245 | writing one table entry changes the translation of one page of one domain |
| SmmuTables.HangTable | amssu-rcm/bdk/mem/smmu.c:216-229 | a new table leaves every other region and domain as it was; in its own region every page maps to itself without permissions |
| SmmuTables.HugeWrite | amssu-rcm/bdk/mem/smmu.c:261-264 | a 4 MB entry changes the 1024 pages of its region in one domain |
| SmmuTables.NewDirectory | amssu-rcm/bdk/mem/smmu.c:85-94 | a new directory is a domain in which every page maps to itself without permissions, and disturbs no other |
| SmmuTables.Untouched | amssu-rcm/bdk/mem/smmu.c:75-83 | clearing pages beyond the top changes no translation |
| SmmuFlat.MappedPlain | amssu-rcm/bdk/mem/smmu.c:237-249 | without wrap-around page v0 + i gets frame p0 + i, and only these pages are mapped |
| SmmuFlat.RegionsPlain | amssu-rcm/bdk/mem/smmu.c:206-214 | without wrap-around the regions touched are those from the first page's to the last page's |
| SmmuFlat.MappedHugeRegions | amssu-rcm/bdk/mem/smmu.c:254-268 | a 4 MB mapping maps the pages of exactly its regions, with its permissions |
| SmmuFlat.HugeIsPages | amssu-rcm/bdk/mem/smmu.c:254-268 | n regions and 1024 n pages at the same aligned addresses are one assignment |
| SmmuFlat.HugeEqualsPages | amssu-rcm/bdk/mem/smmu.c:237-271 | for each page, whatever it translated to before, the entry expected after `smmu_map_huge` is the one expected after `smmu_map` of the same addresses |
| SmmuFlat.SameTranslations | amssu-rcm/bdk/mem/smmu.c:237-271 | run from the same state, both calls leave memories in which the table walk gives the same translation for every page of every domain |
| SmmuFlat.MapIsFlat | amssu-rcm/bdk/mem/smmu.c:206-252 | `smmu_map` is an assignment to the flat map: the mapped pages get frame and permissions, all other pages of all domains translate as before, also beside them in a table just created |
| SmmuFlat.MapGives | amssu-rcm/bdk/mem/smmu.c:237-252 | after `smmu_map` the table walk of every mapped page yields its frame and exactly the permissions whose constants add up to the lower three bits of the given attributes |
| SmmuFlat.HugeGives | amssu-rcm/bdk/mem/smmu.c:254-271 | the same for the 1024 pages of each region after `smmu_map_huge` |
| SmmuFlat.MapUses | amssu-rcm/bdk/mem/smmu.c:206-235 | a call takes one page for each touched region that had no table |
| SmmuFlat.MapTables | amssu-rcm/bdk/mem/smmu.c:206-235 | the tables of a domain become those of the old and the touched regions, never more than 1024 |
| Smmu.Smmu.PageZalloc | amssu-rcm/bdk/mem/smmu.c:75-83 | the pages are zero, were free, and no translation changes |
| Smmu.Smmu.PdirAlloc | amssu-rcm/bdk/mem/smmu.c:85-94 | every entry names its own region and grants nothing |
| Smmu.Smmu.InitDomain | amssu-rcm/bdk/mem/smmu.c:166-179 | a new domain in which every page maps to itself without permissions; the others are unchanged |
| Smmu.Smmu.GetPte | amssu-rcm/bdk/mem/smmu.c:206-235 | the entry found or created is that of the address, in the only table of its region |
| Smmu.Smmu.Map | amssu-rcm/bdk/mem/smmu.c:237-252 | the loop makes of the memory what the assignment of `pages` pages makes of the flat map; the walk of every mapped page yields its frame and the attributes as the sum of NS = 1, WRITE = 2, READ = 4 |
| Smmu.Smmu.MapHuge | amssu-rcm/bdk/mem/smmu.c:254-271 | the same for 4 MB regions, with the tables they replace given up; every page of them yields its frame and the same sum |
| SmmuRuns.RunRefines | amssu-rcm/bdk/mem/smmu.c:75-252 | after any run of domain creations and mappings every domain translates every page as its own calls say, and owns exactly the tables of the regions it touched |
| SmmuRuns.RunUses | amssu-rcm/bdk/mem/smmu.c:75-252 | the pages used are one for each directory and one for each table, at most 1024 tables for each domain |
| SmmuRuns.OnlyRoomMissing | amssu-rcm/bdk/mem/smmu.c:206-235 | after any such run the next mapping call needs nothing but room for the missing tables: no 4 MB entry is in its way |
| SmmuMixed.RunFollows | amssu-rcm/bdk/mem/smmu.c:75-271 | after any run that mixes 4 KB and 4 MB mappings every domain translates every page as its calls say, and the regions with a table are those mapped in 4 KB pages since their last 4 MB entry |
| SmmuMixed.LatestWins | amssu-rcm/bdk/mem/smmu.c:75-271 | if all 4 MB mappings grant something, such a run is a flat map: for every page the last call that assigned it decides |
| TreeFs.Ancestors | amssu-rcm/source/tools.c:1074-1181 | in a proper volume every ancestor of a node is a directory that lists the next step |
| TreeFs.MadeProper | amssu-rcm/source/tools.c:1101 | creating a directory or file keeps the volume proper |
| TreeFs.StoredProper | amssu-rcm/source/tools.c:1012 | so does storing a file |
| TreeFs.StoredIs | amssu-rcm/source/tools.c:1012 | storing a file gives it these bytes; no other node changes, except that its directory gets one more slot if the file is new |
| TreeWalk.Begin | amssu-rcm/source/tools.c:1092-1114 | the walk starts sound with nothing seen |
| TreeWalk.Pass | amssu-rcm/source/tools.c:1136-1138 | passing an entry marks it and all below it as finished and keeps the walk sound |
| TreeWalk.Push | amssu-rcm/source/tools.c:1140-1150 | opening a subdirectory keeps it sound |
| TreeWalk.Pop | amssu-rcm/source/tools.c:1119-1124 | so does closing one, which is then finished |
| TreeWalk.AllBelow | amssu-rcm/source/tools.c:1119-1124 | at the end of a directory everything below it has been seen |
| TreeRemove.ShallowTreesGo | amssu-rcm/source/tools.c:1137 | the whole tree is removed if and only if no directory in it is 12 or more levels below the root |
| TreeRemove.DeepTreesStay | amssu-rcm/source/tools.c:1137 | such a directory stays, and so does everything that leads to it |
| TreeRemove.ChainStays | amssu-rcm/source/tools.c:1137 | thirteen nested directories: deleting the uppermost removes none of them |
| TreeRemove.GoneFile | amssu-rcm/source/tools.c:1160-1163 | unlinking a passed file removes exactly that file |
| TreeRemove.GoneDeep | amssu-rcm/source/tools.c:1137-1138 | passing a directory that is too deep removes nothing |
| TreeRemove.EmptyNow | amssu-rcm/source/tools.c:1121-1122 | a finished directory is empty, so that unlinking it succeeds, if and only if it is not spared |
| TreeRemove.PurgeRemoves | amssu-rcm/source/tools.c:1116-1174 | what deleting leaves: a path exists if and only if it existed and is not removed; every file left has its bytes; every directory left has its slots, those of removed entries free |
| TreeRemove.RemovedElsewhere | amssu-rcm/source/tools.c:1116-1174 | so every node outside the deleted tree, but for the directory that listed its root, is unchanged |
| TreeCopy.ShallowTreesCopied | amssu-rcm/source/tools.c:1137 | the whole tree is copied if and only if no directory in it is 12 or more levels below the root |
| TreeCopy.Ready | amssu-rcm/source/tools.c:1140-1153 | when an entry is reached its destination is absent or of its kind, and can be created |
| TreeCopy.CopyOne | amssu-rcm/source/tools.c:1140-1153 | copying one more node leaves the destination as wanted and the source alone |
| TreeCopy.Job.Reads | amssu-rcm/source/tools.c:1118 | on the volume as changed so far the open directory is still there, with its cursor in range |
| TreeCopy.Job.ReadsOne | amssu-rcm/source/tools.c:1118-1127 | an entry found there is the one that stood in that slot at the start, and of the same kind |
| TreeCopy.Job.ReadsNone | amssu-rcm/source/tools.c:1118-1119 | the end found there is the end at the start |
| TreeCopy.Job.UnlinkFinished | amssu-rcm/source/tools.c:1121-1122 | unlinking a finished directory removes it unless it is spared |
| TreeCopy.Job.Finish | amssu-rcm/source/tools.c:1119-1124 | when the last frame is popped the call has done all it promises |
| TreeCopy.CopyingCopies | amssu-rcm/source/tools.c:1140-1153 | what copying leaves: every reached node is at its destination, files with their bytes; no other node came, went or lost a byte or slot, and what is not under the destination is unchanged but for the directory in which it was created |
| FolderOps.Volume.ReadDir | amssu-rcm/source/tools.c:1118-1119 | the next used slot at or behind the cursor, or the end |
| FolderOps.Volume.Copy | amssu-rcm/source/tools.c:1000-1056 | the buffered loop stores exactly the bytes of the source and changes nothing else; after a failing read or write the destination has the first of them and the failure is reported |
| FolderOps.Context.Round | amssu-rcm/source/tools.c:1116-1164 | each round keeps the walk sound and lowers the measure: entries not seen, stack depth, slots ahead |
| FolderOps.Volume.CpOrRmRf | amssu-rcm/source/tools.c:1074-1181 | deleting ends and removes exactly the tree under the root except what is spared, every other file unchanged and every other directory unchanged but for the slots of what went; copying leaves every reached file byte-equal at its destination, the source unchanged and all other paths unchanged |
| IniText.RStripIs | source/ini.c:48-54 | stripping yields the longest prefix that does not end in white space |
| IniText.LSkipIs | source/ini.c:57-62 | skipping yields the longest suffix that does not start with it |
| IniText.FindIs | source/ini.c:67-82 | a search is determined by the positions where it may stop |
| IniText.PieceEnds | source/ini.c:265-288 | a piece ends at the first newline or fills the buffer |
| IniText.RunConcat | source/ini.c:136-234 | parsing a concatenation goes on from the state after the first part |
| IniParse.RStripAt | source/ini.c:48-54 | in-place stripping leaves the stripped string and nothing else changed |
| IniParse.LSkipAt | source/ini.c:57-62 | the pointer returned is where the skipped string starts |
| IniParse.FindAt | source/ini.c:67-82 | the pointer is at the first delimiter, inline comment or NUL |
| IniParse.StrNCpy0 | source/ini.c:86-94 | the buffer holds the string, cut to fit, with its NUL |
| IniParse.Stream.Read | source/ini.c:265-288 | one call reads one piece, and fails only at the end or for a buffer below 2 |
| IniParse.Scan.Line | source/ini.c:157-228 | the cuts in the buffer, the copied names and the handler calls of one line are those of the classified line |
| IniParse.Scan.Parse | source/ini.c:97-241 | the loop over the stream ends in the state of the specification and returns the first error line |
| IniLines.PiecesAreLines | source/ini.c:265-288 | a reader whose buffer no line fills reads exactly the lines |
| IniLines.ParseLines | source/ini.c:97-241 | such a text is parsed line by line |
| IniRoundTrip.TitledLine | source/ini.c:180-187 | a title in brackets, with anything behind it and white space in front if no name is current, is that section |
| IniRoundTrip.HeadLine | source/ini.c:180-187 | a printed section line is classified as that section |
| IniRoundTrip.LaidLine | source/ini.c:197-213 | a name and a value with `=` or `:` between them, white space around both, and an inline comment behind white space, are that name and value |
| IniRoundTrip.FieldLine | source/ini.c:197-213 | a printed pair is classified as that name and value |
| IniRoundTrip.MoreLine | source/ini.c:172-179 | an indented text that is no comment, behind a name, is a continuation with all of that text |
| IniRoundTrip.RemarkLine | source/ini.c:169-171 | a line that starts with `;` or `#`, indented or not, does nothing |
| IniRoundTrip.BlankLine | source/ini.c:167-171 | so does a line of white space |
| IniRoundTrip.BareLine | source/ini.c:216-222 | a name without delimiter is that name alone, without white space and comment behind it |
| IniRoundTrip.UnclosedLine | source/ini.c:191-194 | an opening bracket without a closing one is an error |
| IniRoundTrip.BomIgnored | source/ini.c:160-166 | a byte order mark in front of the first line makes no difference to it |
| IniRoundTrip.RunPrinted | source/ini.c:136-234 | from any state printed lines do one after the other what they mean |
| IniRoundTrip.ParsePrinted | source/ini.c:97-241 | for every handler, parsing printed lines of all these kinds ends in the state they mean: calls with sections and names cut to 49 characters where they are kept, and the first error |
| IniRoundTrip.RoundTrip | source/ini.c:291-298 | parsing printed sections, pairs, continuation lines, comments and blank lines calls the handler with exactly these triples, in order, with their line numbers, and returns the first refused line, 0 if none is refused |
| IniRoundTrip.RoundTripAccepted | source/ini.c:97-241 | with a handler that accepts everything also names alone are reported, up to the first unclosed bracket, whose line is the result |
| Numbers.NumberOfDigits | source/main.cpp:1666-1669 | digits read back give the number printed |
| Numbers.DigitsFit | source/main.cpp:1649-1653 | a number has at most k digits if and only if it is below the k-th power of ten |
| Numbers.DecimalDigits | source/main.cpp:1666-1669 | 1234567890 and -7 are printed with these characters |
| Autoboot.AtollOfItoa | source/main_config.c:466-477 | what "%d" prints atoll reads |
| Autoboot.AtollReads | source/main_config.c:466-477 | white space in front, one sign, digits; what follows is ignored, and without digits the value is 0 |
| Autoboot.IntWraps | source/main_config.c:466-477 | a value beyond an int is stored modulo 2^32 |
| Autoboot.ParamsFit | source/main.cpp:1649-1669 | the edited lines fit their buffers if and only if the second number is above -10^9 |
| Autoboot.ParamTooLong | source/main.cpp:1649-1669 | -1000000000 takes eleven characters |
| Autoboot.ConfiguredIs | source/main_config.c:456-485 | after all calls the struct shows the last call for each key |
| Autoboot.KeysOfConfig | source/main_config.c:456-485 | only `autoboot` and `autoboot_list` of section `config` count: with a number they set it and its line, without a value they are as if absent |
| Autoboot.NextLine | source/main.cpp:1698-1699 | one fgets call reads one piece of at most 999 bytes, of which strlen and fputs see what is in front of a NUL |
| Autoboot.Rewrite | source/main.cpp:1696-1719 | the loop writes what the specification of the edit says, for every text of which no piece starts with NUL |
| Autoboot.PlainIsReadable | source/main.cpp:1698-1699 | every text without NUL is such a text |
| AutobootEdit.RewriteLine | source/main.cpp:1698-1718 | a line of any length is kept or replaced as a whole, if the replaced ones fit the buffer |
| AutobootEdit.RewriteFile | source/main.cpp:1696-1719 | exactly the lines with the two numbers change, if and only if no NUL follows them |
| AutobootEdit.NulIsLost | source/main.cpp:1699-1702 | a text of two lines with a NUL in the first, not copied as it is |
| AutobootEdit.RewriteUnended | source/main.cpp:1699-1702 | a last line without newline is never replaced, and copied if and only if it has no NUL |
| AutobootEdit.UnendedStays | source/main.cpp:1699-1702 | a file of one such line with the setting stays as it is |
| AutobootEdit.CountLine | source/main.cpp:1698-1718 | however long a line is, the editor counts it once |
| AutobootEdit.EditorNumber | source/main.cpp:1697-1718 | behind lines it leaves alone the editor goes on with the number of lines plus one |
| AutobootEdit.SameNumbers | source/main.cpp:1697-1718 | parser and editor give the next line the same number if and only if no line before it is longer than 1002 bytes |
| AutobootEdit.LongLineCountsTwice | source/ini.c:136-157 | behind one line of 1003 bytes the editor is on line 2 and the parser further |
| AutobootEdit.ParseParts | source/ini.c:136-157 | a text that starts with lines that fit is parsed as these lines and then the pieces of the rest |
| AutobootTrip.RunBlind | source/ini.c:136-234 | with a handler that accepts everything the calls made before have no influence |
| AutobootTrip.CallFrom | source/ini.c:157 | every call comes from the line it names |
| AutobootTrip.OneCallPerLine | source/ini.c:169-228 | no two calls of a parse name the same line |
| AutobootTrip.ParamStep | source/main.cpp:1703-1714 | the new line causes the call of the old one with the new value, also where the old one was a continuation line |
| AutobootTrip.SwapSetting | source/main.cpp:1703-1714 | exchanging the line of a setting exchanges the value of its call and nothing else |
| AutobootTrip.NewCallsConfigure | source/main_config.c:456-485 | the changed calls configure the new values at the old lines |
| AutobootTrip.EditsExactly | source/main.cpp:1696-1719 | the file written is the one read with `autoboot=`a and, when enabling, `autoboot_list=`b in the place of the two numbered lines, and nothing else changed |
| AutobootTrip.RoundTrip | source/main.cpp:1684-1721 | parse, edit, parse: same result, every other call unchanged, the new pair at the line numbers just parsed; behind the edited lines any text without NUL may follow |
| AutobootStatus.HekateConfig.Handle | source/main_config.c:456-485 | one call sets one pair of fields or none |
| AutobootStatus.Globals.GetStatus | source/main_config.c:487-516 | the globals follow a parse without error, and keep their values otherwise or if the file is missing |
| AutobootStatus.Globals.UpdateParam | source/main.cpp:1642-1738 | the globals and the file after an update, with the pair given or chosen in the menu, when it is refused, and when a file operation fails |
| AutobootStatus.EnableShows | source/main.cpp:1642-1738 | status, enable, status: the file shows the pair at the old lines, the globals the list setting (0 when a is 0) |
| AutobootStatus.StatusIs | source/main_config.c:487-516 | the globals show the last settings of a file parsed without error, the list setting in the place of a nonzero autoboot; without a file or with an error they stay |
| AutobootStatus.EnableChooses | source/main.cpp:1655-1660 | a given pair whose first number is positive reaches the file, and otherwise the pair of the menu |
| AutobootStatus.UpdateRefused | source/main.cpp:1642-1695 | nothing changes without both settings, for a negative choice, for a nonzero global when disabling, or if a file does not open |
| AutobootStatus.UpdateBroken | source/main.cpp:1722-1726 | a copy that fails leaves the globals as they were |
| AutobootStatus.DisableWorks | source/main.cpp:1679-1683 | disabling yields autoboot 0 if and only if autoboot was 0 or the list setting 0 |
| AutobootStatus.DisableFails | source/main.cpp:1679-1683 | a file of three lines with both settings 1, which disabling leaves as it is |
| Crc8.JcCrc | amssu-rcm/bdk/input/joycon.c:336-351 | the nested loops compute the specified CRC |
| Crc8.CrcLinear | amssu-rcm/bdk/input/joycon.c:336-351 | linear over xor in data and initial value, for every length |
| Crc8.CrcConcat | amssu-rcm/bdk/input/joycon.c:336-351 | composes over concatenation |
| Crc8.CrcAppend | amssu-rcm/bdk/input/joycon.c:336-351 | an appended byte makes the CRC 0 if and only if it is the CRC |
| Crc8.CrcBits | amssu-rcm/bdk/input/joycon.c:340-348 | the bytewise CRC is the bit-serial one, most significant bit first |
| Crc8.BurstDetected | amssu-rcm/bdk/input/joycon.c:336-351 | two different byte strings that differ only within eight consecutive bits have different CRCs |
| Crc8.HeaderIsZero | amssu-rcm/bdk/input/joycon.c:755 | the header check accepts if and only if the CRC of all eight bytes is 0 |
| Crc8.OwnPackets | amssu-rcm/bdk/input/joycon.c:112-128 | the three Sio packets that the source spells out carry the CRC the check computes |
| Crc8.CorruptedHeader | amssu-rcm/bdk/input/joycon.c:753-756 | a valid header corrupted by one burst, the CRC byte included, is refused |
| Crc8.Joycon.SioParse | amssu-rcm/bdk/input/joycon.c:753-782 | a refused packet changes nothing; an accepted one updates the connection as its command says |
| ServiceGuard.Guard.BeginInit | includes/firmwares_install/service_guard.h:13-17 | locks, counts, and tells whether the count was 0 |
| ServiceGuard.Guard.EndInit | includes/firmwares_install/service_guard.h:19-27 | undoes count and session after a failure, and unlocks |
| ServiceGuard.Guard.Initialize | includes/firmwares_install/service_guard.h:43-49 | a whole initialization as one step, and its result |
| ServiceGuard.Guard.ExitService | includes/firmwares_install/service_guard.h:29-35 | a whole exit as one step |
| ServiceGuard.WholeCalls | includes/firmwares_install/service_guard.h:13-35 | only the first user asks the service; a bad reply and the last exit close it, once; all other calls only count |
| ServiceGuard.InitKeepsSound | includes/firmwares_install/service_guard.h:13-27 | an initialization keeps "open exactly when counted" and the order of service events if and only if the 32-bit count does not wrap |
| ServiceGuard.CountWraps | includes/firmwares_install/service_guard.h:13-17 | with 2^32 - 1 users one more initialization leaves the count 0 and the session open |
| ServiceGuard.ExitKeepsSound | includes/firmwares_install/service_guard.h:29-35 | so does an exit |
| ServiceGuard.SerialSound | includes/firmwares_install/service_guard.h:13-54 | after any calls the count is successful initializations minus exits that counted, the session is open exactly when it is positive, and openings and closings alternate |
| ServiceThreads.ActKeepsExclusive | includes/firmwares_install/service_guard.h:13-35 | exactly the owner of the mutex is between lock and unlock |
| ServiceThreads.RunKeeps | includes/firmwares_install/service_guard.h:13-54 | under every interleaving the shared state is that of the finished calls plus what the owner has done so far |
| ServiceThreads.Serializable | includes/firmwares_install/service_guard.h:13-54 | whenever the mutex is free the calls might have been made one after the other with the same results |
| ServiceThreads.FreeMutexSound | includes/firmwares_install/service_guard.h:13-54 | whenever the mutex is free the session is open exactly when the count is positive, and the count is that of the users |
| ServiceThreads.NeverWrong | includes/firmwares_install/service_guard.h:13-54 | at every moment the service has been opened only while closed and closed once after each opening |
| ServiceThreads.OwnerReleases | includes/firmwares_install/service_guard.h:13-35 | the owner is never blocked and unlocks after at most six of its own actions |
| ServiceThreads.WaiterEnters | includes/firmwares_install/service_guard.h:13-35 | a waiting thread that acts while the mutex is free takes it |
| ServiceThreads.AloneCompletes | includes/firmwares_install/service_guard.h:13-54 | a thread that finds the mutex free and is not disturbed completes its call in at most eight actions, with the result, count, session and service events of the call |
| Version.Gather | source/main.cpp:1353-1365 | the digit loop stops behind the first dot and holds the digits in front of it |
| Version.Component | source/main.cpp:1345-1379 | one round reads one component and its value |
| Version.VerifyUpdate | source/main.cpp:1327-1395 | the goto loop ends and answers whether remote is above local in the order defined by the components, with "" and the unknown text as bottom, as long as the components it converts fit an int |
| Version.ComponentsOfDotted | source/main.cpp:1345-1379 | numbers printed in decimal with dots between them are read as these numbers |
| Version.NewerPrinted | source/main.cpp:1345-1394 | for two such texts, neither of them the unknown one, remote is newer if and only if at the first difference local has ended or has the smaller number |
| Version.NewerBottom | source/main.cpp:1327-1333 | an empty or unknown remote version is never newer; any other is newer than an empty or unknown local one |
| Version.LooseVersion | source/main.cpp:1353-1365 | `v1.02b.` reads as 1, 2 |
| Version.LessIs | source/main.cpp:1381-1394 | the first difference decides and a proper prefix is smaller |
| Version.NewerIsStrict | source/main.cpp:1327-1395 | irreflexive, asymmetric and transitive |
| Version.NewerIsWeak | source/main.cpp:1327-1395 | neither is newer if and only if both are bottom or have the same numbers |
| GetDelim.RecordsMakeText | includes/getdelim.h:54-124 | successive records concatenate to the stream, with the delimiter only at the end of each, possibly missing in the last |
| GetDelim.GrowthIsCheap | includes/getdelim.h:89-100 | one growth keeps the bytes moved within 131/32 of the new size |
| GetDelim.Line.Reserve | includes/getdelim.h:89-100 | there is room for a byte and a NUL, and what was read is kept |
| GetDelim.Line.GetDelim | includes/getdelim.h:54-124 | -1 and nothing changed at the end of the stream; otherwise the next record with its NUL inside the buffer, for every capacity of the caller; bytes moved below 131/32 of the final capacity, which is the old one, 128, or at most 5/4 of the record |
| GetDelim.RecordIs | includes/getdelim.h:88-114 | a record ends at the first delimiter, or at the end of the stream |
| GetDelim.Line.ReadAll | includes/getdelim.h:54-124 | a caller who reads until -1 gets all records of the stream in order |
| GetDelim.Line.GetLine | includes/getdelim.h:126-129 | the same as getdelim with newline, its cost included |
| Installer.TransitionRests | source/firmwares_install/daybreak-cli.cpp:305-430 | every transition makes calls that are allowed where the machine is, for all replies |
| Installer.PhaseFacts | source/firmwares_install/daybreak-cli.cpp:305-430 | an allowed sequence of calls applies at most once, after setup, request and a report of readiness, resets only after a successful application, and ends with an unforeseen failure |
| Installer.StepsSafe | source/firmwares_install/daybreak-cli.cpp:305-430 | so does every run, for all replies |
| Installer.NoUnwantedReset | source/firmwares_install/daybreak-cli.cpp:401 | no reset call without the wish for it |
| Installer.StepsThorough | source/firmwares_install/daybreak-cli.cpp:305-430 | in every run, for all replies, each call is followed at once by the one that must come next, and the run rests only where nothing is left to do |
| Installer.ResetIsMade | source/firmwares_install/daybreak-cli.cpp:395-412 | with the wish for a reset every successful application is followed at once by the reset for refurbishment, and its refusal for an incompatible system version by the other reset |
| Installer.TransitionGoesOn | source/firmwares_install/daybreak-cli.cpp:305-430 | until the reboot is awaited every transition makes a call, and one that finds the update prepared applies it |
| Installer.TransitionAnswers | source/firmwares_install/daybreak-cli.cpp:305-430 | the results of the calls are those the services gave |
| Installer.RebootStays | source/firmwares_install/daybreak-cli.cpp:301-303 | once the reboot is awaited nothing more happens |
| Installer.EndsWhen | source/firmwares_install/daybreak-cli.cpp:610-623 | the reboot is awaited if and only if some transition applied the update or failed |
| Installer.PollingEnds | source/firmwares_install/daybreak-cli.cpp:610-623 | if the polling ends before the replies do, the final state awaits the reboot |
| Installer.Machine.PollPrepare | source/firmwares_install/daybreak-cli.cpp:333-391 | the calls and the state of one polling round |
| Installer.Machine.TransitionUpdateState | source/firmwares_install/daybreak-cli.cpp:305-430 | the calls and the state of one transition, on which the four results above hold |
| Installer.Machine.Drive | source/firmwares_install/daybreak-cli.cpp:591-623 | the staged driver does what plain repetition of the transition does, its calls are safe and thorough, and it ends exactly when some transition applies the update or fails, awaiting the reboot |
| Emunand.SizeFits | amssu-rcm/source/tools.c:118-145 | the array is never too small, and exactly as large as the list if and only if the count started at 0, or started low enough with at least twelve entries |
| Emunand.SizeTooLarge | amssu-rcm/source/tools.c:118-141 | a count left at 1 and no entries: an array of one entry for an empty list |
| Emunand.ListedInOrder | amssu-rcm/source/tools.c:97-116 | each probed `emupath` of a choice section gives one entry with the name of its section and its value, behind those of all such keys in front of it, and there are no others |
| Emunand.WantedIs | amssu-rcm/source/tools.c:141-172 | the list is the default entry, then those of the file, then those of the folder, cut to the first twelve |
| Emunand.Emunands.ListBuild | amssu-rcm/source/tools.c:97-116 | counting and filling advance alike over the choice sections, up to twelve |
| Emunand.Emunands.Build | amssu-rcm/source/tools.c:118-172 | the list is the default entry and the probed entries in file order, cut to twelve; every index is written once, in order and inside the array |
| Emunand.Emunands.Free | amssu-rcm/source/tools.c:265-280 | the count is 0 again, unless there was no list |
| Download.PlannedKeeps | source/download.cpp:30-62 | the blocks handed to fwrite and the buffered bytes are the chunks, nothing dropped, doubled or moved |
| Download.WritesAreLarge | source/download.cpp:30-62 | no write is empty, any two in a row have more than a million bytes, and data of up to a million bytes are written at once |
| Download.TakenIsAll | source/download.cpp:40-54 | the file is all that was handed to fwrite if and only if no write was short |
| Download.ReportedIsComplete | source/download.cpp:208-213 | a complete file is reported; a reported one is complete if and only if no write before the last flush was short |
| Download.ShortWriteUnnoticed | source/download.cpp:208-213 | a million bytes and one more, of which the disk takes only the last: reported as a success |
| Download.Writer.WriteMemoryCallback | source/download.cpp:30-62 | which blocks are written and what is buffered after each chunk; the file has what the disk took and only grows; the offset stays within the buffer, with its NUL; without a buffer 0 is returned and nothing changes |
| Download.Writer.Finish | source/download.cpp:210-212 | the buffered rest is written, and only the shortness of this write is reported |
| Download.Memory.WriteMemoryCallback2 | source/download.cpp:81-101 | the memory block has all bytes and its NUL; without room nothing changes and 0 is returned |
| Download.DownloadFile | source/download.cpp:184-213 | the file is what the disk takes of the planned writes: all of the data if and only if each planned write is at most what the disk then takes, and reported if and only if the last flush is |
| Download.DownloadMemory | source/download.cpp:312-323 | the memory is the concatenation of the chunks before the first refusal of realloc |
| Download.DownloadBoth | source/download.cpp:30-101 | the same data, however they are cut into chunks, give the same bytes in the file and in memory |

## Left out

- Heap.Heap.Alloc: requires that a new tail still lies in memory, because the program never checks it.
- HeapRuns.RunKeeps: requires that every new tail lies below the top of memory.
- Heap.Heap.Stats: requires at least one block, because the program dereferences the first node unconditionally.
- Heap.Heap.Free: requires a pointer that was handed out and not freed, or one below the heap start.
- Smmu.Smmu.Map: requires that no 4 MB entry is in the way (the program would take its frame for a table) and that table pages are left.
- Cache and TLB flushes, the memory controller registers, `smmu_reset_heap` after use and `smmu_deinit_domain`.
- FolderOps.Volume.CpOrRmRf: without I/O errors in the walk; paths are sequences of names, so the 256-byte path buffers and case-insensitive names are not modelled; a copy needs a destination that is disjoint from the source and holds nothing of the wrong kind. The result code is always FR_OK after setup and is not modelled.
- FatFs itself: a directory is a row of slots that keep their places while entries are deleted; a new entry goes behind them.
- IniParse.Scan.Parse: the switches of includes/ini.h at their defaults; the handler is a function of the calls so far.
- IniRoundTrip.ParsePrinted: lines that fit the parser's buffer of 1003 bytes, and texts in which nothing would be taken for a delimiter or comment; what becomes of longer lines is in `IniText.PieceEnds` and `AutobootEdit.ParseParts`.
- Autoboot.Rewrite: requires that no string fgets yields is empty, because the program then reads the byte in front of its buffer.
- AutobootStatus.Globals.UpdateParam: requires that the parameters of the chosen pair fit their buffers; the menu itself is not modelled, and what a failing copy leaves in the file is a parameter.
- Autoboot.Atoll: values beyond the range of long long are undefined in C and read as unbounded numbers here.
- Crc8.Joycon.SioParse: the payload of status packets and the gamepad state.
- ServiceGuard.SerialSound: requires that the 32-bit count does not wrap; with 2^32 - 1 users one more initialization would break the property (`ServiceGuard.InitKeepsSound`).
- ServiceThreads: the mutex itself, which comes from libnx, is a step that waits while it is owned.
- Version.VerifyUpdate: requires that the components it converts are within int, beyond which atoi is undefined.
- GetDelim.Line.GetDelim: null arguments, stream locks, failing allocation and sizes near the end of size_t.
- Installer.Machine.Drive: validation and questions before the installation, progress display; an endless polling loop is cut where the replies end.
- Emunand.Emunands.Build: files and probes are the same in both passes; a file that cannot be parsed has no sections; allocation succeeds.
- Download.Writer.WriteMemoryCallback: how much the disk takes at each write is a parameter.
- Download.DownloadFile: curl decides the chunks and gives up when a callback takes less than it got; connection, progress and messages.
- Drivers, network, menus, archives, the encrypted-partition branches of `flash_or_dump_part` and the autoconfig reader and writer.
- `stripLeadingTrailingSpaces` and `parseIniFile` of source/ini_hekate_configs_parse.c.
