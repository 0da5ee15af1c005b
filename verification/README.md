# Verified model of the UTBotCpp server

This project models the parts of the UTBotCpp server that compute rather than call out: how KLEE's bytes become typed
values, how the build graph is built and queried, how log channels are opened and closed concurrently, how makefile
paths are written relative to shell variables, how test and stub files are named, how command lines keep track of their
source and output, and how lines are classified by coverage. `dafny verify dfyconfig.toml` checks all of it.

## Files

| file | what it models |
|---|---|
| Bytes, BitSlice | little-endian bytes; extraction of a bit slice with sign extension |
| StructDecoder, Encoding | decoding of structs, unions and arrays, dirty padding, the zero-filling initialiser |
| Padding, LayoutExamples | which layouts keep every byte, what the dirty flag tells, and layouts for which they fail |
| Dims, Reshape | regrouping of flat elements into nested rows |
| FieldOffset, LazyPointers, LazyObjects | offset-to-field resolution; what a pointer leads to; the search that types lazily initialised objects |
| BuildGraph | the maps of a build database; object and target closures, roots |
| ObjectInit, Priority, LinkInit | the construction of the maps, as functions on values |
| Collisions, TemporaryNames | the compile commands that share a temporary object |
| ImplicitTargets, LinkedFiles | the files of targets, told from the commands |
| ProjectDatabase | the same construction on shared, mutable infos, proved against those functions |
| TargetDatabase, LibraryChains | the database restricted to one target; its targets and its root as chains |
| GraphQueries, StubTypes, LinkOrder | memoised queries, stub types, the order of link dependencies |
| LogChannel, LogProgress | open, close and watcher steps over shared atomics; what a handler can do on its own |
| Text, VariableMap | string order; the makefile path map, a red-black tree under a comparison that is no order |
| Relativizer, BaseVariables | relative paths, expansion of variables, what the base variables name |
| PrinterSetup, FixedVariables, RelativeMakefilePrinter | what a new printer declares, what its variables stand for, and the printer |
| TreeEnd, BaseMap | the right end of the tree; the map of the base paths in any order |
| MissedKey, BrokenMap, BelowRoot | how a longer key of the map is missed, and how entries are overwritten |
| Naming | test and stub names and paths |
| TrackedCommand, CommandLines | command lines as linked lists with tracked elements |
| LineCoverage | the classification of lines |
| Wrappers | optional values |

## How things are modelled

- A path of the build graph is opaque but for its kind (source, object, static or shared library, other) and whether it
  mentions gtest. Naming and Relativizer work on real strings.
- Acyclicity of the link graph is a rank function that drops along listings.
- Exceptions are `Err` or `None`; a failed construction leaves the maps as they are at that point.
- Iteration over an unordered map picks any remaining key.
- An iterator into a linked list is a reference to a node, so erasing, copying and overwriting have their aliasing.
- Atomic accesses are single, sequentially consistent steps; the weak compare-exchange may fail spuriously.
- What the file system says (canonical paths, existing files) and the path functions a command needs are parameters.
- `std::map` is the red-black tree of GNU libstdc++: what it does under a comparison that is no order depends on the
  shape of the tree.
- Unsigned arithmetic that can wrap, and the narrowing of an offset to `int`, are written out.

## What the proofs found

Each promise below fails, on an input given in a lemma or a method or under a condition stated there; the members named
with it say exactly when it holds.

- `typeSize` of a multi-dimensional array uses its first dimension only, so the bytes of later rows look like dirty
  padding of the record around it (`LaterRowsLookDirty`, `DirtyIsLostIff`).
- `structView` does not pass dirtiness out of arrays of structs, and lets an uninitialised anonymous member initialise
  a union; both lose bytes (`ArrayOfRecordsHidesPadding`, `AnonymousMemberLosesBytes`, `CleanIsRestoredIff`).
- `findFieldIndex` compares an `int`: an offset of 2^31 bits or more is resolved wrongly when a field starts between it
  and its narrowed value, and rightly otherwise (`NarrowingGoesWrong`, `TraverseResolvesIff`).
- `logChannelsWatcher` clears the channel of an outdated client without asking whether a handler holds it; a second
  handler can then register under the same name (`WatcherBreaksExclusion`, `ResetSafeIffFree`).
- Two sources whose file names differ in the extension at most, compiled straight into one program, get the same temporary
  object: the first is lost (`SameFileNameIsLost`, `StoredIffNoClash`).
- An object file known by its relative path only gets a link unit that does not list it after filtering
  (`RelativeObjectIsLost`, `FileKeepsLinkUnits`).
- The comparison of the makefile map is no order once the root directory is a key, and two things go wrong with keys
  below the root. With a project below the root, the longer of two keys may be stored behind the shorter one and be
  missed (`LongerKeyIsMissed`, `FindsLongestIff`).
- An assignment for a key below the root may overwrite the entry of another key. With base paths above the installation,
  the second such declaration does, and with packages in "/" the constructor itself (`SecondKeyIsLost`,
  `ConstructionBreaks`, `PutBreaksIff`). While the map is whole, expanding a relative path gives the path back
  (`RelativePathExpands`).
- `a_dot_c` and `a.c` share a test name (`TestNamesCollide`, `TestNameRoundTrip`). The stub suffix of `..` is not removed
  (`SuffixRoundTrip`).
- An archive command without static library argument has its output past the end of the list (`AddArchiveOutput`,
  `Link`).
- `BaseCommand::erase` moves texts between list elements: after the removal of `-static` from in front of `-o`, the
  tracked output is the argument behind the output, which `setOutput` then overwrites (`ErasedBeforeOutput`,
  `OutputStaysIff`).
- Assignment of commands does not take over `shouldChangeDirectory` (`Assign`).
- A line can be full and uncovered, or full and partial (`FullAndUncovered`, `FullAndPartial`); the full set depends on
  the order of the ranges (`FullDependsOnOrder`, `FullIgnoresOrderIff`).

## Model

| member | source | states |
|---|---|---|
| Bytes.ToBytesOfValue | server/src/Tests.h:927-964 | Writing out the little-endian value of a byte list gives back the list |
| Bytes.DropKeepAreDivMod | server/src/Tests.h:927-964 | Bit-wise dropping and keeping of low bits are division and remainder by a power of two |
| BitSlice.SliceIsDivMod | server/src/Tests.h:927-964 | The slice is (value / 2^offset) mod 2^len of the little-endian value |
| BitSlice.Sext | server/src/Tests.h:906-916 | In-place sign extension: bits below and at the sign position stay, all bits above repeat the sign bit; no access out of bounds |
| BitSlice.SignExtends | server/src/Tests.h:906-916 | A number whose bits from the sign bit on all repeat it has the two's-complement value of the slice, sign-extended |
| BitSlice.SignedIsCongruent | server/src/Tests.h:958-963 | The signed value is the number of the signed range that equals the unsigned one modulo 2^width |
| BitSlice.ReadUnaligned | server/src/Tests.h:930-952 | The shifting branch leaves exactly the bits of the slice and zeros above, for every offset and length that fit |
| BitSlice.ReadBytesAsValue | server/src/Tests.h:927-964 | Both branches: the buffer holds the slice; for a signed type its two's-complement value is the slice sign-extended |
| BitSlice.StepBits | server/src/Tests.h:935-952 | One byte of the unaligned loop extends the bits read so far by the right bits of the input |
| BitSlice.HoldsSlice | server/src/Tests.h:927-964 | A buffer that holds the bits of a slice, zero-filled, has the slice as its value |
| BitSlice.HoldsSigned | server/src/Tests.h:958-963 | A buffer that holds the bits of a slice, sign-filled, has the signed slice as its two's-complement value |
| Reshape.Group | server/src/Tests.cpp:200-207 | One pass of the regrouping loop puts consecutive views into rows, none lost, in order |
| Reshape.MultiArrayView | server/src/Tests.cpp:198-210 | The loop builds the nested array of the given dimensions, for any dimensions (the outermost may be zero) whose product is the element count |
| Reshape.NestedShape | server/src/Tests.cpp:198-210 | The nesting has one level per dimension, each row as long as its dimension |
| Reshape.NestedAt | server/src/Tests.cpp:198-210 | The element at a multi-index is the flat element at its mixed-radix position |
| Reshape.FlattenNested | server/src/Tests.cpp:198-210 | Flattening the nesting gives back the flat elements |
| Reshape.PositionInjective | server/src/Tests.cpp:198-210 | Different multi-indices have different positions |
| StructDecoder.PrimitiveIsSlice | server/src/Tests.cpp:349-353 | A primitive of whole bytes decodes to the bit slice the value reader computes |
| StructDecoder.AnyDirty | server/src/Tests.cpp:304-331 | The gap scan finds a set byte, or the end of the bytes, exactly when there is one |
| StructDecoder.ArrayViewOf | server/src/Tests.cpp:227-264 | The element loop decodes the consecutive elements of an array |
| StructDecoder.FieldView | server/src/Tests.cpp:294-408 | One field: its decoded view, and whether a gap beside it, the rest of the union, or the field itself is dirty |
| StructDecoder.NoteField | server/src/Tests.cpp:410-422 | The union bookkeeping keeps the first of the largest clean members; a struct gathers dirtiness and initialisation |
| StructDecoder.FinishRecord | server/src/Tests.cpp:425-441 | An uninitialised named record falls back to a copy of its bytes |
| StructDecoder.StructView | server/src/Tests.cpp:275-442 | The loop computes the decoding function: views, dirty and initialised flags, chosen member, copied bytes |
| StructDecoder.EncodeOfDecode | server/src/Tests.cpp:275-442 | For every layout, all bytes of the object and any view it decodes to: the initialised object agrees with the bytes wherever a member covers them, and is zero elsewhere |
| Encoding.RestoredIff | server/src/Tests.cpp:275-442 | The initialised object has the bytes of the record exactly when the bytes outside its members are zero |
| Padding.CleanMeansZeroPadding | server/src/Tests.cpp:304-331 | In a tracked layout, an initialised record that is not dirty has only zeros outside its members |
| Padding.GaplessMeansZeroPadding | server/src/Tests.cpp:275-442 | In a gapless layout every byte outside the members is zero, whether the record is dirty or not, and so in arrays of it |
| Padding.DirtyMeansSetPadding | server/src/Tests.cpp:304-331 | A dirty record has a set byte outside its members, if sizes are reported as they are |
| Padding.RoundTrip | server/src/Tests.cpp:275-442 | Decoding and initialising a named record of any layout: only padding bytes differ; the bytes are restored exactly when the padding is zero; a clean tracked record is restored, and a dirty one of exact sizes is not |
| Padding.CleanIsRestoredIff | server/src/Tests.cpp:227-264 | In a settled layout, every clean record is restored exactly when the layout is tracked: its arrays hold primitives, unions that keep their bytes or records without gaps, and no union is initialised by a member that hides padding |
| Padding.DirtyIsLostIff | server/src/types/Types.cpp:625-629 | In a layout without empty records, no dirty record is restored exactly when the reported size of every array in a struct is its extent |
| Padding.UnionChoice | server/src/Tests.cpp:410-416 | A union is initialised by the first of its largest clean members, or by a copy when no member is clean |
| LayoutExamples.ArrayOfRecordsHidesPadding | server/src/Tests.cpp:238-262 | Counterexample to restoring, with a layout that is not tracked: set padding inside an array of structs is not seen, and is lost |
| LayoutExamples.AnonymousMemberLosesBytes | server/src/Tests.cpp:334-344 | Counterexample to restoring, with a layout that is not tracked: a union initialised by an uninitialised anonymous member loses bytes |
| LayoutExamples.LaterRowsLookDirty | server/src/types/Types.cpp:625-629 | Counterexample to exact dirtiness: the size of a two-dimensional array counts its first dimension only, so its later rows look like dirty padding |
| FieldOffset.UpperBound | server/src/Tests.cpp:593-595 | The binary search returns the first field that starts after the offset |
| FieldOffset.FindFieldIndex | server/src/Tests.cpp:592-602 | The last field that starts at or before the offset, narrowed to int; an exception if there is none |
| FieldOffset.NarrowingExact | server/src/Tests.cpp:592-602 | The narrowing to int leaves the field that is found as it is exactly when no field starts between the offset and its narrowed value |
| FieldOffset.TraverseResolvesIff | server/src/Tests.cpp:699-728 | For ordered fields and every 64-bit offset that falls in a scalar: the traversal finds that scalar and the right residual exactly when no narrowing on the way crosses the start of a field |
| FieldOffset.TraverseConserves | server/src/Tests.cpp:699-728 | The field offsets along the access path plus the residual are the original offset modulo 2^64, and outright exactly when no field picked starts beyond the offset left; the path is no longer than the nesting |
| FieldOffset.TraverseFindsMember | server/src/Tests.cpp:699-728 | The offset of a scalar member resolves to that member, with residual zero, exactly when no narrowing on the way crosses the start of a field |
| FieldOffset.SmallNarrowsWell | server/src/Tests.cpp:592-602 | Below 2^31 bits no narrowing crosses the start of a field |
| FieldOffset.NarrowingGoesWrong | server/src/Tests.cpp:593 | Two offsets beyond 2^31 bits: one is resolved to the wrong field, the other to the right one |
| LazyObjects.FindObject | server/src/Tests.cpp:611-614 | The first object of the given name |
| LazyPointers.FollowIs | server/src/Tests.cpp:678-695 | Told from the types: a pointer leads to a type exactly when it goes to the beginning of its object, its offset falls in a scalar member from which, one pointer level removed, comes the type, and the object has the size of the type; it throws exactly when it goes to the beginning and resolves to no type |
| LazyPointers.FallsInMember | server/src/Tests.cpp:699-714 | Where no narrowing crosses the start of a field, the member an offset falls in is the one that starts at or before it, at its path offset |
| LazyPointers.RootTypeIs | server/src/Tests.cpp:617-620 | A root is typed as declared, but a single pointer with one level removed |
| LazyObjects.RootEntryIs | server/src/Tests.cpp:604-623 | A root enters the queue with the first object of its name and that type |
| LazyObjects.FailsIff | server/src/Tests.cpp:658-684 | Processing an object throws exactly when it is lazy and cannot be shown or ends in no type, or when a pointer to the beginning of an object resolves to none; pointers to lazy objects processed before are not indexed |
| LazyObjects.AddRoots | server/src/Tests.cpp:604-649 | Exactly the roots found among the objects are queued, once each, and marked visited |
| LazyObjects.Consider | server/src/Tests.cpp:678-695 | One pointer: it throws exactly when it goes to the beginning of an object and resolves to no type; one that resolves to a type of the size of its object has the object queued |
| LazyObjects.AssignTypes | server/src/Tests.cpp:636-697 | The search ends within as many rounds as there are objects: complete if no processed object throws, otherwise at the first that does |
| LazyObjects.PopsBounded | server/src/Tests.cpp:651-697 | No object is queued twice, so there are at most as many rounds as objects |
| LazyObjects.TypedIsLeastClosedSet | server/src/Tests.cpp:636-697 | On completion the typed objects are the least set with the roots that is closed under pointers to the beginning of an object of the size of the type they resolve to |
| LazyObjects.TypesComeFromPointers | server/src/Tests.cpp:685-691 | Every type comes from a root or from a typed object, by a pointer that resolves to it |
| LazyObjects.LazyParametersExact | server/src/Tests.cpp:658-676 | Each typed lazy object contributes exactly one lazy parameter, to the root it was found from, and nothing else does |
| LogChannel.NameInjective | server/src/Server.cpp:43-44 | Callback names of different channels differ, whatever the client ids |
| LogChannel.RemoveCallbackExact | server/src/Server.cpp:478 | Among distinct names, removal takes out exactly the callback of that name |
| LogChannel.StepKeepsInv | server/src/Server.cpp:437-520 | Every step of every open and close handler keeps the invariant |
| LogChannel.RunsAreSafe | server/src/Server.cpp:437-520 | In every interleaving at most one handler per channel is between claim and release, callback names are distinct, and each callback's data belongs to a handler that has not returned |
| LogChannel.RunsFromStartAreSafe | server/src/Server.cpp:437-520 | Every state of a run from the initial one in which only free channels are cleared is safe |
| LogChannel.SpinExitFollowsClose | server/src/Server.cpp:465-477 | A handler leaves the spin only after a close of its channel that followed its own flag set |
| LogProgress.CloseIsLocal | server/src/Server.cpp:490-498 | A close clears the flag of its channel and changes nothing else |
| LogProgress.CloseLetsHandlerReturn | server/src/Server.cpp:465-483 | After a close, the waiting handler returns by its own steps: the channel is free again, its callback is gone, all else is as before |
| LogProgress.FreeChannelOpens | server/src/Server.cpp:437-465 | A new handler of a free channel comes to wait by its own steps, with its callback registered and its flag set |
| LogProgress.OpenChannelIsLeft | server/src/Server.cpp:437-440 | A new handler of an open channel can only return, and changes nothing |
| LogProgress.SeenOpenNeverClaims | server/src/Server.cpp:437-440 | A handler that has found its channel open never claims it |
| LogProgress.WaitingUntilCleared | server/src/Server.cpp:474-476 | A waiting handler stays as long as its flag is set, and leaves when it is cleared |
| LogProgress.NeverStuck | server/src/Server.cpp:437-486 | A handler that has not returned can always step |
| LogChannel.ResetSafeIffFree | server/src/utils/LogUtils.cpp:52-56 | Clearing a client's channel keeps all later runs safe exactly when no handler holds it |
| LogChannel.WatcherBreaksExclusion | server/src/utils/LogUtils.cpp:52-56 | Counterexample: the watcher clears a held channel, and a second handler claims it |
| Archive.GetArchiveObjectFiles | server/src/building/BuildDatabase.cpp:206-231 | The recursive collection computes the object closure, with its exceptions |
| Archive.ArchiveObjectsExact | server/src/building/BuildDatabase.cpp:206-231 | The closure is exactly the compiled objects at the end of a chain of listed libraries |
| Archive.ArchiveErrExact | server/src/building/BuildDatabase.cpp:206-231 | The closure throws exactly when such a chain reaches an unknown target or an unknown object |
| Archive.GetArchiveTargetFiles | server/src/building/BuildDatabase.cpp:233-252 | The recursive collection computes the target closure |
| Archive.ArchiveTargetsClosed | server/src/building/BuildDatabase.cpp:233-252 | The targets of a closure are closed under listed libraries, and the objects they list are in the object closure |
| Archive.RootReached | server/src/building/BuildDatabase.cpp:274-285 | Following first parents ends in a target without parents |
| Archive.ArchiveGrowsToRoot | server/src/building/BuildDatabase.cpp:274-285 | What is in a target's closure is in the closure of its root |
| Archive.RootArchiveContainsSource | server/src/building/BuildDatabase.cpp:254-287 | The root found for a linked source contains the source's preferred object |
| ObjectInit.ConvertKeepsInv | server/src/building/ProjectBuildDatabse.cpp:147-161 | Turning an output with a second source into a target keeps the invariant |
| ObjectInit.AddToTargetKeepsInv | server/src/building/ProjectBuildDatabse.cpp:162-167 | One more source of an implicit target keeps the invariant |
| ObjectInit.StepKeepsInv | server/src/building/ProjectBuildDatabse.cpp:80-175 | Every compile command keeps: objects and targets disjoint, no target named .o, objects listed under their sources, targets' files equal to the object arguments of their commands, link units right |
| ObjectInit.RunKeepsInv | server/src/building/ProjectBuildDatabse.cpp:80-175 | The invariant holds after any list of compile commands |
| ObjectInit.StoredIffNoCollision | server/src/building/BuildDatabase.cpp:47-56 | Every listing leads to its own stored object exactly when no temporary name was taken |
| Collisions.StoredIffNoClash | server/src/building/BuildDatabase.cpp:47-56 | Stated on the compile commands: every listing leads to its own stored object exactly when no two sources of shared outputs have one temporary name, and no temporary name is that of an object file compiled before it is taken |
| TemporaryNames.TemporaryObjectsEqualIff | server/src/Paths.cpp:212-214 | Temporary names are equal exactly for outputs in one directory and source names that differ in extension only |
| TemporaryNames.TemporaryObjectIs | server/src/Paths.cpp:212-214 | The temporary object lies beside the output, and is named after the source with the extension .o |
| Collisions.SameFileNameIsLost | server/src/building/BuildDatabase.cpp:47-56 | Counterexample: two files of one name, but for the extension, compiled straight into one program; the first loses its object |
| ObjectInit.OnlyDuplicatesAreSkipped | server/src/building/ProjectBuildDatabse.cpp:124-132 | A source stays listed unless its command repeats an object file |
| ObjectInit.SortKeepsInv | server/src/building/ProjectBuildDatabse.cpp:176-178 | Sorting the listings keeps the invariant |
| Priority.PriorityIsStrictTotal | server/src/building/BuildDatabase.cpp:381-390 | The priority comparison is a strict order, total on names |
| Priority.PriorityIs | server/src/building/BuildDatabase.cpp:377-390 | Of two names, one with "64" in it goes before one without; if both have it, the one that sorts lower |
| Priority.PriorityWithout64 | server/src/building/BuildDatabase.cpp:377-390 | If neither has it, the one that sorts lower goes first |
| Priority.HeadIsPreferred | server/src/building/BuildDatabase.cpp:381-400 | The first object of a sorted listing yields to none, and is a 64-bit one if there is any |
| Priority.SortSorts | server/src/building/ProjectBuildDatabse.cpp:176-178 | The result of sorting is ordered and a permutation |
| LinkInit.FileKeepsLinkUnits | server/src/building/ProjectBuildDatabse.cpp:219-246 | One linked file keeps every object's link unit listing it, exactly unless the object is found by a relative path only |
| LinkInit.RunKeepsLinkUnits | server/src/building/ProjectBuildDatabse.cpp:181-250 | With objects given by full path, all link commands leave every link unit listing its object |
| LinkedFiles.RunReads | server/src/building/ProjectBuildDatabse.cpp:181-250 | Told from the commands: reading fails exactly when an object file without a compile command is linked and not skipped; otherwise a target lists what it listed before and what its commands give it that is neither ignored nor skipped, has their lines, and an object has the last command linking it as its link unit |
| LinkedFiles.BuiltLists | server/src/building/ProjectBuildDatabse.cpp:32-70 | In the finished database a target lists a file exactly when the file is the temporary object of a source compiled straight into it, or one of its commands gives it the file, and the file is an object or a target |
| ImplicitTargets.RunSeesFiles | server/src/building/ProjectBuildDatabse.cpp:80-175 | The implicit targets list exactly the temporary objects of their sources, and exactly the outputs of commands for other files are ignored |
| LinkInit.RelativeObjectIsLost | server/src/building/ProjectBuildDatabse.cpp:239-246 | Counterexample: an object found by its relative path only is not among its target's files |
| LinkInit.FilterExact | server/src/building/ProjectBuildDatabse.cpp:253-271 | Filtering keeps exactly the files that are targets or objects, and the rest becomes installed files |
| LinkInit.ParentsAreExact | server/src/building/ProjectBuildDatabse.cpp:291-314 | The parents filled in are exactly the targets listing a library |
| LinkInit.BuiltIsSound | server/src/building/ProjectBuildDatabse.cpp:32-70 | A database built without name collisions and with full paths has exact parents, listing link units and stored listings |
| ProjectDatabase.ProjectBuildDatabase.CreateExplicitObjectFileCompilationCommand | server/src/building/BuildDatabase.cpp:44-61 | Redirects the shared info to the temporary name and remembers the old output as link unit |
| ProjectDatabase.ProjectBuildDatabase.ConvertToTarget | server/src/building/ProjectBuildDatabse.cpp:147-161 | On shared infos: the conversion step of the specification, listings following the moved info |
| ProjectDatabase.ProjectBuildDatabase.AddInfo | server/src/building/ProjectBuildDatabse.cpp:162-173 | On shared infos: stores and lists the command's own info |
| ProjectDatabase.ProjectBuildDatabase.AddCompileCommand | server/src/building/ProjectBuildDatabse.cpp:80-175 | On shared infos: one step of the specification |
| ProjectDatabase.ProjectBuildDatabase.InitObjects | server/src/building/ProjectBuildDatabse.cpp:79-179 | On shared infos: all compile commands, then the sorting |
| ProjectDatabase.ProjectBuildDatabase.AddLinkFile | server/src/building/ProjectBuildDatabse.cpp:219-247 | One linked file: ignored, skipped, refused or added, with the object's link unit set |
| ProjectDatabase.ProjectBuildDatabase.AddLinkCommand | server/src/building/ProjectBuildDatabse.cpp:182-249 | One link command |
| ProjectDatabase.ProjectBuildDatabase.InitInfo | server/src/building/ProjectBuildDatabse.cpp:181-250 | All link commands; fails exactly when the specification does |
| ProjectDatabase.ProjectBuildDatabase.FilterInstalledFiles | server/src/building/ProjectBuildDatabse.cpp:253-271 | Filters every target, in any order of the map |
| ProjectDatabase.ProjectBuildDatabase.CollectParents | server/src/building/ProjectBuildDatabse.cpp:294-305 | Adds a target to the parents of its libraries and to the targets of its objects |
| ProjectDatabase.ProjectBuildDatabase.FillTargetInfoParents | server/src/building/ProjectBuildDatabse.cpp:291-314 | Inverts the listings; fails exactly when a listed library is no target |
| ProjectDatabase.ProjectBuildDatabase.Build | server/src/building/ProjectBuildDatabse.cpp:32-70 | The whole construction: when it succeeds, and that the result is sound |
| TargetDatabase.TargetBuildDatabase.AddObjects | server/src/building/TargetBuildDatabase.cpp:26-38 | Exactly the closure's objects, each under its source, with the targets listing it |
| TargetDatabase.TargetBuildDatabase.ForSource | server/src/building/TargetBuildDatabase.cpp:7-48 | The restricted database: the source's root, the infos of its object closure and its target closure, and the targets of each object |
| TargetDatabase.GetRootForSource | server/src/building/BuildDatabase.cpp:254-287 | The lookups compute the root, with the exceptions of the source |
| TargetDatabase.TargetsComputable | server/src/building/BuildDatabase.cpp:233-252 | Where the object closure does not throw, the target closure does not |
| TargetDatabase.ResolvedClosuresExist | server/src/building/BuildDatabase.cpp:206-231 | On a graph whose libraries are targets and whose other files are objects no closure throws |
| LibraryChains.ArchiveTargetsExact | server/src/building/BuildDatabase.cpp:233-252 | The targets of a closure are exactly those at the end of a chain of libraries, each listed by the one before, none but the last a gtest |
| LibraryChains.RootIsEnd | server/src/building/BuildDatabase.cpp:274-285 | The root of a target is the end of its chain of first parents |
| LibraryChains.RootForSourceIs | server/src/building/BuildDatabase.cpp:254-274 | The root for a source is that of the target its preferred object is linked into |
| TargetDatabase.TargetContainsSource | server/src/building/TargetBuildDatabase.cpp:7-48 | The database created for a linked source contains the source's object and is closed |
| TargetDatabase.BuiltDatabaseContainsSource | server/src/building/BuildDatabase.cpp:254-287 | After a successful construction without collisions, with full paths, no cycle and no program linked into a target, the closures of the root of a listed source exist, contain its preferred object, and are closed |
| GraphQueries.ContainsSourceFilePath | server/src/building/BuildDatabase.cpp:491-508 | With memory: the query without memory, and a sound memory |
| GraphQueries.ContainsIsReachability | server/src/building/BuildDatabase.cpp:491-508 | The query answers whether an object of the source is reachable, from target to listed file and from a source to the files of the target it is linked into |
| GraphQueries.GetTargetsForSourceFile | server/src/building/BuildDatabase.cpp:489-515 | Exactly the roots that reach an object of the source, in their order; throws when a root's query does |
| GraphQueries.NumberOfSources | server/src/building/BuildDatabase.cpp:537-552 | With memory: the count without memory |
| GraphQueries.PathsAreLeafPaths | server/src/building/BuildDatabase.cpp:537-552 | The set of paths counted is all the ways down to an object file |
| GraphQueries.CountIsPaths | server/src/building/BuildDatabase.cpp:537-552 | The count is the number of different ways down to an object file |
| GraphQueries.GetPriorityTarget | server/src/building/BuildDatabase.cpp:536-562 | The first root with the greatest count; a single root is returned without being counted |
| GraphQueries.UnitFiles | server/src/building/BuildDatabase.cpp:357-372 | The files of a unit are those its target lists; there are none exactly when the unit is no target and no source linked into one |
| GraphQueries.ContainsFailsIff | server/src/building/BuildDatabase.cpp:491-508 | The query throws exactly when a unit without files or an unknown object file is below the unit |
| GraphQueries.CountFailsIff | server/src/building/BuildDatabase.cpp:537-552 | Counting throws exactly when a unit without files is below the unit |
| LinkInit.BuiltFilesAreDistinct | server/src/building/ProjectBuildDatabse.cpp:32-70 | In a finished database no target has a file twice, as the count of ways requires |
| StubTypes.JoinIsSemilattice | server/src/BuildResult.cpp:3-17 | The operator is commutative, associative and idempotent, with NONE as identity |
| StubTypes.JoinIsUnion | server/src/BuildResult.cpp:3-17 | It is the union of what two collections contain, stubbed and genuine |
| StubTypes.AddLinkTargetRecursively | server/src/building/Linker.cpp:723-792 | The recursive fold computes the type; a root library reports NONE |
| StubTypes.TypeIsOfLeaves | server/src/building/Linker.cpp:723-792 | The type is determined by whether stubbed and genuine objects are below the unit, whatever the nesting, order or sharing |
| StubTypes.FailsIffStuck | server/src/building/Linker.cpp:723-792 | The linking throws exactly when an unknown unit, an object without bitcode or an empty unit is below |
| LinkOrder.SortLinkDependencies | server/src/building/Linker.cpp:625-656 | A permutation: other arguments first, then the files of the target, objects before static libraries, these before shared libraries, these before others |
| LinkOrder.SelectAt | server/src/building/Linker.cpp:640-644 | The other arguments keep their order |
| VariableMap.ComparatorIsNoOrder | server/src/printers/RelativeMakefilePrinter.cpp:21-26 | The map's comparison puts the root before itself, and orders a key and the root both ways exactly when the key is below the root |
| VariableMap.ComparatorIsOrderWithoutRoot | server/src/printers/RelativeMakefilePrinter.cpp:21-26 | On other keys it is a strict total order |
| VariableMap.PutPlaces | server/src/printers/RelativeMakefilePrinter.cpp:63-65 | Whatever the comparison says, an assignment overwrites one entry or adds one at the end of the search, and rebalancing keeps the order of the others |
| VariableMap.PutKeepsSorted | server/src/printers/RelativeMakefilePrinter.cpp:63-65 | Declaring a key above the root, or any key before the root is declared, keeps the keys descending with the root last but for keys below it |
| VariableMap.AddKeepsSorted | server/src/printers/RelativeMakefilePrinter.cpp:17-26 | Inserting the base paths keeps the keys sorted, the first of equal ones |
| VariableMap.RootIsAddedAgain | server/src/printers/RelativeMakefilePrinter.cpp:21-26 | Declaring the root a second time adds it once more, and leaves the keys unsorted |
| VariableMap.PutBreaksIff | server/src/printers/RelativeMakefilePrinter.cpp:63-65 | For every key and every tree: an assignment overwrites another entry exactly when the key is not found, its search turns behind a node that it is before as well, and that node has a left child |
| VariableMap.FindsLongestIff | server/src/printers/RelativeMakefilePrinter.cpp:42-52 | For distinct keys: the first prefix found is the longest for every path, the root only if nothing else fits, exactly when no key stands behind one of its proper prefixes, none extending the root behind the root, and the root shadows no prefix of itself |
| VariableMap.SortedFindsLongestIff | server/src/printers/RelativeMakefilePrinter.cpp:42-52 | In sorted keys, the longest prefix is found for every path exactly when the root shadows no prefix of itself |
| PrinterSetup.WholeIff | server/src/printers/RelativeMakefilePrinter.cpp:82-117 | A list of declarations leaves the map whole exactly when none of them breaks the map that those before it have left |
| PrinterSetup.NewPrinterIsSorted | server/src/printers/RelativeMakefilePrinter.cpp:11-31 | A new printer whose tools are above its root, and whose base paths are not the root, has sorted keys, and its map is whole exactly unless declaring the root breaks the map of the base paths |
| BaseMap.NewPrinterIsWhole | server/src/printers/RelativeMakefilePrinter.cpp:11-31 | With three different absolute base paths besides, its map is whole: declaring the root breaks nothing |
| BrokenMap.PackagesInRootBreak | server/src/printers/RelativeMakefilePrinter.cpp:93-99 | With packages in "/", base paths above the installation and a relative directory that sorts above "/", the construction itself breaks the map: declaring the packages overwrites the entry before the root |
| BrokenMap.ConstructionBreaks | server/src/printers/RelativeMakefilePrinter.cpp:11-31 | Counterexample: a development printer, broken from the start |
| BelowRoot.NewPrinterEndsInRoot | server/src/printers/RelativeMakefilePrinter.cpp:82-117 | With packages below the root and base paths above the installation, the map of a new printer is whole and sorted, and ends in the root, alone |
| BelowRoot.SecondKeyBreaks | server/src/printers/RelativeMakefilePrinter.cpp:63-65 | In every such map, the second declaration of a key below the root, even of the same key, overwrites the entry of the first |
| BelowRoot.SecondKeyIsLost | server/src/printers/RelativeMakefilePrinter.cpp:55-66 | Counterexample, from the construction on: the second of two declarations overwrites the entry of the first |
| PrinterSetup.ToolsAboveIff | server/src/environment/EnvironmentPaths.cpp:13-102 | An installation is above its root exactly when its packages are: if they are below the root, but not if they are in "/" |
| PrinterSetup.NewPrinterIsSound | server/src/printers/RelativeMakefilePrinter.cpp:82-117 | The definitions of a new printer mention base and earlier variables only, and every key is the value of its variable |
| FixedVariables.FixedVariablesStandFor | server/src/printers/RelativeMakefilePrinter.cpp:82-117 | Each of the thirteen fixed variables stands for the place it is named after, in canonical form but for clang++ |
| FixedVariables.InstalledPlaces | server/src/environment/EnvironmentPaths.cpp:13-75 | The places below the root of the installation |
| FixedVariables.PackagePlaces | server/src/environment/EnvironmentPaths.cpp:88-102 | The places below the directory of the packages |
| FixedVariables.PackagesInRootPlaces | server/src/environment/EnvironmentPaths.cpp:24-29 | The same places when the packages are in "/" |
| MissedKey.LongerIsMissed | server/src/printers/RelativeMakefilePrinter.cpp:42-52 | In every map that ends in the root and a project below it, the longer of two keys declared between them, the shorter one first, is missed |
| MissedKey.LongerKeyIsMissed | server/src/printers/RelativeMakefilePrinter.cpp:42-66 | Counterexample, from the construction on: two declarations after which a path is written relative to the shorter key, although the longer one is in the map |
| Relativizer.MentionExpands | server/src/Paths.cpp:441-450 | A mention of a variable followed by plain text expands to the value followed by the text |
| Relativizer.RelativePathExpands | server/src/printers/RelativeMakefilePrinter.cpp:37-53 | Expanding the relative path gives back the path, and it mentions base or declared variables only |
| Relativizer.DeclareKeepsSound | server/src/printers/RelativeMakefilePrinter.cpp:55-66 | A declaration keeps: definitions mention base and earlier variables only, and every key is the value of its variable |
| Relativizer.RedeclareKeepsSoundIff | server/src/printers/RelativeMakefilePrinter.cpp:55-66 | Declaring any name, new or not: the keys stay the values of their variables exactly when no other key has this variable |
| Relativizer.BaseVariablesExpand | server/src/printers/RelativeMakefilePrinter.cpp:68-80 | The base variables, defined through each other, expand to the paths joined to the directory of the makefile |
| BaseVariables.BaseVariablesNamePaths | server/src/printers/RelativeMakefilePrinter.cpp:68-80 | Wherever the makefile is, the base variables, defined relative to it, expand to texts that resolve to the project, test and build paths |
| MakefilePrinter.RelativeMakefilePrinter.constructor | server/src/printers/RelativeMakefilePrinter.cpp:11-31 | The base paths inserted and the fixed variables declared, in order; grounded definitions for plain paths, sorted keys for an installation above the root |
| MakefilePrinter.RelativeMakefilePrinter.InitializePathsToShellVariables | server/src/printers/RelativeMakefilePrinter.cpp:82-117 | The thirteen fixed declarations, in order |
| MakefilePrinter.RelativeMakefilePrinter.GetRelativePath | server/src/printers/RelativeMakefilePrinter.cpp:33-53 | The first match, whose expansion is the path, canonical or as given |
| MakefilePrinter.RelativeMakefilePrinter.DeclareShellVariable | server/src/printers/RelativeMakefilePrinter.cpp:55-66 | The definition emitted, its value, and the map afterwards, for any name and path; what is kept of soundness and order |
| Naming.ExtensionIs | server/src/Paths.h:76-91 | A stem, a dot and a part without dots have that stem and extension |
| Naming.NamesAre | server/src/Paths.cpp:350-361 | The test of a.c is a_dot_c_test.cpp, and its stub a_stub.c |
| Naming.SuffixRoundTrip | server/src/Paths.h:76-91 | Adding a suffix and removing it is the identity exactly for names other than ".." |
| Naming.RemoveSuffixIs | server/src/Paths.h:82-91 | The suffix is taken out where it stands last in the stem, even in front |
| Naming.RestoreIs | server/src/Paths.h:138-153 | The extension behind the last separator of the stem is restored, even if the separator is in front |
| Naming.RestoreDefault | server/src/Paths.h:138-153 | Without a separator in the stem, the default extension is added |
| Naming.TestNameShape | server/src/Paths.cpp:350-357 | The test name is the encoded name with the suffix, and decoding finds the encoded name |
| Naming.TestNameRoundTrip | server/src/Paths.cpp:350-357 | A name is recovered from its test name exactly when it has an extension that cannot be misread as holding the separator |
| Naming.SourceNameRoundTrip | server/src/Paths.cpp:350-361 | Every C or C++ source name is recovered from its test name and its stub name, whatever its stem |
| Naming.SourceNamesAreInjective | server/src/Paths.cpp:350-361 | No two sources share a test name or a stub name |
| Naming.TestNamesCollide | server/src/Paths.h:127-153 | Counterexample: a name without extension takes the test name of a source |
| Naming.RelativeRoundTrip | server/src/Paths.cpp:436-439 | Joining a base with the path relative to it gives the path, for any normal absolute paths |
| Naming.TestPathRoundTrip | server/src/Paths.cpp:344-390 | A source below the project root is recovered from its test path |
| Naming.StubPathRoundTrip | server/src/Paths.cpp:376-381 | A source below the project root is recovered from its stub path |
| TrackedCommand.Command.Compile | server/src/building/CompileCommand.cpp:49-61 | The constructor's command line; what it tracks is right, the optimisation level being the element of the first argument that starts with -O, if any |
| TrackedCommand.Command.InitOutput | server/src/building/CompileCommand.cpp:114-123 | The output behind -o made absolute, or a default one added behind the tool |
| TrackedCommand.Command.Link | server/src/building/LinkCommand.cpp:38-46 | The constructor's command line; the output it tracks is right exactly under a condition on the arguments, and lost for an archive without static library; the optimisation level is that of the first argument that starts with -O |
| TrackedCommand.Command.AddArchiveOutput | server/src/building/LinkCommand.cpp:79-83 | -o goes before the first static library; without one the output is past the end |
| TrackedCommand.Command.CopyOf | server/src/building/CompileCommand.cpp:14-20 | A copy has elements of its own and tracks the same places |
| TrackedCommand.Command.Swap | server/src/building/CompileCommand.cpp:63-71 | Exchanges all but the directory-change setting |
| TrackedCommand.Command.Assign | server/src/building/CompileCommand.cpp:26-33 | Takes over all but the directory-change setting, in elements of its own |
| TrackedCommand.Command.AddFlagsToBegin | server/src/building/BaseCommand.cpp:80-82 | Flags behind the tool; what is tracked stays the same elements |
| TrackedCommand.Command.AddFlagToEnd | server/src/building/BaseCommand.cpp:84-86 | A flag at the end; what is tracked stays |
| TrackedCommand.Command.SetOutput | server/src/building/BaseCommand.cpp:158-160 | Changes the element behind -o and no other |
| TrackedCommand.Command.SetSourcePath | server/src/building/CompileCommand.cpp:77-79 | Changes the source element and no other |
| TrackedCommand.Command.SetOptimizationLevel | server/src/building/BaseCommand.cpp:138-144 | Overwrites the level, or adds one behind the tool |
| CommandLines.SetLevel | server/src/building/BaseCommand.cpp:138-144 | After the construction: the first argument that starts with -O is replaced, and no other; without one, the level is added behind the tool |
| CommandLines.SourceIs | server/src/building/CompileCommand.cpp:54-59 | The first argument with the file name of the source becomes the source |
| CommandLines.OutputIsUsed | server/src/building/CompileCommand.cpp:114-118 | The argument behind the first -o is the output, and made absolute |
| CommandLines.OutputIsAdded | server/src/building/CompileCommand.cpp:118-122 | Without one, a default output is added behind the tool |
| CommandLines.ArchiveOutputIs | server/src/building/LinkCommand.cpp:79-83 | An archive command without output is given -o in front of its first static library |
| TrackedCommand.Command.SetBuildTool | server/src/building/BaseCommand.cpp:150-152 | Changes the first element and no other |
| TrackedCommand.Command.EraseIf | server/src/building/CompileCommand.cpp:85-112 | Flag removal that spares the tool, -o and what is tracked keeps all of it, and removes exactly the flags |
| TrackedCommand.Command.Erase | server/src/building/BaseCommand.cpp:119-121 | Removal by value moves the texts through the elements and drops the last elements; the tracked output keeps its text and stays behind -o exactly when the argument does not occur before it |
| TrackedCommand.OutputStaysIff | server/src/utils/CollectionUtils.h:32-40 | An erased argument leaves -o and the output at their places exactly when it does not occur before the output |
| TrackedCommand.WithoutMoves | server/src/utils/CollectionUtils.h:32-40 | After removal by value a text is in an element as many places earlier as texts were removed before it |
| TrackedCommand.Command.ErasedBeforeOutput | server/src/printers/NativeMakefilePrinter.cpp:527-528 | Counterexample, on a command: after an argument before -o is removed, setting the output overwrites the argument behind the output |
| LineCoverage.FileCoverage.CountLineCoverage | server/src/coverage/LlvmCoverageTool.cpp:211-229 | The exact contents of the partial, uncovered and full sets, the last with its dependence on order |
| LineCoverage.LinesAreClassified | server/src/coverage/LlvmCoverageTool.cpp:211-239 | Full, partial and uncovered lines together are exactly the lines of all ranges |
| LineCoverage.RangesAreClassified | server/src/coverage/LlvmCoverageTool.cpp:211-239 | For ranges that end no earlier than they begin, these are the lines between a start and an end |
| LineCoverage.CoveredOnlyIsFull | server/src/coverage/LlvmCoverageTool.cpp:220-239 | For such ranges, a line in no uncovered range is full exactly when a covered range holds it, and never partial |
| LineCoverage.FullAndUncovered | server/src/coverage/LlvmCoverageTool.cpp:211-239 | A line is full and uncovered at once exactly when a covered range borders inside an uncovered one |
| LineCoverage.FullAndPartial | server/src/coverage/LlvmCoverageTool.cpp:211-239 | A line is full and partial at once exactly when a range around it comes no earlier than a covered range bordering it |
| LineCoverage.PartialIgnoresOrder | server/src/coverage/LlvmCoverageTool.cpp:211-239 | Partial and uncovered lines do not depend on the order of the ranges |
| LineCoverage.FullIgnoresOrderIff | server/src/coverage/LlvmCoverageTool.cpp:211-239 | A line is full in every order of the ranges or in none, exactly unless it is partial and both inside a covered range and in an uncovered one |
| LineCoverage.FullDependsOnOrder | server/src/coverage/LlvmCoverageTool.cpp:211-239 | Counterexample: two orders of the same ranges, one of which makes a line full |

## Left out

- Bit-fields, enums, pointers, function pointers and the text of values in record decoding: they print text, or are read
  like primitives.
- Exceptions for field types that are not supported in `structView`.
- `appendIndicesToVarName` and `appendConstCast` in `getOffsetInStruct`: they only build the text of an access.
- Padding.CleanIsRestoredIff: an if-and-only-if on settled layouts only. The others are layouts with a union that has no
  member of positive size, that has a member which some bytes make dirty but not the bytes that are all set, or in which a
  member other than the most preferred one may lose bytes, such as an array of padded structs beside a larger struct with
  padding of its own. For these, tracked is sufficient only, and RoundTrip says of each object whether it is restored.
- Padding.DirtyIsLostIff: an if-and-only-if on layouts without empty records, for which exact sizes are sufficient only.
- FieldOffset.TraverseResolvesIff: does not say when an offset that falls in no scalar is reported, because such an
  offset is an error either way.
- PrinterSetup.NewPrinterIsSorted: does not cover installations that are not above their root, in which keys may be
  unsorted or overwritten; PrinterSetup.WholeIff says exactly when they are overwritten.
- Pointers to primitives in the lazy-object search: `baseTypeObj(1)` leaves a type without kinds, the model the primitive
  itself.
- Unsynchronised insertion into the `std::map` of atomics, and memory orders weaker than sequential consistency.
- Opening the shared log files, verbosity callbacks and the spin's sleeping.
- LogChannel.RunsAreSafe: does not cover runs in which the watcher clears a held channel, because exclusion fails there.
- Normalisation of paths in the build graph, and parsing of compile and link commands from JSON.
- `addLocalSharedLibraries`: it only adds files that are targets already.
- `mergeLibraryOptions`, `createClangCompileCommandsJson` and the choice of a target by name or automatically.
- Overflow of the `int` count of `numberOfSources`; the count here is unbounded.
- An empty list of roots in `getPriorityTarget`, which the original dereferences past its end.
- Archive.RootArchiveContainsSource: does not cover chains through targets named like gtest, because their closure is
  empty by definition.
- The names of the bitcode files a link action produces, and the makefile text around them.
- Environment overrides of makefile variables; each has its default definition.
- Relativizer.MentionExpands: does not cover text containing `$`, because make would expand that as well.
- MakefilePrinter.RelativeMakefilePrinter.DeclareShellVariable: a variable is expanded by its last definition before the
  mention, where make takes the last of all; what the map does after an insertion broke it is not modelled.
- An implementation of `std::map` other than that of GNU libstdc++.
- Moved-from commands, environment variables and the textual form of a command.
- The default-constructed command, whose tracked positions are unset.
- Line numbers of 2^32 - 1, on which the loop of the original does not end.
- LineCoverage.PartialIgnoresOrder: does not speak of the full set, because that depends on the order.
