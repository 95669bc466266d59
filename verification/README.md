# SlugAudit: a verified model of its core

SlugAudit indexes a source tree for coding agents. This project models the parts of it that
are hard to get right and proves what they promise, for every input, every interleaving and
every point of failure.

| directory | what it models |
|---|---|
| `evidence/` | the three tree walkers (bindings, imports, Rust calls), the language pack's structure flattening, and one whole file's extraction under a shared deadline |
| `graph/` | Rust import resolution: path joins, module directories, crate anchors, the candidate search |
| `files/` | config replacement by any number of processes, and binary updates, call by call, with failures and deaths anywhere |
| `connect/` | merging one entry into a client's JSON config and taking it out again |
| `server/` | the lock-free progress throttle and the permits of blocking tool calls |
| `shell/` | printing commands and `PATH` lines for a POSIX shell, and the shell that reads them back |
| `streams/` | bounded client runs and capped line reads |

`Sequences.dfy`, `Texts.dfy` and `Clock.dfy` hold what several of them share.

How the main parts fit together:

- A walker is a loop over an explicit stack (`Walkers`). It is proved equal to a run over the
  sites of a tree (`Walks.WalkOf`), and that to the recursive walk (`Walks.Recursive`).
  `SyntaxTree.WalkOrder` says which sites those are without any walk. What a complete walk
  yields is in `WalkFacts` and `WalkTheorems`, what a deadline does to one walk in `WalkCuts`,
  to a whole file in `FileCuts`, and the keys of a file are in `FileKeys`.
- The deadline is a clock read once per popped node. The clock may return anything that never
  decreases.
- A macro's token tree is re-parsed inside a frame and scanned by a second stack walk, which
  opens the fragments of nested macros on top of a node's children. `MacroWalker` is that loop,
  proved equal to the recursive scan of `MacroScans`; `MacroCuts` says what a deadline does to
  it. `MacroSpots` says which nodes it visits without any scan, and `MacroRanges` what the rows
  say of the source. What the parser makes of a text is given.
- `CalleeNames` says what a call's row says of its callee, and `FileRows` what a whole file
  yields, on the children of nodes and the bytes of the source alone.
- A resolution is the first existing file of one candidate list (`ResolveRust.Tries`). The
  search methods are proved to find it, and `SearchOrders` writes the list out, file by file,
  for every path of names.
- `AtomicWrites` is the protocol of any number of writers as interleaved system calls.
  `ConfigWriter` is the code of one process over a `FileSystem` whose every call may fail or
  be its last; each of its calls is a call of the protocol.
- `Updates` is the update's code over the same `FileSystem`. Each of its methods is proved to
  make the run that `UpdateRuns` describes, call by call. `UpdateFacts` says what every such
  run, and every history of them, leaves of the binaries; `UpdateLimits` says exactly which
  targets it is safe to run on. When a release passes its check is told from the two texts in
  `ChecksumFacts` and `VerifyFacts`. `ConfigOutcomes` tells how a connect, a disconnect and a
  check end from the content of the file. `AtomicMerges` puts the config edits on top of the protocol.
- `Words` is a reader for the POSIX shell: token recognition and quote removal, sections 2.2
  and 2.3 of the Shell Command Language in IEEE Std 1003.1. The printers are proved against it.

Where the code does not keep what its comments say, the model follows the code:

- An update replaces a target of any name. A target named like a file it clears away is lost:
  `slugaudit-mcp` by the very update that succeeds (`UpdateLimits.SupersededNameIsLost`), one
  of its own temp names by a failed call. The target is complete after every run exactly when
  it is none of these (`UpdateLimits.TargetSafeIff`). A target named `slugaudit.prev` is its own
  retained copy and loses the binary it displaces (`UpdateLimits.RetainedNameIsOverwritten`);
  the copy is the displaced binary exactly when the target is neither that name nor a temp
  (`UpdateLimits.PrevDisplacedIff`).
- A disconnect leaves a blank config blank and reports success, but the check for the entry
  calls a blank file malformed: the empty file is an example
  (`ConfigFacts.EmptyFileCannotBeChecked`). A config that prints past 1 MiB when it is rewritten
  can no longer be checked, after a connect (`ConfigLimits.CrowdedConnect`) or a disconnect
  (`ConfigLimits.CrowdedDisconnect`). `ConfigFacts.FoundAfterWrite` and
  `ConfigFacts.NotFoundAfterRemove` tell from the file beforehand which of these it will be.
- Call ids are unique for 2^64 calls, then the counter wraps (`Runner.IdsUniqueIffNoWrap`).
- A completion is logged once for a call that completes; a cancelled call logs none.
- The throttle keeps its distance for windows of a millisecond or more; a shorter one is a
  window of zero ticks, under which the last tick can go backwards (`Throttles.ShortWindowGoesBack`).
- A config replacement is atomic unless the new file's own name is the temp name
  (`AtomicWriteFacts.TempAtNewDestinationShows`).
- A binding's name is not always the first identifier below it: of a wrapped identifier and a
  bare one after it, the bare one is picked (`BindingNames.BareNameWins`). It is the first
  exactly when, at each level entered, no child before the direct identifier holds one
  (`BindingNames.PickedFirstIff`).
- The outermost import-shaped node does not always own the row: an import under a node of
  another kind under an import is emitted too (`WalkTheorems.InnerImportIsEmitted`), and the two
  readings agree exactly on trees without that shape (`WalkTheorems.OutermostIff`).
- A line added to the shell configuration is found again exactly when it is its own trim
  (`ShellPath.SecondRunIffTrimmed`).

## Model

| member | source | states |
|---|---|---|
| TreeCursor.NamedChildren.Next | src/evidence/mod.rs:62-79 | each call yields the next named child and, past the last, none for ever |
| SyntaxTree.NamedConcat | src/evidence/mod.rs:39-79 | the named children are the named ones of all children, each where it stands |
| TreeCursor.PushChildren | src/evidence/mod.rs:87-97 | the stack grows by one entry per named child, the first child on top |
| SyntaxTree.PushedChildrenKeepOrder | src/evidence/mod.rs:81-97 | a stack with a node's children pushed has exactly the node's descents, in source order, before what was pending |
| SyntaxTree.WalkOrder | src/evidence/mod.rs:22-37 | the sites walked are exactly the nodes reached through at most 512 named steps, each once, in document order |
| SyntaxTree.AboveIsTheWay | src/evidence/calls.rs:206-209 | the ancestors a site carries are the nodes on the way to it |
| Walkers.WalkBindings | src/evidence/bindings.rs:66-99 | the stack loop leaves the items, flags, counter and clock of the run over the tree's pre-order sites |
| Walkers.WalkImports | src/evidence/generic_imports.rs:93-132 | the same for imports, with the suppression flag carried on the stack |
| Walkers.WalkCalls | src/evidence/calls.rs:178-212 | the same for calls, with the caller carried on the stack and the ranges seen |
| Walkers.RecordBinding | src/evidence/bindings.rs:80-93 | a binding takes a key only with its row; a name that does not slice truncates |
| Walkers.RecordImport | src/evidence/generic_imports.rs:110-150 | an import takes its key before its span is checked; text that does not slice truncates |
| Walkers.EmitDirectRow | src/evidence/calls.rs:217-238 | a call row takes a key even when its range was seen before and the row is dropped |
| Walkers.EmitCallRows | src/evidence/calls.rs:217-255 | a call gives its own row, and a macro the rows hidden in its token tree after it |
| Walkers.EmitRecoveredRows | src/evidence/calls.rs:243-255 | a recovered row takes a key only when it is kept; the scan's flags are carried over |
| Walks.WalkIsRecursive | src/evidence/mod.rs:81-86 | under any deadline and up to any error, a stack walk is the recursive pre-order walk |
| MacroWalker.OpenFragment | src/evidence/calls/macro_calls.rs:153-192 | a fragment is re-parsed in the time that remains, up to 64 macros deep; a failure is reported as capped, a cut as timed out |
| MacroWalker.ScanTurn | src/evidence/calls/macro_calls.rs:78-146 | one turn of the loop is one visit of the recursive scan: a node's row, then a nested macro's fragment, then its children; and the loop ends |
| MacroWalker.ExtractMacro | src/evidence/calls/macro_calls.rs:61-146 | the stack loop over all fragments of a macro yields the rows, flags and clock readings of the recursive scan |
| MacroCuts.ScanUnderDeadline | src/evidence/calls/macro_calls.rs:84-107 | under a deadline a scan agrees with the unbounded one, or is timed out with a prefix of its rows |
| MacroCuts.FreeScan | src/evidence/calls/macro_calls.rs:61-74 | with no deadline a macro yields the same rows whenever it is scanned |
| MacroSpots.ScanOrder | src/evidence/calls/macro_calls.rs:78-84 | the nodes a scan comes to are exactly those that ways through children and nested fragments lead to, each once: a node before what is under it, a nested macro's fragment before that macro's children, children in order |
| MacroSpots.RowsInAreSpots | src/evidence/calls/macro_calls.rs:61-146 | a macro whose positions fit yields the rows of those nodes in that order, and is reported as capped iff a fragment could not be opened, a text of a call did not slice, or a node lay at the depth bound |
| MacroRanges.RowsLieInMacro | src/evidence/calls/macro_calls.rs:200-250 | every row is that of a call in the frame of some fragment: its byte range lies between the delimiters of the macro's token tree, the source holds there what the re-parsed text holds at the call, and its texts are what the call says |
| MacroRanges.CallsInMacroHaveRows | src/evidence/calls/macro_calls.rs:112-125 | a scan not reported as capped has such a row for every call with a callee on a way into the macro |
| MacroRanges.NestedIs | src/evidence/calls/macro_calls.rs:249-261 | the fragment of a nested macro is what lies between the delimiters of its token tree, inside the fragment around it, under the caller at that macro |
| MacroRanges.NestedRangeIff | src/evidence/calls/macro_calls.rs:249-261 | a call in a frame opens a fragment iff it is a macro with something between the delimiters of its token tree |
| MacroRanges.PastRangeIsPast | src/evidence/calls/macro_calls.rs:200-233 | a recovered call fails the file only if a position of it is past 32 bits |
| MacroRanges.CallerIsNearest | src/evidence/calls/macro_calls.rs:126-143 | a call reports the last function in a frame that the way to it came out of, through any number of nested fragments |
| MacroRanges.CallerIsOuter | src/evidence/calls/macro_calls.rs:126-143 | with none on the way it reports the caller of the macro; the frame's own function never counts |
| BindingNames.NameIsPicked | src/evidence/bindings.rs:158-202 | the name is the text, or the slice error, of the identifier picked level by level |
| BindingNames.NamelessIff | src/evidence/bindings.rs:177-202 | there is no name iff no identifier lies within reach |
| BindingNames.FirstComesFirst | src/evidence/bindings.rs:152-157 | no identifier within reach comes before the one called first in document order |
| BindingNames.PickedFirstIff | src/evidence/bindings.rs:172-202 | the identifier picked is that first one iff at each level entered no child before the direct identifier holds one |
| BindingNames.BareNameWins | src/evidence/bindings.rs:158-170 | a tree whose binding is named by its second identifier |
| Calls.FindSimpleName | src/evidence/calls.rs:274-291 | the descent loop returns what the end of the descent reads, which `CalleeNames.SimpleNameIs` says without the loop |
| CalleeNames.SimpleNameIs | src/evidence/calls.rs:267-291 | the name is the text of the first identifier or field identifier on the way from the callee, which goes into the function part of a turbofish and otherwise into the last named child; there is none iff that way ends at a node without named children |
| CalleeNames.CalleeIs | src/evidence/calls.rs:257-265 | the callee is the first named child that can be called, of a macro the first named child of any kind, and there is none iff no child is one |
| CalleeNames.CallPartsIs | src/evidence/calls.rs:115-173 | a call gives a row iff its caller and every text it needs slice: the callee's text, its simple name or else that text without trailing bangs, and whether the callee, its type arguments aside, holds `::`; a call without a callee stands for itself |
| CalleeNames.FunctionNameIs | src/evidence/calls.rs:293-302 | a function is called what its first named identifier child holds, and has no name iff it has no such child |
| Calls.EnclosingCallerIsNearest | src/evidence/calls.rs:83-105 | the caller is the name, or its error, of the nearest proper ancestor of a function kind |
| Calls.NoEnclosingFunction | src/evidence/calls.rs:83-98 | a node under no function kind has no caller |
| Calls.CallPartsCaller | src/evidence/calls.rs:100-146 | every row reports the inherited caller; a caller that failed fails every call under it |
| WalkFacts.CompleteWalk | src/evidence/calls.rs:178-212 | with no deadline and no overflow, the rows, spans included, are exactly what the sites offer and truncation is exactly what they cut off |
| WalkFacts.OneRowPerRange | src/evidence/calls.rs:228-251 | no two kept rows share a byte range |
| WalkFacts.FirstOfferKept | src/evidence/calls.rs:228-251 | of each byte range the first row in walk order is kept, direct or recovered |
| WalkTheorems.CallRowsCoverCalls | src/evidence/calls.rs:195-205 | in a complete walk of a tree every visited call's and recovered row's range is represented, once |
| WalkTheorems.CallOffersItself | src/evidence/calls.rs:195-200 | a visited call whose texts slice offers a row of its own range |
| WalkTheorems.ImportRowsAreWhole | src/evidence/generic_imports.rs:109-130 | import rows are those of import-kind nodes that slice and whose direct parent is not of an import kind |
| WalkTheorems.OutermostIff | src/evidence/generic_imports.rs:72-78 | only outermost import nodes give rows iff no import lies under a node of another kind under an import |
| WalkTheorems.InnerImportIsEmitted | src/evidence/generic_imports.rs:72-78 | a tree in which an import below another one is emitted as well |
| FileRows.ImportRowIs | src/evidence/generic_imports.rs:134-150 | an import row holds the trim of the source at its range, and is a wildcard iff that holds a star |
| WalkTheorems.TruncatedIff | src/evidence/calls.rs:191-204 | truncated iff a named node lies at depth 512, a slice failed, or a macro scan was capped |
| Evidence.SpentStaysSpent | src/evidence/mod.rs:105-107 | a deadline once spent stays spent |
| FileTimes.SpentIff | src/evidence/mod.rs:99-107 | a deadline is spent iff less than a millisecond is left of its budget |
| Spans.RangeSpanIs | src/evidence/mod.rs:137-190 | a range has a span iff its lines and columns fit 32 bits; the span holds both ends, and is unavailable iff one end comes before the other |
| Spans.NodeSpanIs | src/evidence/mod.rs:149-162 | a node's span is that of its byte range, with the lines of the tree and the columns of the line index |
| Evidence.Extraction.Absorb | src/evidence/mod.rs:257-261 | items are appended and both flags kept |
| WalkCuts.SpentWalkAddsNothing | src/evidence/bindings.rs:73-76 | a walk that starts with the deadline spent stops at its first node with nothing added |
| WalkCuts.WalkUnderDeadline | src/evidence/calls.rs:186-190 | a walk under a deadline agrees with the unbounded one, or is timed out with a prefix of its items |
| WalkKeys.WalkGrown | src/evidence/calls.rs:226-251 | any walk only appends, under its own prefixes and strictly ascending indices |
| WalkKeys.KeysAreConsecutive | src/evidence/bindings.rs:84-87 | bindings and imports are numbered without gaps from where the counter stood |
| CallKeys.SkippedKeysAreDroppedCalls | src/evidence/calls.rs:226-251 | in a complete call walk the keys skipped are exactly one for each call whose range was offered before; a recovered row takes one only when it is kept |
| Structure.FlattenStructure | src/evidence/normalize_builders.rs:11-37 | the stack loop appends the structure tree in recursive pre-order, keyed upward from the counter, or fails iff a position overflows |
| Structure.AppendNumbered | src/evidence/normalize.rs:64-81 | each flat list is keyed by index under its own prefix |
| Structure.FlattenedConcat | src/evidence/normalize_builders.rs:11-37 | the listing of two forests is the listing of the first and then of the second |
| FileRows.ListedInPreOrder | src/evidence/normalize_builders.rs:11-37 | a declaration is listed before what is in it, and that before what follows |
| Extract.ExtractExtraWalkers | src/evidence/normalize.rs:179-198 | bindings, then imports if the language pack found none, on one counter; then calls on their own |
| Extract.ExtractWithin | src/evidence/normalize.rs:45-127 | a file yields the language pack's items and then the walkers', or the error that failed it |
| FileRows.PackUnder | src/evidence/normalize.rs:59-84 | under the keys of each producer come exactly the facts of its own list, in order, with their index, range, span and fields |
| FileRows.FileYields | src/evidence/normalize.rs:100-127 | without a deadline the language pack's items come first, then the rows of the binding walk, of the import walk iff the language pack found no import, and of the call walk iff the file is Rust; a file without a tree keeps the former and is truncated |
| FileCuts.LaterWalkersAddNothing | src/evidence/normalize.rs:188-197 | once one walker is cut, every later one contributes nothing |
| FileCuts.CancelledParseTimesOut | src/evidence/mod.rs:284-318 | a parse cancelled at its budget is reported as timed out, never as failed |
| FileCuts.FileUnderDeadline | src/evidence/normalize.rs:45-127 | bounded items are a prefix of the unbounded ones; an extraction not marked timed out is the unbounded one |
| FileTimes.FileFailsIff | src/evidence/normalize.rs:45-58 | a file fails for its time iff that is up, or its parse cancelled, before anything is read, and else as unparsed iff the language pack has no result |
| FileTimes.InTimeIsUnbounded | src/evidence/normalize.rs:45-127 | a deadline that is never reached changes nothing, errors included |
| FileKeys.FileKeysAscend | src/evidence/normalize.rs:59-84 | the keys of a file ascend by producer and then by index, cut or not |
| FileKeys.KeyTextInjective | src/evidence/bindings.rs:127 | two keys print the same only if they are the same |
| FileKeys.FileKeysDistinct | src/evidence/normalize.rs:190-196 | no two items of one file print the same key |
| Clock.SaturatingMillisIsExact | src/clock.rs:67-72 | milliseconds are exact below the 64-bit maximum and held there above it |
| Clock.RemainingMillisSpent | src/util/time.rs:100-107 | no milliseconds remain iff less than one is left, and otherwise exactly the whole ones do |
| Paths.NormalizeJoin | src/graph/resolve.rs:17-33 | the segment stack loop computes the join, which the rows below say on texts and segments |
| Paths.JoinOfNames | src/graph/resolve.rs:17-33 | a relative of names follows the base as it stands, after a slash: its segments come after the base's, in order |
| Paths.JoinOfParent | src/graph/resolve.rs:24-31 | two dots leave all segments but the last, and fail at the root |
| Paths.JoinOfNothing | src/graph/resolve.rs:24-26 | an empty relative and a dot give the base |
| Paths.NameThenParent | src/graph/resolve.rs:24-31 | a name and then two dots give the base back |
| Paths.JoinIsAnAction | src/graph/resolve.rs:17-33 | joining two relatives one after the other is joining them at once, failures included |
| Paths.JoinFailsIffItClimbs | src/graph/resolve.rs:14-33 | a join fails iff some prefix of its parts climbs above the root |
| Paths.JoinedSegments | src/graph/resolve.rs:24-33 | a join of a normal base is normal: no empty, dot or dot-dot segment |
| Paths.AncestorsOfParent | src/graph/resolve.rs:36-41 | a path's ancestors are its parent and the parent's ancestors |
| RustPaths.ResolveRustPath | src/graph/rust_paths.rs:106-144 | the loop finds the first attempt that exists among ever shorter prefixes |
| RustPaths.LongestPrefixWins | src/graph/rust_paths.rs:98-144 | when a path resolves, no longer prefix has a file |
| RustPaths.ResolveFromBase | src/graph/rust_paths.rs:57-68 | a glob of nothing is the base's own module, anything else a path search |
| RustPaths.FirstResolved | src/graph/rust_paths.rs:78-97 | every base's path search in turn, then every base's own module file |
| RustPaths.PickIsFirst | src/graph/resolver/types.rs:62-80 | the first existing candidate is picked, and none iff none exists |
| RustPaths.SureIffAlone | src/graph/resolver/types.rs:58-80 | confidence is high iff exactly one candidate exists |
| RustPaths.SearchFindsFirst | src/graph/rust_paths.rs:78-97 | a search finds the first existing file of its whole candidate order, or none exists |
| ResolveRust.CrateSrcDir | src/graph/resolve_rust.rs:112-132 | the upward loop ends at the nearest manifest or the root |
| ResolveRust.ClimbSupers | src/graph/resolve_rust.rs:188-206 | both bases climb once per leading super segment, and the rest is left as it was |
| ResolveRust.Resolve | src/graph/resolve_rust.rs:146-222 | the resolver finds the first attempt of the candidate order of its reference, which `SearchOrders` writes out file by file |
| ResolveFacts.ResolvesToFirstCandidate | src/graph/resolve_rust.rs:146-222 | the result is the first existing candidate; unresolved iff internal and none exists, external iff not internal and none exists |
| ResolveFacts.RelativeOrder | src/graph/resolve_rust.rs:134-145 | the files of two bases in order: the first's prefixes, the second's prefixes, then either module; which bases they are is in `SearchOrders` |
| ResolveFacts.SuperClimbs | src/graph/resolve_rust.rs:188-206 | k leading super segments resolve against the k-th parents with exactly the remaining text |
| ResolveFacts.BareSuperClimbs | src/graph/resolve_rust.rs:188-206 | k super segments with nothing after them resolve against the k-th parents with nothing left |
| ResolveFacts.EverySuperPath | src/graph/resolve_rust.rs:186-206 | every path that starts with super is of one of those two forms |
| SearchOrders.SelfSearches | src/graph/resolve_rust.rs:177-186 | a self path looks under the directory the file owns, then under the one it lies in, longest prefix first, `.rs` before `mod.rs`, and then for the module of each |
| SearchOrders.SuperSearches | src/graph/resolve_rust.rs:188-210 | a path of k supers does the same with the k-th parents of these two |
| SearchOrders.BareSuperSearches | src/graph/resolve_rust.rs:203-210 | k supers with nothing after them look for the modules of these parents |
| SearchOrders.CrateSearches | src/graph/resolve_rust.rs:153-175 | a crate path looks under the crate's sources, longest prefix first, and then for their module; the crate itself is its lib.rs or main.rs |
| SearchOrders.LocalSearches | src/graph/resolve_rust.rs:212-223 | any other path looks under the directory the file owns and nowhere else |
| SearchOrders.PartsRead | src/graph/rust_paths.rs:112-115 | a path splits at its `::` into the pieces between them, empty ones dropped |
| SearchOrders.StripsGlob | src/graph/rust_paths.rs:17-24 | a trailing glob is stripped off a path of names, and a glob alone leaves nothing |
| CratePaths.CrateConfidence | src/graph/resolve_rust.rs:160-175 | a crate path resolves to the longest prefix with a file, surely unless both of its files exist, and failing that to the crate's own module as a guess |
| CratePaths.CrateRootConfidence | src/graph/resolve_rust.rs:153-166 | the crate itself is its root file, surely unless both kinds exist |
| ResolveFacts.LocalIsLow | src/graph/resolve_rust.rs:212-219 | whatever a path without crate, self or super resolves to, its confidence is low |
| ResolveFacts.RelativeIsLow | src/graph/resolve_rust.rs:1-7 | whatever a self or super path resolves to, its confidence is low |
| ResolveFacts.ParentDropsSegments | src/graph/resolve.rs:36-41 | the k-th parent drops the last k segments, down to the root |
| ResolveFacts.ModuleDirOfFile | src/graph/resolve_rust.rs:94-104 | a mod, lib or main file owns its directory, any other the directory named after it, also at the project root |
| ResolveFacts.CrateIsDeepest | src/graph/resolve_rust.rs:106-132 | the anchor is the src of the deepest ancestor holding a manifest, or src when none does |
| References.ExtractsThePath | src/graph/resolve_rust.rs:41-81 | the path of any use statement is read back, under any visibility and before any tail |
| References.ReadsOnlyUses | src/graph/resolve_rust.rs:41-81 | whatever is read is a use path and follows the word use in the statement |
| AtomicWriteFacts.ReplacementIsAtomic | src/connect/config_atomic.rs:45-94 | in every run of any writers the destination is untouched or holds the whole content of the last that renamed, under its own mode; success means a rename, failure none; links, other files and every writer's temp are accounted for |
| AtomicWriteFacts.CallKeepsWriter | src/connect/config_atomic.rs:57-86 | each call keeps the writer's temp as its calls left it and touches nothing but that temp and, by a rename, the destination |
| AtomicWriteFacts.FailedCallAbandons | src/connect/config_atomic.rs:57-86 | a call that fails changes nothing, and before the rename leaves only the removal of the temp, if there is one |
| AtomicWriteFacts.AbandonedNeverRenames | src/connect/config_atomic.rs:57-86 | over every later run of all writers a write abandoned so does not rename |
| AtomicWriteFacts.DanglingIsRefused | src/connect/config_atomic.rs:11-23 | a path that leads nowhere is refused and no run changes anything |
| Links.DestinationIs | src/connect/config_atomic.rs:11-23 | a path that is no link is its own destination; a link is written through to the end of its chain if that is there and at most 40 links lead to it |
| Links.TooManyLinks | src/connect/config_atomic.rs:11-23 | a longer chain, or a circle, leads nowhere |
| AtomicWriteFacts.TempAtNewDestinationShows | src/connect/config_atomic.rs:51-59 | the one bad case: a temp name equal to the absent destination shows it empty |
| ConfigWriter.WriteAtomicWith | src/connect/config_atomic.rs:45-94 | the code makes exactly the protocol's calls and reports how they ended; with no failing call it replaces the file |
| ConfigWriter.PreserveMode | src/connect/config_atomic.rs:62-70 | the temp takes an existing destination's mode before any byte is written |
| ConfigWriter.RemoveAbandonedTemp | src/connect/config_atomic.rs:106-119 | a failed write removes its temp, best effort, and stays failed |
| ConfigWriter.SoloIsRun | src/connect/config_atomic.rs:45-94 | one process alone is a run of the protocol |
| Checksums.EntryReadsBack | src/update.rs:174-183 | a published line yields its digest in lower case, which `ChecksumFacts.LowerAllIs` says character by character |
| ChecksumFacts.LowerAllIs | src/update.rs:177 | the digest in lower case is the one text without capitals that equals it but for the case of A to Z |
| ChecksumFacts.TrimIs | src/update.rs:177 | trimming takes the whitespace off both ends and nothing more |
| ChecksumFacts.SplitIs | src/update.rs:176 | a line splits at its last space, and not at all iff it has none |
| ChecksumFacts.DigestIs | src/update.rs:205-213 | the printed digest is the first run of characters outside whitespace, in lower case; there is none iff the output is blank |
| Texts.LinesRead | src/update.rs:175 | the lines of a text are read back however each of them ends |
| Updates.Download | src/update_fetch.rs:126-151 | the code makes the download run: the fetch, and the removal of what a failed one left |
| Updates.VerifyChecksum | src/update.rs:168-203 | the code makes the check run: both files read, the first entry against the tool's digest, an error for each way to fail; when that passes is in `VerifyFacts` |
| VerifyFacts.VerifiedIff | src/update.rs:173-201 | a release is verified iff its checksums decode, the tool succeeds, and the first line naming the asset and the first token the tool prints agree in length and, character by character, up to the case of A to Z |
| VerifyFacts.CheckPassesIff | src/update.rs:168-203 | the check passes iff both files can be read and the release passes, and fails with an error when they can and it does not |
| VerifyFacts.DigestsCompared | src/update.rs:196-201 | one published and one printed digest pass iff they differ at most in case |
| VerifyFacts.FailedCheckKeepsTarget | src/update.rs:161-167 | a release that does not pass never succeeds, and leaves the target as it was wherever the update fails or dies |
| Updates.RetainPreviousBinary | src/install.rs:150-177 | the code makes the retention run: copy, sync, rename, and the removal of a staged copy that failed |
| Updates.PlaceStagedBinary | src/install_place.rs:26-45 | the code makes the placement run, then clears superseded files after success or the staged copy after failure |
| Updates.ApplyUpdate | src/update.rs:121-159 | the code makes the whole update run, wherever its calls fail or it dies, on any target |
| UpdateFacts.OwnNamesApart | src/update.rs:130-137 | the names an update makes up differ from each other in any directory, for any process id |
| UpdateFacts.FailedDownloadLeavesNothing | src/update_fetch.rs:139-150 | after a failed download nothing is left, unless the removal failed |
| UpdateFacts.FailedRetentionLeavesNothing | src/install.rs:169-175 | after a failed retention no staged copy is left, unless its removal failed |
| UpdateFacts.PlacementClears | src/install_place.rs:22-45 | a failed placement leaves no staged binary and a successful one no superseded file, but for removals that failed |
| UpdateFacts.UpdateCleansUp | src/update.rs:155-158 | short of a death an update leaves neither of its temps, but for removals that failed |
| UpdateFacts.VerifyKeeps | src/update.rs:161-203 | the check changes nothing and passes only a verified release |
| UpdateFacts.UpdateKeepsBinaries | src/update.rs:119-159 | only a verified binary is ever placed; success means it was and failure that the target is as it was; the retained one is as it was or exactly the displaced one, and the latter after success |
| UpdateFacts.UpdateLeavesAlone | src/update.rs:121-159 | an update touches no name but its own, the target and the retained one |
| UpdateFacts.TargetAlwaysComplete | src/update.rs:119-159 | over any sequence of updates, failing and dying anywhere, the target is the first binary or a verified one, and the retained one is the first or a complete former target |
| UpdateLimits.SmoothUpdate | src/update.rs:121-159 | an update of a verified release that nothing disturbs succeeds, and what it retains |
| UpdateLimits.TargetSafeIff | src/install_place.rs:26-45 | the target is complete after every run iff it is none of the temps and superseded files |
| UpdateLimits.SupersededNameIsLost | src/install_place.rs:32-43 | a target named like a superseded file is gone after the update that succeeds on it |
| UpdateLimits.PrevDisplacedIff | src/install_place.rs:47-61 | every success retains exactly the displaced binary iff the target is neither the retained name nor a temp |
| UpdateLimits.RetainedNameIsOverwritten | src/install.rs:140-177 | a target that is the retained name loses the displaced binary to the new one |
| ConfigFile.Config.WriteJsonServer | src/connect/config_file.rs:128-150 | the call leaves the file, and reports, what `ConfigOutcomes` tells from its content: the merged root, or an error and the bytes as they were |
| ConfigFile.Config.RemoveJsonSlugaudit | src/connect/config_file.rs:155-172 | the loop over sections leaves the cleared root, or an untouched file |
| ConfigFacts.ConnectMerges | src/connect/config_file.rs:134-149 | a connect sets its entry, keeps every other value, and keeps the order of keys |
| ConfigFacts.DisconnectClears | src/connect/config_file.rs:161-167 | a disconnect takes the entry out of every named section and keeps every other value |
| ConfigFacts.CallsKeepOthers | src/connect/config_file.rs:128-172 | over any sequence of calls every other key and every other server's entry keeps its value |
| ConfigFacts.NoChangeKeepsBytes | src/connect/config_file.rs:152-172 | a refused or no-op call leaves the bytes unchanged |
| ConfigFacts.SuccessNeedsAccess | src/connect/config_file.rs:128-172 | a call that succeeds did what it does when every file operation works |
| ConfigFacts.WriteSucceedsIff | src/connect/config_file.rs:128-150 | a write with working files succeeds iff the root can be read, is an object, and its section can take the entry; on the content alone this is `ConfigOutcomes.ConnectSucceedsIff` |
| ConfigOutcomes.FirstConnect | src/connect/config_file.rs:104-118 | no file, and a blank one within the read cap, become exactly the text of one section with one entry |
| ConfigOutcomes.ConnectToParsed | src/connect/config_file.rs:128-149 | a file of JSON has the entry merged in iff its root is an object whose section is missing or an object, and is otherwise left alone with the error for that |
| ConfigOutcomes.UnreadableIsRefused | src/connect/config_file.rs:104-118 | an irregular file, one past 1 MiB and one that is neither blank nor JSON are each refused by name and left alone |
| ConfigOutcomes.ConnectSucceedsIff | src/connect/config_file.rs:128-150 | a connect succeeds iff the file is absent, blank within the cap, or JSON that can take the entry |
| ConfigOutcomes.DisconnectSucceedsIff | src/connect/config_file.rs:155-172 | a disconnect fails iff the file is refused, and finds nothing in an absent or blank one |
| ConfigOutcomes.DisconnectFromParsed | src/connect/config_file.rs:155-172 | from a file of JSON it takes the entry iff some named section holds one, and else changes nothing |
| ConfigOutcomes.FoundIff | src/connect/config_file.rs:65-74 | a check finds the entry iff the file is JSON within the cap with one under a named section |
| ConfigOutcomes.CheckFailsIff | src/connect/config_file.rs:65-74 | a check fails iff the file is refused, or blank |
| ConfigOutcomes.FailingAccess | src/connect/config_file.rs:104-172 | a call that cannot look at, read or replace a file it needs to fails and leaves it alone; one that can does what it does when everything works |
| ConfigFacts.FoundAfterWrite | src/connect/config_file.rs:65-74 | a write to a root that can take the entry succeeds, and the entry is then found iff the merged root prints within the read cap |
| ConfigFacts.RemovedIffCarried | src/connect/config_file.rs:155-172 | a removal is reported iff a named section carried the entry |
| ConfigFacts.NotFoundAfterRemove | src/connect/config_file.rs:65-74 | after a disconnect the entry is not found; the check fails exactly on a cleared root that prints past the cap and on a blank file |
| ConfigFacts.EmptyFileCannotBeChecked | src/connect/config_file.rs:65-74 | an empty file: a disconnect succeeds and a check fails |
| ConfigLimits.CrowdedConnect | src/connect/config_file.rs:122-150 | a file within the cap that a successful connect leaves past it |
| ConfigLimits.CrowdedDisconnect | src/connect/config_file.rs:155-172 | the same file: a successful disconnect leaves it past the cap too |
| AtomicMerges.FileAlwaysParses | src/connect/config_file.rs:128-150 | however many processes edit one config, whenever each loads it, and wherever they fail or die, after any move it parses to the old root under a chain of whole edits, each made on the root its process found |
| AtomicMerges.ChainKeepsOthers | src/connect/config_file.rs:128-172 | no such chain changes another key or another server's entry |
| Json.WithoutGets | src/connect/config_file.rs:165 | removal loses its own key's value and no other, however the map closes the gap |
| Throttles.Throttle.ShouldEmit | src/server_progress.rs:99-110 | a call is the thread's load, any moves of the others, and its exchange; for a window of a millisecond or more its event passes iff it is the first or a window past the last one at its load, and nothing passed in between |
| Throttles.LoneEventPassesIff | src/server_progress.rs:99-110 | a call nothing comes between logs its event as the new last one iff it is the first or a window past the last, and else changes nothing |
| Throttles.TickIsExact | src/server_progress.rs:101-102 | ticks are whole milliseconds plus one, held at the 64-bit maximum |
| Throttles.ExchangeLandsIffNothingPassed | src/server_progress.rs:97-110 | an exchange lands iff nothing passed since its load: no stale one lands, a failed one means another passed |
| Throttles.RunKeepsSafe | src/server_progress.rs:80-110 | every interleaving keeps passes a window apart and the last tick growing |
| Throttles.PassesKeepTheWindow | src/server_progress.rs:99-110 | the i-th and j-th passes are at least j - i windows apart, saturation included |
| Throttles.ShortWindowGoesBack | src/server_progress.rs:99-110 | with a window under a millisecond the last tick can go back |
| Runner.PermitsAreConserved | src/server_runner.rs:79-154 | in every run free and held permits add up to the bound, running closures stay within it, and a call logs once iff it completed |
| Runner.PermitIsKept | src/server_runner.rs:129-153 | a permit returns only when its closure ends, or by cancellation before there is one |
| Runner.CancelKeepsClosure | src/server_runner.rs:130-153 | cancelling a call takes nothing from a closure it handed over |
| Runner.CancelledClosureRunsOn | src/server_runner.rs:130-153 | over every later run a cancelled call stays cancelled and unlogged, and its closure holds the permit until it ends |
| Runner.LoneCallCompletes | src/server_runner.rs:79-154 | an undisturbed call takes a permit, runs, gives it back, completes as its work ended and logs once |
| Runner.ClosedStartsNothing | src/server_runner.rs:137-140 | once the semaphore is closed no call starts its work over any run: it waits, was cancelled, or fails |
| Runner.ClosedCallFails | src/server_runner.rs:79-140 | an undisturbed call then completes with an error and logs it once |
| Runner.IdsUniqueIffNoWrap | src/server_runner.rs:25-42 | call ids are pairwise distinct iff at most 2^64 were given |
| Quoting.ReadsQuoted | src/connect_cli.rs:84-93 | a quoted argument is read as one word of exactly its characters |
| Quoting.DisplayReadsBack | src/connect_cli.rs:73-93 | a shell reads the displayed command as the client's name and exactly the arguments |
| Quoting.EscapeForDouble | src/install/path.rs:96-105 | the loop escapes each special character |
| Quoting.ExportReadsBack | src/install/path.rs:72-105 | a shell reads the line as exporting exactly the directory before the old PATH |
| ShellPath.RcFile.AddToPath | src/install/path.rs:15-37 | the file only grows, and on success holds the line once |
| ShellPath.AdditionAddsOneLine | src/install/path.rs:26-32 | an addition appends, and adds exactly one trimmed line after those there were |
| ShellPath.SecondRunIffTrimmed | src/install/path.rs:23-32 | a second run changes nothing, for every file, iff the line is its own trim |
| ShellPath.ExportLineIsOneLine | src/install/path.rs:76-83 | the bash and zsh line is one line and its own trim for every directory without a line feed |
| BoundedRun.Capture | src/connect_run.rs:29-44 | the first MiB of a stream is kept and the rest drained |
| BoundedRun.RunBounded | src/connect_run.rs:81-118 | at most one sleep per 20 ms of timeout, rounded up; the child reaped however the wait ends; exactly the kept bytes of each stream returned, and that whenever the child exits and its streams end in time |
| BoundedRun.IntervalsCover | src/connect_run.rs:81-118 | the bound on sleeps is the least number of 20 ms intervals that add up to the timeout |
| CappedLines.ReadCappedLine | src/prompt.rs:86-99 | one call consumes exactly one line and yields its first 256 bytes |
| CappedLines.CappedIs | src/prompt.rs:86-99 | what is kept of a line is its first 256 bytes, and all of a shorter one |
| CappedLines.LinesPartitionInput | src/prompt.rs:86-99 | the lines are the input, each ended by its only line feed but for the last |
| CappedLines.ReadsYieldTheLines | src/prompt.rs:86-99 | the n-th read yields the n-th line, cut, and later reads none |

## Left out

- The language pack, its grammars and `process()`: a file starts from the language pack's results and a parsed tree, both given.
- The Rust parser on a macro's text (`src/evidence/calls/macro_calls.rs`): the tree of a framed text is a given function of it, for any frame.
- Call query languages (`src/evidence/calls/query_calls.rs`): a file is Rust or has no call rows.
- Node kinds by their text: the kinds the walkers tell apart are named, any other is opaque.
- FileCuts.FileUnderDeadline: the clock never decreases, and a parse or re-parse the language pack cancels has used up the whole milliseconds it was given, of a budget that 64-bit milliseconds can hold.
- MacroRanges.RowsLieInMacro: the parser places every node's children within it.
- SearchOrders.LocalSearches: the four forms are written out for names without whitespace, colons and stars; for any other text the order is `ResolveRust.Tries` itself.
- Columns: the line index is a given function from byte offsets to positions.
- The library trim of import texts, UTF-8 decoding of prompt answers and of checksum files: given functions, or the bytes themselves.
- Paths other than normalised project paths with forward slashes: the parent and stem of a stored path are modelled as text.
- Resolution for other languages, and `mod` declarations, which the resolver does not read either.
- ConfigWriter.WriteAtomicWith: the permission bits of a directory and of a link are not modelled, and links are followed in the last name of a path only.
- AtomicWriteFacts.ReplacementIsAtomic: covers process death, not power loss; what a sync guarantees on disk is not modelled.
- Hard links: two names never share a file, so a write through a temp's handle is a write to the temp's name.
- curl and sha256sum: a download leaves any part of its body when it fails, and the tool's output is a given function of the file's bytes.
- Updates.ApplyUpdate: links are not followed; a link or a directory at a name the flow reads or writes is an entry that cannot be opened.
- JSON text: reading and printing are given with their round trip; the order of keys after a removal is the library's, so both of its orders are covered and neither is promised. For the two files past the cap, one-line and indented layout are given for objects with plain keys.
- The directory creation before a config write, a path without a parent directory, and the registry that chooses path, section and entry.
- Runner.PermitsAreConserved: the semaphore, the id counter and the calls are values of a state machine, since every await is an interleaving; a permit is granted and taken in one step; the semaphore's queue of waiters is not modelled, nor are the process-wide counters.
- BoundedRun.RunBounded: starts from a child that was spawned; signals and process groups are not modelled, and killing and reaping count as done when attempted.
- CappedLines.ReadCappedLine: a stream that fails while it is read is not modelled.
- Expansion itself, aliases, reserved words and assignments before a command name: the shell model stops at tokens and quote removal.
- fish quoting, the choice of shell configuration file, environment variables and messages.
- Progress notifications, logging and tracing texts.
