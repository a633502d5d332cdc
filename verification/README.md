# Verified model of the EFP agent runtime

A Dafny 4.11 model of nine components of the runtime, with proofs of what they promise together rather than one
function at a time. `dafny verify dfyconfig.toml` checks everything.

Code that updates objects or loops over positions is a class or a method here, proved equal to a function; the
properties are lemmas about those functions, over all inputs, all interleavings and all runs.

**Workspace snapshots** (`WorkspaceTree`, `SnapshotCapture`, `SnapshotRestore`, `SnapshotDiff`, `SnapshotRetention`,
`SnapshotStore`). A workspace is a finite tree of directories, files and symbolic links, given as a map from paths to
entries; each system call requires what the operating system demands. Capture and scan are walks over it, restore is a
sequence of unlinks, tree removals, directory creations and writes. The storage root keeps, as a ghost, every state its
disk goes through, so that the contracts speak of a crash between any two writes. SHA-256 is injective. Findings about
the diff: a captured file replaced by a link to equal bytes is not reported; and where a regular file has taken the
place of a directory of captured files, the diff ends in an error that the program does not expect. A finding about
restoring: what the runtime keeps in its own directory is lost if that was a regular file when it was captured.

**History compaction** (`Compaction`, `TokenChunks`, `ToolCallPairing`, `RepairedHistory`, `HistoryCompaction`). Token
costs follow the program's estimate; the results need only that no message is free and that dropping tool calls makes
none dearer. A finding: whenever compaction asks for a summary, at most one message is left, so with a recent count of
0 or more the text that is summarised is that of no message; what pruning dropped is never summarised.

**Configuration text** (`ConfigText`, `ConfigCommas`, `ConfigGrammar`, `ConfigSubstitution`, `ConfigTokens`,
`ConfigStructure`, `ConfigMerge`, `ConfigPaths`). The three scanners are proved against one reading of the text, which
says of every character whether it is code, comment or part of a literal; `ConfigGrammar` and `ConfigTokens` say by the
grammar of the text what each makes of it. Substitution keeps the structure of a file for every environment exactly if
no variable token takes in the closing quote of its literal; an environment of constants decides.

**Slash commands** (`CommandTemplates`, `TemplateVariables`, `CommandSpans`, `CommandLines`, `CommandSplice`).
Rendering with a mask, finding the shell interpolations that the mask allows, splicing results in.

**Permissions** (`PermissionConfig`, `PermissionSelection`, `PermissionNormalize`, `PermissionWriting`,
`PermissionMerge`, `WildcardDenials`, `PermissionBroker`, `ConfiguredBroker`). Validation and reading, selection by one
order, base denials under every overlay, the broker's rules and requests, and how a selected rule reaches its
decisions. A finding: a subject pattern that is `action` but for white space turns its mapping into one rule for all
subjects. The shell-style match of names is a function parameter, and so is the sorting of keys, of which only the set
of keys matters.

**Execution queue** (`QueueProtocol`, `ExecutionQueue`). Steps between suspension points, runs of any interleaving, and
the class whose dictionaries follow them. The global queue is documented to serialise across sessions; it never makes a
processor wait, and a run shows two sessions executing at once.

**Connector rendezvous** (`BridgeProtocol`, `BridgeOutcomes`, `ConnectorBridge`). Registrations, waits, and callbacks
that run later. An answer accepted before anyone waits for it is lost.

**Shell scanner** (`ShellPaths`, `PathWalks`, `ShellWords`, `ShellCommands`, `ShellGrammar`). Cutting at operators
outside quotes, lexical paths, words that are still to be expanded, and following `cd`. `posixpath.normpath` and
`posixpath.join` are modelled as Python documents them.

**Event bus** (`EventBus`, `EventDelivery`). Bounded viewer queues and a bounded history over one stream.

`PythonText` holds Python's white space and lines, `Dictionaries` its ordered dictionaries, `Sequences` one fact about
concatenation, `Selections` parts of a sequence by their positions, `Options` the optional value.

## Model

| member | source | states |
|---|---|---|
| WorkspaceTree.Workspace.EnsureDirectory | src/efp_runtime/workspace_snapshots.py:1193-1206 | the directory and all above it become real directories, whatever was in the way; nothing else changes |
| WorkspaceTree.Workspace.WriteFile | src/efp_runtime/workspace_snapshots.py:1181-1191 | afterwards the path holds the bytes, everything above it is a directory, what was below it is gone, and all else is as it was |
| WorkspaceTree.Workspace.DeleteRegularFile | src/efp_runtime/workspace_snapshots.py:1208-1212 | only a regular file is deleted, a link or directory at the path is left alone |
| SnapshotCapture.CaptureWalk.CaptureFile | src/efp_runtime/workspace_snapshots.py:1076-1120 | without a limit, or within it, a file is recorded with its SHA-256 and size and its bytes are stored; above it only its size is recorded; nothing else changes |
| SnapshotCapture.CaptureWalk.CaptureDirectory | src/efp_runtime/workspace_snapshots.py:1030-1120 | the walk adds exactly the capture of everything below the directory, in whatever order entries come |
| SnapshotCapture.CaptureWorkspace | src/efp_runtime/workspace_snapshots.py:346-360 | the whole capture, which is the one that `CaptureOfCaptures` tells path by path |
| SnapshotCapture.CaptureOfCaptures | src/efp_runtime/workspace_snapshots.py:1030-1120 | path by path: captured is each regular file with no always excluded component, no runtime-owned or excluded directory above it, and no limit or a size within it; skipped is such a file above the limit, with its size; recorded are the excluded directories in view |
| SnapshotCapture.ScanOfIff | src/efp_runtime/workspace_snapshots.py:1122-1166 | a scan finds the regular files in view, told by components, whatever their size |
| SnapshotCapture.ScanWorkspace | src/efp_runtime/workspace_snapshots.py:1122-1166 | a scan finds exactly the regular files in view, told by components, each with its digest and size |
| SnapshotRestore.CaptureIsCoherent | src/efp_runtime/workspace_snapshots.py:1030-1120 | captured and skipped paths are prefix-free and never under an excluded directory, and all stored bytes match their digests |
| SnapshotRestore.OverlayStep | src/efp_runtime/workspace_snapshots.py:1181-1206 | writing one captured path back never undoes another write, because neither covers the other |
| SnapshotRestore.WriteFiles | src/efp_runtime/workspace_snapshots.py:493-499 | all captured files are written back over whatever is there, in any order |
| SnapshotRestore.RestoredAt | src/efp_runtime/workspace_snapshots.py:482-514 | what a restore makes of each path: a written one holds its blob, what is above one is a directory, what is below one is gone, all else stays but new regular files in view when what was added is deleted |
| SnapshotRestore.KeepingAddedLosesOnlyToWritten | src/efp_runtime/workspace_snapshots.py:493-502 | when what was added is kept, a regular file stays unchanged if and only if no captured path is written at it, above or below it, or the one at it has its bytes |
| SnapshotRestore.ValidateBlobs | src/efp_runtime/workspace_snapshots.py:622-641 | true exactly if every captured file has its blob with the recorded digest and size |
| SnapshotRestore.Restore | src/efp_runtime/workspace_snapshots.py:482-514 | with a missing or wrong blob the workspace is untouched; otherwise it is exactly the restored tree, and when what was added is kept a file is lost only to a captured path that is written |
| SnapshotRestore.UncapturedSurvives | src/efp_runtime/workspace_snapshots.py:488-512 | whatever the restoring store excludes, no skipped file and no file under a recorded excluded directory is deleted or overwritten |
| SnapshotRestore.OutOfScopeSurvives | src/efp_runtime/workspace_snapshots.py:493-512 | any other file out of scope, and any file when what was added is kept, survives exactly if no captured path is written at, above or below it, or the one written at it has its bytes |
| SnapshotRestore.RuntimeOwnedSurvives | src/efp_runtime/workspace_snapshots.py:493-498 | a live file of the runtime survives every snapshot, one that lists the file itself included, if and only if none of the captured paths that are written is at or above the runtime directory |
| SnapshotRestore.FileForRuntimeDirectoryDestroysIt | src/efp_runtime/workspace_snapshots.py:493-499 | the input that fails, with the capture it comes from: `.efp/runtime` was a regular file then and is a directory now |
| SnapshotRestore.CapturedIsWrittenBack | src/efp_runtime/workspace_snapshots.py:493-499 | a capture never holds a path that restore refuses to write |
| SnapshotRestore.RestoreBringsBackContents | src/efp_runtime/workspace_snapshots.py:482-514 | round trip: after any edits, and for every restoring policy, every regular file that was in view and within the limit holds its bytes again |
| SnapshotRestore.RestoreScansBack | src/efp_runtime/workspace_snapshots.py:501-512 | and a scan finds exactly the captured files and the skipped ones still there |
| SnapshotRestore.RestoreBringsBackView | src/efp_runtime/workspace_snapshots.py:482-514 | of the paths in view the regular files afterwards are those of then that were within the limit, with the bytes of then, and those above it that are still regular files, with the bytes of now |
| SnapshotRestore.RestoreIsIdempotent | src/efp_runtime/workspace_snapshots.py:482-514 | restoring again changes nothing |
| SnapshotDiff.DiffFiles | src/efp_runtime/workspace_snapshots.py:1299-1390 | the paths added, deleted and modified, by digest, with files opened through links; an error exactly if some path cannot be opened |
| SnapshotDiff.Diff | src/efp_runtime/workspace_snapshots.py:464-480 | refused for invalid blobs, an error for a path that cannot be opened, else the diff; skipped files are not compared |
| SnapshotDiff.AddedIff | src/efp_runtime/workspace_snapshots.py:1309-1390 | added is exactly a regular file in view for which the manifest has no entry |
| SnapshotDiff.DeletedIff | src/efp_runtime/workspace_snapshots.py:1309-1390 | deleted is exactly a captured path that is no regular file and behind no link that leads to contents |
| SnapshotDiff.ModifiedIff | src/efp_runtime/workspace_snapshots.py:1309-1390 | modified is exactly a captured path where a regular file, or what a link leads to, has another digest |
| SnapshotDiff.FailsIff | src/efp_runtime/workspace_snapshots.py:1003-1018 | with links too: it fails exactly if some captured path is no regular file, and behind a link that cannot be opened or, without a link, below a regular file |
| SnapshotDiff.FailsIffFileAbove | src/efp_runtime/workspace_snapshots.py:1003-1018 | for valid blobs and no link on a captured path, the diff fails if and only if a regular file lies strictly above a captured path |
| SnapshotDiff.DiffFailsOnFileForDirectory | src/efp_runtime/workspace_snapshots.py:1003-1018 | such a workspace: the directory of a captured file has become a file |
| SnapshotDiff.UnchangedIffEmptyDiff | src/efp_runtime/workspace_snapshots.py:464-480 | contents are unchanged if and only if the diff does not fail, is empty, and no captured path is reached through a link |
| SnapshotDiff.DiffMissesLink | src/efp_runtime/workspace_snapshots.py:1309-1318 | a captured file replaced by a link to equal bytes gives an empty diff |
| SnapshotDiff.DiffAfterRestoreIsEmpty | src/efp_runtime/workspace_snapshots.py:464-514 | the diff right after a restore succeeds and is empty, whatever the workspace was |
| SnapshotRetention.PruningIsDetermined | src/efp_runtime/workspace_snapshots.py:542-579 | keeping what is held, reaching the cap as far as that allows and dropping the oldest fixes which snapshots stay |
| SnapshotRetention.PrunedIsPrunedTo | src/efp_runtime/workspace_snapshots.py:542-579 | dropping the oldest that nothing holds, one at a time, is what those conditions describe, for every cap and every set that is held |
| SnapshotRetention.PruningTakesNoMore | src/efp_runtime/workspace_snapshots.py:571-579 | at no point has a pruning taken what it would keep in the end |
| SnapshotRetention.CreateKeepsInv | src/efp_runtime/workspace_snapshots.py:331-428 | a create, with its pruning, keeps leased snapshots, increasing ids and complete manifests |
| SnapshotRetention.ReleaseKeepsInv | src/efp_runtime/workspace_snapshots.py:450-462 | so does the release of a lease, with its pruning |
| SnapshotRetention.CrashKeepsInv | src/efp_runtime/workspace_snapshots.py:331-620 | so does a crash at any write of a create, a release or a delete, or of their removals |
| SnapshotRetention.CrashLeavesOldOrNew | src/efp_runtime/workspace_snapshots.py:378-389 | after a crash in a create the loaded snapshots are the old ones, untouched, or some of the old and the new, with all that the finished create keeps untouched among them; one whose blobs validate is whole |
| SnapshotRetention.CrashLosesNoMoreThanTheStep | src/efp_runtime/workspace_snapshots.py:450-523 | a crash in a release keeps what the finished release keeps, one in a delete keeps all but the snapshot to be deleted |
| SnapshotRetention.RunKeepsInv | src/efp_runtime/workspace_snapshots.py:331-579 | over every run by any number of stores, with crashes, leased snapshots are there, ids strictly increase, manifests are complete |
| SnapshotRetention.LeasedIsUntouched | src/efp_runtime/workspace_snapshots.py:435-462 | what is stored for a snapshot does not change while it is under lease and the process lives |
| SnapshotStore.SnapshotRoot.StoreSnapshot | src/efp_runtime/workspace_snapshots.py:342-389 | between its writes the disk never shows a readable manifest until the snapshot is whole |
| SnapshotStore.SnapshotRoot.StoreAndRemove | src/efp_runtime/workspace_snapshots.py:349-387 | a capture that fails after any number of blobs, or within the manifest, leaves the disk as it was, and shows no readable manifest meanwhile |
| SnapshotStore.SnapshotRoot.RemoveSnapshot | src/efp_runtime/workspace_snapshots.py:606-620 | a removal, seen between its writes, only loses parts of the one snapshot |
| SnapshotStore.SnapshotRoot.RemoveOldest | src/efp_runtime/workspace_snapshots.py:571-579 | the removal loop prunes as specified; between its writes only the oldest that are too many are gone, the last of them perhaps in part |
| SnapshotStore.Sorted | src/efp_runtime/workspace_snapshots.py:550-553 | the ids in increasing order, all of them |
| SnapshotStore.Store.Reload | src/efp_runtime/workspace_snapshots.py:643-683 | the view is that of the disk, and the next index is above every loaded id and not below the allocator |
| SnapshotStore.Store.AllocateId | src/efp_runtime/workspace_snapshots.py:531-540 | the id is unused, larger than all given out, and recorded before it is returned |
| SnapshotStore.Store.PruneOldSnapshots | src/efp_runtime/workspace_snapshots.py:542-579 | leased, protected and requested snapshots stay; exactly max(cap, held) are left when it began over the cap; the oldest others go |
| SnapshotStore.Store.CreateSnapshot | src/efp_runtime/workspace_snapshots.py:331-428 | takes exactly the create step, and between any two writes the disk is one that a crash in it may leave |
| SnapshotStore.Store.CreateSnapshotFailing | src/efp_runtime/workspace_snapshots.py:338-387 | a capture that fails, wherever it does, leaves nothing but its used id, and meanwhile only what a crash may leave |
| SnapshotStore.Store.ProtectSnapshot | src/efp_runtime/workspace_snapshots.py:436-448 | one lease more on a known snapshot, an error for another |
| SnapshotStore.Store.ReleaseSnapshotProtection | src/efp_runtime/workspace_snapshots.py:450-462 | one lease less and the cap reapplied, or an error without a lease; between writes only what a crash in it may leave |
| SnapshotStore.Store.DeleteSnapshot | src/efp_runtime/workspace_snapshots.py:516-523 | refused under lease, an error if unknown, otherwise the snapshot is gone; between writes only what a crash in it may leave |
| SnapshotStore.Store.RestoreSnapshot | src/efp_runtime/workspace_snapshots.py:482-514 | the restored tree, or the workspace unchanged for an unknown snapshot or invalid blobs; when what was added is kept, a file is lost only to a captured path that is written |
| SnapshotStore.Store.DiffSnapshot | src/efp_runtime/workspace_snapshots.py:464-480 | the diff of a known, valid snapshot, or an error if a path cannot be opened; nothing is changed |
| Compaction.EstimateIsReasonable | src/agents/compaction.py:124-163 | the program's estimate charges every message and never charges more for fewer tool calls |
| Compaction.EstimateIsAFifthMore | src/agents/compaction.py:124-160 | the estimate is, in whole tokens, a fifth more than content, role and tool calls are counted for |
| Compaction.SplitByTokenShare | src/agents/compaction.py:190-235 | the splitting loop computes the split |
| Compaction.SplitIsGreedy | src/agents/compaction.py:190-235 | chunks are non-empty and in order, at most as many as asked for, each but the last full and within its share or single; at least two from two messages and two parts |
| TokenChunks.ChunkByMaxTokens | src/agents/compaction.py:238-278 | the chunking loop computes the chunks |
| TokenChunks.ChunksAreWithinLimit | src/agents/compaction.py:238-278 | every message in order, each chunk within the limit or a single message, none closed that had room |
| ToolCallPairing.FixToolCallConsistency | src/agents/compaction.py:608-666 | calls without a response and responses without a call go, in three passes |
| RepairedHistory.FixedIffRepair | src/agents/compaction.py:608-666 | the repair is the one history that has all messages but tool responses to no call, in order, each with its role, content and id, and of an assistant message exactly the calls that are answered, in order; told by positions |
| ToolCallPairing.FixedIsPaired | src/agents/compaction.py:608-666 | afterwards call ids equal response ids, and are those that had both |
| ToolCallPairing.FixedIsIdempotent | src/agents/compaction.py:608-666 | repairing again changes nothing |
| ToolCallPairing.RepairCostsNoMore | src/agents/compaction.py:640-664 | a repair never makes a history dearer |
| HistoryCompaction.PruneHistory | src/agents/compaction.py:669-719 | the loop ends with a suffix; dropped and kept tokens are those of the two parts; statistics agree |
| HistoryCompaction.PruneFitsIffNewestFits | src/agents/compaction.py:693-709 | with two or more parts it ends within budget exactly if the newest message alone is, else with that message; with fewer it drops nothing |
| HistoryCompaction.PruneDropsOnlyWhenOver | src/agents/compaction.py:695-709 | the last chunk dropped was the first share of a suffix that was over budget |
| HistoryCompaction.OverHalfIsOneMessage | src/agents/compaction.py:763-780 | the summary branch is reached only with the single newest message left, for every limit |
| HistoryCompaction.SummaryOfOneMessage | src/agents/compaction.py:780-796 | a summary is of no message at all, and the one newest message stays behind it; with a negative recent count it is the other way round |
| HistoryCompaction.CompactMessages | src/agents/compaction.py:722-798 | unchanged when it fits, else the repair of what was not dropped, at most half the limit, else a summary with the repair of the one newest message; the latter two are paired and lose nothing else |
| ConfigText.ItemsAreTheText | src/efp_runtime/config_loader.py:391-442 | the reading as code, comments and literals accounts for every character |
| ConfigText.StripJsoncComments | src/efp_runtime/config_loader.py:391-442 | the character loop blanks comments as the reading says |
| ConfigText.StripUncomments | src/efp_runtime/config_loader.py:391-442 | plain JSON reads the result as JSONC reads the original, with blanks for comments |
| ConfigText.StripKeepsPlaces | src/efp_runtime/config_loader.py:420-438 | same length, same line feeds, and no change but to a space |
| ConfigText.StripIsIdempotent | src/efp_runtime/config_loader.py:391-442 | stripping leaves no comment behind |
| ConfigGrammar.StripLiteral | src/efp_runtime/config_loader.py:391-442 | in front of any text, a string literal by the grammar of JSON stays as it is |
| ConfigGrammar.StripLineComment | src/efp_runtime/config_loader.py:419-425 | from two slashes to the end of the line there are spaces; the line break stays |
| ConfigGrammar.StripBlockComment | src/efp_runtime/config_loader.py:427-437 | from slash and star to the first star and slash behind them there are spaces and line feeds |
| ConfigGrammar.StripOpenComment | src/efp_runtime/config_loader.py:427-437 | the same up to the end of the text, without a star and slash |
| ConfigGrammar.StripPlain | src/efp_runtime/config_loader.py:439-440 | every other character stays |
| ConfigCommas.RemoveTrailingCommas | src/efp_runtime/config_loader.py:445-483 | the character loop drops exactly the trailing commas |
| ConfigCommas.RemoveTrailingKeepsItems | src/efp_runtime/config_loader.py:445-483 | only commas of code before a closing bracket or brace go; literals and other code stay |
| ConfigGrammar.RemoveComma | src/efp_runtime/config_loader.py:472-478 | in front of white space and any text, a comma goes exactly if a closing bracket or a closing brace comes next |
| ConfigGrammar.RemoveKeepsLiteral | src/efp_runtime/config_loader.py:445-483 | string literals stay, commas and brackets in them included |
| ConfigGrammar.RemoveKeepsPlain | src/efp_runtime/config_loader.py:445-483 | every other character stays |
| ConfigCommas.StripKeepsTokens | src/efp_runtime/config_loader.py:391-442 | stripping keeps every token, comments taken as white space |
| ConfigCommas.PipelineKeepsTokens | src/efp_runtime/config_loader.py:274-280 | after both scanners the JSON parser gets the original tokens but for trailing commas, if and only if no comma of code comes before a closer only by white space that JSON does not know |
| ConfigCommas.NoBreakSpaceLosesComma | src/efp_runtime/config_loader.py:472-478 | such a text: a no-break space between a comma and a closing bracket |
| ConfigCommas.RemoveTrailingIsIdempotentIff | src/efp_runtime/config_loader.py:472-479 | a second pass changes nothing if and only if no comma of code is followed, after white space, by a comma that trails |
| ConfigCommas.RemoveTrailingIsNotIdempotent | src/efp_runtime/config_loader.py:472-479 | the example: one pass leaves a comma of two, and a second drops it |
| ConfigSubstitution.FragmentMeansValue | src/efp_runtime/config_loader.py:387-388 | put anywhere in a literal, the escaped fragment reads as the value (RFC 8259, section 7) |
| ConfigSubstitution.FragmentIsInjective | src/efp_runtime/config_loader.py:387-388 | so different values never have the same fragment |
| ConfigSubstitution.SubstituteConfigVariables | src/efp_runtime/config_loader.py:291-358 | the character loop replaces exactly the tokens met in literals, and fails at the first missing file |
| ConfigTokens.TokenIsReplaced | src/efp_runtime/config_loader.py:304-311 | in a literal, in front of any text, `{env:NAME}` and `{file:path}` give way to the escaped value, or a missing file ends it |
| ConfigTokens.LiteralCharacterStays | src/efp_runtime/config_loader.py:304-323 | any other character of a literal stays |
| ConfigTokens.EscapeStays | src/efp_runtime/config_loader.py:304-323 | so does a backslash with the character behind it, which begins no token |
| ConfigTokens.LineCommentStays | src/efp_runtime/config_loader.py:328-332 | a line comment stays, tokens in it included |
| ConfigTokens.BlockCommentStays | src/efp_runtime/config_loader.py:334-344 | so does a block comment |
| ConfigTokens.CodeStays | src/efp_runtime/config_loader.py:322-347 | and every other character outside of literals |
| ConfigStructure.FragmentStaysInside | src/efp_runtime/config_loader.py:304-311 | a fragment never opens or closes a literal, nor escapes what follows |
| ConfigStructure.InsideKeepsStructure | src/efp_runtime/config_loader.py:291-349 | if tokens end inside their literals, the result has the items of the source with tokens replaced in literal bodies and nothing else |
| ConfigStructure.StructureIsKeptIffTokensInside | src/efp_runtime/config_loader.py:291-358 | structure is kept for every environment if and only if no token takes in its literal's closing quote |
| ConfigMerge.DedupeJsonValues | src/efp_runtime/config_loader.py:1190-1199 | the loop keeps first occurrences in order |
| ConfigPaths.DedupeIsFirstOnes | src/efp_runtime/config_loader.py:1190-1199 | what stays is exactly the items at the positions where they occur first, in order |
| ConfigPaths.MergeUnderPath | src/efp_runtime/config_loader.py:1172-1187 | under a path of keys on which both files hold objects: what the one file has that has something there; lists appended without repetition, objects with the keys of both, otherwise the override |
| ConfigMerge.MergeIsAssociative | src/efp_runtime/config_loader.py:1172-1187 | merging three files is the same either way round if and only if nowhere, under keys that all share, the second is of another kind than first and third and the third does not say all that the first says |
| ConfigMerge.MergeAddsNothingIff | src/efp_runtime/config_loader.py:1172-1199 | an override is the result by itself if and only if it has the keys of the base, and so below, and its lists begin with the items of the base and repeat none |
| ConfigMerge.AgreeingFilesAreNotCut | src/efp_runtime/config_loader.py:1172-1187 | so it is the same if each key has the same kind of value in all three |
| ConfigMerge.MixedKindsAreNotAssociative | src/efp_runtime/config_loader.py:1182-1187 | the example: a scalar between two lists |
| CommandTemplates.RenderCommandTemplate | src/efp_runtime/commands.py:973-1002 | the loop over matches renders text and mask |
| TemplateVariables.VariableLengthIff | src/efp_runtime/commands.py:973-1002 | a variable is `$ARGUMENTS`, or a dollar sign and digits not beginning with a zero, where the word ends |
| TemplateVariables.VariableIsReplaced | src/efp_runtime/commands.py:973-1002 | wherever one stands it gives way to the argument text or to the word it counts, nothing if there is none; before and behind it rendering is as without it |
| TemplateVariables.LiteralStays | src/efp_runtime/commands.py:973-1002 | every other character stays, marked as written by the template |
| CommandTemplates.SameLength | src/efp_runtime/commands.py:990-1002 | mask and text are equally long, position by position |
| CommandTemplates.MaskTellsTemplateFromValues | src/efp_runtime/commands.py:973-1002 | template characters are the template without variables, whatever the arguments; the others are the values, never searched again |
| CommandSpans.FindCommandShellInterpolations | src/efp_runtime/commands.py:750-796 | the loop over lines finds the spans |
| CommandSpans.LineShellInterpolation | src/efp_runtime/commands.py:855-889 | a `!` line is its backtick command, or the rest of the line |
| CommandSpans.InlineShellInterpolations | src/efp_runtime/commands.py:892-930 | the search by jumps finds what a scan of every position finds |
| CommandSpans.FindTemplateBacktick | src/efp_runtime/commands.py:947-960 | the first backtick of the template in the range |
| CommandSpans.SpansAreRight | src/efp_runtime/commands.py:750-796 | spans are numbered from 1, increasing, disjoint and in bounds; every opening `!`, and both backticks, are the template's |
| CommandLines.LinesAreRead | src/efp_runtime/commands.py:750-796 | line by line, told by characters: if the first visible one is a template `!`, the line has that one span, up to the first template backtick if one follows directly and is closed, else to the end of the line; in any other line every span is closed by the first template backtick, and every closed opening is in one |
| CommandLines.LinesAreTheText | src/efp_runtime/commands.py:767-775 | each character of a text is in such a line |
| CommandSpans.InlineSpansAreAll | src/efp_runtime/commands.py:902-930 | within a range, every template opening that is closed in it starts a span or is inside one |
| CommandSpans.SpansAreAll | src/efp_runtime/commands.py:750-796 | in a whole text, what opens and is closed in its line is covered by a span if and only if the line does not begin, after white space, with a backtick command of the template that is closed before it |
| CommandSpans.SecondCommandIsMissed | src/efp_runtime/commands.py:855-889 | the example: the second command of a line that begins with one |
| CommandSplice.ApplyCommandShellResults | src/efp_runtime/commands.py:799-834 | the loop splices results in the order of their spans |
| CommandSplice.SortedIsInLine | src/efp_runtime/commands.py:805-811 | disjoint spans in any order are sorted into increasing ones |
| CommandSplice.RestoringGivesContent | src/efp_runtime/commands.py:799-834 | putting the original text of disjoint spans back gives the content |
| CommandSplice.SplicingKeepsTheRest | src/efp_runtime/commands.py:811-817 | exactly the characters no span covers stay, in order, with the results between them |
| CommandSplice.ExpandCommand | src/efp_runtime/commands.py:364-371 | rendering, truncation of text and mask alike to the given number of characters, and the search, whose spans are those that each line of the text has |
| CommandSplice.ExpandedSpansAreSafe | src/efp_runtime/commands.py:364-371 | for every template, argument text and truncation, spans open with the template's own `!` and can be put back |
| PermissionNormalize.ConfigRules | src/efp_runtime/permissions.py:998-1062 | the validation error of the configuration, or the rules of what it normalises to, numbered in order, each with the mapping it was written in |
| PermissionNormalize.NormalizeToolPermissions | src/efp_runtime/permissions.py:854-887 | the loop computes the normal configuration, or the first error |
| PermissionNormalize.NormalizingSucceedsIff | src/efp_runtime/permissions.py:854-959 | accepted if and only if absent or a mapping without a faulty entry; then keys are stripped, distinct and not empty, and all values valid |
| PermissionWriting.AcceptedIffWellWritten | src/efp_runtime/permissions.py:854-959 | accepted if and only if absent or a mapping from names to action words, mappings with one, or mappings from patterns to rules with an action word and no keys beside `reason` and `risk` |
| PermissionWriting.RulesSayWhatIsWritten | src/efp_runtime/permissions.py:998-1062 | every rule allows, denies or asks as the last entry under its key, and under its pattern, says in words; the exception is a pattern that became the key `action` over a mapping |
| PermissionWriting.WrittenForAllGivesRule | src/efp_runtime/permissions.py:998-1031 | and the last value of a key that says an action gives a rule with it for all subjects |
| PermissionWriting.WrittenForSubjectGivesRule | src/efp_runtime/permissions.py:998-1062 | the last entry of a pattern gives a rule with its action for that pattern |
| PermissionNormalize.NormalizingAgain | src/efp_runtime/permissions.py:854-959 | normalising again changes nothing if and only if no subject pattern over a mapping has become the key `action`; otherwise it is an error |
| PermissionNormalize.SpacedActionIsRejectedAgain | src/efp_runtime/permissions.py:902-959 | the example: accepted once, and rejected when normalised again |
| PermissionNormalize.ReadBySubjectIff | src/efp_runtime/permissions.py:880-959 | a mapping without a key `action` is read subject by subject if and only if none of its patterns strips to `action` |
| PermissionNormalize.SpacedActionIsReadForAll | src/efp_runtime/permissions.py:1013-1031 | the example: a pattern with a space before `action` gives a rule for every subject |
| PermissionConfig.RuleComesFromValue | src/efp_runtime/permissions.py:998-1062 | each rule is one of those its key's value stands for |
| PermissionConfig.BestIsFirst | src/efp_runtime/permissions.py:137-243 | each step picks the most specific of its candidates, the earliest among equals |
| PermissionConfig.SelectIsLeast | src/efp_runtime/permissions.py:73-135 | the cascade selects the least candidate under step, specificity and order, and nothing only if there is none |
| PermissionSelection.SelectedDecides | src/efp_runtime/permissions.py:73-243 | the rule selected is in the first of eight tiers that has one: there by the longest key among wildcards, by the longest pattern among rules by subject, else by the earliest declaration |
| PermissionSelection.RulesFollowDeclarations | src/efp_runtime/permissions.py:998-1062 | the rules stand, and are numbered, in the order in which keys and patterns are declared |
| PermissionMerge.MergeToolPermissionConfigs | src/efp_runtime/permissions.py:985-995 | update by the overlay, then base denials put back |
| PermissionMerge.GetOfEnforced | src/efp_runtime/permissions.py:1102-1136 | enforcement changes a key only to a denial, and changes every enforced key |
| PermissionMerge.BaseDenySurvives | src/efp_runtime/permissions.py:1102-1122 | a direct base denial denies its tool and its alias tools for all calls and overlays |
| PermissionMerge.StarDenySurvives | src/efp_runtime/permissions.py:1116-1119 | a base denial of `*` denies what an overlay key decides and what the base leaves to it |
| WildcardDenials.MergeHolds | src/efp_runtime/permissions.py:1102-1136 | a key of the merge holds a denial if one is put back, else what the overlay says, else what the base says |
| WildcardDenials.MergeKeepsPosition | src/efp_runtime/permissions.py:985-995 | the keys of the base keep their places, by which equally long wildcards are told apart |
| WildcardDenials.MergeFollowsDeclarations | src/efp_runtime/permissions.py:985-995 | places in the merge are those of the base, then those of what only the overlay has |
| WildcardDenials.WildcardDenySurvivesIff | src/efp_runtime/permissions.py:1102-1136 | a call that the base denies by a wildcard is denied by the merge if and only if a denial is put back under the name of its tool, as it is if the overlay names it, or no wildcard of the overlay that is not put back comes before every matching one that the overlay denies or that is put back; all told from base and overlay |
| WildcardDenials.LongerWildcardOverrules | src/efp_runtime/permissions.py:1125-1135 | the example: a longer overlay wildcard that the base wildcard does not match |
| PermissionBroker.EvaluateUsesUpOnce | src/efp_runtime/permissions.py:612-632 | a rule for one decision goes with that decision; no other rule changes |
| PermissionBroker.LastRuleDecides | src/efp_runtime/permissions.py:542-558 | the last rule for the call whose patterns fit decides: it allows, refuses or asks, with its reason, and goes if it was for once |
| PermissionBroker.CallDecides | src/efp_runtime/permissions.py:559-580 | without one, a pending request for the call is asked about again, and otherwise the action of the call decides |
| PermissionBroker.AllowedIffMayRun | src/efp_runtime/permissions.py:534-580 | a decision allows if and only if the last fitting rule does, or there is none, no such call is pending and the action of the call allows it |
| PermissionBroker.RejectedOnceIsRefusedOnce | src/efp_runtime/permissions.py:587-604 | after a rejection for once the same call is refused with its reason exactly if the patterns of the request fit, and the rules are as before |
| PermissionBroker.RejectedAlwaysStays | src/efp_runtime/permissions.py:587-604 | after one for always a fitting call is refused again and again, whatever is pending, until a rule added later fits it |
| PermissionBroker.AskedIsPending | src/efp_runtime/permissions.py:534-580 | whoever is asked is asked about a pending request for this call; at most that one is new |
| PermissionBroker.ApprovedOnceIsAllowedOnce | src/efp_runtime/permissions.py:582-585 | after an approval for once the same call is allowed by it exactly if the request's patterns fit, and the rules are as before |
| PermissionBroker.ApprovedAlwaysStays | src/efp_runtime/permissions.py:779-799 | an approval for always allows a fitting call again and again |
| ConfiguredBroker.ConfiguredPermissionBroker.Evaluate | src/efp_runtime/permissions.py:704-754 | an invalid overlay is an error; otherwise the broker is asked with what the denying rule of the configuration, the rule of the overlay, or the rule of the configuration says |
| ConfiguredBroker.ActionThatCountsDecides | src/efp_runtime/permissions.py:704-754 | unless a broker rule or pending request comes first, a denial by the configuration decides, else the overlay, else the configuration, else the tool: allowed, asked or refused accordingly |
| ConfiguredBroker.PatternsAreListed | src/efp_runtime/permissions.py:1170-1202 | the patterns of a rule are the texts listed under `patterns`, or else the one under `pattern` |
| ConfiguredBroker.ConfiguredDenyIsRefused | src/efp_runtime/permissions.py:721-735 | a call that the configuration denies is refused with the reason of the selected rule, or else naming its key, whatever the overlay, unless a broker rule or pending request comes first |
| ConfiguredBroker.MergedDenialIsRefused | src/efp_runtime/permissions.py:721-735 | a direct denial of the base configuration refuses its tool and alias tools after every merge and under every overlay of an agent |
| ConfiguredBroker.ConfiguredAskCarriesRule | src/efp_runtime/permissions.py:1170-1202 | a request that the configuration asks for has the patterns, risk and reason of the selected rule, where that has them |
| PermissionBroker.PermissionBroker.AddRule | src/efp_runtime/permissions.py:525-526 | the rule goes last and is counted |
| PermissionBroker.PermissionBroker.MatchingRule | src/efp_runtime/permissions.py:612-632 | the last matching rule, used up if for once |
| PermissionBroker.PermissionBroker.MatchingPending | src/efp_runtime/permissions.py:634-650 | the first pending request for the same call |
| PermissionBroker.PermissionBroker.NewRequest | src/efp_runtime/permissions.py:659-690 | an equal pending request, down to session, resource, risk and metadata, is reused |
| PermissionBroker.PermissionBroker.Evaluate | src/efp_runtime/permissions.py:534-580 | the decision and the new state; it allows only a call that may run; once-rules added are those held and those that decided, requests created are pending, approved or denied |
| PermissionBroker.PermissionBroker.Approve | src/efp_runtime/permissions.py:582-585 | the request goes, its rule is added, the counts stay balanced; an unknown request is an error |
| PermissionBroker.PermissionBroker.Reject | src/efp_runtime/permissions.py:587-604 | the same for a denial |
| QueueProtocol.GlobalNeverWaits | src/agents/queue.py:92-95 | a get on the global queue never waits: it holds an id for every waiting entry |
| QueueProtocol.GlobalQueueDoesNotSerialise | src/agents/queue.py:21-28 | tasks of two sessions can be executed at once in some run with the global queue if and only if the sessions differ |
| QueueProtocol.StepKeepsInv | src/agents/queue.py:35-119 | every step keeps one processor per busy session, order, one outcome each and the global count |
| QueueProtocol.RunsAreSerial | src/agents/queue.py:86-119 | in every interleaving: starts in order of enqueueing, one at a time, none stranded |
| QueueProtocol.OutcomesAreTakenOnce | src/agents/queue.py:76-84 | nothing ends twice, no outcome is taken twice, and what is taken is how it ended |
| QueueProtocol.WaitingIsProgress | src/agents/queue.py:76-119 | while a caller waits some step other than a new enqueue can happen |
| QueueProtocol.RunsDrain | src/agents/queue.py:86-119 | without new work every run ends within its remaining starts, ends and takings |
| QueueProtocol.NothingIsLeftOver | src/agents/queue.py:76-84 | when no step is left every caller has taken its outcome |
| ExecutionQueue.ExecutionQueue.Enqueue | src/agents/queue.py:58-74 | the dictionaries take exactly the enqueue step; ids count up; the invariant stays |
| ExecutionQueue.ExecutionQueue.Begin | src/agents/queue.py:86-98 | the first run of a processor finds its queue, never waits at the global one, and takes exactly its step; the invariant stays |
| ExecutionQueue.ExecutionQueue.Finish | src/agents/queue.py:96-119 | an ending stores the outcome and goes on or stops, exactly as the step; the invariant stays |
| ExecutionQueue.ExecutionQueue.Take | src/agents/queue.py:76-84 | the caller gets the recorded outcome, errors first, and it is gone |
| BridgeProtocol.StepKeepsInv | src/efp_runtime/connector_bridge.py:128-263 | every registration has one fate, and its future holds only what a resolve carried |
| BridgeProtocol.StepKeeps | src/efp_runtime/connector_bridge.py:189-207 | a fate is decided once, and a future set once |
| BridgeProtocol.ResolvesOnce | src/efp_runtime/connector_bridge.py:180-194 | over every run, resolve answers True at most once per registration |
| BridgeProtocol.AnswerWasResolved | src/efp_runtime/connector_bridge.py:240-260 | a waiter is given a payload only if the resolve that answered True carried it |
| BridgeProtocol.ResolvedIsDelivered | src/efp_runtime/connector_bridge.py:180-194 | once callbacks have run, the first wait on a resolved registration to end finds the answer |
| BridgeOutcomes.OutcomeTells | src/efp_runtime/connector_bridge.py:244-263 | over every run a tool learns of a timeout exactly if its time was up, of an answer exactly if its future had one, else of a cancellation; a cancelled future means an earlier withdrawal, or an earlier end of a wait for the same registration |
| BridgeProtocol.AcceptedMayBeDeliveredIff | src/efp_runtime/connector_bridge.py:180-240 | an answer that resolve has accepted can still reach a tool, over all continuations, if and only if one was already waiting for that registration |
| BridgeProtocol.EarlyAnswerIsLost | src/efp_runtime/connector_bridge.py:180-240 | a run that loses one: accepted and set before anyone waits, after which nobody can |
| BridgeProtocol.EndedStaysUnresolved | src/efp_runtime/connector_bridge.py:259-263 | with fresh ids an ended wait's id is never pending again |
| BridgeProtocol.EndWaitSparesOthersIff | src/efp_runtime/connector_bridge.py:259-263 | ending a wait takes away another registration exactly if its id was registered again |
| BridgeProtocol.ReusedIdIsLost | src/efp_runtime/connector_bridge.py:259-263 | a run in which it does |
| ConnectorBridge.ClampTimeout | src/efp_runtime/connector_bridge.py:88-97 | the timeout is the value given if that is in the window from 5 to 120 seconds, else the nearer end; the default stands in for what is no number |
| ConnectorBridge.Grace | src/efp_runtime/connector_bridge.py:100-109 | the extra seconds are those given if they are positive, and never negative |
| ConnectorBridge.ConnectorBridgeBroker.Register | src/efp_runtime/connector_bridge.py:128-140 | a pending id is refused, another gets a new open future |
| ConnectorBridge.ConnectorBridgeBroker.Resolve | src/efp_runtime/connector_bridge.py:180-194 | True exactly for a pending id, which goes, with a callback scheduled |
| ConnectorBridge.ConnectorBridgeBroker.Cancel | src/efp_runtime/connector_bridge.py:196-207 | the same, with a cancelling callback |
| ConnectorBridge.ConnectorBridgeBroker.Clear | src/efp_runtime/connector_bridge.py:209-214 | all pending ids go, each with a cancelling callback |
| ConnectorBridge.ConnectorBridgeBroker.RunCallback | src/efp_runtime/connector_bridge.py:266-276 | a callback sets its future unless that is done |
| ConnectorBridge.ConnectorBridgeBroker.BeginWait | src/efp_runtime/connector_bridge.py:217-240 | a wait holds the registration that is pending now; an unknown id is an error |
| ConnectorBridge.ConnectorBridgeBroker.EndWait | src/efp_runtime/connector_bridge.py:243-263 | result, timeout or cancellation; the id goes and an open future is cancelled |
| ShellPaths.NormpathIsIdempotent | src/efp_runtime/shell_permissions.py:487-510 | normalising twice changes nothing |
| ShellPaths.NormpathOfJoin | src/efp_runtime/shell_permissions.py:487-496 | normalising the base first does not change a joined path's normal form |
| PathWalks.NormpathIsTheWay | src/efp_runtime/shell_permissions.py:487-496 | the normal form is the way to the place where the components lead: as many `..` as levels up, then the components below |
| PathWalks.SameFormIffSamePlace | src/efp_runtime/shell_permissions.py:487-496 | two paths have the same components in their normal forms if and only if they lead to the same place |
| PathWalks.IsDynamicIff | src/efp_runtime/shell_permissions.py:575-577 | a word is still to be expanded if it starts with a tilde, or a command or variable to expand stands in it, told by characters |
| ShellWords.NormalizeDynamicPath | src/efp_runtime/shell_permissions.py:499-504 | the replacing loop leaves one slash for each run of slashes, and drops a last `/.` |
| ShellCommands.TidiedBelow | src/efp_runtime/shell_permissions.py:487-496 | a relative word with an expansion is flagged below another directory exactly if that directory leaves |
| ShellCommands.SplitSimpleCommands | src/efp_runtime/shell_permissions.py:129-166 | the quote-aware loop computes the segments |
| ShellCommands.SplitIsPieces | src/efp_runtime/shell_permissions.py:129-166 | they are the stripped pieces between operators |
| ShellGrammar.PiecesAreCut | src/efp_runtime/shell_permissions.py:129-166 | the loop with its flags cuts between the units of the grammar: escapes, runs in single and in double quotes, operators, other characters |
| ShellCommands.PiecesAreTheCommand | src/efp_runtime/shell_permissions.py:129-166 | pieces and operators together are the command |
| ShellCommands.PiecesHaveNoOperators | src/efp_runtime/shell_permissions.py:152-165 | no piece has one of the operators `&&`, `||`, `;`, a bar or a line feed outside its quotes |
| ShellGrammar.NoOperatorIsLeft | src/efp_runtime/shell_permissions.py:152-165 | in no piece does one of these characters of an operator stand where a unit starts, outside of quotes |
| ShellCommands.EscapeIffLeaves | src/efp_runtime/shell_permissions.py:596-597 | a normalised path is flagged exactly if it is absolute or its walk rises above the root at some prefix |
| ShellCommands.ScanCommand | src/efp_runtime/shell_permissions.py:83-126 | the loop computes the entries, whether any is flagged, and whether any has an expansion |
| ShellCommands.ScanFromWorkdir | src/efp_runtime/shell_permissions.py:83-126 | every path word gets the normal form of the words as written, joined through all earlier `cd`s, and the flag exactly if those leave; a word with an expansion is tidied only, flagged by its start or its directory, and no `cd` follows it |
| EventBus.Viewer.Offer | src/gateway/event_bus.py:115-126 | the event goes last; the oldest is lost exactly if the queue was full |
| EventBus.Viewer.Get | src/gateway/event_bus.py:115-126 | the oldest queued event is delivered |
| EventBus.ViewerSeesSubsequence | src/gateway/event_bus.py:115-126 | delivered and queued events are an in-order part of those offered, without repetition |
| EventBus.EveryEventIsAccountedFor | src/gateway/event_bus.py:115-126 | each offered event was delivered, or lost to a full queue, or is queued |
| EventBus.NormalizeReplayLimit | src/gateway/event_bus.py:204-211 | a replay never has more than 500 events |
| EventBus.EventBus.AddListener | src/gateway/event_bus.py:88-93 | the listener joins at the present event, be its queue listening already or not |
| EventBus.EventBus.RemoveListener | src/gateway/event_bus.py:95-99 | all listeners of that queue go, and what other queues are owed does not change |
| EventBus.EventBus.Emit | src/gateway/event_bus.py:101-126 | each queue has been offered exactly one copy of an event for each of its listeners that had joined and match, in order; the history is the last events emitted |
| EventBus.DueOfOne | src/gateway/event_bus.py:101-113 | so a queue with one listener has been offered exactly the matching events since it joined |
| EventDelivery.MatchesIffPasses | src/gateway/event_bus.py:44-86 | an event matches exactly if it shows, under one of the names of each filter, the value the filter was given with, white space around it aside |
| EventDelivery.DueIff | src/gateway/event_bus.py:101-113 | a queue is owed exactly the events that some listener of its own, joined by then, lets through |
| EventDelivery.OtherSessionsStayOut | src/gateway/event_bus.py:88-126 | a queue filtered by session is never offered an event of another session, or without one |
| EventDelivery.MatchingIsExact | src/gateway/event_bus.py:101-113 | what is owed to one listener are the events at the positions where the filters let them through, in order |
| EventBus.EventBus.ReplayEvents | src/gateway/event_bus.py:146-176 | the last `limit` events of the history that match and are after the marker |
| EventBus.ReplayIsOfAllEvents | src/gateway/event_bus.py:146-176 | if the history holds enough of them, these are the last of all events ever emitted |
| EventBus.ReplayableIsExact | src/gateway/event_bus.py:158-172 | a replay has exactly the matching events after the marker |
| EventDelivery.ReplayIsExact | src/gateway/event_bus.py:158-236 | a replay has the events at the positions where the filters let them through and time or time stamp is later than the marker, in order |
| EventDelivery.ReplayHasNewest | src/gateway/event_bus.py:172-211 | of these the newest: 100 if nothing is asked, none for a negative number, never more than 500 |

## Left out

- Snapshots: format-1 manifests and their rehash cache, snapshot ids that are not of the numbered form, declared counts
  in manifests, the removal hook, logging.
- Snapshots: a failure inside a tree removal that is ignored, files that change while they are copied or restored, and
  files that may not be read.
- Snapshots: the order of the diff list and the text of patches.
- SnapshotStore.Store.ProtectSnapshot: the acquire half of the context manager; its release is the next row.
- Compaction: timestamps, tool names and list contents of messages, how the summary is made, and the context window.
- Compaction: the safety margin is the exact fraction 6/5 and shares are reals, so rounding of floating point is absent.
- Configuration: lone surrogates in values, which the strings of the model cannot hold.
- Configuration: which file a token names and how its text is read; values come from a function.
- Slash commands: how arguments are cut into words, the frame around the expanded text, and the mark-up of results.
- PermissionNormalize.ConfigRules: the rules keep reason, risk and patterns as written; `ConfiguredBroker` reads them as
  text, with the printing of values that are not text as a function parameter.
- ConfiguredBroker.ConfiguredPermissionBroker.Evaluate: where an agent's overlay is kept in the context of a call.
- PermissionBroker.PermissionBroker.NewRequest: a request stands for its own id, so the truncated digest is taken as
  injective; metadata is text by text.
- Execution queue: `clear_session`, `clear_all`, status queries, and cancellation of coroutines.
- Execution queue: the 10 ms poll, which is "a waiting caller eventually looks".
- Connector: loops that are closed before a callback is handed to them, and the clock; a timeout may come at any time.
- Shell scanner: the tables of flags, glob marks, and `shlex`; the path words of each simple command are given.
- Event bus: serialisation of events to text and back, which keeps all that filters and markers look at.
