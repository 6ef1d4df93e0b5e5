# Pkstack, modelled and proved in Dafny

Pkstack is a controller that keeps a repository's reviewed upstream sources, feature contracts, goals,
evidence and installed files in order. This project models its hard cores and proves what each of them is
for. `dafny verify dfyconfig.toml` checks everything.

## What is modelled

- **Exact diffs** (`Text`, `HunkHeader`, `UnifiedPatch`, `PatchReplay`, `EditScript`, `DiffRoundTrip`,
  `DiffExactness`, `PatchPrinter`). The printer that aligns large files by unique lines and charges a shared
  work budget, the parser with running counts, and the interpreter with cursors. `difflib` is any function
  that returns valid grouped scripts. The format is that of "Diff -u or -U Output Format" in the `diff`
  utility of POSIX.1-2017.
- **The accept transaction** (`UpstreamDocs`, `AcceptProtocol`, `AcceptFiles`). Hash chains over manifest and
  ledger, the journal between them as a state machine with a crash or failure at every write, and the
  methods that write the files, proved to be runs of that machine.
- **Trees** (`GitTree`, `GitOrder`, `GitIdentity`, `TreeDelta`). Nested Git trees from flat listings, their Merkle ids,
  and the sorted rename, add, remove and modify script between two trees.
- **Feature contracts** (`Markdown`, `Headings`, `FeatureSections`, `FeatureRoundTrip`, `FeatureBatch`). Printing
  the Markdown sections and reading them as the heading patterns do, and the writer of a batch of files over a
  directory in which any operation may fail or be interrupted and other programs may create files.
- **Goals** (`Goal`, `GoalProtocol`). The record and its validity, the locked sections as methods, and their
  interleavings with an unlocked verifier run.
- **Evidence** (`Json`, `EvidenceTrail`, `Evidence`). The append-only log with canonical JSON lines.
- **Smaller cores** (`Slugs`, `Capture`, `Quotes`, `Anchors`, `Gitignore`, `Bootstrap`, `BootstrapRun`).

`None` stands for the package's raised error: no caller tells two messages apart.

## Where a promise fails

Some promises do not hold on all inputs; the code is modelled as it is, and each exact condition is proved.

- The parser cuts a patch with `splitlines()` while blobs are cut at newlines only. The round trip holds
  exactly when no shown line contains one of the other boundaries (`DiffExactness.RoundTripExactly`,
  `PatchPrinter.PrintedRoundTrip`); at the end of a shown line such a character is lost without an error
  (`DiffExactness.TrailingBoundaryIsLost`).
- "The bounds rise strictly" holds between anchors; the last bound may meet the first one when a file is
  empty (`PatchPrinter.BoundsAreAnchored`).
- The journal's validator does not repeat the loader's bounds on number and length of sources, so both sides
  load exactly when the before side does (`UpstreamDocs.JournalSidesLoad`); a transaction only begins from
  files that load.
- Setup's preview is right for every workspace exactly when no planned path lies under another
  (`Bootstrap.PreviewRightExactly`); setup does not check its plan for that.
- The .gitignore step reads in text mode and writes bytes, so a file with carriage returns has all its line
  endings rewritten (`Gitignore.BytesKeptExactly`).
- A field of a feature contract may hold what reads as a heading, and then text is refused or lost; only the
  generator's comparison catches every case (`FeatureRoundTrip.RoundTripExactly`). A bare row of marks before a
  later subsection is dropped without an error (`FeatureSections.BareMarksDropped`), while one at the very end
  of a section is text and is kept (`Headings.BareMarksAtEnd`).
- The writer of the feature map notes an install only after it has returned. An interrupt in between leaves that
  one target new although the error says rolled back, and an interrupt during the rollback leaves what was not
  yet put back (`FeatureBatch.FeatureDirectory.WriteMap`).
- Setup previews the discovery file with what it finds before its own writes. A file of exactly that text which
  no receipt names passes the preview and then conflicts, after the other writes, when the text has changed;
  then no receipt is committed (`BootstrapRun.Setup.Run` gives the condition).

## Model

| member | source | states |
|---|---|---|
| Text.LinesTextOfTextLines | powers/pkstack/src/pkstack/upstreams.py:3328-3335 | cutting a blob into lines and "ends in a newline" loses nothing: putting them together gives the text back |
| Text.SplitLinesFirst | powers/pkstack/src/pkstack/upstreams.py:3100 | what `splitlines()` makes of a text: the first line ends at the first of its nine boundaries, which is dropped |
| Text.SplitLinesCut | powers/pkstack/src/pkstack/upstreams.py:3100 | a broken line in a join of lines comes back cut at its first boundary, all lines before it intact |
| HunkHeader.RangeRoundTrip | powers/pkstack/src/pkstack/upstreams.py:2922-2931 | a printed range reads back as start and length, and its start names the right line index, with the special rules for empty and one-line ranges |
| HunkHeader.HeaderRoundTrip | powers/pkstack/src/pkstack/upstreams.py:3101-3119 | a printed hunk header reads back as exactly the two ranges it was printed from |
| HunkHeader.HeaderSpelledOut | powers/pkstack/src/pkstack/upstreams.py:2887-2931 | the printed header spelled out, range by range |
| UnifiedPatch.RunningReaderIsGrammar | powers/pkstack/src/pkstack/upstreams.py:3069-3140 | the one-pass reader with its running counts accepts exactly the patches of the two-level grammar (header, then a body with the declared counts) and yields the same hunks, errors included |
| UnifiedPatch.ParseUnifiedPatch | powers/pkstack/src/pkstack/upstreams.py:3063-3140 | the imperative parser computes the reading of the patch text, for every text and every pair of reported totals |
| UnifiedPatch.ParseLines | powers/pkstack/src/pkstack/upstreams.py:3100-3140 | the loop over the lines keeps the running counts and stops at the first fault, as the one-pass reader says |
| PatchReplay.ApplyPatchToExactBlob | powers/pkstack/src/pkstack/upstreams.py:3338-3404 | the replay with its cursor and output computes the patched text, or refuses |
| PatchReplay.ReplayOne | powers/pkstack/src/pkstack/upstreams.py:3353-3386 | one hunk: gap copied, context and deletions checked against the blob, additions appended, markers honoured |
| PatchReplay.PatchedConserves | powers/pkstack/src/pkstack/upstreams.py:3345-3404 | any accepted patch, printed here or not: the old lines are the gaps woven with the old sides of the hunks, the result is the same gaps woven with the new sides, and the line count changes by exactly additions minus deletions |
| EditScript.TokensInjective | powers/pkstack/src/pkstack/upstreams.py:2838-2845 | two texts with the same tokens (line, has a newline) are the same text |
| EditScript.OneChangeIsScript | powers/pkstack/src/pkstack/upstreams.py:2866-2885 | one changed stretch between equal ends is a valid grouped script, also at the first or the last line |
| EditScript.ShiftedScript | powers/pkstack/src/pkstack/upstreams.py:2876-2883 | a valid script for a window, shifted to where the window lies, is valid for that stretch of the files |
| EditScript.ScriptsJoin | powers/pkstack/src/pkstack/upstreams.py:2866-2883 | scripts of two stretches that meet make a valid script for both |
| EditScript.ScriptChunksValid | powers/pkstack/src/pkstack/upstreams.py:2897-2917 | the chunks of a valid grouped script are separated by equal gaps and walk both files in step |
| DiffRoundTrip.ReadRendered | powers/pkstack/src/pkstack/upstreams.py:2887-2931 | reading a printed patch without foreign line boundaries succeeds and its counts are the additions and deletions reported |
| DiffRoundTrip.RoundTripClean | powers/pkstack/src/pkstack/upstreams.py:3338-3404 | reading and replaying such a patch gives exactly the new text: empty files, missing final newlines and abutting hunks included |
| DiffExactness.RoundTripBroken | powers/pkstack/src/pkstack/upstreams.py:3100 | one boundary other than the newline inside a shown line, and the new text never comes back |
| DiffExactness.RoundTripExactly | powers/pkstack/src/pkstack/upstreams.py:2887-2931 | for all reviewable texts and every valid grouped script, the round trip holds if and only if no shown line contains a line boundary other than the newline and the new text is within the blob limit |
| DiffExactness.DifferencePrintsHunk | powers/pkstack/src/pkstack/upstreams.py:2884-2885 | two different texts always print at least one hunk |
| DiffExactness.TrailingBoundaryIsLost | powers/pkstack/src/pkstack/upstreams.py:3100 | concrete input: a vertical tab at the end of a shown line is dropped without an error and the replayed text is wrong |
| PatchPrinter.BoundsAreAnchored | powers/pkstack/src/pkstack/upstreams.py:2846-2864 | the window bounds start at (0, 0) and end at both ends; every interior bound is a line unique on both sides and at least 128 lines after the bound before it on both sides |
| PatchPrinter.WindowScriptsJoin | powers/pkstack/src/pkstack/upstreams.py:2866-2883 | the scripts of the windows, shifted and concatenated, are a valid script for the whole files |
| PatchPrinter.CellsGrow | powers/pkstack/src/pkstack/upstreams.py:2870-2875 | the charge is a running sum that rises with every window |
| PatchPrinter.BoundsAreCut | powers/pkstack/src/pkstack/upstreams.py:2848-2864 | up to 5000 lines the files are compared whole; above that they are cut, and no anchor is passed over: when one is a whole window past a bound, the next bound comes no later |
| PatchPrinter.CutDetermined | powers/pkstack/src/pkstack/upstreams.py:2848-2864 | only one list of bounds is like that |
| PatchPrinter.WindowCost | powers/pkstack/src/pkstack/upstreams.py:2870 | a window costs the product of the numbers of lines handed to the differ, an empty side counting as one |
| PatchPrinter.DenseCost | powers/pkstack/src/pkstack/upstreams.py:2846-2875 | large files with an anchor in every window cost at most the area of such a window for every 128 lines |
| PatchPrinter.OneLineChangeFits | powers/pkstack/src/pkstack/upstreams.py:2846-2875 | one changed line among distinct ones is within a fresh budget at every length the printer takes |
| PatchPrinter.AnchorBounds | powers/pkstack/src/pkstack/upstreams.py:2848-2864 | the anchor loop computes those bounds |
| PatchPrinter.NewPositions | powers/pkstack/src/pkstack/upstreams.py:2853 | the position table maps every line to its last index on the new side |
| PatchPrinter.ChargeWindows | powers/pkstack/src/pkstack/upstreams.py:2865-2883 | the window loop never exceeds the budget of the shared counter, goes through exactly when the whole sum fits, and then has charged exactly the sum of the window products |
| PatchPrinter.RenderGroups | powers/pkstack/src/pkstack/upstreams.py:2887-2918 | header and body of every group, with both counts |
| PatchPrinter.ChangedLinePrinted | powers/pkstack/src/pkstack/upstreams.py:2893-2918 | one changed line that loses its newline is printed as these four lines |
| PatchPrinter.CompleteUnifiedPatch | powers/pkstack/src/pkstack/upstreams.py:2824-2919 | prints the patch of the joined window scripts exactly when the texts are within the line limit, differ, and the shared budget has room |
| PatchPrinter.PrintedRoundTrip | powers/pkstack/src/pkstack/upstreams.py:2824-2931 | end to end, windows included: the printed patch replays to the new text if and only if no shown line holds a foreign line boundary and the new text is within the blob limit |
| UpstreamDocs.CheckChain | powers/pkstack/src/pkstack/upstreams.py:468-491 | the loop over the transitions accepts exactly the chains that lead from genesis to the pin, each prior equal to the tip before it and each step moving on |
| UpstreamDocs.ChainLinks | powers/pkstack/src/pkstack/upstreams.py:468-491 | a chain is right if and only if each link's prior is the reviewed identity of the link before it, genesis for the first, and each moves on |
| Slugs.SlugIsWords | powers/pkstack/src/pkstack/upstreams.py:186 | a slug is one or more non-empty words of lowercase letters and digits with single hyphens between them |
| UpstreamDocs.ParseReviewSource | powers/pkstack/src/pkstack/upstreams.py:440-501 | a review is accepted exactly when its chain fits its manifest source |
| UpstreamDocs.LoadReviewLedger | powers/pkstack/src/pkstack/upstreams.py:376-437 | the ledger loads exactly when names, bounds and every chain agree with the manifest |
| UpstreamDocs.OrdinaryLoads | powers/pkstack/src/pkstack/upstreams.py:376-437 | an ordinary pair loads: one source, reviewed once, its identities 40 lowercase hexadecimal digits |
| UpstreamDocs.LoadedBounds | powers/pkstack/src/pkstack/upstreams.py:376-437 | whatever loads has such identities, at most 32 sources and at most 512 transitions for each |
| UpstreamDocs.ValidateTransactionSourceChains | powers/pkstack/src/pkstack/upstreams.py:4081-4132 | the journal's chain check accepts exactly the pairs whose chains all hold |
| UpstreamDocs.ValidateSerializedAcceptSnapshots | powers/pkstack/src/pkstack/upstreams.py:3923-4061 | the snapshot validator accepts exactly the valid snapshot pairs |
| UpstreamDocs.JournalIsOneAdvance | powers/pkstack/src/pkstack/upstreams.py:3923-4061 | a snapshot pair is valid if and only if the before pair is sound and the after pair is it with one source advanced by one appendable transition to the expected head; nothing else changes |
| UpstreamDocs.AdvanceSound | powers/pkstack/src/pkstack/upstreams.py:4081-4132 | advancing a sound pair by an appendable transition gives a sound pair |
| UpstreamDocs.LoaderAcceptsSound | powers/pkstack/src/pkstack/upstreams.py:376-437 | the loader accepts exactly the sound pairs within its own bounds on number and length |
| UpstreamDocs.JournalSidesLoad | powers/pkstack/src/pkstack/upstreams.py:3923-4061 | for a valid journal the loader accepts either side exactly when the before side is within those bounds |
| UpstreamDocs.TornPairRefused | powers/pkstack/src/pkstack/upstreams.py:468-491 | a mixed pair, one file before and the other after, is never accepted by the loader |
| UpstreamDocs.JournalExtends | powers/pkstack/src/pkstack/upstreams.py:3923-4061 | a valid journal extends every chain and adds exactly one transition in all |
| AcceptProtocol.InvInductive | powers/pkstack/src/pkstack/upstreams.py:3811-3842 | every step keeps the invariant: writes that return, raise with or without effect, crashes, reproofs, new journals |
| AcceptProtocol.CrashSafety | powers/pkstack/src/pkstack/upstreams.py:905-941 | in every state of every run: without a journal the two files are a pair the loader accepts; with one each file is its before or its after snapshot, both complete pairs load, and a mixture does not |
| AcceptProtocol.JournalEndsComplete | powers/pkstack/src/pkstack/upstreams.py:4161-4170 | the journal is removed only with both files complete: after, or before when the reproof failed or the commit was undone |
| AcceptProtocol.HistoryIsAppendOnly | powers/pkstack/src/pkstack/upstreams.py:3811-3842 | between any two moments of any run the later settled ledger extends the earlier one |
| AcceptProtocol.RecoveryCompletes | powers/pkstack/src/pkstack/upstreams.py:905-941 | from any interrupted state the rerun completes: after and after if the reproof passes, before and before if it fails, without a journal |
| AcceptFiles.AcceptFiles.Write | powers/pkstack/src/pkstack/upstreams.py:3755-3772 | one atomic write or unlink, which may return, raise with or without effect, or end the process, is a step of the protocol |
| AcceptFiles.AcceptFiles.ReplaceBoth | powers/pkstack/src/pkstack/upstreams.py:3812-3821 | ledger, then manifest; what each ending leaves |
| AcceptFiles.AcceptFiles.WriteTransaction | powers/pkstack/src/pkstack/upstreams.py:3775-3842 | journal, ledger, manifest; a failed commit write is undone in process, and either all is written, or all is as before, or the journal is left |
| AcceptFiles.AcceptFiles.RecoverTransaction | powers/pkstack/src/pkstack/upstreams.py:3845-3920 | checks the journal against head and files and redoes both files |
| AcceptFiles.AcceptFiles.RollbackTransaction | powers/pkstack/src/pkstack/upstreams.py:4135-4158 | puts both files back from the journal |
| AcceptFiles.AcceptFiles.CleanupInputs | powers/pkstack/src/pkstack/upstreams.py:4161-4170 | proposal, then journal; the two files stay as they are |
| AcceptFiles.AcceptFiles.NothingElseRefuses | powers/pkstack/src/pkstack/upstreams.py:3845-3920 | whatever was interrupted, the journal left is never refused to an invocation with its head |
| AcceptFiles.AcceptFiles.Accept | powers/pkstack/src/pkstack/upstreams.py:862-1103 | one whole invocation extends a run of the protocol. It refuses if and only if it finds another head's journal, or none and nothing that may be accepted; otherwise, unless a write raises or the process dies, it accepts, completes, or undoes, as journal and reproof call for. A journal that was found goes only with the pair its reproof calls for; one write that raises leaves a new accept's files complete |
| AcceptFiles.AcceptFiles.AlwaysSafe | powers/pkstack/src/pkstack/upstreams.py:905-941 | whatever failed and wherever processes died, the files load or the journal holds what they need |
| GitTree.ModeKept | powers/pkstack/src/pkstack/upstream_catalog.py:65-71 | four modes are supported, and each is written as it is listed |
| GitTree.BuildNodes | powers/pkstack/src/pkstack/upstream_catalog.py:64-82 | the nested build, row by row, succeeds if and only if every mode is supported and no path is on the way to another; the tree then holds at every listed path a file with the listed mode and id, and no other file |
| GitTree.InsertLookup | powers/pkstack/src/pkstack/upstream_catalog.py:73-82 | inserting one path adds that file and keeps every other |
| GitTree.BuildFlattens | powers/pkstack/src/pkstack/upstream_catalog.py:64-82 | looking a path up in the built tree gives back the file map, path by path |
| GitTree.BuildFailsExactly | powers/pkstack/src/pkstack/upstream_catalog.py:65-82 | the build succeeds if and only if every mode is supported and no path is, or lies under, another |
| GitTree.BuildOrderIrrelevant | powers/pkstack/src/pkstack/upstream_catalog.py:65-82 | the order of the listing decides neither whether a tree is built nor which one |
| GitOrder.SortedUnique | powers/pkstack/src/pkstack/upstream_catalog.py:97 | a directory has one list of its names without repeats and ascending in Git's order |
| GitOrder.HashedInAnyOrder | powers/pkstack/src/pkstack/upstream_catalog.py:88-97 | sorting the entries of a directory, listed in any order, gives the bytes whose hash is its id |
| GitOrder.BuildSlashFree | powers/pkstack/src/pkstack/upstream_catalog.py:71-82 | no name in a built tree has a slash, so that holds at every level of every tree built from a listing |
| GitIdentity.RawEntryReadsBack | powers/pkstack/src/pkstack/upstream_catalog.py:91-96 | an entry (mode, name, id) can be cut off the front of an encoded directory in one way only |
| GitIdentity.ContentReadsBack | powers/pkstack/src/pkstack/upstream_catalog.py:86-97 | equal directory contents list the same names with the same modes and ids |
| GitIdentity.ListedRowIsHashed | powers/pkstack/src/pkstack/upstream_catalog.py:86-98 | of every listed row, the bytes hashed for its directory hold its own mode, the last component of its path and its own id |
| GitIdentity.SameIdSameNode | powers/pkstack/src/pkstack/upstream_catalog.py:85-102 | equal ids, and no collision among the byte strings hashed for these two trees, give equal trees |
| GitIdentity.RootIdIdentifiesListing | powers/pkstack/src/pkstack/upstream_catalog.py:61-102 | for listings that build, root ids are equal if and only if paths, modes and object ids are, unless the hash collides on two of the strings hashed for these very trees |
| TreeDelta.CountIdentities | powers/pkstack/src/pkstack/upstreams.py:2630-2635 | how many paths of a tree share each identity |
| TreeDelta.GroupByIdentity | powers/pkstack/src/pkstack/upstreams.py:2636-2639 | the removed or added paths gathered under their identities |
| TreeDelta.PairRenames | powers/pkstack/src/pkstack/upstreams.py:2641-2656 | the pairs found are exactly the renames: one removed and one added path of an identity unique in both whole trees |
| TreeDelta.SortOperations | powers/pkstack/src/pkstack/upstreams.py:2666 | sorting gives the operations in key order, each once |
| TreeDelta.SourceTreeOperations | powers/pkstack/src/pkstack/upstreams.py:2623-2666 | the whole computation gives the delta between the two trees |
| TreeDelta.DeltaUnique | powers/pkstack/src/pkstack/upstreams.py:2658-2666 | the sorted operation list is determined by the two trees: it does not depend on set or dictionary order |
| TreeDelta.DeltaDetermined | powers/pkstack/src/pkstack/upstreams.py:2658-2666 | only one list is the delta between two trees |
| TreeDelta.DeltaAscends | powers/pkstack/src/pkstack/upstreams.py:2666 | the operations ascend by path, and no path stands at two of them |
| TreeDelta.DeltaApplies | powers/pkstack/src/pkstack/upstreams.py:2623-2666 | carrying out the operations turns the pinned tree into the current one |
| TreeDelta.DeltaAccountsExactly | powers/pkstack/src/pkstack/upstreams.py:2199-2204 | the operations account for every changed path, each in exactly one operation, and for no other path, so the completeness check holds |
| TreeDelta.RenamesMatch | powers/pkstack/src/pkstack/upstreams.py:2645-2656 | renames are a matching: neither end is shared |
| Markdown.NormalizeFixes | powers/pkstack/src/pkstack/features.py:185-198 | re-joining the body's lines leaves a text alone exactly when its only breaks are newlines |
| Headings.ListedBlockLines | powers/pkstack/src/pkstack/features.py:218 | finding the headings of a printed list whose contents hold none of its level gives the list |
| Headings.ContentRead | powers/pkstack/src/pkstack/features.py:213-216 | under a printed heading the reader gets the whole content when no heading is found in it, and otherwise a beginning with strictly less text |
| Headings.BareMarksAtEnd | powers/pkstack/src/pkstack/features.py:213-216 | bare marks at the end of a text are a heading just when something follows the text: the pattern needs white space after them, if only a line end |
| Headings.BlockLinesHits | powers/pkstack/src/pkstack/features.py:218-222 | how many headings of a level are found in a printed list: its own and those inside its contents, bare marks on the very last line excepted |
| Headings.ListedCounts | powers/pkstack/src/pkstack/features.py:218-222 | the headings listed are all there are, unless one has the marks of another for its text |
| FeatureSections.SectionsExactly | powers/pkstack/src/pkstack/features.py:201-207 | from a printed document the reader gets the nine texts if and only if nothing else looks like a level-2 heading, and otherwise refuses |
| FeatureSections.SubsectionsExactly | powers/pkstack/src/pkstack/features.py:210-236 | printed subsections read back if and only if no level-3 heading is found in a content; otherwise they are refused or a content comes back with text missing |
| FeatureSections.BareMarksDropped | powers/pkstack/src/pkstack/features.py:210-236 | bare marks before a later subsection are dropped without an error: the headings found are as many as the subsections matched |
| FeatureSections.MatchesInk | powers/pkstack/src/pkstack/features.py:210-259 | matching never adds text: marks, headings and contents of the matches all stand in the text matched |
| Headings.ListedInk | powers/pkstack/src/pkstack/features.py:218 | every text is accounted for by its headings, what stands under them, and what comes before the first |
| FeatureSections.SubsectionsAccount | powers/pkstack/src/pkstack/features.py:210-236 | whatever the section, a successful read gives as many subsections as level-3 headings and leaves no text before the first; unless bare marks took a heading for their text, nothing is lost |
| FeatureSections.DriveExactly | powers/pkstack/src/pkstack/features.py:239-259 | recipe and proof read back if and only if no level-4 heading is found in either; otherwise they are refused or one comes back with text missing |
| FeatureSections.DrivePartsExactly | powers/pkstack/src/pkstack/features.py:239-259 | of any text, recipe and proof are read if and only if they are its two level-4 parts, in order, over some text, after none |
| FeatureSections.IdentifierExactly | powers/pkstack/src/pkstack/features.py:210-215 | a heading names a slug if and only if it is the slug with or without a back quote on each side |
| FeatureSections.ReadFilled | powers/pkstack/src/pkstack/features.py:262-335 | in whatever is read no text is empty, there is a sub-feature, and a gotcha for every line |
| FeatureSections.CollectItems | powers/pkstack/src/pkstack/features.py:225-236 | the loop over the matches, with the identifiers seen |
| FeatureSections.PairEntrypoints | powers/pkstack/src/pkstack/features.py:305-321 | the loop that pairs user paths with same-order drive recipes |
| FeatureRoundTrip.GotchasExactly | powers/pkstack/src/pkstack/features.py:262-269 | the gotchas read back exactly when none hides a line break |
| FeatureRoundTrip.EntrypointsExactly | powers/pkstack/src/pkstack/features.py:297-321 | the entrypoints read back if and only if each field has plain newlines and no heading of level 3, or 4 in the drive fields, is found in it |
| FeatureRoundTrip.FeatureExactly | powers/pkstack/src/pkstack/features.py:272-335 | given its nine texts, the reader returns the contract if and only if this holds of all its fields |
| FeatureRoundTrip.RoundTripExactly | powers/pkstack/src/pkstack/features.py:1423-1443 | a generated contract reads back as itself if and only if its fields use plain newlines and no heading of their own level or above is found in them, nor a level-2 heading in title or command: the generator's guard fires in all other cases and in no other |
| FeatureBatch.StandingPlanted | powers/pkstack/src/pkstack/features.py:1262-1276 | files other programs create at free names become what stands there |
| FeatureBatch.StandingUndone | powers/pkstack/src/pkstack/features.py:1277-1288 | undoing one target puts back what stood there |
| FeatureBatch.FeatureDirectory.MakeTemporary | powers/pkstack/src/pkstack/features.py:1114-1126 | a failed staging write leaves nothing behind unless its own unlink fails or an interrupt comes before the file is on record |
| FeatureBatch.FeatureDirectory.Restore | powers/pkstack/src/pkstack/features.py:1138-1150 | the restore is atomic over the target |
| FeatureBatch.RefusalExactly | powers/pkstack/src/pkstack/features.py:1239-1258 | a target may be staged if and only if it is as expected, read twice alike, and the snapshots stay within 512 KiB each and 4 MiB together; which error it is otherwise |
| FeatureBatch.FeatureDirectory.StageAll | powers/pkstack/src/pkstack/features.py:1239-1261 | compare and snapshot, then stage, target by target: no target is touched, and the snapshot limits are those of the documents only |
| FeatureBatch.FeatureDirectory.InstallFile | powers/pkstack/src/pkstack/features.py:1129-1135 | an install over an existing file or at a free name only; an interrupt may come before or after its effect |
| FeatureBatch.FeatureDirectory.InstallOne | powers/pkstack/src/pkstack/features.py:1262-1269 | a target is replaced only where a file was expected and overwriting is allowed, else it is created at a free name only; an install interrupted after its effect is the one late target |
| FeatureBatch.FeatureDirectory.RollBack | powers/pkstack/src/pkstack/features.py:1271-1283 | every installed target is put back, past those whose rollback write fails, and exactly those and a late one stay; an interrupt ends it, with every target either new or as it was |
| FeatureBatch.FeatureDirectory.CleanUp | powers/pkstack/src/pkstack/features.py:1299-1303 | the stages go, unless an unlink fails |
| FeatureBatch.FeatureDirectory.WriteMap | powers/pkstack/src/pkstack/features.py:1181-1312 | under any errors and interrupts, every name of the directory holds what it held or what others created meanwhile, except the targets left with their whole new text: all of them when it is written; when it says rolled back none, or exactly the one whose install raised after taking effect; the stuck ones and that one when it says incomplete; some when the rollback itself is interrupted. No stage stays unless it could not be unlinked or was not on record; without a failure or interference the batch is written; the rollback byte ceiling is never the reason |
| Goal.BindsSpecExactly | powers/pkstack/src/pkstack/goal.py:715-737 | a spec is bound by exactly three artifacts: design, bridge, and one intent of either kind, in any order |
| Goal.ContractsExactly | powers/pkstack/src/pkstack/goal.py:437-468 | a contract resolved from a command, a feature or a spec may be stored if and only if its command is not empty and allowed and it names its feature, or its spec with these three files and their hashes |
| Goal.ContractForm | powers/pkstack/src/pkstack/goal.py:704-742 | any other contract that may be stored has the form of one of these |
| Goal.ForgedRefused | powers/pkstack/src/pkstack/goal.py:687-703 | a stored goal whose contract is not the one hashed, or whose objective is blank or id no UUID, does not load |
| Goal.EvidenceDecides | powers/pkstack/src/pkstack/goal.py:693-762 | status and last result are functions of the attempts: passed exactly when one ended cleanly, which only the last may, else exhausted exactly when none is left |
| Goal.AttemptedValid | powers/pkstack/src/pkstack/goal.py:556-566 | recording an attempt on a valid active goal gives a valid goal |
| Goal.ResumedValid | powers/pkstack/src/pkstack/goal.py:585-599 | resuming gives a valid goal |
| Goal.GoalStore.Save | powers/pkstack/src/pkstack/goal.py:404-431 | a save writes exactly the valid states |
| Goal.GoalStore.StartGoal | powers/pkstack/src/pkstack/goal.py:471-508 | a start goes through if and only if no goal is stored and the objective, the budget of 1 to 20, the id and the contract are in order; then the new active goal without attempts is stored, else nothing changes |
| Goal.GoalStore.BeginVerify | powers/pkstack/src/pkstack/goal.py:527-539 | a run starts if and only if the file holds a valid active goal whose spec, if it has one, is unchanged; its snapshot is that very goal |
| Goal.GoalStore.CommitVerify | powers/pkstack/src/pkstack/goal.py:548-567 | the second locked section records the result exactly when the stored goal is still the one the run was for: one more attempt, passed, exhausted at the last one, or still active |
| Goal.GoalStore.ResumeGoal | powers/pkstack/src/pkstack/goal.py:570-600 | a resume goes through exactly when the stored goal is valid and not passed and the new budget, absolute or increased, is above the attempts used and at most 20; only budget, status and time change |
| Goal.GoalStore.ClearGoal | powers/pkstack/src/pkstack/goal.py:603-638 | a clear removes a valid goal that is no longer active, and anything readable or not when forced, except a state of an old schema; what cannot be read is kept in the archive first |
| GoalProtocol.InvStep | powers/pkstack/src/pkstack/goal.py:519-638 | every step of any process keeps the invariant |
| GoalProtocol.EveryAttemptIsARun | powers/pkstack/src/pkstack/goal.py:519-567 | in every interleaving of verify (snapshot, unlocked run, commit), start, resume and clear, every recorded result is that of a run of this goal's contract started from exactly the results before it; no run is recorded twice; at most 20 are recorded |
| GoalProtocol.CommitIsExact | powers/pkstack/src/pkstack/goal.py:548-567 | a commit records against the very state it was started from, or changes nothing |
| GoalProtocol.OnlyCommitRecords | powers/pkstack/src/pkstack/goal.py:519-638 | no other step touches a goal's history |
| GoalProtocol.GoalLifetime | powers/pkstack/src/pkstack/goal.py:677-762 | contract, digest and objective never change, history only grows, a pass is final |
| GoalProtocol.OnlyRemovalsRemove | powers/pkstack/src/pkstack/goal.py:471-638 | a stored goal leaves the file only by damage or a clear, an active one only by damage or a forced clear |
| GoalProtocol.GoalStays | powers/pkstack/src/pkstack/goal.py:471-638 | over any interleaving a goal is still stored later, as an evolution of itself, unless such a step came in between |
| GoalProtocol.RepairLoopEnds | powers/pkstack/src/pkstack/goal.py:556-599 | attempts left out of 20 is a measure that falls with every recorded attempt, over all resumes |
| Json.EscapedReads | powers/pkstack/src/pkstack/evidence.py:257-266 | an escaped string reads back, whatever follows its closing quote |
| Json.NamedEscapes | powers/pkstack/src/pkstack/evidence.py:257-266 | only quote, backslash and control characters are escaped, the seven with names by name |
| Evidence.RawReads | powers/pkstack/src/pkstack/evidence.py:257-266 | a canonical object reads back field by field |
| Evidence.BoundedAgain | powers/pkstack/src/pkstack/evidence.py:133-147 | a checked field is its own checked form |
| Evidence.CheckedIsSettled | powers/pkstack/src/pkstack/evidence.py:214-243 | an event the checks let through passes them again unchanged |
| Evidence.LineReads | powers/pkstack/src/pkstack/evidence.py:300-331 | a settled event's canonical line is accepted and gives that event |
| Evidence.LineSpelledOut | powers/pkstack/src/pkstack/evidence.py:257-266 | the line spelled out: keys in sorted order, each field after its own key |
| Evidence.RequestInOrder | powers/pkstack/src/pkstack/evidence.py:214-243 | a request is taken if and only if its texts are stripped non-empty, bounded and harmless, its verdict is one of three, and its artifact is well named |
| Evidence.LineIsOneLine | powers/pkstack/src/pkstack/evidence.py:257-266 | whatever its fields hold, an event takes one line |
| Evidence.LogCodecIsSound | powers/pkstack/src/pkstack/evidence.py:214-266 | so all that follows holds of this log; in particular an event made from a request holds its requirement, evidence, decision, verification, verdict and artifact, each under its own name |
| EvidenceTrail.ParseTrail | powers/pkstack/src/pkstack/evidence.py:289-331 | the parsing loop, with the previous time, computes the reading of the trail |
| EvidenceTrail.TrailInOrder | powers/pkstack/src/pkstack/evidence.py:316-328 | a trail that parses has sequences 1 to n and strictly rising times |
| EvidenceTrail.RoomExactly | powers/pkstack/src/pkstack/evidence.py:440-468 | an append that can be made has room up to 2048 events, 24 KiB for its line, newline included, and 4 MiB in all |
| EvidenceTrail.ReparseAccepts | powers/pkstack/src/pkstack/evidence.py:460-470 | the parse of the new bytes never refuses an append that is in bounds: it gives the old events and the new one |
| EvidenceTrail.Trail.Append | powers/pkstack/src/pkstack/evidence.py:428-470 | an append succeeds exactly when the request is in order and every bound has room; then old bytes are a prefix of the new and the last event has the next number, says what was asked, and is dated now if the clock has passed the one before, else a microsecond after it; otherwise nothing changes |
| EvidenceTrail.HistoryOnlyGrows | powers/pkstack/src/pkstack/evidence.py:428-470 | over any run of appends with any clock, bytes and events only grow at the end and stay in order |
| EvidenceTrail.NewEventsRecount | powers/pkstack/src/pkstack/evidence.py:428-470 | every event such a run adds says what one of its requests asked for |
| Capture.ViewAccountsForAll | powers/pkstack/src/pkstack/runner.py:1124-1130 | untruncated exactly within the limit; when cut, head, omitted bytes and tail make up the stream |
| Capture.BoundedCapture.Feed | powers/pkstack/src/pkstack/runner.py:1111-1122 | for any chunking the two ends held are those of the stream so far |
| Capture.BoundedCapture.Render | powers/pkstack/src/pkstack/runner.py:1124-1130 | what is shown is the view of the whole stream, with the exact omitted count |
| Quotes.Locate | powers/pkstack/src/pkstack/knowledge_payload.py:166-183 | a passage is found exactly when it occurs once, overlapping occurrences counted, with the lines of its first and last characters |
| Quotes.OccurrenceCuts | powers/pkstack/src/pkstack/knowledge_payload.py:166-171 | a quote occurs at i just when the text is i characters, the quote, and a rest |
| Quotes.SmallestInterval | powers/pkstack/src/pkstack/knowledge_payload.py:182-183 | a line interval holds every character of the passage exactly when it holds those two lines |
| Quotes.LineIsInRange | powers/pkstack/src/pkstack/knowledge_payload.py:182-183 | the line number is in range and names the line the character stands in, or the newline ends |
| Quotes.SupportedExactly | powers/pkstack/src/pkstack/knowledge_payload.py:152-165 | what a source must be: known under its canonical name, its quote not blank, at most 8000 characters, and found once |
| Quotes.VerifyOne | powers/pkstack/src/pkstack/knowledge_payload.py:152-188 | one source is accepted exactly when it is known under its canonical name, its quote is bounded, not blank and uniquely placed, and then gets the lines of that place |
| Quotes.VerifySources | powers/pkstack/src/pkstack/knowledge_payload.py:149-188 | the loop over the sources accepts exactly distinct sources that are each known, bounded and uniquely placed |
| Anchors.FreshSlug | powers/pkstack/src/pkstack/knowledge_links.py:86-89 | the suffix search ends for every finite set, at the first candidate that is free |
| Anchors.HeadingAnchors | powers/pkstack/src/pkstack/knowledge_links.py:72-91 | each heading adds one fresh slug: as many anchors as headings |
| Anchors.AssignedUnique | powers/pkstack/src/pkstack/knowledge_links.py:86-90 | the slugs are determined by the headings |
| Anchors.EqualHeadingsNumbered | powers/pkstack/src/pkstack/knowledge_links.py:86-89 | of equal headings the first takes the plain slug, the second "-1" after it, and so on |
| Anchors.AnchorsUnique | powers/pkstack/src/pkstack/knowledge_links.py:156-160 | so a cached answer and a recomputed one are the same |
| Anchors.AnchorCache.Lookup | powers/pkstack/src/pkstack/knowledge_links.py:156-160 | the eight-entry cache always answers with the anchors of the text asked for, and drops the least recently used entry |
| Gitignore.EnsuredHoldsAll | powers/pkstack/src/pkstack/bootstrap.py:1207-1250 | afterwards all five entries are there, the text read is still in front, and a second run has nothing to do |
| Gitignore.EnsuredAddsOnly | powers/pkstack/src/pkstack/bootstrap.py:1207-1240 | the lines added are a blank one, if there was text, and the missing entries in their order, under the header if all were missing |
| Gitignore.EntryLineExactly | powers/pkstack/src/pkstack/bootstrap.py:1243-1250 | a line is one of the five entries if and only if stripping it gives the entry |
| Gitignore.EndingIsNewline | powers/pkstack/src/pkstack/bootstrap.py:1212 | read in text mode, a carriage return is one line ending, with the newline after it if there is one |
| Gitignore.BytesKeptExactly | powers/pkstack/src/pkstack/bootstrap.py:1212 | the old bytes stay in front if and only if the file held no carriage return |
| Bootstrap.PreviewPredicts | powers/pkstack/src/pkstack/bootstrap.py:549-560 | for files that do not clash the real run does to each what the preview said |
| Bootstrap.PreviewRightExactly | powers/pkstack/src/pkstack/bootstrap.py:549-594 | the preview is right on every workspace if and only if no planned path is, or lies under, another |
| Bootstrap.ForeignFileKept | powers/pkstack/src/pkstack/bootstrap.py:1190-1199 | a file that does not match its receipt hash is never altered, whatever the plan |
| Bootstrap.OthersKept | powers/pkstack/src/pkstack/bootstrap.py:1147-1204 | nothing outside the plan is touched and no file is removed |
| Bootstrap.OwnedFileUpdated | powers/pkstack/src/pkstack/bootstrap.py:1190-1204 | a file as the receipt left it gets new content with the update flag and is left and reported pending without it, the discovery file aside |
| Bootstrap.OtherFilesJudged | powers/pkstack/src/pkstack/bootstrap.py:1176-1204 | of the other files, a missing one is created with its content, an existing seed is preserved, one already right is unchanged, and a foreign one is a conflict and left |
| Bootstrap.SecondRunRests | powers/pkstack/src/pkstack/bootstrap.py:1147-1204 | after a run without a blocker another run of the plan creates and updates nothing |
| Bootstrap.TreeStays | powers/pkstack/src/pkstack/bootstrap.py:1147-1204 | no run puts a file where a directory is, or a file under a file |
| BootstrapRun.OkExactly | powers/pkstack/src/pkstack/bootstrap.py:373-375 | the result is ok exactly when every file was good |
| BootstrapRun.ListsByVerdict | powers/pkstack/src/pkstack/bootstrap.py:549-573 | each list gains exactly the paths whose verdict belongs in it |
| BootstrapRun.ReceiptVerifies | powers/pkstack/src/pkstack/bootstrap.py:613-618 | the receipt names exactly the planned files, seeds aside, and the check before it is written cannot fail |
| BootstrapRun.Setup.ApplyFile | powers/pkstack/src/pkstack/bootstrap.py:1147-1204 | one managed file: compared, filed, and written unless dry |
| BootstrapRun.IgnoringSettles | powers/pkstack/src/pkstack/bootstrap.py:1207-1240 | once the .gitignore step has run, every entry is there and the next setup leaves the file alone |
| BootstrapRun.IgnoreCases | powers/pkstack/src/pkstack/bootstrap.py:1207-1240 | a missing file is created, a directory is a conflict, a file with all entries is left and any other updated |
| BootstrapRun.Setup.EnsureGitignore | powers/pkstack/src/pkstack/bootstrap.py:1207-1240 | the .gitignore step in either pass: conflict, unchanged, created or updated, and written unless dry |
| BootstrapRun.ClearExactly | powers/pkstack/src/pkstack/bootstrap.py:549-573 | a preview is clear if and only if every planned file and .gitignore are good and no file the old receipt names has left the plan and is still there |
| BootstrapRun.RealVerdicts | powers/pkstack/src/pkstack/bootstrap.py:567-594 | the real run of a clear preview is ok if and only if the discovery file is absent, as the receipt has it, or already holds its new text |
| BootstrapRun.ListsComeTrue | powers/pkstack/src/pkstack/bootstrap.py:549-612 | the discovery file aside, the real run of a clear preview files every path in the list the preview put it in, and in the same order |
| BootstrapRun.Setup.Run | powers/pkstack/src/pkstack/bootstrap.py:537-621 | a blocked preview or dry run writes nothing; a clear one, first installs included, comes true but for the text of the discovery file, and commits a receipt that names and matches the managed files if and only if that file may get its new text |
| BootstrapRun.SecondRunIsClear | powers/pkstack/src/pkstack/bootstrap.py:537-621 | setup run again on what any committed run left has a clear preview, whatever is discovered by then, and may commit; only the discovery file can change, and nothing does when the discovery is the same |

## Left out

- Network access, GitHub responses, tokens, thread pools and deadlines: fetched trees and blobs are inputs.
- SHA-1 and SHA-256: any function; collision-freeness is asked only of the byte strings actually hashed.
- YAML frontmatter, CommonMark, Python's regular expressions and general JSON parsing: sections are modelled by
  lines, headings by their label's slug, and the log by its canonical lines, since any other line is refused.
- File modes, fsync, symbolic links, directory creation and removal, inode checks; locks are mutual exclusion.
- UTF-8 decoding: texts are taken decoded and measured by their encoded size.
- `\d` and `int()` on digits outside ASCII, and case folding outside ASCII.
- Headings.Listed: the readers of sections are given trimmed text, as their callers give it, so some text follows
  every heading.
- HunkHeader.HeaderRoundTrip: does not model digits outside ASCII nor `int()`'s digit limit.
- UnifiedPatch.ParseUnifiedPatch: the byte limits on patches, and everything about comparison documents around
  them, are not modelled.
- UpstreamDocs.LoadReviewLedger: the formats of repository, path, ref, provenance and parity fields, schema
  versions and exact key sets are carried as one opaque value per entry.
- AcceptFiles.AcceptFiles.Accept: all that is asked of the network, with the checks of the proposal against it and the byte
  limits, is a yes or no that comes in.
- AcceptProtocol.CrashSafety: nobody edits manifest or ledger by hand while a transaction is open; the network
  proof before an accept is a precondition of beginning, and the final reproof is a yes or no.
- AcceptFiles.AcceptFiles.CleanupInputs: removing the empty directory afterwards.
- GitTree.BuildNodes: the nested dictionaries are values here, rebuilt along the path, not mutated in place;
  the table of sub-directory ids is not returned.
- TreeDelta.SortOperations: `list.sort` is an insertion sort; the fields of an operation's review record are
  not modelled.
- FeatureBatch.FeatureDirectory.WriteMap: other programs may create files at free names but do not change or
  remove existing ones while the lock is held; an OSError leaves things as they were; the parse of each prepared
  text before the write is not repeated.
- FeatureBatch: `write_prepared_feature_if_unchanged`, the same compare-and-install for one file.
- FeatureRoundTrip.RoundTripExactly: frontmatter fields; the title and the command are compared there.
- Goal.GoalStore.StartGoal: the objective is taken as already stripped; contract resolution, command policy,
  clocks and ids are inputs or environment functions; the check that spec files are unchanged is a yes or no.
- GoalProtocol.EveryAttemptIsARun: goal ids are fresh; a damaged state file is unreadable or of an old schema,
  not a forged valid one.
- Evidence.LogCodecIsSound: calendar arithmetic; the timestamp text is a function that reads back, up to the
  last moment a date can name.
- EvidenceTrail.Trail.Append: the artifact's existence and hash are one yes or no per append.
- Anchors.HeadingAnchors: the slug of a label (lower case, punctuation removed) is taken as given.
- BootstrapRun.Setup.Run: the order of the stale list, executable bits, the list of assets and the checks on them;
  .gitignore is kept apart as decoded text, so a plan that names it is not modelled.
- `_uv_run_target` and the command policy, the denylist screens, doctor, CLI, discovery, branding, templates and
  the skill registry: case lists with easy claims.
