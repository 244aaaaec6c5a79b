# The text engine, modelled and proved

This project models the content-addressed text engine of `textdb-core`: a content-defined chunker, a
prolly tree over chunk hashes, localised edits, tree diff, Myers line diff, diff3, and optimistic
commit with automatic rebase, together with the share namespace that maps an account's paths to the
store's. Nearly every function there is a fast form of something trivial; the proofs say that it
agrees with the trivial form on every input, and what the pieces come to when they run together. Above
the engine it models the plan by which a directory is synced with the store.

How the files follow the code:

- `Text`, `Lines`, `Splice`: flat texts, lines, edit sets and what splicing means. These are the
  reference meanings everything else is compared with.
- `Chunker`, `ChunkRule`, `Nodes`, `NodeCodec`, `Digests`, `Storage`, `Grouping`, `GroupingRule`, `Tree`:
  `chunker.rs`, `node.rs`, `storage.rs` and the building half of `tree.rs`.
- `Cursor`, `AtByte`, `Replace`, `Navigation`, `LineNavigation`: the reading and rebuilding half of
  `tree.rs`.
- `EditLocality`, `EditTree`, `ApplyEdits`: `edit.rs`. The main theorem is the contract of
  `ApplyEdits.ApplyEditSet`: an edited root is bit-identical to one built from scratch.
- `EditDistance`, `Scripts`, `Myers`, `SequenceDiff`, `ByteEdits`, `Merge`, `Diff3`, `MergeRules`,
  `Budgets`: `myers.rs`.
- `SharedEnds`, `TreeDiff`, `Reports`, `LineRegions`, `LineHunks`, `Words`: `diff.rs` and `words.rs`. One
  predicate, `Scripts.Script`, says what a diff is, for elements, bytes, leaves and lines alike.
- `Shift`, `Region`, `Rebase`, `RebaseLaws`, `MergeLaws`, `Collisions`, `RebaseCases`, `Landing`, `Rivals`,
  `Commit`, `CommitCases`, `Protocol`, `Committers`: `commit.rs`. `Protocol` is the state machine of many
  committers; `Commit` is the loop of one of them, with the swaps others make around its reads and swaps
  given as a parameter (`Rivals`); `Committers` shows that what a committer's methods do to a store are
  steps of the machine.
- `Access`, `AccessRules`: `access.rs`.
- `Markers`, `Reconcile`, `Sync`, `Outcomes`, `History`: the plan of `sync.rs` and how it is carried out.
  `Reconcile` is one path, `Sync` a whole directory, `Outcomes` what they leave, `History` what happens to
  them over time: when no document that a sync has not read is lost. Two syncs leave nothing to do.

Each rule that the code follows step by step is also said once without its steps, and shown to be the same:
`ChunkRule`, `GroupingRule`, `MergeRules`, `Budgets`, `Collisions`, `AccessRules` and `Outcomes`.

Assumptions:

- Hashes do not collide. A hash is modelled as the content it names (`Nodes.Hash`), and line diffs
  compare lines where the original compares 64-bit hashes of them (`myers.rs:22-26`).
- The gear table and the two hit masks are parameters of the chunker, and the node boundary test is a
  parameter of the tree: nothing proved depends on their values. Chunk sizes satisfy
  `0 < snap <= min < max`, as the defaults do.
- Building the levels over a document's leaves ends (`Tree.Config.Valid`). With a boundary test that
  holds of every entry it does not, in the model as in the original. `Tree.SettlesIff` says exactly when
  it does, and `Tree.SomeConfigIsValid` that such tests exist.

Where the code falls short of what its documentation says, the model follows the code:

- Shifting counts a pure insertion at the exclusive end of an edit as lying before that end
  (`commit.rs:140`), so deleting a line also deletes a line inserted behind it concurrently.
  `Shifting.HoppingIsTogether` gives the exact condition and `Shifting.InsertionSwallowed` an input.
- A rebase shifts over the runs of a diff, not over the edits that landed, and the two can lie in
  different places; then the order in which two change sets land makes a difference although nothing
  collides. `Landing.LandsRightIff` says exactly when an edit set lands right, `CommitCases.OrderDecides`
  is an input where it does not.
- A rebase that merges can refuse a valid edit set as invalid: when an edit reaches into the widened
  region without colliding, and when one changes the text right behind a region that the other side
  deleted. `MergeLaws.RefusedIff` is exact; `CommitCases` has an input for each.
- Behind a region that the other side deleted, our insertion comes out in front of the merged text
  (`CommitCases.InsertionsSwap`). `MergeLaws.MergedTogether` says exactly when a merge is both change
  sets together.
- The version a commit returns is behind the one it installed when the document went away from the root
  it read and came back before the swap (`commit.rs:99-102`): by two swaps or more, never by one
  (`Protocol.ReturnedVersion`, `Protocol.VersionFallsBehind`).
- Reviving a denied grant skips the remaining overlap checks (`access.rs:289-293`);
  `Access.RunKeepsIff` gives the exact condition over any series of changes, and `Access.RevivedInside`
  an input.
- A sync that holds an unresolved conflict forgets that the document was deleted since the last one
  (`sync.rs:1567-1590`, `1826`), and versions start over: whenever a document there comes to have the
  recorded version, the file, once resolved, replaces it unread. `Histories.LosslessIff` and
  `Histories.ForgottenIff` are exact; `Histories.HeldForgets`, `DeletedForgets` and `EditedForgets` are
  inputs.
- A file that no sync has seen and an empty document are called a conflict, but the merge is the file
  without markers, so the next sync writes it to the store (`Reconciling.EmptyMeetsFile`);
  `Syncing.OneSyncQuietIff` says that this is the only case in which one sync is not enough.

## Model

| member | source | states |
|---|---|---|
| `Chunker.Cut` | crates/textdb-core/src/chunker.rs:88-124 | a decision is refused exactly when the look-ahead is too short, and otherwise is the length the boundary rules give, over all buffers |
| `ChunkRule.CutIff` | crates/textdb-core/src/chunker.rs:88-143 | a document is cut exactly where the rule says, over all documents: at the first boundary behind `min` bytes, or at `max`, or at the end; a boundary being where the 64-bit sum of gear values, each weighing twice the next, passes the test for its place; and from there, unless a line ends, at the next line end within `snap` bytes |
| `ChunkRule.WaitsIff` | crates/textdb-core/src/chunker.rs:91-99 | a decision is refused exactly when there are fewer than `max + snap` bytes and more to come |
| `ChunkRule.Last64` | crates/textdb-core/src/chunker.rs:104-129 | the sum at a place is that of the last 64 bytes |
| `Chunker.LookaheadIsFinal` | crates/textdb-core/src/chunker.rs:25-29 | a decision made with `max + snap` bytes in hand is the one the whole document leads to, whatever follows |
| `Chunker.NewlineCutIsSelfContained` | crates/textdb-core/src/chunker.rs:126-143 | a non-final chunk ending in a newline is cut the same way in front of any other text |
| `Chunker.CutStable` | crates/textdb-core/src/chunker.rs:126-143 | a non-final cut depends only on its bytes and, when it does not end a line, on the next `snap` bytes |
| `Chunker.ChunkAll` | crates/textdb-core/src/chunker.rs:145-156 | the spans are those of the chunk sequence, one after another |
| `Chunker.ChunksTile` | crates/textdb-core/src/chunker.rs:145-156 | chunks concatenate to the document; each is at most `max + snap` long and each but the last longer than `min` |
| `Nodes.SumsAreTotals` | crates/textdb-core/src/node.rs:27-33 | the totals kept in entries are the byte length and newline count of the text below them, at every level |
| `Storage.MemStorage.PutChunk` | crates/textdb-core/src/storage.rs:66-72 | idempotent, append-only, and counted once |
| `Storage.MemStorage.PutNode` | crates/textdb-core/src/storage.rs:76-82 | idempotent, append-only, and counted once |
| `Storage.MemStorage.CasRoot` | crates/textdb-core/src/storage.rs:86-95 | the root changes, with its version one higher, exactly when it is the expected one |
| `NodeCodec.Encode` | crates/textdb-core/src/node.rs:35-45 | writes the entries one after another, 49 bytes each |
| `NodeCodec.EntryLayout` | crates/textdb-core/src/node.rs:35-45 | an entry is 49 bytes: 32 of hash, the byte total and the line total as little-endian words at 32 and 40, and the flag at 48 |
| `NodeCodec.DecodeNode` | crates/textdb-core/src/node.rs:47-70 | reads them back, with the two refusals |
| `NodeCodec.RoundTrip` | crates/textdb-core/src/node.rs:35-70 | decoding undoes encoding |
| `NodeCodec.DecodedRoundTrip` | crates/textdb-core/src/node.rs:35-70 | whatever decodes is the encoding of what it decodes to |
| `NodeCodec.EncodingInjective` | crates/textdb-core/src/node.rs:35-45 | different nodes have different encodings |
| `Digests.DigestsNameDocuments` | crates/textdb-core/src/node.rs:72-74 | two documents have one root digest exactly when they are equal, if no two of the chunks and encoded nodes of their trees collide: the encoding carries the identity of a tree through to its root |
| `NodeCodec.DecodableIff` | crates/textdb-core/src/node.rs:47-70 | bytes decode exactly when they are whole entries with flags 0 or 1 |
| `Grouping.SplitLevel` | crates/textdb-core/src/tree.rs:29-42 | groups a level as the boundary rule says: a group ends at a boundary entry or at 512 entries |
| `GroupingRule.SplitIff` | crates/textdb-core/src/tree.rs:28-42 | a level is split into some nodes exactly when these hold its entries in order, each node has 1 to 512 entries of which none but the last is a boundary, and every node but the last ends in a boundary or has 512; so there is one such grouping |
| `Grouping.FlattenUp` | crates/textdb-core/src/tree.rs:27-42 | grouping loses and reorders nothing: the groups flatten to the level |
| `Grouping.GroupedSuffix` | crates/textdb-core/src/tree.rs:27-42 | grouping from any group boundary on gives the same groups |
| `Grouping.GroupedPrefix` | crates/textdb-core/src/tree.rs:27-42 | groups that end at a boundary do not depend on what follows |
| `Tree.BuildUpInto` | crates/textdb-core/src/tree.rs:44-70 | stores every level and returns the one root that grouping comes to |
| `Tree.SettlesIff` | crates/textdb-core/src/tree.rs:44-70 | building over a level ends exactly when, for every level of two entries or more, that one or one above it has an entry, not the last, that is no boundary; otherwise the loop of the original would not end |
| `Tree.ValidWhenNoNodeEndsOne` | crates/textdb-core/src/tree.rs:15-42 | building ends over every document when no node is a boundary, whatever the test says of chunks |
| `Tree.Build` | crates/textdb-core/src/tree.rs:72-110 | the root of a document, with its chunk hashes in order, stored to the leaves |
| `Tree.NormalizeRoot` | crates/textdb-core/src/tree.rs:112-123 | goes down from a root while its only entry is a node |
| `Tree.NormalizedUp` | crates/textdb-core/src/tree.rs:112-123 | building one level higher and collapsing gives the same root |
| `Tree.BuiltRoot` | crates/textdb-core/src/tree.rs:72-110 | a built tree is grouped at every level and spells its document |
| `Tree.RootsNameDocuments` | crates/textdb-core/src/tree.rs:3-20 | two built roots are equal exactly when the documents are |
| `Tree.Materialize` | crates/textdb-core/src/tree.rs:131-150 | reading a tree gives its text |
| `Navigation.MaterializeRange` | crates/textdb-core/src/tree.rs:152-192 | the slice of the flat text, for any bounds |
| `LineNavigation.LocateLine` | crates/textdb-core/src/tree.rs:299-332 | the offset just past the n-th newline, or nothing when there are fewer |
| `LineNavigation.LineOfByte` | crates/textdb-core/src/tree.rs:349-372 | the number of newlines before the offset, at leaf ends and at and past the end too |
| `LineNavigation.LocatingUndone` | crates/textdb-core/src/tree.rs:299-372 | the line found at a line start is that line, and a byte's line starts before it with no newline between |
| `LineNavigation.LineStartsAtLine` | crates/textdb-core/src/tree.rs:299-332 | line n starts where the first n lines of the split text end, and exists exactly when so many lines are complete |
| `LineNavigation.LinesBetween` | crates/textdb-core/src/tree.rs:335-347 | exactly the requested lines of the split text, lines past the end ignored |
| `Cursors.Cursor.Advance` | crates/textdb-core/src/tree.rs:460-480 | moves to the next position of the level, or reports its end |
| `Cursors.NextMoves` | crates/textdb-core/src/tree.rs:460-480 | the next position drops exactly the current entry, across node ends at every depth |
| `Seeking.AtByte` | crates/textdb-core/src/tree.rs:392-421 | the position of the leaf that holds the offset, with the leaf's start; nothing for an empty document |
| `Replacing.RebuildLevel` | crates/textdb-core/src/tree.rs:525-582 | the nodes of the new level and the shared ones behind it are the grouping of the whole new level |
| `Replacing.ReplaceEntries` | crates/textdb-core/src/tree.rs:487-523 | the root is the one that grouping the whole new leaf sequence from nothing gives, whatever levels appear or vanish |
| `Splicing.ValidateEdits` | crates/textdb-core/src/edit.rs:45-63 | accepts exactly the ascending, non-overlapping sets within the text |
| `Splicing.SpliceFirstLast` | crates/textdb-core/src/edit.rs:65-103 | applying the last edits first and the first one last is applying them all |
| `Splicing.SpliceTail` | crates/textdb-core/src/edit.rs:85-103 | the text grows by the sum of the deltas, and behind the last edit it is what it was |
| `EditLocality.StablePrefix` | crates/textdb-core/src/edit.rs:118-146 | leaves before a window that ends a line, or lies `snap` bytes before the first change, are leaves of the new text |
| `EditLocality.LeavesAfter` | crates/textdb-core/src/edit.rs:146-211 | the leaves behind a shared boundary are those of the text behind it |
| `ApplyEdits.WindowStart` | crates/textdb-core/src/edit.rs:112-132 | one leaf of look-back is enough: no earlier chunk can have seen the edited bytes |
| `EditTree.Rechunk` | crates/textdb-core/src/edit.rs:146-207 | the new chunks and the old leaves from the meeting point on are the chunks of the whole window text |
| `ApplyEdits.EditedLevel` | crates/textdb-core/src/edit.rs:105-211 | the leaf sequence after the edit is that of the spliced text |
| `ApplyEdits.ApplyOne` | crates/textdb-core/src/edit.rs:105-211 | one edit gives the root of the spliced text |
| `ApplyEdits.ApplyEditSet` | crates/textdb-core/src/edit.rs:65-103 | an edit set is refused exactly when it is not ascending within the text; otherwise the root is the one that building the spliced text from nothing gives, and the range reported goes from the start of the first edit to the end of the last in the new text, outside of which the text is unchanged |
| `Lines.SplitIntoLines` | crates/textdb-core/src/myers.rs:6-20 | cuts a text into its lines |
| `Lines.SplitJoins` | crates/textdb-core/src/myers.rs:6-20 | the lines concatenate to the text, all ended by their only newline but perhaps the last |
| `Lines.JoinSplits` | crates/textdb-core/src/myers.rs:6-20 | splitting undoes joining |
| `EditDistance.ReachIsFurthest` | crates/textdb-core/src/myers.rs:106-155 | the search array holds, on every diagonal, the last point within the distance |
| `EditDistance.StopsAtCorner` | crates/textdb-core/src/myers.rs:124-151 | though x and y may run past the ends, the first point past both is the corner itself |
| `EditDistance.FindsCorner` | crates/textdb-core/src/myers.rs:124-151 | at the distance of the sequences the corner is reached |
| `Myers.Search` | crates/textdb-core/src/myers.rs:106-155 | gives up exactly when the distance exceeds the budget; otherwise ends at the distance with a full trace |
| `Myers.WalkBack` | crates/textdb-core/src/myers.rs:156-183 | every read stays in its own row of the flat trace, and the steps found are those of a furthest path |
| `Myers.ShortestDiff` | crates/textdb-core/src/myers.rs:89-197 | the whole search: no result exactly when the distance exceeds the budget |
| `Myers.ShortestIsShortest` | crates/textdb-core/src/myers.rs:89-197 | the hunks are a diff of the two sequences and cost exactly the distance |
| `Scripts.NoneCheaper` | crates/textdb-core/src/myers.rs:89-197 | no diff costs less than the distance |
| `Scripts.DistanceIsLcs` | crates/textdb-core/src/myers.rs:89-197 | the distance is both lengths less twice the longest common subsequence |
| `Scripts.ScriptReplays` | crates/textdb-core/src/myers.rs:29-36 | replacing each hunk of `a` by its elements of `b` gives `b` |
| `SequenceDiff.DiffSeq` | crates/textdb-core/src/myers.rs:38-81 | trimmed ends, the search, and the single-hunk fallback |
| `SequenceDiff.DiffIsScript` | crates/textdb-core/src/myers.rs:38-81 | the result is a diff, whatever was trimmed and whether or not the search gave up, and within the budget it costs the distance |
| `SequenceDiff.DiffIsShortest` | crates/textdb-core/src/myers.rs:38-81 | within the budget no diff of the whole sequences is shorter |
| `Budgets.LineBudget` | crates/textdb-core/src/myers.rs:199-204 | a line diff is shortest up to 4096 differences, and beyond is one hunk between the ends both texts share, which are as long as they can be |
| `Budgets.LeafBudget` | crates/textdb-core/src/diff.rs:47-51 | so is a leaf diff, up to 2048 |
| `Budgets.Swapped` | crates/textdb-core/src/myers.rs:117-186 | of the shortest diffs of two swapped elements, the one that takes the first away and puts it in behind |
| `ByteEdits.ByteDiff` | crates/textdb-core/src/myers.rs:206-246 | an ascending edit set that splices `a` into `b`, each edit a change and no two adjacent |
| `Budgets.TwoEdits` | crates/textdb-core/src/myers.rs:206-246 | two changed lines around one that stays are two edits, each of the byte that differs |
| `Merging.AbsorbLoop` | crates/textdb-core/src/myers.rs:398-416 | the loop draws in what the recursive rule draws in, whatever order the two sides take |
| `Merging.AbsorbIsLeast` | crates/textdb-core/src/myers.rs:398-416 | the end it comes to is the least from which every hunk of either side that touches the region lies within it |
| `Merging.AbsorbSwap` | crates/textdb-core/src/myers.rs:398-416 | the region does not depend on which side is absorbed first |
| `Merging.PiecesAlign` | crates/textdb-core/src/myers.rs:360-465 | the pieces cut base, ours and theirs into the same stretches, nothing lost, added or reordered |
| `ThreeWay.Merge3` | crates/textdb-core/src/myers.rs:340-465 | the loop resolves each aligned piece by who changed it, ends on a conflict without labels, marks and counts it with labels |
| `MergeRules.ConflictIff` | crates/textdb-core/src/myers.rs:433-446 | a merge conflicts exactly when some aligned piece has three different texts, and otherwise is, piece by piece, the text of the side that changed it |
| `MergeRules.ApartMerges` | crates/textdb-core/src/myers.rs:360-397 | for any three texts whose two line diffs lie apart, the merge is clean, and is the base with both sides' changes made in it |
| `MergeRules.OverlapIsLeast` | crates/textdb-core/src/myers.rs:374-416 | changes that do not lie apart are merged over the least range of base lines that cuts no hunk of either side |
| `MergeRules.DeletedAndChanged` | crates/textdb-core/src/myers.rs:433-446 | a line that one side deletes and the other changes is a conflict, whatever the lines |
| `MergeRules.OneLineConflicts` | crates/textdb-core/src/myers.rs:433-446 | so is one that both change or delete, not both alike |
| `Budgets.MiddleMerges` | crates/textdb-core/src/myers.rs:352-397 | changes of two lines by one side and of the line between them by the other merge |
| `MergeRules.MarkedIs` | crates/textdb-core/src/myers.rs:447-459 | a conflict is written as our sign and label, our text, the middle sign, their text, their sign and label, each on lines of its own |
| `MergeRules.EolIs` | crates/textdb-core/src/myers.rs:342-344 | with CRLF exactly when one of the sides has it |
| `ThreeWay.MergeIsAligned` | crates/textdb-core/src/myers.rs:323-330 | the pieces concatenate to the three texts |
| `ThreeWay.UnchangedOursGivesTheirs` | crates/textdb-core/src/myers.rs:323-330 | ours equal to the base: the merge is theirs |
| `ThreeWay.UnchangedTheirsGivesOurs` | crates/textdb-core/src/myers.rs:323-330 | theirs equal to the base: the merge is ours |
| `ThreeWay.EqualSidesGiveThatSide` | crates/textdb-core/src/myers.rs:323-330 | equal sides: the merge is that side |
| `ThreeWay.MergeIsSymmetric` | crates/textdb-core/src/myers.rs:323-330 | swapping the sides changes neither the outcome nor the number of conflicts |
| `ThreeWay.CleanIffNothingMarked` | crates/textdb-core/src/myers.rs:323-338 | clean exactly when the marked form counts no conflict, with the same bytes |
| `ThreeWay.DeletedAndFollowed` | crates/textdb-core/src/myers.rs:398-465 | a line put in right behind one that the other side deletes does not conflict with that |
| `SharedEnds.CommonPrefix` | crates/textdb-core/src/diff.rs:128-163 | the leaves skipped are a shared prefix of both leaf sequences, whatever the two depths, and hold at least those of every entry both roots start with |
| `SharedEnds.CommonSuffix` | crates/textdb-core/src/diff.rs:165-197 | the leaves skipped are a shared suffix of both, within the budgets, and hold at least those of every entry both roots end with that the budgets allow |
| `SharedEnds.CollectLeaves` | crates/textdb-core/src/diff.rs:94-126 | the leaves that overlap the range, with their offsets |
| `TreeDiff.RefineRun` | crates/textdb-core/src/diff.rs:61-84 | the differences inside a leaf run are a diff of its two texts, placed where they lie |
| `TreeDiff.ChangedRuns` | crates/textdb-core/src/diff.rs:25-59 | the runs are ascending and apart on both sides, with equal bytes everywhere between: a diff of the two documents |
| `Reports.RunsAreEdits` | crates/textdb-core/src/diff.rs:67-83 | of edits as runs, there is one for each edit, over what it replaces, and it holds what that puts in |
| `Reports.OneLeafReport` | crates/textdb-core/src/diff.rs:25-84 | between two different documents of one chunk, the runs reported are the edits of their line diff, trimmed to the bytes that differ |
| `LineRegions.ChangedLineRegions` | crates/textdb-core/src/diff.rs:258-292 | each region is a maximal series of runs that touch once widened to whole lines, from the line start of the first to the line end of the last, on both sides; the regions lie apart and are a diff of the two documents |
| `LineRegions.GapShared` | crates/textdb-core/src/diff.rs:266-290 | two widened runs that do not meet on one side have the same bytes between them on both |
| `LineHunks.LineHunksBetween` | crates/textdb-core/src/diff.rs:216-242 | the hunks are a diff of the two line sequences, each carrying exactly its old and new text |
| `LineHunks.PatchGivesNew` | crates/textdb-core/src/diff.rs:199-216 | patching the old lines with the hunks' new texts gives the new document |
| `Words.WordsAt` | crates/textdb-core/src/words.rs:47-54 | the word count of a stored document, words split across chunks counted once |
| `Words.WordsAreStarts` | crates/textdb-core/src/words.rs:24-35 | the words of a text are the places where a byte that is no white space follows one that is, or nothing |
| `Words.WordCounter.Feed` | crates/textdb-core/src/words.rs:24-35 | the running count is the count of everything fed so far |
| `Words.WordDelta` | crates/textdb-core/src/words.rs:56-64 | the full count of the one document less that of the other |
| `Regions.ShiftOffset` | crates/textdb-core/src/commit.rs:136-147 | carries an offset over the runs that end at it or before it |
| `Regions.RunsSplice` | crates/textdb-core/src/commit.rs:136-147 | the runs, as edits, make the current text of the base |
| `Regions.ClearIsSeparate` | crates/textdb-core/src/commit.rs:149-172 | an edit and a run that do not collide lie wholly on one side of each other |
| `Collisions.CollidesIff` | crates/textdb-core/src/commit.rs:149-212 | an edit and a run collide exactly when they have places on one line |
| `Collisions.LeastAroundIff` | crates/textdb-core/src/commit.rs:219-240 | the region of a merge is the least range of whole lines that cuts no run and holds every edit that is on a line with one |
| `Regions.RegionAround` | crates/textdb-core/src/commit.rs:219-240 | the region loop ends, on the least range of whole lines around the collisions that cuts no run |
| `Shifting.HoppingIsTogether` | crates/textdb-core/src/commit.rs:136-147 | carried over separate changes, edits make the text both sets make of the base exactly when no change is a pure insertion at the exclusive end of a non-empty edit |
| `Shifting.InsertionSwallowed` | crates/textdb-core/src/commit.rs:136-147 | the input on which hopping deletes a concurrently inserted line |
| `Rebasing.Rebase` | crates/textdb-core/src/commit.rs:174-284 | for any edit set: with no collision the edits are carried over the runs and applied; otherwise the least region is merged by diff3, and the conflict carries its three texts and the version read |
| `Collisions.HopsIff` | crates/textdb-core/src/commit.rs:200-217 | a valid edit set is hopped over the runs exactly when no edit and no run have places on one line |
| `Collisions.PickedIff` | crates/textdb-core/src/commit.rs:240-261 | the merge takes the edits that are on a line with a run, and those in the region that are no insertion at one of its ends |
| `Collisions.ConflictTells` | crates/textdb-core/src/commit.rs:241-284 | a merge conflicts exactly when diff3 does, over the region, the region with our edits, and what it is now; the conflict carries these three, the version read, and the lines the region is on now |
| `Collisions.RefusalIff` | crates/textdb-core/src/commit.rs:240-269 | a valid edit set whose merge is clean is refused as invalid exactly when an edit spans an end of the region, or changes what comes right behind a region the other side left nothing of |
| `CommitCases.ClashRefuses` | crates/textdb-core/src/commit.rs:200-284 | an input that conflicts: each side changes one byte of the same line |
| `CommitCases.UnmovedIsDirect` | crates/textdb-core/src/commit.rs:79-90 | on the document they were made against, edits go in as they are or are refused |
| `MergeLaws.RefusedIff` | crates/textdb-core/src/commit.rs:240-269 | a valid edit set whose merge is clean is refused as invalid exactly when an edit that is not part of the merge reaches into the region, or changes what comes right behind a region the other side left nothing of |
| `CommitCases.StraddlerRefuses` | crates/textdb-core/src/commit.rs:240-269 | an input that is refused for the first reason, from the two documents on: their diff, the rebase and the answer |
| `CommitCases.NeighbourRefuses` | crates/textdb-core/src/commit.rs:240-269 | an input that is refused for the second: both sides delete a line, and one also changes the next |
| `RebaseLaws.RebasedTogether` | crates/textdb-core/src/commit.rs:186-217 | with nothing colliding, rebasing succeeds, and gives both change sets together exactly when no run is a pure insertion at the exclusive end of a non-empty edit |
| `Landing.LandsRightIff` | crates/textdb-core/src/commit.rs:136-217 | rebased over the reported runs, an edit set lands where it and the changes that really landed belong together, whatever it puts in, exactly when the runs carry its offsets as far as those changes do |
| `Landing.LandingOrder` | crates/textdb-core/src/commit.rs:136-217 | two separate change sets, each carried over the runs of the other as over its edits, come to the same root in either order |
| `CommitCases.OrderDecides` | crates/textdb-core/src/commit.rs:136-217 | an input on which they do not: the diff reports the change that landed in another place, nothing collides, and the two orders give different documents |
| `RebaseLaws.RegionTextsAre` | crates/textdb-core/src/commit.rs:241-262 | the three region texts are the base range, the range with our edits and the range with their runs |
| `RebaseLaws.MergedShape` | crates/textdb-core/src/commit.rs:262-269 | a merge is the current text with the diff3 of the three region texts in the region's place and our other edits, carried over, around it |
| `MergeLaws.MergedTogether` | crates/textdb-core/src/commit.rs:219-269 | an applied merge is both change sets together on the two sides of the region with the diff3 between them, exactly when no run is a pure insertion at the exclusive end of an edit outside, and something is left of the region or our insertions right behind it commute with the merged text |
| `CommitCases.InsertionsSwap` | crates/textdb-core/src/commit.rs:240-269 | an input on which they do not: of two lines put in behind a deleted one, the second comes out first |
| `Committing.Commit` | crates/textdb-core/src/commit.rs:61-134 | whatever others swap in before each read and before each swap: an attempt is decided on the root and version it read and swapped only onto that root, the version returned is one above the version read, and contention means that all `retries + 1` attempts were beaten |
| `Committing.CommitAppend` | crates/textdb-core/src/commit.rs:286-327 | whatever others swap in: the tail lands behind the document as it then is, never in a conflict |
| `Protocol.EveryRun` | crates/textdb-core/src/commit.rs:61-134 | over every interleaving of read, compute and swap steps, every installed root is a stored document and replaced exactly the root its edits were applied or rebased onto |
| `Protocol.ReturnedVersion` | crates/textdb-core/src/commit.rs:85-128 | a commit returns a version that is behind the one it installed by the number of swaps made since its read: the one installed exactly when there were none, and never one less |
| `Protocol.VersionFallsBehind` | crates/textdb-core/src/commit.rs:85-128 | a run of three swaps after which it is two behind |
| `Protocol.InstalledForEver` | crates/textdb-core/src/storage.rs:62-95 | every root ever installed stays stored, with all it leads to, in all later states |
| `Committers.ReadInstalled` | crates/textdb-core/src/storage.rs:62-95 | read from a store in any later state, it gives the same bytes |
| `Committers.Read` | crates/textdb-core/src/commit.rs:79-85 | reading the root of a store is the read step: what is held is the root and version there |
| `Committers.Compute` | crates/textdb-core/src/commit.rs:79-110 | computing a proposal on a store is the compute step: content is added, none dropped, and no root moves |
| `Committers.TrySwap` | crates/textdb-core/src/storage.rs:86-95 | the compare-and-swap on a store is the swap step, won or lost |
| `Protocol.LandedOnce` | crates/textdb-core/src/commit.rs:61-134 | the swaps made are those of the calls that returned a new version, each once and with the root it returned |
| `Protocol.RetriesAreLost` | crates/textdb-core/src/commit.rs:61-134 | a call reports as retries the number of swaps it lost, over every interleaving |
| `Protocol.AppendsOnly` | crates/textdb-core/src/commit.rs:286-327 | when all requests are appends, the text is the initial text and the tails of the calls that landed, in swap order, and none is refused |
| `Protocol.BoundedAttempts` | crates/textdb-core/src/commit.rs:289-327 | a call tries at most `retries + 1` swaps, and gives up only after as many, all made by others |
| `Access.Grants.FromRows` | crates/textdb-core/src/access.rs:206-214 | any list of recorded grants is taken: of those under one alias, the last |
| `Access.Grants.Add` | crates/textdb-core/src/access.rs:243-305 | over any table, answers as the rules of a grant say; a folder the account has comes back under the alias it had; a well-kept namespace stays so exactly when what is given overlaps no other share |
| `Access.GrantedIff` | crates/textdb-core/src/access.rs:247-305 | when a share is given: the path is a store path below the root, the alias is free or this folder's own revoked one, and the folder is new and overlaps nothing, or comes back before anything it overlaps |
| `Access.RunKeepsIff` | crates/textdb-core/src/access.rs:247-326 | over any series of additions, renames, revocations and marks, shares stay apart under their own aliases exactly when every folder that came back did so clear of the others |
| `Access.Grants.Rename` | crates/textdb-core/src/access.rs:307-322 | over any table, the grant moves to the new alias and nothing else changes; a well-kept namespace stays so |
| `Access.Grants.Revoke` | crates/textdb-core/src/access.rs:324-326 | over any table, exactly that grant goes; a well-kept namespace stays so |
| `Access.RevivedKeepsIff` | crates/textdb-core/src/access.rs:284-293 | a revived grant keeps shares apart exactly when its path overlaps none of the others |
| `Access.RevivedInside` | crates/textdb-core/src/access.rs:284-293 | an input on which one comes back inside another share |
| `Access.SharedMeansOverlap` | crates/textdb-core/src/access.rs:343-346 | two folders that hold the same path hold one another |
| `AccessRules.ContainsIff` | crates/textdb-core/src/access.rs:343-346 | one path holds another exactly when its segments are the first of the other's |
| `AccessRules.PathIff` | crates/textdb-core/src/access.rs:248-257 | what may be shared is one or more segments, each behind a slash |
| `AccessRules.NameIsLast` | crates/textdb-core/src/access.rs:265-268 | a share is called after the last segment of its path |
| `AccessRules.TrimIs` | crates/textdb-core/src/access.rs:248 | what is trimmed from the end of a path is its slashes, all of them |
| `AccessRules.AliasIff` | crates/textdb-core/src/access.rs:331-341 | an alias is a segment other than the relative ones, without NUL, and with no white space at its ends |
| `AccessRules.AddIs` | crates/textdb-core/src/access.rs:247-305 | every answer to a request, with its reason, and exactly when it is given, over any table |
| `AccessRules.PutInOrder` | crates/textdb-core/src/access.rs:186-196 | the table stays in the order of its keys |
| `Access.StoreViewStore` | crates/textdb-core/src/access.rs:386-461 | a store path the account sees is what its view path names |
| `Access.ViewStoreView` | crates/textdb-core/src/access.rs:386-461 | a view path that names something visible is the path it is seen as |
| `Access.OneViewPath` | crates/textdb-core/src/access.rs:463-467 | no store path has two view paths |
| `Markers.FindMarkers` | crates/textdb-cli/src/sync.rs:187-190 | both conflict signs are found exactly when each begins some line |
| `Markers.ConflictsAreMarked` | crates/textdb-core/src/myers.rs:332-465 | whatever the three texts, a merge that counts a conflict writes both signs where lines begin, so that it is found again |
| `Reconciling.DecidePath` | crates/textdb-cli/src/sync.rs:1747-1914 | the outcome for a path, from the document, the file and the record of the last sync |
| `Outcomes.DocReachesFile` | crates/textdb-cli/src/sync.rs:1839-1903 | over every state of a path: where the file is as the last sync left it and the document changed or went, the file is then as the document is, or gone, and the document is as it was |
| `Outcomes.FileReachesDoc` | crates/textdb-cli/src/sync.rs:1848-1904 | where the document is and the file changed or went, the document is then as the file is, at the next version, or gone |
| `Outcomes.NeitherChanged` | crates/textdb-cli/src/sync.rs:1822-1839 | where both are, nothing changes but the version on record |
| `Outcomes.ChangedAndGone` | crates/textdb-cli/src/sync.rs:1905-1912 | what changed on one side and went on the other is kept on both |
| `Outcomes.BothChanged` | crates/textdb-cli/src/sync.rs:1865-1893 | what changed on both is merged into both, or, where that conflicts, marked in the file, the document staying |
| `Outcomes.ConflictStays` | crates/textdb-cli/src/sync.rs:1807-1812 | nothing is done about a file that has conflict signs in it |
| `Outcomes.ConflictDeleted` | crates/textdb-cli/src/sync.rs:1813-1817 | one that was deleted is written back as the document |
| `Outcomes.NewOnOneSide` | crates/textdb-cli/src/sync.rs:1772-1787 | what no sync has seen, on one side, comes to the other, if a file may be taken in |
| `Outcomes.NewOnBoth` | crates/textdb-cli/src/sync.rs:1788-1803 | on both, it is taken as it is where it is the same, and else marked |
| `Outcomes.UnseenIsMarked` | crates/textdb-cli/src/sync.rs:1797-1801 | two such texts are written out whole, between the signs, under the names of the two sides |
| `Outcomes.OneSideReaches` | crates/textdb-cli/src/sync.rs:1733-2002 | in a whole sync, a change of one side of a path that does not move reaches the other |
| `Outcomes.MovesIff` | crates/textdb-cli/src/sync.rs:1973-1991 | a document moves exactly when its file is gone, exactly one new file has its recorded text, and it is the first such document in path order |
| `Reconciling.FileSafe` | crates/textdb-cli/src/sync.rs:1747-1914 | over every state of a path: a file that is not as the last sync left it stays, unless the merge with the document takes its place |
| `Reconciling.DocSafe` | crates/textdb-cli/src/sync.rs:1747-1914 | over every state of a path: a document that is not as the last sync left it, as far as versions tell, stays, unless a merge without conflicts follows it; where the record names the text of its version, versions tell |
| `Reconciling.MergeOfNothing` | crates/textdb-cli/src/sync.rs:1790-1803 | merged against nothing, two different texts are a conflict, unless one is empty: then they come to the other |
| `Reconciling.EmptyMeetsFile` | crates/textdb-cli/src/sync.rs:1797-1801 | an input on which the first of two syncs calls a conflict what the second writes to the store |
| `Syncing.Checkout.FindMoves` | crates/textdb-cli/src/sync.rs:1973-1991 | of the documents whose files are gone, in path order, each whose text is that of exactly one new file moves there, unless an earlier one did |
| `Syncing.MovesAreOk` | crates/textdb-cli/src/sync.rs:1973-1991 | each is a move of an unchanged document to a new file with its text, and no path is in two |
| `Syncing.Checkout.Sync` | crates/textdb-cli/src/sync.rs:1733-2002 | after planning and carrying out, every path has exactly the document, the file and the record of its outcome |
| `Syncing.FilesSafe` | crates/textdb-cli/src/sync.rs:1733-2002 | over a whole sync, moves included, no file that is not as the last sync left it is deleted, moved or overwritten but by its merge |
| `Syncing.DocsSafe` | crates/textdb-cli/src/sync.rs:1733-2002 | nor is such a document, but by a merge without conflicts |
| `Syncing.OneSyncQuietIff` | crates/textdb-cli/src/sync.rs:1733-2002 | from every state, if nothing changes from outside, the plan after a sync has nothing to transfer, delete, move or merge exactly when no empty document met an unseen file that does not look like a conflict |
| `Syncing.TwoSyncsSettle` | crates/textdb-cli/src/sync.rs:1733-2002 | from every state, if nothing changes from outside, the plan after two syncs has nothing to do |
| `Histories.LosslessIff` | crates/textdb-cli/src/sync.rs:1567-1590 | over every series of commits, deletions, arrivals, file changes and syncs of a path, no sync loses a document it has not read, as long as none holds a path with a version on record whose document went away, exactly when the record is of the document there is: the recorded text, or a later version |
| `Histories.ForgottenIff` | crates/textdb-cli/src/sync.rs:1806-1829 | after a sync that does hold such a path, some series loses a document, without another such sync, exactly when the document is not there, or has an earlier version than the record, or the same one and another text |
| `Histories.HeldForgets` | crates/textdb-cli/src/sync.rs:1806-1829 | an input: deleted and made again while a conflict is held, at the recorded version |
| `Histories.DeletedForgets` | crates/textdb-cli/src/sync.rs:1806-1829 | an input: deleted while it is held, and made again after the sync |
| `Histories.EditedForgets` | crates/textdb-cli/src/sync.rs:1806-1829 | an input: made again before the sync, and edited up to the recorded version after it |
| `Histories.EveryRunKeeps` | crates/textdb-cli/src/sync.rs:1567-2002 | over every run of outside steps and syncs of a whole directory, moves included, in which no sync forgets, records stay of the documents there are, and no sync changes or removes a document but with the recorded text or by a merge without conflicts |

## Left out

- Widths: offsets, counts, versions and totals are unbounded; the 64-bit words of the original are
  modelled in the chunker's rolling hash and in the node encoding only.
- Missing chunks and nodes: the store is sound between operations, so the error answers for a hash
  that is not stored cannot arise in the model.
- Cursor clones: a cloned cursor is its path value; sharing of frames between clones is not modelled.
- Committing.Commit: the swaps of others are given per attempt, before its read and before its swap; it
  does not carry the list of new chunk hashes, because it is reporting only.
- ApplyEdits.ApplyEditSet: does not report the new chunk list or the write counters, because they are
  statistics.
- Access: white space at the ends of an alias is ASCII white space; other Unicode white space is not
  modelled. Error messages keep the facts, not the wording.
- Landing.LandingOrder: gives the condition in one direction; with particular texts two orders can also
  agree by coincidence. `Landing.LandsRightIff` is exact over everything that can be put in.
- Rebasing.ConflictInfo: keeps the three texts as bytes; the lossy conversion to UTF-8 is formatting.
- Reconciling: text files that may be written on both sides. Binary files, assets, ignore rules, shares
  that are read-only or no longer granted, and a base taken from a git commit only hold a path or
  leave it alone; they are not part of this model. Content ids are modelled by the content, and the
  shortcut by size and time of a file by comparing it. Documents are read and files written whole: where
  the base text is kept, the original rebuilds the one from the hunks since, and sends the other as line
  ranges (`sync.rs:763-851`), which comes to the same as long as the record is of the document there is.
- Histories: a move made in the store is a document going from one path and coming to another; that its
  file follows it on disk is not modelled.
- Syncing.Checkout.Sync: steps that fail, commits of others during the sync, and letter case of names
  are not modelled. The original carries out one kind of action after another, where the model goes by
  path: beside the moves, no two actions share a path.
- Unified diffs, reports, SQL bindings, the rest of the command line, file systems, markdown, search and
  the web application are not part of this model.
