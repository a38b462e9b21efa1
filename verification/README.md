# Verification models of edu-cloud

edu-cloud is a school platform with an answer-card editor, analysis services and a set of governance scripts. This
project models its self-contained algorithms and state machines in Dafny and proves what they promise. All files verify
together: `dafny verify dfyconfig.toml`.

| module | models |
|---|---|
| `Wrappers`, `Sequences`, `Ordering` | options and results; facts about sequences; Python's comparison of strings and tuples, `sorted` of sets and (stably) of lists |
| `DependencyCycles` | elementary cycles of the module graph, the snapshot, and the gate against a frozen baseline |
| `ChoicePacking` | rendering of choice questions into fixed-width grids that reuse blank cells, and the reading of such a card |
| `CardLayout`, `LayoutRuns`, `DefaultLayout` | the answer-card layout as values: numbering, operations, invariants over runs, the default layout |
| `LayoutEditor` | the same operations on region objects changed in place, each proved equal to its value form |
| `CutLines` | sub-questions and cut lines of an essay region |
| `Similarity` | n-gram counters, cosine similarity, best match |
| `ObjectScanner`, `NestedText` | the bracket- and quote-aware scanner of object literals; nested texts, which it sees through |
| `RouteAccess`, `PermissionMirror`, `ModuleGate` | who may open a page, and the two checks that keep front and back end in step |
| `BackendGate` | which module gates a request, the check that models the middleware, and the register of known deviations |
| `LogRotation`, `RollingLog` | the rotating journal and the log handler that rolls by day and size, over a map of files |
| `Issues` | merging of the watcher's issues and its summary |
| `QidMapping` | greedy matching of question ids with numbers |
| `Ownership` | ownership conflicts, checked in two places, and ownership of workflow services |

Code that changes things step by step is a method with a loop or a class with fields; each such method is proved equal to
a function of its inputs, or to satisfy a declarative description, and the theorems are about that function or
description. `hide` statements only keep definitions out of the solver's sight where a proof does not need them.

What the proofs say about the code, beyond its own promises:

- `DependencyCycles`: against a baseline that is itself a snapshot, comparing cycles adds nothing to comparing edges.
- `ChoicePacking`: the layout relies on its input. A mixed batch that is not sorted by option count, not full, or of three
  counts, and a borrowed question longer than the first borrowed, put bubbles under wrong headers or drop them. There are
  three exact conditions, each for all inputs: for a card that reads back as meant (`CardReadsBackExactly`), for one on
  which no question loses an option (`CardLosesNothing`), and for one that shows exactly what its batches say
  (`CardShowsCounts`): a last batch that is short and of different counts spills bubbles under the headers above it.
- `PermissionMirror`: the check compares an alias with its target in the back end only, so an alias of a role that the
  front end does not know passes although it has no rights there. The condition is exact.
- `BackendGate`: the register is indexed by id, so of two records under one id only the last is compared. The state is
  checked for prefixes of one segment; it settles the requests below exactly when no deeper table entry disagrees.
- `RollingLog`: a restart on a day that already rolled by size writes its first line to file 000 again, before the lines
  of the later files. The condition is exact.
- `Issues`: severity alone decides which duplicate is kept, so `blocks_completion` can be lost; `OverallRed` says
  exactly when the summary is red all the same.
- `Ownership`: a bare file name such as `a.py` is read as a dotted module name, and a path that starts with
  `edu_cloud/services/` or `services/` keeps a missing ending, so normalising twice is not normalising once. Both
  conditions are exact.

## Model

| member | source | states |
|---|---|---|
| `DependencyCycles.NormalizeIsMinFirst` | scripts/governance/check_module_dependencies.py:143-145 | A normal form starts at its least module and holds the same modules, as often as before. |
| `DependencyCycles.NormalizeFixpoint` | scripts/governance/check_module_dependencies.py:143-145 | A sequence that starts at its least module, which does not recur, is its own normal form: normalising is idempotent on simple cycles. |
| `DependencyCycles.NormalizeIgnoresRotation` | scripts/governance/check_module_dependencies.py:143-145 | Where a cycle is cut open does not matter: every rotation has the same normal form, as long as the least module occurs once. |
| `DependencyCycles.EveryCycleHasCanonicalForm` | scripts/governance/check_module_dependencies.py:143-162 | Every simple cycle of the graph, from wherever it is written, normalises to a canonical cycle of the graph. |
| `DependencyCycles.CanonicalIsUnique` | scripts/governance/check_module_dependencies.py:143-162 | A rotation class has one canonical member, so no cycle can be reported twice. |
| `DependencyCycles.CycleSearch.Visit` | scripts/governance/check_module_dependencies.py:154-160 | The recursive visit adds exactly the canonical cycles that continue its path, removes none, and terminates. |
| `DependencyCycles.FindCycles` | scripts/governance/check_module_dependencies.py:148-162 | For every finite edge set the result is exactly the simple directed cycles of length at least two, each once, written from its least module by code points: sound and complete. |
| `DependencyCycles.BuildSnapshot` | scripts/governance/check_module_dependencies.py:165-185 | The snapshot lists exactly the edges, and exactly the canonical cycles written closed, each once and in the order of their modules. |
| `Ordering.StringLeIsByCodePoint` | scripts/governance/check_module_dependencies.py:143-151 | The order that `min`, `sorted` and `>=` use on module names: a prefix comes first, and otherwise the first different code point decides. |
| `Ordering.StringOrder` | scripts/governance/check_module_dependencies.py:143-162 | The same by construction: a name comes before its extensions, and of two that first differ in x < y the one with x. |
| `Ordering.PathLeIsByStrings` | scripts/governance/check_module_dependencies.py:181-184 | The order of the listed cycles: a prefix comes first, and otherwise the first different module decides. |
| `Ordering.PairOrder` | scripts/governance/check_module_dependencies.py:172-179 | The order of the listed edges: by source, and edges of one source by target. |
| `DependencyCycles.CollectCycles` | scripts/governance/check_module_dependencies.py:201-209 | The loop over the listed paths computes the cycle set: closed paths opened, empty ones dropped, the rest normalised. |
| `DependencyCycles.SnapshotRoundTrip` | scripts/governance/check_module_dependencies.py:165-209 | Reading a snapshot back gives exactly the edges and the cycles it was built from. |
| `DependencyCycles.CycleFollowsEdges` | scripts/governance/check_module_dependencies.py:148-162 | A simple cycle of one graph is one of another exactly when the other has every edge it uses (so cycles grow with edges). |
| `DependencyCycles.CycleChangesNeedEdgeChanges` | scripts/governance/check_module_dependencies.py:258-268 | Between two snapshots, every cycle reported as new uses a new edge, every removed one a removed edge, and the new ones are exactly the cycles of the one graph that the other lacks. |
| `DependencyCycles.GateIsEdgeInclusion` | scripts/governance/check_module_dependencies.py:285-320 | The gate passes a frozen baseline (status 0) exactly when no edge was added and the declared edges are the imported ones, and fails with status 1 otherwise; the cycle comparison never decides. |
| `DependencyCycles.GateOfAnyBaseline` | scripts/governance/check_module_dependencies.py:285-320 | The gate passes any baseline, hand-edited ones included, exactly when it has all the edges, lists every cycle in some rotation, open or closed, and the declared edges are the imported ones; it fails with status 1 otherwise, and with 2 without a baseline. |
| `DependencyCycles.NewCycleMeansUnlisted` | scripts/governance/check_module_dependencies.py:201-209 | Against any baseline, hand-edited ones included, a simple cycle is new exactly when no rotation of it, open or closed, is listed. |
| `ChoicePacking.BuildChoiceGroups` | frontend/src/card-editor/render.js:118-233 | The cursor loop with all its branches emits exactly the batches of the recursive reference `Pack`, about which everything below is proved. |
| `ChoicePacking.RenderBatch` | frontend/src/card-editor/render.js:125-230 | One turn of the loop emits the grids of its batch and moves the cursor on by the batch and the questions it borrowed. |
| `ChoicePacking.RenderCommon` | frontend/src/card-editor/render.js:156-172 | Header row without timing marks and common option rows with one at either end, cell by cell, are the first rows of the batch. |
| `ChoicePacking.RenderExtra` | frontend/src/card-editor/render.js:174-203 | Reclaimed rows: borrowed questions on the left, further options of the tall questions on the right, cell by cell. |
| `ChoicePacking.RenderLeftover` | frontend/src/card-editor/render.js:211-227 | The grid of left-over option rows, cell by cell. |
| `ChoicePacking.GridsFillTemplates` | frontend/src/card-editor/render.js:125-231 | For any input every grid has exactly rows * (perRow + 2) cells, so nothing wraps into another row. |
| `ChoicePacking.CardRowsOfPack` | frontend/src/card-editor/render.js:125-231 | Cutting every grid at its column count gives back the rows of the batches, one after the other. |
| `ChoicePacking.TimingMarks` | frontend/src/card-editor/render.js:125-231 | For any input every row has a mark cell at either end and nowhere else, and the two are dotted exactly when the row holds a bubble. |
| `ChoicePacking.HeadersAreTheQuestions` | frontend/src/card-editor/render.js:123-231 | For any input the question numbers, read row by row, are exactly the question list: none lost, repeated or moved. |
| `ChoicePacking.BatchShowsItsCounts` | frontend/src/card-editor/render.js:125-230 | For any questions, the rows of one batch read by themselves show each batch question the common or all options, by its column, and each borrowed question its options as far as the first borrowed one has them. |
| `ChoicePacking.ReadFirstBatch` | frontend/src/card-editor/render.js:126-231 | For any questions the card reads as its first batch, then the borrowed questions, then the rest; all of the first show exactly these counts when the rest begins with a batch that is full or uniform, and otherwise the last column also shows the loose bubbles of the rest. |
| `ChoicePacking.NoStrayExactly` | frontend/src/card-editor/render.js:123-231 | No bubble stands loose above the first headers of a card if and only if it has no question, or its first batch is full or of one option count. |
| `ChoicePacking.CardShowsCounts` | frontend/src/card-editor/render.js:123-231 | For any questions the whole card shows exactly the counts of its batches if and only if no batch after the first is both short and of different option counts. |
| `ChoicePacking.BatchShownExactly` | frontend/src/card-editor/render.js:149-203 | In a batch of different counts all columns show the right number of bubbles exactly when the batch is full, non-decreasing and has two counts only. |
| `ChoicePacking.BorrowedAsExpected` | frontend/src/card-editor/render.js:157-163 | Borrowed questions all get their own options exactly when none has more than the first of them. |
| `ChoicePacking.CardReadsBackExactly` | frontend/src/card-editor/render.js:123-231 | Reading the rendered card column by column gives every question its options 0 .. n-1 exactly once and in order if and only if every batch on the cursor's way is uniform, or full, sorted, of two counts and borrowing no longer question. |
| `ChoicePacking.BatchLosesNothing` | frontend/src/card-editor/render.js:149-203 | In a batch of different counts no column lacks an option of its question if and only if the batch is full and its shortest questions come first. |
| `ChoicePacking.CardLosesNothing` | frontend/src/card-editor/render.js:123-231 | For any questions, every question reads back with all of its options, before anything else under its header, if and only if every batch on the cursor's way is uniform, or full with its shortest questions first, and borrows no question longer than the first borrowed. |
| `ChoicePacking.UnsortedBatchLoses` | frontend/src/card-editor/render.js:149-203 | A question of five options before one of four loses its fifth option. |
| `ChoicePacking.ShortBatchSpills` | frontend/src/card-editor/render.js:123-231 | Option counts 4, 4, 4, 4, 5 at three to a row: the short mixed batch at the end spills a bubble under a header above it. |
| `ChoicePacking.UnsortedBatchMisreads` | frontend/src/card-editor/render.js:149-203 | A question of five options before one of four: read back, the first has four bubbles and the second five. |
| `CardLayout.RenumberIsConsecutive` | frontend/src/card-editor/model.js:138-162 | Renumbering changes numbers only and gives s, s+1, ... in reading order, where s is the least positive number there was, or 1. |
| `CardLayout.RenumberIsIdempotent` | frontend/src/card-editor/model.js:138-162 | Renumbering twice is renumbering once. |
| `CardLayout.NumberedIsFixed` | frontend/src/card-editor/model.js:138-162 | A layout numbered consecutively from a positive number is left exactly as it is. |
| `CardLayout.NumberingIsUnique` | frontend/src/card-editor/model.js:138-162 | Start and shape determine the numbered layout. |
| `CardLayout.MergeUndoesSplit` | frontend/src/card-editor/model.js:165-195 | Merging right after splitting any editable region, at any ratio, gives the renumbered original: on a consecutively numbered layout heights, order and numbers are restored exactly. |
| `LayoutRuns.EditableIndexIsContiguous` | frontend/src/card-editor/interact.js:24-33 | On a valid column the k-th editable region is the k-th after the fixed ones, so consecutive editable indices are consecutive real indices, and an index past the end gives -1. |
| `LayoutRuns.SplitChanges` | frontend/src/card-editor/model.js:165-183 | The split region keeps its name and the given share of its height, a new essay below gets the rest; every other region keeps its place, height and name. |
| `LayoutRuns.MergeChanges` | frontend/src/card-editor/model.js:186-195 | The merged region keeps its name and takes the height of the one below, which goes; the rest stays; the last region of a column is left alone. |
| `LayoutRuns.ResizeChanges` | frontend/src/card-editor/model.js:198-212 | The height moves from the lower region to the upper one if and only if both are questions and keep at least 0.05; nothing else changes, numbers included. |
| `LayoutRuns.DragChanges` | frontend/src/card-editor/interact.js:24-66 | Below f fixed regions, dragging divider k moves the height between regions f + k and f + k + 1 if both exist and keep at least 0.05, and otherwise changes nothing. |
| `LayoutRuns.AddChanges` | frontend/src/card-editor/panel.js:17-55 | With i the last question of the last column that has one, the new question stands at the end of that column and shares the height of question i equally; nothing else changes but numbers. |
| `LayoutRuns.AddFirst` | frontend/src/card-editor/panel.js:44-52 | In a layout without any question the new one stands at the end of the last column, with height 1 and 10 points. |
| `LayoutRuns.AddHereChanges` | frontend/src/card-editor/interact.js:252-257 | A question added to a column from its menu stands at its end with height 1 and 12 points; nothing else changes but numbers. |
| `LayoutRuns.DeleteChanges` | frontend/src/card-editor/panel.js:331-351 | With c the first column whose first region i with the id is no fixed region, exactly region i of column c goes; the others keep their order, and the first question among them gets its height. |
| `LayoutRuns.DeleteOfNone` | frontend/src/card-editor/panel.js:331-351 | Without a column whose first region with the id can be deleted, the layout stays as it is. |
| `LayoutRuns.SplitStep` | frontend/src/card-editor/model.js:165-183 | Splitting keeps the invariant and every column's editable height. |
| `LayoutRuns.MergeStep` | frontend/src/card-editor/model.js:186-195 | Merging keeps the invariant and every column's editable height. |
| `LayoutRuns.ResizeStep` | frontend/src/card-editor/model.js:198-212 | Moving a divider keeps the invariant, moves height between two neighbours only, and keeps every column's editable height. |
| `LayoutRuns.AddQuestionStep` | frontend/src/card-editor/panel.js:17-55 | The add button keeps the invariant; it keeps all heights unless there is no question yet. |
| `LayoutRuns.DeleteStep` | frontend/src/card-editor/panel.js:331-351 | Deleting keeps the invariant and each column's editable height, except that of a last question, which goes with it. |
| `LayoutRuns.ApplyStep` | frontend/src/card-editor/interact.js:36-88 | Any operation keeps the invariant, and keeps all column heights exactly when it is one of the conserving ones. |
| `LayoutRuns.RunKeepsValid` | frontend/src/card-editor/interact.js:24-33 | Every layout that any run of split, merge, drag, add and delete can reach keeps the fixed regions first and every editable height positive. |
| `LayoutRuns.RunsCompose` | frontend/src/card-editor/interact.js:24-33 | Running some operations and then others is running them all; one alone is its single step. |
| `LayoutRuns.WhatTheMenuOffers` | frontend/src/card-editor/interact.js:372-436 | Below f fixed regions every question can be split in half, and every question but the first, and nothing else, be merged with the region above it. |
| `LayoutRuns.ApplyKeepsNumbers` | frontend/src/card-editor/model.js:138-162 | Any operation on a consecutively numbered layout leaves it consecutively numbered, a drag too, which does not renumber. |
| `LayoutRuns.RunKeepsNumbers` | frontend/src/card-editor/model.js:138-162 | Every layout that a run of operations can reach from a consecutively numbered one, such as the default layout, is consecutively numbered. |
| `DefaultLayout.CreateDefaultLayout` | frontend/src/card-editor/model.js:12-93 | For A3 and A4, any counts and any list of essays: all questions are dealt out once and in order under different ids, one essay to each of the first five columns of A3 or half of them to each side of A4; the layout is valid, and already a fixed point of renumbering. |
| `DefaultLayout.DefaultQuestions` | frontend/src/card-editor/model.js:12-62 | The fill questions are numbered on from the choices and share one height equally, their heights adding up to 1; the essays follow, each of height 1 and worth 10 where no score is given. |
| `DefaultLayout.DecimalReadsBack` | frontend/src/card-editor/model.js:19-51 | The number in an id is written in decimal without needless zeros and can be read off. |
| `DefaultLayout.DealEssays` | frontend/src/card-editor/model.js:35-93 | Dealing essays to the six columns keeps their order, loses none, and gives one to each of the first five. |
| `LayoutEditor.RenumberAll` | frontend/src/card-editor/model.js:138-162 | The in-place renumbering of the region objects equals the renumbering of their values; objects and columns stay the same. |
| `LayoutEditor.Layout.constructor` | frontend/src/card-editor/model.js:12-93 | Region objects for a sheet of values, no object in two places. |
| `LayoutEditor.Layout.SplitRegion` | frontend/src/card-editor/model.js:165-183 | Splicing in a new region object and halving the old one equals the split on values. |
| `LayoutEditor.Layout.MergeRegions` | frontend/src/card-editor/model.js:186-195 | Removing an object and growing its neighbour equals the merge on values; the last region of a column stays. |
| `LayoutEditor.Layout.ResizeDivider` | frontend/src/card-editor/model.js:198-212 | The two height updates, with the lower bound, equal the resize on values. |
| `LayoutEditor.Layout.EditableToRealIndex` | frontend/src/card-editor/interact.js:24-33 | The counting loop finds the real index of the k-th editable region, or -1. |
| `LayoutEditor.Layout.DragStep` | frontend/src/card-editor/interact.js:50-74 | One drag step resizes exactly the two neighbours of the handle, if both exist. |
| `LayoutEditor.Layout.AddToColumn` | frontend/src/card-editor/interact.js:351-358 | The context-menu entry of an empty column adds a question there and renumbers. |
| `LayoutEditor.Layout.AddQuestionButton` | frontend/src/card-editor/panel.js:17-55 | The nested search for the last column with a question, and the halving of its last question, equal the addition on values. |
| `LayoutEditor.Layout.DeleteQuestion` | frontend/src/card-editor/panel.js:331-351 | The search for the id, the removal and the handing on of the height equal the deletion on values. |
| `CutLines.CutsFollowTheirSubs` | frontend/src/card-editor/interact.js:193-213 | After deleting a sub-question every other one keeps its content and its cut at its new place, unless it has become the last; no cut appears, and cuts stay distinct and in range. |
| `CutLines.FreeGapExact` | frontend/src/card-editor/interact.js:400-409 | The modular search finds a free gap exactly when one exists, and then the first one from the middle gap on, round to the start. |
| `CutLines.Closest` | frontend/src/card-editor/interact.js:121-129 | The search for the gap nearest to the mouse returns a free gap with none nearer, the first of equally near ones, or none when all are used. |
| `CutLines.EssayRegion.AddCut` | frontend/src/card-editor/interact.js:392-416 | A cut is added exactly when a gap is free, in the first free one; cuts stay distinct and in range. |
| `CutLines.EssayRegion.DragCut` | frontend/src/card-editor/interact.js:118-137 | Dragging moves one cut to the nearest gap no other cut uses; cuts stay distinct and in range. |
| `CutLines.EssayRegion.DeleteCut` | frontend/src/card-editor/interact.js:171-188 | Deleting removes one cut and leaves the others as they were. |
| `CutLines.EssayRegion.DeleteSub` | frontend/src/card-editor/interact.js:193-213 | Removes and renumbers the sub-questions and takes the cuts along. |
| `Similarity.NgramsCountOccurrences` | scripts/import_mcu_planning_weights.py:31-34 | The counter of a text gives every pair of characters the number of places where it stands in the text without spaces, and nothing else. |
| `Similarity.SpacesGo` | scripts/import_mcu_planning_weights.py:33 | Exactly the spaces of a text are dropped. |
| `Similarity.ResidueIdentity` | scripts/import_mcu_planning_weights.py:37-47 | The squared residues of b against a add up to |a|^2 (|a|^2 |b|^2 - (a.b)^2). |
| `Similarity.CauchySchwarz` | scripts/import_mcu_planning_weights.py:37-47 | (a.b)^2 <= |a|^2 |b|^2 for sparse counters, with equality exactly for proportional ones. |
| `Similarity.CosineRange` | scripts/import_mcu_planning_weights.py:37-47 | The cosine is symmetric, lies in [0, 1], and is 1 exactly for proportional counters with a positive norm. |
| `Similarity.ScoreIsSquare` | scripts/import_mcu_planning_weights.py:42-47 | The quotient by the two roots is not negative, and its square is (a.b)^2 / (|a|^2 |b|^2). |
| `Similarity.SameTextScoresOne` | scripts/import_mcu_planning_weights.py:31-47 | Two texts that agree up to spaces score 1 as soon as they have one n-gram. |
| `Similarity.CosineSimilarity` | scripts/import_mcu_planning_weights.py:37-47 | The sum over the common keys divided by the product of the two roots, with the guards of the code, is the cosine: not negative and with that square. |
| `Similarity.BestIndexIsMaximum` | scripts/import_mcu_planning_weights.py:66-80 | The chosen concept is a true maximum, the first of equals; none is chosen only when all score 0. |
| `Similarity.BestMatch` | scripts/import_mcu_planning_weights.py:69-78 | The inner loop computes that choice. |
| `Similarity.MatchMcuToKb` | scripts/import_mcu_planning_weights.py:50-81 | Every entry of the result gives the id of the first concept of greatest similarity, above 0 and not below the threshold, and that similarity; a pattern without an entry resembles no concept at all, or its first best concept is below the threshold or has the empty id. |
| `Similarity.ThresholdOnlyRemoves` | scripts/import_mcu_planning_weights.py:79-80 | Raising the threshold removes exactly the matches that miss the higher one and changes none. |
| `Similarity.NothingAboveOne` | scripts/import_mcu_planning_weights.py:79-80 | No threshold above 1 is ever met. |
| `ObjectScanner.SplitTopLevelEntries` | scripts/governance/check_permission_mirror.py:62-92 | The character loop with quote, escape and depth gives exactly the trimmed, non-blank pieces between top-level commas. |
| `ObjectScanner.JoinUndoesSplit` | scripts/governance/check_permission_mirror.py:62-92 | Joining the raw pieces with commas gives the body back, whatever it is. |
| `ObjectScanner.SplitUndoesJoin` | scripts/governance/check_permission_mirror.py:62-92 | Splitting joined pieces gives these pieces back if and only if none holds a top-level comma and all but the last are closed. |
| `ObjectScanner.EntriesUndoJoin` | scripts/governance/check_permission_mirror.py:62-92 | The trimmed entries of joined pieces are the pieces themselves if and only if they are also trimmed and not blank. |
| `ObjectScanner.SplitKeyValue` | scripts/governance/check_permission_mirror.py:95-117 | The scan splits at the first top-level colon, or fails when there is none. |
| `ObjectScanner.FirstTopAfter` | scripts/governance/check_permission_mirror.py:95-117 | The separator written after a piece is the first top-level one if and only if the piece is closed and has none itself. |
| `ObjectScanner.ExtractBalanced` | scripts/governance/check_permission_mirror.py:34-59 | The scan returns the text up to the bracket that closes the first opening one after the marker, or one of the two errors. |
| `ObjectScanner.ExtractUndoesWrap` | scripts/governance/check_permission_mirror.py:34-59 | A body written between brackets after the marker is extracted if and only if it is balanced. |
| `ObjectScanner.StripTrims` | scripts/governance/check_permission_mirror.py:62-92 | Trimming removes all white space at both ends, and nothing else. |
| `ObjectScanner.PrintedEntry` | scripts/governance/check_permission_mirror.py:62-117 | A key and a value that can stand in an object literal are read back from `key:value`. |
| `ObjectScanner.PrintedObjectReadsBack` | scripts/governance/check_permission_mirror.py:62-117 | A whole object printed from such pairs is split into its entries and read back pair by pair. |
| `NestedText.NestingIsSeen` | scripts/governance/check_permission_mirror.py:92-117 | A text of properly nested quotes (with escapes) and brackets is closed, and a separator stands at its top exactly where it is a piece by itself. |
| `NestedText.NestedTextsSplit` | scripts/governance/check_permission_mirror.py:62-92 | Nested texts without a comma of their own, joined by commas, are split into these texts again. |
| `NestedText.ExtractsNested` | scripts/governance/check_permission_mirror.py:34-60 | The block found after the first marker is the text between its brackets, whatever brackets and quotes are nested in it. |
| `PermissionMirror.CheckRepo` | scripts/governance/check_permission_mirror.py:196-247 | Nothing is reported if and only if the front end mirrors permissions, roles and aliases; and every message reported is true, with the exact names it lists. |
| `PermissionMirror.CanonicalRoleMirrored` | scripts/governance/check_permission_mirror.py:196-247 | With a clean report a canonical role that is no alias has at run time exactly its back-end permissions. |
| `PermissionMirror.AliasMirrored` | scripts/governance/check_permission_mirror.py:13-19 | With a clean report an alias has at run time its back-end permissions if and only if its target is no back-end-only role, or there are none to have. |
| `PermissionMirror.CleanReportWithDeadAlias` | scripts/governance/check_permission_mirror.py:232-246 | A report can be clean although an alias leads to a back-end-only role and so has no rights in the front end. |
| `ModuleGate.CompareFrontend` | scripts/governance/check_module_semantics.py:257-348 | Nothing is reported if and only if every rule holds on every surface (declared codes, null routes, consistency, known codes, coverage, dynamic routes); and every error reported is true. |
| `ModuleGate.FrontendCleanMeans` | scripts/governance/check_module_semantics.py:257-348 | Clean means, surface by surface: a code beside a route is its declared one and an existing switch, and a route shown without a code is declared to need none or, on the router only, undeclared and not dynamic. Two of the rules follow from the others. |
| `ModuleGate.DynamicMeans` | scripts/governance/check_module_semantics.py:336-348 | A route counts as dynamic exactly when it holds a colon and no catch-all. |
| `ModuleGate.PermissionDecision` | frontend/src/config/routeAccess.js:37-49 | With a clean mirror the run-time permission test of a known role or alias is that of the back end. |
| `ModuleGate.ModuleDecision` | frontend/src/config/routeAccess.js:51-89 | With a clean gate the run-time module test of a route in the access table is that of its declared module: none, exempt, or loaded and enabled. |
| `ModuleGate.CleanChecksDecideAccess` | frontend/src/config/routeAccess.js:91-100 | End to end: with both checks clean, every known role or alias may open a route of the access table if and only if the back end grants what the route needs and its declared module is open. |
| `ModuleGate.CreatedGateDecides` | frontend/src/config/routeAccess.js:51-59 | End to end with the gate built for the caller: a school caller opens a page if and only if the back end grants it and its declared module is none, or loaded and enabled; any other caller needs the grant only. |
| `ModuleGate.DynamicRouteDecision` | frontend/src/config/routeAccess.js:106-116 | The same for pages reached by a dynamic route, from the record of the route. |
| `ModuleGate.TableRouteDecision` | frontend/src/config/routeAccess.js:106-116 | A page of the access table that is open now stays open exactly when the back end grants what the table asks for, and one of the permissions of its route record (if any), and its declared module is none, or the caller is exempt or has it loaded and enabled. |
| `BackendGate.NearestAncestor` | src/edu_cloud/api/module_middleware.py:85-103 | Reference: the nearest ancestor of a path that is mapped covers it, and no mapped prefix that covers it is longer. |
| `BackendGate.LongestIsNearest` | scripts/governance/check_module_semantics.py:80-84 | The longest covering prefix is unique and is that nearest ancestor, so the order of the table does not matter. |
| `BackendGate.LongestPrefixMatch` | src/edu_cloud/api/module_middleware.py:85-103 | The loop over the prefixes sorted by length, in whatever order the table lists them, finds the nearest ancestor. |
| `BackendGate.ResolveModuleCode` | src/edu_cloud/api/module_middleware.py:106-116 | The middleware gates a path if and only if it is not exempt and has a mapped ancestor, with the code of the nearest. |
| `BackendGate.ActualGating` | scripts/governance/check_module_semantics.py:66-85 | The check's own copy of the decision is the same function of the tables, as text. |
| `BackendGate.PrefixDecidesPaths` | src/edu_cloud/api/module_middleware.py:78-116 | The decision for a prefix is that for every request path below it if and only if no deeper table entry decides otherwise. |
| `BackendGate.CoversAtBoundary` | src/edu_cloud/api/module_middleware.py:78-116 | A prefix covers itself and longer texts only at a segment boundary. |
| `BackendGate.CompareBackend` | scripts/governance/check_module_semantics.py:88-120 | Nothing is reported if and only if declared and discovered prefixes coincide and each is as declared with nothing registered, or deviates exactly as registered; and every error reported is true. |
| `BackendGate.BackendCleanMeans` | scripts/governance/check_module_semantics.py:88-120 | Clean means: a prefix that is as declared refers to no record, and any other refers to a record of this very deviation, the last one under its id. |
| `BackendGate.CheckFrontendDrift` | scripts/governance/check_module_semantics.py:405-430 | Nothing is reported if and only if register and probes agree; and every error reported is true. |
| `BackendGate.CheckKnownDrift` | scripts/governance/check_module_semantics.py:433-448 | Nothing is reported if and only if every record is referred to by a prefix or has a probe; and every error reported is true. |
| `BackendGate.RegisterMatchesDeviations` | scripts/governance/check_module_semantics.py:88-120 | With clean checks, declared and discovered prefixes coincide, and the back-end records are one to one with the deviating prefixes if and only if no two of them share an id. |
| `BackendGate.SharedIdHidesARecord` | scripts/governance/check_module_semantics.py:92 | Two records under one id can pass all checks while one of them describes no prefix. |
| `BackendGate.FrontendRegisterIsCurrent` | scripts/governance/check_module_semantics.py:405-448 | With clean checks a front-end deviation is registered exactly while its probe still finds it. |
| `BackendGate.FrontendDeviationsAreCurrent` | scripts/governance/check_module_semantics.py:379-448 | With clean checks each of the two front-end deviations is registered exactly while the parsed codes show it, word for word as its probe says, and nothing else is registered for the front end. |
| `BackendGate.CleanCheckGovernsRequests` | scripts/governance/check_module_semantics.py:88-126 | End to end: after a clean check every request under a declared prefix without registered deviation gets the declared treatment if and only if no deeper table entry decides otherwise. |
| `LogRotation.Directory.Rotate` | scripts/guardian_runtime.py:827-832 | In any directory the shift moves every backup up by one and the journal to 1; only what stood last is replaced. |
| `LogRotation.AppendJsonl` | scripts/guardian_runtime.py:822-834 | Appending rotates first exactly when the journal has reached the limit; no directory, no effect. |
| `LogRotation.RotationLosesOnlyTheOldest` | scripts/guardian_runtime.py:827-832 | In any directory, with gaps or without, a rotation overwrites no file but the oldest backup, and that only when its predecessor takes its place. |
| `LogRotation.Watch` | scripts/guardian_runtime.py:822-834 | After any run from an empty directory the journal and its backups 1 .. min(k, 5) are the latest segments of the history, backup i the i-th before the journal. |
| `LogRotation.SegmentsHoldHistory` | scripts/guardian_runtime.py:822-834 | The segments are the whole history in order, no line lost, torn or moved. |
| `LogRotation.SegmentSizes` | scripts/guardian_runtime.py:826 | A sealed segment reached the limit with its last line and not before. |
| `LogRotation.DiskIsEndOfHistory` | scripts/guardian_runtime.py:822-834 | What is on disk, oldest backup first, is the end of the history: all of it while there were at most five rotations and only then; afterwards at least five full files. |
| `RollingLog.DailyRollingHandler.Emit` | src/edu_cloud/logging_config.py:125-133 | Emitting is the step on values, and the handler's size is the size of its file. |
| `RollingLog.DailyRollingHandler.EnsureFile` | src/edu_cloud/logging_config.py:100-110 | A new day opens number 0, a full file the next number; the file opened is the one the step names, its content kept. |
| `RollingLog.PutIsInOrder` | src/edu_cloud/logging_config.py:112-118 | A line, whatever it is, is added at the end of the log as read by day and number if and only if no later file has content. |
| `RollingLog.RunReadsBack` | src/edu_cloud/logging_config.py:100-133 | With one writer and days that do not go back, the log read by day and number is what it was followed by exactly the emitted lines in order, and the handler's size stays true. |
| `RollingLog.RestartContinues` | src/edu_cloud/logging_config.py:89-118 | A handler started anew continues the log in order if and only if no file after the first of today has content: a restart after a roll by size on the same day does not. |
| `RollingLog.FreshRunSizes` | src/edu_cloud/logging_config.py:100-110 | In a fresh directory the numbers of a day leave no gap, every file that has a successor reached the limit, and every file ends with the last line written to it, without which it was empty or below the limit. |
| `RollingLog.RestartAfterRun` | src/edu_cloud/logging_config.py:89-110 | After any run in a fresh directory that ends with a line that is not empty, a handler started anew on the same day continues the log in order if and only if that day has not rolled by size. |
| `RollingLog.RestartCanFail` | src/edu_cloud/logging_config.py:89-110 | Two lines of one byte on one day with a limit of one byte: the day has rolled, and some line after a restart is out of order. |
| `Issues.DedupeIssues` | scripts/guardian_runtime.py:640-654 | One issue for each code and summary, the first of the worst, strictly ordered by severity, code and summary. |
| `Issues.MergedOrder` | scripts/guardian_runtime.py:640-654 | In a merged list red issues come first and green ones last, issues of one rank go by code and then by summary, in the order of code points. |
| `Issues.MergedIsUnique` | scripts/guardian_runtime.py:640-654 | That description determines the list. |
| `Issues.MergeIsIncremental` | scripts/guardian_runtime.py:640-654 | Merging merged issues with new ones is merging all at once, for every result. |
| `Issues.MergeIsIdempotent` | scripts/guardian_runtime.py:640-654 | Merging twice is merging once. |
| `Issues.Snapshot.Rebuild` | scripts/guardian_runtime.py:657-674 | The snapshot holds the merged issues, the number of those that are red or block and of those that are yellow and do not, the overall colour, and one action with the fields of each issue, in order. |
| `Issues.Snapshot.AddTransitions` | scripts/guardian_runtime.py:953-960 | Whatever was merged before, adding transitions gives what merging everything at once gives: nothing is lost by the second merge. |
| `Issues.OverallRed` | scripts/guardian_runtime.py:657-674 | The summary is red if and only if something red was found or an issue that blocks is the one kept for its key. |
| `Issues.OverallIsWorst` | scripts/guardian_runtime.py:657-674 | When severities are known and nothing blocks, the summary is the worst severity found. |
| `Issues.BlockingCanBeLost` | scripts/guardian_runtime.py:640-654 | An issue that blocks completion is lost when an earlier one of the same severity, code and summary does not block. |
| `QidMapping.CountAnswers` | scripts/calibrate_universal.py:370-378 | Counted are exactly the papers in which both answers are there and not blank, and those among them in which the two are the same. |
| `QidMapping.BestMatch` | scripts/calibrate_universal.py:367-383 | The best number is the first with most agreements among those that could be compared; none only if none could. |
| `QidMapping.GreedyPass` | scripts/calibrate_universal.py:385-391 | A question gets its best number in the greedy pass if and only if no other question wants it with more agreements, or as many and an earlier id. |
| `QidMapping.FillPass` | scripts/calibrate_universal.py:393-399 | Every other question, in order of ids, gets the least number free at that point, and goes without only if none is. |
| `QidMapping.WinnerExists` | scripts/calibrate_universal.py:385-391 | Every wanted number has a winner, who is the question itself or beats it for that number. |
| `QidMapping.AutoMapQids` | scripts/calibrate_universal.py:345-401 | The mapping is injective into 1 .. total_q, has min(number of ids, total_q) entries, and each question with a best number gets it or loses it to one that beats it for that number. |
| `QidMapping.MappingIsDetermined` | scripts/calibrate_universal.py:385-399 | These properties leave no choice: they determine the mapping. |
| `Ownership.DetectConflicts` | scripts/governance/aggregate_modules.py:127-171 | Reported are exactly the tables, routes and services declared under two names, each with its first owner and every other; the list is empty if and only if there are none. |
| `Ownership.SharingIgnoresOrder` | scripts/governance/aggregate_modules.py:127-171 | What is reported as shared depends on neither the order nor the repetition of the modules. |
| `Ownership.CheckOwnershipConflicts` | scripts/governance/module_governance_guard.py:199-233 | When on, the guard reports exactly the conflicts among modules with services compared by their normal paths, and blocks if and only if something is shared; when off, nothing. |
| `Ownership.GuardIsStricter` | scripts/governance/module_governance_guard.py:199-233 | The guard blocks exactly what the aggregation reports, and two spellings of one service besides. |
| `Ownership.ChecksAgreeOnNormalForms` | scripts/governance/module_governance_guard.py:199-233 | The two checks agree when service paths are written in normal form. |
| `Ownership.NormalForms` | scripts/governance/module_governance_guard.py:236-259 | A path is its own normal form if and only if it lies below the services directory, ends in .py, is trimmed and has no backslash. |
| `Ownership.BareNames` | scripts/governance/module_governance_guard.py:243-255 | A name without a slash is always read as a dotted module name, so it leads to the file of that name if and only if it holds no dot; never for a name that already ends in .py. |
| `Ownership.UnqualifiedMeans` | scripts/governance/module_governance_guard.py:247-250 | A dotted name loses the services package in front, in either spelling, and nothing else. |
| `Ownership.BareFileName` | scripts/governance/module_governance_guard.py:243-255 | Such a name: `a.py` becomes `a/py.py`. |
| `Ownership.NormalisedTwice` | scripts/governance/module_governance_guard.py:236-259 | A result is a normal form if and only if it ends in .py, which fails exactly for a text that, once cleaned, starts with edu_cloud/services/ or services/ and lacks the ending; normalising again adds it. |
| `Ownership.UnfinishedPath` | scripts/governance/module_governance_guard.py:243-246 | Such a text: edu_cloud/services/a changes again when normalised a second time. |
| `Ownership.ServiceOwnershipMap` | scripts/governance/module_governance_guard.py:273-295 | The map gives every path its declarations, in order and with repetitions; nothing is invalid if and only if every entry of every module is a service path. |
| `Ownership.DeclarationsCount` | scripts/governance/module_governance_guard.py:273-295 | A path is declared once for every entry that is a text with this path, under the name of the entry's module, or "?" for a module without one. |
| `Ownership.CheckWorkflowOwnership` | scripts/governance/module_governance_guard.py:298-348 | The check passes if and only if it is off, there is no workflow file, or all entries are valid, every workflow file is declared exactly once and no declared one is missing; the three lists name exactly the offenders. |

## Left out

- Floating point: heights, ratios, pixel positions and scores are exact reals, and the square root is a parameter of which only its defining property is assumed.
- DependencyCycles: scanning Python files for imports, the occurrences of an edge and the list of modules in a snapshot; the model starts from an edge set. Exit status 2 for a missing baseline is modelled, other command-line handling is not.
- ChoicePacking: HTML text and CSS, the option symbols, the helper for one group that nothing calls, and `perRow` below 1, for which the loop would not advance.
- CardLayout: the two sides are one list of columns in reading order; a region has no sub-questions or blanks here (they are copied, not changed, by the operations), and typed question numbers are not an operation.
- LayoutEditor: pixels and events; a drag step is given as the change of ratio. Splitting or merging a fixed region, which the menus do not offer, leaves a height that is not a number in the source; the model gives such a region height 0.
- CutLines: sub-question edits in the side panel, which do not adjust cuts; ranges are claimed for the operations of interact.js only.
- Similarity: reading the pattern and concept files. An id that is the empty string counts as no match, as in the code.
- ObjectScanner: the regular expressions before and after the scanner (comments, string lists, permission expressions).
- RouteAccess: building the tables from source text, the header navigation, and the auth store; the tables are given.
- ModuleGate: parsing of the four surfaces, static mounts and portal services; error texts carry their kind and place only.
- BackendGate: discovery of prefixes from the running application, the token and database lookups after the decision, and records that lack a field, on which the script raises.
- LogRotation: the parent directory is there, and operations on files do not fail.
- RollingLog: failing writes (the handler swallows them), the three-digit padding of file names beyond 999 numbers a day, and several writers to one prefix.
- Issues: values that are not strings, the fingerprint, the model review and the state file.
- QidMapping: barcode reading and detection of answers; the papers that could be read are given, with stored and detected answers.
- Ownership: reading of MODULE.md files, the block texts, and owned services that are not strings in the conflict check.
- Scripts, services, pages and migrations that are not named above are not part of this model.
