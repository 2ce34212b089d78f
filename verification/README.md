# kernwatch: verified models of its cores

kernwatch is a terminal monitor for Linux. This project models its algorithmic cores in Dafny and proves what
they are for. `dafny verify dfyconfig.toml` checks everything.

- **Stack profiles** (`StackTree`, `CanonicalTree`, `Profile`): the prefix tree of weighted stacks, its sort and its
  folded form, against a log of stacks.
- **Icicle layout** (`Icicle`, `IcicleShares`, `IcicleCursor`, `IcicleHidden`, `IcicleCells`): columns in proportion
  to samples by integer floors, one widened cell under the cursor, stand-ins for what is too narrow, and what is left
  undrawn.
- **Comparison and union** (`Comparison`, `ComparisonMeaning`, `ComparisonLaws`, `Union`, `ComparisonLayout`): the
  joint walk over two trees with its shortcuts, against the definition path by path, and the icicle of the union.
- **CPU sampling** (`CpuSampler`, `CpuProtocol`): per-CPU handlers that bump cumulative counters and a reader that
  scans them at any time, as one transition system.
- **Shared versions and caches** (`SharedVersions`, `ProfileStores`, `ProfileCaches`; `ChunkHeap`, `SampleHistory`):
  reference-counted copy-on-write heaps with addresses that are reused, the identity-keyed caches over them, and
  histories in shared chunks. `SeriesWindow` is the chart window over a history.
- **Trace correlation** (`Correlation`, `CorrelationHistory`, `CorrelationLaws`, `Correlator`): pairing of opening and
  closing events, with loss, exit, reuse of thread numbers and bounded tables, over whole event histories.
- **Diagnosis** (`Diagnosis`, `DiagnosisLaws`, `DiagnosisEngine`, `Verdicts`): streaks, clear windows, absence and
  forgetting per key, the learned baseline over the reals, and verification of a minute.
- **Reviewed actions** (`Text`, `CpuSets`, `CpuText`, `UpsideDown`, `ReviewedActions`): CPU lists and masks from text
  to sets and numbers, and the preview, journal, apply and revert protocol against a host that may change between
  commands.
- **Retention and transport** (`Timeline`, `SourceProtocol`, `SourceWorker`, `Recording`): the byte-budgeted timeline,
  the one-in-flight worker and the framed recording.

`Wrappers`, `Numbers`, `Ordering` and `Sums` hold what several of these need. What the source updates in place is a
class whose methods are tied to functions of the old state; the properties are lemmas about those functions.
`Correlator` groups the source's flat fields into four records.

Counts and times are natural numbers, measurements are reals. Deviation tests compare squares, which is the same as
comparing with a square root. Frame names are strings ordered by code point.

Where code and comments of the source disagree, the model follows the code and states exactly when the promise is met.
The layout's comment says a frame is never widened; the frame under the cursor is. The comment there says such a frame
is always drawn; `IcicleCursor.CursorDrawnIff` says when, and `IcicleShares.EmptyFrameHidden` is a case when not.
Validation accepts frames without samples, so also without a cursor a frame can go undrawn: `IcicleHidden` counts
those, says when there are none, and `ComparisonLayout.ImportedFrameHidden` is a comparison that has one. A reading
that is not a number is neither missing nor above a threshold: `Verdicts.PassedIsBelowIff` says when a pass means that
all readings are at most the threshold. The engine's comment says a gone subject is forgotten;
`Diagnosis.ForgottenIff` and, over whole histories, `DiagnosisEngine.GoneIsForgottenIff` say when, and
`Diagnosis.StaleStreakArises` is a case when not. Equivalence of CPU lists is equality of sets on well-formed lists,
which all accepted requests are; `UpsideDown.ComparesAsSetIff` says for which other lists.

## Model

| member | source | states |
|---|---|---|
| StackTree.Find | src/flame.rs:20-30 | the first child of a name, or the number of children when there is none; no earlier child has the name |
| StackTree.InsertLookup | src/flame.rs:202-220 | how every lookup below the root relates to the tree before, for any path and inserted stack |
| StackTree.InsertSamples | src/flame.rs:202-220 | after an insertion the count at a path grows by the weight exactly if the stack extends the path |
| StackTree.InsertOwn | src/flame.rs:31-34 | after an insertion the own count at a path grows by the weight exactly if the stack equals the path |
| StackTree.InsertValid | src/flame.rs:202-220 | insertion keeps sibling names unique and children within their parent |
| StackTree.BuildValid | src/flame.rs:589-608 | every tree built by adding stacks passes validation, and has no empty frame |
| StackTree.BuildMeaning | src/flame.rs:202-220 | for every log of stacks and every path: the count is the total weight of the stacks that extend the path, the own count that of the stacks equal to it |
| StackTree.WeighPermutation | src/flame.rs:202-220 | those totals depend on the log as a multiset only |
| CanonicalTree.SortTreeMeaning | src/flame.rs:269-271 | sorting changes no count and no own count at any path |
| CanonicalTree.SortTreeValid | src/flame.rs:35-41 | sorting keeps a tree valid |
| CanonicalTree.SortTreeOrdered | src/flame.rs:35-41 | in a sorted tree, at every frame, children with more samples come first and equal ones by name |
| CanonicalTree.Canonical | src/flame.rs:35-41 | two valid trees without empty frames and with the same counts at every path sort to the same tree |
| CanonicalTree.InsertionOrderIsIrrelevant | src/flame.rs:202-220 | logs that are permutations of each other build trees that sort to the same tree |
| CanonicalTree.Fold | src/flame.rs:42-59 | the recursive writer appends exactly the entries of the subtree |
| CanonicalTree.Folded | src/flame.rs:275-282 | the folded output is the list of entries of the children in order |
| CanonicalTree.FoldedMeaning | src/flame.rs:275-282 | the folded entries weigh, at every path, what the tree counts there; samples of the root frame itself are no entry |
| CanonicalTree.FoldedExactlyOnce | src/flame.rs:42-59 | a path is listed once if its own count is positive, with that count, and otherwise not at all |
| CanonicalTree.FoldRoundTrip | src/flame.rs:275-282 | adding the folded entries to an empty profile rebuilds the tree, less the root frame's own samples, up to sibling order |
| CanonicalTree.BuiltRoundTrip | src/flame.rs:202-282 | for every log of stacks: the folded entries of the capture it builds weigh at every path what the log weighs, and build a capture that sorts to the same tree |
| Profiles.ObservedBalance | src/flame.rs:227-268 | one observation of any weight keeps twice the tree's samples equal to user + kernel + partial stacks |
| Profiles.StepDown | src/flame.rs:214-219 | one more frame of a fold changes the tree only below the exclusive reference, which moves to the child of that name |
| Profiles.FoldDown | src/flame.rs:202-220 | the loop that walks one exclusive reference down from the root computes the insertion |
| Profiles.Profile.Add | src/flame.rs:202-220 | the fields after `add`: tree, shallow and unresolved counters; empty or weightless stacks change nothing |
| Profiles.Profile.Observe | src/flame.rs:227-268 | all fields after `observe`, quality measured before the kernel marker is added |
| Profiles.Validate | src/flame.rs:589-608 | accepts a tree exactly if sibling names are unique and children fit their parent at every frame |
| Icicle.PlaceInto | src/flame.rs:342-423 | writing into an output appends exactly the layout of the subtree |
| Icicle.Lay | src/flame.rs:323-334 | the whole method computes the recursive layout; degenerate areas give nothing |
| Icicle.LayoutGeometry | src/flame.rs:342-423 | for every tree, width, limit and cursor: cells stay in the area and below the depth limit, same-row cells are disjoint and ordered, and a cell lies within every cell on its path |
| IcicleShares.CastExact | src/flame.rs:372-373 | on fitting trees the 16-bit cast of a share loses nothing |
| IcicleShares.ShareExact | src/flame.rs:372-380 | where children fit their parent and the one under the cursor has samples, no share is clamped: each gets its floor share, or one column under the cursor |
| IcicleShares.ShareExactIff | src/flame.rs:372-380 | where children fit their parent, empty ones included: no share is clamped exactly if the floor shares and the cursor's column fit the width |
| IcicleShares.LitFits | src/flame.rs:589-608 | a valid tree with samples along the cursor meets that at every level |
| IcicleCursor.CursorDrawnIff | src/flame.rs:361-386 | on every valid tree a frame of a valid cursor path is drawn in a cell of its own exactly if on each step down to it the next frame has samples or its elder siblings leave a column |
| IcicleCursor.CursorPathDrawnIff | src/flame.rs:361-386 | the whole cursor path is drawn exactly if there is room on every step of it |
| IcicleCursor.CursorWidth | src/flame.rs:371-380 | one level: the child under the cursor gets a column exactly if it has samples or a column is left |
| IcicleCursor.CursorIsDrawn | src/flame.rs:374-380 | hence samples along the cursor path are enough, whatever empty frames the tree has elsewhere |
| IcicleShares.EmptyFrameHidden | src/flame.rs:374-386 | an instance of the failing branch: a frame without samples after a sibling that takes every column is not drawn under the cursor, and counts as hidden |
| IcicleHidden.HiddenWithoutCursor | src/flame.rs:361-423 | on every valid tree without a cursor, the number of frames left undrawn is the number of frames without samples under drawn frames whose children take every column |
| IcicleHidden.FullIff | src/flame.rs:366-399 | away from the cursor the children take every column exactly if all samples are theirs and each share is a whole number of columns |
| IcicleHidden.NothingHiddenIff | src/flame.rs:399-422 | hence nothing is left undrawn exactly if no drawn frame above the last level is full and has a child without samples |
| IcicleHidden.NoCursorNothingHidden | src/flame.rs:399-422 | in particular nothing is left undrawn of a valid tree without empty frames |
| IcicleHidden.EmptySiblingHidden | src/flame.rs:414-422 | a failing family: at every width and without a cursor, a frame without samples next to one with all of them is hidden |
| IcicleShares.LayoutWorth | src/flame.rs:372-418 | on every valid tree with samples along the cursor: each drawn cell has exactly its floor share of its parent or one column under the cursor, and a stand-in its floor share or a column within what is left of its parent |
| IcicleShares.LayoutShows | src/flame.rs:351-360 | on every tree a cell carries the name and the samples of the frame at its path; a stand-in hangs under a frame for some of its children |
| IcicleCells.LayoutRoot | src/flame.rs:323-334 | a layout is empty exactly without columns, rows or samples; else its first cell is the root across the whole width |
| IcicleCells.LayoutAbuts | src/flame.rs:381-418 | on every tree the cells under a frame start at its left edge and leave no gap |
| IcicleCells.LayoutStandsFor | src/flame.rs:381-418 | on every tree a stand-in counts exactly the children of its frame without a cell, and shows their samples |
| IcicleShares.LayoutAccounts | src/flame.rs:361-423 | on every tree: children of expanded cells = drawn cells below the root + folded + hidden |
| Comparison.PairsSides | src/flame.rs:679-689 | a pair of the join has a side exactly for each list with a child of its name, and that child is one of the list |
| Comparison.LastIsLast | src/flame.rs:679-689 | the side taken is the last child of the name |
| Comparison.KeysOrdered | src/flame.rs:679-689 | the join visits the names of both child lists exactly once, in increasing order |
| Comparison.SingleJoin | src/flame.rs:660-678 | for lists of at most one child of one name the join is that one pair |
| Comparison.VisitInto | src/flame.rs:624-649 | appends the change of a frame and everything below it |
| Comparison.WalkInto | src/flame.rs:650-690 | appends the changes below a pair of frames; the chain shortcut appends the same |
| Comparison.Compare | src/flame.rs:609-717 | refusals, warnings and the list of changes, as the per-pair definition gives them |
| ComparisonLaws.ComparedIff | src/flame.rs:609-623 | a comparison is made exactly between captures of one known kind and unit that both have samples; otherwise which refusal is given |
| ComparisonLaws.WarningsIff | src/flame.rs:691-717 | each warning is given once, exactly if scopes, durations or frequencies differ |
| ComparisonMeaning.CompareMeaning | src/flame.rs:609-717 | on valid trees a change is listed exactly if its path is in either tree, with its two counts and their delta; paths strictly increase, so each is listed once and in order |
| ComparisonLaws.DeltaMeaning | src/flame.rs:639-644 | in counts a delta is current less baseline; in shares delta times both totals is a hundred times the cross difference, so it is positive exactly if the share grew |
| Ordering.PathBeforeIff | src/flame.rs:679-689 | paths are ordered by the first name in which they differ, a prefix first |
| Ordering.BeforeIff | src/flame.rs:679-689 | names are ordered by the first code point in which they differ, a prefix first |
| ComparisonMeaning.CompareAntisymmetric | src/flame.rs:624-649 | swapping the captures swaps the counts and negates every delta, in both modes |
| Union.UnionIsJoin | src/flame.rs:526-571 | the equal-subtree and single-child shortcuts compute the tree of the general join |
| Union.JoinTwice | src/flame.rs:527-533 | joining a valid tree with itself sorts it |
| Union.JoinValid | src/flame.rs:564-570 | the union of valid trees is valid |
| Union.JoinPositive | src/flame.rs:526-571 | the union of trees without empty frames has none |
| Union.JoinOrdered | src/flame.rs:564-570 | the union is sorted in the same way |
| Union.UnionMeaning | src/flame.rs:525-588 | the union is valid, has exactly the paths of both trees, and the larger own count at each |
| Union.UnionSymmetric | src/flame.rs:525-588 | the union does not depend on which capture is the baseline |
| ComparisonLayout.ComparisonDrawn | src/ui/views.rs:3958-3972 | the drawn comparison of any two valid captures: each cell shows its frame of the union with its floor share, and what is hidden is what `IcicleHidden.Lost` counts |
| ComparisonLayout.CellHasChange | src/ui/views.rs:3960-3980 | the names along a drawn cell's path below the root are the path of exactly one change of the comparison, so the lookup finds it |
| ComparisonLayout.RecordedNothingHidden | src/ui/views.rs:3958-3959 | the comparison of captures without empty frames hides nothing |
| ComparisonLayout.ImportedFrameHidden | src/ui/views.rs:3958-3959 | an imported baseline with a frame without samples, against a capture without that frame, is drawn with it hidden |
| SharedVersions.DetachKeeps | src/flame.rs:144-148 | moving one reference of a shared value to a copy keeps every view and makes the mover its sole owner |
| SharedVersions.Arcs.Detach | src/flame.rs:144-148 | `make_mut`: no view changes, the slot ends as sole owner, and it is copied unless it was |
| SharedVersions.Arcs.Set | src/flame.rs:179-183 | a write through one reference is seen through no other |
| SharedVersions.Arcs.Clone | src/flame.rs:117-132 | a clone is the same version |
| SharedVersions.Arcs.Drop | src/flame.rs:117-132 | dropping a reference changes no other view; the value is freed exactly with its last reference |
| ProfileStores.ProfileStore.MakeMut | src/flame.rs:179-183 | mutable access to a capture changes no value and detaches it from every other variable; the copy shares the root |
| ProfileStores.ProfileStore.SetRoot | src/flame.rs:144-148 | a mutation of the tree detaches capture and root; no other variable or cache sees it |
| ProfileStores.ProfileStore.Assign | src/flame.rs:179-183 | any mutation of one capture changes that variable's value only |
| ProfileStores.ProfileStore.VersionsAgree | src/flame.rs:184-188 | two variables of the same version have equal values |
| ProfileStores.ProfileStore.RootsAgree | src/flame.rs:128-132 | a cached root of the same version as a capture's root equals it |
| ProfileCaches.Prepare | src/flame.rs:497-520 | report, union and order of a fresh comparison, or its refusal |
| ProfileCaches.OrderRanks | src/flame.rs:502-512 | the order lists every change once, strictly by size of delta and then by path |
| ComparisonLaws.OrderMeaning | src/flame.rs:502-512 | the prepared order lists every change once, larger deltas of either sign first, equal ones by path |
| ProfileCaches.EmptyNeedle | src/flame.rs:470-471 | filtering by the empty query gives the whole order, so the shortcut agrees with the filter |
| ProfileCaches.MatchingNext | src/flame.rs:473-490 | a row is kept, at its place in the order, exactly if the needle occurs somewhere in its label |
| ProfileCaches.Rows.Query | src/flame.rs:460-496 | the rows of a query are those whose label contains it, in order, whatever was queried before |
| ProfileCaches.Comparisons.PreparedComparison | src/app.rs:217-236 | after any run of openings, clones, mutations and drops the answer is that of a fresh comparison, refusals included; a refusal leaves the cache as it was |
| ProfileCaches.Comparisons.Mutate | src/flame.rs:179-183 | a mutation changes one user's capture and keeps the cached entry sound |
| ProfileCaches.Comparisons.Replace | src/app.rs:228-232 | a new entry with its own clones replaces the old one unseen by every user |
| ProfileCaches.Publisher.Publish | src/probes.rs:568-582 | what is published is the current capture with its current tree sorted, from the cache or not |
| CpuSampler.TakeConserves | src/cpu_profile.rs:189-203 | one read of one cumulative counter keeps tree + failed = seen = per-task totals, and takes only what grew |
| CpuSampler.TakeAgrees | src/cpu_profile.rs:189-271 | one reading sends exactly the growth of its counter to the path of its own stack, user frames, marker, kernel frames; to its task; and to the counts of the sorts of stacks it is of |
| CpuSampler.Sampler.Finish | src/cpu_profile.rs:127-138 | finishing detaches every CPU and is remembered |
| CpuSampler.Sampler.FollowHost | src/cpu_profile.rs:146-172 | a vanished target finishes the sampler at once; else the attached CPUs are the online ones, or those reached when the host refuses a call |
| CpuSampler.Sampler.Poll | src/cpu_profile.rs:139-273 | a poll that the host refuses, or within 250 ms of the last scan of an attached sampler, changes no count; any other reads the statistics, then every counter in turn, and stops at the first reading refused; the capture goes on saying what was read |
| CpuSampler.Sampler.Scan | src/cpu_profile.rs:189-271 | the pass over the map equals taking the entries one by one up to the first unreadable one |
| CpuProtocol.StepKeepsInv | probes/kernwatch.bpf.c:83-111 | every handler instruction, host change and single map read keeps the accounts |
| CpuProtocol.SamplesConserved | src/cpu_profile.rs:187-203 | at every moment of every interleaving: tree + failed = seen = tasks <= counts, 2 * samples = user + kernel + partial, and attempts = counted + lost + in flight |
| CpuProtocol.ReadingsMeaning | src/cpu_profile.rs:173-271 | in every interleaving every count at a path, every task total and every quality counter is the sum of the growth of the readings that count for it |
| CpuProtocol.FinalDrainAccounts | src/cpu_profile.rs:173-188 | after the final drain tree + failed + map failures = attempted |
| CpuProtocol.DrainedStaysPut | src/cpu_profile.rs:173-195 | reading again after the final drain changes no count |
| CpuProtocol.DrainTerminates | src/cpu_profile.rs:173-195 | from every finished state, also within a scan, some run of steps reaches the drained state |
| CpuProtocol.FinishedAccounts | src/cpu_profile.rs:173-195 | so every reached finished capture can be brought to tree + failed + map failures = attempted |
| CpuProtocol.ScanRefines | src/cpu_profile.rs:189-271 | whatever handlers do meanwhile, a scan leaves the books that the reader's loop computes from the entries it was handed |
| CpuProtocol.PollRefines | src/cpu_profile.rs:173-271 | a poll is a run of the protocol: opening and scan leave the books `Sampler.Poll` computes from its readings, in a reached state, so the conservation laws hold of them |
| SampleHistory.Histories.Clone | src/domain.rs:44-51 | a cloned history holds the same chunk references and no chunk is copied |
| SampleHistory.Histories.Push | src/domain.rs:84-101 | appends to one version; every other version keeps its samples, shared chunks or not |
| SampleHistory.Histories.PopFront | src/domain.rs:102-112 | drops the oldest sample of one version only |
| SampleHistory.Histories.Get | src/domain.rs:71-77 | indexing by division by 32 with the offset gives the sample at that place, or none beyond the end |
| SampleHistory.Histories.Last | src/domain.rs:78-80 | the last sample of the version, or none |
| SampleHistory.Histories.Iter | src/domain.rs:59-64 | iterating over the chunks gives the samples in order |
| SampleHistory.Histories.IterMut | src/domain.rs:65-70 | rewriting through mutable references maps every sample of one version only |
| SampleHistory.Histories.Retain | src/domain.rs:113-115 | keeps exactly the samples that pass, in order, in one version only |
| ChunkHeap.FilterConcat | src/domain.rs:113-115 | the samples kept are those that pass, part by part and in order |
| SampleHistory.Histories.Drop | src/domain.rs:44-51 | dropping a version changes no other |
| SampleHistory.Histories.Record | src/domain.rs:199-211 | `Series::push`: a repeat of the last timestamp is ignored, and beyond 600 samples the oldest go |
| SampleHistory.RecordAllKeepsNewest | src/domain.rs:199-211 | over any run of readings a series is the newest 600 of the readings without repeats of the last timestamp |
| SampleHistory.DeduplicatedNext | src/domain.rs:199-204 | a reading is dropped exactly if it has the time of the reading before it |
| ChunkHeap.PushContents | src/domain.rs:84-101 | wherever the tail ends up, a version gains exactly the new sample |
| ChunkHeap.RewriteUntouched | src/domain.rs:65-70 | rewriting a chunk in place or in a copy leaves every other version's chunks as they were |
| SeriesWindow.Window | src/domain.rs:171-198 | on time-sorted samples the one-pass scan gives seconds + 1 slots, each the finite value of the last sample inside its second and not after the end |
| SeriesWindow.SlotMeaning | src/domain.rs:171-198 | a slot shows the last reading of its second that is not after the end, if it is finite, and is blank before boot or without one |
| SeriesWindow.LastInBoundary | src/domain.rs:183-195 | the sample before the scan index decides a bucket |
| SeriesWindow.CompletedSlotsShift | src/domain.rs:171-209 | with samples collected later and the oldest given up by the 600-sample limit, completed slots after those stay and move left by the seconds that passed |
| Correlation.KeyStep | src/tracing.rs:80-308 | one input changes the open interval of a thread or CPU exactly as opening, closing, exit and loss say, overflow of any table included |
| Correlation.LedgerStep | src/tracing.rs:80-300 | one input empties a window with its thread or by overflow, appends the recorded latency, or leaves it |
| Correlation.PairStep | src/tracing.rs:131-131 | the pair counter grows exactly with a recorded wakeup, call or interrupt |
| CorrelationHistory.OpenIffLive | src/tracing.rs:80-308 | an interval is open exactly if some opening of the same thread or CPU and kind was not closed, exited or lost since, and it counts from the first such wakeup, else from the last |
| CorrelationHistory.Latency | src/tracing.rs:90-134 | a latency is recorded exactly if a closing event of the same generation meets such an opening that is not later, and it is their difference |
| CorrelationHistory.OpeningUsedOnce | src/tracing.rs:105-134 | no opening event is used by two closing events of a kind |
| CorrelationHistory.Stored | src/tracing.rs:398-409 | every stored sample of every window is the latency of an input of its own, in the order recorded |
| CorrelationLaws.OpenSubject | src/tracing.rs:165-217 | an open call or interrupt is stored under the number that its opening event names |
| CorrelationLaws.EntryIff | src/tracing.rs:88-252 | an event enters a latency in a window exactly if a live opening explains it and the two events put it there: same thread, CPU, group, the call the enter named, or the vector the entry named |
| CorrelationLaws.StoredLatency | src/tracing.rs:105-252 | every stored sample is closing minus opening time in milliseconds of one such pair of events |
| CorrelationLaws.WindowStep | src/tracing.rs:105-300 | one input appends exactly the latencies that belong to a window, dropping the oldest of 4096, and empties it exactly when its thread is gone or more than 4096 threads have one |
| CorrelationHistory.Generation | src/tracing.rs:90-134 | if every switch carries a start time and nothing was lost, each stored wakeup sample was completed by the generation known under the thread's number |
| CorrelationLaws.PairedCounts | src/tracing.rs:77-252 | the pair counter is the number of inputs that end a wakeup, a call or an interrupt |
| Correlation.CounterStep | src/tracing.rs:80-300 | one input adds its amount to every growing counter, whatever overflows |
| CorrelationLaws.CountersTally | src/tracing.rs:80-252 | switches, arrivals, calls, errors, errnos and interrupt time are sums over the history of what the events are worth, calls and vectors by the number of the opening event |
| CorrelationLaws.CallersStep | src/tracing.rs:172-190 | a thread's calls of a number grow by one exactly when it ends one, while it is among at most 64 callers |
| CorrelationLaws.StartsStep | src/tracing.rs:92-103 | the start time known for a thread is that of its last switch-in that names one, until it exits or more than 16384 are known |
| CorrelationLaws.MigrationsStep | src/tracing.rs:143-163 | migrations of a thread and of a group, with exit and overflow |
| CorrelationLaws.LostStep | src/tracing.rs:281-308 | an input counts the losses told, or one for each table that overflows, and cuts every open interval exactly then |
| Correlators.PushInto | src/tracing.rs:404-409 | a full window drops its oldest sample; the capacity is never exceeded |
| Correlators.Correlator.OnSwitch | src/tracing.rs:88-142 | a switch renews, ends the off interval, opens one, answers the wakeup and requeues, in that order |
| Correlators.Correlator.OnLeave | src/tracing.rs:172-216 | a system call return counts call, latency, error, errno and caller |
| Correlators.Correlator.OnIrqLeave | src/tracing.rs:234-252 | an interrupt exit adds its time per CPU and vector |
| Correlators.Correlator.Bound | src/tracing.rs:281-300 | each overflowing table is cleared and counts as one lost event |
| Correlators.Correlator.Consume | src/tracing.rs:80-301 | the fields after an event are those of the specification run over the whole history |
| Correlators.Correlator.Loss | src/tracing.rs:302-308 | lost events forget everything open and close nothing |
| Diagnosis.LearnWithin | src/diagnose.rs:17-28 | over any non-empty run of values in [m, M] the mean stays in it and 0 <= variance <= (M - mean)(mean - m) |
| Diagnosis.VarianceBound | src/diagnose.rs:17-28 | hence the variance is at most ((M - m) / 2)^2 |
| DiagnosisLaws.LearnMoments | src/diagnose.rs:17-28 | the mean is the exponential moving average of the values, weight 0.02 for a new one, and the variance that of their squares less the squared mean |
| DiagnosisLaws.AnomalousIff | src/diagnose.rs:164-172 | within a stretch of one boot and topology an observation is anomalous exactly if it is above its limit, or at least 1800 calm values over half an hour were learned and it is above 1.5 of their mean and more than three deviations above it |
| Diagnosis.StreakIsTrailing | src/diagnose.rs:169-191 | a streak never counts more than the latest anomalous observations |
| Diagnosis.OpenIsSustained | src/diagnose.rs:173-189 | an update opens an issue only if the key's three latest observations were anomalous |
| DiagnosisLaws.SustainedIsOpen | src/diagnose.rs:173-189 | if the three latest observations of a watched stretch are anomalous, the key has an open issue that shows the last of them, dated two seconds back if there was none and else unchanged |
| DiagnosisLaws.BeganOnce | src/diagnose.rs:180-182 | an issue keeps the time it began at for as long as it is known |
| DiagnosisEngine.Engine.Reported | src/diagnose.rs:164-189 | the engine reports as open a key observed above its limit by three updates in a row of one boot |
| Diagnosis.ClearIsCalm | src/diagnose.rs:173-206 | the clear time of a key with an issue starts a stretch in which every update observed it, never anomalous |
| Diagnosis.ResolvedIsCalm | src/diagnose.rs:190-199 | an update resolves an issue only after at least 60 s of such a stretch |
| DiagnosisLaws.CalmResolvesIff | src/diagnose.rs:190-199 | after an anomaly of a key with an issue, while it is watched and calm, the issue is resolved exactly once an update is a minute after the first calm one |
| DiagnosisLaws.CalmUpdatesResolveIff | src/diagnose.rs:190-199 | the same when the calm starts with the next update |
| DiagnosisLaws.MissedIsUnavailable | src/diagnose.rs:201-232 | a missed key's issue is unavailable with its date and evidence, until it has been absent for 600 s |
| Diagnosis.AbsentSince | src/diagnose.rs:214-232 | a dated absence began with an update since when the key was never observed |
| Diagnosis.KnownIsRecent | src/diagnose.rs:214-232 | after every update a key with a baseline or an issue was observed in it or has been absent for under 600 s |
| Diagnosis.ForgottenIff | src/diagnose.rs:65-232 | a key observed and then missed for 600 s is in the blank state exactly if the topology was unchanged at the first miss, or it had an issue, or the host rebooted meanwhile; else precisely its streak and clear time stay |
| DiagnosisEngine.GoneIsForgottenIff | src/diagnose.rs:65-232 | the same over whole update histories of the engine, by boot identifiers and scope texts |
| Diagnosis.StaleStreakStays | src/diagnose.rs:201-232 | streak and clear time without baseline, issue or dated absence outlive every later update of the same boot that misses the key; a reboot clears them |
| Diagnosis.StaleStreakArises | src/diagnose.rs:65-84 | for any first observation of a new engine, a change of topology with the key gone leaves its streak if it was anomalous, else its clear time |
| DiagnosisEngine.OsPresent | src/diagnose.rs:164-166 | a key is present exactly if the snapshot observes it |
| DiagnosisEngine.Engine.Begin | src/diagnose.rs:66-84 | a new boot forgets everything but absences; a new topology forgets the baselines |
| DiagnosisEngine.Engine.Observe | src/diagnose.rs:167-199 | one observation updates the maps of its key, and of no other |
| DiagnosisEngine.Engine.MissActive | src/diagnose.rs:201-207 | issues of keys not observed lose streak and clear time and become unavailable |
| DiagnosisEngine.Engine.Date | src/diagnose.rs:216-221 | absences end with an observation and begin while there is something to forget |
| DiagnosisEngine.Engine.Forget | src/diagnose.rs:222-232 | keys absent for 600 s are forgotten by every map |
| DiagnosisEngine.Engine.Update | src/diagnose.rs:65-232 | after any run of updates every key is in the state its own observations lead to |
| DiagnosisEngine.Engine.Remembered | src/diagnose.rs:208-232 | after any run of updates the engine holds a baseline or an issue only for keys observed last or missing for under 600 s |
| Verdicts.VerdictMeaning | src/diagnose.rs:276-305 | a conclusive verdict rests on readings through the whole minute without a gap, none missing; failed means that one is above the threshold as floating-point values compare, passed that none is |
| Verdicts.ConclusiveIff | src/diagnose.rs:276-298 | a verdict is given exactly if the minute is over and has at least 60 readings, none missing, the first and last within a second of its ends and no two in a row more than 1.5 s apart |
| Verdicts.PassedIsBelowIff | src/diagnose.rs:299-303 | a passed minute stayed at or below the threshold exactly if the threshold and every reading of the minute are numbers |
| Verdicts.NotANumberPasses | src/diagnose.rs:296-303 | a minute of readings none of which is a number passes at any threshold |
| CpuSets.Normalize | src/actions.rs:309-337 | parse, sort and merge of a CPU list, or none if a part does not parse |
| CpuSets.NormalMeaning | src/actions.rs:325-336 | the normal form denotes the same CPUs as the list, upside-down ranges included |
| CpuSets.NormalSound | src/actions.rs:338-338 | equal normal forms denote equal CPU sets |
| CpuSets.NormalIffSameCpus | src/actions.rs:309-338 | for well-formed lists normal forms are equal exactly if the CPU sets are |
| UpsideDown.NormalWellFormedIff | src/actions.rs:325-336 | a normal form is well-formed exactly if each upside-down range of the list is absorbed by the CPUs just before its start, or at it |
| UpsideDown.ComparesAsSetIff | src/actions.rs:325-338 | a list is equivalent to a well-formed list exactly when they hold the same CPUs, if and only if its upside-down ranges are absorbed |
| UpsideDown.UpsideDownDiffers | src/actions.rs:309-338 | the texts 1-0 and 3-2 both parse and hold no CPU, and are not equivalent; accepted requests never hold such ranges |
| CpuSets.SameTextEquivalent | src/actions.rs:288-341 | texts that differ in white space at the ends are equivalent exactly if they are readable for the path |
| CpuSets.MasksIffSameNumber | src/actions.rs:290-304 | hex-word masks compare equal exactly if both parse and denote the same number in base 2^32 |
| CpuSets.CheckEquivalent | src/actions.rs:288-341 | masks by number, CPU lists by set, anything else as trimmed text, by the target's path |
| CpuSets.EffectiveIffSubset | src/actions.rs:252-268 | a non-blank request is met exactly by a non-empty effective set within it |
| CpuSets.UnreadableRefused | src/actions.rs:252-268 | a list that does not parse is never an allowed effective value |
| CpuSets.BlankRequest | src/actions.rs:259-261 | a blank request is met exactly by a non-empty effective set |
| CpuSets.ValidatedIsWellFormed | src/actions.rs:432-450 | every accepted request is a readable, well-formed, non-empty list |
| CpuText.NumeralParses | src/actions.rs:317-325 | a number written out in any base up to 16 reads back |
| CpuText.ListParses | src/actions.rs:309-326 | a CPU list written out, single CPUs as their number, reads back as its ranges |
| CpuText.MaskParses | src/actions.rs:290-302 | a mask written out in hexadecimal words reads back |
| CpuText.WrittenListsIff | src/actions.rs:305-338 | two lists as written are equivalent exactly if they hold the same CPUs |
| CpuText.WrittenMasksIff | src/actions.rs:288-304 | two masks as written are equivalent exactly if they are the same number |
| CpuText.OtherTextsIff | src/actions.rs:288-341 | any other control is compared as trimmed text |
| CpuText.WrittenEffectiveIff | src/actions.rs:252-268 | a request as written allows exactly the non-empty subsets of its CPUs |
| CpuText.WrittenValidIff | src/actions.rs:432-450 | a request as written is accepted exactly if it names CPUs, no range upside down and none above 1048575 |
| ReviewedActions.Apply | src/actions.rs:189-214 | check, write and read back, as one outcome function: plan, host, whether it wrote and succeeded |
| ReviewedActions.Revert | src/actions.rs:223-250 | check, write back and read back, as one outcome function |
| ReviewedActions.PreviewedIff | src/actions.rs:152-183 | a preview needs a readable control and notes its text, effective text and identity |
| ReviewedActions.ApplyMeaning | src/actions.rs:184-214 | for any plan, host and reply: an apply writes exactly to the object and text previewed, succeeds exactly if what is left confirms the request, and notes what happened |
| ReviewedActions.RevertMeaning | src/actions.rs:215-250 | for any plan, host and reply: a revert writes exactly to an applied plan's object while it shows the applied text, and clears the plan exactly if the earlier text is confirmed |
| ReviewedActions.ApplySucceedsIff | src/actions.rs:152-214 | applying an undisturbed plan succeeds exactly if the kernel honours the request, marks it applied exactly if the write was taken, and touches no other control |
| ReviewedActions.RoundTrip | src/actions.rs:152-250 | a successful revert of an undisturbed plan restores a value equivalent to the one previewed; a failed one leaves the plan outstanding |
| ReviewedActions.ObedientRoundTrip | src/actions.rs:152-250 | on a host that stores the trimmed text with an allowed effective value, an undisturbed apply succeeds exactly if the request is readable, its revert exactly if the replaced text is, and then that text is shown again |
| ReviewedActions.WrittenLineObeys | src/actions.rs:130-130 | writing the trimmed request with a line end is such a reply |
| ReviewedActions.WriteKeeps | src/actions.rs:199-200 | a sanctioned write keeps every entry's applied flag in step with the writes |
| ReviewedActions.Application.Disturb | src/app.rs:2555-2631 | hosts and mode may change in any way between commands |
| ReviewedActions.Application.Preview | src/app.rs:2454-2553 | a preview writes no control and leaves the reviewed plan pending; in demo mode the fixture stands for a control not seen before |
| ReviewedActions.Application.ApplyPending | src/app.rs:2555-2596 | the plan is persisted before its write, and applied only on its own mode's host; a failed persist restores the pending plan and writes nothing |
| ReviewedActions.Application.RevertLast | src/app.rs:2597-2631 | the last entry is persisted before its rollback; a failed persist leaves the entry marked, the file as it was, and writes nothing |
| Timelines.ListTotal | src/app.rs:363-372 | the recounted total is one size per distinct retained version |
| Timelines.RetainedListed | src/app.rs:358-362 | retaining the profiles still shared lists exactly the versions of the retained frames |
| Timelines.ThinnedShape | src/app.rs:424-432 | a thinning pass strictly shrinks the list and keeps the oldest frame, every second of the older half and the whole newer half |
| Timelines.ThinningKeepsEnds | src/app.rs:422-434 | however often it is thinned, a timeline keeps its oldest and its newest frame |
| Timelines.ThinningIsMinimal | src/app.rs:422-434 | thinning is so many passes as bring the bytes within 48 MiB or leave at most eight frames, and no more |
| Timelines.FittingStays | src/app.rs:422-441 | frames that fit already are all kept |
| Timelines.BytesNext | src/app.rs:400-411 | a frame costs its own bytes, and those of its profile unless a frame before it shares the version |
| Timelines.DroppingIsMinimal | src/app.rs:435-440 | dropping takes the oldest frames, ends within the limits, and no shorter drop would |
| Timelines.Timeline.Recount | src/app.rs:357-373 | the byte count from scratch |
| Timelines.Timeline.Push | src/app.rs:400-411 | counts a frame, and its profile only if no retained frame shares the version |
| Timelines.Timeline.RetainFrame | src/app.rs:387-441 | least passes, then least drops, to at most 600 frames and 48 MiB or a single frame; nothing goes while everything fits; bytes are frames plus one size per version; frames are an ordered selection of those offered, ending in the newest; a repeated time changes nothing |
| SourceProtocol.StepKeepsOne | src/sources.rs:37-67 | every step of caller and worker keeps at most one item between the queues, pending exactly while there is one |
| SourceProtocol.StepKeepsPace | src/sources.rs:83-105 | every step keeps accepted requests an interval apart while the demand stays |
| SourceProtocol.NothingLost | src/sources.rs:37-83 | in every interleaving: one item in flight exactly while pending, no send refused, no result dropped, accepted = delivered + in flight, and the latest result is that of the latest delivered request |
| SourceProtocol.RequestsSpaced | src/sources.rs:167-180 | in every interleaving accepted requests without a demand change between them are at least an interval apart |
| SourceProtocol.DemandIff | src/sources.rs:83-180 | a demand has changed, and is one at all, by the part the source goes by; requests are 5, 30 or 1 s apart |
| SourceWorker.Source.Drain | src/sources.rs:79-82 | takes the result that is there |
| SourceWorker.Source.Update | src/sources.rs:78-172 | drain, hear the demand, and send exactly if nothing is pending, the demand changed or the interval has passed, and something is asked for |
| SourceWorker.Source.Answer | src/sources.rs:65-65 | the worker's offer of a result is never dropped |
| Recording.LittleEndianInverse | src/recording.rs:38-38 | a length survives its four bytes |
| Recording.LittleEndianBytes | src/recording.rs:38-38 | the lowest byte comes first |
| Recording.MagicBytes | src/recording.rs:8-8 | a file starts with KWATCH, a zero and the version 1 |
| Recording.Recorder.Push | src/recording.rs:30-43 | appends a frame, or refuses one over 32 MiB and changes nothing |
| Recording.FrameAt | src/recording.rs:36-41 | each payload stands behind its length, in order and with nothing between |
| Recording.Read | src/recording.rs:50-99 | the reading loop computes the recursive reader, with every error |
| Recording.ReadFramed | src/recording.rs:62-98 | one more frame of any file: refused over 32 MiB or 512 MiB in all, unreadable, refused over 14 views, or read with its views filled up |
| Recording.PaddedIs | src/recording.rs:90-93 | missing views are filled up empty to 14, and nothing else changes |
| Recording.ReadPrefix | src/recording.rs:62-98 | the first n bytes of a log read as an error exactly if a length would pass the replay limit, else as the whole frames |
| Recording.CutRecording | src/recording.rs:50-99 | a recording within the limits, cut anywhere after its magic number, reads back as exactly the frames wholly before the cut, views padded |
| Recording.RoundTrip | src/recording.rs:50-99 | an uncut recording reads back whole exactly if it is within the replay limit |

## Left out

- Overflow of 64-bit counters, except in profile validation, and rounding of floating point.
- Terminal interface, key handling, filters, collection from procfs, sysfs and journals, settings, demo fixtures.
- BPF loading, ring buffers, stack maps and symbolisation: the frames of a stack are inputs. Frame records are reduced to
  whether their raw text is an address; joining the frame tables of two profiles is not modelled.
- Text of titles, messages, labels and outcomes, replacement of separators in folded names, the correlator's event list and
  its origin time, error-count maps and warning lists other than those of a comparison.
- Profile trees and lists returned by value are datatypes; `layout` and `compare` thread their output and path as values.
- `Samples::last_mut`, `Samples::bytes`, `Series::at`; a write through one mutable reference is covered by `iter_mut`.
- Windows and percentiles published by `Correlator::apply`; the 4096-sample bound of a window is in the model.
- Block request accounting and the text payloads in `Probes::poll`: events enter with their fields already read.
- A thread's off-CPU samples have no generation theorem: a switch-out after the exit opens an interval for the next thread
  of that number.
- The order of equal elements under an unstable sort: a stable sort stands for it, and the elements are distinct where it
  matters.
- Detaching a CPU is modelled as waiting for its running handler.
- A live worker is assumed by the one-in-flight protocol: a dead worker or a closed queue is not modelled.
- Sizes of frames and profiles in bytes are inputs of the timeline; frames that share a version agree on its size.
- JSON encoding is an assumed inverse pair; renames and syncs are a durable store that keeps the old file on failure; a crash
  is a cut of the file.
- Each apply or revert is one step: the host does not change between its check and its write.
- Errors of a host are reduced to whether a control, its effective value or a write is refused; parsing of action commands
  is left out but for CPU lists, and a path's last component is what follows its last slash.
- Writing a task's affinity mask, cgroup path checks and quota ranges.
- CanonicalTree.Fold: writes frame identities; the label and the separator replacement of a written line are left out.
- CanonicalTree.Folded: writes frame identities, as `CanonicalTree.Fold` does.
- Correlators.Correlator.OnLeave: updates counters and windows; the event it emits is left out.
- Correlators.Correlator.Consume: keeps neither the list of emitted events nor the origin time of relative stamps.
- SourceWorker.Source.Update: shows the caller undisturbed within one update; interleavings inside it are in SourceProtocol.
- ProfileStores.ProfileStore.Assign: treats what is beside the tree as one record with the fields a comparison reads.
