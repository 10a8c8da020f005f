# Verified models of the context hub's core

The context hub keeps the conversations of coding agents beside the Git history they produced. This project models
the parts of it that are hardest to get right and proves what they are for. Everything is Dafny 4.11;
`dafny verify dfyconfig.toml` checks the whole project.

**Git contribution introduction** (`CommitGraph`, `GitIntroduction`, `GitRange`). Which commit of a branch brought a
given commit in? Stored commits are a partial map from commits to answers. A memoised depth-first search with a read
budget says absent, present or unknown, and a first-parent walk finds the introducing commit. Every answer is exact:
a commit is *the* introduction, "not found" means the whole history is known and lacks the source, "pending" means the
evidence really does not decide, and every error names a fault. More evidence never changes a definite answer. Reads
are spent only on the two histories, and whether they suffice is known before the search begins.

**Admission, bound head, proof** (`GitAdmission`, `GitContribution`, `ContributionLedger`, `ContributionRuns`,
`ContributionWork`, `ContributionWorkRuns`). Workers freeze a view of the repository, search the commit graph, and commit only if the fences
they froze still stand. Over every interleaving of workers, remote reads and other writers, each stored proof rests on
a baseline read without the source, an admission stamped at or after that read, and a read that had not even begun
when the admission was stored and that contains the source. The job that looks for such a read is saved only by the
worker that took it last.

**Resumable sweeps** (`AdmissionSweep`, `ParticipationSweep`). Batches of bounded size visit every pair of a sweep
exactly once, in order, before the cursor resets, and get there exactly when none of its pairs fails.

**Searching a document** (`Utf8`, `FindText`, `FindWindow`, `DocFind`, `DocFindPaging`). A linear-time matcher refines
the naive one; overlapping windows cut at rune boundaries (section 3 of RFC 3629) find what a search of the whole text
finds; and following the page cursor yields every match of the range, in order, without repetition, whatever the
budgets cut.

**Reading history turn by turn** (`DocTurns`, `HistoryPages`). Pages show complete turns, newest first, tiling one
partition that the index alone decides. Each page is as long as its limits allow, and over all pages only an open
newest turn is left out. A document whose turns each fit a page of their own is read to its beginning.

**Capturing a graph source** (`SlotOrder`, `GraphSource`, `GraphCapture`). Pages of ordered puts and deletes are folded
into a map within byte and row bounds. A capture succeeds exactly when every page up to the last passes, entry by
entry. For a faithful change log a delta is what a fresh baseline would be, and captures in a row are what one is.

**Recording history** (`HistoryEvents`, `MemoryChain`, `HistoryStore`, `HistoryRecorder`, `HistoryPreflight`). The log
keeps unique ids and causal evidence in every run, a replay never applies an event again, and recording after checking
the documents outside the write transaction does only what recording inside it would have done.

**Fenced workers and a trace checker** (`GitHubSync`, `GitHubRuns`, `BatchResults`, `BatchTraces`). Stale provider
answers are never installed, deliveries are finished only under their newest lease, and an accepted test trace consists
of whole, properly nested runs.

**Cached readers** (`ChunkReaders`, `DocViews`). Chunked reads are slices of the stream, and comparing page hashes finds
the common prefix that comparing events finds.

`Basics` holds shared definitions and `Obligations` one proof aid. Names and ids are numbers where only their order or equality matters, with 0 for the
empty string. A content hash stands for the content it was taken from: equal hashes mean equal content. Calls into
storage, the provider and the clock are parameters, and time does not run backwards.

Four places where the code does not keep what one would expect are recorded as theorems about the code as it is, each
with the exact condition under which it does:

- `HistoryPages.NextRefused`: when two user turn markers stand side by side, a page hands out a next position that the
  next request refuses. `HistoryPages.NextAcceptedIff` gives the condition.
- `ChunkReaders.StaleCacheIsServed`, `StaleCacheIsSpliced` and `FailedLoadStarves`: the conversation chunk reader
  overwrites its cached bytes before it checks them. After a failed load it can serve bytes of another chunk, join a
  wrong byte to a right one, or fail although the store answers rightly. `ChunkReaders.DocChunkReader.Read` says exactly
  when each happens, and `ChunkReaders.RowsAreRight` tells a caller from the outcomes of earlier calls which answers are
  right.
- `ChunkReaders.UncutChunks`: the event range reader does not check chunk lengths. `ChunkReaders.PlacedIsSlice` shows
  that its reads are slices exactly when the lengths are regular.
- `ContributionWork.LostReset`: when the reset of a finished pass cannot be written for a reason to wait, the failure
  record that is to take its place is refused by the store, since it would move the cursor back.
  `ContributionWork.FinishOwn` shows that nothing else a run saves is refused: the condition `ResetLost` can be read off
  the claimed job and the failed write.

## Model

| member | source | states |
|---|---|---|
| CommitGraph.IntroductionUnique | backend/internal/app/git_contribution_introduction.go:106-137 | A branch has at most one commit that reaches the source while its first parent does not, unless the source is its own ancestor. |
| CommitGraph.IntroductionExists | backend/internal/app/git_contribution_introduction.go:93-137 | In a known acyclic history that contains the source there is such a commit on the first-parent chain. |
| CommitGraph.AbsentExtends | backend/internal/app/git_contribution_introduction.go:97-99 | A source absent from a fully known history stays absent however much evidence is added. |
| GitIntroduction.GitEvidence.GetGitCommitTree | backend/internal/app/evidencequery/git_evidence.go:96-133 | Cached answers are free and never change; a new answer raises the read count by one; an exhausted allowance is remembered and reported as a missing commit, or as a projection limit when completeness is required. |
| GitIntroduction.IntroductionSearch.Contains | backend/internal/app/git_contribution_introduction.go:51-92 | The recursive search: present implies a real path, absent implies the whole closure is known and lacks the source, unknown has a reason; an error blames a corrupt, failing or cyclic ancestor; the memo and the cache only grow; it ends within the visit budget. |
| GitIntroduction.IntroductionSearch.Walk | backend/internal/app/git_contribution_introduction.go:106-137 | From a destination known to contain the source the walk finds the introduction or an undecided parent, in fewer steps than the bound allows; a commit without parents and the step bound are never reached. |
| GitIntroduction.IntroductionSearch.StepFrom | backend/internal/app/git_contribution_introduction.go:110-135 | One step of the walk: a first parent that the memo lacks is one the visit budget ran out on, so the exit that calls it pending is never taken; otherwise the parent decides, is undecided, or is earlier in the search order. |
| GitIntroduction.LocateIntroduction | backend/internal/app/git_contribution_introduction.go:24-138 | Meaning of every result: the one definite introduction, a source absent from a fully known history, evidence that truly does not decide, a spent budget, invalid ids, or a fault in the evidence. Only the source and ancestors of the destination are read, each new one for one read, and a read is refused only when the allowance is used up with one of them unread. |
| GitIntroduction.DefiniteAnswersAreStable | backend/internal/app/git_contribution_introduction.go:47-137 | On a larger acyclic and healthy store a definite answer can only be repeated or replaced by a budget error. |
| GitIntroduction.CompleteEvidenceDecides | backend/internal/app/git_contribution_introduction.go:24-138 | With complete acyclic evidence, and the reads consumed beforehand plus the unread commits of the history within the allowance, a commit is returned if and only if the destination contains the source, and "not found" if and only if it does not. |
| GitIntroduction.AffordedIsRead | backend/internal/app/evidencequery/git_evidence.go:96-133 | If the reads consumed and the unread commits of a region together stay within the allowance, a search that spends reads only there is never refused one. |
| GitRange.LocateInRange | backend/internal/app/git_contribution_introduction.go:140-192 | A returned commit is the introduction into the later head, lies on its first-parent path strictly newer than the baseline, and the baseline lacks the source; each error has its exact meaning; reads are spent only on the source and the histories of the two heads. |
| GitRange.PassesIntroduction | backend/internal/app/git_contribution_introduction.go:158-167 | A walk that reaches a baseline without the source has passed the introduction, so the integrity error there cannot occur. |
| GitRange.SeenTwice | backend/internal/app/git_contribution_introduction.go:168-171 | Meeting a commit twice on the walk shows a cycle in the evidence. |
| GitRange.SoundEvidenceIsNotBlamed | backend/internal/app/git_contribution_introduction.go:140-192 | On acyclic, healthy evidence no integrity or storage error is ever reported. |
| GitAdmission.FreezeExact | backend/internal/app/git_admission_snapshot.go:165-210 | An input is frozen exactly when it holds of the view: current origin and revisions, a publication that carried the source head, which no other branch owns, a source branch still at the captured target, and another, bound destination. |
| GitAdmission.ReuseIsFresh | backend/internal/app/git_admission_snapshot.go:121-151 | A frozen view that passes the fences on generation, origin and revisions is the repository's current view. |
| GitAdmission.PrepareAdmission | backend/internal/app/git_contribution_admission.go:46-89 | A prepared admission matches its baseline receipt, its publication's commit is introduced in the source head, and the source head is absent from the fully known destination; every failure has its reason, and "already present" means reachable. |
| GitAdmission.OutsideExtends | backend/internal/app/git_contribution_admission.go:70-79 | What a prepared admission says about the commit graph stays true as commits are learned. |
| GitContribution.AdmittedExact | backend/internal/app/git_contribution_apply.go:23-38 | The publication of an admission is found exactly when the view still carries the admitted input under the same remote, with the source head owned by no other branch and the head on the destination; whatever could be frozen afresh is found. |
| GitContribution.PrepareContribution | backend/internal/app/git_contribution_apply.go:40-122 | A prepared proof joins a stored admission with a stored head read strictly later in the same scope, records the integrating commit between the two heads, and carries a memory exactly when the publication pins one; a failure means that the two do not join or that a search did not decide. |
| GitContribution.IntegratesMeans | backend/internal/app/git_contribution_apply.go:88-103 | The source is unreachable from the baseline head and reachable from the later one, the heads differ, and the recorded commit is the only introduction. |
| GitContribution.IntegratesExtends | backend/internal/app/git_contribution_apply.go:88-103 | The same facts survive every growth of the commit store. |
| ContributionLedger.Ledger.PersistAdmission | backend/internal/app/git_contribution_admission.go:97-156 | Exactly when an admission is stored or found again; a stored one carries the current watermark, matches its receipt and freezes equal again; anything else leaves the ledger unchanged. |
| ContributionLedger.Ledger.ApplyContribution | backend/internal/app/git_contribution_apply.go:124-199 | Exactly when a proof is stored or found again; a stored one brings contribution, memory, proof and one evidence revision together, a failure nothing. |
| ContributionRuns.InvariantRun | backend/internal/app/git_contribution_apply.go:124-199 | Every reachable state of every run keeps the protocol's invariant, and nothing stored is changed or removed. |
| ContributionRuns.ProofsHold | backend/internal/app/git_contribution_apply.go:66-118 | In every state of every run a proof has baseline read, stamp and proving read in this order, the last strictly later; the source absent at the first head and present at the last; one admission per key and one proof per admission. |
| ContributionRuns.AdmissionIsStamped | backend/internal/app/git_contribution_admission.go:123-155 | The step that stores an admission stamps it with the watermark of that moment, no stored read is newer, and its frozen input holds of the repository at that moment, publication, owner, refs and revisions. |
| ContributionRuns.ProvingReadIsLater | backend/internal/domain/git_contribution_admission.go:114-120 | The read that proves an admission was neither stored nor claimed when the admission was stored. |
| ContributionRuns.ProofIsAtomic | backend/internal/app/git_contribution_apply.go:183-197 | Proofs enter one at a time, each with its contribution, exactly one evidence revision, and a memory exactly when the publication pins one at that moment. |
| ContributionRuns.ProofIsStillAdmitted | backend/internal/app/git_contribution_apply.go:156-182 | When a proof is stored the repository still carries the admitted publication, seen on the source head that no other branch owns. |
| ContributionWork.Claim | backend/internal/adapters/store/postgres_git_contribution_work.go:73-135 | A claim raises version and attempts, sets a lease, and bounds a new pass by the newest bound head. |
| ContributionWork.Run | backend/internal/app/git_contribution_worker.go:64-146 | A run completes a proven job, records what prevented it, examines the next bound head, or resets the pass, which it does exactly when the cursor has reached its end; the saved cursor and status follow from the verdict. |
| ContributionWork.FinishOwn | backend/internal/app/git_contribution_worker.go:64-172 | What a whole run saves, also when it is prevented or its write fails, is taken by the store exactly unless the reset of a pass with a head failed for a reason to wait; a job is completed exactly when the admission is proven and the write succeeded. |
| ContributionWork.LostReset | backend/internal/app/git_contribution_worker.go:133-162 | A finished pass over one head whose reset is not written because something is not found: the record of that is refused. |
| ContributionWorkRuns.InvariantRun | backend/internal/adapters/store/postgres_git_contribution_work.go:73-191 | Over every interleaving of claims, expiring leases, finishes and newly bound heads, the job stays within its pass, versions rise, workers hold different versions, and what is saved under a version stays until the next claim. |
| ContributionWorkRuns.TakeNext | backend/internal/adapters/store/postgres_git_contribution_work.go:73-135 | A claim as the store makes it is a step of such a run. |
| ContributionWorkRuns.OnlyNewestIsSaved | backend/internal/adapters/store/postgres_git_contribution_work.go:154-190 | A worker whose result is saved took the job last: until then it was not taken again, no other result was saved, and what is stored is what it was handed. |
| ContributionWorkRuns.EarlierIsRefused | backend/internal/adapters/store/postgres_git_contribution_work.go:158-160 | A result of a claim that was followed by another is refused whenever it comes, and changes nothing. |
| ContributionWorkRuns.CompletedForGood | backend/internal/adapters/store/postgres_git_contribution_work.go:175-181 | A completed job is proven and is never changed again. |
| ContributionWork.PassExact | backend/internal/app/git_contribution_worker.go:90-99 | A pass consists of every bound head above the stamp and within its bound, in increasing order, once. |
| ContributionWork.FullPass | backend/internal/app/git_contribution_worker.go:90-111 | Runs that all wait, for whatever reason, examine exactly the heads of the pass and then reset it. |
| AdmissionSweep.PairsMember | backend/internal/app/git_admission_batch.go:145-168 | The pairs of a sweep are exactly the publications with a known source head paired with every other branch. |
| AdmissionSweep.PairsDistinct | backend/internal/app/git_admission_batch.go:145-168 | No pair occurs twice in a sweep. |
| AdmissionSweep.FreezeBatch | backend/internal/app/git_admission_batch.go:73-89 | A batch is the first eight publications within the bound, and reports more exactly when there are more. |
| AdmissionSweep.PlanBatch | backend/internal/app/git_admission_batch.go:140-195 | A batch tries at most eight pairs and moves the cursor past exactly those, or resets it when nothing is left; it is discarded exactly when one of its first eight pairs fails before any reaches the limit. |
| AdmissionSweep.RunBatch | backend/internal/app/git_admission_batch.go:38-105 | What was left is what was tried followed by what is left, none of the tried pairs failed, and the cursor grows lexicographically or resets; a discarded batch has a failing pair among those left. |
| AdmissionSweep.Sweep | backend/internal/app/git_admission_batch.go:140-195 | Repeated batches visit every pair exactly once, in order, before the cursor resets; they reset it exactly when none of the sweep's pairs fails, and otherwise stand before one that does. |
| ParticipationSweep.CandidatesExact | backend/internal/app/github_pr_history.go:323-334 | The candidates of a movement are the publications on either of its commits, each once, in increasing order. |
| ParticipationSweep.PairsMember | backend/internal/app/github_pr_history.go:329-360 | A sweep covers exactly the observations with their candidate publications. |
| ParticipationSweep.PairsDistinct | backend/internal/app/github_pr_history.go:329-360 | No pair occurs twice in a sweep. |
| ParticipationSweep.PrepareParticipations | backend/internal/app/github_pr_history.go:279-367 | A call tries at most a hundred pairs of at most a hundred observations, moves the cursor past exactly those, and resets it only when nothing is left; it stops only at a failing pair among the first hundred left. |
| ParticipationSweep.Sweep | backend/internal/app/github_pr_history.go:311-367 | Repeated calls verify every pair exactly once, in order, before the cursor resets; they finish exactly when no pair of the sweep fails. |
| Utf8.TrimPartialRune | backend/internal/app/doc_find.go:301-316 | Cutting a window back yields a valid prefix; a window of valid text that starts at a rune loses fewer than four bytes and ends at a rune boundary. |
| FindText.AllMatchesExact | backend/internal/domain/doc_find.go:215-264 | The reference search reports a position exactly when a rune starts there and the folded pattern matches, with the right end. |
| FindText.AllMatchesIncrease | backend/internal/domain/doc_find.go:237-262 | The reference search reports strictly increasing positions. |
| FindText.BuildFailures | backend/internal/domain/doc_find.go:224-233 | Each entry of the failure table is the longest proper border of its prefix of the pattern. |
| FindText.Advance | backend/internal/domain/doc_find.go:246-251 | Following the table gives the longest border after one more rune. |
| FindText.FindDocText | backend/internal/domain/doc_find.go:215-264 | The matcher with failure table and offset ring returns the first `limit` matches of the reference search, and refuses exactly the invalid requests. |
| FindWindow.BeforeInWindow | backend/internal/app/doc_find.go:317-343 | The matches of a window that start before its frontier are the matches of the whole text there. |
| FindWindow.ResumeAfter | backend/internal/app/doc_find.go:344-351 | A full page followed by a search behind the first rune of its last match loses and repeats nothing. |
| DocFind.ScanTexts | backend/internal/app/doc_find.go:177-213 | What the fields of an event still held is what the page gained followed by what is left at the moved cursor; a bad cursor is refused. |
| DocFind.ScanRawRange | backend/internal/app/doc_find.go:289-359 | The same for one window of a raw range, including matches that straddle windows. |
| DocFind.ScanPublicFields | backend/internal/app/doc_find.go:215-282 | The same for the located public fields of an oversized event. |
| DocFindPaging.ScanRange | backend/internal/app/doc_find.go:90-175 | A page holds what was ahead of its cursor up to the cursor it hands out, which has strictly advanced unless the range is done; refusals are explained. |
| DocFindPaging.FollowCursor | backend/internal/app/doc_find.go:56-88 | Following the cursor to the end collects every match of the range, in order. |
| DocFindPaging.RemainingIncreases | backend/internal/app/doc_find.go:90-175 | The matches of a range are strictly ordered by event, field and byte, so none is delivered twice. |
| DocTurns.PartitionTiles | backend/internal/app/doc_turns.go:105-112 | The turn partition tiles the events contiguously from the end back to the first prompt, and every turn starts at a user event. |
| DocTurns.Classify | backend/internal/app/doc_turns.go:298-342 | A turn is accepted exactly when it is admissible, and reported incomplete exactly when a call is unanswered. |
| DocTurns.OneToOne | backend/internal/app/doc_turns.go:322-341 | An accepted turn is complete if and only if calls and results correspond one to one, each result after its call. |
| HistoryPages.Preflight | backend/internal/app/doc_turns.go:191-201 | The byte preflight accepts a turn exactly when its canonical size fits. |
| HistoryPages.PreflightIsSafe | backend/internal/app/doc_turns.go:249-257 | When encoded events are no shorter than canonical ones, the preflight rejects no turn that the final size test would accept. |
| HistoryPages.HistoryReader.ReadEvent | backend/internal/app/doc_turns.go:117-148 | Bodies are read once each out of one allowance of four mebibytes, never more. |
| HistoryPages.HistoryReader.Affordable | backend/internal/app/doc_turns.go:207-218 | A turn is affordable exactly when its unread bodies fit what is left of the allowance. |
| HistoryPages.HistoryReader.TakeTurn | backend/internal/app/doc_turns.go:179-262 | The turn decides the step: too much ends the page or refuses it, a whole turn is taken, the open newest turn of a projection is omitted, and any other turn is an error. |
| HistoryPages.ReadPage | backend/internal/app/doc_turns.go:85-268 | A page accounts for a stretch of the turn partition, newest first, within its limits and as long as they allow, with a strictly smaller next position; an integrity error names the turn it came to, which is neither too much, nor whole, nor the open newest one, and every other error its cause. |
| HistoryPages.NextAcceptedIff | backend/internal/app/doc_turns.go:165-172 | A next position is accepted as a boundary if and only if no second marker precedes the last turn's prompt. |
| HistoryPages.NextRefused | backend/internal/app/doc_turns.go:152-172 | Two adjacent markers make a page hand out a position that is then refused. |
| HistoryPages.FollowHistory | backend/internal/app/doc_turns.go:174-268 | Successive pages never skip or repeat a turn; every turn handed out is complete and at most the newest is left out, when it is open. A failure is that of the page asked for next, with its cause; a valid index without adjacent markers whose turns can be shown one by one is read to the end. |
| GraphSource.ReplayConcat | backend/internal/app/graph_source_capture.go:113-153 | Folding entries page by page is folding them all. |
| GraphSource.DeltaEqualsBaseline | backend/internal/app/graph_source_capture.go:49-183 | The changes after a checkpoint, replayed on the source at it, give entry for entry the baseline at the new sequence. |
| GraphSource.DeltasCompose | backend/internal/app/graph_source_capture.go:49-183 | Two deltas in a row give what one combined delta gives. |
| GraphCapture.TotalApply | backend/internal/app/graph_source_capture.go:135-148 | The running count of retained bytes is the sum over the retained entries after every put and delete. |
| GraphCapture.TakeEntry | backend/internal/app/graph_source_capture.go:113-153 | An entry is taken exactly when it is well ordered and formed and respects every bound; integrity and limit errors say which. |
| GraphCapture.AllOkOrdered | backend/internal/app/graph_source_capture.go:125-134 | Entries that pass one after another are ordered throughout, by slot in a baseline and by sequence and slot in a delta. |
| GraphCapture.SortImages | backend/internal/app/graph_source_capture.go:165-174 | The result lists exactly the retained entries, in slot order, each once. |
| GraphCapture.Capture | backend/internal/app/graph_source_capture.go:49-183 | The capture succeeds exactly when the earlier checkpoint is valid and the answers up to the first without a cursor are pages that pass, header, cursor and entry by entry, after what the answers before them amount to; it then holds the sorted replay of their entries. A failure names the first answer that is missing or refused. It ends within the row allowance. |
| GraphCapture.CaptureTwice | backend/internal/app/graph_source_capture.go:49-183 | A capture can always be the earlier capture of the next one, and the two in a row succeed exactly when each can be captured. |
| GraphCapture.CapturesConcat | backend/internal/app/graph_source_capture.go:49-183 | Two captures in a row hold what one capture of both their entries holds. |
| GraphCapture.CapturesCompose | backend/internal/app/graph_source_capture.go:49-183 | Over a faithful log two captures in a row hold what one capture up to the same sequence holds. |
| GraphCapture.CaptureIsFaithful | backend/internal/adapters/store/postgres_repository_view_source.go:149-170 | When the pages serve a faithful log, the capture is the source at its checkpoint, from nothing or as a delta alike. |
| HistoryEvents.FindAccepted | backend/internal/app/history_recorder.go:47-55 | The loop finds the first accepted event with an id. |
| HistoryEvents.HasProof | backend/internal/app/history_recorder.go:76-87 | A publication is proven exactly when the log holds its observation. |
| HistoryEvents.ValidateCreationOrigin | backend/internal/domain/git_creation.go:84-101 | A creation origin is accepted exactly when it is another branch with evidence in the log or a legacy identity. |
| HistoryEvents.CausalEvidence | backend/internal/app/history_recorder.go:56-87 | In a causal log every publication has its observation, and every memory selection its one predecessor, strictly earlier. |
| MemoryChain.Walk | backend/internal/app/history_recorder.go:138-159 | The walk over inherited memories ends, because each step adds a stored hash not seen before, and succeeds exactly when a finite verified chain exists. |
| MemoryChain.ChainDistinct | backend/internal/app/history_recorder.go:140-147 | A verified chain never returns to a hash, so refusing a seen hash refuses no valid chain. |
| HistoryStore.ClosureDecides | backend/internal/adapters/store/postgres_history_document_proof.go:89-202 | The rows a capture records decide the verification: rows that agree on them verify the same snapshot. |
| HistoryRecorder.CheckEvidence | backend/internal/app/history_recorder.go:56-87 | The evidence checks pass exactly when predecessor, origin, receipt and observation are in order. |
| HistoryPreflight.TrustedHold | backend/internal/app/history_document_preflight.go:90-105 | While the rows a preparation recorded keep their versions, trusting the snapshots it verified accepts exactly the documents that verify in the writing transaction. |
| HistoryRecorder.VerifyRoots | backend/internal/app/history_recorder.go:105-121 | The loop over roots succeeds exactly when every root is stored and verified now or before. |
| HistoryRecorder.CheckMemory | backend/internal/app/history_recorder.go:122-161 | The memory check passes exactly when memory, owner, digest and inherited chain are in order. |
| HistoryRecorder.Repository.Record | backend/internal/app/history_recorder.go:30-178 | Exactly when an event is acknowledged, what it changes, that an identical replay only wakes followers, that a differing replay is a conflict, and that a refusal changes nothing. |
| HistoryPreflight.Observe | backend/internal/app/history_document_preflight.go:33-56 | The observation reports a replay exactly when the event is accepted, refuses exactly a differing one, and collects the roots of event and predecessor. |
| HistoryPreflight.ObservedRootsLast | backend/internal/app/history_document_preflight.go:41-54 | Once the parent is in the log, the observed roots are those every later write computes. |
| HistoryPreflight.PrepareDocuments | backend/internal/app/history_document_preflight.go:63-85 | The preparation succeeds exactly when every root verifies, and records every row the verification rests on. |
| HistoryPreflight.PreflightRefinesDirect | backend/internal/app/history_document_preflight.go:86-107 | What the prepared write does, the direct write would do at that moment; what it refuses it leaves alone. |
| HistoryPreflight.PreflightMatchesDirect | backend/internal/app/history_document_preflight.go:86-107 | With the prepared rows unwritten and the same roots, both routes have the same outcome. |
| HistoryPreflight.ConcurrentAcceptanceWins | backend/internal/app/history_document_preflight.go:87-92 | An event accepted meanwhile in identical form is acknowledged whatever became of the preparation. |
| HistoryPreflight.InvariantRun | backend/internal/app/history_recorder.go:30-178 | In every run the log keeps unique ids and causal evidence and only grows. |
| HistoryPreflight.PreflightRunRefines | backend/internal/app/history_document_preflight.go:13-108 | Under every interleaving a successful preflight is a direct write at its write point, and a refused one changes nothing. |
| HistoryPreflight.ReplayNeverReapplies | backend/internal/app/history_recorder.go:41-55 | Once accepted, an event is never applied again: later attempts with its id leave the log and every branch alone, and succeed only if identical. |
| GitHubSync.Store.Receive | backend/internal/app/github_worker.go:39-80 | A delivery is stored once, replays must match its kind and body, and a lifecycle event withdraws the grants and moves the generation of exactly its installation's connections. |
| GitHubRuns.ReceiveNext | backend/internal/app/github_worker.go:39-80 | A webhook, new or replayed, keeps the invariant of every run. |
| GitHubRuns.BeginNext | backend/internal/app/github_worker.go:129-149 | Beginning a reconcile keeps the invariant of every run: its lease passes the fence from then on, and that of no other reconcile under way in the namespace does. |
| GitHubSync.Store.FinishReconcile | backend/internal/app/github_worker.go:232-293 | An answer is installed exactly under the fence it was read under, and then replaces the grants by those still eligible. |
| GitHubRuns.FinishNext | backend/internal/app/github_worker.go:232-293 | Ending a reconcile keeps the invariant of every run; it is accepted only from the newest of its namespace, and otherwise the grants stay. |
| GitHubRuns.ClaimNext | backend/internal/app/github_worker.go:420-438 | Claiming a delivery keeps the invariant of every run, under a lease that no other worker holds. |
| GitHubRuns.DeliverNext | backend/internal/app/github_worker.go:446-464 | Finishing a delivery keeps the invariant of every run; it is accepted only while the delivery is not done, becomes done exactly when the work succeeded, and nobody else holds its lease afterwards. |
| GitHubRuns.StaleNeverInstalled | backend/internal/app/github_worker.go:232-293 | A reconcile that installs grants was the newest of its namespace, in an unchanged generation, from its beginning to that moment. |
| GitHubRuns.DoneUnderNewestLease | backend/internal/app/github_worker.go:446-464 | A delivery becomes done only under the last lease it was given. |
| GitHubRuns.DeliveryIsKept | backend/internal/app/github_worker.go:39-52 | In every run a delivery stays done once done, and keeps its kind and body hash under replays. |
| BatchResults.Results.Feed | scripts/test-go-batches.py:91-160 | An event is taken exactly when the events before it allow it, and the fields go on saying what the trace says. |
| BatchResults.Results.Verify | scripts/test-go-batches.py:162-174 | Verification succeeds exactly when the trace is complete. |
| BatchTraces.CheckTrace | scripts/test-go-batches.py:75-174 | A trace is accepted exactly when every event was allowed and the whole is complete. |
| BatchTraces.AcceptedTrace | scripts/test-go-batches.py:91-174 | In an accepted trace each selected test has exactly `count` run-to-outcome blocks, none fails, and only allowed tests are skipped. |
| BatchTraces.RunsAreBlocks | scripts/test-go-batches.py:129-160 | Every run of a test or subtest opens exactly one block. |
| BatchTraces.EndsAreBlocks | scripts/test-go-batches.py:149-158 | Every outcome closes exactly one block. |
| BatchTraces.SubtestsNest | scripts/test-go-batches.py:129-153 | Every block of a subtest lies inside one block of its top-level test. |
| BatchTraces.Bracketed | scripts/test-go-batches.py:107-128 | The package's start is the first event and its pass the last, and neither occurs elsewhere. |
| ChunkReaders.DocChunkReader.Read | backend/internal/app/doc_chunk_range.go:9-49 | A read takes what the cache holds of its range and the rest from the stream. It meets an empty piece exactly when the bytes kept for its first chunk end inside the chunk and before the range; otherwise it succeeds exactly when every further chunk loads rightly, and returns its slice exactly when the bytes held are the stream's. |
| ChunkReaders.RowsAreRight | backend/internal/app/doc_chunk_range.go:9-49 | In any row of calls on a new reader, whatever the store answers, every answer is right until a chunk's bytes fail, and again from the first success that begins outside the chunk at hand: a success is its slice, and a call whose chunks load rightly succeeds. That chunk is one an earlier call touched. |
| ChunkReaders.ReadAll | backend/internal/app/doc_chunk_range.go:9-49 | Requests put to a new reader one after another are such a row. |
| ChunkReaders.TrustedWithoutFailure | backend/internal/app/doc_chunk_range.go:22-38 | Calls none of which failed on a chunk's bytes leave the cache right. |
| ChunkReaders.StaleCacheIsServed | backend/internal/app/doc_chunk_range.go:22-38 | After a load that failed its check, a read at offset 0 returns 7 where the stream has 0. |
| ChunkReaders.StaleCacheIsSpliced | backend/internal/app/doc_chunk_range.go:39-46 | A read across the end of the chunk at hand returns one wrong byte and one right one. |
| ChunkReaders.FailedLoadStarves | backend/internal/app/doc_chunk_range.go:30-43 | After a failed load a read in the chunk at hand fails although the store answers rightly. |
| ChunkReaders.EventRangeReader.Read | backend/internal/app/doc_read.go:100-134 | Whatever was read before, failed or not, a successful read is what the chunks place in the range, and it succeeds when the store answers. |
| ChunkReaders.PlacedIsSlice | backend/internal/app/doc_read.go:100-134 | All ranges are placed exactly as slices of the joined chunks if and only if no chunk is longer than the chunk size and every chunk with bytes behind it has that size. |
| ChunkReaders.UncutChunks | backend/internal/app/doc_read.go:102-133 | With two chunks of one byte each, a read at the chunk size succeeds beyond the end of the joined stream. |
| DocViews.Inherited | backend/internal/app/doc_view.go:364-399 | Skipping pages with equal hashes returns the longest common prefix of the event hashes. |
| DocViews.CommonPrefixMeans | backend/internal/app/doc_view.go:364-399 | The reference comparison returns a common prefix that cannot be extended. |
| DocViews.LegacyView.ReadEntry | backend/internal/app/doc_view.go:320-338 | An entry is what decoding its bytes anew would give, whatever was cached. |
| DocViews.LegacyView.Read | backend/internal/app/doc_view.go:345-350 | A read served from the event at hand equals the uncached read. |
| DocViews.LegacyView.ReadFields | backend/internal/app/doc_view.go:351-360 | Searchable bytes are those at the event's place, given exactly when the place is the recorded one and the event decodes. |

## Left out

- Contexts and cancellation: every operation may also be cancelled; no model has that outcome.
- Search over prepared and displayed text, match previews and the encoding of page selectors.
- Coverage of one history by another before paging, and reading events that fail to decode: bodies are taken to decode as indexed.
- JSON forms, format rules of ids and names, and the format rules of each event kind: an event carries whether it passes them.
- How publications, carried commits and commit owners are gathered from the history, and the renewal of a batch's evidence before it is planned.
- Branch bindings, anchors, witness lists and receipts' observation ids in the Git admission records; the admitted publication is compared by its own fields.
- The store's projection checks on branch bindings and retained tags, apart from the compare-and-set of a branch by an advance: one parameter of the write.
- Supplements to proven contributions, pull request contributions and the provider's page history.
- Repository follow-ups of a reconcile and what applying a delivery does.
- Output, attribute and artifact contents of test events beyond their form.
- ContributionWorkRuns.InvariantRun: when a waiting job is due again is left open; a claim may come at any time.
- ParticipationSweep.Sweep: observations and publications do not change during a sweep.
- AdmissionSweep.Sweep: publications up to the bound and branch heads do not change during a sweep.
- GitHubRuns.StaleNeverInstalled: a worker has at most one reconcile under way, and the clock is non-decreasing.
