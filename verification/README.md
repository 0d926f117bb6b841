# Verified model of the duplicate-detection pipeline

The repository stores uploaded files as *sources* of *documents*, fingerprints every
source, and decides which sources are duplicates of each other. Many workers finalise
sources at the same time, while users add files and administrators approve, reject and
delete documents. This project models that pipeline and the algorithms under it, and
proves what they promise.

## How it is built

* **Algorithms.** `Words` models unsigned 64-bit words as numbers below 2^64, `Fingerprints`
  has the Hamming loop, the four index bands, the score thresholds and the match relation
  `Link`; `SimHash`, `EditDistance`, `Titles` and `Notes` have the token vote, the two-row
  edit distance, the greedy title alignment and the note log. Each loop of the source is a
  method with a loop, proved against a function; the lemmas are about that function.
  `Alignments` compares the greedy alignment with the largest matchings of `Bipartite`;
  `Scores` says what words, alignments and scores mean, `NoteTexts` what clamping and merging
  keep of a text, and `Likeness` what makes two files match: equal bytes, or agreeing page
  counts and wordings or hashes that differ in at most one bit.
* **Stateful components.** `LoginGates` (sliding-window login throttle) and `CacheLocks`
  (reference-counted lock per cached path) are classes whose methods state their whole new
  state, plus a model of all runs, respectively of all interleavings of any number of
  clients.
* **Atomic transactions.** `Tables` gives the five tables as a value `Db` and every
  transaction as a function on it. `Searches` shows that the three searches, their merge
  and the confidence filter compute exactly the relation `Link`. `Invariants` and
  `Preservation` prove one invariant `Inv` for every transaction; `Runs` and `Histories`
  draw the consequences for whole runs, `OrderMatters` shows what does depend on the order.
  `Effects` states what each transaction changes, field by field, and when it is refused.
* **The repository object.** `Matches` and `Repositories` hold the same transactions as
  code that updates tables in place: class `Repo` with one field per table, loops over rows
  and matches, rollback on a constraint violation. Every method is proved equal to the
  function of `Tables`, so the theorems about runs apply to it.
* **The locking protocol.** `LockKeys` computes the advisory lock keys. `Protocol` is the
  step system: transactions in flight, each with a stage, the locks it holds and what its
  statements returned; `Stability` and `Interleavings` prove what every step keeps.
  `Serializability` shows that every interleaving has the effect of its committed
  transactions run one after the other in commit order. `Deadlocks` shows that some
  transaction can always move and that every schedule brings all of them to their end;
  `Collisions` says for every numbering of the locks exactly when they can block each other.
  `SimilarLocks` is the step system of the title-similarity transactions.
* **What users see.** `Contents` restates pairs, roles and holds by file contents and upload
  times, and `Reviews` statuses, approvals and reports by the sources of a document, for
  every run and every interleaving.

## Assumptions

* READ COMMITTED isolation: each statement sees what is committed when it starts; a
  transaction's own writes become visible at its commit, in one step.
* Advisory locks and row locks are held to commit or rollback. The number of an advisory
  lock is an arbitrary function of its key: safety is proved for every such function,
  deadlock freedom as long as the different keys in flight have different numbers.
* The transactions other than finalisation are short, so the finalisation protocol lets each
  happen in one step, once the rows it locks are free. Adding files, approving, rejecting and
  deleting lock their document row first; replacing title similarities locks no document row
  but advisory locks of its own and source rows, and has its own step system in
  `SimilarLocks`.
* New rows have ids never used before (UUIDs). Ids are numbers here; their order stands for
  the order of the text form of the UUIDs.
* A source has one upload time, the same in memory and in the database.
* Whether a document's owner is missing or an administrator (`trusted`) does not change.
* SHA-256, the perceptual hash and the token hash are opaque: fingerprints are inputs, and a
  well-formed one is what reading a file can yield. Scores are real numbers.
* Whitespace and control characters are classified by two predicates in `Unicode`.
* The clock of the login gate is a parameter that never goes backwards.

## Where the code differs from what one might expect

* The result of hashing is independent of the order of hash jobs in roles, scores and pairs
  (`Runs.Confluence`), but not in the review hold: a source finalised before its
  earlier-uploaded match is released and stays released when it later becomes a duplicate.
  `OrderMatters.OrderDecidesReview` gives the two orders, `Histories.HeldExactly` the exact
  condition under which a source is held.
* `rejected` is not final: adding files sets the document to `processing`.
  `OrderMatters.RejectedIsNotFinal` reaches such a document, `Histories.RejectedIffNotRevived`
  says exactly when a document stays rejected.
* `InsertSources` with an empty list sets a finished document to `processing`
  (`Preservation.InsertSourcesKeepsIff` says exactly when the invariant breaks); the service
  refuses the empty list first (internal/documents/service.go:221-223), and runs contain the
  guarded transaction.
* The login gate is exact for the one fixed window that its only caller uses
  (internal/httpapi/auth.go:64, `LoginGates.AllowIsExact`). For windows of different width
  `LoginGates.AllowExactIff` gives the exact condition: an earlier `Allow` may drop a failure
  that a wider look would count, by filtering its own key or by sweeping any key;
  `LoginGates.SweepOfAnotherKeyForgets` is a run on which it does.
* Greedy title alignment is not optimal, only within a factor of two
  (`Alignments.GreedyIsHalfOptimal`). On "train brain" and "train trail" it matches one word,
  which scores 0, though both words can be matched (`Alignments.TrainBrain`); it is optimal if
  and only if no augmenting path is left (`Alignments.OptimalIffNoneAugmenting`).

## Model

| member | source | states |
|---|---|---|
| Serializability.ExecIsSerial | internal/documents/repo_fingerprint.go:46-292 | For every interleaving and every numbering of the advisory locks, the committed tables are those of running the committed transactions one after the other, in commit order. |
| Serializability.NoInterleavingLosesDuplicates | internal/documents/repo_fingerprint.go:20-208 | In every interleaving, two different living finalised sources are recorded as a pair, in both directions, if and only if their fingerprints match. |
| Contents.PairsInInterleavings | internal/documents/repo_fingerprint.go:165-208 | In every interleaving the recorded pairs are exactly the different living finalised sources whose files are alike by bytes, or by pages and wording or hash bits, with the grade and kind that their contents give. |
| Contents.PairsOfRun | internal/documents/repo_fingerprint.go:165-208 | So they are after every run. |
| Contents.RolesOfTwinsInInterleavings | internal/documents/repo_fingerprint.go:159-208 | In every interleaving, removals included, of two living finalised sources with alike files the one uploaded later, or under the larger id, is a duplicate, neither is unique, and both score at least their grade. |
| Contents.RolesInInterleavings | internal/documents/repo_fingerprint.go:159-208 | In every interleaving without removals a source is unique exactly without a living source with an alike file, a duplicate exactly with an earlier one, and its score is the best grade. |
| Contents.RolesOnlyGrow | internal/documents/repo_fingerprint.go:186-205 | Over every run, as long as a source exists, a duplicate stays one, an original does not become unique, and its score does not fall. |
| Serializability.InterleavingsConverge | internal/documents/repo_fingerprint.go:159-208 | Two interleavings without removals that end with the same finalised files agree on every role, score and pair. |
| Serializability.InterleavingsStayInBounds | internal/documents/repo.go:268-310 | Under one fixed limit no interleaving gives a document more sources than it. |
| Serializability.StatusInEveryInterleaving | internal/documents/repo_fingerprint.go:227-262 | In every interleaving a rejected document has no sources; any other is processing exactly with an unhashed source, else pending review exactly with an unreleased duplicate, else grouped exactly with a duplicate or an original, else completed. A shareable one hides neither an unhashed nor a held source. |
| Serializability.LocksAreExclusive | internal/documents/repo_fingerprint.go:52-114 | Two transactions in flight never hold the same advisory lock number, the same document row or the same source row. |
| Serializability.HoldsSurviveInterleaving | internal/documents/repo_fingerprint.go:210-225 | Through any further interleaved steps a held duplicate stays a held duplicate, and no other finalised source becomes one, until its own document is approved, rejected or deleted. |
| Serializability.HeldExactlyInInterleavings | internal/documents/repo_fingerprint.go:186-225 | In every interleaving, from the commit of its finalisation until a decision on its document, a source is held exactly when its owner is not trusted and an earlier-uploaded match had been finalised before that commit. |
| Contents.HeldInInterleavings | internal/documents/repo_fingerprint.go:210-225 | The same, by contents: it is an unreleased duplicate exactly when its owner is not trusted and an earlier-uploaded source with an alike file was finalised before that commit. |
| Contents.HeldOfRun | internal/documents/repo_fingerprint.go:210-225 | So it is over every run, until a decision on its document. |
| Serializability.IndexIsExactInInterleavings | internal/documents/repo_fingerprint.go:334-396 | In every interleaving, for every distance bound below the number of bands, the band lookup with the distance filter returns exactly what a scan over all stored hashes returns. |
| Serializability.RejectedIffNeverRevived | internal/documents/repo.go:268-310 | A rejected document stays rejected through an interleaving if and only if no step of it deletes the document or adds files to it that pass every check. |
| Serializability.OneReportInInterleavings | internal/documents/repo_fingerprint.go:264-288 | In every interleaving, as long as a document is not uploaded, extended or approved again, at most one finalisation reports it, and none when it was not waiting; exactly one when it was waiting and is neither deleted nor waiting any more; and without an approval it waits only while it is processing. |
| Serializability.StepWaits | internal/documents/repo_fingerprint.go:264-288 | A step that reports a document finds it waiting, ends the wait, and never happens while the document is processing; only uploads, extensions and approvals begin a wait, and they always do; only a report or a deletion ends one; without an approval only processing documents wait. |
| Reviews.CommitReports | internal/documents/repo_fingerprint.go:264-288 | In every interleaving a commit reports exactly the waiting documents it locked that are not processing afterwards; it has locked its own and those of all living sources that share bytes, wording or picture with its file, whatever their pages. |
| Reviews.HashReports | internal/documents/repo_fingerprint.go:264-288 | A finalisation that writes reports exactly the waiting documents it touches that are not processing afterwards; nothing else it does ends a wait. |
| Reviews.WaitsInInterleavings | internal/documents/repo_fingerprint.go:264-288 | In every interleaving without an approval of it, a document that is not processing any more has been reported. |
| Interleavings.ExecOk | internal/documents/repo_fingerprint.go:46-292 | Every reachable state of the step system satisfies the table invariant, has exclusive locks, and each transaction's search results are, among the living sources, what its searches would find now. |
| Interleavings.Unrelated | internal/documents/repo_fingerprint.go:20-56 | Two transactions past their advisory locks have fingerprints neither of whose searches could find the other. |
| Interleavings.CommitIsAtomic | internal/documents/repo_fingerprint.go:110-262 | When a transaction that searched, locked, rechecked and filtered step by step commits, it writes exactly what the atomic transaction would write in that state. |
| Interleavings.RowsUnderDocs | internal/documents/repo_fingerprint.go:93-116 | Every source row a transaction wants, its own and those of its living candidates, lies under a document row it holds once it holds them all. |
| Interleavings.RowsApart | internal/documents/repo_fingerprint.go:110-149 | Two transactions that hold all their documents never want the same existing source row. |
| Interleavings.OtherHarmless | internal/documents/repo.go:268-343 | No other transaction permitted by the row locks removes a source that a rechecked finalisation relies on or changes its fingerprint. |
| Deadlocks.NoDeadlock | internal/documents/repo_fingerprint.go:42-149 | In every interleaving with transactions in flight whose different keys have different lock numbers, one of them can take its next step; advisory locks, document rows and source rows are all waited for. |
| Deadlocks.RowsAreGranted | internal/documents/repo_fingerprint.go:110-149 | The source rows that the recheck and the filter lock are never held by another transaction. |
| Deadlocks.EveryScheduleEnds | internal/documents/repo_fingerprint.go:46-292 | From every reachable state whose different keys in flight have different lock numbers, the number of own steps of the transactions in flight is bounded, however they are scheduled, and wherever none of them can go on all have ended and every existing source that was being finalised is finalised. |
| Deadlocks.EverybodyFinishes | internal/documents/repo_fingerprint.go:46-292 | From every such state there is a schedule of own steps, each possible in its turn, without an abort, after which nothing is in flight and every existing source that was being finalised is finalised. |
| Deadlocks.CanBeFinalised | internal/documents/repo_fingerprint.go:46-292 | From every reachable state, whatever else is in flight, the finalisation of an existing source can be begun and brought to its end, if its keys and those in flight have no colliding lock numbers. |
| Deadlocks.BlockerWantsMore | internal/documents/repo_fingerprint.go:42-109 | Whoever blocks a waiting transaction and waits itself, waits for a lock that comes later in the global order: keys in string order, then documents by id. |
| Collisions.DeadlockIffTangle | internal/documents/repo_fingerprint.go:42-56 | For every numbering of the advisory locks, a state in which nobody can move is reachable if and only if some fingerprints have key lists that tangle: each holds a first part of its sorted keys, no number is held twice, and each needs next a number that another one holds. |
| Collisions.CrossedKeysDeadlock | internal/documents/repo_fingerprint.go:42-56 | For every numbering and any two fingerprints, one collision each way between the next key of one and a held key of the other makes a deadlock reachable. |
| LockKeys.FingerprintLockKeys | internal/documents/repo_fingerprint.go:20-44 | The key loop builds the keys of the fingerprint in ascending order. |
| LockKeys.RelatedShareKey | internal/documents/repo_fingerprint.go:20-44 | Two well-formed fingerprints of which one search could find the other have a lock key in common. |
| LockKeys.LinkedShareKey | internal/documents/repo_fingerprint.go:20-44 | Two matching fingerprints have a lock key in common. |
| LockKeys.ShareKeyIff | internal/documents/repo_fingerprint.go:20-44 | Two fingerprints have a lock key in common exactly when they have the SHA-256, the wording or one band of the same kind of nonzero hash in common, so that files with nothing in common never wait for each other. |
| LockKeys.SortSorted | internal/documents/repo_fingerprint.go:42 | Sorting yields the same keys, each as often, in ascending order. |
| Stability.CandidatesStable | internal/documents/repo_fingerprint.go:67-91 | As long as no related source becomes hashed, the candidates found earlier, restricted to the living sources, are the candidates of now. |
| Runs.RunInv | internal/documents/repo_fingerprint.go:46-292 | Every run of transactions keeps the whole invariant: exact pairs, exact index, consistent roles, derived statuses, symmetric similarities, settled notes. |
| Runs.NoLostDuplicate | internal/documents/repo_fingerprint.go:165-208 | After every run a pair is recorded exactly for matching living finalised sources, in both directions and with the score and kind of the match. |
| Runs.PairRoles | internal/documents/repo_fingerprint.go:165-208 | After every run, removals included, the later-uploaded member of a pair is a duplicate and both scores are at least that of the pair. |
| Runs.RolesByPairs | internal/documents/repo_fingerprint.go:159-208 | Without removals a source is unique exactly when it has no pair, a duplicate exactly when a paired source was uploaded earlier, and its score is the best of its pairs. |
| Runs.Confluence | internal/documents/repo_fingerprint.go:159-208 | Without removals roles, scores and pairs depend only on the fingerprints and upload times, not on the order of the transactions. |
| Runs.StatusIsDerived | internal/documents/repo_fingerprint.go:227-262 | After every run a rejected document has no sources; any other is processing exactly with an unhashed source, else pending review exactly with an unreleased duplicate, else grouped exactly with a duplicate or an original, else completed with unique sources only. |
| Runs.SimilarIsSymmetric | internal/documents/repo_title_similar.go:214-262 | After every run title similarities come in mirror images with equal scores in 0..1, never between a source and itself, and only between living sources. |
| SimilarLocks.ReplaceIsAtomic | internal/documents/repo_title_similar.go:214-262 | In every interleaving of the locking, touching, deleting and writing steps of any number of replacements, with sources added and removed in between, a commit has exactly the effect of the atomic transaction. |
| SimilarLocks.SymmetricInEveryInterleaving | internal/documents/repo_title_similar.go:214-262 | In every such interleaving the committed similarities are mirror images with equal scores in 0..1 between two different existing sources. |
| SimilarLocks.NoDeadlock | internal/documents/repo_title_similar.go:214-228 | In every such interleaving with replacements in flight whose different sources have different lock numbers, one of them can take its next step. |
| Runs.IndexIsExact | internal/documents/repo_fingerprint.go:334-396 | After every run, for every distance bound below the number of bands, the band lookup with the distance filter returns exactly what a scan over all stored hashes returns. |
| Histories.HeldExactly | internal/documents/repo_fingerprint.go:186-225 | From its finalisation until a decision on its document, a source is held exactly when its owner is not trusted and an earlier-uploaded match had been finalised before it. |
| Histories.OneReportBetween | internal/documents/repo_fingerprint.go:264-288 | Over every run, as long as a document is not uploaded, extended or approved again, at most one finalisation reports it, and none when it was not waiting; exactly one when it was waiting and is neither deleted nor waiting any more; and without an approval it waits only while it is processing. |
| Histories.ReportsArePaidFor | internal/documents/repo_fingerprint.go:264-288 | Over every run a document is reported at most as often as it was uploaded, extended or approved. |
| Histories.WaitStep | internal/documents/repo_fingerprint.go:264-288 | A finalisation reports a document only if it was waiting, ends the wait, and never while the document is processing; only uploads, extensions and approvals begin a wait, and they always do; only a report or a deletion ends one; without an approval only processing documents wait. |
| Histories.NeverTooMany | internal/documents/repo.go:268-310 | Under one fixed limit no run of transactions gives a document more sources than it. |
| Histories.NoteOnlyGrows | internal/documents/repo.go:268-310 | As long as a document exists, every later review note starts with the earlier one. |
| Histories.RejectedStep | internal/documents/repo.go:268-310 | A transaction takes a document out of rejection if and only if it deletes it or adds a non-empty list of new files that stays within the limit. |
| Histories.RejectedIffNotRevived | internal/documents/repo.go:268-310 | A rejected document stays rejected through a run if and only if no step of it is such a transaction. |
| OrderMatters.OrderDecidesReview | internal/documents/repo_fingerprint.go:210-223 | The same transactions in two orders leave one document waiting for review in one and finished in the other. |
| OrderMatters.RejectedIsNotFinal | internal/documents/repo.go:268-310 | A run reaches a rejected document that is processing again after a file is added. |
| Searches.SearchesFindLinks | internal/documents/repo_fingerprint.go:67-91 | The merged and filtered searches return exactly the sources that match by the declarative relation, each with the score and kind of the match. |
| Searches.NearHitsExact | internal/documents/repo_fingerprint.go:334-396 | In a state whose index holds exactly the bands of the stored hashes, the band lookup with the distance filter misses nothing and adds nothing. |
| Effects.CandidatesResemble | internal/documents/repo_fingerprint.go:67-91 | The searches together find exactly the living finalised sources that share bytes, wording or picture with the file, before any page rule. |
| Searches.ExactAgrees | internal/documents/repo_fingerprint.go:412-431 | An exact hit is kept as it is by the merge, whatever the later searches found. |
| Invariants.FinalInv | internal/documents/repo_fingerprint.go:110-262 | A finalisation that holds at least the documents of its source and matches keeps the whole invariant. |
| Invariants.FinalPaired | internal/documents/repo_fingerprint.go:197-206 | After a finalisation exactly the old pairs and those between the new source and its matches are due, with the scores of the matches. |
| Preservation.CreateKeeps | internal/documents/repo.go:244-266 | Creating a document, or failing to, keeps the invariant. |
| Effects.CreateOutcome | internal/documents/service.go:163-200 | A document is created exactly when it has files, no more than the limit, under a label and ids not in use; otherwise the first violated rule is the error and nothing changes. |
| Effects.CreateEffect | internal/documents/repo.go:244-266 | The created document is processing and waits to be reported, with its label, owner and note log; its files are unhashed and released; no other row changes. |
| Reviews.OneDocumentPerLabel | internal/documents/repo.go:244-254 | After every run no two documents share an ERP label. |
| Reviews.LabelsInInterleavings | internal/documents/repo.go:244-254 | So it is in every interleaving. |
| Preservation.AddSourcesKeeps | internal/documents/service.go:213-236 | Adding files behind the checks of the service, or failing to, keeps the invariant. |
| Effects.AddOutcome | internal/documents/service.go:213-236 | Files are added exactly to an existing document, when there are some, it holds at most the limit afterwards and no id is in use; otherwise nothing changes. |
| Effects.AddEffect | internal/documents/repo.go:268-310 | The document is processing and waits to be reported again, with the clamped note as a further line of its log; the files are unhashed and released; no other row changes. |
| Preservation.InsertSourcesKeepsIff | internal/documents/repo.go:268-310 | Inserting sources without those checks breaks the invariant if and only if the list is empty, the document exists with no more sources than the limit, and none of them is unhashed. |
| Effects.InsertOutcome | internal/documents/repo.go:268-310 | The unguarded insertion is accepted exactly for an existing document that holds at most the limit, or four, afterwards, with no id in use. |
| Preservation.ApproveKeeps | internal/documents/repo.go:546-581 | Approval, whose status update is written separately from that of finalisation, keeps the invariant, by which the new status is again the one the sources deserve. |
| Effects.ApproveEffect | internal/documents/repo.go:546-581 | Approval is refused exactly for missing documents and those not pending review. Otherwise it releases every source of the document, ends the pending status, makes the document wait for a report, and changes nothing else. |
| Reviews.ApprovalOfRun | internal/documents/repo.go:546-581 | After every run, approving a document pending review leaves it grouped, with all sources hashed and released, waiting to be reported. |
| Reviews.ApprovalLasts | internal/documents/repo.go:546-581 | No source that an approval found is held again until the next decision on the document. |
| Reviews.ApprovalInInterleavings | internal/documents/repo.go:546-581 | Both hold in every interleaving. |
| Preservation.RejectKeeps | internal/documents/repo.go:586-628 | Rejection with its cascading deletes keeps the invariant. |
| Effects.RejectEffect | internal/documents/repo.go:586-628 | Rejection is refused exactly for missing documents and those not pending review. Otherwise the document is rejected, its sources are gone with every row that refers to them, and nothing else changes. |
| Preservation.DeleteKeeps | internal/documents/repo.go:312-343 | Deletion with its cascading deletes keeps the invariant. |
| Effects.DeleteEffect | internal/documents/repo.go:312-343 | Deletion is refused exactly for missing documents. Otherwise the document and its sources are gone with every row that refers to them, and nothing else changes. |
| Preservation.ReplaceSimilarKeeps | internal/documents/repo_title_similar.go:214-262 | Replacing title similarities, or failing to, keeps the invariant. |
| Effects.ReplaceEffect | internal/documents/repo_title_similar.go:214-262 | The replacement is refused exactly when one of the first hundred hits names a missing source or a score outside 0..1. Otherwise the source is similar to exactly the other sources among them, in both directions with the last score, and nothing else changes. |
| Preservation.WrittenMeaning | internal/documents/repo_title_similar.go:236-259 | After the write loop the source is similar to exactly the other sources that were hit, in both directions with the score of the last hit; pairs of other sources are untouched. |
| Matches.MergeMatches | internal/documents/repo_fingerprint.go:412-431 | The in-place merge yields one entry per source and stands for folding the new matches into the old ones. |
| Matches.MergeAllIsBest | internal/documents/repo_fingerprint.go:412-431 | Every source offered to a merge gets one entry, which is one of the offers and beaten by none. |
| Matches.MergeAllIsMerge | internal/documents/repo_fingerprint.go:412-431 | Merging a search result into a set of hits is the pointwise merge that keeps the strictly better hit. |
| Matches.LivingMatches | internal/documents/repo_fingerprint.go:433-469 | The filter loop keeps exactly the matches whose source row is still there. |
| Matches.ConfidentMatches | internal/documents/repo_fingerprint.go:534-545 | The filter loop keeps exactly the exact matches from 99.9 on, and the others from 98 on whose page counts are known and equal, or one apart from eight on. |
| Matches.Best | internal/documents/repo_fingerprint.go:166-171 | The loop returns a score that some match has and none exceeds. |
| Matches.SourceRole | internal/documents/repo_fingerprint.go:172-178 | The loop returns duplicate exactly when some match was not uploaded after the new source. |
| Repositories.Repo.QueryExact | internal/documents/repo_fingerprint.go:294-307 | The rows scanned are exactly the other sources with that SHA-256, once each. |
| Repositories.Repo.QueryTextExact | internal/documents/repo_fingerprint.go:309-332 | The rows scanned are exactly the other sources with that text hash, once each. |
| Repositories.Repo.QueryLsh | internal/documents/repo_fingerprint.go:334-396 | The band lookup and the scan with its distance filter return the near hits, once each. |
| Repositories.Repo.FindMatches | internal/documents/repo_fingerprint.go:67-91 | The chain of searches and merges lists the candidates, once each. |
| Repositories.Repo.ReplaceLsh | internal/documents/repo_fingerprint.go:471-497 | Afterwards the index rows of the source are the bands of its hash, and no other row has changed. |
| Repositories.Repo.InsertDup | internal/documents/repo_fingerprint.go:499-511 | One pair is inserted, or keeps the higher of two scores with its kind; no other pair changes. |
| Repositories.Repo.WriteRoles | internal/documents/repo_fingerprint.go:159-208 | The row loop writes the new source's role and best score, every match's role and score, and both pairs of each match, and nothing else. |
| Repositories.Repo.Release | internal/documents/repo_fingerprint.go:210-225 | Only the source itself is touched; it is held exactly when it is a duplicate of an untrusted owner. |
| Repositories.Repo.SettleDocuments | internal/documents/repo_fingerprint.go:227-288 | Each touched document gets the status its sources deserve unless rejected; reported, and marked so, are exactly the touched ones without a mark that are not processing. |
| Repositories.Repo.FinalizeFingerprint | internal/documents/repo_fingerprint.go:46-292 | Run on its own, the whole method has the effect of the atomic transaction, with its error, its role and the touched documents in ascending order; reported, and marked so, are exactly the touched ones without a mark that are not processing. |
| Repositories.Repo.InsertDocument | internal/documents/repo.go:244-266 | Either the document and all its files are inserted, or a clash is reported and nothing has changed. |
| Repositories.Repo.Create | internal/documents/service.go:163-200 | The limits, the review note and the insertion together have the effect of the atomic transaction. |
| Repositories.Repo.InsertSources | internal/documents/repo.go:268-310 | Inserting files has the effect of the atomic insertion, including its errors, which leave nothing behind; an empty list is accepted. |
| Repositories.Repo.AddSources | internal/documents/service.go:213-236 | The checks of the service and the insertion together have the effect of the atomic transaction, including its errors. |
| Repositories.Repo.Approve | internal/documents/repo.go:546-581 | Approval is refused for missing documents and those not pending review; otherwise it releases every source of the document, ends the pending status and the mark, and changes nothing else. |
| Repositories.Repo.RejectPending | internal/documents/repo.go:586-628 | Rejection is refused for missing documents and those not pending review; otherwise the document is rejected, its sources are gone with every row that refers to them, and nothing else changes. |
| Repositories.Repo.Delete | internal/documents/repo.go:312-343 | Deletion is refused for missing documents; otherwise the document and its sources are gone with every row that refers to them, and nothing else changes. |
| Repositories.Repo.ReplaceSimilar | internal/documents/repo_title_similar.go:214-262 | The delete and the write loop have the effect of the atomic transaction; a constraint violation undoes everything. |
| Fingerprints.Hamming | internal/fingerprint/util.go:88-96 | The loop that clears the lowest set bit terminates and counts the differing bits. |
| Likeness.DistanceCounts | internal/fingerprint/util.go:88-96 | The distance is the number of bit positions at which the hashes differ. |
| Fingerprints.BandsRebuild | internal/fingerprint/util.go:98-105 | The four bands are 16-bit values from which the hash can be rebuilt. |
| Fingerprints.DistanceIsBandSum | internal/fingerprint/util.go:88-105 | The distance of two hashes is the sum of the distances of their four bands. |
| Fingerprints.NearShareBand | internal/fingerprint/util.go:88-105 | Hashes closer than the number of bands agree on a whole band. |
| Fingerprints.ThresholdIsOneBit | internal/fingerprint/util.go:107-145 | The score thresholds accept exactly the distances the searches allow. |
| Fingerprints.LinkSymmetric | internal/fingerprint/util.go:107-145 | Whether two files match, with which score and kind, does not depend on which comes first. |
| Fingerprints.LinkScores | internal/fingerprint/util.go:107-145 | Matches score between 98 and 100, exact ones are those of equal SHA-256, and 100 is reached exactly by equal hashes. |
| Likeness.LinkMeaning | internal/fingerprint/util.go:107-145 | Two well-formed fingerprints match exactly when they have the same SHA-256, or their known page counts are equal, or one apart from eight on, and they are texts with the same wording or nonzero hashes at most one bit apart, or pictures with nonzero hashes at most one bit apart; with the score and kind that follow. |
| Likeness.FilesMatch | internal/fingerprint/analyze.go:40-109 | From the files: two match exactly when they have the same bytes, or are documents with 800 runes, 96 words and 80 runes a page that agree in pages and text, or pictures at most one bit apart. |
| Fingerprints.AnalyzeIsWellFormed | internal/fingerprint/analyze.go:40-109 | Whatever a file contains, its fingerprint is a text or a visual one, never both, and carries no stray hashes. |
| SimHash.SimHash64 | internal/fingerprint/simhash.go:7-32 | The nested counting loops and the assembly of the bits compute the signature of the token votes. |
| SimHash.MajorityVote | internal/fingerprint/simhash.go:7-32 | A bit is set exactly when at least half of the non-empty tokens hash with it set. |
| SimHash.OrderIrrelevant | internal/fingerprint/simhash.go:7-32 | Permuting the tokens does not change the signature. |
| SimHash.RepetitionIrrelevant | internal/fingerprint/simhash.go:7-32 | Repeating a token list that is long enough does not change the signature. |
| EditDistance.Levenshtein | internal/titlesim/sim.go:172-205 | The two-row table that swaps its rows computes the recursive edit distance. |
| EditDistance.LevIsShortestScript | internal/titlesim/sim.go:172-205 | The distance is the length of a shortest script of insertions, deletions and substitutions. |
| EditDistance.LevZero | internal/titlesim/sim.go:172-205 | The distance is zero exactly for equal words. |
| EditDistance.LevSymmetric | internal/titlesim/sim.go:172-205 | The distance is symmetric. |
| EditDistance.LevTriangle | internal/titlesim/sim.go:172-205 | The distance satisfies the triangle inequality. |
| EditDistance.LevBounds | internal/titlesim/sim.go:172-205 | The distance lies between the difference of the lengths and the longer length. |
| Titles.WordScoreRange | internal/titlesim/sim.go:134-170 | Word scores are symmetric, lie in 0..1 and are 1 exactly for equal words. |
| Scores.CompatibleIff | internal/titlesim/sim.go:134-170 | Different words agree exactly when both have four letters and some edit script takes at most one edit in five letters of the longer word. |
| Scores.WordScoreMeaning | internal/titlesim/sim.go:134-170 | The score of different words is 0 below four letters, else the share of the longer word that a shortest script leaves alone. |
| Titles.Align | internal/titlesim/sim.go:109-132 | The greedy loops mark exactly the words of the alignment and count its pairs. |
| Titles.AlignmentSound | internal/titlesim/sim.go:109-132 | The alignment pairs only compatible words and gives out no word twice. |
| Scores.AlignmentIsGreedy | internal/titlesim/sim.go:109-132 | Each word in turn takes the first of the best words that are still free and agree with it, and none only when there is none. |
| Titles.AlignmentMaximal | internal/titlesim/sim.go:109-132 | No compatible pair is left with both words unmatched. |
| Titles.SidesAgree | internal/titlesim/sim.go:109-132 | As many words are marked on the left as on the right. |
| Alignments.GreedyIsHalfOptimal | internal/titlesim/sim.go:109-132 | Twice the number of greedy pairs is at least the size of any matching of compatible words. |
| Alignments.OptimalIffNoneAugmenting | internal/titlesim/sim.go:109-132 | No matching of compatible words is larger than the greedy one if and only if no path that alternates between compatible pairs outside and inside the greedy matching leads from an unmatched word on the left to an unmatched word on the right. |
| Alignments.NotCrookedIsOptimal | internal/titlesim/sim.go:109-132 | Greedy is optimal whenever words on the left that share a compatible word on the right share all of them. |
| Alignments.GreedyCanLose | internal/titlesim/sim.go:109-132 | Greedy pairs a word with its twin and finds one pair where two are possible, whenever each of the other two words was compatible only with that twin. |
| Alignments.TrainBrain | internal/titlesim/sim.go:58-132 | The titles "train brain" and "train trail" score 0, although both words of each can be matched. |
| Bipartite.LargestIffNoneAugmenting | internal/titlesim/sim.go:109-132 | The reference the alignment is measured by: a matching is a largest one if and only if no augmenting path leads out of it. |
| Titles.Tokens | internal/titlesim/sim.go:58-68 | The loop keeps exactly the words that are no stopwords, in order. |
| Scores.TokensSplit | internal/titlesim/sim.go:58-68 | White space separates: the tokens of a title are those of the parts around it, in order. |
| Scores.TokensOfWord | internal/titlesim/sim.go:58-68 | A word without white space is its own token unless it is a stopword. |
| Titles.ScoreNorm | internal/titlesim/sim.go:76-100 | The score, with all its early exits, is the Dice score of the alignment and lies in 0..1. |
| Scores.ScoreCounts | internal/titlesim/sim.go:76-100 | The score times the number of content words of both titles is the number of words matched on the left plus those on the right. |
| Scores.ScoreIsOne | internal/titlesim/sim.go:76-100 | Different titles score 1 exactly when both have eight runes, two words are matched, and every content word of both is matched. |
| Scores.ScoreIsZero | internal/titlesim/sim.go:76-100 | The score is 0 exactly for an empty title, and for different titles one of which has fewer than eight runes or that have fewer than two words matched. |
| Titles.WordOrderIrrelevant | internal/titlesim/sim.go:76-132 | Titles whose content words are permutations of each other score 1 when they are equal or pass the rune and word minimums, and 0 otherwise. |
| Notes.ClampNote | internal/documents/stats.go:15-50 | The rune loop computes the clamped note: trimmed, control-free, single-spaced and cut at 500 runes. |
| Notes.ClampIsClean | internal/documents/stats.go:15-50 | A clamped note has at most 500 runes, no control characters, no surrounding whitespace and no two spaces in a row. |
| Notes.ClampIdempotent | internal/documents/stats.go:15-50 | Clamping a clamped note changes nothing. |
| NoteTexts.VisibleKept | internal/documents/stats.go:15-50 | Clamping keeps the runes that show, in order: a first part of them, and all of them when there are at most 500 runes. |
| NoteTexts.LongIsCut | internal/documents/stats.go:15-50 | A clean text of more than 500 runes is cut after 500. |
| NoteTexts.BreakIsSpace | internal/documents/stats.go:15-50 | A line break or a tab anywhere counts as a space. |
| NoteTexts.SpacesCollapse | internal/documents/stats.go:15-50 | Two spaces anywhere count as one. |
| NoteTexts.ControlGoes | internal/documents/stats.go:15-50 | Any other control character between two runes that are no white space goes. |
| Notes.MergeNoteLog | internal/documents/stats.go:52-85 | The loops with their map and counter compute the log of the chunks. |
| Notes.LogShape | internal/documents/stats.go:52-85 | A log has at most 4000 runes and consists of the distinct non-empty clamped lines offered: all of them, or as many of the first as fit, so that one more would exceed the bound. |
| Notes.LogSettled | internal/documents/stats.go:52-85 | Merging a log by itself reproduces it. |
| Notes.MergeReviewNote | internal/documents/stats.go:95-97 | Merging two notes computes the log of both, which keeps a settled first note as a prefix and is settled itself. |
| Notes.MergeExtends | internal/documents/stats.go:95-97 | Merging into a previous log keeps that log as a prefix. |
| NoteTexts.AppendOneLine | internal/documents/stats.go:52-97 | Merging one clamped line into a settled log appends it on a line of its own, unless it is empty, there already, or would exceed 4000 runes. |
| LoginGates.LoginGate.Allow | internal/auth/limiter.go:27-41 | The in-place filter keeps exactly the hits inside the window after the sweep; the answer is whether fewer than max remain. |
| LoginGates.LoginGate.Fail | internal/auth/limiter.go:43-48 | One failure is appended for that key and nothing else changes. |
| LoginGates.LoginGate.Clear | internal/auth/limiter.go:50-55 | The key is forgotten in both maps and nothing else changes. |
| LoginGates.LoginGate.SweepLocked | internal/auth/limiter.go:69-80 | The sweep loop removes exactly the keys not seen within the window, when it is due. |
| LoginGates.SweepMeaning | internal/auth/limiter.go:69-80 | A sweep is due when a window has passed or with fifty thousand keys; it forgets exactly the keys not seen within the window and changes nothing else. |
| LoginGates.AllowEffect | internal/auth/limiter.go:27-67 | A look keeps the recent failures of its key, forgets the key without any and marks it as seen otherwise; other keys change by the sweep alone. |
| LoginGates.GateInvariant | internal/auth/limiter.go:27-80 | Over every run both maps have the same keys, and the failures the gate still stores agree, inside the window, with all failures since the last clear. |
| LoginGates.AllowIsExact | internal/auth/limiter.go:27-80 | Over every run whose windows are at least as wide, Allow says yes exactly when fewer than max failures since the last clear are younger than the window. |
| LoginGates.AllowCounts | internal/auth/limiter.go:27-80 | The same as a count: yes exactly when fewer than max of the failures since the last clear lie inside the window. |
| LoginGates.AllowExactIff | internal/auth/limiter.go:27-80 | Whatever windows earlier calls used, Allow answers for every limit by the failures since the last clear that are younger than its window, if and only if no earlier Allow has dropped one of them, by filtering that key or by a sweep that was due. |
| LoginGates.SweepOfAnotherKeyForgets | internal/auth/limiter.go:27-80 | A run on which an Allow for another key, with a narrower window, sweeps away a failure that a wider look would still have counted. |
| CacheLocks.R2.Enter | internal/blob/r2.go:107-117 | Looking up a path finds or creates its lock and counts one more user; other paths are untouched. |
| CacheLocks.R2.Leave | internal/blob/r2.go:119-130 | Giving up a lock counts one user less and removes the entry with its last user. |
| CacheLocks.MutualExclusion | internal/blob/r2.go:107-130 | In every interleaving of any number of clients at most one holds a path. |
| CacheLocks.TableIsExact | internal/blob/r2.go:100-130 | An entry exists exactly while some client is between lookup and release of its path, counts those clients, and the table is empty when nobody is inside. |
| CacheLocks.OneLockPerPath | internal/blob/r2.go:107-130 | Clients inside share a lock exactly when they are on the same path. |
| CacheLocks.Progress | internal/blob/r2.go:107-130 | While a client is inside, some client on the same path can move. |

## Left out

- Title, ERP label and upload time in recorded pairs, storage keys returned by deletions,
  `fingerprint_kind`, `review_requested_at`, `source_count`, `title_norm` and timestamps of
  updates: columns nothing in the model reads.
- Interleavings.CommitIsAtomic: the writes of one finalisation become visible in one step, so
  row locks taken by those writes are subsumed under the document locks.
- Deadlocks.NoDeadlock: does not cover waits between a finalisation and the short transactions
  (title similarity, cascading deletes), which lock in other orders and rely on the retry; nor
  waits of title-similarity transactions among each other for the rows they both delete.
- Repositories.Repo.FinalizeFingerprint: is the transaction run without interference; the
  advisory locks it takes are the subject of `Protocol`.
- Repositories.Repo.ReplaceSimilar: is the transaction run without interference; its advisory
  locks are the subject of `SimilarLocks`.
- SimilarLocks.ReplaceIsAtomic: the two inserts for one hit are one step.
- Repositories.Repo.Create: trimming and checking of the text fields, authorisation and file
  storage happen before it.
- Notes.ClampNote: the final cut to 500 runes is omitted because the loop already stops there.
- The retry around every transaction, connection handling and SQL text.
- PreviewFingerprint, listing, searching, statistics and the folding of title similarities into
  documents: read-only views of the same tables.
- `titlesim.Normalize` and `fingerprint.Normalize`: Unicode letter and case tables; titles enter
  the model normalised.
- Reading files, PDF text extraction, image hashing, SHA-256, FNV: opaque.
- Object storage, HTTP handlers, sessions, the title engine, worker pool, event hub: input,
  output and plumbing.
- Rounding of floating-point scores.
