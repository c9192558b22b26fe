# CogDoc verification

A Dafny model of the deterministic core of CogDoc, a retrieval-augmented question-answering service, with
proofs of what that core is for. `dafny verify dfyconfig.toml` checks the whole project.

| part | modules | what is proved |
|---|---|---|
| Shared | `Wrappers`, `Collections`, `Fractions` | optional values and results, lists as sets, shares, means and quotients |
| Claim audit gate | `ClaimModel`, `ClaimBatches`, `ClaimAudit` | greedy batch packing is optimal; for every verifier output a passed audit is justified claim by claim |
| Daemon executor | `ExecutorSteps`, `ExecutorSafety`, `ExecutorLiveness`, `DaemonExecutor` | an inductive invariant over all interleavings; shutdown drains everything and ends |
| Retrieval | `Ranking`, `Bm25Spec`, `Bm25`, `Bm25TopK`, `Rrf` | posting-list scoring equals the direct sum; filtered top-k equals rank-then-filter; how gains and weights move; fusion is determined and symmetric |
| Calibration | `Calibration` | the rates are shares of the rows; the finite grid is optimal over a continuum of thresholds |
| Backup and restore | `Promote`, `ArchivePaths`, `FileTree`, `Manifest`, `Backup`, `Restore`, `RoundTrip` | install or roll back from any failure; backup then restore is the identity exactly on accepted snapshots |
| Research controller | `ControlTrace`, `ResearchControl` | no value without a passed closing checkpoint, every error for its cause, deadlines taken up by the store, calls within budget and time |
| Citations | `Numerals`, `CitationText`, `Citations` | exactly the printed tags are extracted; printing and extraction undo each other; exact validity verdict |
| Index authority | `IndexAuthority`, `StateRuntime` | one index for all readers in every interleaving; no deadlock |
| Span recall | `SpanRecall` | range, monotonicity, and when recall is 1 |

Conventions. Objects that the program updates in place are classes; loops are methods, each proved equal to a
specification function or relation, about which the laws are then lemmas. Concurrency is a transition system
over atomic steps. What the program cannot control (verifier replies, clocks, stop requests from other threads,
store answers, failing renames, other threads) is left unconstrained, as an arbitrary function or an arbitrary
choice, so every theorem holds for all of it. A research run keeps a ghost history of its dealings with the outside,
each with the number of the step at which it happened; the schedule of the outside says what each step finds, and
every contract demands that what is recorded is so, in that order, within the call. Floating-point numbers are exact reals and `ln` is any function.
Where the program walks a hash map or a sorted set and the result does not depend on the order, the model walks
it in any order, which covers the program's.

Where the code differs from what one might expect, the model follows the code:

- Restoring also creates the undeclared parents of declared paths. Files always come back unchanged; the set of
  directories comes back unchanged exactly under the condition in `RoundTrip.DirectoriesAreExact`, which fails
  for a root that lies two or more levels below the top (`RoundTrip.NestedRootGainsParent`).
- A backup can succeed and still be refused by the restorer: exactly when a name has a backslash, a name is
  `backup_manifest.json` (`RoundTrip.UnsafeNameIsLost`), or a root was itself passed over, for instance inside the
  excluded output directory (`RoundTrip.PassedOverRootIsLost`); `RoundTrip.BackupIsRestorable` shows that nothing else is refused.
- Calibration never tries a negative distance threshold below all rows. Such a threshold has a larger key than the
  recommended pair exactly when looking at distances does not pay on the report: when no pair that meets the floor
  has better rates than every such pair that accepts no row for its distance (`Calibration.BestOfAllExactly`,
  `Calibration.NegativeThresholdsBeatTheGrid`).
- Signed page parsing cannot read the least 64-bit integer, since the sign is applied after the digits.
- A verifier batch limit below one behaves like a limit of one, because an empty batch is never closed.

## Model

| member | source | states |
|---|---|---|
| `ClaimModel.AllowedDocsExactly` | src/cogdoc/agents/claim_evidence_verifier.py:513-520 | a claim that names a valid evidence identifier may use exactly the retrieved documents whose identifier it names; any other claim exactly the retrieved documents one of whose reference keys it names |
| `ClaimModel.AllowedDocsInOrder` | src/cogdoc/agents/claim_evidence_verifier.py:513-520 | the documents a claim may use are found one by one, in retrieval order |
| `ClaimModel.EvidenceIdSpelling` | src/cogdoc/tools/citation_ledger.py:47-69 | the valid evidence identifiers are exactly the printed forms of the positive numbers, three digits at least, within the length limit |
| `ClaimModel.UniqueAllowedDocs` | src/cogdoc/agents/claim_evidence_verifier.py:527-537 | one document per identity, each the first with its identity, and no non-empty identity is lost |
| `ClaimModel.DistinctIdsCount` | src/cogdoc/agents/claim_evidence_verifier.py:527-537 | a list with one document per identity has as many documents as identities, so both limits count the same thing |
| `ClaimBatches.PrepareClaim` | src/cogdoc/agents/claim_evidence_verifier.py:563-571 | a prepared claim carries exactly the identities of the retrieved documents that the claim names, untrimmed, one document per identity, each the first of its identity |
| `ClaimBatches.PlaceClaim` | src/cogdoc/agents/claim_evidence_verifier.py:556-582 | one turn of the loop equals the pure packing step, and the running identity set stays the identities of the open batch |
| `ClaimBatches.TakeKeeps` | src/cogdoc/agents/claim_evidence_verifier.py:556-582 | one packing step appends exactly the claim and keeps the packing sound: closed batches well formed, none of them able to take the first claim after it |
| `ClaimBatches.PackClaims` | src/cogdoc/agents/claim_evidence_verifier.py:540-584 | the concatenated batches are the claims in order with their whole evidence; every ordinary batch has one claim or at most the allowed number, and at most the allowed distinct documents; a claim with more documents than that stands alone and flagged; the batches are an admissible split and no admissible split of the same claims has fewer |
| `ClaimBatches.PartIsFeasible` | src/cogdoc/agents/claim_evidence_verifier.py:572-580 | any part of an admissible batch is admissible |
| `ClaimBatches.BlockedBatchEndsLater` | src/cogdoc/agents/claim_evidence_verifier.py:576-580 | an admissible batch that starts no later than a greedy one ends no later than it |
| `ClaimBatches.StaysAhead` | src/cogdoc/agents/claim_evidence_verifier.py:540-584 | after j batches the greedy packing has covered at least as many claims as any admissible split |
| `ClaimBatches.MaximalPackingIsOptimal` | src/cogdoc/agents/claim_evidence_verifier.py:540-584 | a packing in which no batch could take the next claim is no longer than any admissible split |
| `ClaimAudit.NumberedIdsAreDistinct` | src/cogdoc/agents/claim_evidence_verifier.py:302-308 | claim identifiers never repeat |
| `ClaimAudit.NumberedInOrder` | src/cogdoc/agents/claim_evidence_verifier.py:302-308 | the i-th unit has the number i, its own text and the references found in it |
| `ClaimAudit.ExtractClaimUnits` | src/cogdoc/agents/claim_evidence_verifier.py:293-311 | the units are the auditable fragments (neither blank nor the no-content marker), numbered in order, all of them or as many as the limit allows, at least one |
| `ClaimAudit.Judge` | src/cogdoc/agents/claim_evidence_verifier.py:949-1027 | for an arbitrary assessment the verdict in every case: supported exactly when the model says so, the claim has citations and some returned identifier is one of its own; not factual exactly when the model says so of fixed structural text; unsupported exactly when the model says so, or says supported of a claim without citations; insufficient otherwise; the support is exactly the returned identifiers that are the claim's own, in order, each once, and none where the verdict takes it away |
| `ClaimAudit.DedupeInOrder` | src/cogdoc/agents/claim_evidence_verifier.py:963-981 | identifiers keep the order in which each was first met |
| `ClaimAudit.ChunksOfExactly` | src/cogdoc/agents/claim_evidence_verifier.py:971-981 | the supporting chunks are exactly the named chunks of the documents behind the supporting identifiers |
| `ClaimAudit.SupportInOrder` | src/cogdoc/agents/claim_evidence_verifier.py:963-990 | the support stands in the order in which the verifier first names it, and the chunks behind evidence identifiers in the order of those |
| `ClaimAudit.ChunksInOrder` | src/cogdoc/agents/claim_evidence_verifier.py:974-980 | those chunks are found one identifier after the other |
| `ClaimAudit.BatchDocsIds` | src/cogdoc/agents/claim_evidence_verifier.py:879-908 | the documents shown to the verifier are one per identity, exactly the identities the batch's claims may use |
| `ClaimAudit.BatchDocsInOrder` | src/cogdoc/agents/claim_evidence_verifier.py:879-908 | they come in the order of the claims: the first claim's documents first, later claims only add |
| `ClaimAudit.FirstForIsFirst` | src/cogdoc/agents/claim_evidence_verifier.py:941-947 | the assessment taken for a claim is the first that names it, and there is none exactly when no assessment names it |
| `ClaimAudit.CollectDocs` | src/cogdoc/agents/claim_evidence_verifier.py:879-908 | the loop collects those documents, and finds each claim's evidence under its identifier |
| `ClaimAudit.FirstAssessments` | src/cogdoc/agents/claim_evidence_verifier.py:941-947 | for every known claim the table holds the first assessment that names it, whatever repetitions and unknown identifiers the reply has |
| `ClaimAudit.VerifyBatch` | src/cogdoc/agents/claim_evidence_verifier.py:879-1027 | the planner error arises exactly when the batch's distinct documents exceed the limit; otherwise each claim gets the ruling on its first assessment |
| `ClaimAudit.RunPlan` | src/cogdoc/agents/claim_evidence_verifier.py:847-1043 | on a well-formed plan the loop computes the fold of rulings; its only error is one raised by the verifier, so the planner error is unreachable |
| `ClaimAudit.RunRulesOnEveryClaim` | src/cogdoc/agents/claim_evidence_verifier.py:847-1027 | for every sequence of replies, a run that does not abort has exactly one ruling per claim, in order, none letting a claim through without support of its own or fixed text |
| `ClaimAudit.RuledClaimIsJustified` | src/cogdoc/agents/claim_evidence_verifier.py:963-1013 | a ruling that lets a claim through rests on documents that the claim cites, or on fixed structural text |
| `ClaimAudit.JudgedExactly` | src/cogdoc/agents/claim_evidence_verifier.py:963-1013 | a claim is let through exactly when its first assessment supports it, it has citations and the assessment names the identity of a document that the claim cites, or when it is fixed structural text that the assessment calls not factual |
| `ClaimAudit.RunPassesExactly` | src/cogdoc/agents/claim_evidence_verifier.py:847-1027 | a run neither aborts nor has a failing ruling exactly when every batch gets an answer and every claim of it is let through so |
| `ClaimAudit.AuditClaims` | src/cogdoc/agents/claim_evidence_verifier.py:789-1063 | for every sequence of verifier replies: passed exactly when no fragment is left unaudited, every batch gets an answer, and every claim is let through by its first assessment, which supports it with a document it cites or calls fixed text not factual; every claim unit then has exactly one justified ruling; the claims go to the verifier in the fewest admissible batches; too many fragments or no documents never pass and call no verifier; status and reason code in every case |
| `ClaimAudit.UniqueDocuments` | src/cogdoc/agents/claim_evidence_verifier.py:319-330 | the pool is the first candidate of each identity, in order, and holds no evidence identifier twice |
| `ClaimAudit.MissingStayApart` | src/cogdoc/agents/claim_evidence_verifier.py:319-330 | documents that have neither identifier nor chunk are never merged |
| `ClaimAudit.SupportingChunksAreCited` | src/cogdoc/agents/claim_evidence_verifier.py:963-981 | with one document per evidence identifier, the supporting chunks are exactly the chunks of the documents the claim may use and that support it |
| `ClaimAudit.CountsAddUp` | src/cogdoc/agents/claim_evidence_verifier.py:610-630 | each count is the number of rulings with its verdict, cited ones the factual rulings with cited chunks; every ruling is counted once, and some ruling fails exactly when fewer claims are supported than are factual |
| `ClaimAudit.SummaryRates` | src/cogdoc/agents/claim_evidence_verifier.py:619-640 | the rates (before rounding) are the shares of the factual claims, absent without such claims, and the support rate is 1 exactly when there are factual claims and no ruling fails |
| `ExecutorSafety.ConservedKept` | src/cogdoc/daemon_executor.py:77-155 | every step keeps the pending counter equal to queued work plus work in hand |
| `ExecutorSafety.StepKeepsInv` | src/cogdoc/daemon_executor.py:77-155 | every atomic step of submitters, workers, cancellers and the shutting-down thread keeps the whole invariant |
| `ExecutorSafety.RunKeepsInv` | src/cogdoc/daemon_executor.py:77-155 | so does every interleaving of any length |
| `ExecutorSafety.EveryRunIsSafe` | src/cogdoc/daemon_executor.py:77-155 | in every run pending equals queued plus unreleased work, never exceeds the limit, the non-zero guard on release never fails, no item starts twice, workers take up only waiting futures and complete only running ones, and the threads are none or the configured number |
| `ExecutorSafety.AfterShutdownStopsBalance` | src/cogdoc/daemon_executor.py:96-143 | after the first shutdown no work stands behind a stop marker, and stop markers queued or still to come plus exited workers make the configured number of threads, if any were started |
| `ExecutorSafety.AllExitedLeavesNothing` | src/cogdoc/daemon_executor.py:96-155 | when all workers of a shut-down executor have exited, the queue is empty, nothing is pending and every submitted future is finished or cancelled |
| `ExecutorSafety.ShutdownDrains` | src/cogdoc/daemon_executor.py:96-114 | what a caller that joined all threads finds, over every run: drained is true and every future is settled |
| `ExecutorLiveness.StepWindsDown` | src/cogdoc/daemon_executor.py:122-155 | after shutdown each internal step lowers a bound on the steps left |
| `ExecutorLiveness.NoDeadlock` | src/cogdoc/daemon_executor.py:96-155 | after shutdown some internal step is possible until every worker has exited |
| `ExecutorLiveness.ShutdownTerminates` | src/cogdoc/daemon_executor.py:96-155 | hence no run after shutdown has more internal steps than that bound: joining ends |
| `DaemonExecutor.DaemonFutureExecutor.constructor` | src/cogdoc/daemon_executor.py:37-61 | a new executor is the initial state of the protocol |
| `DaemonExecutor.DaemonFutureExecutor.Submit` | src/cogdoc/daemon_executor.py:63-89 | admits exactly when not shut down and below the limit; admitted work is the last in the queue and counted; the first admission starts exactly the configured number of idle threads and later ones none; a refusal changes nothing |
| `DaemonExecutor.DaemonFutureExecutor.CancelQueuedLocked` | src/cogdoc/daemon_executor.py:122-135 | empties the queue, cancels exactly the queued items' futures where still possible, and gives back exactly their slots |
| `DaemonExecutor.DaemonFutureExecutor.PutStops` | src/cogdoc/daemon_executor.py:104-106 | one stop marker per thread, behind everything queued |
| `DaemonExecutor.DaemonFutureExecutor.Shutdown` | src/cogdoc/daemon_executor.py:96-106 | the first call stops admission and places the markers; it cancels exactly the queued work, where still possible, if asked, and otherwise touches no future; later calls change nothing |
| `DaemonExecutor.DaemonFutureExecutor.WorkerTurn` | src/cogdoc/daemon_executor.py:137-155 | takes the head of the queue: exits on a stop marker, runs pending work once, drops cancelled work without starting it, and releases its slot in either case |
| `Ranking.SortRanks` | rust_core/src/bm25.rs:114-131 | sorting by a total order gives the same elements, each once, in order |
| `Ranking.RankingIsUnique` | rust_core/src/bm25.rs:114-131 | two rankings of the same elements are equal, so the result cannot depend on the input order |
| `Ranking.RankThenFilter` | rust_core/src/bm25.rs:185-207 | ranking only some elements equals ranking all of them and keeping those |
| `Ranking.PrefixIsTop` | rust_core/src/bm25.rs:126-130 | the first n of a ranking beat everything left out |
| `Bm25.CountTokens` | rust_core/src/bm25.rs:37-40 | the counts are the token frequencies, for exactly the tokens that occur |
| `Bm25.PostDocument` | rust_core/src/bm25.rs:41-47 | posting one document, in any order of its words, extends every posting list and document count as the corpus does |
| `Bm25.ComputeIdf` | rust_core/src/bm25.rs:57-74 | the table equals the direct inverse document frequency of each word, negative ones replaced by epsilon times the mean over distinct words |
| `Bm25.BuildIndex` | rust_core/src/bm25.rs:26-87 | the built index is the index defined directly from the corpus |
| `Bm25.RebuildFromKept` | rust_core/src/bm25.rs:156-172 | a rebuild is the index of the kept rows followed by the new ones; it fails exactly on an out-of-range index |
| `Bm25.RebuildChain` | rust_core/src/bm25.rs:156-172 | any chain of rebuilds equals one fresh build of the final rows, and fails exactly when one of its steps does |
| `Bm25Spec.OccurrenceForcesLength` | rust_core/src/bm25.rs:50-54 | a token that occurs anywhere makes the average length positive |
| `Bm25Spec.DenominatorPositive` | rust_core/src/bm25.rs:105-107 | for k1 >= 0 and 0 <= b <= 1 the denominator is at least the frequency |
| `Bm25Spec.TfCounts` | rust_core/src/bm25.rs:37-40 | a term's frequency is the number of places where it stands |
| `Bm25Spec.DfCounts` | rust_core/src/bm25.rs:41-47 | its document frequency is the number of documents that hold it |
| `Bm25Spec.RarerIsLarger` | rust_core/src/bm25.rs:60-61 | for an increasing logarithm the raw inverse document frequency falls with the document frequency |
| `Bm25Spec.IdfSign` | rust_core/src/bm25.rs:60-66 | it is negative exactly for terms in more than half of the documents |
| `Bm25Spec.IdfIsLogOdds` | rust_core/src/bm25.rs:60-61 | it is the logarithm of the smoothed odds against the term |
| `Bm25Spec.CommonTermsAreFloored` | rust_core/src/bm25.rs:60-74 | for an increasing logarithm terms in more than half of the documents weigh epsilon times the average, all others their raw value |
| `Bm25Spec.AverageOverWords` | rust_core/src/bm25.rs:68-70 | the average times the number of distinct words is the sum over them, and the words are exactly those that occur |
| `Bm25Spec.AverageLength` | rust_core/src/bm25.rs:50-54 | the average length times the number of documents is the number of all tokens |
| `Bm25Spec.NormEnds` | rust_core/src/bm25.rs:105-106 | a document of average length is not corrected, an empty one by the whole of b |
| `Bm25Spec.PlainOccurrence` | rust_core/src/bm25.rs:105-107 | one occurrence in a document of average length counts once |
| `Bm25Spec.GainBounded` | rust_core/src/bm25.rs:105-107 | for k1 >= 0, 0 <= b <= 1 and a term that does not count against documents, a gain is between 0 and k1 + 1 times the inverse document frequency |
| `Bm25Spec.DenserGainsMore` | rust_core/src/bm25.rs:105-107 | and at least as many occurrences in no more words gain at least as much |
| `Bm25Spec.SumOverParts` | rust_core/src/bm25.rs:90-112 | scores add up token by token |
| `Bm25.PostingIsDefined` | rust_core/src/bm25.rs:103-108 | every posting that scoring touches names a document and forces a positive average length, and for k1 >= 0 and 0 <= b <= 1 a positive denominator: nothing divides by zero |
| `Bm25.TermIsGain` | rust_core/src/bm25.rs:105-107 | the term added for a posting is the count times the document's direct gain |
| `Bm25.PostingsWalk` | rust_core/src/bm25.rs:41-47 | a posting list walks the corpus in order and misses no document that has the term |
| `Bm25.AddPostings` | rust_core/src/bm25.rs:98-110 | one token's postings add exactly its share to every document and nothing to the others |
| `Bm25.ScoresForQuery` | rust_core/src/bm25.rs:90-112 | for every corpus, query and parameters each document's score is the direct BM25 sum over the query's tokens with multiplicity |
| `Bm25TopK.RankDocIds` | rust_core/src/bm25.rs:114-131 | the returned documents are given ones with their scores, as many as asked or available; scores fall along the list, equal ones with rising ids, and nothing left out scores more |
| `Bm25TopK.ScoreTopK` | rust_core/src/bm25.rs:175-181 | the first n of the complete ranking by direct scores, falling, ties by rising id, nothing better left out |
| `Bm25TopK.DistinctAllowed` | rust_core/src/bm25.rs:194-204 | the allowed rows, each once; it fails exactly on an out-of-range index |
| `Bm25TopK.ScoreTopKFiltered` | rust_core/src/bm25.rs:185-207 | equals the complete ranking, filtered to the allowed set, cut at n; scores fall, ties by rising id, and no allowed row left out scores more; it depends on the allowed rows as a set only |
| `Bm25TopK.AllAllowed` | rust_core/src/bm25.rs:175-207 | with every row allowed the filtered result is the unfiltered one |
| `Rrf.AddOrUpdateDoc` | rust_core/src/rrf.rs:81-95 | the key's score rises by exactly the given amount, from 0 if it is new, and every other key keeps its own |
| `Rrf.AddList` | rust_core/src/rrf.rs:106-117 | walking a list adds to each key the sum of 1/(k+rank) over its occurrences |
| `Rrf.BetterRankWeighsMore` | rust_core/src/rrf.rs:106-117 | for a constant at least 0 the weight of a rank is the reciprocal of constant plus rank, positive, and larger for the better rank |
| `Rrf.ShareIsWeight` | rust_core/src/rrf.rs:106-117 | in a list without repetition a key's share is the weight of its one rank |
| `Rrf.PrecedingInBothWins` | rust_core/src/rrf.rs:98-137 | a key that stands before another in both lists, or without it, is fused before it |
| `Rrf.LexExactly` | rust_core/src/rrf.rs:123 | keys compare by their first difference, a prefix coming first |
| `Rrf.RrfFusion` | rust_core/src/rrf.rs:98-137 | one entry per key, scored by the sum over both lists, scores falling and equal ones by ascending key, the best n of all keys, whatever the order of the hash map |
| `Rrf.FusionIsDetermined` | rust_core/src/rrf.rs:119-134 | the result is determined by the two lists |
| `Rrf.FusionIsSymmetric` | rust_core/src/rrf.rs:98-137 | swapping the two lists changes nothing |
| `Calibration.ComputeRates` | scripts/calibrate_retrieval_confidence.py:28-59 | the loop computes the rates of the confusion matrix |
| `Calibration.TallyCountsRows` | scripts/calibrate_retrieval_confidence.py:31-49 | each cell of the confusion matrix is the number of rows of one class decided one way, and every row falls into exactly one |
| `Calibration.RatesInRange` | scripts/calibrate_retrieval_confidence.py:50-59 | every rate, balanced accuracy included, is between 0 and 1 |
| `Calibration.AcceptsExactly` | scripts/calibrate_retrieval_confidence.py:37-40 | each signal alone: a distance is accepted up to its threshold, a score from its threshold on, a missing signal or an infinite threshold never; a row is accepted for either of its signals |
| `Calibration.RatesMeasure` | scripts/calibrate_retrieval_confidence.py:28-59 | from rows and decisions: acceptance times the answerable rows are the accepted ones among them and the false reject rate is the rest; abstention times the unanswerable rows are the rejected ones among them and the false accept rate is the rest; all are 0 for an empty class; balanced accuracy is the mean of acceptance and abstention |
| `Calibration.KeyOfMeans` | scripts/calibrate_retrieval_confidence.py:102-108 | the key holds the least of the five fold balances, their mean, and the negated false accept rate, false reject rate and distance threshold |
| `Calibration.FoldsDealRows` | scripts/calibrate_retrieval_confidence.py:23-25 | each row goes, as often as it occurs, into the fold of its hash and into no other |
| `Calibration.NotLessIsNoWorse` | scripts/calibrate_retrieval_confidence.py:112 | keys compare by the first component in which they differ |
| `Calibration.SameDecisionsSameKey` | scripts/calibrate_retrieval_confidence.py:92-109 | threshold pairs that decide every row alike have keys that differ in the distance entry only, which prefers the smaller threshold |
| `Calibration.GridMatches` | scripts/calibrate_retrieval_confidence.py:86-93 | every real pair is matched by a grid pair with the same decisions on every row and no larger distance threshold |
| `Calibration.GridDominates` | scripts/calibrate_retrieval_confidence.py:86-109 | so some scored grid pair has a key at least as large |
| `Calibration.SortedValues` | scripts/calibrate_retrieval_confidence.py:69-85 | the candidates are exactly the finite signals of the rows, each once, ascending |
| `Calibration.ScoreGrid` | scripts/calibrate_retrieval_confidence.py:91-109 | the scored list holds exactly the grid pairs that meet the floor, with their keys |
| `Calibration.MaxByKey` | scripts/calibrate_retrieval_confidence.py:112 | the chosen entry is the first of those with the largest key |
| `Calibration.Calibrate` | scripts/calibrate_retrieval_confidence.py:62-131 | no pair that competes (distance threshold at least 0, or at least some row's distance) and meets the floor has a larger key than the returned one; the no-pair error occurs exactly when no such pair meets the floor; the floor error exactly outside [0, 1] |
| `Calibration.CalibrateReport` | scripts/calibrate_retrieval_confidence.py:62-131 | with the program's own rates: the reported rates, overall and of each fold, are the shares of the rows that the recommended pair accepts and rejects, and meet the floor; no pair with a distance threshold at least 0 and any real or infinite BM25 threshold that meets the floor has a better worst fold, or an equal one and a better mean, and so on through the key; the pair is the best of all real pairs exactly when looking at distances pays on the report; and the no-pair error means that no real pair whatever meets the floor |
| `Calibration.SmallerUnusedDistanceWins` | scripts/calibrate_retrieval_confidence.py:102-108 | a pair that accepts no row for its distance is beaten by every smaller distance threshold |
| `Calibration.BestOfAllExactly` | scripts/calibrate_retrieval_confidence.py:86-112 | for every report, the best competing pair is the best of all real pairs, negative thresholds included, exactly when some pair that meets the floor has better rates than every such pair that accepts no row for its distance: a condition on the rows and the floor alone |
| `Calibration.BestOfPositiveExactly` | scripts/calibrate_retrieval_confidence.py:86-112 | for a report of positive distances that is so exactly when the recommended pair accepts some row for its distance |
| `Calibration.NobodyMeetsFloor` | scripts/calibrate_retrieval_confidence.py:91-109 | by the program's own rates, if no competing pair meets the floor then no real pair does |
| `Calibration.NegativeThresholdsBeatTheGrid` | scripts/calibrate_retrieval_confidence.py:86-112 | a concrete report on which, by the program's own rates, a negative distance threshold has a larger key than the pair with distance 0 |
| `Promote.MoveAside` | scripts/restore_state.py:284-286 | moving a target entry aside takes one intermediate state of the merge to the next |
| `Promote.Install` | scripts/restore_state.py:287-288 | so does installing a payload entry |
| `Promote.Uninstall` | scripts/restore_state.py:290-292 | undoing an installation takes it back |
| `Promote.MoveBack` | scripts/restore_state.py:293-295 | so does moving an old entry back |
| `Promote.RenameIsUndone` | scripts/restore_state.py:289-296 | a rename that overwrites nothing is undone by the opposite one |
| `Promote.RestoreWorkspace.Rollback` | scripts/restore_state.py:289-296 | from every intermediate state the undo loops reach the state before the merge |
| `Promote.RestoreWorkspace.InstallAll` | scripts/restore_state.py:278-288 | the forward loop fails exactly when one of its renames does, and stops in an intermediate state that its two lists describe exactly |
| `Promote.RestoreWorkspace.Merge` | scripts/restore_state.py:278-298 | all or nothing: without a failing rename the old entries overridden by the payload's, otherwise everything as before |
| `Promote.RestoreWorkspace.ReplaceWhole` | scripts/restore_state.py:258-276 | all or nothing for a target that is absent, empty or not a directory; it fails exactly when a rename does |
| `Promote.RestoreWorkspace.Promote` | scripts/restore_state.py:257-298 | for every payload, target and schedule of failing operations: it fails exactly when one of its forward operations, of which it makes some, does, and then target and payload are as before; otherwise a non-empty directory keeps what the payload does not name and any other target becomes the payload; refused exactly when there is a target other than an empty directory and no force |
| `ArchivePaths.SplitJoin` | scripts/backup_state.py:47-56 | taking a path of slash-free parts apart gives back its parts |
| `ArchivePaths.JoinSplit` | scripts/backup_state.py:47-56 | joining the parts of any name gives back the name |
| `ArchivePaths.ArcNameIsNormal` | scripts/backup_state.py:47-56 | the writer's check accepts exactly the normal relative paths and the project root |
| `ArchivePaths.NormalIsSafe` | scripts/restore_state.py:25-37 | on a normal path the restorer's check comes down to having no backslash |
| `ArchivePaths.SafeNameExactly` | scripts/restore_state.py:25-37 | a name passes the restorer's check exactly when it has no backslash and is the top itself or a normal path, either with at most one leading "./" |
| `ArchivePaths.SafeNameIsClean` | scripts/restore_state.py:25-37 | no path made from a name that passes has an empty part, a dot, a double dot, a slash or a backslash |
| `ArchivePaths.NormalConcat` | scripts/backup_state.py:117-118 | names below a root are normal again |
| `FileTree.BuildTree` | scripts/restore_state.py:209-224 | directories, then files, in any order: succeeds exactly when no two names stand for one place and no file stands where a directory must be, and then holds exactly the given files, byte for byte, and the directories with all their parents |
| `Backup.AddCandidate` | scripts/backup_state.py:106-130 | one candidate is refused exactly when it is a link, a special file or a clash; otherwise the payload stays exactly what the walk so far takes |
| `Backup.PayloadEntries` | scripts/backup_state.py:93-131 | succeeds exactly when no link, special file or clash is on the walk; the payload is then exactly what the walk takes: those names and no others, each file with its source and bytes |
| `Backup.WalkNames` | scripts/backup_state.py:103-118 | every name on the walk is a normal path under one of the roots |
| `Manifest.BuildManifest` | scripts/backup_state.py:134-180 | the manifest lists exactly the files, each once, with true size, hash and time, exactly the directories, the roots and the right totals |
| `Manifest.IndexFiles` | scripts/restore_state.py:63-81 | accepts exactly when every item is well formed and no path repeats, and then finds each item under its path |
| `Manifest.DigestExactly` | scripts/restore_state.py:16 | digests are 64 lower-case hexadecimal digits |
| `Collections.CountShowsRepetition` | scripts/restore_state.py:82-84 | comparing the number of distinct names with the length detects exactly the repetitions |
| `Manifest.CollectDirectories` | scripts/restore_state.py:82-84 | accepts exactly the lists of distinct safe names |
| `Manifest.ValidateManifest` | scripts/restore_state.py:49-100 | accepts exactly the manifests that may be restored: version, times, safe distinct paths, digests, disjoint files and directories, every root declared, every name under a root, right totals |
| `Backup.CreateBackup` | scripts/backup_state.py:243-285 | succeeds exactly when the payload can be staged; the archive is the manifest of the staged copies, the directories, then the files with their bytes |
| `Restore.TableAt` | scripts/restore_state.py:167-174 | without repeated names the table holds exactly the members |
| `Restore.IndexMembers` | scripts/restore_state.py:167-174 | accepts exactly archives of distinct, safe, regular members |
| `Restore.ExtractVerified` | scripts/restore_state.py:164-242 | for any archive whatever: succeeds exactly when the members are safe and distinct, the manifest is acceptable and describes exactly the members with their sizes and hashes, and they fit in one tree; then the payload holds exactly the described files, byte for byte, every member but the manifest is in it, it is true to the manifest, and no path of it has an empty part, a dot, a double dot or a backslash |
| `Restore.AcceptedIsTrue` | scripts/restore_state.py:164-242 | what an accepted archive leaves is true to its manifest: no path has an empty part, a dot, a double dot or a backslash; every file is at or below a root and listed with its true size and hash; every listed file, directory and root is there; the manifest has the current version, readable times, hexadecimal digests, distinct safe paths and right totals |
| `Restore.AcceptedIsRestored` | scripts/restore_state.py:164-242 | every member but the manifest is restored, a file with its bytes or a directory; an accepted archive has nothing else in it |
| `RoundTrip.BackupIsRestorable` | scripts/restore_state.py:49-100 | the archive of a staged snapshot passes every check exactly when no name has a backslash, none is the manifest's and every root is declared; its members are then the snapshot |
| `RoundTrip.BackupThenRestore` | scripts/backup_state.py:243-285 | backup then restore is the identity on the map from paths to bytes, exactly for the accepted snapshots |
| `RoundTrip.BackupRootsThenRestore` | scripts/backup_state.py:93-131 | from the roots on disk: the payload is refused exactly when the walk meets a link, special file or clash, the archive exactly when it cannot be staged, the restore exactly when the snapshot is not accepted; what is restored is exactly what the walk took, byte for byte; after full walks the directories are the walk's own exactly when every root is at the top or right below one of them |
| `RoundTrip.VisitedRootsAreDeclared` | scripts/backup_state.py:103-131 | a root that the walk took is declared, as the restorer demands |
| `RoundTrip.DirectoriesAreExact` | scripts/restore_state.py:209-217 | the restored directories are the declared ones exactly when every declared path is at the top or has its parent declared; otherwise there are more |
| `RoundTrip.WalkedDirectoriesAreExact` | scripts/backup_state.py:103-131 | when every declared name is a root or right below a declared directory, the directories come back unchanged exactly when every root is at the top or right below one |
| `RoundTrip.FullWalksAreExact` | scripts/backup_state.py:103-122 | walks that take the directory right above everything they take give that hypothesis, so the condition decides for them |
| `RoundTrip.NestedRootGainsParent` | scripts/restore_state.py:209-210 | a concrete failure: the snapshot of the single directory a/b is accepted, and it comes back together with a, which was never declared |
| `RoundTrip.UnsafeNameIsLost` | scripts/restore_state.py:25-37 | every single file whose name has a backslash, or is the manifest's, can be staged and archived, and no archive of it is restored |
| `RoundTrip.BackslashNameIsLost` | scripts/restore_state.py:25-37 | a concrete such name |
| `RoundTrip.PassedOverRootsAreNoObstacle` | scripts/backup_state.py:93-131 | roots on whose walks everything is excluded stop nothing; the snapshot is empty |
| `RoundTrip.PassedOverRootIsLost` | scripts/restore_state.py:49-100 | no archive of such a root is ever restored, since the root is not declared |
| `ResearchControl.NormalizeResourceCosts` | src/cogdoc/research_control.py:79-87 | accepts exactly known resources with non-negative costs; the result is the non-zero ones |
| `ControlTrace.CheckpointGrants` | src/cogdoc/research_control.py:135-160 | a passed checkpoint grants exactly what it asked for and opens nothing |
| `ControlTrace.BackedConcat` | src/cogdoc/research_control.py:242-315 | histories in which openings never outnumber grants can follow one another |
| `ControlTrace.OneStartIsBacked` | src/cogdoc/research_control.py:276-296 | one opening after its own grant keeps that at every moment |
| `ControlTrace.NoStopUntil` | src/cogdoc/research_control.py:123-133 | the stop event is found unset at a step exactly when no stop was requested at any step up to it |
| `ControlTrace.LatestStop` | src/cogdoc/research_control.py:123-125 | the reason found is that of the latest request |
| `ControlTrace.SignalFor` | src/cogdoc/research_control.py:127-133 | a stop pauses the run exactly for the reason so named, ends it as a deadline, not a durable one, exactly for that reason, and cancels it for any other |
| `ControlTrace.StartMeans` | src/cogdoc/research_control.py:277-288 | shortly before every opening in a guarded history there had been no stop request, time was left on both clocks, and the time of the call was not over |
| `ControlTrace.ObservedMeans` | src/cogdoc/research_control.py:312-315 | a value that is let out was returned by the operation; after that the store let a reservation pass, and after that there had still been no stop request and time was left on both clocks |
| `ResearchControl.ResearchRunController.constructor` | src/cogdoc/research_control.py:105-121 | the monotonic ceiling is set once from the wall clock; an unreadable deadline means that the run is over at once; the history is empty |
| `ResearchControl.ResearchRunController.RaiseIfStopped` | src/cogdoc/research_control.py:127-133 | passes only if no stop has been requested by then; otherwise the signal of the latest request |
| `ResearchControl.ResearchRunController.RemainingSeconds` | src/cogdoc/research_control.py:217-240 | exactly the smaller of what the wall clock and the monotonic ceiling leave at the readings that it records, never negative; absent without a deadline, 0 for an unreadable one |
| `ResearchControl.ResearchRunController.PollLocal` | src/cogdoc/research_control.py:173-185 | passes only if no stop was requested and then, by readings of both clocks, time was left; otherwise the signal for what was found; never passes once the run is over; never performs a reservation |
| `ResearchControl.ResearchRunController.ReserveCallback` | src/cogdoc/research_control.py:147 | grants only what the store lets pass within its budget, and counts it; a refusal is the store's own error or the exceeded budget |
| `ResearchControl.ResearchRunController.DeadlineCallback` | src/cogdoc/research_control.py:191-202 | raises exactly the state that the store answers with; a deadline only when the store has taken it up |
| `ResearchControl.ResearchRunController.PersistLocalDeadline` | src/cogdoc/research_control.py:187-212 | always ends in an error that the store's answer dictates; a deadline signal it raises is durable and taken up, by the callback or, for a run without a durable row, by an empty reservation that passed |
| `ResearchControl.ResearchRunController.Checkpoint` | src/cogdoc/research_control.py:135-160 | passes only after finding no stop request and time left on both clocks, at one step before and at a later one after the granted reservation; otherwise raises bad costs or exactly the error of what was found; once the run is over it never passes and reserves nothing; its deadline signals are durable |
| `ResearchControl.ResearchRunController.Poll` | src/cogdoc/research_control.py:162-171 | a passed poll leaves no durable checkpoint older than the interval, making one when needed; never passes once the run is over; what it raises is the error of what was found |
| `ResearchControl.ResearchRunController.Contract` | src/cogdoc/research_control.py:264-274 | the timeout handed on is positive, within the ceiling, and either the one asked for or what readings of both clocks left |
| `ResearchControl.ResearchRunController.RunOperation` | src/cogdoc/research_control.py:275-296 | at most one operation is opened, right after passed local checks, before the call's own time is over and, for a reserving call, after its own grant; no more calls are granted than the reservation asks for; a timeout is reported only when that time, counted from within the call, has passed |
| `ResearchControl.ResearchRunController.OperateBefore` | src/cogdoc/research_control.py:284-289 | an operation whose time is over is not opened; what a poll finds then is raised first, and the timeout only if the poll passes |
| `ResearchControl.ResearchRunController.OperateIsolated` | src/cogdoc/research_provider.py:183-204 | a child is opened only with a positive timeout, after a reading by which its own time was not over and later ones by which time was left on both clocks; otherwise the deadline is committed |
| `ResearchControl.ResearchRunController.Close` | src/cogdoc/research_control.py:297-315 | a value leaves only through a passed checkpoint, unchanged; so does an error that is no control signal; a deadline signal of the operation that is not yet durable is first taken up by the store |
| `ResearchControl.ResearchRunController.RunProvider` | src/cogdoc/research_control.py:242-315 | a value is returned only if the operation completed with it and a checkpoint, clear and in time by both clocks before and after its reservation, came right after; at most one operation is opened, within its time and after its own reservation; every error raised is a bad request or exactly the one of what was found, of what the store answered or of the operation; deadline signals are durable; nothing is opened or reserved once a stop is set or the ceiling has passed |
| `ResearchControl.ResearchRunController.InvokeResearchModel` | src/cogdoc/research_provider.py:353-405 | a model call opens at most one operation; a reserving one takes at most one call from the budget and opens only after it was granted, any other takes none; its time is its envelope or what was left of the run, whichever is smaller; a call that cannot enter its isolation fails as a provider error and one without time of its own as a bad request; the rest as for the provider run |
| `ResearchControl.ResearchRunController.RunCalls` | src/cogdoc/research_provider.py:391-405 | over any sequence of reserving calls the history grows by what each of them does, in turn, and each ends as its part of the history says; at every moment operations opened are at most calls granted, at most the budget; once the run is over no clock change lets another one start |
| `Numerals.PrefixValueBound` | rust_core/src/citation.rs:63-67 | a prefix of a number never exceeds it, so checked arithmetic fails only if the whole overflows |
| `Numerals.DigitsListed` | rust_core/src/citation.rs:35-43 | the digits are the ten half-width and the ten full-width ones, each worth its place |
| `CitationText.TrimPadded` | rust_core/src/citation.rs:46-47 | trimming removes exactly the padding |
| `CitationText.TrimParts` | rust_core/src/citation.rs:46-47 | every text is its trimmed form between two paddings |
| `CitationText.ParsePageNumber` | rust_core/src/citation.rs:46-70 | succeeds exactly on an optional sign and digits, half or full width, whose value fits in 63 bits; the result is that value, signed; so the least 64-bit number is never read |
| `CitationText.PageNumberExactly` | rust_core/src/citation.rs:46-70 | a text denotes a page exactly when it is digits that fit in 63 bits between white space, after one sign where signs are allowed; the page is their value, signed |
| `CitationText.FindFirstIsFirst` | rust_core/src/citation.rs:74 | the search finds the first match, and fails only when there is none |
| `CitationText.PageRoundTrip` | rust_core/src/citation.rs:80-87 | a printed page, with optional prefix and any padding, is read back |
| `CitationText.BodyRoundTrip` | rust_core/src/citation.rs:73-92 | the body of a printed tag, any source without colons or outer white space, is parsed to its source and page |
| `CitationText.BodyParts` | rust_core/src/citation.rs:73-92 | whatever parses is such a printed body of the citation that it gives |
| `CitationText.BodyExactly` | rust_core/src/citation.rs:73-92 | so a body is read as a citation exactly when it is a printed body of it; one without a colon, a source, or a page that fits in 63 bits gives none |
| `Citations.ScanTags` | rust_core/src/citation.rs:95-119 | the scanning loop ends and computes the left-to-right extraction |
| `Citations.ExtractCitations` | rust_core/src/citation.rs:95-119 | the text falls into bracket pairs and a rest in which no open bracket is closed; the result lists, in order, the citation of each pair whose body is one and nothing for the others |
| `Citations.ExtractedExactly` | rust_core/src/citation.rs:95-119 | every text can be taken apart so, and however it is, exactly that list is extracted |
| `Citations.ExtractedAreTagged` | rust_core/src/citation.rs:95-119 | no citation is invented: each is the printed body between two brackets of the text |
| `Citations.EveryMarkIsRead` | rust_core/src/citation.rs:14-32 | every combination of half- and full-width brackets, colons and page prefixes is read |
| `Citations.ContainsExactly` | rust_core/src/citation.rs:221 | an answer has the no-content marker exactly when it is some text, the marker and some text |
| `Citations.ExtractUndoesPrint` | rust_core/src/citation.rs:73-119 | any list of tags with trimmed, non-empty sources free of close brackets and colons, pages up to 2^63-1, half- or full-width marks and digits and any white space, among text without open brackets, is extracted as that list in order |
| `Citations.ExtractedAreOk` | rust_core/src/citation.rs:73-119 | whatever the text, every extracted citation has a printable source and a page in range |
| `Citations.RewritingIsStable` | rust_core/src/citation.rs:73-119 | for every text, printing the extracted citations plainly and extracting again gives the same list |
| `Citations.BuildAllowedRegistry` | rust_core/src/citation.rs:166-190 | the registry holds exactly the sources and pages of the usable documents |
| `Citations.ValidateCitations` | rust_core/src/citation.rs:202-256 | valid exactly when exempt, or citing something and every citation names the source and page of a retrieved document; the two lists hold exactly the unknown sources and unknown pages in order, the latter with the ascending list of pages that exist; missing exactly when nothing is cited |
| `Citations.SelectParts` | rust_core/src/citation.rs:232-256 | the lists of the verdict keep the order of the answer: they are built part by part |
| `IndexAuthority.StepKeepsInv` | src/cogdoc/state_runtime.py:181-228 | every atomic step of any thread keeps the protocol's invariant |
| `IndexAuthority.RunKeepsInv` | src/cogdoc/state_runtime.py:181-310 | so does every run, and a field once set never changes |
| `IndexAuthority.OneAuthority` | src/cogdoc/state_runtime.py:181-228 | in every interleaving all readers and all successful binds have the same index, and all users the same retriever |
| `IndexAuthority.ReadersAgreeForEver` | src/cogdoc/state_runtime.py:181-199 | an index once handed out is what every later reader gets |
| `IndexAuthority.BindOnlyBefore` | src/cogdoc/state_runtime.py:205-228 | a bind takes effect only where no other index is set and no retriever exists |
| `IndexAuthority.NoBindAfterRetriever` | src/cogdoc/state_runtime.py:223-228 | once the retriever exists no bind succeeds in any continuation |
| `IndexAuthority.NoDeadlock` | src/cogdoc/state_runtime.py:186-219 | while an operation is under way some thread inside one can move |
| `IndexAuthority.OperationsEnd` | src/cogdoc/state_runtime.py:181-310 | every step of an operation brings it nearer its end and delays no other |
| `IndexAuthority.NothingFailsWithoutCause` | src/cogdoc/state_runtime.py:181-310 | in every interleaving an operation is refused at its start exactly when the runtime is closed, ends without a result only after a failed construction with nothing there, and otherwise hands out what the field holds; a bind takes effect unless another index or a retriever is there |
| `IndexAuthority.ReadIsServed` | src/cogdoc/state_runtime.py:181-199 | a read of an open runtime that is let alone is served with the index that is there, or else with the one it makes |
| `IndexAuthority.OthersKeepRely` | src/cogdoc/state_runtime.py:181-310 | what other threads do is within what a thread relies on: set fields stay, and fields stay under their lock |
| `StateRuntime.StateRuntime.DerivedKnowledgeIndex` | src/cogdoc/state_runtime.py:181-199 | whatever other threads do in between, a returned index is the runtime's index for good; it is refused exactly if closed, and otherwise fails only if construction fails and no index was there |
| `StateRuntime.StateRuntime.BindDerivedKnowledgeIndex` | src/cogdoc/state_runtime.py:205-228 | success means that the index is now bound, that none or the same was there before, and that no retriever existed; refused exactly without an index, exactly if closed, or because another index or a retriever is there |
| `StateRuntime.StateRuntime.DerivedKnowledgeRetriever` | src/cogdoc/state_runtime.py:286-310 | a returned retriever is the runtime's retriever for good; it is refused exactly if closed, and otherwise fails only if construction fails and no retriever was there |
| `SpanRecall.AcceptableGoldSpans` | scripts/eval_retrieval.py:135-152 | exactly the usable spans of an identified requirement, in order, all proper |
| `SpanRecall.KeptExactly` | scripts/eval_retrieval.py:144-152 | an interval is kept exactly when it is given, names a chunk and is not empty |
| `SpanRecall.AnnotatedExactly` | scripts/eval_retrieval.py:178-182 | each named requirement with a usable interval counts, in order, with all of its usable intervals |
| `SpanRecall.RatioCounts` | scripts/eval_retrieval.py:200-206 | the score of a gold and a kept interval is the number of gold positions that the kept one holds, over the gold length; 0 across chunks |
| `SpanRecall.SumParts` | scripts/eval_retrieval.py:207-208 | the scores are added one by one |
| `SpanRecall.GroupByChunk` | scripts/eval_retrieval.py:186-194 | each chunk's list holds exactly the usable context intervals of that chunk |
| `SpanRecall.BestRecall` | scripts/eval_retrieval.py:197-206 | the nested loops find the largest fraction of an alternative that one kept interval contains, 0 if none |
| `SpanRecall.BestIsUnique` | scripts/eval_retrieval.py:197-206 | that number is unique |
| `SpanRecall.EvidenceSpanGoldRecall` | scripts/eval_retrieval.py:163-208 | the result is the mean of those over the annotated requirements, absent if there is none |
| `SpanRecall.RecallLaws` | scripts/eval_retrieval.py:163-208 | absent exactly when nothing is annotated; in [0, 1]; 1 exactly when every annotated requirement has an alternative inside a single kept interval of the same chunk |
| `SpanRecall.RecallGrows` | scripts/eval_retrieval.py:186-208 | if every kept interval lies inside one of another context, recall is no larger: shrinking intervals never raises it |
| `SpanRecall.AddingItemsHelps` | scripts/eval_retrieval.py:186-208 | context items added anywhere never lower it |

## Left out

- The gates before the audit proper (ledger rendering and validation, projection loading, summary units), prompts, model calls, reason texts, confidences and durations; the rounding of rates in the audit summary.
- How an answer is cut into fragments, compacted and scanned for citation references, and which texts count as fixed and structural: arbitrary functions here.
- `submit` with something that is not callable, thread names, daemon status, and a second thread inside the reentrant lock; a worker that joins itself by calling `shutdown(wait=True)`.
- Floating point: rounding, NaN and overflow in scores, fusion, calibration and recall. Serialization of the BM25 index and the tokenizer.
- What a division by zero yields is an arbitrary real, where floating point gives an infinity: for k1 or b outside the usual range, and for a fusion constant that is a negative whole number.
- Rrf.RrfFusion: documents are keys only; extracting a key, merging retrieval metadata and marking the documents are Python object handling.
- The calibration hash that deals rows into folds is an arbitrary function; report files and command line are not modelled.
- Promote.RestoreWorkspace.Promote: undoing renames are taken to succeed, as the code does; deleting the rollback area is one step; directory entries below the top level move with their parent.
- Backup.PayloadEntries: one path on disk is taken to look the same whenever the walk meets it; a root that is the project root itself is excluded, since its names alias those of other roots; resolving paths, modification times, permissions and the tar and gzip encoding are outside the model.
- Manifest.ValidateManifest: JSON is decoded to a typed manifest, so a value of a wrong JSON type counts as undecodable; which error code is raised is not specified. The version 1 manifest is not modelled.
- Restore.ExtractVerified: sizes and hashes are compared after the files are written instead of one by one; either way a mismatch refuses the archive. Archives are taken to be readable and not truncated, and the payload directory to exist already.
- ResearchControl.ResearchRunController.RunProvider: operations run in line or through the stand-alone runner; the job manager's own isolation pool, child processes, pipes and pickling are outside the model. The store is assumed never to grant calls beyond its budget, and deadline signals that the store itself raises are assumed durable where all are to be.
- Reading page and source fields from Python objects, and the texts built from the verdict; `Citations.ValidateCitations` starts from usable fields.
- The runtime's other stores, `close` beyond its flag, and `clear_derived_knowledge_index`.
- StateRuntime.StateRuntime.DerivedKnowledgeIndex: locks appear as what other threads cannot change while they are held; the locks themselves, and blocking on them, are in `IndexAuthority`.
- SpanRecall.EvidenceSpanGoldRecall: chunk and requirement names arrive stripped and offsets as non-negative numbers or absent.
- Evaluation drivers, command lines, HTTP, the web client, migration and soak scripts, and field normalisation: they would add only simple members.
