# Verified model of the search agent, its synchronisation and the repository's operations scripts

A Dafny 4.11 model of the parts of the repository where state, concurrency and failure meet, with
proofs of what they promise. `dafny verify dfyconfig.toml` checks everything.

- **The agent's local index** (`IndexTables`, `IndexSystem`, `IndexFreshness`, `IndexFencing`,
  `IndexWakeUp`, `IndexDrain`, `IndexAcl`, `IndexRaces`). `LocalSearchIndex` is a class over its two
  tables and its wake-up event, each method proved against a function on the tables. `IndexSystem`
  is a step model: every transaction is one atomic step, and any number of workers, enqueuers,
  deletes, clock readings, sleeps with deadlines, lease expiries, deaths of tasks and restarts interleave
  between them. The invariants hold in every reachable state.
- **Text and search** (`SlidingWindows`, `Extraction`, `LikePattern`, `Search`, `IndexSearch`,
  `Text`): chunking within a budget, documents of many blocks, scope clauses, the over-fetch that
  makes the first `limit` documents exact, and what that means for any reachable index.
- **Access lists** (`NativeAcl`): the captured record against the Windows access check.
- **The scrub of a PDF object graph** (`Sanitize`), **the issue reconciler** (`Normalize`,
  `Findings`, `Reconcile`, `Convergence`), **the upload archive** (`PosixPath`, `Artifact`,
  `ArtifactCreation`, `ArtifactRoundTrip`), **the scan synchronisation** (`Ledger`,
  `LedgerAgreement`, `Detection`), **the pipe broker** (`UncPath`, `Broker`) and **the bulk
  ingester** (`Ingest`).

Exceptions, cancellation and I/O errors are nondeterministic outcomes at each call. The clock is a
real number that a step may set to anything; where a result needs it to advance, the lemma says so.

Several properties one would expect hold only under a condition. Each is proved under it, as an
equivalence where the lemma says "exactly", with a case outside it: fencing needs that no path is
claimed twice on one clock reading (`ClaimSupersedesIff`, `EqualReadingsDefeatFencing`), a wake-up
is lost exactly by the death of the last party that knew of it (`LostExactlyBy`,
`CrashLosesWakeUp`) and a retry forgotten exactly by that of the last worker that minded it
(`ForgottenExactlyBy`), the page of a cut search is that of the full rankings for all searches
that waste fewer than M rows and not for more (`TopKExact`, `WasteAllowedExactly`), retained text
need not be a prefix (`RetainedIsPrefixIff`), a document's rows are its visible windows
(`BlockRowCount`, `RowCountOfLengths`), which many short blocks drive over the search's row bound
(`ManyShortBlocksExceedBound`), a relative path is cut in the right place exactly when the folded
lengths agree (`RelativeLocatesFile`), which sharp s breaks (`LongFoldCutsTooFar`), the reported
file count can be short (`CountIsRightIff`), an archive whose prefix is ".", ".." or cut at a NUL
does not verify (`RoundTrip`), findings whose keys spell one fingerprint text and want different
issues never settle (`ConsistentIff`, `ClashingKeysNeverSettle`), a cancelled broker leaves an
instance open (`CancelledRunLeavesOpen`), and an opinion listed twice in one batch is stored twice
(`RepeatedOpinion`).

Where comments in the code promise more than the code does, the model follows the code: the comment
on `upsert_files` says a bulk write is atomic, but a statement that raises leaves the rows before
it visible on the open connection; the comment on the scan status says each indexed file is counted
once, which fails as `CountIsRightIff` says.

## Model

| member | source | states |
|---|---|---|
| IndexTables.LocalSearchIndex.EnqueueFile | agent/clarity_agent/local_index.py:606-668 | one file of a scan: its text goes and its row starts over; when only missing files are asked for, a file with a row is left as it is |
| IndexTables.LocalSearchIndex.Enqueue | agent/clarity_agent/local_index.py:593-696 | the whole batch and the sweep for overdue access lists are one transaction: all of it and a wake-up, or none of it and no wake-up; it fails exactly when read-only or when a statement raises |
| IndexTables.LocalSearchIndex.Delete | agent/clarity_agent/local_index.py:698-717 | paths lose both their manifest row and their full-text rows, in one transaction; it fails exactly when read-only or when a statement raises, and an empty list never does |
| IndexTables.LocalSearchIndex.Claim | agent/clarity_agent/local_index.py:719-772 | takes the first eligible row in the queue's order, and the job returned satisfies the fencing predicate; none is returned exactly when no row is eligible |
| IndexTables.LocalSearchIndex.NextWaitSeconds | agent/clarity_agent/local_index.py:774-783 | the wait is set by the earliest retry time of a pending row, lies within 0.05 and 60 seconds, and ends no later than any retry is due unless it is the shortest |
| IndexTables.LocalSearchIndex.CommitText | agent/clarity_agent/local_index.py:904-924 | publishes only while the claim is held; a superseded claim or a raised statement leaves both tables alone |
| IndexTables.LocalSearchIndex.ReportFailure | agent/clarity_agent/local_index.py:926-947 | only the holder of the claim changes a row or wakes the others |
| IndexSystem.EnqueueAllAt | agent/clarity_agent/local_index.py:593-681 | after a batch a path holds what its last listing asks for, and every other path is as before, up to the sweep |
| IndexSystem.DeleteAllAt | agent/clarity_agent/local_index.py:698-717 | a batch of deletes takes exactly the listed paths out of both tables |
| IndexSystem.PublishAt | agent/clarity_agent/local_index.py:822-924 | publishing replaces the full-text rows of one path and touches no other |
| IndexFreshness.IndexIsFresh | agent/clarity_agent/local_index.py:593-772 | in every reachable state of any number of workers, enqueuers, deletes, refreshes, lapses and restarts: no rows without a manifest row, ready implies rows, and the rows of a path are the chunk list of one single claim whose identity is the manifest's |
| IndexFreshness.StoredOrdinalsExact | agent/clarity_agent/local_index.py:904-924 | a search reads the chunks of a path once each, in order, under the share the manifest names |
| IndexFreshness.StoredRowsBounded | agent/clarity_agent/local_index.py:1066-1071 | in every reachable state the rows of a path are as many as its published document has visible windows; a single text always meets the search's bound per file |
| IndexFencing.AtMostOneLiveClaim | agent/clarity_agent/local_index.py:112-129 | at most one outstanding claim of a path satisfies the claim predicate, unless this process claimed that very path twice on one clock reading |
| IndexFencing.ClaimSupersedesIff | agent/clarity_agent/local_index.py:719-772 | the boundary at the claim step: another worker's claim of the path stays live exactly when identity, attempt number and clock reading all coincide |
| IndexFencing.SupersededStays | agent/clarity_agent/local_index.py:822-947 | no later step of anybody revives a superseded claim, unless its path has been claimed twice on one reading |
| IndexFencing.SupersededIsHarmless | agent/clarity_agent/local_index.py:822-947 | over any run, what a superseded worker publishes or reports leaves both tables as they are |
| IndexFencing.TakeOverSupersedes | agent/clarity_agent/local_index.py:643-772 | a rescan and a delete always supersede the outstanding claim, whatever the clock reads; a claim by another worker does unless the path has been claimed twice on one reading |
| IndexRaces.EqualReadingsDefeatFencing | agent/clarity_agent/local_index.py:719-772 | the condition is needed: a reachable run in which one path is claimed twice on one reading has two live claims of it |
| IndexRaces.AttemptsDoNotFence | agent/clarity_agent/local_index.py:112-129 | the attempt number alone would not fence: after a rescan a superseded claim agrees with the row in everything but the lease |
| IndexWakeUp.NoLostWakeUp | agent/clarity_agent/local_index.py:774-800 | over any run of any number of workers and enqueuers, no state has a runnable row with the event clear, no signal pending and nobody aware, exactly as long as the run holds no death of the last party that knew of a runnable row |
| IndexWakeUp.LostExactlyBy | agent/clarity_agent/local_index.py:774-800 | for every state and step: a wake-up becomes lost exactly by the death of the last enqueuer to signal, or of the last aware worker, while a row is runnable and the event clear; every other death is harmless |
| IndexWakeUp.LostExactlyUntil | agent/clarity_agent/local_index.py:774-800 | and stays lost exactly until a batch is enqueued, the process restarts, a sleeper's deadline ends its sleep or every runnable row is deleted |
| IndexRaces.CrashLosesWakeUp | agent/clarity_agent/local_index.py:785-800 | such a death is reachable: a worker that dies between clearing the event and claiming is the last to know of a runnable row, and the other one then sleeps for 60 seconds |
| IndexWakeUp.ForgottenExactlyBy | agent/clarity_agent/local_index.py:774-800 | for every state, step and delayed row: all workers come to sleep past its retry time exactly by the death of the last one that was awake or whose deadline covered it |
| IndexWakeUp.NoForgottenRetry | agent/clarity_agent/local_index.py:774-800 | over any run a delayed retry always has a worker awake, or one asleep no longer than until it is due (give or take 0.05 seconds), exactly as long as the run holds no such death |
| IndexWakeUp.SleepIsBounded | agent/clarity_agent/local_index.py:774-783 | in every reachable state a sleeper's deadline is 0.05 to 60 seconds after the reading it was set at |
| IndexDrain.ClaimsAreBounded | agent/clarity_agent/local_index.py:719-772 | per enqueue or refresh a row is claimed at most MAX_ATTEMPTS times plus once per lapsed lease and per restart |
| IndexDrain.ReportEndsOrRetries | agent/clarity_agent/local_index.py:926-947 | a report by the holder puts the row back for another attempt exactly when the failure may pass and attempts are left; at the attempt bound it ends the row in error |
| IndexDrain.RestartRequeues | agent/clarity_agent/local_index.py:484-518 | after a restart no row is claimed: what was claimed can run at once with its attempts counted, and every other row and all text are unchanged |
| IndexDrain.WorkShrinks | agent/clarity_agent/local_index.py:822-947 | while nobody enqueues, deletes or restarts, every step that gets somewhere lowers the remaining work and no step raises it |
| IndexDrain.QuiescentRunBounded | agent/clarity_agent/local_index.py:785-897 | in a quiescent run of any length the effective steps are paid for by the work at its start |
| IndexDrain.IdleIffNoWork | agent/clarity_agent/local_index.py:949-962 | the exit condition of waiting until idle holds exactly when no work is left |
| IndexDrain.QueueCanDrain | agent/clarity_agent/local_index.py:949-962 | from every reachable state with one living worker, and for every way the jobs may end (published with text, failed for good, failed and retried), there is a quiescent run with those endings to the exit condition; every queued row is then ready or in error and no other row changed |
| IndexAcl.StaleAclStaysHidden | agent/clarity_agent/local_index.py:841-859 | from the sweep that sends a row back until its next publication, authorised searches refuse it, over any run in which the clock does not go back |
| IndexAcl.LongerMaxAgeExposes | agent/clarity_agent/local_index.py:669-681 | the bound on the age limit is needed: with any larger one, any file with text reaches a state in which its row is overdue and, sent back by the sweep, still opens for its reader |
| SlidingWindows.CoverageSharp | agent/clarity_agent/local_index.py:176-199 | ranges of a length all lie in one window exactly when the length is at most overlap + 1 or the text fits in one window |
| SlidingWindows.LongRangeMissed | agent/clarity_agent/local_index.py:176-199 | the range of overlap + 2 characters that no window holds |
| SlidingWindows.WindowCount | agent/clarity_agent/local_index.py:176-199 | the number of windows in closed form |
| Extraction.CutWindows | agent/clarity_agent/local_index.py:188-198 | the loop yields the rows of the sliding windows in order, numbered on from the start ordinal |
| Extraction.BoundedChunks | agent/clarity_agent/local_index.py:176-199 | the chunks of one text within the budget, the next ordinal and the remaining budget, which never goes negative |
| Extraction.ExtractPages | agent/clarity_agent/local_index.py:237-249 | the rows of a PDF: pages in order with their numbers, within the budget |
| Extraction.ExtractParagraphs | agent/clarity_agent/local_index.py:251-267 | the rows of a DOCX: blocks in order, within the budget |
| Extraction.ExtractChunks | agent/clarity_agent/local_index.py:227-276 | the rows and page count of a document of any kind |
| Extraction.PieceStored | agent/clarity_agent/local_index.py:69-70 | every piece of the retained text of at most 257 characters with something visible in it lies whole in one stored row |
| Extraction.LongerPieceLost | agent/clarity_agent/local_index.py:69-70 | 258 characters can be split |
| Extraction.WindowCountClosedForm | agent/clarity_agent/local_index.py:176-199 | 1 + max(0, ceil((n - 20000) / 19744)) windows for n > 0 retained characters |
| Extraction.SingleTextWithinBound | agent/clarity_agent/local_index.py:1066-1071 | a file made of one text meets the search's bound on chunks per file |
| Extraction.BlockRowCount | agent/clarity_agent/local_index.py:176-199 | the number of rows of any list of blocks: for each retained block its windows that hold something visible |
| Extraction.RowCountOfLengths | agent/clarity_agent/local_index.py:1066-1071 | that number is at most the sum of the closed-form window counts of the retained lengths, and equals it where no window is blank |
| Extraction.ManyShortBlocksExceedBound | agent/clarity_agent/local_index.py:1066-1071 | a document of many short blocks does not, for every budget of two or more characters |
| Extraction.RowsInBlockOrder | agent/clarity_agent/local_index.py:227-276 | ordinals without a gap, each row cut, in order, from a block whose page number it carries |
| Extraction.DocumentRowsNumbered | agent/clarity_agent/local_index.py:227-276 | ordinals are exactly 0..k-1; page numbers of a PDF are in range, correct and never go back |
| Extraction.RetainedIsPrefixIff | agent/clarity_agent/local_index.py:227-276 | the retained text is a prefix of the visible text exactly when nothing is kept after a block that the budget hid |
| Extraction.HiddenBlockBreaksOrder | agent/clarity_agent/local_index.py:176-199 | a concrete document for which it is not |
| LikePattern.EscapeIsOnePass | agent/clarity_agent/local_index.py:308-309 | three ordered replacements equal one character map |
| LikePattern.EscapedLikeIsPrefix | agent/clarity_agent/local_index.py:308-309 | the compiled pattern matches exactly the strings that start with the text, up to ASCII case, for all texts |
| LikePattern.EscapeOrderMatters | agent/clarity_agent/local_index.py:308-309 | another order of the replacements would corrupt the text |
| Search.RelativeIsContained | agent/clarity_agent/local_index.py:293-305 | every accepted path starts, up to case, with its root, and its relative form has no empty, "." or ".." component |
| Search.RelativeLocatesFile | agent/clarity_agent/local_index.py:293-305 | an accepted path is cut right after its root, up to case, exactly when what is cut off folds to as many characters as the root with its separator; the relative form is what follows the cut |
| Search.LongFoldCutsTooFar | agent/clarity_agent/local_index.py:293-305 | sharp s, which folds to ss, is outside the condition: a root spelt with ss and a path spelt with sharp s lose two characters of the relative path |
| Search.ClauseMeansScope | agent/clarity_agent/local_index.py:1012-1036 | a compiled clause selects exactly the rows in its scope |
| Search.BuildClauses | agent/clarity_agent/local_index.py:1012-1036 | one clause per scope, or the error of a scope that has none |
| Search.CollectHits | agent/clarity_agent/local_index.py:1093-1136 | the loop over ranked rows yields the first distinct accepted documents |
| Search.ManyDocuments | agent/clarity_agent/local_index.py:1063-1082 | few rows per document means many documents: the pigeonhole behind the over-fetch |
| Search.ManyShown | agent/clarity_agent/local_index.py:1063-1116 | the same with waste: rows that may be shown belong to many documents, whatever else is refused or repeated |
| Search.TopKExact | agent/clarity_agent/local_index.py:1063-1136 | from tiers cut to limit * M rows come the same documents as from the complete rankings when fewer than M of the rows fetched of each cut tier are wasted: refused, or beyond M of one document |
| Search.WasteAllowedExactly | agent/clarity_agent/local_index.py:1063-1136 | for every M and bound, given a document that may be shown and a row refused or of another document: pages are exact for all tiers and limits with less waste than the bound if and only if the bound is at most M |
| Search.RefusedRowsHide | agent/clarity_agent/local_index.py:1105-1116 | for every M, M refused rows hide a document that may be shown |
| Search.SurplusRowsCrowdOut | agent/clarity_agent/local_index.py:1063-1082 | for every M, 2 * M rows of one document crowd another off a page of two |
| Search.RunSearch | agent/clarity_agent/local_index.py:987-1154 | a search returns the first distinct documents of the cut tiers under its clauses, those of the full rankings when fewer than M rows of each cut tier are wasted, and fails exactly on bad scopes |
| Search.HitsDistinct | agent/clarity_agent/local_index.py:1103-1117 | no document is shown twice, up to case |
| Search.HitsStayInScope | agent/clarity_agent/local_index.py:1095-1104 | every hit lies under its assigned root and in a requested scope |
| IndexSearch.SearchShowsFullRankings | agent/clarity_agent/local_index.py:1043-1136 | over any reachable index whose documents are all within the row bound M and whose paths differ in more than case, a search shows the documents of the complete rankings while fewer than M of the rows fetched of each cut tier are refused |
| IndexSearch.HitsAreCurrent | agent/clarity_agent/local_index.py:1043-1136 | over any reachable index every hit is a listed file under its share whose stored rows are exactly the text it was last published with |
| IndexSearch.OverduePathNeverShown | agent/clarity_agent/local_index.py:669-681 | a path whose row was sent back for its overdue access list is on no authorised page, over any run until its next publication in which the clock does not go back, whatever matches, under the age limits of StaleAclStaysHidden |
| NativeAcl.CaptureSmbAcl | agent/clarity_agent/native_acl.py:73-141 | the captured record keeps exactly the effective, plain, read-capable ACEs in order, and is healthy only if it keeps one |
| NativeAcl.FirstMatchDecides | agent/clarity_agent/native_acl.py:196-219 | the ordered access check of [MS-DTYP] section 2.5.3.2 on FILE_READ_DATA is decided by the first matching ACE about reading |
| NativeAcl.AuthorizedExactly | agent/clarity_agent/native_acl.py:196-219 | the record allows exactly when it is fresh, Windows grants reading and no read deny names the caller, for any order of the ACEs |
| NativeAcl.CanonicalAgreement | agent/clarity_agent/native_acl.py:196-219 | on a canonical list the two decisions coincide |
| NativeAcl.LateDenyRefused | agent/clarity_agent/native_acl.py:196-219 | out of canonical order the record is the stricter one |
| NativeAcl.DenyIsMonotone | agent/clarity_agent/native_acl.py:196-219 | a longer deny list never turns a refusal into an allow |
| Sanitize.PdfWriter.ScrubReachable | scripts/build_sample_template_library.py:620-637 | the worklist ends on any finite cyclic graph, and what it leaves is the graph with the stripped keys gone from exactly the reachable dictionaries |
| Sanitize.PdfWriter.Run | scripts/build_sample_template_library.py:608-651 | scrub, embedded files and document information together; fails exactly when the names entry does not resolve |
| Sanitize.NoActiveContentReachable | scripts/build_sample_template_library.py:602-646 | nothing reachable afterwards holds a stripped key, and the names tree holds no embedded files |
| Sanitize.ScrubbedReach | scripts/build_sample_template_library.py:620-637 | what the walk reaches is what can be reached afterwards, and nothing becomes reachable that was not |
| Sanitize.RestIsKept | scripts/build_sample_template_library.py:620-646 | arrays, leaves, unreachable objects and every other entry are unchanged |
| Sanitize.SanitizeTwice | scripts/build_sample_template_library.py:608-651 | a second pass finds nothing to do |
| Normalize.NormalizeReport | scripts/reconcile_dast_findings.py:167-221 | the nested loops over sites, alerts and instances yield the groups of all sightings that have an address |
| Normalize.ReportedExactly | scripts/reconcile_dast_findings.py:167-221 | a key is reported exactly when it was seen at an address that counts; its group lists exactly its addresses and verbs, and the details of its first alert |
| Normalize.ConsistentIff | scripts/reconcile_dast_findings.py:111-118 | findings can be reconciled for good exactly when keys that spell one fingerprint text want the same issue, for a digest that tells the texts of the keys at hand apart |
| Normalize.PlainRulesAreConsistent | scripts/reconcile_dast_findings.py:111-118 | rule ids without a bar are enough for that |
| Normalize.PlainRulesSettle | scripts/reconcile_dast_findings.py:435-534 | so one run settles the issues of any report whose rule ids hold no bar, from any store |
| Normalize.ClashingKeysNeverSettle | scripts/reconcile_dast_findings.py:435-534 | two keys that spell one text and want different issues make every run on every store report a change, for any digest |
| Normalize.CollisionFreeDigestExists | scripts/reconcile_dast_findings.py:111-118 | for any report there is a digest of 40 hexadecimal digits that tells its keys' texts apart |
| Normalize.BarsCollide | scripts/reconcile_dast_findings.py:111-118 | two different keys that spell one fingerprint text |
| Findings.MarkersReadBack | scripts/reconcile_dast_findings.py:304-358 | both digests read back from a rendered body, whatever text the scanner supplied |
| Findings.TitleIsNotAlert | scripts/reconcile_dast_findings.py:292-296 | no finding's title is the scan alert's |
| Reconcile.GroupByFingerprint | scripts/reconcile_dast_findings.py:454-459 | the dictionary by fingerprint holds the listed issues, each list in listing order |
| Reconcile.GitHub.ApplyFindings | scripts/reconcile_dast_findings.py:464-504 | each finding is created, updated, reopened or left, judged by the listing taken at the start, and counted |
| Reconcile.GitHub.CloseResolved | scripts/reconcile_dast_findings.py:506-530 | closes exactly the open listed issues of absent fingerprints, once each |
| Reconcile.GitHub.CloseScanAlert | scripts/reconcile_dast_findings.py:564-578 | closes exactly the open issues with the alert's title |
| Reconcile.GitHub.ReconcileFindings | scripts/reconcile_dast_findings.py:435-534 | the whole run against its specification, dry or not, with its counts |
| Convergence.OneRunSettles | scripts/reconcile_dast_findings.py:435-534 | from any store, one run leaves every finding with an open issue of its title, content digest and labels, and no open issue of an absent fingerprint when closing is permitted |
| Convergence.SettledRunDoesNothing | scripts/reconcile_dast_findings.py:435-534 | a run on a settled store changes nothing and counts nothing |
| Convergence.SecondRunIsQuiet | scripts/reconcile_dast_findings.py:435-534 | a second run with any run address changes nothing and reports zero throughout |
| Convergence.DisagreementNeverSettles | scripts/reconcile_dast_findings.py:464-504 | two findings with one fingerprint that want different issues make every run on every store report a change |
| Artifact.LoadRecords | scripts/upload_backup_artifact.py:235-255 | the record loop succeeds exactly when every record parses and no path repeats, and its dictionary is the list |
| Artifact.LoadManifest | scripts/upload_backup_artifact.py:231-257 | a manifest is taken exactly when version, records, distinctness and order are right |
| Artifact.ExtractMember | scripts/upload_backup_artifact.py:267-309 | one member is taken exactly when it is a file under the prefix, described by its record in size and digest, and clashes with nothing extracted |
| Artifact.VerifyArtifact | scripts/upload_backup_artifact.py:223-313 | without an I/O error verification accepts exactly the archives that its declarative description accepts, and leaves exactly their files |
| ArtifactRoundTrip.AcceptanceIsExact | scripts/upload_backup_artifact.py:223-313 | acceptance of any archive means members, manifest paths and extracted files are one set of paths in normal form, with recorded size and digest |
| ArtifactCreation.ScanSource | scripts/upload_backup_artifact.py:59-91 | the scan is the regular files with portable names, sorted; anything else fails it |
| ArtifactCreation.ScanDetermined | scripts/upload_backup_artifact.py:90-98 | a listing without repeated names has one scan, so equal listings have equal fingerprints |
| ArtifactCreation.HashingReader.Read | scripts/upload_backup_artifact.py:36-46 | what is hashed and counted is what was read |
| ArtifactCreation.AddFile | scripts/upload_backup_artifact.py:153-177 | exactly the announced bytes are copied, hashed and counted; a shorter file is an error |
| ArtifactCreation.ArchiveFile | scripts/upload_backup_artifact.py:131-186 | a file is archived exactly when its state was the scanned one before and after |
| ArtifactCreation.CreateArtifact | scripts/upload_backup_artifact.py:101-209 | success means archive and manifest of one unchanged scan; a raised exception never leaves a new manifest, and leaves no new archive unless taking it back raised too; an unchanged source succeeds |
| ArtifactRoundTrip.MemberFoundAgain | scripts/upload_backup_artifact.py:269-279 | a member written under a prefix is found again exactly when the prefix is neither "." nor ".." |
| ArtifactRoundTrip.MemberReadBack | scripts/upload_backup_artifact.py:155-279 | the same for the name a reader of the archive sees, which ends at a NUL in the prefix unless the extended header carries it |
| ArtifactRoundTrip.RoundTrip | scripts/upload_backup_artifact.py:101-313 | what was created is accepted exactly when the source is empty, or the prefix is neither "." nor ".." and cuts no name short with a NUL; and it extracts to the same paths and bytes |
| Detection.DetectChanges | agent/clarity_agent/smb_scanner.py:224-255 | new, changed, unchanged and deleted files of a scan against the ledger |
| Ledger.FileLedger.UpsertFiles | agent/clarity_agent/db.py:115-147 | rows in order up to the one that fails; the identity index stays unique |
| Ledger.FileLedger.MarkDeletedPaths | agent/clarity_agent/db.py:211-220 | marks in order up to the one that fails, and only rows that exist |
| Ledger.FileLedger.AssignSourceIdentity | agent/clarity_agent/db.py:151-166 | keeps the identity of the path, or gives it a new one |
| Ledger.FileLedger.ResolveSource | agent/clarity_agent/db.py:168-177 | the one live row of an identity, or none |
| Ledger.AcceptBatch | agent/clarity_agent/__main__.py:257-282 | splits a batch by the reply: nothing is accepted under an error without a path, and no path that has one |
| Ledger.SyncBatch | agent/clarity_agent/__main__.py:254-284 | one request and the ledger writes that follow it, however they end |
| Ledger.ScanShare | agent/clarity_agent/__main__.py:202-331 | the loop of requests, how the ledger ends up for every way it can stop, and the reported count and status |
| LedgerAgreement.RequestsPartition | agent/clarity_agent/__main__.py:248-254 | the requests cut the candidates into batches of at most 100 without a gap and send the deletions once |
| LedgerAgreement.OnlyAcknowledged | agent/clarity_agent/__main__.py:249-284 | whichever request or write fails, a row changes only if a reply without an error for its path or for the request answered a request that named it |
| LedgerAgreement.ErrorFreeRunRecordsAll | agent/clarity_agent/__main__.py:248-284 | without errors every candidate is recorded as sent, every deletion marked and every other row left alone |
| LedgerAgreement.IdentityIsStable | agent/clarity_agent/db.py:151-166 | a path keeps its identity through any synchronisation |
| LedgerAgreement.CountIsRightIff | agent/clarity_agent/__main__.py:309-312 | the reported count is right exactly when the failing batch held no accepted backfill or no change had been accepted before it |
| LedgerAgreement.BackfillLostFromCount | agent/clarity_agent/__main__.py:273-284 | a run whose report is one short |
| LedgerAgreement.ErrorFreeCountsEachFileOnce | agent/clarity_agent/__main__.py:309-312 | without errors every scanned file is counted once |
| Detection.SecondScanIsQuiet | agent/clarity_agent/smb_scanner.py:224-255 | after a synchronisation without errors, scanning the same files finds nothing new, changed, deleted or left to backfill |
| UncPath.UnderRootIffPartsExtend | agent/clarity_agent/file_opener.py:117-126 | the string test on folded paths holds exactly when the root's parts are, up to case, leading parts of a longer path |
| UncPath.ValidationExact | agent/clarity_agent/file_opener.py:95-127 | a path is released exactly when the row agrees with the grant and lies inside the first assigned share of that id, which is enabled |
| Broker.ServeRequest | agent/clarity_agent/file_opener.py:458-495 | a path is written only after redeeming, resolving, validating and probing, on the same instance |
| Broker.AnswerError | agent/clarity_agent/file_opener.py:496-534 | the outcome of every way the body ends, whatever becomes of the error message |
| Broker.ServeAndReplace | agent/clarity_agent/file_opener.py:455-559 | a turn is one of the possible turns, call by call; it reports, replaces and closes in that order, and what stays open for every way it ends |
| Broker.RunBroker | agent/clarity_agent/file_opener.py:434-564 | the trace is a run of the loop's turn relation, for any number of turns; at every moment the name is held, paths are justified, redeemed intents reported once each and in order; what is open at each kind of end |
| Broker.ClosedExactlyOnce | agent/clarity_agent/file_opener.py:541-564 | when nothing is left open every instance created was asked to close exactly once |
| Broker.ClosedAtMostOnce | agent/clarity_agent/file_opener.py:541-564 | in any run no instance is asked to close twice |
| Broker.CancelledRunLeavesOpen | agent/clarity_agent/file_opener.py:535-559 | a run cancelled inside the loop has nothing open exactly when no replacement was wanted or none could be made; a replacement that was made is open and never closed |
| Broker.CancellationLeavesReplacementOpen | agent/clarity_agent/file_opener.py:535-559 | the shortest such run, of a task cancelled while it waits for its first client |
| Ingest.ChunkingEnds | scripts/ingest_courtlistener.py:63-84 | the chunking loop ends exactly when overlap < max_tokens or everything fits in one chunk |
| Ingest.ChunkText | scripts/ingest_courtlistener.py:63-84 | whenever the loop ends it yields the trimmed, non-blank chunks of the sliding windows over the tokens |
| Ingest.TokensKeptTogether | scripts/ingest_courtlistener.py:63-84 | a stretch of at most overlap + 1 tokens lies whole in one window, whose chunk is stored unless blank |
| Ingest.Database.BulkInsertChunks | scripts/ingest_courtlistener.py:109-141 | one transaction per flush: all rows or none, and a failed commit may be either |
| Ingest.Run | scripts/ingest_courtlistener.py:284-334 | a run that finishes has committed everything it read; one that dies leaves what was committed at some opinion boundary; the totals add up |
| Ingest.RunKeepsAllOrNothing | scripts/ingest_courtlistener.py:284-334 | one run, finished or not, keeps every opinion whole or absent, and a finished one has all it read |
| Ingest.RestartsKeepAllOrNothing | scripts/ingest_courtlistener.py:284-334 | the same over any sequence of crashes, limits, batch sizes and reruns |
| Ingest.RepeatedOpinion | scripts/ingest_courtlistener.py:99-108 | an opinion listed twice is kept whole exactly when its first copy was sent before the second was read |

## Left out

- Tokenising, ranking and snippets of full-text search: which rows each tier ranks and in what order is an input; so is the split of a query into its strict and relaxed form.
- The parsers of PDF, DOCX and RTF and the decoding of text: pages and blocks are inputs. `_blank_ops` and watermark removal, which rewrite content streams, are not part of this model.
- The text form of security descriptors (`normalize_sddl`): ACEs arrive as kind, flags, mask and SID. Lower-casing is modelled for the characters that occur in SIDs.
- Columns that are only copied or only reported: `acl_version`, `acl_state`, `indexed_at` and the state text of the index. Row ids are a growing counter.
- Normalising the extensions a search is given, and the numeric score of a hit, which does not order anything.
- Non-ASCII lower-casing of file extensions: the suffix of a path is a parameter.
- The backoff of a retry reads the clock once; that reading is an argument of the step.
- IndexDrain.QueueCanDrain: shows, for every ending of every job, a run in which the workers finish; that a scheduler grants them that run is fairness of the event loop, which is not modelled.
- Cancellation of an enqueuer between commit and signal is modelled as its death.
- The event loop's own clock: a sleeper's deadline is kept as the wall-clock time it was computed for, and a sleeper may wake at any time. Lapsed leases set no deadline in the source; the longest wait bounds how late they are found.
- Decryption, parsing and writing of PDF files, and object identity by address: objects have references.
- GitHub transport, pagination and label creation; the service stores titles, bodies and labels as sent. A run that fails half-way is covered by convergence from any store.
- The nuclei form of a report, the choice of edge-managed addresses by pattern and the final sort of findings: passed-over addresses are a predicate, and the groups are a map.
- SHA-1, SHA-256 and tokenisers are functions about which nothing is assumed, except that a fingerprint tells the key texts of one report apart, where a lemma says so, and 64 lower-case hexadecimal digits in the archive round trip.
- The byte form of tar archives and of JSON: members and parsed values are given, and a member carries any name that is valid text, up to a NUL as said above. Permissions and times of members, and the check that an extracted path stays inside a resolved target, which a clean relative path cannot fail.
- The failure of the second temporary file's creation, which leaves the first behind, and exceptions that are not `Exception`, which no handler of `create_artifact` sees.
- Uncommitted ledger rows that a crash takes back: a failed write is modelled as visible, as it is on the open connection.
- The scanner's walk, its content hashes and its directory cache; the local index step of a scan, whose only effect on the report is an error flag; messages of errors.
- Ingest.ChunkText: takes just the calls for which the loop ends, which ChunkingEnds characterises; the others run for ever.
- Broker.RunBroker: is stated for any number of turns given in advance, since the loop runs until it is stopped.
- The pipe's access control, the authentication of the peer process and the message framing: each is a call that may refuse. The shape of the agent id is checked before any pipe exists and is not part of this model.
- A cancelled close counts as asked for, although the thread may not have started; a cancelled creation may or may not have made an instance.
- Reading of opinions and the extraction of their fields: an input line is an opinion or nothing. Two ingesters at work at the same time are not modelled.
- Logging, telemetry, configuration, schema migration, service commands and the rehearsal scripts.
