# DossierX approval engine: a verified model

DossierX keeps claims and briefs as files, a lock store of signed approvals beside them, and
commands that move the two together. This project models the engine's hardest parts in Dafny
and proves what they are for. One module per concern:

- **Briefs.** `BriefModel` (records and baselines), `BriefEvaluate` (lock states, reviews and
  findings), `BriefIntegrity` (what the findings detect between them), `BriefRules` (the error
  findings a lock refuses on), `BriefLifecycle` (lock, unlock and reaudit with their write
  orders), `BriefRuns` (every run of them, stopping after any write), `BriefOutcome` (what each
  refuses and what it leaves), `BriefPreview` (the dry runs against the runs they preview).
- **Claims.** `ClaimModel` (claims, ledger, baselines), `SetLock` (the all-or-nothing lock of a
  set), `ProposalToken` (the token that binds what a human was shown), `ClaimReview` (unlock,
  flag, reaudit, reconcile), `ClaimRuns` (every run of them, an editor included).
- **The catalog.** `JsonText` and `JsonPrint` (what encoding/json prints), `CatalogModel` (the
  redacted export), `CatalogJson` and `CatalogText` (what each part prints against what it is
  charged), `CatalogBudget` (the saturating walk and the bounded encoder).
- **Text algorithms.** `WordingDiff`, `LockHash`, `CrlfStream`, `Frontmatter` with
  `FrontmatterRead`, `FrontmatterWrite`, `FrontmatterComments` and `FrontmatterEndings`, `Marks`,
  `SpliceSection`, `Inbox`.
- `GoStd`: the parts of Go's standard library these lean on.

Code that changes state in steps is a class whose methods change fields (the projects, the
budget, the CRLF writer, the dry-run report, the graph walk), or a method with a loop; each is
tied to a function of its inputs, and the properties are lemmas about that function. Every
file write may fail, and where a command makes several the number that landed is part of its
outcome, so a run may stop after any of them.

## Conventions and findings

- A `string` holds a Go string's bytes, one per char, except in `Marks`, whose source walks
  runes of valid UTF-8.
- A digest is known only by what was hashed (`Digest`, `ContentHash`, `SignedHash`), or is an
  injective parameter.
- `splitMarkable` documents curly quotes among its edge characters; its loops compare single
  bytes and never match them (`Marks.CurlyQuotesStay`).
- `normalizeLineEndings` is not idempotent (`CrlfStream.NormalizeTwice` gives the exact
  condition), and splicing over a BEGIN without an END loses text on the second run
  (`SpliceSection.UnclosedShrinks`).
- `catalogProjectionStringLowerBound` charges `RestsOn.Reason` always and `entryFor` emits it
  only with `None`: `CatalogBudget.EncodeBounded` assumes a reason implies `None`, which the
  decoder guarantees (`DecodedReasonsAreStated`), and `UnstatedReasonIsOvercharged` shows the
  assumption is needed.
- Deleting the newest reply of a thread between two polls can hide an event from the inbox:
  `Inbox.DeletedReplyIsMissed` is such a run, and `Inbox.ListedIff` says exactly what is listed.
- A claim that rests on itself is pending again after a confirmed reaudit that changed its body
  (`ClaimReview.ConfirmedStaysSettledIff`). A set lock refuses such a claim and the self-edge
  lint names it, but reaudit runs no lint: the claim gets there by an edit of a locked file that
  has no standing record (`ClaimReview.SelfRestingDriftsAgain`).
- The writer of a brief's frontmatter trims every CR and LF of a fence line, and its reader one
  CR LF and no bare CR. They take the same block exactly when both fences are clean
  (`FrontmatterRead.EndsAgreeIff`); `BareCrNeverCloses`, `TwoCrsNeverOpen` and `TwoCrsCloseLate`
  are files where they do not. A rewrite is refused for it exactly when the reader finds no block
  at all (`FrontmatterWrite.SetStatusReadsBack`).

## Model

| member | source | states |
|---|---|---|
| `BriefModel.Baselines` | internal/briefs/lockstate.go:483-500 | the hash and receipt of every listed id a claim carries, and exactly the listed ids none carries |
| `BriefModel.RelockBaselines` | internal/briefs/lockstate.go:451-478 | an earlier record's baselines win for ids still listed, ids newly listed read the claims, ids no longer listed are gone; `unknown` is what neither gives |
| `BriefEvaluate.ContentMoved` | internal/briefs/lockstate.go:343-365 | names exactly the parts that moved, and none iff hash and image map agree with the record |
| `BriefEvaluate.RetainedClaimContent` | internal/lock/briefs.go:196-215 | finds a snapshot iff the store retains one of that id and hash, whatever order the maps are walked in |
| `BriefEvaluate.SnapshotIs` | internal/lock/briefs.go:196-215 | a retained snapshot answers for a claim iff it is of that id and hashes as asked |
| `BriefEvaluate.BaselineWording` | internal/briefs/lockstate.go:429-437 | a wording shown is the baseline's own words; none is shown only when no retained snapshot hashes to it |
| `BriefEvaluate.Compare` | internal/briefs/lockstate.go:251-290 | every differing baseline once, in id order, with its finding; drifted counts the ones that still exist |
| `BriefEvaluate.MovedNamesTheCause` | internal/briefs/lockstate.go:262-285 | a claim that is gone raises brief-rests-on-missing and one that changed brief-dependency-drift, at the brief and naming the claim |
| `BriefEvaluate.AbandonedFindings` | internal/briefs/lockstate.go:369-393 | one finding for each standing record whose brief is absent, at the record's path or the path its id names, and no other |
| `BriefEvaluate.AbandonedPointsAtTheBrief` | internal/briefs/lockstate.go:369-393 | such a finding points at the record's own path, or at the path its id names |
| `BriefEvaluate.PathOfIsExact` | internal/briefs/lockstate.go:395-407 | an id splits back into its folder and slug |
| `BriefEvaluate.EvaluateOne` | internal/briefs/lockstate.go:212-299 | a brief's lock state, review, what it shows of a standing record, and findings: pending iff some baseline differs, drift outranking missing |
| `BriefEvaluate.ShownIsTheRecord` | internal/briefs/lockstate.go:214-226 | a review shows the time, reason, text and images of a record that stands, and of no other |
| `BriefEvaluate.RaisedNamesTheState` | internal/briefs/lockstate.go:228-250 | orphan, unrecorded and content-drift are raised for a draft on a standing record, a locked brief on none, and a locked brief its record does not sign, and for nothing else |
| `BriefEvaluate.ReportOrders` | internal/briefs/lockstate.go:300-310 | integrity findings come by path and then rule, lint findings the missing before the drifted and by path within each |
| `BriefEvaluate.Evaluate` | internal/briefs/lockstate.go:200-310 | every brief's review; the lint and integrity findings are exactly those raised, in report order |
| `BriefIntegrity.CleanIff` | internal/briefs/lockstate.go:25-56 | no integrity finding iff each draft is unapproved, each locked brief is as its standing record signed it, and each standing record's brief exists |
| `BriefIntegrity.TreeEditDetected` | internal/briefs/lockstate.go:200-310 | from a clean project, an edit to the briefs alone goes unreported iff every locked brief stays, locked, with the same summary, body, rests_on set and images, and no other becomes locked |
| `BriefIntegrity.StoreEditDetected` | internal/briefs/lockstate.go:200-310 | from a clean project, an edit to the store alone goes unreported iff the same records stand with the same hash and images |
| `BriefIntegrity.UnreadableStoreIsReported` | internal/briefs/lockstate.go:180-183 | an unreadable store leaves a project clean iff it locks no brief |
| `BriefRules.RestsOnUnknown` | internal/briefs/rules.go:200-219 | exactly one finding kind for each listed id that no claim carries and no evaluation stands in for |
| `BriefRules.ErrorFindings` | cmd/dossierx/brief_lock.go:100-108 | empty iff the tree raised no error on the brief, its folder or the tree, and every id it rests on is a claim |
| `BriefLifecycle.Project.Lock` | cmd/dossierx/brief_lock.go:188-289 | refuses with the first failing gate and writes nothing; otherwise the file then the store, up to the write that failed |
| `BriefLifecycle.Project.Unlock` | cmd/dossierx/brief_lock.go:410-456 | the release, then the file, up to the write that failed |
| `BriefLifecycle.Project.Reaudit` | cmd/dossierx/brief_lock.go:522-578 | refuses with the first failing gate; otherwise one store write that refreshes the baselines |
| `BriefLifecycle.NoneUnknown` | cmd/dossierx/brief_lock.go:257-262 | with no error finding a lock baselines exactly the ids the brief lists, whatever record it follows, so the refusal of an unknown id never fires |
| `BriefOutcome.LockGates` | cmd/dossierx/brief_lock.go:188-262 | the lock refuses with the first failing gate of its list, each gate told of the files: no error about the brief, no open thread, a readable store, not signed as it reads, a ledger ready |
| `BriefOutcome.UnlockGates` | cmd/dossierx/brief_lock.go:410-438 | the unlock refuses with the first failing gate of its list |
| `BriefOutcome.ReauditGates` | cmd/dossierx/brief_lock.go:522-560 | the reaudit refuses with the first failing gate of its list: locked on a record, unedited, no open thread, something moved, every listed claim there |
| `BriefOutcome.NoBriefIsNotFound` | cmd/dossierx/brief_lock.go:195-212 | a brief that is not there is not found, after the gates ahead of it |
| `BriefOutcome.LockLeavesLocked` | cmd/dossierx/brief_lock.go:268-289 | a finished lock leaves the file locked and otherwise as it was, on a standing record of its text and images with the command's time and reason, and every other brief and record as they were |
| `BriefOutcome.UnlockLeavesDraft` | cmd/dossierx/brief_lock.go:439-456 | a finished unlock leaves a draft, otherwise as it was, its record kept and released with the command's time and reason, and the rest as it was |
| `BriefOutcome.ReauditLeavesReread` | cmd/dossierx/brief_lock.go:561-578 | a finished reaudit leaves the files alone and records every listed claim as it reads now, the images, and one more reaudit naming exactly the claims that differed |
| `BriefOutcome.LockKeepsClean` | internal/briefs/lockstate.go:25-56 | a finished lock of a project without integrity findings leaves none |
| `BriefOutcome.UnlockKeepsClean` | internal/briefs/lockstate.go:25-56 | a finished unlock of a project without integrity findings leaves none |
| `BriefRuns.RunsStaySound` | cmd/dossierx/brief_lock.go:20-23 | over every run with a stop after any write: no draft holds a standing record, every record's text is what its hash signs, every baseline has its receipt |
| `BriefRuns.RunsNeverLookTampered` | internal/briefs/lockstate.go:44-55 | such a run never raises brief-orphan or brief-abandoned |
| `BriefRuns.LockedReadsAsApproved` | internal/lock/briefs.go:36-45 | a locked, unedited brief reads as its record's retained approved text |
| `BriefRuns.WordingIsNeverLost` | internal/briefs/lockstate.go:422-428 | in every reachable state each baseline's wording is available, from the record's own receipt |
| `BriefRuns.LockRerunFinishes` | cmd/dossierx/brief_lock.go:268-289 | a lock stopped after its file write is accepted when run again and reaches the state it was going to |
| `BriefRuns.LockRerunNeedsSoundness` | cmd/dossierx/brief_lock.go:233-238 | it is accepted again iff the brief was not a draft whose record still stands and agrees |
| `BriefRuns.UnlockRerunFinishes` | cmd/dossierx/brief_lock.go:439-456 | an unlock stopped after its store write is finished by running it again |
| `BriefRuns.StoppedLockIsReported` | cmd/dossierx/brief_lock.go:285-288 | a lock stopped between its writes is reported: unrecorded, or the content drift it was already |
| `BriefRuns.StoppedUnlockIsReported` | cmd/dossierx/brief_lock.go:453-456 | an unlock stopped between its writes is reported as unrecorded |
| `BriefRuns.BaselineIsLastRead` | internal/briefs/lockstate.go:439-478 | over every run, a baseline is the claim at the brief's first lock since it listed it, or at its last confirmed reaudit |
| `BriefRuns.BaselineWasReadAt` | internal/briefs/lockstate.go:439-478 | over every run, no baseline iff each approval that listed the claim was followed by one that does not; otherwise it is the claim as it read at one event, the last confirmed reaudit or the first lock since the claim was listed |
| `BriefRuns.PendingExactly` | internal/briefs/lockstate.go:251-298 | in every reachable state a brief is review_pending iff it is locked on a standing record and some claim it was read against has changed since or is gone |
| `BriefRuns.BaselineSurvives` | cmd/dossierx/brief_lock.go:242-252 | no run of edits, unlocks and locks that keeps listing a claim moves its baseline; only a confirmed reaudit does |
| `BriefRuns.ConfirmClears` | internal/lock/briefs.go:137-161 | a confirmed reaudit clears review_pending and changes nothing else of the approval |
| `BriefPreview.DryRun.Require` | internal/cliout/dryrun.go:80-87 | the gate is recorded; a failing one joins Missing, and Blocked stays equivalent to a non-empty Missing |
| `BriefPreview.DryRun.Lacking` | internal/cliout/dryrun.go:92-96 | a missing input joins Missing and blocks |
| `BriefPreview.LockDryRun` | cmd/dossierx/brief_lock.go:324-364 | Blocked iff the real run refuses, its first missing gate is that refusal, and the proposed baselines are those the run records |
| `BriefPreview.ReauditDryRun` | cmd/dossierx/brief_lock.go:599-623 | Blocked iff the confirmed run refuses, and its first missing gate is that refusal |
| `SetLock.AllowedIsUnique` | internal/lock/policy.go:76-220 | an allowed request names draft claims, one of each id |
| `SetLock.AllowedIff` | internal/lock/policy.go:76-220 | a request is allowed iff each id is one claim's and no other's, that claim is a draft without open threads, no record of it stands, and nothing else refuses it |
| `SetLock.OnlyTheTokenPasses` | cmd/dossierx/lock_policy.go:172-184 | one proposal passes, the token of what would be locked; none given is said to be missing and any other what does not match |
| `SetLock.ProposalGate` | cmd/dossierx/lock_policy.go:172-184 | refuses a missing proposal, and one that is not the token of the request over the claims as loaded, naming the mismatch |
| `SetLock.LocksWhatWasShown` | cmd/dossierx/lock_policy.go:172-184 | a token built over an earlier state passes only for the same ids with every claim in their closure reading as it did then, so each claim signed has the content shown |
| `SetLock.Project.WriteOne` | cmd/dossierx/lock_policy.go:243-252 | one claim saved over the captured file, the others untouched |
| `SetLock.Project.Rollback` | cmd/dossierx/lock_policy.go:223-242 | every written claim is put back or named, and so is each store, in order |
| `SetLock.Project.GiveUp` | cmd/dossierx/lock_policy.go:519-535 | after a failure the claim files are the captured ones plus the editor's saves, or the outcome names every restore that failed and only those |
| `SetLock.Project.LockSet` | cmd/dossierx/lock_policy.go:172-279 | succeeds iff the proposal is the token of what it is about to lock, the request is allowed and no step fails; success writes each requested claim locked and otherwise as loaded, drafts without open threads all, and the approved store; refused writes nothing; failed and restored is the captured state; failed and incomplete names exactly the failed restores |
| `SetLock.SuccessRecordsExactly` | cmd/dossierx/lock_policy.go:260-267 | success records the requested ids, each signing its claim as locked, and no other |
| `ClaimModel.ApproveRecords` | internal/lock/lock.go:1060-1071 | each approved claim's record signs it and its baselines are its dependencies as they read |
| `ClaimModel.ApproveLeavesOthers` | internal/lock/lock.go:1060-1071 | no other claim's record or baselines move |
| `ClaimModel.ApproveStamps` | internal/lock/lock.go:1060-1071 | the time of the last lock moves for the approved claims and no other |
| `ClaimModel.NothingReadNothingBaselined` | internal/lock/lock.go:1076-1087 | a claim none of whose dependencies is there gains no baselines |
| `ProposalToken.Walk.Visit` | cmd/dossierx/lock_policy.go:428-441 | the recursive visit ends on cyclic graphs, and leaves `seen` closed over what it entered |
| `ProposalToken.WalkAll` | cmd/dossierx/lock_policy.go:442-444 | both walks see exactly the closure of the request |
| `ProposalToken.ClosureIsReachable` | cmd/dossierx/lock_policy.go:426-444 | an id is in the closure iff a rests_on path from the request reaches it |
| `ProposalToken.Snapshot` | cmd/dossierx/lock_policy.go:419-455 | the token of the request and of its sorted closure's hashes, whatever order the map is walked in |
| `ProposalToken.TokenOfOne` | cmd/dossierx/lock_policy.go:419-455 | the token itself, for one claim that rests on nothing |
| `ProposalToken.Reviewed` | cmd/dossierx/lock_policy.go:478-517 | what is shown is the hashed closure, id by id with the same hashes, and nothing else |
| `ProposalToken.TokenBinds` | cmd/dossierx/lock_policy.go:419-455 | for one-line ids and hex hashes two tokens are equal iff request and every closure hash are |
| `ProposalToken.PreimageBinds` | cmd/dossierx/lock_policy.go:450-454 | the bytes hashed are equal iff the two readings are |
| `ProposalToken.TokenIgnoresOrder` | cmd/dossierx/lock_policy.go:419-455 | reordering the claims or the request leaves the token |
| `ProposalToken.UnescapeEscape` | cmd/dossierx/lock_policy.go:455-470 | QueryUnescape inverts QueryEscape and the escape holds no colon, so the token splits back |
| `ProposalToken.EscapesExactly` | cmd/dossierx/lock_policy.go:455 | the bytes that stand for themselves in the request part are exactly letters, digits and four signs |
| `ProposalToken.MismatchExact` | cmd/dossierx/lock_policy.go:461-476 | a token the engine built is never invalid, and is wrong_request iff the two requests read differently as a sorted comma list |
| `ProposalToken.MismatchOfAny` | cmd/dossierx/lock_policy.go:461-476 | any proposal is invalid iff it is not version, request and digest with a request that unescapes, and otherwise is told apart by its request |
| `ProposalToken.UnescapesIff` | cmd/dossierx/lock_policy.go:465-469 | a text unescapes iff every percent sign opens two hexadecimal digits |
| `ProposalToken.MismatchNamesTheRequest` | cmd/dossierx/lock_policy.go:457-476 | for non-empty ids without commas, wrong_request iff the requests differ |
| `ProposalToken.UniqueIds` | internal/lock/policy.go:263-280 | empties and repeats dropped, the rest sorted |
| `ProposalToken.MismatchMeansAnotherSet` | cmd/dossierx/lock_policy.go:457-476 | for normalised requests, wrong_request iff another set of claims was asked for |
| `ProposalToken.CommaHidesTheRequest` | cmd/dossierx/lock_policy.go:472-474 | the pair of requests a comma in an id confuses |
| `ClaimReview.PendingTriggers` | internal/comments/pending.go:26-44 | drift iff a listed dependency that exists left its baseline, flag iff one is parked, and the open threads; an unreadable store reports no drift |
| `ClaimReview.Project.Unlock` | cmd/dossierx/main.go:2258-2354 | the flag when its store can be read, the claim, then the release, up to the write that failed; no status is refused |
| `ClaimReview.Project.Flag` | cmd/dossierx/flag.go:134-198 | the flag, then review_pending, up to the write that failed |
| `ClaimReview.Project.Reaudit` | cmd/dossierx/main.go:2527-2790 | refuses with the first failing gate, a disputed record among them; otherwise the claim, the lock store, then the flag |
| `ClaimReview.Project.Reconcile` | cmd/dossierx/main.go:964-1058 | the claim files before the write that failed are reconciled and the rest untouched |
| `ClaimReview.ReconcileSettles` | cmd/dossierx/main.go:1023-1057 | it only sets review_pending, leaves every locked claim with a trigger pending, and run again changes nothing |
| `ClaimReview.ReconcileExactly` | cmd/dossierx/main.go:1023-1057 | a claim is pending afterwards iff it was, or it is locked and a dependency left its baseline, a flag is parked, or a thread is open; nothing else moves |
| `ClaimReview.ConfirmedPendsIffThreads` | cmd/dossierx/main.go:2752-2770 | a confirmed reaudit leaves review_pending set iff an open thread remains |
| `ClaimReview.ConfirmedStaysSettledIff` | cmd/dossierx/main.go:2752-2770 | the next reconcile agrees iff a thread is open, the claim does not rest on itself, or its body did not change |
| `ClaimReview.SelfRestingDriftsAgain` | cmd/dossierx/main.go:2527-2790 | the input that shows it: a locked claim resting on itself with no record, whatever else the stores hold, is accepted by every gate and drifts from itself afterwards |
| `ClaimReview.ReauditGates` | cmd/dossierx/main.go:2527-2738 | reaudit refuses with the first failing gate of its list: locked and pending, something besides a thread to review, no standing record that disagrees |
| `ClaimReview.FlagGates` | cmd/dossierx/flag.go:134-165 | flag refuses a claim that is not locked, after the gates ahead |
| `ClaimReview.UnlockGates` | cmd/dossierx/main.go:2258-2356 | unlock refuses no claim that is there, after the gates ahead |
| `ClaimReview.NoneIsNotFound` | cmd/dossierx/main.go:2269-2272 | a claim that is not there is not found, after the gates ahead |
| `ClaimRuns.RecordMovesOnlyHonestly` | cmd/dossierx/main.go:842-851 | a standing record is released by its own unlock, replaced by a reaudit only while the file hashes to it, and touched by nothing else |
| `ClaimRuns.DisputeSurvives` | cmd/dossierx/main.go:2707-2738 | over every run without its unlock, in which no reaudit of it finds the file as signed, the standing record stays |
| `ClaimRuns.DisputedIsRefused` | cmd/dossierx/main.go:2734-2738 | a claim its standing record disagrees with is refused by reaudit and by every set lock naming it |
| `ClaimRuns.ConfirmSignsTheFile` | cmd/dossierx/main.go:2752-2783 | after a confirmed reaudit the record signs the file just written |
| `ClaimRuns.ConfirmLeaves` | cmd/dossierx/main.go:2752-2790 | a finished reaudit leaves the claim with the confirmed body and trail, pending iff a thread is open, a record of exactly that, no flag, and every other claim, record and flag as it was |
| `ClaimRuns.LockSignsTheFiles` | cmd/dossierx/lock_policy.go:213-279 | after a set lock each requested record signs its file, now locked |
| `ClaimRuns.UnlockRerunFinishes` | cmd/dossierx/main.go:2340-2356 | an unlock stopped after any write is finished by running it again; the flag goes when either run could read its store |
| `ClaimRuns.UnlockLeavesNothing` | cmd/dossierx/main.go:2297-2356 | a finished unlock leaves the claim otherwise as it was, a settled draft, its record kept but released, a flag iff one was parked in a store that could not be read, and every other claim and flag as it was |
| `ClaimRuns.StoppedUnlockIsSafe` | cmd/dossierx/main.go:2297-2356 | wherever an unlock stops, a record it released is a draft's and a draft it made has no readable flag |
| `ClaimRuns.FlagIsRestored` | cmd/dossierx/flag.go:184-198 | a flag stopped after its first write is set pending by the next reconcile |
| `ClaimRuns.FlagLeavesPending` | cmd/dossierx/flag.go:166-198 | a finished flag leaves the flag parked, the claim pending and otherwise as it was, and every other claim as it was |
| `ClaimRuns.QuietStaysSettled` | cmd/dossierx/main.go:1023-1057 | over every run in which nothing calls for a review of a claim and no hand edit sets it pending, no command does |
| `ClaimRuns.StoppedReauditIsDisputed` | cmd/dossierx/main.go:2770-2783 | a reaudit stopped after the claim file stands disputed by the earlier record and is refused from then on |
| `ClaimRuns.BaselineIsLastRead` | internal/lock/lock.go:1063-1074 | over every run, a claim's baseline for a dependency is how it read when the claim was last approved resting on it |
| `ClaimRuns.BaselineWasReadAt` | internal/lock/lock.go:1063-1074 | over every run, a baseline is the dependency as it read at the last event that approved the claim resting on it, and there is none when no event did |
| `ClaimRuns.DriftsExactly` | internal/comments/pending.go:26-40 | a claim drifts iff a claim it rests on reads otherwise than then |
| `JsonText.QuotedUpperBound` | internal/catalog/catalog.go:677-711 | equals the encoder's length, byte for byte, over every byte string, malformed UTF-8 included |
| `JsonText.QuotedFits` | internal/catalog/catalog.go:677-711 | the count of any string of up to a sixth of the uint64 range fits in a uint64 |
| `JsonText.QuotedReadsBack` | internal/catalog/catalog.go:677-711 | the encoder's text reads back (RFC 8259, section 7) as the string with each bad byte replaced by U+FFFD |
| `JsonPrint.PrintAtLeastBare` | internal/catalog/catalog.go:807-814 | the indented print is never shorter than its bytes without white space |
| `JsonPrint.PrintLayout` | internal/catalog/catalog.go:807-814 | an object or array prints its brackets and between them one line a member or item, two spaces a level in, a comma after each but the last |
| `CatalogModel.DropInternalsTargets` | internal/visibility/visibility.go:65-82 | the ids that name no internals claim, in order |
| `CatalogModel.Document` | internal/catalog/catalog.go:313-362 | an entry per exported claim, sorted by id, and each facet and module with its exported ids sorted |
| `CatalogModel.DocumentLists` | internal/catalog/catalog.go:313-340 | one entry for each claim outside the internals facet and no other, sorted by id, each telling its claim field by field with its visible edges in order |
| `CatalogModel.DocumentIndexes` | internal/catalog/catalog.go:341-362 | every facet but internals and every module, each with its ids that are not internals, as often as they were there, sorted |
| `CatalogModel.NoInternalsNamed` | internal/catalog/catalog.go:304-312 | no edge, path, dependency_id, facet or module listing of the document names an internals claim |
| `CatalogModel.RedactionKeepsFacts` | internal/catalog/catalog.go:216-223 | redaction keeps every boolean, kind, source kind, record and place of the four lists, every id that is not internals, and every detail not authored on an internals claim |
| `CatalogModel.PrivateProseIsNotExported` | internal/catalog/catalog.go:262-272 | two catalogs that differ only in prose of a thread or flag of an internals claim have the same documents |
| `CatalogModel.PrivateProseIsWithheld` | internal/catalog/catalog.go:262-272 | each such detail reads the fixed withheld text and every other as it was |
| `CatalogJson.DocumentSkeletons` | internal/catalog/catalog.go:570-583 | the empty document's and an entry's constants are the lengths of their texts |
| `CatalogJson.ReadinessSkeletons` | internal/catalog/catalog.go:580-586 | the readiness constants are the lengths of their texts |
| `CatalogJson.ResultSkeletons` | internal/catalog/catalog.go:587-590 | a cause's and a conformance result's constants are the lengths of their texts |
| `CatalogJson.CheckSkeletons` | internal/catalog/catalog.go:591-597 | a conformance check's constants are the lengths of their texts |
| `CatalogJson.ConditionMembers` | internal/readiness/readiness.go:93-98 | a condition's members in order under their JSON names, the empty ones left out |
| `CatalogJson.CauseMembers` | internal/readiness/readiness.go:81-89 | a cause's members in order under their JSON names, the empty ones left out |
| `CatalogJson.AssessmentMembers` | internal/readiness/readiness.go:105-114 | the members every readiness record prints, in order under their JSON names |
| `CatalogJson.AssessmentTailMembers` | internal/readiness/readiness.go:115-121 | and those left out when empty |
| `CatalogJson.CheckMembers` | internal/conformance/conformance.go:166-172 | the members every conformance check prints, in order under their JSON names |
| `CatalogJson.CheckTailMembers` | internal/conformance/conformance.go:173-178 | and those left out when empty |
| `CatalogJson.ErrorMembers` | internal/conformance/conformance.go:67-70 | an observation error's members |
| `CatalogJson.ResultMembers` | internal/conformance/conformance.go:244-250 | a conformance record's members in order under their JSON names, the empty ones left out |
| `CatalogJson.AssessmentAtLeast` | internal/catalog/catalog.go:471-490 | a readiness record prints at least what the walk charges it |
| `CatalogJson.ResultAtLeast` | internal/catalog/catalog.go:492-545 | a conformance record, with every optional field, prints at least what the walk charges it |
| `CatalogText.EntryAtLeast` | internal/catalog/catalog.go:461-470 | an entry in place, indentation included, prints at least what the walk charges it |
| `CatalogText.EntryMembers` | internal/catalog/catalog.go:176-197 | an entry prints its members in order under their JSON names |
| `CatalogText.EntryTailMembers` | internal/catalog/catalog.go:191-197 | an entry's edges, then its readiness and conformance where there are any |
| `CatalogText.EdgeMembers` | internal/catalog/catalog.go:143-158 | the edges' members in order under their JSON names, the empty ones left out |
| `CatalogText.DocumentMembers` | internal/catalog/catalog.go:199-204 | the document prints claims, by_facet and by_module, in that order |
| `CatalogText.MapMembers` | internal/catalog/catalog.go:199-204 | a listing prints a member for each key, in key order, with its ids |
| `CatalogText.TextAtLeast` | internal/catalog/catalog.go:414-420 | no document is shorter than the charges of its parts |
| `CatalogText.ChargesAreEmitted` | internal/catalog/catalog.go:414-568 | every byte charged is in the file, for every catalog whose reasons are stated with `none` |
| `CatalogText.TextLengthIsFixed` | internal/catalog/catalog.go:340-341 | the unstable sort of equal ids never changes the length |
| `CatalogBudget.Budget.Add` | internal/catalog/catalog.go:664-671 | the saturating counter has passed its limit iff the unbounded sum has, and never leaves the range of a uint64 |
| `CatalogBudget.Budget.AddKeys` | internal/catalog/catalog.go:547-567 | in whatever order a map is walked, and however early it stops, the verdict on the limit is that of the whole sum |
| `CatalogBudget.LowerBound` | internal/catalog/catalog.go:421-568 | exceeded iff the sum of the charges passes the limit |
| `CatalogBudget.EncodeBounded` | internal/catalog/catalog.go:395-403 | refuses iff the full document is larger than the maximum, and otherwise returns it whole |
| `CatalogBudget.DecodedReasonsAreStated` | internal/model/rests_on.go:83-131 | a decoded rests_on has a reason only with `none`, which only a mapping without targets states |
| `CatalogBudget.UnstatedReasonIsOvercharged` | internal/catalog/catalog.go:467 | without that, a catalog whose text is 202 bytes is charged more |
| `WordingDiff.Compute` | cmd/dossierx/brief_lock.go:676-707 | fills the table and walks it to the diff |
| `WordingDiff.FillTable` | cmd/dossierx/brief_lock.go:678-692 | each cell is the longest common subsequence of two suffixes |
| `WordingDiff.DiffReadsBack` | cmd/dossierx/brief_lock.go:665-675 | dropping the added lines gives the old wording and dropping the removed ones the new |
| `WordingDiff.DiffIsOptimal` | cmd/dossierx/brief_lock.go:665-675 | no common subsequence is longer than the kept lines |
| `WordingDiff.AddedComesFirst` | cmd/dossierx/brief_lock.go:696-706 | where two wordings share nothing, the added lines come before the removed ones |
| `LockHash.Compute` | internal/briefs/briefs.go:686-696 | the writes hash the preimage of the three fields |
| `LockHash.PreimageOfOne` | internal/briefs/briefs.go:686-696 | the bytes hashed for a brief that rests on one claim |
| `LockHash.DecodePreimage` | internal/briefs/briefs.go:675-696 | everything signed is read back out of the bytes hashed |
| `LockHash.HashesAlike` | internal/briefs/briefs.go:675-696 | two hashes are equal iff summary, body and the rests_on multiset are |
| `CrlfStream.CrlfWriter.Write` | internal/briefs/briefs.go:416-433 | for any chunk: what is written through, less a held-back CR, is the normal form of what was fed |
| `CrlfStream.CrlfWriter.Flush` | internal/briefs/briefs.go:435-442 | everything written is the normal form of everything fed, and n its length |
| `CrlfStream.FileDigest` | internal/briefs/briefs.go:360-384 | in chunks of any size, the digest and length of the normalised file |
| `CrlfStream.ReadersAgree` | internal/briefs/briefs.go:388-403 | the streamed working tree file and the index's copy have one digest and length iff their bytes agree, up to CRLF for an svg |
| `CrlfStream.CheckoutSignsTheSameImage` | internal/briefs/briefs.go:116-121 | an image checked out with CRLF signs as the index's LF copy iff that copy holds no CRLF of its own |
| `CrlfStream.NormalizeUndoesCheckout` | internal/briefs/briefs.go:388-403 | normalising gives back an LF file checked out with CRLF |
| `CrlfStream.NormalizeTwice` | internal/briefs/briefs.go:733-735 | normalising twice is normalising once iff the input holds no CR CR LF |
| `CrlfStream.NormalizeIsNotIdempotent` | internal/briefs/briefs.go:733-735 | the input that shows it |
| `Frontmatter.SplitIsUnique` | internal/briefs/write.go:29 | rewritten lines split back into the same lines |
| `FrontmatterRead.ReaderSeesTheLines` | internal/briefs/frontmatter.go:57-71 | the lines the reader splits from the normalised file are the writer's lines, each normalised |
| `FrontmatterRead.CleanIff` | internal/briefs/frontmatter.go:57-71 | the reader takes a line for a fence iff it is the three dashes with nothing, LF or CR LF after them |
| `FrontmatterRead.EndsAgreeIff` | internal/briefs/frontmatter.go:57-73 | reader and writer end the block at one line iff both fences the writer takes are clean |
| `FrontmatterRead.BareCrNeverCloses` | internal/briefs/write.go:28-42 | the writer closes a block at a fence ending the file in a bare CR and the reader finds none |
| `FrontmatterRead.TwoCrsNeverOpen` | internal/briefs/write.go:28-42 | the writer opens a block at a fence with two CRs and the reader finds none |
| `FrontmatterRead.TwoCrsCloseLate` | internal/briefs/write.go:28-42 | a closing fence with two CRs and a clean one after it: the reader's block is the longer |
| `FrontmatterRead.ContentReadsAlike` | internal/briefs/frontmatter.go:57-140 | a rewrite that keeps the signed keys' lines and the file from the fence on has a block for the reader iff the file had one, and then signs alike |
| `FrontmatterWrite.Lines` | internal/briefs/write.go:28-43 | splitting keeps every byte and finds the first closing fence |
| `FrontmatterWrite.SetStatus` | internal/briefs/write.go:67-122 | replaces the token of the first status line, or inserts a line before the closing fence; returns it only if the result parses without a problem, signs as before and reads the status |
| `FrontmatterWrite.RewritableIff` | internal/briefs/write.go:67-98 | a file gets as far as a rewrite iff it has a block that parses and its first status, if any, is one word |
| `FrontmatterWrite.VerifiedIff` | internal/briefs/write.go:185-204 | a rewrite is let through iff it raises no problem, keeps summary, body and the set of claims rested on, and reads as asked |
| `FrontmatterWrite.StatusAskedIff` | internal/briefs/write.go:115-119 | a status reads as asked when it is the one asked for, and a draft may leave it unsaid |
| `FrontmatterWrite.StatusReplaced` | internal/briefs/write.go:103-105 | only the status line's token moves, quoted as it was, and it reads back |
| `FrontmatterWrite.StatusInserted` | internal/briefs/write.go:110-113 | the inserted line reads back, in the file's line ending, and every other key keeps its lines |
| `FrontmatterWrite.StatusSetBack` | internal/briefs/write.go:62-66 | setting the earlier status again restores the file |
| `FrontmatterWrite.StatusSetSame` | cmd/dossierx/brief_lock.go:267 | setting the status a file has leaves it as it is |
| `FrontmatterWrite.SetStatusReadsBack` | internal/briefs/write.go:62-66 | for every file whose block the reader finds, the text written reads the new status, signs as before and keeps the threads, in the block the reader takes; it is refused iff the reader finds no block or another problem in it |
| `FrontmatterComments.SetComments` | internal/briefs/write.go:130-178 | cuts from the comments key to the next key or the fence, and puts the encoded threads in the file's line ending before the fence; returns it only if the result parses without a problem, signs as before and reads the threads |
| `FrontmatterComments.CommentsReadBack` | internal/briefs/write.go:124-129 | the comments block of the result is the new one |
| `FrontmatterComments.CommentsLastWins` | internal/briefs/write.go:124-129 | threads set over threads are as if set alone |
| `FrontmatterComments.CommentsKeepBlocks` | internal/briefs/write.go:139-155 | every other key keeps its lines |
| `FrontmatterComments.KeptAreLines` | internal/briefs/write.go:157-159 | every kept line has its line break, so none gains one |
| `FrontmatterComments.SetCommentsReadsBack` | internal/briefs/write.go:124-129 | for every file whose block the reader finds, the text written reads the new threads, signs and has its status as before; it is refused iff the reader finds no block or another problem in it |
| `FrontmatterEndings.SetStatusKeepsEndings` | internal/briefs/write.go:16-18 | a file all in CRLF is rewritten all in CRLF, and one without CR without CR |
| `FrontmatterEndings.SetCommentsKeepsEndings` | internal/briefs/write.go:170-176 | the same for the comments block |
| `FrontmatterEndings.InsertedEndsAsTheFence` | internal/briefs/write.go:33-36 | in a file of mixed endings the inserted status line ends as the opening fence does |
| `Marks.SplitMarkableAt` | internal/approvaledit/render.go:156-170 | the two shrinking loops reassemble their token |
| `Marks.SplitReassembles` | internal/approvaledit/render.go:156-170 | prefix and suffix are the longest runs of edge bytes and the core starts and ends outside them |
| `Marks.EdgesAre` | internal/approvaledit/render.go:127-139 | the characters cut from a word's ends are exactly these |
| `Marks.CurlyQuotesStay` | internal/approvaledit/render.go:127-133 | the curly quotes of the edge set are never cut: the loops compare single bytes |
| `Marks.SubstituteMarks` | internal/approvaledit/render.go:179-217 | one pass, giving up on a sentinel in a tag, nested, or unpaired |
| `Marks.SpanClasses` | internal/approvaledit/render.go:180-184 | an added word and a removed one are marked with their own class |
| `Marks.WeaveIsAccepted` | internal/approvaledit/render.go:179-217 | sentinels that pair up in text become spans in the same places |
| `Marks.AcceptedIsWeave` | internal/approvaledit/render.go:179-217 | whatever the pass accepts pairs up in text |
| `Marks.RenderPassageWith` | internal/approvaledit/render.go:66-116 | the passage, or the plain render when the marks do not survive it |
| `Marks.MarksNeverChangeTheProse` | internal/approvaledit/render.go:60-116 | for every renderer: the plain render, or it with balanced spans, none nested, none in a tag |
| `Marks.MarksAreDrawnIff` | internal/approvaledit/render.go:95-116 | marks are drawn iff the render pairs the sentinels up in text around the plain render |
| `Marks.OneSpanPerWord` | internal/approvaledit/render.go:95-116 | with a renderer that keeps the sentinels, one span per non-empty core |
| `Marks.RenderFieldHunk` | internal/approvaledit/fields.go:122-156 | the field's marked YAML, or the escaped text where the marks do not survive |
| `Marks.EscapeReadsBack` | internal/approvaledit/fields.go:114-125 | the escaped field reads back as the field |
| `Marks.EscapesExactly` | internal/approvaledit/fields.go:114-125 | the five characters escaped, each as html.EscapeString writes it, and no other |
| `Marks.TrimTakesNewlines` | internal/approvaledit/fields.go:122-124 | the line breaks a text ends on, and nothing else, come off |
| `Marks.PlainFieldIsShown` | internal/approvaledit/fields.go:122-126 | a field the word diff says nothing of is shown whole |
| `Marks.FieldMarksEveryWord` | internal/approvaledit/fields.go:114-156 | for text without sentinels the fallback is never needed and every core is marked, in order, exactly |
| `SpliceSection.SpliceIdempotentIff` | cmd/dossierx/skills_embed.go:889-916 | splicing twice is splicing once iff the text holds no BEGIN left unclosed |
| `SpliceSection.UnclosedShrinks` | cmd/dossierx/skills_embed.go:898-916 | for the other texts the second splice keeps what was before the stale BEGIN, then the section, and loses the rest |
| `SpliceSection.SectionIsReplacedInPlace` | cmd/dossierx/skills_embed.go:898-916 | whatever precedes the first BEGIN and follows the first END after it is kept, but for one newline, wherever the parts are cut |
| `SpliceSection.SectionHasParts` | cmd/dossierx/skills_embed.go:898-909 | every text with a section is made of such parts |
| `SpliceSection.SectionIsAppended` | cmd/dossierx/skills_embed.go:898-916 | a text with no section is kept whole in front, with a blank line between |
| `Inbox.ThreadLastActivity` | cmd/dossierx/comment.go:690-705 | the newest stamp and who made it |
| `Inbox.LastActivityIsNewest` | cmd/dossierx/comment.go:671-705 | it is one of the thread's stamps and none is later |
| `Inbox.ReportedIff` | cmd/dossierx/comment.go:783-799 | a thread is reported iff it is open and one of its stamps is the cursor or later |
| `Inbox.Scan` | cmd/dossierx/comment.go:770-850 | the threads open at or after the cursor, oldest activity first and then by claim and thread, and the cursor over every open thread |
| `Inbox.CursorIsNewest` | cmd/dossierx/comment.go:785-794 | the cursor is the one given or the newest activity of an open thread, whichever is later, reported or not |
| `Inbox.EntryTells` | cmd/dossierx/comment.go:806-835 | an entry counts its thread's replies, tells whether an agent replied, and says an agent can resolve it iff the resolve would be accepted |
| `Inbox.EventsAreAccepted` | internal/comments/comments.go:855-947 | who may open, reply, resolve and reopen, and when |
| `Inbox.EventsLeave` | internal/comments/comments.go:855-947 | an accepted event leaves its thread open unless it resolves it, with its author and earlier replies, and touches no other |
| `Inbox.DeletionsLeave` | internal/comments/comments.go:979-1006 | a deleted thread is gone, and a deleted reply leaves the others in order |
| `Inbox.CursorNeverDecreases` | cmd/dossierx/comment.go:790-794 | over every run the cursor never goes back |
| `Inbox.AtLeastOnce` | cmd/dossierx/comment.go:644-658 | a thread opened, replied to, resolved or reopened since the last poll and open at this one is in this poll's list, unless its newest reply was deleted in between |
| `Inbox.ListedIff` | cmd/dossierx/comment.go:783-799 | at every poll of every run, a thread is in the list iff it is open and one of its stamps, as they are then, is the cursor or later |
| `Inbox.DeletedReplyIsMissed` | cmd/dossierx/comment.go:644-658 | a run of six events whose last poll misses an open thread replied to since the poll before, the reply deleted in between |

## Left out

- Command-line wiring, envelopes, hints, text renderers, history, serving, exporting and embedding: presentation and foreign calls.
- File sentinels and the atomic rename: mutual exclusion between commands and atomic replacement of one file are taken as given.
- YAML: the frontmatter block is top-level key lines and continuation lines; a one-line scalar is one word, plain or quoted. Longer plain scalars, flow styles and escapes inside quotes are not modelled.
- FrontmatterWrite.SetStatus: yaml.v3 and the key rules of `parseFrontmatter` are a parameter (`Decoder`): whether the block parses, whether it raises a problem, and what the lines of a key hold. A line of three dashes inside the reader's block ends its keys, as YAML ends a document there; a bare CR elsewhere in the block, a line break to YAML, is not one here.
- FrontmatterComments.SetComments: the encoder is a parameter, because it is yaml.v3's; what is assumed of it is that the decoder reads its lines back (`EncodesBack`).
- FrontmatterComments.SetCommentsReadsBack: is for one comments key, as a YAML mapping has; a second one is a problem the re-parse refuses.
- BriefRules.RestsOnUnknown: leaves out brief-rests-on-duplicate, a warning that refuses nothing.
- BriefEvaluate.ContentMoved: gives the moved parts as a set and not the sentence made of them.
- BriefEvaluate.EvaluateOne: leaves out `changed_at`, the actor of a record and the message texts, and the claim-free form `EvaluateLocks`.
- BriefLifecycle.Project.Lock: the rewritable status line is given (the frontmatter modules model it), and the pre-ledger crossing and comment-digest adoption, which touch no brief record, are one refusal flag.
- BriefLifecycle.Project.Lookup: takes an id; the path form of the argument is not modelled.
- BriefPreview.LockDryRun: leaves out the effect sentences.
- SetLock.Project.LockSet: an editor's save to a file the command has already written, and one between loading a claim and capturing its token, are outside the model; saving the store is atomic; the policy gate's other refusals are a set parameter.
- ClaimReview.Project.Reaudit: the proposed body and audit trail are parameters, and the refusals that read other files (constitution, gitignore, reason, pre-ledger) are one flag.
- ClaimReview.Project.Flag: the structured-layout refusal is part of the same flag.
- ProposalToken.TokenBinds: is for ids of one line without newlines and hashes in hex, as the claim grammar and SHA-256 give; an id may hold an equals sign.
- JsonPrint: integers print in decimal, and no value of another kind reaches the document.
- CatalogBudget.Budget.AddConformanceValue: an observation is absent, a string or a list of strings, as the conformance contract closes it.
- CatalogText.TextLengthIsFixed: entries of one id may be printed in either order, because the source's sort is not stable.
- Inbox.Scan: `parseSinceCursor` is the identity on the engine's own stamps, and the display fields of a thread are not modelled.
- `catalogProjectionUpperBound`, layout inference, fuzzy search and exit-code tables: diagnostics or easy case analysis.
- The receipts the lock store keeps of a claim's baselined dependencies: a copy of the wording for display, beside the hashes that decide.
- Readiness and conformance evaluation, drift of claim sources, and the comment operations' own rules: only their effect on the modelled state is taken.
