# C Repair: a verified model

C Repair scans a single C file for CERT C violations, proposes repair candidates, and applies one
only when the user accepts it. Its promise is that the output is always Original C plus the
accepted patches. This project states that promise, and the protocols around it, as Dafny theorems.

- **The accept chain.** `Patching` defines simultaneous edits position by position; `Patches` is the
  splice loop behind the diff preview; `CharEdits` and `EditRanges` tie whole-line edits to the
  character ranges of one editor transaction, with the clamping at the document end; `Preview`,
  `LastLineGap` and `TieOrders` compare preview and document and give the exact conditions under
  which they agree. `DedupeIncludes`, `AcceptGuard` and `Sessions` are the include filter, the accept
  guard and the session class. `AcceptChain` is the state machine of accepts, rejects, arriving
  repairs, outside edits and the debounce timer; `ChainInvariants` is the ledger of what was listed
  and what was written; `ChainTheorems` holds what is proved of whole runs, `AcceptMeaning` when an
  accept goes through, `DriftedAccepts` where it lands when rows are off, `StepRule` why accepted
  candidates must stay accepted, `SecondAccept` what accepting them again does. `ReachedWorlds` and
  `ReachedDrift` are short runs that reach the worlds in which the chain goes wrong; `RejectReasons`
  follows the reasons of rejections. `AcceptAll`, `GreedyBatch` and `BatchRuns` are the batch, what it chooses and why it is
  a run like any other; `Workbench` has the handlers.
- **Text transforms.** `StripComments` is the comment stripper against a reference lexer and
  `CommentTokens` says what it does to the literals and comments of any text, `Prelude` the
  composition of the Augmented C, `ScanRemap` the way back to Original coordinates, `UnifiedDiff` the
  report's diff fragment. `ReviewDoc` is the Context Review document, `ReviewRoundTrip` what parsing
  recovers, `ReviewMeaning` and `ReviewRefusals` what delimiters, sections and refusals mean.
- **The GGUF reader.** `Gguf` is the parser on plain slices, `GgufEncoding` an encoder with the types
  and limits of the format and what parsing makes of it, `GgufReader` the cursor over a sliding buffer.
- **Cancellation.** `Cancellation` interleaves the cancel token with sending workers one atomic step
  at a time, `LostCancellations` shows why one send per client at a time is needed; `Sockets` does the
  same for the duplicated descriptors of local HTTP calls.

`Options`, `Seqs`, `Sorting`, `Text`, `JsMaps` and `Contract` are the shared vocabulary: options,
facts about concatenation, the stable sort, `split` and `join`, the insertion-ordered map, and the
contract's records.

Code that updates things in place is modelled as classes and methods with loops, each proved against
a function on values; the theorems are about those functions. `dafny verify dfyconfig.toml` checks
the whole project.

## Conditions of the chain theorems

Hash safety and the meaning of the stale flag hold of every run. The other theorems need, in this
order:

- The *step rule* (`Ruled`): steps accept, reject or regenerate only candidates that are not accepted,
  and a candidate being accepted is the one the session stores. The handlers do not enforce this.
  For a rejection or a regeneration of an accepted candidate `DisowningIsLocal` says when it does
  harm, with sharper conditions for one hunk, for hunks that keep the number of lines and for hunks
  that no accepted one touches. For a second accept, which the title bar of the diff allows
  (`apps/vscode/src/extension.ts:3246-3262`), `SecondAcceptDecides` says it. The rule alone gives the
  decision records and the conflict-free accepted set. `Accept all reviewed` keeps it by itself, so
  sessions that use it are covered.
- *Sound* candidates: a candidate's own hunks do not intersect, every replaced range ends before the
  last line and every insertion starts at or before it. The guard compares hunks only across
  candidates. With this the drift of every row is exact. What a first accept does at the last line
  and behind it is stated in `LastLineGap`.
- A *clean* run trims no include and accepts nothing below an accepted pure deletion; then the
  document is Original C plus the accepted patches. Otherwise rows drift: a trimmed include puts
  later repairs below it too far down by the lines it lost, and an accepted pure deletion puts every
  repair below it one line too far up, because the range written for it keeps a newline that the
  offset does not count. `DriftIsExact` says by how much a row is off, `DriftDecides` and
  `DriftIsLocal` exactly when this shows, `DriftBreaks` gives a sign that it does,
  `IncludeDrifts` and `DeletionDrifts` that both kinds happen, and `WrittenOffsetsSuffice` that
  offsets from the written hunks would repair the first. The comment in
  `apps/vscode/src/apply/acceptCandidate.ts:47-49` that trimming leaves the offset chain unaffected is
  therefore not what the code does: the accepted candidates keep their untrimmed hunks.

The conditions on accepts bind only accepts that go through; refused, cancelled and failed ones are
free.

The stale flag lags: an outside edit only arms a timer of 300 ms, and each further edit starts it
again, so the theorems about the document speak of the hash test, which is made afresh in every
accept. A repair that was asked for under a clear flag is stored when it arrives, whatever happened
to the document in between.

The guard and the edit it allows are one step. The comment in
`apps/vscode/src/ui/model.ts:459-460` that a replacement slots in exactly does not cover the pure
deletion, for which the range still writes a newline; `PreviewAgrees` makes this an if-and-only-if.

## Model

| member | source | states |
|---|---|---|
| `Patches.ApplyHunks` | packages/core/src/patches.js:15-28 | The loop over the hunks, sorted by descending start line with a stable sort, joins exactly the lines that splicing them in that order leaves. |
| `Patches.AppliedIsPatch` | packages/core/src/patches.js:15-28 | For in-range, pairwise non-intersecting hunks with replacement before insertion on equal starts, the descending in-place splices equal the simultaneous patch: at each line the inserted text, then the line or its replacement. |
| `Patches.ApplyOrderFree` | packages/core/src/patches.js:16-27 | Every listing of the same hunks that keeps the tie order applies alike. |
| `TieOrders.TieOrderIsExact` | packages/core/src/patches.js:17-26 | The tie order is the exact condition: the splice loop agrees with the simultaneous patch on every document the hunks fit if and only if no insertion is listed before a replacement with the same start. |
| `Patches.CandidatesConflict` | packages/core/src/patches.js:44-51 | The nested loop with early return is true exactly when some pair of hunks has intersecting ranges. |
| `Patches.ConflictSymmetric` | packages/core/src/patches.js:37-51 | Conflict between two candidates does not depend on which one is asked. |
| `Patches.DisjointIsClear` | packages/core/src/patches.js:32-42 | Pairwise non-intersecting hunk ranges are exactly pairwise clear edits of the line list. |
| `Patching.Rebase` | apps/vscode/src/ui/model.ts:504-525 | An edit clear of a set of edits, added to that set, is one splice of the already patched sequence at its own start shifted by the growth of every edit at or above it. |
| `Patching.PatchInTwo` | apps/vscode/src/ui/model.ts:527-535 | Patching by a first group and then, at the landed positions, by a second group is patching by all of them at once. |
| `Patching.PatchOrderFree` | apps/vscode/src/ui/model.ts:527-535 | Two pairwise clear lists of the same edits patch alike whatever their order. |
| `Patching.PatchLength` | apps/vscode/src/ui/model.ts:487-502 | A simultaneous patch changes the length by the sum of the growths of its edits. |
| `CharEdits.LinesAreChars` | apps/vscode/src/ui/model.ts:458-485 | Whole-line edits of the terminated lines and the character edits from line start to line start give the same document. |
| `EditRanges.RangeIsLines` | apps/vscode/src/ui/model.ts:464-485 | The range `(row,0)..(row+n,0)` with the text and a newline is, after clamping, the character form of replacing exactly those lines. |
| `EditRanges.LineOffsetForStart` | apps/vscode/src/ui/model.ts:512-525 | The accumulating loop sums the line deltas of the accepted hunks whose range ends above the start line, insertions at the start line included. |
| `EditRanges.LineOffsetIsShift` | apps/vscode/src/ui/model.ts:497-525 | That sum is the shift of the line list at the hunk under the edits the accepted hunks stand for. |
| `EditRanges.ApplyAtTrueRows` | apps/vscode/src/apply/acceptCandidate.ts:69-77 | Ranges that sit at their true rows in a document already carrying some hunks land, in one edit and without overlap, as the patch of the Original by all hunks. |
| `EditRanges.PatchedSplits` | apps/vscode/src/apply/acceptCandidate.ts:19-29 | A patched document splits back into the patched lines and the untouched last line. |
| `Preview.PreviewIsPatch` | apps/vscode/src/ui/diffView.ts:79-81 | The previewed text is the simultaneous patch of the snapshot. |
| `Preview.FirstAcceptIsPatched` | apps/vscode/src/apply/acceptCandidate.ts:69-77 | A first accept writes the declarative patch of the snapshot. |
| `LastLineGap.PreviewAgrees` | apps/vscode/src/ui/diffView.ts:79-81 | For hunks within the document the preview is what a first accept writes if and only if no hunk is a pure deletion and none replaces the last line. |
| `Preview.AcceptedLineCount` | apps/vscode/src/ui/model.ts:482-502 | The document grows by the sum of the hunk deltas plus one line for every pure deletion. |
| `Preview.PreviewLineCount` | apps/vscode/src/ui/model.ts:497-502 | The preview grows by exactly the sum of the hunk deltas. |
| `LastLineGap.ClampedAccept` | apps/vscode/src/apply/acceptCandidate.ts:20-29 | A first accept with a replacement reaching the last line, clamped to the document end, writes what it would write to the document with a final newline. |
| `LastLineGap.LastLineGap` | apps/vscode/src/apply/acceptCandidate.ts:20-29 | Such an accept differs from the preview by exactly one newline at the end if and only if no hunk is a pure deletion, or one is and the preview has no line left. |
| `LastLineGap.AcceptIsLonger` | apps/vscode/src/apply/acceptCandidate.ts:20-29 | Whatever it deletes, and also when it replaces only an empty last line, a first accept that replaces the last line is longer than the preview by one newline and one empty line for each pure deletion; by the deletions alone when the preview has no line left. |
| `LastLineGap.PastEndGap` | apps/vscode/src/apply/acceptCandidate.ts:20-29 | An insertion behind the last line lands on that line; preview and document agree if and only if the inserted text consists of newlines. |
| `DedupeIncludes.ExistingIncludeLines` | apps/vscode/src/apply/dedupeIncludes.ts:36-42 | The loop collects exactly the trimmed include lines of the document. |
| `DedupeIncludes.Dedupe` | apps/vscode/src/apply/dedupeIncludes.ts:55-90 | The nested loops return the hunks left after dropping duplicate include lines of insertions, and the number of lines dropped. |
| `DedupeIncludes.DedupeMeaning` | apps/vscode/src/apply/dedupeIncludes.ts:60-87 | Of an insertion exactly the lines are dropped that are an `#include` and equal, after trimming, a line of the document; the others stay in order. When only blank ones are left the hunk goes; replacements and hunks that lose nothing stay as they are. |
| `DedupeIncludes.RemovedMeaning` | apps/vscode/src/apply/dedupeIncludes.ts:55-90 | The count is the number of inserted lines that the document already has; when it has none of them, the hunks come back unchanged. |
| `DedupeIncludes.TrimMeaning` | apps/vscode/src/apply/dedupeIncludes.ts:26-42 | Trimming takes away exactly the white space and line terminators of ECMA-262, listed one by one, at both ends. |
| `DedupeIncludes.NoDuplicateInserted` | apps/vscode/src/apply/dedupeIncludes.ts:60-87 | No include line of a kept insertion repeats, after trimming, an include line of the document. |
| `DedupeIncludes.NothingRemoved` | apps/vscode/src/apply/dedupeIncludes.ts:77-81 | The removal count is zero exactly when every hunk comes back as it was. |
| `DedupeIncludes.DedupeKeepsPlace` | apps/vscode/src/apply/dedupeIncludes.ts:61-86 | Replacements are returned unchanged and a trimmed insertion keeps its place. |
| `AcceptGuard.FailingGatesByClass` | apps/vscode/src/ui/model.ts:164-176 | The loop separates the failing validations into mechanical and judgment gates, in order. |
| `AcceptGuard.FailingAre` | apps/vscode/src/ui/model.ts:151-176 | The failing gates of a class are the failed validations named `semantic`, `violation_removal` or `regression`, or those named otherwise, in order. |
| `AcceptGuard.BadgeMeaning` | apps/vscode/src/ui/model.ts:197-210 | Each badge is given if and only if its condition holds and no earlier one does: no fix, a failed mechanical gate, a failed judgment gate, an unproven one, all passed. |
| `AcceptGuard.EvaluateAcceptGuard` | apps/vscode/src/ui/model.ts:651-701 | The guard loop with its early returns gives stale, not acceptable, the first conflict, a judgment warning with its concerns, or a clear pass, in that priority. |
| `AcceptGuard.GuardMeaning` | apps/vscode/src/ui/model.ts:651-701 | The guard passes if and only if the hashes agree, the candidate has hunks and no failed mechanical gate, and no other accepted candidate conflicts; it warns exactly when a judgment gate failed. |
| `AcceptGuard.GuardOutcome` | apps/vscode/src/ui/model.ts:651-701 | Every outcome, if and only if: stale, then unfit, then a conflict, then a failed judgment gate; a warning names exactly the failed judgment gates, and a conflict the first accepted candidate there is one with. |
| `Sessions.ScanSession.constructor` | apps/vscode/src/session/ScanSession.ts:100-113 | A new session has no candidates or decisions and expects the snapshot hash. |
| `Sessions.ScanSession.SetExpectedHash` | apps/vscode/src/session/ScanSession.ts:125-127 | Only the expected hash changes. |
| `Sessions.ScanSession.SetCandidate` | apps/vscode/src/session/ScanSession.ts:132-134 | The candidate is stored under its id, keeping its place in the map if it was there. |
| `Sessions.ScanSession.ReplaceCandidateForFinding` | apps/vscode/src/session/ScanSession.ts:143-152 | Every candidate of the finding is dropped with its decision, override flag and reject reason, reviewed marks stay, and the fresh candidate is stored. |
| `Sessions.RegenerationMeaning` | apps/vscode/src/session/ScanSession.ts:143-152 | After a regeneration the fresh candidate is stored and no other of its finding is; the decisions, flags and reasons of those that went are gone, and everything else is as before. |
| `Sessions.ScanSession.ForFinding` | apps/vscode/src/session/ScanSession.ts:159-164 | The loop returns the first candidate stored for the finding, if any. |
| `Sessions.ForFindingMeaning` | apps/vscode/src/session/ScanSession.ts:159-164 | It is the first stored candidate with that finding, and there is none only if no stored one has it. |
| `Sessions.FreshIsFound` | apps/vscode/src/session/ScanSession.ts:143-164 | After a regeneration the finding has the fresh candidate. |
| `Sessions.ScanSession.SetDecision` | apps/vscode/src/session/ScanSession.ts:172-184 | A pending decision removes the entry, the override flag and the reject reason; any other sets it, keeping the flag only for an accept and the reason only for a rejection. |
| `Sessions.DecisionMeaning` | apps/vscode/src/session/ScanSession.ts:172-184 | After any decision on a candidate that decision is read for it; its override flag survives only an accept and its reason only a rejection, no other candidate is touched, and nothing else changes. |
| `Sessions.ScanSession.SetRejectReason` | apps/vscode/src/session/ScanSession.ts:191-194 | The reason is put on record, or removed when none is given, and nothing else changes. |
| `Sessions.ReasonMeaning` | apps/vscode/src/session/ScanSession.ts:191-239 | A reason given after a rejection is shown until it is cleared, another decision is taken or the candidate is accepted over a warning; the reasons shown for others stay. |
| `Sessions.ScanSession.SetAcceptedWithWarning` | apps/vscode/src/session/ScanSession.ts:209-212 | The decision becomes accepted and the override flag is set; a reject reason on record stays. |
| `Sessions.OverrideMeaning` | apps/vscode/src/session/ScanSession.ts:209-212 | The candidate is accepted and flagged, no other is touched, and nothing else changes. |
| `Sessions.ScanSession.MarkReviewed` | apps/vscode/src/session/ScanSession.ts:244-246 | The candidate id joins the reviewed set and nothing else changes. |
| `Sessions.ScanSession.AcceptedList` | apps/vscode/src/session/ScanSession.ts:254-262 | The loop returns the accepted candidates in the order of their decisions. |
| `Sessions.AcceptedOrder` | apps/vscode/src/session/ScanSession.ts:254-262 | The accepted candidates are listed in the order of the decision map, in which a decision that is taken again keeps its place. |
| `Sessions.ScanSession.DispositionFor` | apps/vscode/src/session/ScanSession.ts:229-239 | The disposition is the decision, an override exactly for an accepted candidate with the flag, and the reject reason on record exactly for a rejected one. |
| `Sessions.ScanSession.RefreshStale` | apps/vscode/src/session/ScanSession.ts:276-281 | The flag becomes whether the text hash differs from the expected hash; the result tells whether the flag changed. |
| `Sessions.AcceptedMember` | apps/vscode/src/session/ScanSession.ts:254-262 | A candidate is in the accepted list exactly when its decision is accepted and the session stores it. |
| `Sessions.AcceptAddsHunks` | apps/vscode/src/session/ScanSession.ts:254-262 | Accepting a candidate adds its hunks to those of the accepted candidates, as a bag, wherever its decision sits. |
| `AcceptChain.RunKeepsSession` | apps/vscode/src/extension.ts:2758-2834 | Every run within the step rule, whatever its hunks and edits, keeps the session invariant: candidates filed under their id, accepted ones rightly accepted, flagged and conflict-free. |
| `AcceptChain.RunKeepsHash` | apps/vscode/src/extension.ts:2819-2822 | Every run whatsoever keeps the expected hash the hash of the text that the last accept left. |
| `AcceptMeaning.AcceptMeaning` | apps/vscode/src/extension.ts:2758-2822 | In every reachable world an accept of a pending or rejected candidate goes through if and only if the document is as last accepted, the candidate has hunks and no failed mechanical gate, it conflicts with no other accepted one, a failed judgment gate is confirmed, and the editor takes the edit or nothing is left to write. Then it is on record, as an override exactly if a judgment gate failed; otherwise nothing at all changes. |
| `ChainInvariants.RowError` | apps/vscode/src/ui/model.ts:512-525 | The offset computed from the listed hunks is the true shift of what was written plus the lines lost at or above the start line. |
| `ChainInvariants.GuardClears` | apps/vscode/src/ui/model.ts:651-701 | In a reachable world an open guard means that the document is the text of the last accept and the new hunks are clear of everything accepted. |
| `ChainInvariants.AcceptLands` | apps/vscode/src/extension.ts:2797-2822 | An accept whose rows no lost line misplaces leaves the single declarative patch of the Original by everything written so far. |
| `ChainInvariants.StepKeeps` | apps/vscode/src/extension.ts:2758-2834 | Every accept, reject, generate, regenerate, review or outside edit within the step rule keeps the ledger the bag of the accepted hunks, pairwise clear, drifted rows included. |
| `ChainInvariants.RunStaysFaithful` | apps/vscode/src/extension.ts:2758-2834 | Every run of aligned accepts, rejects, regenerations and outside edits keeps the text of the last accept the single declarative patch of the Original by everything written. |
| `ChainTheorems.ChainRefinement` | README.md:5 | After any clean run, deletions and arbitrary outside edits included, the session expects exactly Original C plus the accepted patches, and the hash test of the guard passes if and only if the document is that text. |
| `ChainTheorems.OrderIndependence` | apps/vscode/src/ui/model.ts:678-689 | Two clean runs that end with the same accepted candidates expect the same hash and, when the hash test passes in both, have the same document. |
| `ChainTheorems.HashChainSafety` | apps/vscode/src/ui/model.ts:657-663 | In every run whatsoever, with arbitrary outside edits, undos and reverts, the hash test refuses exactly when the document is not the text of the last accept (or the snapshot). |
| `RejectReasons.RunKeepsReasons` | apps/vscode/src/session/ScanSession.ts:172-212 | In every run whatsoever a reason on record belongs to a rejected candidate or to one accepted over a warning. |
| `RejectReasons.OldReasonShown` | apps/vscode/src/session/ScanSession.ts:229-239 | A rejection shows a reason that was not given for it if and only if one is left over, and then the candidate had been accepted over a warning. |
| `RejectReasons.OldReasonIsReached` | apps/vscode/src/session/ScanSession.ts:209-212 | Every sound candidate with a failed judgment gate gets there: rejected for a reason, accepted over the warning and rejected again without a reason, it shows the old one. |
| `ChainTheorems.FlagMeaning` | apps/vscode/src/extension.ts:3450-3458 | In every run the stale flag tells whether the text the session last looked at, by an accept or when the debounce timer fired, differs from the text of the last accept. |
| `ChainTheorems.FlagOnceSettled` | apps/vscode/src/extension.ts:3450-3458 | Without an outside edit since the last accept or timer the flag agrees with the hash test. |
| `ChainTheorems.FlagLags` | apps/vscode/src/extension.ts:188 | Until the timer fires the flag stays clear after a first foreign edit while the hash test already refuses. |
| `ChainTheorems.NoForeignText` | apps/vscode/src/extension.ts:2771-2784 | An accept that goes through starts from the text of the last accept, which is the declarative patch; none builds on foreign text. |
| `ChainTheorems.AcceptedNeverConflict` | apps/vscode/src/ui/model.ts:678-689 | In every session the step rule reaches, two different accepted candidates do not conflict. |
| `ChainTheorems.DecisionsAreRight` | apps/vscode/src/extension.ts:2790-2820 | In every session the step rule reaches, an accepted candidate has hunks and no failed mechanical gate, and carries the override flag exactly when a judgment gate of it failed; no other candidate carries it. |
| `ChainTheorems.LostLines` | apps/vscode/src/apply/dedupeIncludes.ts:60-87 | The lines a later offset counts without their being written are the trimmed includes, all lines of a dropped hunk, and minus one for a pure deletion. |
| `ChainTheorems.DriftIsExact` | apps/vscode/src/apply/acceptCandidate.ts:60-70 | In every run of the step rule with sound candidates, the row of each hunk about to be written is off from its true row by exactly the lines lost from accepted hunks at or above it. |
| `DriftedAccepts.AcceptApplies` | apps/vscode/src/apply/acceptCandidate.ts:55-79 | In every reachable world an accept with an open guard writes its hunks at the drifted rows; no computed row is negative and no two ranges overlap, whatever was trimmed or deleted before. |
| `DriftedAccepts.DriftIsLocal` | apps/vscode/src/apply/acceptCandidate.ts:60-77 | For any number of hunks and any drift, the document is the declarative patch if and only if the text between the first and the last of the ranges written and meant is. |
| `DriftedAccepts.DriftDecides` | apps/vscode/src/apply/acceptCandidate.ts:60-77 | For one hunk, drifted up or down by any number of lines, clamped at the end or not: right if and only if the two ranges are equally long and the text from the upper to the lower start reads the same before and behind the repair. |
| `DriftedAccepts.DriftMisplaces` | apps/vscode/src/apply/acceptCandidate.ts:60-77 | When the drifted lines lie within the document the accept replaces exactly those, and is right if and only if the lines between the two places read the same before and behind the repair. |
| `DriftedAccepts.DriftBreaks` | apps/vscode/src/apply/acceptCandidate.ts:60-77 | A drifting hunk whose text starts with another line than the one at the upper of the two rows ends up in the wrong place, and the hash test passes on it. |
| `DriftedAccepts.DriftByOne` | apps/vscode/src/ui/model.ts:482-484 | One line too far up, as below a deletion, a hunk is right if and only if all its lines, and the last line it would replace, repeat the line above. |
| `ReachedWorlds.SecondIsReached` | apps/vscode/src/extension.ts:2758-2834 | After any first accept from a fresh scan, any second sound candidate that does not conflict with it is stored under an open guard in a faithful world. |
| `ReachedDrift.DriftIsReached` | apps/vscode/src/apply/acceptCandidate.ts:45-49 | For any two candidates of one hunk, the second a replacement below the first, the second then has an open guard and a row that is off by what the first lost. |
| `ReachedDrift.IncludeDrifts` | apps/vscode/src/apply/acceptCandidate.ts:45-49 | Accepting an insertion of includes that are there already leaves the document alone and puts every repair below it as many lines too far down. |
| `ReachedDrift.DeletionDrifts` | apps/vscode/src/ui/model.ts:482-484 | Accepting a pure deletion, of however many lines, puts every repair below it one line too far up. |
| `ReachedDrift.IncludeExample` | apps/vscode/src/apply/acceptCandidate.ts:60-77 | In a file of an include line, `x` and `y`, inserting the include again and then replacing `x` by `z` leaves `x` and turns `y` into `z`. |
| `ReachedDrift.DeletionExample` | apps/vscode/src/ui/model.ts:482-484 | In a file of four lines, deleting the second and then replacing the third by `z` overwrites the blank line that the deletion left, and leaves the third. |
| `ChainTheorems.WrittenOffsetsSuffice` | apps/vscode/src/apply/acceptCandidate.ts:60-70 | With offsets taken from the hunks actually written, every run that trims includes, and accepts nothing below an accepted deletion, leaves the declarative patch of the Original by everything written, and the hash test passes exactly on it. |
| `StepRule.RejectDisowns` | apps/vscode/src/extension.ts:3151-3155 | Rejecting an accepted candidate takes exactly its hunks from the accepted ones and leaves document and expected hash as they are. |
| `StepRule.RegenerateDisowns` | apps/vscode/src/extension.ts:2622-2624 | Regenerating a finding takes exactly the accepted hunks of its candidates, and leaves document and expected hash as they are. |
| `StepRule.DisowningIsLocal` | apps/vscode/src/extension.ts:3151-3155 | After such a step the guard still passes, and the document is Original C plus the accepted patches if and only if the rows from the topmost to the lowest disowned hunk read the same without these hunks; for any hunks. |
| `StepRule.DisowningAlone` | apps/vscode/src/extension.ts:3151-3155 | With no accepted hunk in between: if and only if the disowned hunks alone change nothing in the Original. |
| `StepRule.DisowningSingle` | apps/vscode/src/extension.ts:3151-3155 | One hunk: if and only if it wrote the very lines that the Original has there. |
| `StepRule.DisowningNeutral` | apps/vscode/src/extension.ts:3151-3155 | Any number of hunks that each replace lines by as many lines: if and only if each of them wrote what was there. |
| `StepRule.DisowningCounts` | apps/vscode/src/extension.ts:3151-3155 | Hunks that changed the number of lines always leave a document that is not Original C plus the accepted patches, under a guard that passes. |
| `StepRule.DisowningTop` | apps/vscode/src/extension.ts:3151-3155 | So do hunks of which the topmost starts with another line than stands there without them, whatever the others do. |
| `ReachedWorlds.RejectIsReached` | apps/vscode/src/extension.ts:3151-3155 | Every sound untrimmed candidate of every scan, generated and accepted, reaches a world in which it can be rejected, regenerated or accepted again. |
| `SecondAccept.GuardStaysOpen` | apps/vscode/src/extension.ts:3246-3262 | On the text of the last accept the guard is open for every accepted candidate. |
| `SecondAccept.SecondAcceptDecides` | apps/vscode/src/extension.ts:3246-3262 | Accepting a candidate of one hunk again goes through, and leaves Original C plus the accepted patches if and only if an insertion is dropped as a whole for its includes, or a replacement has as many lines as it replaces, or fewer with nothing below them. |
| `SecondAccept.SecondAcceptNeutral` | apps/vscode/src/extension.ts:3246-3262 | Any number of replacements that keep the number of lines do no harm the second time. |
| `AcceptAll.SelectionMeaning` | apps/vscode/src/session/reviewQueue.ts:196-218 | The targets are, as often as the queue lists them and in ascending id order, the candidates that have hunks, no failed mechanical gate, a pending decision and a reviewed mark; those not reviewed are the same without the mark. |
| `AcceptAll.IdLessMeaning` | apps/vscode/src/session/reviewQueue.ts:209-211 | Ids are compared as strings: a proper prefix first, else by the first code unit that differs. |
| `AcceptAll.EveryTargetCounted` | apps/vscode/src/extension.ts:2896-2933 | Every target gets one outcome or stays behind a stale stop. |
| `AcceptAll.OutcomeMeaning` | apps/vscode/src/extension.ts:2896-2932 | Every outcome of a round exactly: failed for an unfit candidate, else conflicted, else unconfirmed for a failed judgment gate, else failed when the editor refuses, else applied with the includes it skipped. |
| `AcceptAll.TallyMeaning` | apps/vscode/src/extension.ts:2886-2933 | Each bucket is the number of rounds that ended its way, and the include count the sum over the applied ones. |
| `AcceptAll.BatchTally` | apps/vscode/src/extension.ts:2886-2933 | The tally buckets, the unvisited targets and the unreviewed candidates add up to the number of candidates in the queue that have hunks, no failed mechanical gate and a pending decision. |
| `BatchRuns.BatchIsRun` | apps/vscode/src/extension.ts:2896-2933 | A batch is a run of unconfirmed accepts, outside edits and timers that keeps the step rule. |
| `BatchRuns.BatchKeepsDecisions` | apps/vscode/src/extension.ts:2869-2933 | Whatever happens during `Accept all reviewed`, what was rejected before stays rejected, what was accepted stays accepted, and only pending reviewed candidates become accepted. |
| `BatchRuns.ReviewSelects` | apps/vscode/src/session/ScanSession.ts:244-246 | Reviewing a candidate adds it to the targets if it can be selected, and takes no other away. |
| `BatchRuns.MixedRunIsRuled` | apps/vscode/src/extension.ts:2896-2933 | Every session that mixes single steps within the rule with batches is one ruled run, and keeps the session invariant. |
| `BatchRuns.MixedRunIsSound` | apps/vscode/src/extension.ts:2896-2933 | With sound candidates coming in it is one sound run and keeps the ledger invariant. |
| `BatchRuns.MixedRefinement` | README.md:5 | When its accepts trim nothing and none is below an accepted deletion, such a session expects exactly Original C plus the accepted patches, and the hash test passes exactly on that text. |
| `BatchRuns.OutcomesAreTrue` | apps/vscode/src/extension.ts:2903-2932 | However the batch went, exactly the targets with an applied outcome end up accepted, a target skipped for a conflict conflicts with what is accepted at the end, and a target skipped for confirmation fails a judgment gate. |
| `GreedyBatch.BatchIsGreedy` | apps/vscode/src/extension.ts:2896-2933 | Without a stale stop or a failed edit exactly the greedy conflict-free choice among the targets without a failed judgment gate ends up accepted. |
| `GreedyBatch.SkipsAreConflicts` | apps/vscode/src/extension.ts:2903-2912 | Then a target without a failed judgment gate that was not taken conflicts with what is accepted at the end. |
| `AcceptAll.QueueIsStored` | apps/vscode/src/session/reviewQueue.ts:91-101 | The queue lists stored candidates of distinct findings, hence distinct candidates. |
| `AcceptAll.QueueMeaning` | apps/vscode/src/session/reviewQueue.ts:91-101 | The queue has, in the order of the findings, the first stored candidate of each finding that has one with a diff, and nothing else. |
| `AcceptAll.SelectedAreTargets` | apps/vscode/src/extension.ts:2869-2876 | What is selected from the queue of a session is pending, reviewed, distinct, acceptable and as the session stores it. |
| `Workbench.ApplyCandidateTo` | apps/vscode/src/apply/acceptCandidate.ts:55-79 | Deduping against the live text, rebasing each hunk on its own and applying all ranges at once gives the modelled document, or none when the editor refuses, and the count of skipped includes. |
| `Workbench.Workbench.constructor` | apps/vscode/src/session/ScanSession.ts:100-113 | Opening a document for a scan starts the chain at the snapshot. |
| `Workbench.Workbench.AcceptCandidate` | apps/vscode/src/extension.ts:2758-2822 | The handler, with its guard, confirmation, edit, decision, hash advance and stale refresh, is the accept step of the chain. |
| `Workbench.Workbench.RejectCandidate` | apps/vscode/src/extension.ts:3151-3155 | The handler is the reject step. |
| `Workbench.Workbench.RejectReasonArrives` | apps/vscode/src/extension.ts:3163-3167 | The reason is recorded when it arrives if the candidate is still rejected, and dropped otherwise. |
| `Workbench.Workbench.MayGenerate` | apps/vscode/src/extension.ts:2455-2475 | A repair is asked for unless the stale flag is set, the finding is no violation or it has a candidate. |
| `Workbench.Workbench.RepairArrives` | apps/vscode/src/extension.ts:2512 | The repair is stored when it arrives, without another test. |
| `Workbench.Workbench.RegeneratedRepairArrives` | apps/vscode/src/extension.ts:2622-2624 | The repair replaces the candidates of its finding when it arrives, without another test. |
| `Workbench.Workbench.DocumentChanged` | apps/vscode/src/extension.ts:3450-3455 | An outside edit changes the document and nothing else; the flag waits for the timer. |
| `Workbench.Workbench.StaleTimerFired` | apps/vscode/src/extension.ts:3455-3458 | When the timer fires the flag is recomputed from the document. |
| `Workbench.Workbench.AcceptRound` | apps/vscode/src/extension.ts:2896-2933 | One round of the batch stops on a stale document or ends in exactly one outcome, and moves the world as an unconfirmed accept does. |
| `Workbench.Workbench.DiffableQueue` | apps/vscode/src/session/reviewQueue.ts:91-101 | The loop lists the stored candidate of each finding that has a diff to show. |
| `Workbench.Workbench.AcceptAllReviewed` | apps/vscode/src/extension.ts:2869-2933 | The loop leaves the world of the batch and a tally that counts its outcomes. |
| `StripComments.StripLine` | apps/vscode/src/session/stripComments.ts:32-85 | The character loop of one line blanks exactly what the reference lexer reads as comment and ends in its mode. |
| `StripComments.StripCommentsPreserveLines` | apps/vscode/src/session/stripComments.ts:26-88 | The stripper returns the input with exactly the comment characters of the reference lexer blanked, literals ending with their line. |
| `CommentTokens.TokensAreShown` | apps/vscode/src/session/stripComments.ts:26-88 | Of a text written as tokens, stripping keeps every string and character literal as it is, escapes included and cut off by the end of a line or not, and turns every comment into as many blanks, newlines kept. |
| `CommentTokens.EveryTextHasTokens` | apps/vscode/src/session/stripComments.ts:26-88 | Every text is a list of such tokens, so that this is what stripping does to any input. |
| `StripComments.OnlyCommentsChange` | apps/vscode/src/session/stripComments.ts:26-88 | Comment positions become blanks, every other character stays, and the newlines are at the same positions. |
| `StripComments.NoOpenerLeft` | apps/vscode/src/session/stripComments.ts:65-73 | Outside a literal the stripped text has no comment opener. |
| `StripComments.NoCommentLeft` | apps/vscode/src/session/stripComments.ts:26-88 | Read again by the lexer, the stripped text has no comment position. |
| `StripComments.StrippingIsIdempotent` | apps/vscode/src/session/stripComments.ts:26-88 | Stripping twice is stripping once. |
| `StripComments.SameLineLengths` | apps/vscode/src/session/stripComments.ts:26-88 | The number of lines and the length of each line stay the same. |
| `Prelude.BuildPreludeLines` | packages/core/src/prelude.js:24-32 | The nested loops push both marker lines, the note, every line of every item in order, and the blank line. |
| `Prelude.ComposedLines` | packages/core/src/prelude.js:52-54 | The composed text splits into the prelude lines followed by the lines of the Original. |
| `Prelude.ComposedText` | packages/core/src/prelude.js:24-54 | The composed text is the start marker, the note, the declarations in the order of the items, the end marker, one blank line and the Original; the prelude has four lines more than the declarations. |
| `Prelude.CoordinateLaw` | services/repair-api/src/repair_api/compose.py:55-80 | Subtracting the synthesized line count maps each line of the composed text below the prelude to the same line of the Original, and each line at or above it to a number below one. |
| `ScanRemap.AttributeLine` | services/repair-api/src/repair_api/adapter/certfix_adapter.py:236-241 | The loop returns the first function whose range holds the line, if any. |
| `ScanRemap.AttributeIsFirst` | services/repair-api/src/repair_api/adapter/certfix_adapter.py:236-241 | A function is returned if and only if its range has the line and no range before it does. |
| `ScanRemap.CollectFailures` | services/repair-api/src/repair_api/adapter/certfix_adapter.py:343-356 | The loop collects the ids of the functions failed chunks were attributed to. |
| `ScanRemap.RemapAll` | services/repair-api/src/repair_api/adapter/certfix_adapter.py:377-391 | The loop subtracts the prelude count and drops what lies in or above the prelude. |
| `ScanRemap.GroupByFunction` | services/repair-api/src/repair_api/adapter/certfix_adapter.py:401-412 | Each function gets the violations attributed to it, in order, and violations outside of functions are dropped. |
| `ScanRemap.RunScan` | services/repair-api/src/repair_api/adapter/certfix_adapter.py:339-447 | The scan gives each function of the inventory the findings reduced from the violations remapped into it. |
| `ScanRemap.FindingMeaning` | services/repair-api/src/repair_api/adapter/certfix_adapter.py:414-447 | A function in which violations landed gets exactly one finding, for the first of those at the least line, of the kind that its rule id says; any other function gets a detection failure at its first line if one was attributed to it, and no finding otherwise. |
| `ScanRemap.LandsIsWithin` | services/repair-api/src/repair_api/adapter/certfix_adapter.py:236-241 | With disjoint function ranges a violation lands in the function whose range holds its remapped line. |
| `ScanRemap.RemapNamesTheLine` | services/repair-api/src/repair_api/adapter/certfix_adapter.py:375-391 | With the synthesized count a remapped violation names the very line of the Original that the detector saw in the composed text. |
| `UnifiedDiff.HunkUnifiedDiff` | apps/vscode/src/session/repairReport.ts:277-320 | The loops fill the fragment of any hunk: context above as far as the window, removed lines and context below as far as the file reaches. |
| `UnifiedDiff.DiffIsFaithful` | apps/vscode/src/session/repairReport.ts:277-320 | The header names lines of the Original if and only if the hunk starts in it or right behind it; then the old side is the named slice, and putting the new side in its place is exactly what applying the hunk alone does. |
| `UnifiedDiff.ContextIsFull` | apps/vscode/src/session/repairReport.ts:277-320 | To either side the fragment has as many lines of the Original as asked for, or all there are; removed and added lines are those of the hunk, and both sides start at the first line shown. |
| `UnifiedDiff.ContextAbove` | apps/vscode/src/session/repairReport.ts:277-320 | Also above a hunk that starts behind the end of the file the fragment has as many rows as asked for or as there are numbers; those that the Original does not have read `undefined`. |
| `ReviewDoc.BuildReviewDoc` | apps/vscode/src/session/contextReviewDoc.ts:91-109 | The loop renders banner, one delimiter and body per item, the marker and the code tail. |
| `ReviewRefusals.BuiltDocText` | apps/vscode/src/session/contextReviewDoc.ts:91-109 | The document is the five banner lines, for each item in order its delimiter and its declaration, the marker line and the code. |
| `ReviewRefusals.DropNewlinesMeaning` | apps/vscode/src/session/contextReviewDoc.ts:100 | From a declaration exactly the newlines at its end are taken. |
| `ReviewDoc.TrimBlankEdges` | apps/vscode/src/session/contextReviewDoc.ts:185-191 | The two index loops drop exactly the blank lines at both ends. |
| `ReviewMeaning.TrimmedMeaning` | apps/vscode/src/session/contextReviewDoc.ts:185-191 | What is left are the lines from the first to the last that is not all white space. |
| `ReviewDoc.SplitSections` | apps/vscode/src/session/contextReviewDoc.ts:159-182 | The loop cuts the lines into one section per delimiter line, ignoring what comes before the first, and tells whether it saw one. |
| `ReviewMeaning.DelimiterMeaning` | apps/vscode/src/session/contextReviewDoc.ts:54 | The id of a line is the longest group 1 with which it matches the delimiter expression, read as a decomposition of the line; a line without an id does not match. |
| `ReviewMeaning.SectionsMeaning` | apps/vscode/src/session/contextReviewDoc.ts:159-182 | Lines cut at their delimiter lines give one section for each, with its id and its trimmed lines. |
| `ReviewMeaning.LinesAreCuts` | apps/vscode/src/session/contextReviewDoc.ts:159-182 | Every list of lines can be cut so. |
| `ReviewDoc.CheckSections` | apps/vscode/src/session/contextReviewDoc.ts:231-264 | The loops report the first unknown, duplicate or empty section, else the first missing item, else nothing. |
| `ReviewDoc.BodiesById` | apps/vscode/src/session/contextReviewDoc.ts:268-269 | The map holds the body of the last section of each id. |
| `ReviewDoc.ParseReviewDoc` | apps/vscode/src/session/contextReviewDoc.ts:208-282 | The parser, with its early returns, gives the modelled outcome for any text; `RefusalMeaning` and `ParseIsSound` say which. |
| `ReviewRefusals.RefusalMeaning` | apps/vscode/src/session/contextReviewDoc.ts:208-264 | A text is refused for a reason if and only if it is the first there is: no marker line, other code behind it, no delimiter, then the first section whose id is unknown, repeated or without a declaration, then the first draft without a section. |
| `ReviewRoundTrip.ParseIsSound` | apps/vscode/src/session/contextReviewDoc.ts:208-282 | For any text, acceptance means that the code tail is the expected one, the sections biject with the drafts by id, and the drafts come back in order, each with the body, edit flag and provenance its section gives it. |
| `ReviewRoundTrip.CodeTailIsOriginal` | apps/vscode/src/session/contextReviewDoc.ts:72-79 | The expected code tail is the blank line and the stripped Original if and only if no declaration has a line equal to the marker. |
| `ReviewRoundTrip.DelimiterRoundTrip` | apps/vscode/src/session/contextReviewDoc.ts:54-59 | The delimiter line of an item whose id has no white space and ends in a word character parses back to that id. |
| `ReviewRoundTrip.ReviewRoundTrip` | apps/vscode/src/session/contextReviewDoc.ts:91-282 | Any rendering with permuted sections and edited non-blank bodies without marker or delimiter lines parses back to the drafts with exactly those bodies, blank edges trimmed. |
| `ReviewRoundTrip.BuiltDocParses` | apps/vscode/src/session/contextReviewDoc.ts:91-109 | The built document, confirmed as it is, parses back to its own items. |
| `GgufEncoding.LittleEndianRoundTrip` | apps/vscode/src/bridge/ggufTemplate.ts:25-26 | Reading the little-endian bytes of a number gives back the number. |
| `GgufEncoding.SizesAgree` | apps/vscode/src/bridge/ggufTemplate.ts:29 | For each of the eleven fixed-size types of the format the size table has the width of that type under its tag. |
| `GgufEncoding.OtherSignature` | apps/vscode/src/bridge/ggufTemplate.ts:40 | A file whose first four bytes are not the signature is refused as unsupported. |
| `GgufEncoding.HeaderRefused` | apps/vscode/src/bridge/ggufTemplate.ts:40-42 | Behind the signature another version than 2 and 3 is refused as unsupported, then a count above the safe integers as a bad length, then more than 100000 entries as excessive, whatever follows. |
| `GgufEncoding.UnknownTag` | apps/vscode/src/bridge/ggufTemplate.ts:31-38 | A type tag that the format does not have is refused where a value of it would be skipped. |
| `GgufEncoding.SkipHeld` | apps/vscode/src/bridge/ggufTemplate.ts:30-39 | Skipping a value that lies at the cursor ends exactly behind it and takes exactly its cost from the budget if budget and nesting bound allow it, and fails otherwise. |
| `GgufEncoding.SkipHeldAll` | apps/vscode/src/bridge/ggufTemplate.ts:36 | The same for the elements of an array skipped one by one. |
| `GgufEncoding.EncodedHolds` | apps/vscode/src/bridge/ggufTemplate.ts:25-39 | A well-typed encoded value in the readable part of a file lies there as far as reading can tell. |
| `GgufEncoding.EntryHeld` | apps/vscode/src/bridge/ggufTemplate.ts:43-47 | One round of the loop on an entry goes on behind it, or ends with the template or a failure. |
| `GgufEncoding.TemplateRoundTrip` | apps/vscode/src/bridge/ggufTemplate.ts:40-48 | On a file that announces some number of entries and starts with all of them, or with so many that reading stops among them, within the size limit, reading succeeds exactly when the first template and all entries before it are within the limits, and then gives that template. |
| `GgufEncoding.TemplateIsRead` | apps/vscode/src/bridge/ggufTemplate.ts:43-48 | Within the limits the first `tokenizer.chat_template` of string type is read, whatever bytes follow it. |
| `GgufEncoding.NoTemplateNoResult` | apps/vscode/src/bridge/ggufTemplate.ts:48 | A file whose metadata has no such entry is refused. |
| `GgufReader.Reader.constructor` | apps/vscode/src/bridge/ggufTemplate.ts:12-13 | The reader starts at the beginning of the file with an empty buffer and the full budget. |
| `GgufReader.Reader.Bytes` | apps/vscode/src/bridge/ggufTemplate.ts:14-24 | The sliding window returns the file slice at the cursor and advances it, never past the limit, unless the OS delivered too little. |
| `GgufReader.Reader.U32` | apps/vscode/src/bridge/ggufTemplate.ts:25 | Reads as on the plain file. |
| `GgufReader.Reader.U64` | apps/vscode/src/bridge/ggufTemplate.ts:26 | Reads as on the plain file, refusing numbers above the safe integers. |
| `GgufReader.Reader.Skip` | apps/vscode/src/bridge/ggufTemplate.ts:27 | Moves the cursor as on the plain file, keeping buffer and file in agreement. |
| `GgufReader.Reader.Text` | apps/vscode/src/bridge/ggufTemplate.ts:28 | Reads a length and as many bytes, refusing longer strings. |
| `GgufReader.Reader.SkipValue` | apps/vscode/src/bridge/ggufTemplate.ts:30-39 | The recursive skip ends where skipping on the plain file ends, with the same budget, and terminates because every call spends budget. |
| `GgufReader.Reader.SkipArray` | apps/vscode/src/bridge/ggufTemplate.ts:33-36 | The array branch skips fixed-size elements at once and others one by one. |
| `GgufReader.Reader.SkipElements` | apps/vscode/src/bridge/ggufTemplate.ts:36 | The loop over the elements does what the plain recursion does. |
| `GgufReader.Reader.ReadHeader` | apps/vscode/src/bridge/ggufTemplate.ts:40-41 | The header is read as on the plain file. |
| `GgufReader.Reader.ReadEntry` | apps/vscode/src/bridge/ggufTemplate.ts:44-46 | One round of the loop over the entries does what it does on the plain file. |
| `GgufReader.Reader.ReadEntries` | apps/vscode/src/bridge/ggufTemplate.ts:43-48 | The loop ends as on the plain file. |
| `GgufReader.ReadGgufTemplate` | apps/vscode/src/bridge/ggufTemplate.ts:8-50 | With full OS reads the buffered reader gives exactly what reading plain slices gives; with short reads it gives that or reports truncation. |
| `Cancellation.StepKeeps` | services/repair-api/src/repair_api/cancellation.py:83-116 | Every atomic step of any worker or cancel call keeps: a registered client is closed, or every cancel call still has to close it. |
| `Cancellation.NoLostCancellation` | services/repair-api/src/repair_api/cancellation.py:83-116 | In every interleaving of any number of cancel calls and workers in which no unregister drops a client that another worker holds, once a cancel and a register have both returned, the client is closed or was unregistered. |
| `Cancellation.ExclusiveIsLone` | services/repair-api/src/repair_api/usage_tracker.py:271-279 | One send at a time per client means that no unregister drops a client that another worker holds. |
| `LostCancellations.SharedUnregisterLoses` | services/repair-api/src/repair_api/cancellation.py:113-116 | Wherever an unregister drops an open client that another worker holds, the next cancellation can miss that worker. |
| `LostCancellations.SharedClientLosesCancellation` | services/repair-api/src/repair_api/cancellation.py:76 | From the start, two concurrent sends on one client are enough to lose a cancellation. |
| `LostCancellations.CancelRuns` | services/repair-api/src/repair_api/cancellation.py:83-95 | A cancel call that runs alone closes exactly the registered clients. |
| `Cancellation.NoSendAfterFlag` | services/repair-api/src/repair_api/usage_tracker.py:271-276 | A worker whose pre-check saw the flag starts no send from then on. |
| `Cancellation.NothingForNoReason` | services/repair-api/src/repair_api/cancellation.py:83-116 | In every interleaving each registered client is in a send, so none is left once all workers are idle; the event is set exactly when a cancel has begun, and before that no client is closed. |
| `Cancellation.ClosedBySteps` | services/repair-api/src/repair_api/cancellation.py:83-111 | A client ends up closed if and only if the run has a step that closes it, in the register that holds it or in a cancel. |
| `Sockets.SocketList.constructor` | services/repair-api/src/repair_api/cancellation.py:174-177 | The socket list starts empty and not cancelled. |
| `Sockets.SocketList.ShutdownFd` | services/repair-api/src/repair_api/cancellation.py:191-198 | A shutdown is followed by a close of the same descriptor. |
| `Sockets.SocketList.Trace` | services/repair-api/src/repair_api/cancellation.py:184-188 | Under the lock a duplicate is kept, or shut down and closed when already cancelled. |
| `Sockets.SocketList.Close` | services/repair-api/src/repair_api/cancellation.py:200-205 | Under the lock every kept descriptor is shut down and closed, in order, and forgotten. |
| `Sockets.SocketList.Release` | services/repair-api/src/repair_api/cancellation.py:207-211 | Under the lock every kept descriptor is closed, in order, and forgotten. |
| `Sockets.RunKeeps` | services/repair-api/src/repair_api/cancellation.py:173-211 | In every interleaving each duplicate is pending, kept or closed, exactly once, and none is shut down after it was closed. |
| `Sockets.ExactlyOneClose` | services/repair-api/src/repair_api/cancellation.py:213-220 | After the context has exited each duplicated descriptor is closed exactly once, none is left open and none was shut down late, however many late closes follow. |
| `Sockets.NothingSurvivesClose` | services/repair-api/src/repair_api/cancellation.py:200-205 | Once close was called, whatever else happens in whatever order, every duplicate that got the lock is closed exactly once, and shut down exactly once unless the context was released; only those still waiting are open. |
| `Sockets.NothingHappensBefore` | services/repair-api/src/repair_api/cancellation.py:179-211 | Without a close no connection is shut down, and without a release either none is closed. |
| `Sockets.LateTraceLeaks` | services/repair-api/src/repair_api/cancellation.py:179-189 | A trace after the release is closed if and only if close came first. |

## Left out

- The VS Code views (tree, lenses, status bar, pickers, notices, message wording) and the downloads, processes, ports, settings and cost display.
- LLM calls, the certfix detector, compilers and the repair adapter: violations, candidates and validations are arbitrary inputs, and whether the editor applies an edit or the user confirms a warning is a parameter.
- SHA-256: `ContentHash` is a free constructor, hence injective.
- UTF-16 and CRLF: texts are sequences of characters with LF newlines; the GGUF reader returns the bytes of a string without decoding UTF-8.
- Candidates that are not sound: their single accepts are covered by `Preview` and `LastLineGap`, whole runs with them are not.
- Interleaving inside one accept: guard and edit are one step, so an edit that arrives between them is not modelled. Between the rounds of a batch there may be an outside edit and a timer, but no other handler.
- Negative rows: the editor would throw on them, `ClampedOffset` takes them as the start of the document; for sound candidates they do not occur (`AcceptApplies`).
- The feedback export and the report assembly around the session, and the wording of reject reasons: a reason is a code and a comment.
- Scan result, source and confirmed context set of the session: constants that no modelled method reads.
- `violationTargetsInOrder`, `nextPendingDiffable`: the findings of a batch are any list of distinct ids.
- `_attribute_failure`: which function a failed chunk belongs to is an input of the scan, since it rests on regular expressions over the detector's chunks.
- Message, rule title, id and evidence fields of findings, and review edits that break the premise that the prelude count is the synthesized one.
- The text of the `@@` header line: the fragment carries its four numbers.
- Metrics of cancellation: wall-clock time, the exceptions raised and the best-effort nature of closing a client; a close is one step that succeeds.
- The check of the token at the end of `trace` and the entry and exit of the context manager, except for the order of release after the last trace.
- GgufReader.Reader.Bytes: takes the file as constant while it is read, and the number of bytes the OS delivers as an arbitrary function of the call.
- ReviewRoundTrip.ReviewRoundTrip: asks item kinds and provenances without line terminators, as the contract's enumerations are.
- LastLineGap.PreviewAgrees: covers hunks within the document; an insertion behind the last line is covered alone, by `PastEndGap`.
- LastLineGap.LastLineGap: not stated for a replacement of only an empty last line, whose length is in `AcceptIsLonger`.
- SecondAccept.SecondAcceptDecides: one hunk, and for a replacement no accepted pure deletion above it, below which the second accept drifts like a first.
