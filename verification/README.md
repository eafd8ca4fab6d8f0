# The Case and evidence layer, verified

The frontend keeps an investigation as *Cases*: lists of items with preserved rows, a
timeline of groups and notes over those rows, and trails that point at items. This project
models the logic that must not lose or confuse them, and proves what it promises.

## What is modelled

| part | modules | source |
|---|---|---|
| Removing occurrences and taking the removal back | `TimelineMerge`, `TimelineMergeLaws`, `TimelineMergeInverse`, `TimelineMergeLoops`, `TimelineText`, `TimelineEdits`, `Reinsertion`, `ReinsertionPlaces`, `Splicing`, `RemovalPlan`, `RemovalPlanLaws`, `RemovalPlanExact`, `RemovalReferences`, `RemovalLinks`, `RemovalIdentifiers`, `RemovalItems`, `RemovalPrepare`, `RemovalTransaction`, `RemovalHistory` | `frontend/case-removals.js` |
| From an analytical row back to its occurrences | `CaseOccurrences`, `CaseRecords` | `frontend/case-removals.js`, `frontend/app.js` |
| The client of the native evidence store | `EvidenceRevision`, `EvidenceDocuments`, `EvidenceSteps`, `EvidenceLaws`, `EvidenceRuns`, `EvidenceViews`, `EvidenceClient` | `frontend/case-evidence.js` |
| The save session | `SessionSteps`, `SessionLaws`, `SessionBlocked`, `EvidenceSession`, `SessionAdoption` | `frontend/case-evidence-session.js` |
| The coalescing Case writer | `CaseWriterSteps`, `CaseWriterLaws`, `CaseWriter` | `frontend/app.js` |
| Note resolution, byte counting, page order | `NoteResolver`, `Utf8`, `WireText`, `WireBytes`, `TimelineOrder` | `frontend/case-evidence-display.js`, `frontend/case-evidence-preserved.js`, `frontend/case-evidence.js` |
| Trail associations | `CaseItems`, `TrailChanges` | `frontend/case-evidence-items.js` |
| Pivot rows, chronology runs, JPEG headers | `PivotView`, `TimelineRuns`, `JpegHeader` | `frontend/analysis-workbench.js`, `frontend/case-evidence-timeline.js`, `frontend/case-content.js` |

`JsonValues`, `Sequences` and `Wrappers` hold what the others share.

A protocol is written twice. Its `...Steps` module gives one pure function for each stretch
of code between two waits; answers of the native side, fresh identifiers and callers' guards
are parameters of the steps, so a run is any list of events in any order. The laws are proved
of every run. The class (`EvidenceClient.Client`, `EvidenceSession.Session`,
`CaseWriter.Writer`) updates fields as the source does, and every method is proved to make
exactly its step.

JavaScript values are `Json`: a string is its UTF-16 code units, an object is the list of its
own fields, and `Undefined` may be an own field although JSON text cannot show it. Two values
are equal when their JSON text is, as in `equal`.

## Where the code does less than it seems to

* A note that takes the look of a promoted link is left with own `undefined` fields. The merge
  counts these as edits, so a rollback after another edit of the note does not bring the look
  back (`RemovalPlanLaws.LostLook`). `TimelineMergeLaws.UntouchedTextReverts` says exactly
  when a field whose text nobody changed reverts.
* A group that lists another group can keep that reference when the other group goes
  (`RemovalPlanLaws.NestedGroupDangles`). `RemovalPlanExact.DanglesExactly` says exactly which
  nestings never dangle; groups that list occurrences only are among them.
* A group that was selected itself and keeps some of its members still counts as removed. Links
  to it are lost although its last member stays (`RemovalReferences.CutGroupLosesLinks`), and a
  note anchored on it is dropped although the group is still there
  (`RemovalReferences.ShortGroupDropsNotes`). `RemovalReferences.NoteFollows` and
  `RemovalReferences.ReferencesFollow` say that this is the only way to lose a reference whose
  occurrence or group stays.
* When a group is cut to one member, a note that links to both gets two links to that member
  (`RemovalLinks.LinksMeet`), and a rollback after another edit of its links then brings a
  deleted link back twice (`RemovalLinks.RollbackRepeatsLinks`). `RemovalLinks.NoteStaysKeyed`
  says exactly when planned links still name different targets, and `RemovalLinks.LinksMerge`
  that the merge is exact then.
* A row without reference and number is named by its place. When a row before it goes, it takes
  over another identifier, and references follow the identifier instead of the row
  (`RemovalIdentifiers.PlacesShift`). `RemovalIdentifiers.IdentifiersHold` says that nothing
  else changes what an identifier names.
* The revision of the client's view can go back: after a read of another store or epoch, a read
  of the first one is adopted at any revision (`EvidenceViews.RevisionDrops`).
  `EvidenceViews.DropsOnlyByLeaving` says that nothing else makes it drop, and
  `EvidenceViews.ViewsWithin` which views can be reached without leaving.
* The session's `blocked` state is looked at when an operation is admitted, not when it
  completes. `SessionBlocked.BlockIsFinal` says exactly when a blocked session can still
  complete a save or a read.
* An empty legacy item identifier changes from unavailable to missing when a trail is
  migrated; `CaseItems.MigrationKeepsMeaning` says that nothing else changes.
* A collapsed empty path would hide every pivot row; `PivotView.CollapseIsExactCover` shows
  that this is the only collapsed set that breaks the cover.

## Model

| member | source | states |
|---|---|---|
| TimelineMergeLaws.FieldLaw | frontend/case-removals.js:14-26 | An untouched field goes back to its original value or absence; a field edited, added or deleted since stays as the user left it; a field all three sides hold is merged one level deeper. |
| TimelineMergeLaws.UntouchedTextReverts | frontend/case-removals.js:14-17 | A field whose text nobody changed reverts if and only if both sides own it or neither does, or it already was the original. |
| TimelineMergeLaws.IdentityKept | frontend/case-removals.js:10-34 | Merging a record never changes the identity it is listed under. |
| TimelineMergeLaws.MergeIdentities | frontend/case-removals.js:29-44 | For lists that repeat no identity, the merged list has exactly the live identities without untouched additions of the removal, and the deleted ones; each once; the survivors in their live order. `RemovalLinks` says when the links of a planned note are such a list. |
| TimelineMergeLaws.MergePlaces | frontend/case-removals.js:35-43 | For lists that repeat no identity: whatever the live order has become, each run of deleted entries comes back in one piece, in its order, right before the next original entry that is live, or at the end. |
| TimelineMergeLaws.NoResurrection | frontend/case-removals.js:31-42 | For lists that repeat no identity: what the user deleted does not come back, and what is foreign to the removal stays. |
| TimelineMergeLaws.MergeEntries | frontend/case-removals.js:31-43 | For lists that repeat no identity, every entry of the result is a merged survivor or a deleted original entry, and all of those are there. |
| TimelineMergeLaws.ForeignUnchanged | frontend/case-removals.js:31-34 | An entry the removal never touched comes through as it is. |
| TimelineMergeInverse.RemovalUndone | frontend/case-removals.js:29-44 | From a list that still reads as the removal left it the merge gives back the original list, every reinserted run in its place. |
| TimelineMergeInverse.RemovalRedone | frontend/case-removals.js:172-177 | The same merge with its sides swapped gives the list after the removal again. |
| TimelineMergeInverse.NothingRemoved | frontend/case-removals.js:29-44 | Merging over two equal sides leaves the text of any live list as it is. |
| TimelineMergeLoops.FillInsertions | frontend/case-removals.js:35-42 | The backward loop puts every missing entry, reversed, under the nearest later present identity. |
| TimelineMergeLoops.EmitWithInsertions | frontend/case-removals.js:43 | The final pass weaves each run in before its follower and the last one at the end. |
| TimelineMergeLoops.RestoreTimelineInPlace | frontend/case-removals.js:29-44 | The loops compute the merge that the laws are about. |
| Reinsertion.ReinsertIds | frontend/case-removals.js:35-43 | Reinsertion ends with the kept identities in order and every missing one that is not gone, each once. |
| Reinsertion.ReinsertRestores | frontend/case-removals.js:35-43 | Reinserting into a subsequence of the original list gives the original list. |
| ReinsertionPlaces.RunsReturnTogether | frontend/case-removals.js:36-43 | A run of missing entries is reinserted in one piece before the kept entry that follows it in the original list, or at the end. |
| TimelineEdits.UserHasTheLastWord | frontend/case-removals.js:150-179 | Through any run of edits, rollbacks and redos, every field of an entry that the removal has nothing to do with reads as the user left it last, and its entry is there if and only if the user left it there. |
| TimelineText.RecordedText | frontend/case-removals.js:154-156 | Groups and notes read back from their remembered text have the same identities and text. |
| TimelineText.PlanReversible | frontend/case-removals.js:88-109 | The groups and the notes that a removal plans meet the hypothesis of the exact inverse. |
| TimelineText.TextUndone | frontend/case-removals.js:150-158 | Undoing from remembered texts turns what reads like the changed timeline into the original text. |
| TimelineText.TextRedone | frontend/case-removals.js:172-177 | Redoing from remembered texts turns what reads like the original into the changed text. |
| RemovalPlan.PlanGroupsInPlace | frontend/case-removals.js:89-97 | The loop over the groups computes the plan: kept, shortened, retargeted or removed, in order. |
| RemovalPlan.PlanNotesInPlace | frontend/case-removals.js:98-109 | The loop over the notes filters and retargets links and promotes or drops notes as planned. |
| RemovalPlanLaws.NoDanglingReferences | frontend/case-removals.js:86-109 | Whatever set of identifiers goes, and with groups that list occurrences only: no member of a remaining group, no anchor and no link target names a removed identifier or a dropped group, and references are handed to a member that stays. `RemovalIdentifiers.ReferencesNameRows` says what that means for the rows of the Case. |
| RemovalPlanLaws.NestedGroupDangles | frontend/case-removals.js:91-97 | A group that lists a later group keeps the reference when that group goes. |
| RemovalPlanExact.NothingDangles | frontend/case-removals.js:86-109 | The same holds when groups are nested, if every listed group is empty, or comes before the one that lists it and has a single member. |
| RemovalPlanExact.DanglesExactly | frontend/case-removals.js:89-97 | Where listed groups list distinct occurrences, no selection leaves a group or a handed-over reference dangling if and only if the groups are nested so. |
| RemovalPlanLaws.GroupOutcome | frontend/case-removals.js:91-97 | Each group is untouched, shortened, handed over to its last member or removed, by how many members are left; its own identifier counts as removed if and only if it lost members and either none is left or it was selected itself. |
| RemovalReferences.RemovedExactly | frontend/case-removals.js:84-97 | For every identifier: one that no group has counts as removed exactly when it or its entry was selected, no remaining row carries it, and it is not the run of a remaining row; a group's counts exactly when the group lost members and none is left or it was selected so. |
| RemovalReferences.PlanKnows | frontend/case-removals.js:89-97 | An identifier counts as removed if and only if references to it lead nowhere or it is a selected group that keeps members, and is handed over if and only if its references lead elsewhere, and there. |
| RemovalReferences.LinksFollow | frontend/case-removals.js:101 | Every link leads on to its occurrence, its group or the last member of its group, if and only if no link names a selected group that keeps members; otherwise links are missing. |
| RemovalReferences.NoteFollows | frontend/case-removals.js:99-109 | Every reference of a note leads where it should, and the note is dropped only if nothing is left to show it at, if and only if no link names a selected group that keeps members and the anchor no selected group that keeps two. |
| RemovalReferences.ReferencesFollow | frontend/case-removals.js:91-109 | That holds of every note if and only if no group that lost some but not all of its members was selected itself. |
| RemovalReferences.FateStays | frontend/case-removals.js:91-97 | A reference that leads on leads to an occurrence that was not removed, or to a group of the plan. |
| RemovalReferences.CutGroupLosesLinks | frontend/case-removals.js:91-102 | A selected group cut to one member hands over its anchored notes, but links to it are lost. |
| RemovalReferences.ShortGroupDropsNotes | frontend/case-removals.js:91-104 | A note anchored on a selected group that keeps two members is dropped, although the group stays. |
| RemovalLinks.LinksStayDistinct | frontend/case-removals.js:101 | Planned links name different targets if and only if no two links that are kept name a cut group and its last member, or two groups cut to the same one. |
| RemovalLinks.NoteStaysKeyed | frontend/case-removals.js:101-107 | The same of the links that a planned note keeps as links, after one may have become its anchor. |
| RemovalLinks.LinksMerge | frontend/case-removals.js:20-43 | Under that condition a rollback merges the links of the note, whatever the user made of them, to exactly the live and the deleted ones, each once, the live ones in their order. |
| RemovalLinks.LinksMeet | frontend/case-removals.js:95-101 | Links to a group and to the member that it is cut to become two links to that member. |
| RemovalLinks.RollbackRepeatsLinks | frontend/case-removals.js:29-44 | With links repeated so, a rollback after another link was added brings the deleted link back twice. |
| RemovalIdentifiers.KeepsId | frontend/case-removals.js:3 | A row that stays keeps its identifier if and only if it has a reference or a number or no row before it in its item is taken out. |
| RemovalIdentifiers.RemainingIsAfter | frontend/case-removals.js:81-85 | The remaining identifiers are exactly those that the rows that stay carry after the removal. |
| RemovalIdentifiers.IdentifiersHold | frontend/case-removals.js:70-87 | Every row that stays carries its identifier on, and the identifier of every row that goes counts as removed unless a row that stays carries it too, if and only if no row that stays behind one taken out of its item is named by its place. |
| RemovalIdentifiers.PlanHolds | frontend/case-removals.js:70-97 | The same of the finished plan, when no group goes by the name of a row. |
| RemovalIdentifiers.ReferencesNameRows | frontend/case-removals.js:70-109 | Then every member, anchor and link of the planned timeline that named a row before names one that carried the identifier before and carries it after. |
| RemovalIdentifiers.PlacesShift | frontend/case-removals.js:81-87 | Of two rows named by their places the first is taken out: its identifier names the other row, the other row's identifier names none, and neither counts as removed. |
| RemovalPlanLaws.PlanOnlyDeletes | frontend/case-removals.js:90-109 | Planned groups and notes are subsequences of the original ones by identity. |
| RemovalPlanLaws.LostLook | frontend/case-removals.js:103-107 | A look that the promoted link does not have is not brought back by a rollback after another edit of the note. |
| RemovalItems.RemainingExactly | frontend/case-removals.js:81 | The rows that stay are those at the unselected positions, in order. |
| RemovalItems.GroupedExactly | frontend/case-removals.js:71-76 | Grouping the targets keeps exactly the selected positions of each item. |
| RemovalItems.Cut.RestoredOrder | frontend/case-removals.js:133-141 | Splicing the emptied items back in gives the original order. |
| Splicing.SpliceMissing | frontend/case-removals.js:133-140 | The backward walk with its splices computes the reinsertion. |
| Splicing.SpliceConserves | frontend/case-removals.js:118-143 | What was in the list stays in its order, what was missing and is wanted comes back, nothing else appears and nothing twice. |
| Splicing.SpliceRestores | frontend/case-removals.js:133-141 | If only wanted elements are missing, the captured order comes back. |
| RemovalPrepare.Prepare | frontend/case-removals.js:68-109 | Refused exactly for no target or a stale one; otherwise a transaction over the Case as it is, which takes out exactly the selected rows, holds the planned groups and notes, and has touched nothing. |
| RemovalPrepare.StartsQuiet | frontend/case-removals.js:110-117 | A prepared transaction over a recorded timeline starts a run that nobody disturbs. |
| RemovalTransaction.Transaction.Apply | frontend/case-removals.js:111-116 | Refused with nothing changed unless items, rows and timeline are as prepared; otherwise installs the reduced Case and remembers it. |
| RemovalTransaction.Transaction.Undo | frontend/case-removals.js:144-149 | Refused with nothing changed unless the Case is just what was left; otherwise restores items and the prior timeline. |
| RemovalTransaction.Transaction.Rollback | frontend/case-removals.js:150-159 | Refused with items and timeline untouched unless every shrunken container is as the removal left it; otherwise all containers are restored around what else happened and the timeline is merged back. |
| RemovalTransaction.Transaction.Redo | frontend/case-removals.js:160-179 | Refused with nothing changed unless every touched container is as the undo left it; otherwise the same rows go again and the timeline takes the swapped merge. |
| RemovalTransaction.Transaction.RestoreConserves | frontend/case-removals.js:118-143 | After a restore every container of the removal is back, every other item is still there in its relative order, and nothing else appeared. |
| RemovalTransaction.Transaction.UndoneShows | frontend/case-removals.js:144-149 | An undone Case shows, item by item, the identifiers, rows, counts and fields it showed when the removal was prepared. |
| RemovalTransaction.Transaction.AppliedShows | frontend/case-removals.js:110-117 | An applied or redone Case shows the same shortened and remaining items every time. |
| RemovalTransaction.Transaction.ApplyUndisturbed | frontend/case-removals.js:111-117 | Just prepared, a removal is not refused; the Case then shows the reduced items and the planned timeline text, and the removal can be undone. |
| RemovalTransaction.Transaction.UndoUndisturbed | frontend/case-removals.js:144-149 | Without outside edits an undo is not refused, and the Case shows what it showed before. |
| RemovalTransaction.Transaction.RedoUndisturbed | frontend/case-removals.js:160-179 | Without outside edits a redo is not refused, although it works on fresh objects and through the swapped merge; the Case shows what the application showed, and the removal can be undone. |
| RemovalTransaction.Transaction.RollbackFits | frontend/case-removals.js:118-157 | Without outside edits every shrunken container is intact, so the rollback is not refused, and its merge gives the starting texts. |
| RemovalTransaction.Transaction.RollbackUndisturbed | frontend/case-removals.js:150-159 | Without outside edits a rollback is not refused, and the Case shows what it showed before. |
| RemovalPrepare.Replay | frontend/case-removals.js:68-179 | Over a live Case, prepare, apply and any number of reversals, each an undo or a rollback, with a redo after each: the history holds, after every reversal, exactly the views and the timeline text of the Case before, and after the application and every redo, the same reduced views and planned text with the removal undoable. |
| RemovalHistory.AnyHistory | frontend/case-removals.js:117-180 | Over a live Case, through any sequence of undos, rollbacks and redos, refused or not, between edits of the timeline and of the list of items: every field of a group or note that the removal has nothing to do with reads as the user left it last. |
| RemovalHistory.Replaced | frontend/case-removals.js:144-147 | An undo puts back lists in which every such field reads as in the live ones. |
| RemovalHistory.QuietIsSteady | frontend/case-removals.js:111-117 | A removal that was just applied can start such a history. |
| CaseOccurrences.CaseEvents | frontend/app.js:8187-8218 | The nested loops give one numbered event for each distinct key in scope, in order of first occurrence. |
| CaseOccurrences.RowsAreRepresentatives | frontend/app.js:8189-8199 | Every key in scope has exactly one analytical row. |
| CaseOccurrences.ResolveInPlace | frontend/case-removals.js:46-67 | The two scans compute the occurrences that the event stands for. |
| CaseOccurrences.DenseIdIsFaithful | frontend/case-removals.js:49-66 | The row numbered `i` resolves to a non-empty list of exactly the occurrences, in any station, with its key. |
| CaseOccurrences.ReferenceIsExact | frontend/case-removals.js:48-65 | A row with a reference resolves to exactly the occurrences with that reference. |
| CaseOccurrences.OccurrencesExactly | frontend/case-removals.js:63-65 | The scan meets every row of every item, and nothing else. |
| EvidenceRevision.CompareIsNumeric | frontend/case-evidence.js:33 | Comparing by length and then text is the sign of the numeric difference. |
| EvidenceRevision.AcceptedIsU64 | frontend/case-evidence.js:29-32 | A text is accepted exactly when it is the canonical decimal of a number below 2 to the 64. |
| EvidenceRevision.AcceptedRoundTrip | frontend/case-evidence.js:29-32 | Every such number has exactly its own accepted text. |
| EvidenceDocuments.CheckContainers | frontend/case-evidence.js:192-196 | The loop accepts a document exactly when no container is in two places. |
| EvidenceDocuments.AdoptionSettles | frontend/case-evidence.js:555-567 | An adopted save keeps Cases, content and containers in place and owners unchanged, and leaves a durable reference in place of every pending one. |
| EvidenceLaws.StepKeeps | frontend/case-evidence.js:268-571 | Every step keeps the client's invariant and takes back nothing that a preparation or ticket was given. |
| EvidenceRuns.DiscardedNeverSaved | frontend/case-evidence.js:402-465 | In every run, no save that was sent names the token of a discard that was sent, if the native side gives no token twice. |
| EvidenceRuns.SavedNeverDiscarded | frontend/case-evidence.js:402-404 | Once a save resting on a preparation was sent, giving it up does nothing, and no discard for it is ever in the log. |
| EvidenceRuns.GivenUpNeverSaved | frontend/case-evidence.js:539-540 | Once a discard was sent, no ticket resting on that preparation can be sent. |
| EvidenceRuns.ResendsAreIdentical | frontend/case-evidence.js:541-544 | Every send of a ticket carries the identifier, stamp and document it was issued with. |
| EvidenceRuns.AtMostEight | frontend/case-evidence.js:453-457 | At most eight tokens are sealed, each of a prepared preparation that was not given up. |
| EvidenceRuns.ViewNeverGoesBack | frontend/case-evidence.js:272-568 | As long as the view stays in one store and epoch its revision number never decreases, over any run of loads and saves. |
| EvidenceViews.ReadAdopted | frontend/case-evidence.js:272-279 | The newest read is adopted if and only if its document is valid and, in the store and epoch of the view, no older than the view. |
| EvidenceViews.ViewsWithin | frontend/case-evidence.js:272-568 | Without leaving its store and epoch the view can come to exactly the valid documents there of no earlier revision. |
| EvidenceViews.DropsOnlyByLeaving | frontend/case-evidence.js:272-279 | Between two views of one store and epoch the revision drops only if a read of another one was adopted in between. |
| EvidenceViews.AnyViewByLeaving | frontend/case-evidence.js:276-278 | Through a read of another store the view can come to any valid document, whatever its revision. |
| EvidenceViews.RevisionDrops | frontend/case-evidence.js:276-278 | A run from the start that reads a store at revision 5, another one, and the first again at revision 3, and adopts all three. |
| EvidenceRuns.OvertakenConfirmation | frontend/case-evidence.js:547-554 | A confirmation that finds the view past its stamp, or in another store, leaves the view as it is and demands reconciliation; its preparations are committed. |
| EvidenceRuns.ReadReplacesWhatItSaw | frontend/case-evidence.js:272-278 | A read that is adopted replaces the very view that was there when it was asked for. |
| EvidenceClient.Client.Loaded | frontend/case-evidence.js:272-279 | Adopts the document and becomes ready, or leaves view and phase alone. |
| EvidenceClient.CheckRows | frontend/case-evidence.js:376-382 | The loop accepts exactly one to ten thousand well-formed handles, none twice. |
| EvidenceClient.CheckMembers | frontend/case-evidence.js:389-395 | The loop accepts exactly a non-empty list of occurrences of the base list within the limit, none twice. |
| EvidenceClient.Client.Issue | frontend/case-evidence.js:361-401 | Issues a preparation ticket, stamped with the view, exactly when the owner may be changed, the request is well formed and it is within the byte budget. |
| EvidenceClient.Client.Discard | frontend/case-evidence.js:402-419 | Makes the discard step; the native side is asked at most once at a time. |
| EvidenceClient.Client.Prepare | frontend/case-evidence.js:420-434 | Makes the prepare step: discards what was given up, sends only for the current stamp, never twice at once. |
| EvidenceClient.Client.Prepared | frontend/case-evidence.js:434-463 | Makes the step of the answer: checks it against the command, seals it, and gives it up if the view moved. |
| EvidenceClient.Client.Remember | frontend/case-evidence.js:453-457 | The dropping loop keeps the eight newest tokens. |
| EvidenceClient.Client.FindAuthorities | frontend/case-evidence.js:298-301 | Finds the preparation behind every pending reference, or reports that one is missing, given up or different. |
| EvidenceClient.Client.PrepareTicket | frontend/case-evidence.js:280-303 | Issues a ticket holding the document and the view's stamp, or changes nothing. |
| EvidenceClient.Client.Save | frontend/case-evidence.js:526-544 | Makes the save step: refuses foreign stores, changed owners and given-up preparations, and joins a save in flight. |
| EvidenceClient.Client.Saved | frontend/case-evidence.js:544-571 | Makes the step of the confirmation; a receipt is passed on only when valid. |
| SessionLaws.CleanIsCovered | frontend/case-evidence-session.js:33-44 | Whenever the session is clean, every mark is followed by the capture of a document whose save was acknowledged and then adopted. |
| SessionLaws.AtMostOneSave | frontend/case-evidence-session.js:89-123 | At every moment of every run at most one save is under way. |
| SessionLaws.OnlyTheFailedTicket | frontend/case-evidence-session.js:94-120 | Between a failure and the next success or failure only the failed ticket is sent. |
| SessionBlocked.BlockedForever | frontend/case-evidence-session.js:31-129 | The block is never lifted. |
| SessionBlocked.QuietForever | frontend/case-evidence-session.js:100-118 | With nothing under way when the block falls, nothing ever completes again. |
| SessionBlocked.BlockIsFinal | frontend/case-evidence-session.js:45-123 | A blocked session completes nothing in any continuation if and only if no save is running, no retry of the held ticket is queued and no unanswered read is the newest operation. |
| SessionBlocked.SavedThoughBlocked | frontend/case-evidence-session.js:45-93 | A run in which a stale read blocks the session and the save in flight completes normally all the same. |
| EvidenceSession.Session.Clean | frontend/case-evidence-session.js:41-44 | Decides cleanness as the laws read it. |
| EvidenceSession.Session.RunNext | frontend/case-evidence-session.js:100-123 | Starts the next job: a save captures and sends unless the store changed, the session is blocked or a ticket is held; a retry sends only the held ticket. |
| EvidenceSession.Session.Answered | frontend/case-evidence-session.js:56-62 | An answer goes on to adoption only in the same store and without reconciliation; otherwise the ticket is held and the session blocked. |
| EvidenceSession.Session.ContextsAdopted | frontend/case-evidence-session.js:85-99 | A finished adoption covers the marks of its capture and frees the held ticket. |
| EvidenceSession.Session.LoadAnswered | frontend/case-evidence-session.js:45-55 | A read is installed or deferred only if nothing happened since; otherwise the session is blocked. |
| SessionAdoption.AdoptReferences | frontend/case-evidence-session.js:63-71 | The loop over the published references gives a slot of the live store the one published for its container if and only if it still holds the captured records in the captured Case object; every slot edited, added or replaced meanwhile stays as the user left it. |
| SessionAdoption.UntouchedIsDurable | frontend/case-evidence-session.js:63-71 | When the client could adopt the receipt, no untouched slot keeps a pending reference. |
| CaseWriterLaws.SavedMeansSaved | frontend/app.js:4234-4304 | A call that is told "saved" had its store snapshotted after the call and acknowledged with a larger revision, that store being live at the snapshot, the answer and the end. |
| CaseWriterLaws.EveryCallSettlesOnce | frontend/app.js:4271-4303 | Every batch settles at most once, and has settled unless it is the waiting or the active one. |
| CaseWriterLaws.FlushedIsDurable | frontend/app.js:4317-4347 | When nothing is active, waiting or failed, every call made since the live store became live is followed by a saved snapshot of it. |
| CaseWriter.Writer.DrainCaseSaves | frontend/app.js:4234-4276 | Starts the ready batch when nothing is active, or settles it if its store is gone. |
| CaseWriter.Writer.RequestSave | frontend/app.js:4278-4304 | Joins the waiting batch of the live store, drops one of another store, and starts the debounce again. |
| CaseWriter.Writer.Answered | frontend/app.js:4252-4275 | Confirms only a larger safe revision of a store that is still live. |
| CaseWriter.Writer.FinishFlush | frontend/app.js:4340-4345 | A flush reports success exactly when nothing is active, waiting or failed. |
| NoteResolver.ExactlyOneMeaning | frontend/case-evidence-display.js:134-144 | Following the links gives every identifier one meaning and no other, on every note graph. |
| NoteResolver.MeansAlong | frontend/case-evidence-display.js:135-142 | Every note on the way to a meaning has that meaning, which is what the memo relies on. |
| NoteResolver.TrailCycle | frontend/case-evidence-display.js:139 | A walk that comes back to itself never meets an anchor. |
| NoteResolver.Resolver.Follow | frontend/case-evidence-display.js:135-141 | The walk terminates on every note graph and ends where the meaning is known. |
| NoteResolver.Resolver.Resolve | frontend/case-evidence-display.js:134-144 | The memoised answer is the plain meaning, and the memo stays right. |
| NoteResolver.ResolveAll | frontend/case-evidence-display.js:131-145 | Every answer in any sequence of queries is the plain meaning. |
| Utf8.EncodeAppend | frontend/case-evidence.js:20-24 | Encoding goes piece by piece unless a cut splits a surrogate pair. |
| Utf8.Utf8Within | frontend/case-evidence.js:17-28 | True if and only if the UTF-8 encoding has at most that many bytes. |
| WireText.WireSize | frontend/case-evidence-preserved.js:30-48 | The plain byte count is the number of UTF-8 bytes of the JSON text. |
| WireText.QuoteSize | frontend/case-evidence-preserved.js:18-29 | The cost of a string is the size of its quoted and escaped text, lone surrogates included. |
| WireBytes.Counter.String | frontend/case-evidence-preserved.js:18-29 | The counting loop is exact while it is within the maximum and past it otherwise. |
| WireBytes.Counter.Walk | frontend/case-evidence-preserved.js:30-48 | So is the walk over a value, early exits and depth limit included. |
| WireBytes.Counter.WalkItems | frontend/case-evidence-preserved.js:37-38 | The loop over an array spends exactly its elements and commas, or ends past the maximum. |
| WireBytes.Counter.WalkFields | frontend/case-evidence-preserved.js:40-45 | The loop over an object spends exactly its defined fields, or ends past the maximum. |
| WireBytes.WireWithin | frontend/case-evidence-preserved.js:16-50 | True if and only if the value nests at most 64 deep and the UTF-8 bytes of its JSON text are at most the maximum. |
| TimelineOrder.FallsSomewhere | frontend/case-evidence-preserved.js:166 | The test on two neighbours is the negation of lexicographic order. |
| TimelineOrder.OrderAccepted | frontend/case-evidence-preserved.js:156-168 | The loop accepts a page exactly when all its entries are in lexicographic order and no identifier occurs twice. |
| PivotView.CollapseIsExactCover | frontend/analysis-workbench.js:453-459 | With no search, every leaf group has exactly one displayed row that is a prefix of it if and only if the empty path is not collapsed. |
| PivotView.EveryRowCovers | frontend/analysis-workbench.js:453-459 | Below every displayed row there is a leaf group. |
| PivotView.SpanAt | frontend/analysis-workbench.js:500-504 | The span reaches exactly to the end of the group. |
| PivotView.DimensionCells | frontend/analysis-workbench.js:494-513 | The loops write exactly the cells that start a group, each once. |
| PivotView.CellsTile | frontend/analysis-workbench.js:494-504 | In every dimension column each row of the page lies in exactly one written cell. |
| TimelineRuns.AutomaticRuns | frontend/case-evidence-timeline.js:45-51 | The runs concatenate to the events in order; each has at most 250 members of one container and grouping key at most 300000 ms apart, and none could have taken the next event. |
| TimelineRuns.OneWayToCut | frontend/case-evidence-timeline.js:45-51 | These conditions determine the runs. |
| TimelineRuns.Collect | frontend/case-evidence-timeline.js:34-51 | The loops give the authored groups that show and the runs of what these have not taken. |
| TimelineRuns.EventsConserved | frontend/case-evidence-timeline.js:34-51 | No event is lost; every event lies in exactly one entry, once, if and only if the showing groups share and repeat none. |
| JpegHeader.ImageHeader | frontend/case-content.js:27-57 | The loops read exactly the header of any bytes, terminate, and read within bounds. |
| JpegHeader.ReadsWhatWasWritten | frontend/case-content.js:38-57 | After any segments, markers and fill bytes, and before any tail, the size of the frame header is found. |
| JpegHeader.AcceptsOnlyWritten | frontend/case-content.js:38-57 | Bytes that are given a size, or are found too large, are such a file with that frame header. |
| CaseItems.MigrationKeepsMeaning | frontend/case-evidence-items.js:39-65 | In a valid document migration succeeds and keeps items and order; an entry keeps its state if and only if it is not an unblocked empty identifier. |
| CaseItems.MigrationIsStable | frontend/case-evidence-items.js:54-65 | Resolving migrated references changes none of them. |
| CaseItems.OwnReference | frontend/case-evidence-items.js:48-53 | The item that a legacy identifier names alone has an unambiguous reference of its own. |
| CaseItems.WithContainerMember | frontend/case-evidence-items.js:31-38 | The container index finds exactly the items that hold the container. |
| CaseItems.WithIdMember | frontend/case-evidence-items.js:31-44 | The identifier index finds exactly the items with the identifier, outside legacy use only those without containers. |
| CaseItems.MayReplace | frontend/case-evidence-items.js:96-108 | The running counts admit an edit exactly when every reference is unique or well-formed and no more frequent than before, and none is multiplied. |
| CaseItems.PartsAreAdmitted | frontend/case-evidence-items.js:99-108 | Every reordering and every part of well-formed prior references is admitted. |
| CaseItems.NoMultiplying | frontend/case-evidence-items.js:106 | No admitted edit raises a multiplicity above one or above what it was. |
| TrailChanges.Trail.Finish | frontend/case-evidence-items.js:82-95 | A refused save takes the lists and the time back if nobody touched them; otherwise everything stays. |
| TrailChanges.Trail.Edit | frontend/case-evidence-items.js:96-111 | Installs the references beside the untouched legacy list exactly when they are admitted and no change is under way. |
| TrailChanges.Trail.Undo | frontend/case-evidence-items.js:113-118 | Starts exactly while the trail still holds the arrays of the change. |
| TrailChanges.EditAndUndo | frontend/case-evidence-items.js:76-118 | For every outcome of both saves: the edit is made exactly when admitted and stays unless rejected, in between the new references stand beside the untouched legacy list, and a saved edit is always undone, which gives both lists back unless that is rejected. |

## Left out

- DOM code, menus, dialogs, charts, toasts and real time: a timer is an event that may come at any moment.
- The native engine: it answers, fails or answers late, as any run may have it; that it never gives one token to two preparations is a hypothesis of `EvidenceRuns.DiscardedNeverSaved`.
- Field-by-field shape checks (key lists, lengths, digests, byte budgets); the client's size limit is a parameter of its step.
- The client's source receipts, member search, previews and publications, and the evidence signatures of a document: reads beside the save protocol.
- The store stamp and the list of evidence states that an adopted save puts into the live store, beside the references.
- The waiting of a flush between its passes, which is the passing of other events here, and its early refusals.
- The native branch of the Case writer, which hands over to the session; adoption of analysis contexts is a counted wait.
- Null or non-record entries in groups and notes, which make the source throw.
- Timeline identifiers that are no strings, or that repeat within a list: the merge laws are for lists whose entries have their own string identity. The plan of a removal can make links repeat; `RemovalLinks` says exactly when, and what a rollback then does on one input.
- Arrays captured by a removal: restored and shortened row lists are fresh arrays here, while the source puts back the captured ones, so a mutation of a detached array is not modelled.
- Replacement items are found by the place of their original in the captured list, which has each item once; the source keys them by the item object.
- RemovalPlanLaws.NoDanglingReferences: requires that no group lists a group (`RemovalPlanExact` says what holds otherwise); links of notes to dropped notes are not covered, because the source does not record dropped notes.
- RemovalPrepare.Replay: is about runs without outside edits; what happens with them is in `RemovalHistory`, `Rollback`, `RestoreConserves` and the merge laws.
- RemovalHistory.AnyHistory: edits of an item's own fields between two calls are not among its acts.
- TimelineEdits.UserHasTheLastWord: is about one list under edits, rollbacks and redos; `RemovalHistory.AnyHistory` says it of the transaction, undos included.
- RemovalIdentifiers.ReferencesNameRows: is for groups that list occurrences only and do not go by the name of a row, which the program's group identifiers never do.
- RemovalPlanExact.DanglesExactly: is exact where listed groups list distinct occurrences; for groups nested deeper, or with repeated members, only the sufficient condition is proved.
- EvidenceClient.Client.Issue: the byte budget of a request is a parameter, and the shape of a reference is not checked.
- WireBytes.WireWithin: for values whose numbers are finite and that hold undefined at most as a field, which JSON values do.
- TimelineRuns.Collect: manual marks, colours and the final sort by time are not modelled.
- PivotView.CollapseIsExactCover: is about an empty search text; search, sorting by measure and the presentation cache are not modelled.
- TrailChanges.Trail.Edit: a field that holds no list is not modelled there; `CaseItems.Associations` resolves it as unavailable.
- PNG and WebP headers, and the decoding and resizing of images.
