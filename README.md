# Thesis registration portal — a Dafny model of its core

The portal runs a student's path through two academic phases. The first is
the seminar proposal (*proposal*); the second is the final thesis defense
(*skripsi*). In each phase:

1. The student registers by uploading the documents of the phase's
   registration catalog.
2. The main office accepts or rejects each file. One rejection rejects the
   registration. Acceptance of every mandatory file makes it *validated*.
3. A validated registration gets a defense slot (date, time window, room).
   A slot is refused when it clashes with another session on the same day:
   either the same room, or a lecturer who sits on both committees.
4. After the defense the registration moves to the phase's revision stage.
   The student uploads revision documents, and the library checks them
   against a revision catalog and a hard copy.
5. Finalizing completes the phase. A student may register for the thesis
   only with a completed proposal.

The store behind all pages is one in-memory service object. It holds the
submission list, the schedule list, the room list and four requirement
catalogs. The pages keep their own state and call the store.

The model follows that structure:

- **Pure logic** becomes datatypes, functions and lemmas. This covers:
  - the status recomputation;
  - the record transitions;
  - the conflict rules;
  - sorting and filtering;
  - the notification dot;
  - JavaScript's string, array and object operations the code relies on:
    - `trim`, `split`, `toLowerCase`, `Number`, `padStart` and `includes`;
    - `find`, `findIndex`, `filter` and `sort`;
    - objects as insertion-ordered dictionaries with spread and delete.
- **Objects whose fields change** become classes whose methods reassign
  fields under `modifies` clauses. This covers the store
  (`MockDb.MockDatabase`) and each page's state (`FormPage.RegistrationForm`,
  `AdminScheduling.AdminSchedulingPage`, …).
- **Loops** stay loops with invariants: the conflict scan in
  `MockDatabase.CheckConflict` and the revision preload in
  `RevisionPage.RelevantFiles`.

Each state-changing method states its whole new state in terms of the
functions, and the lemmas state what those functions guarantee.

Modules, in dependency order:

| Module | Contents |
|---|---|
| `Strings` | string operations with JavaScript's meaning |
| `Seqs` | array callbacks |
| `ObjectMaps` | objects used as dictionaries |
| `Types` | the records and statuses |
| `Catalogs` | the shipped requirement lists |
| `MockDb` | the store |
| `RequirementEdits` | the catalog editor shared by two pages |
| `FormPage`, `RevisionPage`, `AdminValidation`, `AdminScheduling`, `LibraryAdmin`, `AdminSettings`, `ScheduleStatus`, `App` | one module per page |

Where the natural-language description of the system and the code
disagree, the model follows the code:

- `validateFile` recomputes the status of every record whose status does
  not contain "revision". That includes *scheduled* and both *completed*
  statuses, so a verdict on a completed record sends it back to pending,
  rejected or validated. `MockDb.ValidateOutcome` states this.
- `resetFileValidation` sends a *scheduled* record back to pending.
  `MockDb.ResetOutcome` states this.
- The status recomputation always reads the registration catalog, even
  when the library desk records a verdict on a revision file.

## Model

| member | source | states |
|---|---|---|
| Strings.ToLower | services/mockDb.ts:314 | same length; each character is lowered when it is an ASCII capital and kept otherwise |
| Strings.ToLowerIdempotent | pages/ScheduleStatus.tsx:137 | lowering twice is lowering once |
| Strings.Trim | services/mockDb.ts:312-313 | the trimmed name is a contiguous piece of the original that neither starts nor ends with white space |
| Strings.TrimDropsOnlySpace | services/mockDb.ts:313 | everything `trim` drops before and after the kept piece is white space |
| Strings.TrimOfSolid | pages/AdminScheduling.tsx:82-83 | a name without white space trims to itself |
| Strings.Split | services/mockDb.ts:301 | `split` always yields at least one piece |
| Strings.SplitTwo | services/mockDb.ts:301 | two colon-free pieces joined by one colon split back into exactly those two pieces |
| Strings.SplitOne | services/mockDb.ts:301 | a string without the separator splits into itself alone |
| Strings.NatToString | pages/AdminScheduling.tsx:75-76 | `toString` of a number is a non-empty run of decimal digits |
| Strings.NatToStringRoundTrip | pages/AdminScheduling.tsx:75-76 | reading the printed digits back gives the number |
| Strings.PadStart2 | pages/AdminScheduling.tsx:75-76 | `padStart(2, '0')` keeps the string as its suffix and prefixes only zeros up to length two |
| Strings.PaddedNumberValue | pages/AdminScheduling.tsx:75-76 | a number printed and padded is still all digits and reads back as the number |
| Strings.LessIrreflexive | pages/AdminSettings.tsx:128-129 | string `<` never holds between a string and itself |
| Strings.LessTrichotomy | pages/AdminSettings.tsx:128-129 | two strings are equal or one is `<` the other |
| Strings.LessTransitive | pages/AdminSettings.tsx:128-129 | string `<` is transitive |
| Seqs.FirstIndex | services/mockDb.ts:140 | `findIndex` returns the first position whose element satisfies the test, or none when no element does |
| Seqs.Find | services/mockDb.ts:134 | returns a satisfying element exactly when one exists, and it is the one at the first satisfying position |
| Seqs.FirstSome | services/mockDb.ts:316-341 | the first present value of a list, the one a loop returning on its first hit reports; none exactly when all are absent |
| Seqs.Filter | services/mockDb.ts:279 | keeps exactly the elements satisfying the test, nothing else, and in their original relative order |
| Seqs.FilterMultiplicity | pages/LibraryAdmin.tsx:22-27 | `filter` keeps each satisfying element as often as it occurs and drops every other |
| Seqs.FilterAppend | pages/LibraryAdmin.tsx:22-27 | filtering a list extended at the end filters the old list, then keeps or drops the new element |
| Seqs.FilterSize | services/mockDb.ts:350-353 | `filter(p).length` is the number of positions whose element satisfies the test |
| Seqs.FilterAll | pages/AdminSettings.tsx:119-122 | a filter whose test every element passes returns the list unchanged |
| Seqs.FilterAgree | pages/ScheduleStatus.tsx:137-140 | filters by tests that agree on every element return the same list |
| Seqs.SortBy | pages/LibraryAdmin.tsx:29-35 | `sort` with a total comparator yields a rearrangement of its input, ordered by the comparator |
| Seqs.Insert | pages/LibraryAdmin.tsx:29-35 | inserting into a sorted list keeps it sorted and adds exactly the element |
| ObjectMaps.Keys | services/mockDb.ts:283 | `Object.keys` lists the keys in insertion order |
| ObjectMaps.Get | pages/FormPage.tsx:146 | `obj[k]` is absent exactly when no entry has the key, and otherwise the value stored under it |
| ObjectMaps.Put | pages/FormPage.tsx:117-125 | writing a key stores the value under it, leaves every other key alone, keeps an existing key's place and appends a new key last |
| ObjectMaps.Delete | pages/FormPage.tsx:134-140 | `delete` removes the key, keeps every other key's value and shrinks the object by one when the key was there |
| ObjectMaps.DeleteKeepsKeyOrder | pages/FormPage.tsx:134-140 | after `delete`, `Object.keys` is the old key list with that key filtered out, in the old order |
| ObjectMaps.Spread | services/mockDb.ts:158 | `{...a, ...b}` keeps a's keys in a's order at the front |
| ObjectMaps.SpreadGet | services/mockDb.ts:158 | reading a spread object gives b's value where b has the key and a's value otherwise |
| ObjectMaps.FirstKey | services/mockDb.ts:283 | `Object.keys(o)[0]` exists exactly for a non-empty object and names a stored entry |
| ObjectMaps.SpreadKeepsFirstKey | services/mockDb.ts:158 | laying new files over a non-empty file map never changes its first key |
| Types.StatusSubstrings | services/mockDb.ts:174 | of the eight status strings, "revision" occurs only in the two revision stages, "completed" only in the two completed stages, and "pending" only in pending and the two revision stages |
| Types.RevisionPendingFor | services/mockDb.ts:265 | the status a held defense moves to mentions "revision" |
| Catalogs.ProposalCatalogFacts | constants.ts:4-13 | the proposal catalog has eight documents, all mandatory, with distinct ids |
| Catalogs.SkripsiCatalogFacts | constants.ts:15-30 | the thesis catalog has fourteen documents, all mandatory, with distinct ids |
| Catalogs.RevisionCatalogFacts | constants.ts:33-44 | each revision catalog has three documents, all mandatory, with distinct ids |
| Catalogs.SharedAdvisorDecree | constants.ts:4-17 | the advisor decree `sk_pembimbing` is asked for at both registrations |
| MockDb.RecomputedStatus | services/mockDb.ts:176-186 | rejected exactly when some verdict rejects; validated exactly when none rejects and every mandatory document is accepted; pending otherwise |
| MockDb.ValidateRecord | services/mockDb.ts:169-186 | the verdict is stored under the file id; a revision-stage status is kept; any other status is recomputed from the verdicts; nothing else in the record changes |
| MockDb.ValidateOutcome | services/mockDb.ts:172-186 | a verdict keeps a revision stage; it turns every other status, scheduled and completed included, into pending, rejected or validated; a rejection always rejects it |
| MockDb.ResetRecord | services/mockDb.ts:195-201 | the verdict is dropped; the status goes back to pending unless it mentions "revision" or "completed" |
| MockDb.ResetOutcome | services/mockDb.ts:198-201 | withdrawing a verdict sends pending, rejected, validated and scheduled records to pending and keeps the four post-exam statuses |
| MockDb.RevisedRecord | services/mockDb.ts:155-160 | the new files overlay the old ones (new wins, other old files stay); verdicts are cleared; nothing else changes |
| MockDb.CompletedFor | services/mockDb.ts:213-214 | the status a finalized revision reaches mentions "completed" |
| MockDb.FinalizedRecord | services/mockDb.ts:210-214 | each revision stage moves to its completed status; any other status is left as it is |
| MockDb.FinalizeIdempotent | services/mockDb.ts:210-214 | finalizing twice is finalizing once |
| MockDb.ExamThenFinalize | services/mockDb.ts:258-266 | after the defense the record waits in its own phase's revision stage, and finalizing completes that phase and leaves the revision stage |
| MockDb.ResetNote | services/mockDb.ts:287 | the reset note contains the reason |
| MockDb.ResetByAdminRecord | services/mockDb.ts:280-290 | the record becomes rejected; when its file map has a non-empty first key, a rejecting verdict carrying the reason is stored under that key; nothing else changes |
| MockDb.ResetByAdminRejects | services/mockDb.ts:282-289 | after a schedule reset with a named first file, the record carries a rejection naming the reason, and a verdict on any other file leaves it rejected |
| MockDb.Upsert | services/mockDb.ts:138-146 | the record replaces the first one of the same student and phase in place, or is appended when there is none; the list grows by one exactly when the key was new |
| MockDb.UpsertCount | services/mockDb.ts:140-145 | storing leaves the count of every other key unchanged and gives a new key exactly one record |
| MockDb.UpsertKeepsUnique | services/mockDb.ts:140-145 | a list with one record per student and phase keeps that property after storing |
| MockDb.UpdateKeepsUnique | services/mockDb.ts:156-159 | replacing a record by one of the same student and phase keeps one record per key |
| MockDb.SubmissionIndex | services/mockDb.ts:156 | `find` by id: the first record carrying the id, or none when no record does |
| MockDb.WithRoom | services/mockDb.ts:106-108 | adding a room keeps the list as a prefix, adds the name only when missing, and never lists a room twice |
| MockDb.WithoutRoom | services/mockDb.ts:110-112 | deleting a room removes every copy of it and keeps every other room, in the same order |
| MockDb.ClockOfParts | services/mockDb.ts:300-303 | minutes since midnight are never negative; an unreadable hour or minute gives NaN (none) |
| MockDb.ClockOfTwoDigits | services/mockDb.ts:300-303 | a time written as two-digit hours, a colon and two-digit minutes reads back as hours × 60 + minutes |
| MockDb.NumberOfDigits | services/mockDb.ts:301 | `Number` of a run of decimal digits is their decimal value |
| MockDb.SplitAtColon | services/mockDb.ts:301 | two digit runs joined by a colon split into those two runs |
| MockDb.ClockOfPieces | services/mockDb.ts:300-303 | a time whose two pieces read as h and m is h × 60 + m minutes |
| MockDb.ClockOfPair | services/mockDb.ts:302 | two readable pieces give hours × 60 + minutes |
| MockDb.NumberOfTwoDigits | services/mockDb.ts:301 | `Number` of a two-digit rendering is the number |
| MockDb.NewPeople | services/mockDb.ts:312-314 | the new committee is the trimmed names other than empty, "-" and the two "Dosen P" placeholders in any case, all of those names, in committee order |
| MockDb.ExistingPeople | services/mockDb.ts:330-332 | an existing committee is the trimmed names other than empty and "-", all of those names, in committee order (first advisor, second advisor, first examiner, second examiner) |
| MockDb.ConflictWith | services/mockDb.ts:317-338 | a schedule objects only when it blocks (another id, not completed, same date, overlapping windows); a room clash exactly when it blocks in the same room; otherwise a lecturer clash naming the first lecturer of the existing committee who sits on the new one, or nothing when none does |
| MockDb.SharedLecturer | services/mockDb.ts:334 | the lecturer found is the first of the existing committee who is among the new names; none exactly when no one is |
| MockDb.FirstListedLecturerNamed | services/mockDb.ts:334-336 | when the first listed lecturer of a blocking session in another room is on the new committee, the clash names that lecturer, whoever else is shared |
| MockDb.ClockMinutes | services/mockDb.ts:300-303 | minutes since midnight are never negative, and a time without a colon reads as NaN (none) |
| MockDb.OverlapsSymmetric | services/mockDb.ts:323 | two windows overlap symmetrically; an unreadable bound never overlaps |
| MockDb.BlocksSymmetric | services/mockDb.ts:317-324 | while the new session is not held, a session that blocks it is blocked by it in return |
| MockDb.FirstConflict | services/mockDb.ts:316-341 | the scan reports nothing exactly when no schedule of the list objects |
| MockDb.Objections | services/mockDb.ts:316-340 | one verdict per schedule, in list order |
| MockDb.FirstConflictAt | services/mockDb.ts:316-341 | the scan reports the objection of the first schedule that objects |
| MockDb.ScanHit | services/mockDb.ts:325-337 | a scan that passed the first schedules silently and stops at an objecting one reports the first conflict |
| MockDb.NoConflictAtAll | services/mockDb.ts:341 | when no schedule objects the scan reports nothing |
| MockDb.ScanPass | services/mockDb.ts:317-338 | a schedule the loop skips objects to nothing |
| MockDb.ScanStop | services/mockDb.ts:325-337 | a schedule the loop stops at objects with what the loop reports |
| MockDb.Message | services/mockDb.ts:327 | a room clash message names the room right after its prefix, and a lecturer clash message names the lecturer after its own prefix |
| MockDb.TouchingSessionsNoConflict | services/mockDb.ts:323 | sessions that only touch (one ends as the other starts) never clash |
| MockDb.PlaceholdersNeverClash | services/mockDb.ts:312-314 | a new committee of placeholders only can meet a room clash and never a lecturer clash |
| MockDb.CountStatus | services/mockDb.ts:350-352 | the number of submissions whose status is in the set, as `filter(...).length`, never more than the list |
| MockDb.CountStatusUnion | services/mockDb.ts:350-352 | counts over disjoint status sets add up |
| MockDb.StatsOf | services/mockDb.ts:344-355 | `getStats`: the total is the number of submissions; each passed count and the revision count is the length of the matching filter; the upcoming count is the number of upcoming schedules |
| MockDb.StatsBounded | services/mockDb.ts:344-355 | passed plus revision-pending counts never exceed the total, and upcoming exams never exceed the schedules |
| MockDb.WithoutSchedule | services/mockDb.ts:279 | the filtered list keeps exactly the schedules with another id, in the same order |
| MockDb.WithoutScheduleCounts | services/mockDb.ts:279 | every schedule with another id is kept as often as it was listed; those with the id are gone |
| MockDb.ScheduleIndex | services/mockDb.ts:259 | `find` by id: the first schedule carrying the id, or none when none does |
| MockDb.MockDatabase.constructor | services/mockDb.ts:7-17 | a fresh store has no submissions or schedules, the four default rooms, the shipped catalogs and year 2024/2025, and satisfies the store invariant |
| MockDb.MockDatabase.GetProcessSnapshot | services/mockDb.ts:43-48 | the snapshot holds both process lists as they are; from a valid store it holds one registration per student and phase |
| MockDb.MockDatabase.RestoreProcessSnapshot | services/mockDb.ts:50-53 | both process lists are replaced by the snapshot's, rooms and catalogs untouched; a valid store restoring a snapshot with one registration per key stays valid |
| MockDb.MockDatabase.ResetProcessData | services/mockDb.ts:63-67 | both process lists are emptied, rooms and catalogs untouched, the invariant kept |
| MockDb.MockDatabase.UpdateRequirements | services/mockDb.ts:88-91 | the phase's registration catalog becomes the list; the other three catalogs and all lists stay |
| MockDb.MockDatabase.UpdateRevisionRequirements | services/mockDb.ts:97-100 | the phase's revision catalog becomes the list; the other three catalogs and all lists stay |
| MockDb.MockDatabase.AddRoom | services/mockDb.ts:106-108 | the rooms become `WithRoom` of the old rooms; nothing else changes; no room is listed twice |
| MockDb.MockDatabase.DeleteRoom | services/mockDb.ts:110-112 | the rooms become `WithoutRoom` of the old rooms; nothing else changes |
| MockDb.MockDatabase.SubmissionByNpm | services/mockDb.ts:132-135 | a record of that student and phase, or none exactly when there is none |
| MockDb.MockDatabase.AddSubmission | services/mockDb.ts:138-146 | the list becomes `Upsert` of the old list, keeping one record per student and phase |
| MockDb.MockDatabase.SubmitRevision | services/mockDb.ts:155-160 | the record with the id becomes its `RevisedRecord`; an unknown id changes nothing |
| MockDb.MockDatabase.ValidateFile | services/mockDb.ts:169-186 | the record with the id becomes its `ValidateRecord` against the current registration catalog of its phase; an unknown id changes nothing |
| MockDb.MockDatabase.ResetFileValidation | services/mockDb.ts:195-201 | the record with the id becomes its `ResetRecord`; an unknown id changes nothing |
| MockDb.MockDatabase.FinalizeRevision | services/mockDb.ts:210-214 | the record with the id becomes its `FinalizedRecord`; an unknown id changes nothing |
| MockDb.MockDatabase.AddSchedule | services/mockDb.ts:246-249 | the schedule is appended and its record, whatever its status, becomes scheduled |
| MockDb.MockDatabase.CompleteSchedule | services/mockDb.ts:258-266 | the schedule is marked completed and its record moves to its phase's revision stage; an unknown schedule changes nothing |
| MockDb.MockDatabase.DeleteSchedule | services/mockDb.ts:275-290 | every schedule with the id goes, and its record becomes `ResetByAdminRecord`; an unknown schedule changes nothing |
| MockDb.MockDatabase.CheckConflict | services/mockDb.ts:305-342 | the scan returns the message of the first objecting schedule, or none when no schedule objects |
| RequirementEdits.WithField | pages/AdminSettings.tsx:76-81 | `{...req, [field]: value}` sets the named field and keeps the others |
| RequirementEdits.WithFieldTwice | pages/AdminSettings.tsx:76-81 | writing the same field twice keeps only the second value |
| RequirementEdits.ChangeAt | pages/AdminSettings.tsx:77-79 | only the entry at the index changes |
| RequirementEdits.NewRequirement | pages/AdminSettings.tsx:84-90 | the fresh entry's id is the prefix followed by the clock; it is mandatory, with an empty description, and accepts PDF |
| RequirementEdits.RemoveAt | pages/AdminSettings.tsx:97 | the entry at the index goes and the rest keep their order; an index past the end removes nothing |
| RequirementEdits.RemoveAtMultiset | pages/AdminSettings.tsx:97 | deleting an entry loses exactly that entry |
| RequirementEdits.AddThenDeleteLast | pages/AdminSettings.tsx:83-101 | adding an entry and deleting the last position gives the list back |
| RequirementEdits.RequirementEditor.constructor | pages/AdminSettings.tsx:18-19 | the editor holds the loaded list, unchanged, with its id prefix and caption |
| RequirementEdits.RequirementEditor.Load | pages/LibraryAdmin.tsx:45-51 | the loaded list is shown, unchanged |
| RequirementEdits.RequirementEditor.HandleReqChange | pages/AdminSettings.tsx:76-81 | the list becomes `ChangeAt` of the old list and is marked changed |
| RequirementEdits.RequirementEditor.HandleAddReq | pages/AdminSettings.tsx:83-93 | the fresh entry is appended and the list is marked changed |
| RequirementEdits.RequirementEditor.HandleDeleteReq | pages/AdminSettings.tsx:95-101 | confirmed: the list becomes `RemoveAt` and is marked changed; cancelled: nothing changes |
| RequirementEdits.RequirementEditor.MarkSaved | pages/AdminSettings.tsx:103-107 | saving keeps the list and clears the changed mark |
| FormPage.EligibilityOf | pages/FormPage.tsx:80-101 | refused on the thesis form without a completed proposal; refused while a registration of the phase that is not rejected exists; a rejected registration is resumed with its files and verdicts |
| FormPage.EligibleExactly | pages/FormPage.tsx:80-101 | a student may start or resume exactly when the proposal (thesis form only) is completed and any earlier registration of the phase was rejected |
| FormPage.ThesisNeedsCompletedProposal | pages/FormPage.tsx:80-87 | every student accepted on the thesis form has a completed proposal |
| FormPage.UploadKeepsComplete | pages/FormPage.tsx:117-125 | an upload never makes a complete form incomplete |
| FormPage.RemoveBreaksComplete | pages/FormPage.tsx:134-140 | removing a mandatory file makes the form incomplete |
| FormPage.IsComplete | pages/FormPage.tsx:146 | a form without mandatory documents is complete whatever is uploaded |
| FormPage.Progress | pages/FormPage.tsx:142-144 | `Math.round(uploaded / required * 100)`: undefined exactly when no requirement is mandatory, otherwise the whole number nearest to 100 × uploaded / required, halves rounded up |
| FormPage.ProgressBounded | pages/FormPage.tsx:142-144 | uploading at most the mandatory count stays at or below 100 percent, and exactly that count is 100 percent |
| FormPage.ProgressCountsOptionalUploads | pages/FormPage.tsx:142-144 | optional uploads count too: uploads exceeding the mandatory count by half a percent or more report above 100 percent, and one mandatory with one optional upload reports 200 |
| FormPage.NewRegistration | pages/FormPage.tsx:155-165 | the new record is pending, has no verdicts and belongs to the form's phase, student and files |
| FormPage.UniqueCountAtMostOne | services/mockDb.ts:140-145 | a list with one record per student and phase holds at most one record for any key |
| FormPage.SubmittedOnce | pages/FormPage.tsx:167 | after submitting, the store holds the new record and exactly one record for that student and phase |
| FormPage.RegistrationForm.constructor | pages/FormPage.tsx:26-38 | the form opens with no search, no student, no files or verdicts and not submitted |
| FormPage.RegistrationForm.HandleSearchChange | pages/FormPage.tsx:50-72 | typing drops a selected student with the files and verdicts, searches only from three characters, and keeps the suggestions when the search fails |
| FormPage.RegistrationForm.HandleSelectStudent | pages/FormPage.tsx:74-102 | the student stays selected exactly when eligible; each refusal shows its message; a resumed registration preloads its files and verdicts |
| FormPage.RegistrationForm.ClearSelection | pages/FormPage.tsx:104-111 | the selection, files, verdicts, suggestions and message are cleared |
| FormPage.RegistrationForm.HandleUpload | pages/FormPage.tsx:113-132 | a successful upload stores the file under the requirement id; a failed one changes nothing |
| FormPage.RegistrationForm.HandleRemove | pages/FormPage.tsx:134-140 | the file under the id is gone and every other file stays |
| FormPage.RegistrationForm.HandleSubmit | pages/FormPage.tsx:149-172 | nothing happens unless the form is complete and a student is selected; otherwise the new pending record is stored under its key and the store invariant is kept |
| RevisionPage.RevisionRefusal | pages/RevisionPage.tsx:76-90 | "not registered" exactly without a record of the phase; admitted exactly when the record is in the phase's own revision stage |
| RevisionPage.OnlyOwnRevisionStage | pages/RevisionPage.tsx:84-90 | an admitted student is in the revision stage of the page's phase, not past it |
| RevisionPage.RequirementIds | pages/RevisionPage.tsx:92 | the ids of the revision requirements, in order |
| RevisionPage.PreloadStep | pages/RevisionPage.tsx:94-96 | each loop step adds the record's file for one more key, when it has one |
| RevisionPage.RelevantFiles | pages/RevisionPage.tsx:92-97 | the preloaded map holds the record's file for each revision requirement that has one, and nothing else |
| RevisionPage.CompleteCoversRequired | pages/RevisionPage.tsx:138 | a complete revision upload covers every mandatory requirement |
| RevisionPage.OptionalStillNeeded | pages/RevisionPage.tsx:138 | an optional revision requirement without a file keeps the revision page incomplete, although the registration rule would accept it |
| RevisionPage.IsComplete | pages/RevisionPage.tsx:138 | every revision requirement, optional ones included, has a file; `CompleteCoversRequired` and `OptionalStillNeeded` state what this adds |
| RevisionPage.RevisionForm.HandleSearchChange | pages/RevisionPage.tsx:46-68 | as on the registration form |
| RevisionPage.RevisionForm.HandleSelectStudent | pages/RevisionPage.tsx:70-99 | the message is `RevisionRefusal` of the record; the student stays selected exactly when admitted; then the relevant files and the record's verdicts are preloaded |
| RevisionPage.RevisionForm.ClearSelection | pages/RevisionPage.tsx:101-108 | the selection, files, verdicts, suggestions and message are cleared |
| RevisionPage.RevisionForm.HandleUpload | pages/RevisionPage.tsx:110-128 | a successful upload stores the file under the requirement id; a failed one changes nothing |
| RevisionPage.RevisionForm.HandleRemove | pages/RevisionPage.tsx:130-136 | the file under the id is removed |
| RevisionPage.RevisionForm.HandleSubmit | pages/RevisionPage.tsx:141-155 | nothing unless every revision requirement has a file and a student is selected; then the student's record of the phase, when present, receives the files |
| RevisionPage.SubmitKeepsRevisionStage | services/mockDb.ts:155-160 | a submitted revision keeps the record in its revision stage, clears the verdicts and stores every new file |
| RevisionPage.RevisionForm.constructor | pages/RevisionPage.tsx:23-34 | the form opens with no search, no student, no files or verdicts and not submitted |
| AdminValidation.NewestFirstTotal | pages/AdminValidation.tsx:20 | the newest-first comparator orders every pair transitively |
| AdminValidation.ValidationQueue | pages/AdminValidation.tsx:12-22 | the queue lists exactly the pending, rejected and validated records, newest first |
| AdminValidation.QueueCounts | pages/AdminValidation.tsx:16-20 | each queued record appears as often as in the store, and nothing else appears |
| AdminValidation.ScheduleLeavesAndResetReturns | pages/AdminValidation.tsx:16-19 | a record leaves the queue once scheduled and returns after a schedule reset |
| AdminValidation.ButtonVerdict | pages/AdminValidation.tsx:34 | accept sends no note; reject sends the stock note |
| AdminValidation.RejectButtonRejects | pages/AdminValidation.tsx:32-36 | the reject button rejects every queued registration |
| AdminValidation.ValidationDesk.constructor | pages/AdminValidation.tsx:8 | the desk opens with an empty queue |
| AdminValidation.ValidationDesk.RefreshData | pages/AdminValidation.tsx:12-22 | the desk shows the validation queue of the store |
| AdminValidation.ValidationDesk.HandleValidationChange | pages/AdminValidation.tsx:32-36 | the store records the button verdict and the queue is reloaded |
| AdminValidation.ValidationDesk.HandleNotesChange | pages/AdminValidation.tsx:38-41 | the store records a rejection carrying the note and the queue is reloaded |
| AdminValidation.ValidationDesk.HandleReset | pages/AdminValidation.tsx:43-46 | the store withdraws the verdict and the queue is reloaded |
| AdminScheduling.DefaultEndTime | pages/AdminScheduling.tsx:70-79 | a default end is produced exactly when the start time has a colon |
| AdminScheduling.DefaultEndOfParts | pages/AdminScheduling.tsx:73-77 | an end text is produced exactly when there are two pieces |
| AdminScheduling.DefaultEndOfPieces | pages/AdminScheduling.tsx:73-77 | the end text of two pieces is the shifted hour, a colon and the minutes as read |
| AdminScheduling.EndHourOfNumber | pages/AdminScheduling.tsx:74-75 | the end hour is the start hour plus two, modulo 24, padded |
| AdminScheduling.DefaultEndOfNumbers | pages/AdminScheduling.tsx:73-77 | readable pieces give the end hour plus two, modulo 24, with the same minutes |
| AdminScheduling.TwoDigitSplit | pages/AdminScheduling.tsx:73 | an "HH:MM" time splits into its two pieces |
| AdminScheduling.DefaultEndTimeOfClock | pages/AdminScheduling.tsx:70-79 | a start written "HH:MM" ends two hours later on the clock with the same minutes |
| AdminScheduling.BuildSchedule | pages/AdminScheduling.tsx:101-117 | the schedule takes the form's date, time, end and room, the directory's committee and title, and is upcoming |
| AdminScheduling.NoConflictMeansNoObjection | pages/AdminScheduling.tsx:119-126 | an accepted booking clashes with no schedule in the list |
| AdminScheduling.AdminSchedulingPage.constructor | pages/AdminScheduling.tsx:9-27 | the page opens with empty lists, nothing selected, an empty form and no conflict message |
| AdminScheduling.AdminSchedulingPage.LoadStudentDetails | pages/AdminScheduling.tsx:43-68 | the directory entry for the selection is stored; the selections stay |
| AdminScheduling.AdminSchedulingPage.RefreshData | pages/AdminScheduling.tsx:29-37 | the queue is the validated records; schedules and rooms are the store's |
| AdminScheduling.AdminSchedulingPage.SelectSubmission | pages/AdminScheduling.tsx:194 | picking a registration selects it and clears the conflict message |
| AdminScheduling.AdminSchedulingPage.SelectSchedule | pages/AdminScheduling.tsx:205 | picking a held schedule selects it |
| AdminScheduling.AdminSchedulingPage.HandleStartTimeChange | pages/AdminScheduling.tsx:70-79 | the start is stored; a non-empty start with a colon fills in the default end; otherwise the end stays |
| AdminScheduling.AdminSchedulingPage.HandleRoomChange | pages/AdminScheduling.tsx:278 | the room is stored and the date and times stay |
| AdminScheduling.AdminSchedulingPage.HandleDateChange | pages/AdminScheduling.tsx:240 | the date is stored and the room and times stay |
| AdminScheduling.AdminSchedulingPage.HandleEndTimeChange | pages/AdminScheduling.tsx:249 | the end time is stored and the date, room and start stay |
| AdminScheduling.AdminSchedulingPage.HandleNewRoomNameChange | pages/AdminScheduling.tsx:265 | the typed room name is stored and the chosen room stays |
| AdminScheduling.AdminSchedulingPage.HandleAddRoom | pages/AdminScheduling.tsx:81-87 | a blank trimmed name adds nothing; otherwise the trimmed name is added and the box cleared |
| AdminScheduling.AdminSchedulingPage.HandleDeleteRoom | pages/AdminScheduling.tsx:89-95 | a confirmed delete removes the room, clears it from the form when held there, and leaves it in no list |
| AdminScheduling.AdminSchedulingPage.HandleSchedule | pages/AdminScheduling.tsx:97-137 | an incomplete form does nothing; a conflict shows its message, stores nothing and keeps the form; otherwise the schedule is stored, the registration becomes scheduled and the form is cleared |
| AdminScheduling.AdminSchedulingPage.ShowConflict | pages/AdminScheduling.tsx:119-124 | a refused booking only shows its message; the selections and the form are kept |
| AdminScheduling.AdminSchedulingPage.Book | pages/AdminScheduling.tsx:126-136 | the schedule is stored, the registration scheduled, the lists reloaded and the form cleared |
| AdminScheduling.AdminSchedulingPage.HandleResetSchedule | pages/AdminScheduling.tsx:139-152 | nothing without a selection or a reason; otherwise the store deletes the schedule with the reason and the selection is cleared |
| AdminScheduling.AdminSchedulingPage.HandlePassExam | pages/AdminScheduling.tsx:154-165 | nothing without a selection; otherwise the store completes the schedule and the selection is cleared |
| AdminScheduling.SharedLecturerClash | services/mockDb.ts:330-337 | an examiner of a blocking session in another room who advises the new one is a lecturer clash |
| AdminScheduling.AdvisorIsNewPerson | services/mockDb.ts:312-314 | a real second advisor is on the new committee |
| AdminScheduling.ExaminerIsExistingPerson | services/mockDb.ts:330-332 | a real first examiner is on the existing committee |
| LibraryAdmin.RevisionOrderTotal | pages/LibraryAdmin.tsx:29-35 | the comparator orders every pair transitively |
| LibraryAdmin.RevisionList | pages/LibraryAdmin.tsx:19-39 | the list holds exactly the revision-stage and completed records, awaiting ones first, newest first within each group |
| LibraryAdmin.SortedRevisionOrder | pages/LibraryAdmin.tsx:29-35 | a list sorted by the comparator puts awaiting entries first and is newest first within each group |
| LibraryAdmin.RevisionListCounts | pages/LibraryAdmin.tsx:22-27 | each listed record appears as often as in the store, and nothing else appears |
| LibraryAdmin.RevisionStagesFirst | pages/LibraryAdmin.tsx:30-33 | a revision-stage entry is never listed after a completed one |
| LibraryAdmin.NotesForVerdict | pages/LibraryAdmin.tsx:64-68 | accepting sends no note; rejecting resends the file's current note, or none |
| LibraryAdmin.VerdictNotes | pages/LibraryAdmin.tsx:63-68 | a rejection keeps the reason already written; an acceptance clears it |
| LibraryAdmin.LibraryAdminPage.constructor | pages/LibraryAdmin.tsx:10-17 | the desk opens with an empty list, nothing selected, the box unticked and the proposal phase; its editor creates entries `rev_req_…` captioned "Syarat Revisi Baru" |
| LibraryAdmin.LibraryAdminPage.FinalizeGate | pages/LibraryAdmin.tsx:261-266 | the finalize button works exactly with a selected, uncompleted revision, the hard copy ticked, no rejected file and every mandatory revision file accepted |
| LibraryAdmin.LibraryAdminPage.AreAllFilesValidated | pages/LibraryAdmin.tsx:143-147 | defines: every mandatory revision requirement of the selection has an accepting verdict; `FinalizeGate` spells it out |
| LibraryAdmin.LibraryAdminPage.HasRejections | pages/LibraryAdmin.tsx:149-152 | defines: some verdict on the selection refuses its file; `FinalizeGate` spells it out |
| LibraryAdmin.LibraryAdminPage.RefreshData | pages/LibraryAdmin.tsx:19-39 | the desk shows the revision list of the store |
| LibraryAdmin.LibraryAdminPage.HandleSelect | pages/LibraryAdmin.tsx:53-57 | the hard-copy box starts ticked exactly for a completed record |
| LibraryAdmin.LibraryAdminPage.HandleHardcopyChange | pages/LibraryAdmin.tsx:252 | the box takes the value ticked |
| LibraryAdmin.LibraryAdminPage.ReselectFromStore | pages/LibraryAdmin.tsx:71-73 | the selection follows the store's record with that id, if any |
| LibraryAdmin.LibraryAdminPage.HandleValidateFile | pages/LibraryAdmin.tsx:63-75 | the store records the verdict with `NotesForVerdict`, the list is reloaded and the selection becomes the store's updated record |
| LibraryAdmin.LibraryAdminPage.HandleNotesChange | pages/LibraryAdmin.tsx:77-85 | the store records a rejection carrying the note and the selection becomes the updated record; the list is not reloaded |
| LibraryAdmin.LibraryAdminPage.HandleFinalize | pages/LibraryAdmin.tsx:87-100 | nothing without a selection or the hard copy; otherwise the store finalizes the record, the list is reloaded and the selection becomes the finalized record |
| LibraryAdmin.LibraryAdminPage.HandleRequestRepair | pages/LibraryAdmin.tsx:102-108 | nothing without a selection; otherwise the store is untouched and the selection and box are cleared |
| LibraryAdmin.LibraryAdminPage.SelectReqType | pages/LibraryAdmin.tsx:45-51 | the editor loads the phase's revision catalog |
| LibraryAdmin.LibraryAdminPage.SaveRequirements | pages/LibraryAdmin.tsx:137-141 | the phase's revision catalog becomes the edited list |
| LibraryAdmin.FinalizeCompletes | services/mockDb.ts:210-214 | a finalized revision reaches its phase's completed status and stays on the library list |
| AdminSettings.NextSort | pages/AdminSettings.tsx:110-116 | descending exactly when already ascending on that column |
| AdminSettings.SortHeaderAlternates | pages/AdminSettings.tsx:110-116 | clicking the same header again always reverses the direction |
| AdminSettings.AtMostTotal | pages/AdminSettings.tsx:126-130 | string `<=` orders every pair |
| AdminSettings.AtMostTransitive | pages/AdminSettings.tsx:126-130 | string `<=` is transitive |
| AdminSettings.SortOrderTotal | pages/AdminSettings.tsx:125-131 | the column comparator in either direction orders every pair transitively |
| AdminSettings.SortOrder | pages/AdminSettings.tsx:125-131 | defines the column comparator; `SortOrderTotal` proves it a total preorder in either direction |
| AdminSettings.MatchesSearch | pages/AdminSettings.tsx:119-123 | defines the search test (name ignoring case, or student number); `EmptySearchShowsAll` states the empty search |
| AdminSettings.ProcessedStudents | pages/AdminSettings.tsx:118-134 | the table shows exactly the matching students, each as often as in the directory, in directory order without a sort and ordered by the column with one |
| AdminSettings.SortedByColumn | pages/AdminSettings.tsx:125-131 | ascending rows have non-decreasing column texts; descending rows have non-increasing ones |
| AdminSettings.EmptySearchShowsAll | pages/AdminSettings.tsx:119-122 | an empty search shows every student in directory order |
| AdminSettings.NpmSet | pages/AdminSettings.tsx:142-143 | the set holds exactly the rows' student numbers |
| AdminSettings.NpmSetSize | pages/AdminSettings.tsx:142-143 | distinct rows give one number per row |
| AdminSettings.ToggleSelectAll | pages/AdminSettings.tsx:138-145 | clears when the selection is as large as the non-empty table; otherwise selects every row shown |
| AdminSettings.SelectAllThenClear | pages/AdminSettings.tsx:138-145 | on distinct rows the header box selects all and then clears |
| AdminSettings.ToggleSelectRow | pages/AdminSettings.tsx:147-152 | the number flips membership and no other number changes |
| AdminSettings.ToggleRowTwice | pages/AdminSettings.tsx:147-152 | toggling a row twice restores the selection |
| AdminSettings.SelectedStudents | pages/AdminSettings.tsx:164 | exactly the students whose number is selected |
| AdminSettings.SettingsPage.constructor | pages/AdminSettings.tsx:17-47 | the page opens on the proposal phase with an empty directory and search, nothing selected, no sort and empty undo slots; its editor creates entries `new_req_…` captioned "Syarat Baru" |
| AdminSettings.SettingsPage.SelectReqType | pages/AdminSettings.tsx:49-54 | the editor loads the phase's registration catalog |
| AdminSettings.SettingsPage.SaveRequirements | pages/AdminSettings.tsx:103-107 | the phase's registration catalog becomes the edited list |
| AdminSettings.SettingsPage.LoadStudents | pages/AdminSettings.tsx:69-73 | the directory is replaced and the selection kept |
| AdminSettings.SettingsPage.HandleSearchChange | pages/AdminSettings.tsx:487 | the search text is stored |
| AdminSettings.SettingsPage.HandleSort | pages/AdminSettings.tsx:110-116 | the sort becomes `NextSort` of the old one |
| AdminSettings.SettingsPage.HandleToggleSelectAll | pages/AdminSettings.tsx:138-145 | the selection becomes `ToggleSelectAll` over the rows shown |
| AdminSettings.SettingsPage.HandleToggleSelectRow | pages/AdminSettings.tsx:147-152 | the selection becomes `ToggleSelectRow` |
| AdminSettings.SettingsPage.ExecuteBulkDelete | pages/AdminSettings.tsx:160-175 | the selected students are kept for undo, the selection is cleared and the directory reloaded |
| AdminSettings.SettingsPage.ExecuteUndoDelete | pages/AdminSettings.tsx:182-190 | nothing without a held list; otherwise the list is handed back, the slot emptied and the directory reloaded |
| AdminSettings.SettingsPage.ExecuteReset | pages/AdminSettings.tsx:235-250 | both process lists are kept for undo and then emptied; from a valid store the held snapshot has one registration per key |
| AdminSettings.SettingsPage.ExecuteUndoReset | pages/AdminSettings.tsx:257-268 | nothing without a snapshot; otherwise both lists come back and the slot is emptied; a valid store restoring a sound snapshot stays valid |
| ScheduleStatus.RevisionBadges | pages/ScheduleStatus.tsx:34-46 | a revision stage shows "refused" exactly when a file is refused and "awaiting library" otherwise; a rejection opens its details |
| ScheduleStatus.BadgeOf | pages/ScheduleStatus.tsx:28-68 | the revision badges are shown exactly for the revision stages, and "refused" only with a refused file |
| ScheduleStatus.DetailsExactlyWhenActionable | pages/ScheduleStatus.tsx:28-68 | the badges that open details are exactly the records the notification counts |
| ScheduleStatus.RevisionCatalogStatuses | pages/ScheduleStatus.tsx:71-74 | the revision catalog is read for exactly the two revision stages and the two completed stages |
| ScheduleStatus.RejectedFiles | pages/ScheduleStatus.tsx:70-77 | exactly the catalog entries with a refusing verdict, in catalog order |
| ScheduleStatus.RefusalNote | pages/ScheduleStatus.tsx:196 | the note is never empty and is the stored one when there is one |
| ScheduleStatus.LibraryRefusalListed | pages/ScheduleStatus.tsx:70-77 | a file the library refuses during a revision stage is listed against the revision catalog |
| ScheduleStatus.AdminResetListed | pages/ScheduleStatus.tsx:70-77 | after a schedule reset the first registration file is listed with a note naming the reason |
| ScheduleStatus.ScheduleSearch | pages/ScheduleStatus.tsx:137-140 | exactly the schedules whose student name contains the term, ignoring case |
| ScheduleStatus.SubmissionSearch | pages/ScheduleStatus.tsx:170 | exactly the records whose student name contains the term, ignoring case |
| ScheduleStatus.SearchIgnoresCase | pages/ScheduleStatus.tsx:137-170 | lower-casing the term changes neither search |
| App.ActionableExactly | App.tsx:35-41 | actionable exactly when rejected, or in a revision stage with a refused file |
| App.Actionable | App.tsx:35-41 | an actionable submission is rejected or has a refused file |
| App.NotificationCount | App.tsx:43 | the count is the upcoming sessions plus the number of actionable submissions, so between the sessions and sessions plus submissions |
| App.CountAboveSessions | App.tsx:35-43 | the count exceeds the sessions exactly when some record is actionable |
| App.NotificationStep | App.tsx:44-63 | the stored count becomes the current one; the dot shows exactly with something to see and a stamp at most a day old; the stamp moves to now when the count drops to zero or rises |
| App.FirstCheck | App.tsx:45-55 | with nothing stored the dot shows exactly when there is something to see |
| App.DotExpires | App.tsx:56-62 | an unchanged or falling count older than a day hides the dot |
| App.QuietStaysQuiet | App.tsx:56-62 | once out, the dot stays out until the count rises or drops to zero |
| App.RiseShows | App.tsx:53-55 | a rising count always shows the dot |
| App.LandingPage | App.tsx:140-150 | a staff page exactly for a staff role |
| App.LandingDistinguishesRoles | App.tsx:140-150 | distinct roles land on distinct pages |
| App.AppShell.constructor | App.tsx:19-21 | the shell opens on the dashboard with no role and no dot |
| App.AppShell.CheckNotifications | App.tsx:31-66 | the dot and the stored state become `NotificationStep` of the stored state and the current count |
| App.AppShell.HandleRoleChange | App.tsx:140-150 | the role is stored and the page becomes the role's landing page |

## Left out

- Persistence is not modelled: `localStorage`, the optional Supabase mirror and the remote reads in `getSubmissions`/`getSchedules`. The store's in-memory lists are the whole state.
- Promises, `setTimeout` delays and the one-minute polling interval are not modelled. Every asynchronous call is one atomic step.
- `getUpcomingSchedules` and `getOverdueRevisions` are not modelled; both are date arithmetic on `Date`. The list of upcoming sessions is a parameter of `App.AppShell.CheckNotifications`.
- `Date.now()` ids and timestamps, and `new Date()` submission times, become parameters: `now`, `submittedAt`.
- The student service is not modelled. That covers `searchStudentsByName`, `getStudentByNPM`, `getAllStudents`, `deleteStudents`, `restoreStudents`, `updateStudent` and Excel import. Its answers are parameters: search results, directory entries, and the reloaded directory after a delete or restore.
- File upload to Google Drive, object URLs, the Gemini chat, login, the dashboard, the reports page, the Drive integration settings and all rendering are not modelled. An upload is its outcome, an optional file reference.
- `confirm`, `prompt` and `alert` dialogs become boolean or optional parameters, or are dropped.
- `HandleSelectStudent` on both forms reads the store once, when the student is selected. There are no concurrent updates in the model.
- `Strings.Less`: strings are sequences of Unicode characters, while JavaScript compares UTF-16 code units and counts `length` in them. Names outside the Basic Multilingual Plane can sort differently and count as two characters at the three-character search threshold.
- `Strings.ToLower`: lowers only the ASCII letters A–Z, not the full Unicode case mapping of `toLowerCase`.
- `Strings.Trim`: white space is the ASCII set plus the common Unicode spaces, not every Unicode space separator.
- `MockDb.ClockOfParts`: `Number` is modelled for strings of decimal digits with surrounding white space. Every other string (signs, decimals, exponents, hexadecimal) reads as NaN, written none.
- `AdminScheduling.DefaultEndTime`: a start time without a colon makes the source read `m.toString()` of `undefined`, which throws. The model fills in nothing instead.
- `FormPage.Progress`: the percentage is computed on exact rationals with round-half-up. Floating-point rounding is not modelled, and the figure is not rendered.
- `Seqs.SortBy`: specified as some sorted rearrangement. The stability of `Array.prototype.sort` is not stated.
- `RequirementEdits.RequirementEditor.HandleReqChange`: requires an index inside the list. The source's out-of-range write, which creates a sparse array, is not modelled.
- `ObjectMaps.Keys`: JavaScript lists integer-like keys before other keys. The model keeps pure insertion order, which agrees for the file ids the portal uses.
- `AdminValidation.ValidationQueue`: the order compares the `submittedAt` timestamps as integers. Invalid dates (NaN) are not modelled.
- Long message texts are modelled as enumerations with a text function: the registration and revision errors, and the status badges.
- The AdminScheduling effect that looks up the student behind a selected schedule is not modelled. `LoadStudentDetails` takes its result.
