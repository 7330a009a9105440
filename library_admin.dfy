/** The library desk: the list of revisions awaiting or past the library
    check, the verdicts on revision files, the hard-copy check that gates
    finalizing, and the editor for the revision catalogs. */
module LibraryAdmin {
  import opened Strings
  import opened Seqs
  import opened Types
  import opened MockDb
  import opened RequirementEdits

  // ===========================================================================
  // The revision list

  /** The statuses the library desk lists: both revision stages and both
      completed stages. */
  predicate InRevisionList(s: Submission)
  {
    s.status == RevisionProposalPending || s.status == RevisionSkripsiPending
    || s.status == ProposalCompleted || s.status == SkripsiCompleted
  }

  /** The list order as the comparator gives it: entries whose status mentions
      "pending" before the others, and within each group the newest first. */
  predicate RevisionOrder(a: Submission, b: Submission)
  {
    var pa := MentionsPending(a.status);
    var pb := MentionsPending(b.status);
    (pa && !pb) || (pa == pb && a.submittedAt >= b.submittedAt)
  }

  lemma RevisionOrderTotal()
    ensures TotalPreorder(RevisionOrder)
  {
  }

  /** The revision list: the listed statuses only, awaiting entries first,
      newest first within each group. */
  function RevisionList(all: seq<Submission>): (r: seq<Submission>)
    ensures forall i :: 0 <= i < |r| ==> InRevisionList(r[i]) && r[i] in all
    ensures forall i :: 0 <= i < |all| && InRevisionList(all[i]) ==> all[i] in r
    ensures forall i, j :: 0 <= i < j < |r| && MentionsPending(r[j].status) ==> MentionsPending(r[i].status)
    ensures forall i, j :: 0 <= i < j < |r| && MentionsPending(r[i].status) == MentionsPending(r[j].status) ==>
              r[i].submittedAt >= r[j].submittedAt
  {
    RevisionOrderTotal();
    var relevant := Filter(all, InRevisionList);
    var sorted := SortBy(relevant, RevisionOrder);
    SameMembers(relevant, sorted);
    SortedRevisionOrder(sorted);
    sorted
  }

  /** What a list sorted by the comparator looks like. */
  lemma SortedRevisionOrder(r: seq<Submission>)
    requires SortedBy(r, RevisionOrder)
    ensures forall i, j :: 0 <= i < j < |r| && MentionsPending(r[j].status) ==> MentionsPending(r[i].status)
    ensures forall i, j :: 0 <= i < j < |r| && MentionsPending(r[i].status) == MentionsPending(r[j].status) ==>
              r[i].submittedAt >= r[j].submittedAt
  {
  }

  /** Each listed submission appears as often as in the store, and nothing
      else appears. */
  lemma RevisionListCounts(all: seq<Submission>, x: Submission)
    ensures multiset(RevisionList(all))[x] == if InRevisionList(x) then multiset(all)[x] else 0
  {
    RevisionOrderTotal();
    FilterMultiplicity(all, InRevisionList, x);
  }

  /** Revision stages come first: an entry in a revision stage is never
      listed after a completed one. */
  lemma RevisionStagesFirst(all: seq<Submission>, i: nat, j: nat)
    requires i < j < |RevisionList(all)|
    requires RevisionList(all)[j].status == RevisionProposalPending || RevisionList(all)[j].status == RevisionSkripsiPending
    ensures RevisionList(all)[i].status == RevisionProposalPending || RevisionList(all)[i].status == RevisionSkripsiPending
  {
    var r := RevisionList(all);
    StatusSubstrings(r[i].status);
    StatusSubstrings(r[j].status);
  }

  // ===========================================================================
  // Verdicts on revision files

  /** The notes sent along with a verdict: none when accepting, the file's
      current notes (or none) when rejecting. */
  function NotesForVerdict(subs: seq<Submission>, subId: string, fileId: string, isValid: bool): (r: string)
    ensures isValid ==> r == ""
    ensures !isValid ==> match SubmissionIndex(subs, subId)
      case Some(i) => r == (if fileId in subs[i].validations then subs[i].validations[fileId].notes else "")
      case None => r == ""
  {
    if isValid then ""
    else match SubmissionIndex(subs, subId)
      case Some(i) => if fileId in subs[i].validations then subs[i].validations[fileId].notes else ""
      case None => ""
  }

  /** A rejection keeps the reason already written; an acceptance clears it. */
  lemma VerdictNotes(sub: Submission, fileId: string, isValid: bool, catalog: seq<FileRequirement>)
    requires fileId in sub.validations
    ensures var notes := NotesForVerdict([sub], sub.id, fileId, isValid);
      ValidateRecord(sub, catalog, fileId, isValid, notes).validations[fileId]
        == ValidationItem(isValid, if isValid then "" else sub.validations[fileId].notes)
  {
    assert SubmissionIndex([sub], sub.id) == Some(0);
  }

  // ===========================================================================
  // The page

  class LibraryAdminPage {
    const db: MockDatabase
    const editor: RequirementEditor
    var pendingRevisions: seq<Submission>
    var selected: Option<Submission>
    var hardcopyChecked: bool
    var reqType: Phase

    constructor(db: MockDatabase, editor: RequirementEditor)
      requires editor.idPrefix == "rev_req_" && editor.newCaption == "Syarat Revisi Baru"
      ensures this.db == db && this.editor == editor
      ensures pendingRevisions == [] && selected.None? && !hardcopyChecked && reqType == Proposal
    {
      this.db := db;
      this.editor := editor;
      pendingRevisions := [];
      selected := None;
      hardcopyChecked := false;
      reqType := Proposal;
    }

    /** Every mandatory revision requirement of the selected submission's
        phase has an accepting verdict. */
    predicate AreAllFilesValidated()
      reads this, db
    {
      selected.Some? && AllRequiredValid(db.RevisionCatalog(selected.value.phase), selected.value.validations)
    }

    /** Some verdict on the selected submission rejects its file. */
    predicate HasRejections()
      reads this
    {
      selected.Some? && AnyRejected(selected.value.validations)
    }

    /** The finalize button is shown: a selected, not yet completed revision
        with no rejected file. */
    predicate FinalizeOffered()
      reads this
    {
      selected.Some? && !MentionsCompleted(selected.value.status) && !HasRejections()
    }

    /** The finalize button can be pressed. */
    predicate FinalizeEnabled()
      reads this, db
    {
      FinalizeOffered() && hardcopyChecked && AreAllFilesValidated()
    }

    /** What the finalize button needs, spelled out: a selected revision, the
        hard copy received, no rejection, and every mandatory revision file
        accepted. */
    lemma FinalizeGate()
      ensures FinalizeEnabled() <==>
        && selected.Some? && hardcopyChecked
        && !MentionsCompleted(selected.value.status)
        && (forall k :: k in selected.value.validations ==> selected.value.validations[k].isValid)
        && (forall i :: 0 <= i < |db.RevisionCatalog(selected.value.phase)| && db.RevisionCatalog(selected.value.phase)[i].required
              ==> db.RevisionCatalog(selected.value.phase)[i].id in selected.value.validations
                  && selected.value.validations[db.RevisionCatalog(selected.value.phase)[i].id].isValid)
    {
    }

    method RefreshData()
      modifies this
      ensures pendingRevisions == RevisionList(db.submissions)
      ensures selected == old(selected) && hardcopyChecked == old(hardcopyChecked) && reqType == old(reqType)
    {
      pendingRevisions := RevisionList(db.submissions);
    }

    /** Selecting a submission presets the hard-copy box to ticked exactly
        for a completed one. */
    method HandleSelect(sub: Submission)
      modifies this
      ensures selected == Some(sub)
      ensures hardcopyChecked <==> MentionsCompleted(sub.status)
      ensures pendingRevisions == old(pendingRevisions) && reqType == old(reqType)
    {
      selected := Some(sub);
      var isCompleted := sub.status == ProposalCompleted || sub.status == SkripsiCompleted;
      hardcopyChecked := isCompleted;
      StatusSubstrings(sub.status);
    }

    method HandleHardcopyChange(checked: bool)
      modifies this
      ensures hardcopyChecked == checked
      ensures selected == old(selected) && pendingRevisions == old(pendingRevisions) && reqType == old(reqType)
    {
      hardcopyChecked := checked;
    }

    /** The selection follows the store's record with that id, if any. */
    method ReselectFromStore(subId: string)
      modifies this
      ensures match SubmissionIndex(db.submissions, subId)
        case Some(i) => selected == Some(db.submissions[i])
        case None => selected == old(selected)
      ensures hardcopyChecked == old(hardcopyChecked) && pendingRevisions == old(pendingRevisions) && reqType == old(reqType)
    {
      var idx := SubmissionIndex(db.submissions, subId);
      if idx.Some? {
        selected := Some(db.submissions[idx.value]);
      }
    }

    /** Accepting or rejecting one revision file. */
    method HandleValidateFile(subId: string, fileId: string, isValid: bool)
      modifies this, db
      ensures var notes := NotesForVerdict(old(db.submissions), subId, fileId, isValid);
        match SubmissionIndex(old(db.submissions), subId)
        case None => db.submissions == old(db.submissions)
        case Some(i) => db.submissions == old(db.submissions)[i := ValidateRecord(old(db.submissions)[i],
                          db.RegistrationCatalog(old(db.submissions)[i].phase), fileId, isValid, notes)]
      ensures db.schedules == old(db.schedules) && db.CurrentSetup() == old(db.CurrentSetup())
      ensures pendingRevisions == RevisionList(db.submissions)
      ensures match SubmissionIndex(db.submissions, subId)
        case Some(i) => selected == Some(db.submissions[i])
        case None => selected == old(selected)
      ensures hardcopyChecked == old(hardcopyChecked)
    {
      var existingNotes := NotesForVerdict(db.submissions, subId, fileId, isValid);
      db.ValidateFile(subId, fileId, isValid, existingNotes);
      ReselectFromStore(subId);
      RefreshData();
    }

    /** Typing a rejection reason stores a rejecting verdict with it. */
    method HandleNotesChange(subId: string, fileId: string, notes: string)
      modifies this, db
      ensures match SubmissionIndex(old(db.submissions), subId)
        case None => db.submissions == old(db.submissions)
        case Some(i) => db.submissions == old(db.submissions)[i := ValidateRecord(old(db.submissions)[i],
                          db.RegistrationCatalog(old(db.submissions)[i].phase), fileId, false, notes)]
      ensures db.schedules == old(db.schedules) && db.CurrentSetup() == old(db.CurrentSetup())
      ensures match SubmissionIndex(db.submissions, subId)
        case Some(i) => selected == Some(db.submissions[i])
        case None => selected == old(selected)
      ensures pendingRevisions == old(pendingRevisions) && hardcopyChecked == old(hardcopyChecked)
    {
      db.ValidateFile(subId, fileId, false, notes);
      ReselectFromStore(subId);
    }

    /** Finalizing: refused without a selection or without the hard copy;
        otherwise the store finalizes the selected submission. */
    method HandleFinalize()
      modifies this, db
      ensures old(selected).None? || !old(hardcopyChecked) ==>
        db.submissions == old(db.submissions) && selected == old(selected) && pendingRevisions == old(pendingRevisions)
      ensures old(selected).Some? && old(hardcopyChecked) ==>
        && pendingRevisions == RevisionList(db.submissions)
        && match SubmissionIndex(old(db.submissions), old(selected).value.id)
           case None => db.submissions == old(db.submissions)
           case Some(i) => db.submissions == old(db.submissions)[i := FinalizedRecord(old(db.submissions)[i])]
      ensures old(selected).Some? && old(hardcopyChecked) ==>
        match SubmissionIndex(db.submissions, old(selected).value.id)
        case Some(i) => selected == Some(db.submissions[i])
        case None => selected == old(selected)
      ensures db.schedules == old(db.schedules) && db.CurrentSetup() == old(db.CurrentSetup())
      ensures hardcopyChecked == old(hardcopyChecked)
    {
      if selected.None? || !hardcopyChecked {
        return;
      }
      var id := selected.value.id;
      db.FinalizeRevision(id);
      ReselectFromStore(id);
      RefreshData();
    }

    /** Asking for repairs changes nothing in the store: the verdicts are
        already saved; the selection and the hard-copy box are cleared. */
    method HandleRequestRepair()
      modifies this
      ensures old(selected).None? ==> selected == old(selected) && hardcopyChecked == old(hardcopyChecked)
      ensures old(selected).Some? ==> selected.None? && !hardcopyChecked && pendingRevisions == RevisionList(db.submissions)
    {
      if selected.None? {
        return;
      }
      selected := None;
      hardcopyChecked := false;
      RefreshData();
    }

    /** Switching the catalog tab loads the store's revision catalog. */
    method SelectReqType(p: Phase)
      modifies this, editor
      ensures reqType == p && editor.requirements == db.RevisionCatalog(p) && !editor.hasChanges
      ensures selected == old(selected) && hardcopyChecked == old(hardcopyChecked)
    {
      reqType := p;
      editor.Load(db.RevisionCatalog(p));
    }

    method SaveRequirements()
      modifies db, editor
      ensures db.RevisionCatalog(reqType) == editor.requirements && editor.requirements == old(editor.requirements)
      ensures !editor.hasChanges
      ensures db.submissions == old(db.submissions) && db.schedules == old(db.schedules)
    {
      db.UpdateRevisionRequirements(reqType, editor.requirements);
      editor.MarkSaved();
    }
  }

  /** A revision whose every mandatory file is accepted, with the hard copy in
      hand, moves to the completed stage of its phase when finalized. */
  lemma FinalizeCompletes(sub: Submission)
    requires sub.status == RevisionProposalPending || sub.status == RevisionSkripsiPending
    ensures FinalizedRecord(sub).status == (if sub.status == RevisionProposalPending then ProposalCompleted else SkripsiCompleted)
    ensures MentionsCompleted(FinalizedRecord(sub).status)
    ensures !InRevisionList(sub) || InRevisionList(FinalizedRecord(sub))
  {
    StatusSubstrings(FinalizedRecord(sub).status);
  }
}
