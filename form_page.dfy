/** The registration form (seminar proposal or final thesis): looking up a
    student, the eligibility rules on selection, the uploaded-file map, the
    completeness test and the record handed to the store. */
module FormPage {
  import opened Strings
  import opened Seqs
  import opened ObjectMaps
  import opened Types
  import opened MockDb

  // ===========================================================================
  // Eligibility

  /** What selecting a student leads to. */
  datatype Eligibility =
    | NeedsProposal                                        // thesis form, proposal not completed
    | AlreadyRunning                                       // a registration that is not rejected exists
    | FreshStart                                           // no registration yet
    | Resubmission(files: Files, validations: Validations) // a rejected registration, preloaded

  /** The error line under the name box: none, or one of the two refusals. */
  datatype SearchError = NoError | ProposalNotCompleted | RegistrationRunning

  /** The text each refusal shows. */
  function ErrorText(e: SearchError): string
  {
    match e
    case NoError => ""
    case ProposalNotCompleted =>
      "Anda harus menyelesaikan Seminar Proposal dan Revisi Proposal (Status: Sempro Selesai) sebelum mendaftar Skripsi."
    case RegistrationRunning => "Pendaftaran Anda sedang berjalan atau sudah selesai. Cek Dashboard."
  }

  /** The rules applied on selection, from the student's proposal record (read
      only on the thesis form) and the record of the form's own phase. */
  function EligibilityOf(page: Phase, proposal: Option<Submission>, existing: Option<Submission>): (r: Eligibility)
    ensures r.NeedsProposal? <==> page == Skripsi && !(proposal.Some? && proposal.value.status == ProposalCompleted)
    ensures r.AlreadyRunning? <==> !r.NeedsProposal? && existing.Some? && existing.value.status != Rejected
    ensures r.Resubmission? <==> !r.NeedsProposal? && existing.Some? && existing.value.status == Rejected
    ensures r.Resubmission? ==> r.files == existing.value.files && r.validations == existing.value.validations
  {
    if page == Skripsi && (proposal.None? || proposal.value.status != ProposalCompleted) then NeedsProposal
    else if existing.Some? && existing.value.status != Rejected then AlreadyRunning
    else if existing.Some? then Resubmission(existing.value.files, existing.value.validations)
    else FreshStart
  }

  /** A student may start or resume a registration exactly when the proposal
      (for the thesis form) is completed and any earlier registration of the
      same phase was rejected. */
  lemma EligibleExactly(page: Phase, proposal: Option<Submission>, existing: Option<Submission>)
    ensures var r := EligibilityOf(page, proposal, existing);
      (r.FreshStart? || r.Resubmission?) <==>
        && (page == Proposal || (proposal.Some? && proposal.value.status == ProposalCompleted))
        && (existing.None? || existing.value.status == Rejected)
  {
  }

  /** A student accepted on the thesis form has a completed proposal. */
  lemma ThesisNeedsCompletedProposal(proposal: Option<Submission>, existing: Option<Submission>)
    requires EligibilityOf(Skripsi, proposal, existing).FreshStart? || EligibilityOf(Skripsi, proposal, existing).Resubmission?
    ensures proposal.Some? && proposal.value.status == ProposalCompleted
  {
  }

  // ===========================================================================
  // Completeness and progress

  /** Every mandatory requirement has an uploaded file (`!!files[r.id]`). */
  predicate IsComplete(reqs: seq<FileRequirement>, files: Files)
    ensures (forall i :: 0 <= i < |reqs| ==> !reqs[i].required) ==> IsComplete(reqs, files)
  {
    forall i :: 0 <= i < |reqs| && reqs[i].required ==> Get(files, reqs[i].id).Some?
  }

  /** Uploading never makes a complete form incomplete. */
  lemma UploadKeepsComplete(reqs: seq<FileRequirement>, files: Files, id: string, f: UploadedFile)
    requires IsComplete(reqs, files)
    ensures IsComplete(reqs, Put(files, id, f))
  {
    forall i | 0 <= i < |reqs| && reqs[i].required
      ensures Get(Put(files, id, f), reqs[i].id).Some?
    {
      if reqs[i].id != id {
        assert Get(Put(files, id, f), reqs[i].id) == Get(files, reqs[i].id);
      }
    }
  }

  /** Removing the upload of a mandatory requirement makes the form
      incomplete. */
  lemma RemoveBreaksComplete(reqs: seq<FileRequirement>, files: Files, i: nat)
    requires i < |reqs| && reqs[i].required
    ensures !IsComplete(reqs, Delete(files, reqs[i].id))
  {
    assert Get(Delete(files, reqs[i].id), reqs[i].id).None?;
  }

  /** `Math.round(uploaded / required * 100)` on exact rationals, that is
      floor(100 * uploaded / required + 1/2). With no mandatory requirement
      the quotient is not a finite number (None). */
  function Progress(uploaded: nat, required: nat): (r: Option<nat>)
    ensures r.None? <==> required == 0
    ensures r.Some? ==> 2 * required * r.value <= 200 * uploaded + required < 2 * required * (r.value + 1)
  {
    if required == 0 then None else Some((200 * uploaded + required) / (2 * required))
  }

  /** Every mandatory file uploaded, and nothing more, is 100 percent; fewer
      uploads stay at or below it. */
  lemma ProgressBounded(uploaded: nat, required: nat)
    requires 0 < required && uploaded <= required
    ensures Progress(uploaded, required).value <= 100
    ensures uploaded == required ==> Progress(uploaded, required) == Some(100)
  {
    var a := 200 * uploaded + required;
    var b := 2 * required;
    DivBelow(a, b, 101);
    if uploaded == required {
      DivAtLeast(a, b, 100);
    }
  }

  lemma DivBelow(a: nat, b: nat, q: nat)
    requires 0 < b && a < b * q
    ensures a / b < q
  {
  }

  lemma DivAtLeast(a: nat, b: nat, q: nat)
    requires 0 < b && b * q <= a
    ensures a / b >= q
  {
    var d := a / b;
    assert a == b * d + a % b;
    if d < q {
      assert b * (d + 1) == b * d + b;
      MulMono(b, d + 1, q);
    }
  }

  lemma MulMono(b: nat, x: nat, y: nat)
    requires x <= y
    ensures b * x <= b * y
  {
    assert b * y == b * x + b * (y - x);
  }

  /** The count covers every uploaded key, optional ones included, so uploads
      exceeding the mandatory count by at least half a percent report more than
      100 percent; one mandatory requirement with an optional upload beside it
      reports 200 percent. */
  lemma ProgressCountsOptionalUploads(uploaded: nat, required: nat)
    requires 0 < required && 201 * required <= 200 * uploaded
    ensures Progress(uploaded, required).value > 100
    ensures required == 1 && uploaded == 2 ==> Progress(uploaded, required) == Some(200)
  {
    DivAtLeast(200 * uploaded + required, 2 * required, 101);
  }

  // ===========================================================================
  // The record handed to the store

  /** The new registration: pending, with no verdicts, of the form's phase. */
  function NewRegistration(id: string, student: Student, page: Phase, files: Files, submittedAt: int, year: string): (r: Submission)
    ensures r.status == Pending && r.validations == map[] && r.phase == page
    ensures r.studentNpm == student.npm && r.studentName == student.nama && r.files == files
  {
    Submission(id, student.npm, student.nama, page, files, map[], Pending, submittedAt, Some(year))
  }

  /** A list with one record per student and phase holds at most one record
      for any key. */
  lemma {:induction false} UniqueCountAtMostOne(subs: seq<Submission>, npm: string, p: Phase)
    requires UniqueRegistrations(subs)
    ensures RegistrationCount(subs, npm, p) <= 1
  {
    if subs != [] {
      UniqueCountAtMostOne(subs[1..], npm, p);
      if subs[0].studentNpm == npm && subs[0].phase == p {
        assert forall j :: 0 <= j < |subs[1..]| ==> subs[1..][j] == subs[j + 1];
        CountZero(subs[1..], npm, p);
      }
    }
  }

  /** After submitting, the store holds the new record, and exactly one record
      for that student and phase. */
  lemma SubmittedOnce(subs: seq<Submission>, s: Submission)
    requires UniqueRegistrations(subs)
    ensures s in Upsert(subs, s)
    ensures RegistrationCount(Upsert(subs, s), s.studentNpm, s.phase) == 1
  {
    UniqueCountAtMostOne(subs, s.studentNpm, s.phase);
    UpsertCount(subs, s, s.studentNpm, s.phase);
  }

  // ===========================================================================
  // The form

  class RegistrationForm {
    const db: MockDatabase
    const page: Phase
    const requirements: seq<FileRequirement>
    var searchInput: string
    var suggestions: seq<Student>
    var searchError: SearchError
    var student: Option<Student>
    var files: Files
    var validations: Validations
    var submitted: bool

    constructor(db: MockDatabase, page: Phase, requirements: seq<FileRequirement>)
      ensures this.db == db && this.page == page && this.requirements == requirements
      ensures searchInput == "" && suggestions == [] && searchError == NoError && student.None?
      ensures files == [] && validations == map[] && !submitted
    {
      this.db := db;
      this.page := page;
      this.requirements := requirements;
      searchInput := "";
      suggestions := [];
      searchError := NoError;
      student := None;
      files := [];
      validations := map[];
      submitted := false;
    }

    /** Typing in the name box. `results` is what the directory search
        returns, None when it fails; the search is made only for three or
        more characters. Typing drops a selected student with the files. */
    method HandleSearchChange(value: string, results: Option<seq<Student>>)
      modifies this
      ensures searchInput == value && searchError == NoError
      ensures old(student).Some? ==> student.None? && files == [] && validations == map[]
      ensures old(student).None? ==> student.None? && files == old(files) && validations == old(validations)
      ensures |value| >= 3 && results.Some? ==> suggestions == results.value
      ensures |value| >= 3 && results.None? ==> suggestions == old(suggestions)
      ensures |value| < 3 ==> suggestions == []
    {
      searchInput := value;
      searchError := NoError;
      if student.Some? {
        student := None;
        files := [];
        validations := map[];
      }
      if |value| >= 3 {
        if results.Some? {
          suggestions := results.value;
        }
      } else {
        suggestions := [];
      }
    }

    /** The store's answer to selecting this student: the proposal record
        (looked up on the thesis form only) and the record of this form's
        phase, judged by the eligibility rules. */
    function SelectionOutcome(selected: Student): Eligibility
      reads db
    {
      var proposal := if page == Skripsi then db.SubmissionByNpm(selected.npm, Proposal) else None;
      EligibilityOf(page, proposal, db.SubmissionByNpm(selected.npm, page))
    }

    /** Selecting a student from the suggestions, with the eligibility rules. */
    method HandleSelectStudent(selected: Student)
      modifies this
      ensures var r := SelectionOutcome(selected);
        && (student.Some? <==> r.FreshStart? || r.Resubmission?)
        && (student.Some? ==> student.value == selected && searchError == NoError)
        && (r.NeedsProposal? ==> searchError == ProposalNotCompleted)
        && (r.AlreadyRunning? ==> searchError == RegistrationRunning)
        && (r.Resubmission? ==> files == r.files && validations == r.validations)
        && (!r.Resubmission? ==> files == old(files) && validations == old(validations))
      ensures searchInput == selected.nama && suggestions == []
    {
      var verdict := SelectionOutcome(selected);
      searchInput := selected.nama;
      suggestions := [];
      match verdict
      case NeedsProposal =>
        searchError := ProposalNotCompleted;
        student := None;
      case AlreadyRunning =>
        searchError := RegistrationRunning;
        student := None;
      case FreshStart =>
        searchError := NoError;
        student := Some(selected);
      case Resubmission(preFiles, preValidations) =>
        searchError := NoError;
        student := Some(selected);
        files := preFiles;
        validations := preValidations;
    }

    method ClearSelection()
      modifies this
      ensures student.None? && searchInput == "" && files == [] && validations == map[]
      ensures suggestions == [] && searchError == NoError
    {
      student := None;
      searchInput := "";
      files := [];
      validations := map[];
      suggestions := [];
      searchError := NoError;
    }

    /** The outcome of uploading a file for requirement `id`: the stored
        reference, or None when the upload failed. */
    method HandleUpload(id: string, uploaded: Option<UploadedFile>)
      modifies this
      ensures uploaded.Some? ==> files == Put(old(files), id, uploaded.value)
      ensures uploaded.None? ==> files == old(files)
      ensures student == old(student) && validations == old(validations)
    {
      if uploaded.Some? {
        files := Put(files, id, uploaded.value);
      }
    }

    method HandleRemove(id: string)
      modifies this
      ensures files == Delete(old(files), id)
      ensures Get(files, id).None? && forall k :: k != id ==> Get(files, k) == Get(old(files), k)
      ensures student == old(student) && validations == old(validations)
    {
      files := Delete(files, id);
    }

    /** The progress figure computed by the form. */
    function CurrentProgress(): Option<nat>
      reads this
    {
      Progress(|Keys(files)|, |Filter(requirements, (r: FileRequirement) => r.required)|)
    }

    /** Submitting: nothing unless the form is complete and a student is
        selected; otherwise the new pending record is stored under its key. */
    method HandleSubmit(now: nat, submittedAt: int)
      modifies this, db
      ensures !old(IsComplete(requirements, files)) || old(student).None? ==>
        db.submissions == old(db.submissions) && submitted == old(submitted)
      ensures old(IsComplete(requirements, files)) && old(student).Some? ==>
        && db.submissions == Upsert(old(db.submissions),
             NewRegistration(NatToString(now), old(student).value, page, old(files), submittedAt, db.activeYear))
        && submitted
      ensures db.schedules == old(db.schedules) && db.CurrentSetup() == old(db.CurrentSetup())
      ensures old(db.Valid()) ==> db.Valid()
    {
      if !IsComplete(requirements, files) || student.None? {
        return;
      }
      var newSubmission := NewRegistration(NatToString(now), student.value, page, files, submittedAt, db.activeYear);
      db.AddSubmission(newSubmission);
      submitted := true;
    }
  }
}
