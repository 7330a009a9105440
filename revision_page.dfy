/** The revision upload page: only a student whose registration of the
    page's phase awaits its revision may upload; the files already on record
    for the revision requirements are preloaded, every revision requirement
    needs a file, and submitting lays the files over the record. */
module RevisionPage {
  import opened Strings
  import opened ObjectMaps
  import opened Types
  import opened MockDb
  import FormPage

  // ===========================================================================
  // Eligibility

  datatype RevisionError = NoError | NotRegistered | NotInRevision

  /** The text each refusal shows. */
  function ErrorText(e: RevisionError): string
  {
    match e
    case NoError => ""
    case NotRegistered => "Anda belum mendaftar tahap ini."
    case NotInRevision => "Anda belum dinyatakan lulus sidang/seminar atau revisi sudah selesai."
  }

  /** The refusal for a student whose record of this phase is `existing`:
      none unless the record is in the revision stage of the phase. */
  function RevisionRefusal(page: Phase, existing: Option<Submission>): (r: RevisionError)
    ensures r == NotRegistered <==> existing.None?
    ensures r == NoError <==> existing.Some? && existing.value.status == RevisionPendingFor(page)
  {
    if existing.None? then NotRegistered
    else if existing.value.status != RevisionPendingFor(page) then NotInRevision
    else NoError
  }

  /** Only the revision stage of the page's own phase admits a student: a
      student past the revision, or in the other phase's revision, is
      refused. */
  lemma OnlyOwnRevisionStage(page: Phase, existing: Submission)
    requires RevisionRefusal(page, Some(existing)) == NoError
    ensures page == Proposal ==> existing.status == RevisionProposalPending
    ensures page == Skripsi ==> existing.status == RevisionSkripsiPending
    ensures !MentionsCompleted(existing.status) && MentionsRevision(existing.status)
  {
    StatusSubstrings(existing.status);
  }

  // ===========================================================================
  // Preloading and completeness

  function RequirementIds(reqs: seq<FileRequirement>): (r: seq<string>)
    ensures |r| == |reqs| && forall i :: 0 <= i < |reqs| ==> r[i] == reqs[i].id
  {
    seq(|reqs|, i requires 0 <= i < |reqs| => reqs[i].id)
  }

  /** The preloaded map after the first i keys: the record's file for each
      of them that has one, and nothing else. */
  ghost predicate PreloadedUpTo(r: Files, existing: Files, keys: seq<string>, i: nat)
    requires i <= |keys|
  {
    forall k :: Get(r, k) == if k in keys[..i] then Get(existing, k) else None
  }

  lemma PreloadStep(r: Files, existing: Files, keys: seq<string>, i: nat)
    requires i < |keys| && PreloadedUpTo(r, existing, keys, i)
    ensures Get(existing, keys[i]).Some? ==> PreloadedUpTo(Put(r, keys[i], Get(existing, keys[i]).value), existing, keys, i + 1)
    ensures Get(existing, keys[i]).None? ==> PreloadedUpTo(r, existing, keys, i + 1)
  {
    var key := keys[i];
    assert keys[..i + 1] == keys[..i] + [key];
    assert forall k :: k in keys[..i + 1] <==> k in keys[..i] || k == key;
    var f := Get(existing, key);
    if f.Some? {
      var r' := Put(r, key, f.value);
      forall k
        ensures Get(r', k) == if k in keys[..i + 1] then Get(existing, k) else None
      {
        if k != key {
          assert Get(r', k) == Get(r, k);
        }
      }
    }
  }

  /** The files preloaded on selection: for each revision requirement in
      turn, the record's file under that id, when there is one. */
  method RelevantFiles(reqs: seq<FileRequirement>, existing: Files) returns (r: Files)
    ensures forall k :: Get(r, k) == if k in RequirementIds(reqs) then Get(existing, k) else None
  {
    var keys := RequirementIds(reqs);
    r := [];
    var i := 0;
    while i < |keys|
      invariant 0 <= i <= |keys|
      invariant PreloadedUpTo(r, existing, keys, i)
    {
      var key := keys[i];
      PreloadStep(r, existing, keys, i);
      var f := Get(existing, key);
      if f.Some? {
        r := Put(r, key, f.value);
      }
      i := i + 1;
    }
    assert keys[..i] == keys;
  }

  /** Every revision requirement, mandatory or not, has a file. */
  predicate IsComplete(reqs: seq<FileRequirement>, files: Files)
  {
    forall i :: 0 <= i < |reqs| ==> Get(files, reqs[i].id).Some?
  }

  /** The revision page asks for more than the registration form would: a
      complete revision upload covers every mandatory requirement. */
  lemma CompleteCoversRequired(reqs: seq<FileRequirement>, files: Files)
    requires IsComplete(reqs, files)
    ensures FormPage.IsComplete(reqs, files)
  {
  }

  /** An optional requirement without a file keeps the revision page
      incomplete, although the registration rule would accept it. */
  lemma OptionalStillNeeded(reqs: seq<FileRequirement>, files: Files, i: nat)
    requires i < |reqs| && !reqs[i].required && Get(files, reqs[i].id).None?
    requires forall j :: 0 <= j < |reqs| && j != i ==> Get(files, reqs[j].id).Some?
    ensures !IsComplete(reqs, files) && FormPage.IsComplete(reqs, files)
  {
  }

  // ===========================================================================
  // The page

  class RevisionForm {
    const db: MockDatabase
    const page: Phase
    const requirements: seq<FileRequirement>
    var searchInput: string
    var suggestions: seq<Student>
    var searchError: RevisionError
    var student: Option<Student>
    var files: Files
    var validations: Validations
    var submitted: bool

    constructor(db: MockDatabase, page: Phase, requirements: seq<FileRequirement>)
      ensures this.db == db && this.page == page && this.requirements == requirements
      ensures searchInput == "" && suggestions == [] && searchError == NoError && student.None?
      ensures files == [] && validations == map[] && !submitted
    {
      this.db := db;
      this.page := page;
      this.requirements := requirements;
      searchInput := "";
      suggestions := [];
      searchError := NoError;
      student := None;
      files := [];
      validations := map[];
      submitted := false;
    }

    /** Typing in the name box, as on the registration form. */
    method HandleSearchChange(value: string, results: Option<seq<Student>>)
      modifies this
      ensures searchInput == value && searchError == NoError
      ensures old(student).Some? ==> student.None? && files == [] && validations == map[]
      ensures old(student).None? ==> student.None? && files == old(files) && validations == old(validations)
      ensures |value| >= 3 && results.Some? ==> suggestions == results.value
      ensures |value| >= 3 && results.None? ==> suggestions == old(suggestions)
      ensures |value| < 3 ==> suggestions == []
    {
      searchInput := value;
      searchError := NoError;
      if student.Some? {
        student := None;
        files := [];
        validations := map[];
      }
      if |value| >= 3 {
        if results.Some? {
          suggestions := results.value;
        }
      } else {
        suggestions := [];
      }
    }

    /** Selecting a student: refused without a record of this phase or
        outside its revision stage; otherwise the record's files for the
        revision requirements and its verdicts are preloaded. */
    method HandleSelectStudent(selected: Student)
      modifies this
      ensures var existing := db.SubmissionByNpm(selected.npm, page);
        && searchError == RevisionRefusal(page, existing)
        && (student.Some? <==> searchError == NoError)
        && (student.Some? ==>
              && student.value == selected
              && validations == existing.value.validations
              && forall k :: Get(files, k) == if k in RequirementIds(requirements) then Get(existing.value.files, k) else None)
        && (student.None? ==> files == old(files) && validations == old(validations))
      ensures searchInput == selected.nama && suggestions == []
    {
      student := Some(selected);
      searchInput := selected.nama;
      suggestions := [];
      searchError := NoError;
      var existing := db.SubmissionByNpm(selected.npm, page);
      if existing.None? {
        searchError := NotRegistered;
        student := None;
        return;
      }
      var allowedStatus := RevisionPendingFor(page);
      if existing.value.status != allowedStatus {
        searchError := NotInRevision;
        student := None;
        return;
      }
      files := RelevantFiles(requirements, existing.value.files);
      validations := existing.value.validations;
    }

    method ClearSelection()
      modifies this
      ensures student.None? && searchInput == "" && files == [] && validations == map[]
      ensures suggestions == [] && searchError == NoError
    {
      student := None;
      searchInput := "";
      files := [];
      validations := map[];
      suggestions := [];
      searchError := NoError;
    }

    /** The outcome of uploading a file for requirement `id`: the stored
        reference, or None when the upload failed. */
    method HandleUpload(id: string, uploaded: Option<UploadedFile>)
      modifies this
      ensures uploaded.Some? ==> files == Put(old(files), id, uploaded.value)
      ensures uploaded.None? ==> files == old(files)
      ensures student == old(student) && validations == old(validations)
    {
      if uploaded.Some? {
        files := Put(files, id, uploaded.value);
      }
    }

    method HandleRemove(id: string)
      modifies this
      ensures files == Delete(old(files), id)
      ensures student == old(student) && validations == old(validations)
    {
      files := Delete(files, id);
    }

    /** Submitting: nothing unless every revision requirement has a file and
        a student is selected; then the student's record of this phase, if
        the store still has one, receives the files. */
    method HandleSubmit()
      modifies this, db
      ensures !old(IsComplete(requirements, files)) || old(student).None? ==>
        db.submissions == old(db.submissions) && submitted == old(submitted)
      ensures old(IsComplete(requirements, files)) && old(student).Some? ==>
        && submitted
        && match old(db.SubmissionByNpm(student.value.npm, page))
           case None => db.submissions == old(db.submissions)
           case Some(e) =>
             match SubmissionIndex(old(db.submissions), e.id)
             case None => db.submissions == old(db.submissions)
             case Some(i) => db.submissions == old(db.submissions)[i := RevisedRecord(old(db.submissions)[i], old(files))]
      ensures db.schedules == old(db.schedules) && db.CurrentSetup() == old(db.CurrentSetup())
      ensures old(db.Valid()) ==> db.Valid()
    {
      if !IsComplete(requirements, files) || student.None? {
        return;
      }
      var existing := db.SubmissionByNpm(student.value.npm, page);
      if existing.Some? {
        db.SubmitRevision(existing.value.id, files);
      }
      submitted := true;
    }
  }

  /** A revision submitted for a record found by its own id overlays that
      record's files and keeps it in the revision stage. */
  lemma SubmitKeepsRevisionStage(sub: Submission, files: Files, page: Phase)
    requires RevisionRefusal(page, Some(sub)) == NoError
    ensures RevisedRecord(sub, files).status == RevisionPendingFor(page)
    ensures RevisedRecord(sub, files).validations == map[]
    ensures forall k :: Get(files, k).Some? ==> Get(RevisedRecord(sub, files).files, k) == Get(files, k)
  {
  }
}
