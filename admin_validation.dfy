/** The main office's validation desk: the queue of registrations still
    under document review, newest first, and the verdict controls that
    forward to the store. */
module AdminValidation {
  import opened Seqs
  import opened Types
  import opened MockDb

  // ===========================================================================
  // The queue

  /** The statuses under document review; scheduled, revision and completed
      registrations are not listed. */
  predicate InQueue(s: Submission)
  {
    s.status == Pending || s.status == Rejected || s.status == Validated
  }

  /** The comparator, as "a may come before b": the newer submission first. */
  predicate NewestFirst(a: Submission, b: Submission)
  {
    a.submittedAt >= b.submittedAt
  }

  lemma NewestFirstTotal()
    ensures TotalPreorder(NewestFirst)
  {
  }

  /** The queue: the registrations under review, newest first. */
  function ValidationQueue(all: seq<Submission>): (r: seq<Submission>)
    ensures forall i :: 0 <= i < |r| ==> InQueue(r[i]) && r[i] in all
    ensures forall i :: 0 <= i < |all| && InQueue(all[i]) ==> all[i] in r
    ensures forall i, j :: 0 <= i < j < |r| ==> r[i].submittedAt >= r[j].submittedAt
  {
    NewestFirstTotal();
    var relevant := Filter(all, InQueue);
    var sorted := SortBy(relevant, NewestFirst);
    SameMembers(relevant, sorted);
    sorted
  }

  /** Each queued registration appears as often as in the store, and nothing
      else appears. */
  lemma QueueCounts(all: seq<Submission>, x: Submission)
    ensures multiset(ValidationQueue(all))[x] == if InQueue(x) then multiset(all)[x] else 0
  {
    NewestFirstTotal();
    FilterMultiplicity(all, InQueue, x);
  }

  /** A registration leaves the queue once scheduled and comes back when a
      schedule reset rejects it. */
  lemma ScheduleLeavesAndResetReturns(sub: Submission, reason: string)
    ensures !InQueue(sub.(status := Scheduled))
    ensures InQueue(ResetByAdminRecord(sub, reason))
  {
  }

  // ===========================================================================
  // Verdicts

  /** The verdict the accept and reject buttons send: accepting with no
      note, rejecting with the stock note. */
  function ButtonVerdict(isValid: bool): (v: ValidationItem)
    ensures v.isValid == isValid
    ensures v.notes == "" <==> isValid
  {
    ValidationItem(isValid, if isValid then "" else "Ditolak")
  }

  /** A button verdict on a registration under review decides its status
      against the registration catalog: a rejection always rejects it. */
  lemma RejectButtonRejects(sub: Submission, catalog: seq<FileRequirement>, fileId: string)
    requires InQueue(sub)
    ensures var v := ButtonVerdict(false);
      ValidateRecord(sub, catalog, fileId, v.isValid, v.notes).status == Rejected
  {
    StatusSubstrings(sub.status);
    ValidateOutcome(sub, catalog, fileId, false, "Ditolak");
  }

  class ValidationDesk {
    const db: MockDatabase
    var submissions: seq<Submission>

    constructor(db: MockDatabase)
      ensures this.db == db && submissions == []
    {
      this.db := db;
      submissions := [];
    }

    method RefreshData()
      modifies this
      ensures submissions == ValidationQueue(db.submissions)
    {
      var all := db.submissions;
      submissions := ValidationQueue(all);
    }

    /** An accept or reject button on one file. */
    method HandleValidationChange(submissionId: string, fileId: string, isValid: bool)
      modifies this, db
      ensures match SubmissionIndex(old(db.submissions), submissionId)
        case None => db.submissions == old(db.submissions)
        case Some(i) => db.submissions == old(db.submissions)[i := ValidateRecord(old(db.submissions)[i],
                          old(db.RegistrationCatalog(db.submissions[i].phase)), fileId, isValid, ButtonVerdict(isValid).notes)]
      ensures db.schedules == old(db.schedules) && db.CurrentSetup() == old(db.CurrentSetup())
      ensures old(db.Valid()) ==> db.Valid()
      ensures submissions == ValidationQueue(db.submissions)
    {
      db.ValidateFile(submissionId, fileId, isValid, if isValid then "" else "Ditolak");
      RefreshData();
    }

    /** Editing the note on a file stores a rejection carrying it. */
    method HandleNotesChange(submissionId: string, fileId: string, notes: string)
      modifies this, db
      ensures match SubmissionIndex(old(db.submissions), submissionId)
        case None => db.submissions == old(db.submissions)
        case Some(i) => db.submissions == old(db.submissions)[i := ValidateRecord(old(db.submissions)[i],
                          old(db.RegistrationCatalog(db.submissions[i].phase)), fileId, false, notes)]
      ensures db.schedules == old(db.schedules) && db.CurrentSetup() == old(db.CurrentSetup())
      ensures old(db.Valid()) ==> db.Valid()
      ensures submissions == ValidationQueue(db.submissions)
    {
      db.ValidateFile(submissionId, fileId, false, notes);
      RefreshData();
    }

    /** Withdrawing the verdict on exactly that file. */
    method HandleReset(submissionId: string, fileId: string)
      modifies this, db
      ensures match SubmissionIndex(old(db.submissions), submissionId)
        case None => db.submissions == old(db.submissions)
        case Some(i) => db.submissions == old(db.submissions)[i := ResetRecord(old(db.submissions)[i], fileId)]
      ensures db.schedules == old(db.schedules) && db.CurrentSetup() == old(db.CurrentSetup())
      ensures old(db.Valid()) ==> db.Valid()
      ensures submissions == ValidationQueue(db.submissions)
    {
      db.ResetFileValidation(submissionId, fileId);
      RefreshData();
    }
  }
}
