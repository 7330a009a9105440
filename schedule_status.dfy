/** The public status board: the badge each registration shows, the list of
    refused files a rejection opens, and the name search over both tables. */
module ScheduleStatus {
  import opened Strings
  import opened Seqs
  import opened ObjectMaps
  import opened Types
  import opened MockDb
  import App

  // ===========================================================================
  // Badges

  /** The badge of a registration on the status table. */
  datatype Badge =
    | BadgeScheduled
    | BadgeRevisionRefused
    | BadgeAwaitingLibrary
    | BadgeCompleted
    | BadgeAwaitingAdmin
    | BadgeRegistrationRefused
    | BadgeInQueue

  function BadgeText(b: Badge): string
  {
    match b
    case BadgeScheduled => "Terjadwal"
    case BadgeRevisionRefused => "Revisi Ditolak (Lihat)"
    case BadgeAwaitingLibrary => "Menunggu Validasi Pustaka"
    case BadgeCompleted => "Lulus / Selesai"
    case BadgeAwaitingAdmin => "Menunggu Validasi Admin"
    case BadgeRegistrationRefused => "Pendaftaran Ditolak"
    case BadgeInQueue => "Valid (Antrian Jadwal)"
  }

  /** The two badges that are buttons opening the refusal details. */
  predicate OpensDetails(b: Badge)
  {
    b == BadgeRevisionRefused || b == BadgeRegistrationRefused
  }

  /** The badge by exact status, a revision stage splitting on whether some
      file is refused. */
  function BadgeOf(sub: Submission): (r: Badge)
    ensures r == BadgeRevisionRefused ==> AnyRejected(sub.validations)
    ensures r in {BadgeRevisionRefused, BadgeAwaitingLibrary} <==> MentionsRevision(sub.status)
  {
    StatusSubstrings(sub.status);
    match sub.status
    case Scheduled => BadgeScheduled
    case RevisionProposalPending => if AnyRejected(sub.validations) then BadgeRevisionRefused else BadgeAwaitingLibrary
    case RevisionSkripsiPending => if AnyRejected(sub.validations) then BadgeRevisionRefused else BadgeAwaitingLibrary
    case ProposalCompleted => BadgeCompleted
    case SkripsiCompleted => BadgeCompleted
    case Pending => BadgeAwaitingAdmin
    case Rejected => BadgeRegistrationRefused
    case Validated => BadgeInQueue
  }

  /** A revision stage shows "refused" exactly when a file is refused and
      "awaiting the library" otherwise; a rejected registration always
      opens its details. */
  lemma RevisionBadges(sub: Submission)
    ensures sub.status == RevisionPendingFor(sub.phase) ==>
      (BadgeOf(sub) == BadgeRevisionRefused <==> AnyRejected(sub.validations))
      && (BadgeOf(sub) == BadgeAwaitingLibrary <==> !AnyRejected(sub.validations))
    ensures sub.status == Rejected ==> OpensDetails(BadgeOf(sub))
  {
  }

  /** The badges that open details are exactly the registrations the
      application shell counts as waiting on their student. */
  lemma DetailsExactlyWhenActionable(sub: Submission)
    ensures OpensDetails(BadgeOf(sub)) <==> App.Actionable(sub)
  {
    App.ActionableExactly(sub);
  }

  // ===========================================================================
  // The refused files

  /** Statuses past the defense read the revision catalog. */
  predicate UsesRevisionCatalog(st: Status)
  {
    MentionsRevision(st) || MentionsCompleted(st)
  }

  lemma RevisionCatalogStatuses(st: Status)
    ensures UsesRevisionCatalog(st) <==>
      st == RevisionProposalPending || st == RevisionSkripsiPending || st == ProposalCompleted || st == SkripsiCompleted
  {
    StatusSubstrings(st);
  }

  /** A stored verdict refuses the requirement's file; an unreviewed file is
      not refused. */
  function Refused(vals: Validations): FileRequirement -> bool
  {
    (r: FileRequirement) => r.id in vals && !vals[r.id].isValid
  }

  /** The catalog the details are read against. */
  function CatalogFor(db: MockDatabase, sub: Submission): seq<FileRequirement>
    reads db
  {
    if UsesRevisionCatalog(sub.status) then db.RevisionCatalog(sub.phase) else db.RegistrationCatalog(sub.phase)
  }

  /** The refused requirements, in catalog order. */
  function RejectedFiles(db: MockDatabase, sub: Submission): (r: seq<FileRequirement>)
    reads db
    ensures forall i :: 0 <= i < |r| ==> r[i] in CatalogFor(db, sub) && r[i].id in sub.validations && !sub.validations[r[i].id].isValid
    ensures forall i :: 0 <= i < |CatalogFor(db, sub)| && Refused(sub.validations)(CatalogFor(db, sub)[i]) ==> CatalogFor(db, sub)[i] in r
    ensures |r| <= |CatalogFor(db, sub)|
    ensures Subsequence(r, CatalogFor(db, sub))
  {
    Filter(CatalogFor(db, sub), Refused(sub.validations))
  }

  /** The note shown under a refused file, or a stock text when it is empty. */
  function RefusalNote(sub: Submission, r: FileRequirement): (t: string)
    ensures t != ""
    ensures r.id in sub.validations && sub.validations[r.id].notes != "" ==> t == sub.validations[r.id].notes
  {
    if r.id in sub.validations && sub.validations[r.id].notes != "" then sub.validations[r.id].notes
    else "Berkas tidak sesuai."
  }

  /** A file the library refuses during a revision stage appears in the
      details, read against the revision catalog. */
  lemma LibraryRefusalListed(db: MockDatabase, sub: Submission, i: nat, notes: string)
    requires sub.status == RevisionPendingFor(sub.phase)
    requires i < |db.RevisionCatalog(sub.phase)|
    ensures var req := db.RevisionCatalog(sub.phase)[i];
      var v := ValidateRecord(sub, db.RegistrationCatalog(sub.phase), req.id, false, notes);
      CatalogFor(db, v) == db.RevisionCatalog(sub.phase) && req in RejectedFiles(db, v)
  {
    var req := db.RevisionCatalog(sub.phase)[i];
    ValidateOutcome(sub, db.RegistrationCatalog(sub.phase), req.id, false, notes);
    var v := ValidateRecord(sub, db.RegistrationCatalog(sub.phase), req.id, false, notes);
    StatusSubstrings(v.status);
    assert Refused(v.validations)(CatalogFor(db, v)[i]);
  }

  /** A schedule reset whose first file is a registration requirement lists
      that requirement, with a note naming the reason. */
  lemma AdminResetListed(db: MockDatabase, sub: Submission, reason: string, i: nat)
    requires i < |db.RegistrationCatalog(sub.phase)|
    requires FirstKey(sub.files) == Some(db.RegistrationCatalog(sub.phase)[i].id)
    requires db.RegistrationCatalog(sub.phase)[i].id != ""
    ensures var req := db.RegistrationCatalog(sub.phase)[i];
      var r := ResetByAdminRecord(sub, reason);
      req in RejectedFiles(db, r) && Contains(RefusalNote(r, req), reason)
  {
    var req := db.RegistrationCatalog(sub.phase)[i];
    var r := ResetByAdminRecord(sub, reason);
    StatusSubstrings(Rejected);
    assert CatalogFor(db, r) == db.RegistrationCatalog(sub.phase);
    assert Refused(r.validations)(CatalogFor(db, r)[i]);
    assert r.validations[req.id].notes == ResetNote(reason);
  }

  // ===========================================================================
  // Name search

  /** The student's name contains the search term, ignoring case. */
  predicate NameMatches(name: string, term: string)
  {
    Contains(ToLower(name), ToLower(term))
  }

  function ScheduleSearch(schedules: seq<Schedule>, term: string): (r: seq<Schedule>)
    ensures forall i :: 0 <= i < |r| ==> r[i] in schedules && NameMatches(r[i].studentName, term)
    ensures forall i :: 0 <= i < |schedules| && NameMatches(schedules[i].studentName, term) ==> schedules[i] in r
  {
    Filter(schedules, (s: Schedule) => NameMatches(s.studentName, term))
  }

  function SubmissionSearch(subs: seq<Submission>, term: string): (r: seq<Submission>)
    ensures forall i :: 0 <= i < |r| ==> r[i] in subs && NameMatches(r[i].studentName, term)
    ensures forall i :: 0 <= i < |subs| && NameMatches(subs[i].studentName, term) ==> subs[i] in r
  {
    Filter(subs, (s: Submission) => NameMatches(s.studentName, term))
  }

  /** The search does not depend on the case of the term. */
  lemma SearchIgnoresCase(schedules: seq<Schedule>, subs: seq<Submission>, term: string)
    ensures ScheduleSearch(schedules, ToLower(term)) == ScheduleSearch(schedules, term)
    ensures SubmissionSearch(subs, ToLower(term)) == SubmissionSearch(subs, term)
  {
    ToLowerIdempotent(term);
    FilterAgree(schedules, (s: Schedule) => NameMatches(s.studentName, ToLower(term)), (s: Schedule) => NameMatches(s.studentName, term));
    FilterAgree(subs, (s: Submission) => NameMatches(s.studentName, ToLower(term)), (s: Submission) => NameMatches(s.studentName, term));
  }
}
