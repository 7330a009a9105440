/** The records of the registration portal: requirements, per-file
    validations, submissions with their eight statuses, defense schedules and
    the student directory entry. */
module Types {
  import opened Strings
  import opened ObjectMaps

  /** The registration track: seminar proposal or final thesis defense. */
  datatype Phase = Proposal | Skripsi

  function PhaseName(p: Phase): string
  {
    match p
    case Proposal => "proposal"
    case Skripsi => "skripsi"
  }

  /** One document a student must (or may) upload. */
  datatype FileRequirement = FileRequirement(
    id: string,
    caption: string,
    description: Option<string>,
    required: bool,
    acceptedTypes: Option<string>)

  /** Staff's verdict on one uploaded file; a file id absent from the
      validations means "not yet reviewed". */
  datatype ValidationItem = ValidationItem(isValid: bool, notes: string)

  type Validations = map<string, ValidationItem>

  /** The reference the file store hands back for an upload. */
  datatype UploadedFile = UploadedFile(name: string, driveId: Option<string>, driveUrl: Option<string>)

  type Files = Object<UploadedFile>

  datatype Status =
    | Pending
    | Rejected
    | Validated
    | Scheduled
    | RevisionProposalPending
    | ProposalCompleted
    | RevisionSkripsiPending
    | SkripsiCompleted

  /** The status as the string the store holds; the compound names are
      written as their pieces joined, which spells the same strings. */
  function StatusName(s: Status): string
  {
    match s
    case Pending => "pending"
    case Rejected => "rejected"
    case Validated => "validated"
    case Scheduled => "scheduled"
    case RevisionProposalPending => "revision" + "_proposal_" + "pending"
    case ProposalCompleted => "proposal" + "_" + "completed"
    case RevisionSkripsiPending => "revision" + "_skripsi_" + "pending"
    case SkripsiCompleted => "skripsi" + "_" + "completed"
  }

  /** `status.includes('revision')` */
  predicate MentionsRevision(s: Status) { Contains(StatusName(s), "revision") }

  /** `status.includes('completed')` */
  predicate MentionsCompleted(s: Status) { Contains(StatusName(s), "completed") }

  /** `status.includes('pending')` */
  predicate MentionsPending(s: Status) { Contains(StatusName(s), "pending") }

  /** Which statuses the substring tests pick out. */
  lemma StatusSubstrings(s: Status)
    ensures MentionsRevision(s) <==> s == RevisionProposalPending || s == RevisionSkripsiPending
    ensures MentionsCompleted(s) <==> s == ProposalCompleted || s == SkripsiCompleted
    ensures MentionsPending(s) <==> s == Pending || s == RevisionProposalPending || s == RevisionSkripsiPending
  {
    StatusRevision(s);
    StatusCompleted(s);
    StatusPending(s);
  }

  // Each negative case below rests on a character the status name lacks.

  lemma StatusRevision(s: Status)
    ensures MentionsRevision(s) <==> s == RevisionProposalPending || s == RevisionSkripsiPending
  {
    match s
    case RevisionProposalPending => ContainsEnds("revision", "_proposal_", "pending");
    case RevisionSkripsiPending => ContainsEnds("revision", "_skripsi_", "pending");
    case Pending => LacksChar("pending", "revision", 2);
    case Rejected => LacksChar("rejected", "revision", 2);
    case Validated => LacksChar("validated", "revision", 0);
    case Scheduled => LacksChar("scheduled", "revision", 2);
    case ProposalCompleted => LacksChar(StatusName(s), "revision", 2);
    case SkripsiCompleted => LacksChar(StatusName(s), "revision", 2);
  }

  lemma StatusCompleted(s: Status)
    ensures MentionsCompleted(s) <==> s == ProposalCompleted || s == SkripsiCompleted
  {
    match s
    case ProposalCompleted => ContainsEnds("proposal", "_", "completed");
    case SkripsiCompleted => ContainsEnds("skripsi", "_", "completed");
    case RevisionProposalPending => LacksChar(StatusName(s), "completed", 0);
    case RevisionSkripsiPending => LacksChar(StatusName(s), "completed", 0);
    case Pending => LacksChar("pending", "completed", 0);
    case Rejected => LacksChar("rejected", "completed", 1);
    case Validated => LacksChar("validated", "completed", 1);
    case Scheduled => LacksChar("scheduled", "completed", 1);
  }

  lemma StatusPending(s: Status)
    ensures MentionsPending(s) <==> s == Pending || s == RevisionProposalPending || s == RevisionSkripsiPending
  {
    match s
    case Pending => ContainsAt("pending", "pending", 0);
    case RevisionProposalPending => ContainsEnds("revision", "_proposal_", "pending");
    case RevisionSkripsiPending => ContainsEnds("revision", "_skripsi_", "pending");
    case Rejected => LacksChar("rejected", "pending", 2);
    case Validated => LacksChar("validated", "pending", 2);
    case Scheduled => LacksChar("scheduled", "pending", 2);
    case ProposalCompleted => LacksChar(StatusName(s), "pending", 2);
    case SkripsiCompleted => LacksChar(StatusName(s), "pending", 2);
  }

  /** The status a submission of this phase takes once its defense is held. */
  function RevisionPendingFor(p: Phase): (s: Status)
    ensures MentionsRevision(s)
  {
    StatusSubstrings(RevisionProposalPending);
    StatusSubstrings(RevisionSkripsiPending);
    if p == Proposal then RevisionProposalPending else RevisionSkripsiPending
  }

  /** One registration of one student for one phase. */
  datatype Submission = Submission(
    id: string,
    studentNpm: string,
    studentName: string,
    phase: Phase,
    files: Files,
    validations: Validations,
    status: Status,
    submittedAt: int,
    academicYear: Option<string>)

  datatype ScheduleStatus = Upcoming | Completed

  /** A defense session: room, time window and committee. */
  datatype Schedule = Schedule(
    id: string,
    submissionId: string,
    phase: Phase,
    date: string,
    time: string,
    endTime: string,
    room: string,
    studentName: string,
    title: string,
    pembimbing1: string,
    pembimbing2: string,
    penguji1: string,
    penguji2: string,
    status: ScheduleStatus,
    academicYear: Option<string>)

  /** A student directory entry: name, student number, study program, thesis
      title, two advisors and two examiners. */
  datatype Student = Student(
    nama: string,
    npm: string,
    prodi: string,
    judulSkripsi: string,
    pembimbing1: string,
    pembimbing2: string,
    penguji1: string,
    penguji2: string)
}
