/** The in-memory store behind the portal: the submission list with its status
    machine, the defense schedules with the room and committee conflict check,
    the room list and the four requirement catalogs. The record transitions and
    the conflict rules are functions on values; the store is a class whose
    methods replace its fields step by step, as the service object does. */
module MockDb {
  import opened Strings
  import opened Seqs
  import opened ObjectMaps
  import opened Types
  import opened Catalogs

  // ===========================================================================
  // Validation verdicts and the recomputed status

  /** Some stored verdict rejects its file. */
  predicate AnyRejected(vals: Validations)
  {
    exists k :: k in vals && !vals[k].isValid
  }

  /** Every mandatory entry of the catalog has a stored verdict accepting it. */
  predicate AllRequiredValid(catalog: seq<FileRequirement>, vals: Validations)
  {
    forall i :: 0 <= i < |catalog| && catalog[i].required ==> catalog[i].id in vals && vals[catalog[i].id].isValid
  }

  /** The status a registration takes from its verdicts: one rejection decides,
      otherwise every mandatory document accepted makes it validated, otherwise
      it waits. */
  function RecomputedStatus(catalog: seq<FileRequirement>, vals: Validations): (r: Status)
    ensures r == Rejected <==> AnyRejected(vals)
    ensures r == Validated <==> !AnyRejected(vals) && AllRequiredValid(catalog, vals)
    ensures r == Pending <==> !AnyRejected(vals) && !AllRequiredValid(catalog, vals)
  {
    if AnyRejected(vals) then Rejected
    else if AllRequiredValid(catalog, vals) then Validated
    else Pending
  }

  /** A submission after a verdict on one file: the verdict is stored, and
      outside the revision stage the status is recomputed against the
      registration catalog. */
  function ValidateRecord(sub: Submission, catalog: seq<FileRequirement>, fileId: string, isValid: bool, notes: string): (r: Submission)
    ensures r.validations == sub.validations[fileId := ValidationItem(isValid, notes)]
    ensures r == sub.(validations := r.validations, status := r.status)
    ensures MentionsRevision(sub.status) ==> r.status == sub.status
    ensures !MentionsRevision(sub.status) ==> r.status == RecomputedStatus(catalog, r.validations)
  {
    var vals := sub.validations[fileId := ValidationItem(isValid, notes)];
    if MentionsRevision(sub.status) then sub.(validations := vals)
    else sub.(validations := vals, status := RecomputedStatus(catalog, vals))
  }

  /** Which statuses a verdict can produce: the two revision stages are kept,
      every other status (scheduled and the completed ones included) becomes
      pending, rejected or validated, and a rejection always wins. */
  lemma ValidateOutcome(sub: Submission, catalog: seq<FileRequirement>, fileId: string, isValid: bool, notes: string)
    ensures var r := ValidateRecord(sub, catalog, fileId, isValid, notes);
      && (sub.status == RevisionProposalPending || sub.status == RevisionSkripsiPending ==> r.status == sub.status)
      && (sub.status != RevisionProposalPending && sub.status != RevisionSkripsiPending ==>
            r.status == Pending || r.status == Rejected || r.status == Validated)
      && (sub.status != RevisionProposalPending && sub.status != RevisionSkripsiPending && !isValid ==>
            r.status == Rejected)
  {
    StatusSubstrings(sub.status);
    var r := ValidateRecord(sub, catalog, fileId, isValid, notes);
    if !isValid {
      assert fileId in r.validations && !r.validations[fileId].isValid;
    }
  }

  /** A submission after one verdict is withdrawn: the verdict is dropped and,
      unless the status names a revision or a completion, it goes back to
      pending. */
  function ResetRecord(sub: Submission, fileId: string): (r: Submission)
    ensures r.validations == sub.validations - {fileId}
    ensures r == sub.(validations := r.validations, status := r.status)
    ensures MentionsRevision(sub.status) || MentionsCompleted(sub.status) ==> r.status == sub.status
    ensures !MentionsRevision(sub.status) && !MentionsCompleted(sub.status) ==> r.status == Pending
  {
    var vals := sub.validations - {fileId};
    if !MentionsRevision(sub.status) && !MentionsCompleted(sub.status) then
      sub.(validations := vals, status := Pending)
    else sub.(validations := vals)
  }

  /** Withdrawing a verdict sends pending, rejected, validated and even
      scheduled registrations back to pending, and leaves the four
      post-exam statuses alone. */
  lemma ResetOutcome(sub: Submission, fileId: string)
    ensures var r := ResetRecord(sub, fileId);
      && (sub.status in {Pending, Rejected, Validated, Scheduled} ==> r.status == Pending)
      && (sub.status !in {Pending, Rejected, Validated, Scheduled} ==> r.status == sub.status)
  {
    StatusSubstrings(sub.status);
  }

  /** A submission after its revision upload: the new files are laid over the
      old ones (new wins, other old files stay), the verdicts are cleared and
      the status is kept. */
  function RevisedRecord(sub: Submission, files: Files): (r: Submission)
    ensures forall k :: Get(r.files, k) == if Get(files, k).Some? then Get(files, k) else Get(sub.files, k)
    ensures r.validations == map[]
    ensures r == sub.(files := r.files, validations := map[])
  {
    var merged := Spread(sub.files, files);
    assert forall k :: Get(merged, k) == if Get(files, k).Some? then Get(files, k) else Get(sub.files, k) by {
      forall k {
        SpreadGet(sub.files, files, k);
      }
    }
    sub.(files := merged, validations := map[])
  }

  /** The status a revision stage ends in once the library signs off. */
  function CompletedFor(p: Phase): (s: Status)
    ensures MentionsCompleted(s)
  {
    StatusSubstrings(ProposalCompleted);
    StatusSubstrings(SkripsiCompleted);
    if p == Proposal then ProposalCompleted else SkripsiCompleted
  }

  /** A submission after the library finalizes it: a revision stage moves to
      the matching completed status, any other status stays. */
  function FinalizedRecord(sub: Submission): (r: Submission)
    ensures sub.status == RevisionProposalPending ==> r.status == ProposalCompleted
    ensures sub.status == RevisionSkripsiPending ==> r.status == SkripsiCompleted
    ensures sub.status != RevisionProposalPending && sub.status != RevisionSkripsiPending ==> r == sub
    ensures r == sub.(status := r.status)
  {
    if sub.status == RevisionProposalPending then sub.(status := ProposalCompleted)
    else if sub.status == RevisionSkripsiPending then sub.(status := SkripsiCompleted)
    else sub
  }

  /** Finalizing twice is finalizing once. */
  lemma FinalizeIdempotent(sub: Submission)
    ensures FinalizedRecord(FinalizedRecord(sub)) == FinalizedRecord(sub)
  {
  }

  /** After the exam a submission waits in the revision stage of its own phase,
      and finalizing that stage completes that phase. */
  lemma ExamThenFinalize(sub: Submission)
    ensures var held := sub.(status := RevisionPendingFor(sub.phase));
      && MentionsRevision(held.status)
      && FinalizedRecord(held).status == CompletedFor(sub.phase)
      && !MentionsRevision(FinalizedRecord(held).status)
  {
    StatusSubstrings(CompletedFor(sub.phase));
  }

  /** The note left on the first file when an admin resets a schedule. */
  function ResetNote(reason: string): (r: string)
    ensures Contains(r, reason)
  {
    var r := "STATUS DIRESET ADMIN: " + reason + ". Silakan daftar ulang/perbaiki berkas.";
    assert OccursAt(r, reason, 22);
    r
  }

  /** A submission after its schedule is reset: rejected, and when its file
      map has a first key that is a non-empty string, a rejecting verdict
      carrying the reason is stored under that key. */
  function ResetByAdminRecord(sub: Submission, reason: string): (r: Submission)
    ensures r.status == Rejected
    ensures r == sub.(validations := r.validations, status := Rejected)
    ensures match FirstKey(sub.files)
      case Some(k) =>
        r.validations == if k == "" then sub.validations
                         else sub.validations[k := ValidationItem(false, ResetNote(reason))]
      case None => r.validations == sub.validations
  {
    match FirstKey(sub.files)
    case Some(k) =>
      if k != "" then
        sub.(status := Rejected, validations := sub.validations[k := ValidationItem(false, ResetNote(reason))])
      else sub.(status := Rejected)
    case None => sub.(status := Rejected)
  }

  /** After a reset with a named first file, the submission carries a
      rejection that names the reason, so revalidating any file keeps it
      rejected until that verdict is withdrawn. */
  lemma ResetByAdminRejects(sub: Submission, reason: string, catalog: seq<FileRequirement>, fileId: string, isValid: bool, notes: string)
    requires FirstKey(sub.files).Some? && FirstKey(sub.files).value != "" && fileId != FirstKey(sub.files).value
    ensures var r := ResetByAdminRecord(sub, reason);
      var k := FirstKey(sub.files).value;
      && AnyRejected(r.validations)
      && Contains(r.validations[k].notes, reason)
      && ValidateRecord(r, catalog, fileId, isValid, notes).status == Rejected
  {
    var r := ResetByAdminRecord(sub, reason);
    var k := FirstKey(sub.files).value;
    assert k in r.validations && !r.validations[k].isValid;
    ValidateOutcome(r, catalog, fileId, isValid, notes);
    StatusSubstrings(Rejected);
    var v := ValidateRecord(r, catalog, fileId, isValid, notes);
    assert k in v.validations && !v.validations[k].isValid;
  }

  // ===========================================================================
  // The submission list: one registration per (student number, phase)

  predicate SameRegistration(a: Submission, b: Submission)
  {
    a.studentNpm == b.studentNpm && a.phase == b.phase
  }

  /** How many records the list holds for this student and phase. */
  function RegistrationCount(subs: seq<Submission>, npm: string, p: Phase): nat
  {
    if subs == [] then 0
    else (if subs[0].studentNpm == npm && subs[0].phase == p then 1 else 0) + RegistrationCount(subs[1..], npm, p)
  }

  predicate UniqueRegistrations(subs: seq<Submission>)
  {
    forall i, j :: 0 <= i < j < |subs| ==> !SameRegistration(subs[i], subs[j])
  }

  /** Storing a submission: it replaces the first record of the same student
      and phase in place, or is appended when there is none. */
  function Upsert(subs: seq<Submission>, s: Submission): (r: seq<Submission>)
    ensures |r| == if exists j :: 0 <= j < |subs| && SameRegistration(subs[j], s) then |subs| else |subs| + 1
    ensures exists j :: 0 <= j < |r| && r[j] == s
    ensures forall j :: 0 <= j < |subs| ==> r[j] == subs[j] || (r[j] == s && SameRegistration(subs[j], s))
    ensures (forall j :: 0 <= j < |subs| ==> !SameRegistration(subs[j], s)) ==> r == subs + [s]
  {
    match FirstIndex(subs, (x: Submission) => SameRegistration(x, s))
    case Some(i) =>
      assert subs[i := s][i] == s;
      subs[i := s]
    case None =>
      assert (subs + [s])[|subs|] == s;
      subs + [s]
  }

  lemma {:induction false} CountAppend(subs: seq<Submission>, x: Submission, npm: string, p: Phase)
    ensures RegistrationCount(subs + [x], npm, p)
         == RegistrationCount(subs, npm, p) + (if x.studentNpm == npm && x.phase == p then 1 else 0)
  {
    if subs != [] {
      assert (subs + [x])[1..] == subs[1..] + [x];
      CountAppend(subs[1..], x, npm, p);
    }
  }

  lemma {:induction false} CountUpdate(subs: seq<Submission>, i: nat, x: Submission, npm: string, p: Phase)
    requires i < |subs|
    ensures RegistrationCount(subs[i := x], npm, p)
         == RegistrationCount(subs, npm, p)
            - (if subs[i].studentNpm == npm && subs[i].phase == p then 1 else 0)
            + (if x.studentNpm == npm && x.phase == p then 1 else 0)
  {
    if i > 0 {
      assert subs[i := x][1..] == subs[1..][i - 1 := x];
      CountUpdate(subs[1..], i - 1, x, npm, p);
    } else {
      assert subs[i := x][1..] == subs[1..];
    }
  }

  /** After storing, the stored key is held by exactly as many records as
      before, or by one if it was new; every other key keeps its count. So a
      list with at most one record per key keeps that property, and the stored
      key then has exactly one record. */
  lemma UpsertCount(subs: seq<Submission>, s: Submission, npm: string, p: Phase)
    ensures var before := RegistrationCount(subs, npm, p);
      RegistrationCount(Upsert(subs, s), npm, p)
        == if s.studentNpm == npm && s.phase == p && before == 0 then 1 else before
  {
    match FirstIndex(subs, (x: Submission) => SameRegistration(x, s))
    case Some(i) =>
      CountUpdate(subs, i, s, npm, p);
      if s.studentNpm == npm && s.phase == p {
        CountPositive(subs, i, npm, p);
      }
    case None =>
      CountAppend(subs, s, npm, p);
      if s.studentNpm == npm && s.phase == p {
        CountZero(subs, npm, p);
      }
  }

  lemma {:induction false} CountPositive(subs: seq<Submission>, i: nat, npm: string, p: Phase)
    requires i < |subs| && subs[i].studentNpm == npm && subs[i].phase == p
    ensures RegistrationCount(subs, npm, p) >= 1
  {
    if i > 0 {
      CountPositive(subs[1..], i - 1, npm, p);
    }
  }

  lemma {:induction false} CountZero(subs: seq<Submission>, npm: string, p: Phase)
    requires forall j :: 0 <= j < |subs| ==> !(subs[j].studentNpm == npm && subs[j].phase == p)
    ensures RegistrationCount(subs, npm, p) == 0
  {
    if subs != [] {
      CountZero(subs[1..], npm, p);
    }
  }

  /** Storing keeps a list free of duplicate registrations. */
  lemma UpsertKeepsUnique(subs: seq<Submission>, s: Submission)
    requires UniqueRegistrations(subs)
    ensures UniqueRegistrations(Upsert(subs, s))
  {
    var r := Upsert(subs, s);
    forall i, j | 0 <= i < j < |r|
      ensures !SameRegistration(r[i], r[j])
    {
      if j == |subs| {
        assert r[j] == s;
        assert r[i] == subs[i];
      }
    }
  }

  /** Replacing a record by one for the same student and phase keeps a list
      free of duplicate registrations. */
  lemma UpdateKeepsUnique(subs: seq<Submission>, i: nat, x: Submission)
    requires i < |subs| && SameRegistration(subs[i], x) && UniqueRegistrations(subs)
    ensures UniqueRegistrations(subs[i := x])
  {
  }

  /** `submissions.find(s => s.id === id)`, as a position. */
  function SubmissionIndex(subs: seq<Submission>, id: string): (r: Option<nat>)
    ensures r.Some? ==> r.value < |subs| && subs[r.value].id == id
    ensures r.Some? ==> forall j :: 0 <= j < r.value ==> subs[j].id != id
    ensures r.None? ==> forall j :: 0 <= j < |subs| ==> subs[j].id != id
  {
    FirstIndex(subs, (x: Submission) => x.id == id)
  }

  // ===========================================================================
  // Rooms

  function InitialRooms(): seq<string>
  {
    ["R. Sidang 1", "R. Sidang 2", "Lab Komputer 1", "R. Seminar A"]
  }

  predicate Distinct(rooms: seq<string>)
  {
    forall i, j :: 0 <= i < j < |rooms| ==> rooms[i] != rooms[j]
  }

  /** The room list after adding a name: unchanged if the name is already
      there, otherwise the name goes last; no name ever appears twice. */
  function WithRoom(rooms: seq<string>, name: string): (r: seq<string>)
    ensures forall x :: x in r <==> x in rooms || x == name
    ensures |r| >= |rooms| && r[..|rooms|] == rooms
    ensures Distinct(rooms) ==> Distinct(r)
  {
    if name in rooms then rooms else rooms + [name]
  }

  /** The room list after deleting a name: every copy of it goes, the others
      stay in order. */
  function WithoutRoom(rooms: seq<string>, name: string): (r: seq<string>)
    ensures forall x :: x in r <==> x in rooms && x != name
    ensures Subsequence(r, rooms)
    ensures Distinct(rooms) ==> Distinct(r)
  {
    if rooms == [] then []
    else if rooms[0] == name then
      var rest := WithoutRoom(rooms[1..], name);
      assert rest != [] ==> rest[0] in rest && rest[0] != rooms[0];
      rest
    else
      var rest := WithoutRoom(rooms[1..], name);
      assert Distinct(rooms) ==> rooms[0] !in rooms[1..];
      [rooms[0]] + rest
  }

  // ===========================================================================
  // Clock times and the schedule conflict rules

  /** `const [h, m] = parts.map(Number); return h * 60 + m`: the first two
      pieces read as numbers; None stands for NaN (a piece that is not a
      number, or no second piece at all). */
  function ClockOfParts(parts: seq<string>): (r: Option<int>)
    requires |parts| >= 1
    ensures r.Some? ==> r.value >= 0
  {
    var h := NumberOf(parts[0]);
    var m := if |parts| >= 2 then NumberOf(parts[1]) else None;
    if h.Some? && m.Some? then Some(h.value * 60 + m.value) else None
  }

  /** Minutes since midnight of an "HH:MM" string, split at the colons. */
  function ClockMinutes(t: string): (r: Option<int>)
    ensures r.Some? ==> r.value >= 0
    ensures ':' !in t ==> r.None?
  {
    if ':' !in t then SplitOne(t, ':'); ClockOfParts(Split(t, ':'))
    else ClockOfParts(Split(t, ':'))
  }

  /** A number printed as two or more digits. */
  function TwoDigits(n: nat): string
  {
    PadStart2(NatToString(n))
  }

  /** A run of digits reads as its decimal value. */
  lemma NumberOfDigits(s: string)
    requires AllDigits(s)
    ensures NumberOf(s) == Some(DigitsValue(s))
  {
    DigitsAreSolid(s);
    TrimOfSolid(s);
  }

  /** A two-digit rendering reads back as the number. */
  lemma NumberOfTwoDigits(n: nat)
    ensures NumberOf(TwoDigits(n)) == Some(n)
  {
    PaddedNumberValue(n);
    NumberOfDigits(TwoDigits(n));
  }

  lemma SplitAtColon(hs: string, ms: string)
    requires AllDigits(hs) && AllDigits(ms)
    ensures Split(hs + ":" + ms, ':') == [hs, ms]
  {
    DigitsAreSolid(hs);
    DigitsAreSolid(ms);
    assert hs + ":" + ms == hs + [':'] + ms;
    SplitTwo(hs, ms, ':');
  }

  /** Hours and minutes read back from the pieces around the colon. */
  lemma ClockOfPieces(hs: string, ms: string, h: nat, m: nat)
    requires Split(hs + ":" + ms, ':') == [hs, ms]
    requires NumberOf(hs) == Some(h) && NumberOf(ms) == Some(m)
    ensures ClockMinutes(hs + ":" + ms) == Some(h * 60 + m)
  {
    ClockOfPair(hs, ms, h, m);
  }

  lemma ClockOfPair(hs: string, ms: string, h: nat, m: nat)
    requires NumberOf(hs) == Some(h) && NumberOf(ms) == Some(m)
    ensures ClockOfParts([hs, ms]) == Some(h * 60 + m)
  {
    var parts := [hs, ms];
    assert parts[0] == hs && parts[1] == ms && |parts| == 2;
  }

  /** Reading back a time written as hours and minutes in two-digit form. */
  lemma ClockOfTwoDigits(h: nat, m: nat)
    ensures ClockMinutes(TwoDigits(h) + ":" + TwoDigits(m)) == Some(h * 60 + m)
  {
    PaddedNumberValue(h);
    PaddedNumberValue(m);
    SplitAtColon(TwoDigits(h), TwoDigits(m));
    NumberOfTwoDigits(h);
    NumberOfTwoDigits(m);
    ClockOfPieces(TwoDigits(h), TwoDigits(m), h, m);
  }

  /** JavaScript's `a < b` and `a > b` on numbers are false when either side is
      NaN, so a window with an unreadable end never overlaps anything. Windows
      are half-open: touching ends do not overlap. */
  predicate Overlaps(newStart: Option<int>, newEnd: Option<int>, existStart: Option<int>, existEnd: Option<int>)
  {
    && newStart.Some? && newEnd.Some? && existStart.Some? && existEnd.Some?
    && newStart.value < existEnd.value && newEnd.value > existStart.value
  }

  /** The four committee names of a schedule, trimmed. */
  function Committee(s: Schedule): seq<string>
  {
    [Trim(s.pembimbing1), Trim(s.pembimbing2), Trim(s.penguji1), Trim(s.penguji2)]
  }

  /** Names that stand for nobody on the new schedule: empty, a dash, or the
      "Dosen P1"/"Dosen P2" placeholders in any ASCII case. */
  predicate IsPlaceholder(p: string)
  {
    p == "" || p == "-" || ToLower(p) == "dosen p1" || ToLower(p) == "dosen p2"
  }

  /** The lecturers of the schedule being placed, placeholders dropped. */
  function NewPeople(s: Schedule): (r: seq<string>)
    ensures forall i :: 0 <= i < |r| ==> r[i] in Committee(s) && !IsPlaceholder(r[i])
    ensures forall i :: 0 <= i < 4 && !IsPlaceholder(Committee(s)[i]) ==> Committee(s)[i] in r
    ensures Subsequence(r, Committee(s))
  {
    Filter(Committee(s), (p: string) => !IsPlaceholder(p))
  }

  /** The lecturers of an existing schedule, empty names and dashes dropped. */
  function ExistingPeople(s: Schedule): (r: seq<string>)
    ensures forall i :: 0 <= i < |r| ==> r[i] in Committee(s) && r[i] != "" && r[i] != "-"
    ensures forall i :: 0 <= i < 4 && Committee(s)[i] != "" && Committee(s)[i] != "-" ==> Committee(s)[i] in r
    ensures Subsequence(r, Committee(s))
  {
    Filter(Committee(s), (p: string) => p != "" && p != "-")
  }

  datatype Conflict = RoomClash(s: Schedule) | LecturerClash(person: string, s: Schedule)

  /** An existing schedule blocks the new one: another schedule, not yet held,
      on the same date, with overlapping time windows. */
  predicate Blocks(n: Schedule, e: Schedule)
  {
    && e.id != n.id && e.status != Completed && e.date == n.date
    && Overlaps(ClockMinutes(n.time), ClockMinutes(n.endTime), ClockMinutes(e.time), ClockMinutes(e.endTime))
  }

  /** What one existing schedule objects to: the room if it blocks and uses the
      same room, otherwise the first of its lecturers who also sits on the new
      committee, otherwise nothing. */
  function ConflictWith(n: Schedule, e: Schedule): (r: Option<Conflict>)
    ensures r.Some? ==> Blocks(n, e) && r.value.s == e
    ensures r == Some(RoomClash(e)) <==> Blocks(n, e) && e.room == n.room
    ensures r.Some? && r.value.LecturerClash? ==>
      e.room != n.room && r.value.person in NewPeople(n)
      && (exists i :: 0 <= i < |ExistingPeople(e)| && ExistingPeople(e)[i] == r.value.person
            && forall j :: 0 <= j < i ==> ExistingPeople(e)[j] !in NewPeople(n))
    ensures r.None? && Blocks(n, e) ==> forall i :: 0 <= i < |ExistingPeople(e)| ==> ExistingPeople(e)[i] !in NewPeople(n)
  {
    if !Blocks(n, e) then None
    else if e.room == n.room then Some(RoomClash(e))
    else
      match SharedLecturer(e, NewPeople(n))
      case Some(p) => Some(LecturerClash(p, e))
      case None => None
  }

  /** `existingPeople.find(p => newPeople.includes(p))`. */
  function SharedLecturer(e: Schedule, people: seq<string>): (r: Option<string>)
    ensures r.Some? ==> r.value in people
    ensures r.Some? ==> (exists i :: 0 <= i < |ExistingPeople(e)| && ExistingPeople(e)[i] == r.value
                           && forall j :: 0 <= j < i ==> ExistingPeople(e)[j] !in people)
    ensures r.None? ==> forall i :: 0 <= i < |ExistingPeople(e)| ==> ExistingPeople(e)[i] !in people
  {
    Find(ExistingPeople(e), (p: string) => p in people)
  }

  /** When the first listed lecturer of a blocking session in another room
      also sits on the new committee, the clash names that lecturer, whoever
      else is shared. */
  lemma FirstListedLecturerNamed(n: Schedule, e: Schedule)
    requires Blocks(n, e) && e.room != n.room
    requires ExistingPeople(e) != [] && ExistingPeople(e)[0] in NewPeople(n)
    ensures ConflictWith(n, e) == Some(LecturerClash(ExistingPeople(e)[0], e))
  {
  }

  /** What each schedule of the list objects to, in list order. */
  function Objections(schedules: seq<Schedule>, n: Schedule): (r: seq<Option<Conflict>>)
    ensures |r| == |schedules| && forall i :: 0 <= i < |schedules| ==> r[i] == ConflictWith(n, schedules[i])
  {
    seq(|schedules|, i requires 0 <= i < |schedules| => ConflictWith(n, schedules[i]))
  }

  /** The objection of the first schedule in list order that objects at all. */
  function FirstConflict(schedules: seq<Schedule>, n: Schedule): (r: Option<Conflict>)
    ensures r.None? <==> forall i :: 0 <= i < |schedules| ==> ConflictWith(n, schedules[i]).None?
  {
    var xs := Objections(schedules, n);
    assert forall i :: 0 <= i < |schedules| ==> xs[i] == ConflictWith(n, schedules[i]);
    FirstSome(xs)
  }

  /** Clashing is symmetric in time: the new window overlaps the existing one
      exactly when the existing one overlaps the new. */
  lemma OverlapsSymmetric(a: Option<int>, b: Option<int>, c: Option<int>, d: Option<int>)
    ensures Overlaps(a, b, c, d) <==> Overlaps(c, d, a, b)
  {
  }

  /** Blocking is symmetric while the new session is not yet held: the other
      session would block it in return. */
  lemma BlocksSymmetric(n: Schedule, e: Schedule)
    requires Blocks(n, e) && n.status != Completed
    ensures Blocks(e, n)
  {
  }

  /** The scan reports the objection of a schedule when every schedule
      before it has none. */
  lemma FirstConflictAt(schedules: seq<Schedule>, n: Schedule, i: nat)
    requires i < |schedules| && ConflictWith(n, schedules[i]).Some?
    requires forall j :: 0 <= j < i ==> ConflictWith(n, schedules[j]).None?
    ensures FirstConflict(schedules, n) == ConflictWith(n, schedules[i])
  {
    var xs := Objections(schedules, n);
    assert forall j :: 0 <= j < i ==> xs[j].None?;
  }

  /** What an existing schedule objects to, as a function of the schedule. */
  function Objector(n: Schedule): Schedule -> Option<Conflict>
  {
    (e: Schedule) => ConflictWith(n, e)
  }

  /** No schedule of the list objects to the new one. */
  predicate NoObjection(xs: seq<Schedule>, n: Schedule)
  {
    NoneUpTo(xs, Objector(n))
  }

  /** A scan that passed the first i schedules without an objection and
      stops at an objecting one reports the first conflict. */
  lemma ScanHit(xs: seq<Schedule>, n: Schedule, i: nat)
    requires i < |xs| && NoObjection(xs[..i], n) && ConflictWith(n, xs[i]).Some?
    ensures FirstConflict(xs, n) == ConflictWith(n, xs[i])
  {
    NoneUpToMeans(xs[..i], Objector(n));
    assert forall j :: 0 <= j < i ==> xs[..i][j] == xs[j];
    FirstConflictAt(xs, n, i);
  }

  /** When no schedule objects, the scan reports nothing. */
  lemma NoConflictAtAll(schedules: seq<Schedule>, n: Schedule)
    requires forall j :: 0 <= j < |schedules| ==> ConflictWith(n, schedules[j]).None?
    ensures FirstConflict(schedules, n).None?
  {
    var xs := Objections(schedules, n);
    assert forall j :: 0 <= j < |xs| ==> xs[j].None?;
  }

  /** A schedule the scan passes over (another id is not tested, it is held
      already, another date, no overlap, or another room and no shared
      lecturer) objects to nothing. */
  lemma ScanPass(n: Schedule, e: Schedule, newStart: Option<int>, newEnd: Option<int>, people: seq<string>)
    requires newStart == ClockMinutes(n.time) && newEnd == ClockMinutes(n.endTime) && people == NewPeople(n)
    requires || e.id == n.id || e.status == Completed || e.date != n.date
             || !Overlaps(newStart, newEnd, ClockMinutes(e.time), ClockMinutes(e.endTime))
             || (e.room != n.room && SharedLecturer(e, people).None?)
    ensures ConflictWith(n, e).None?
  {
  }

  /** A schedule the scan stops at objects with exactly what the scan
      reports. */
  lemma ScanStop(n: Schedule, e: Schedule, newStart: Option<int>, newEnd: Option<int>, people: seq<string>)
    requires newStart == ClockMinutes(n.time) && newEnd == ClockMinutes(n.endTime) && people == NewPeople(n)
    requires e.id != n.id && e.status != Completed && e.date == n.date
    requires Overlaps(newStart, newEnd, ClockMinutes(e.time), ClockMinutes(e.endTime))
    ensures e.room == n.room ==> ConflictWith(n, e) == Some(RoomClash(e))
    ensures e.room != n.room && SharedLecturer(e, people).Some? ==>
      ConflictWith(n, e) == Some(LecturerClash(SharedLecturer(e, people).value, e))
  {
  }

  function RoomMessagePrefix(): string { "KONFLIK RUANGAN: Ruang \"" }
  function LecturerMessagePrefix(): string { "KONFLIK DOSEN: Dosen \"" }

  /** The message shown for an objection; it names the room or the lecturer
      right after a prefix that tells the two kinds apart. */
  function Message(c: Conflict): (r: string)
    ensures c.RoomClash? ==> |r| >= 24 && r[..24] == RoomMessagePrefix() && OccursAt(r, c.s.room, 24)
    ensures c.LecturerClash? ==> |r| >= 22 && r[..22] == LecturerMessagePrefix() && OccursAt(r, c.person, 22)
  {
    var tail := " (" + PhaseName(c.s.phase) + ") pukul " + c.s.time + "-" + c.s.endTime + ".";
    match c
    case RoomClash(s) =>
      RoomMessagePrefix() + s.room + "\" digunakan oleh " + s.studentName + tail
    case LecturerClash(p, s) =>
      LecturerMessagePrefix() + p + "\" bertugas di sidang " + s.studentName + tail
  }

  /** Sessions that only touch (one ends when the other starts) never object
      to each other, whatever their rooms and committees. */
  lemma TouchingSessionsNoConflict(n: Schedule, e: Schedule)
    requires ClockMinutes(n.time) == ClockMinutes(e.endTime) || ClockMinutes(n.endTime) == ClockMinutes(e.time)
    ensures ConflictWith(n, e).None?
  {
  }

  /** A new committee made only of placeholders can only meet a room clash. */
  lemma PlaceholdersNeverClash(n: Schedule, e: Schedule)
    requires forall i :: 0 <= i < 4 ==> IsPlaceholder(Committee(n)[i])
    ensures ConflictWith(n, e).Some? ==> ConflictWith(n, e).value.RoomClash?
  {
  }

  // ===========================================================================
  // Dashboard counts

  datatype Stats = Stats(total: nat, proposalPassed: nat, skripsiPassed: nat, pendingRevision: nat, upcomingExams: nat)

  /** The test `s => sts.has(s.status)`. */
  function InStatuses(sts: set<Status>): Submission -> bool
  {
    (s: Submission) => s.status in sts
  }

  /** How many submissions have one of the given statuses. */
  function CountStatus(subs: seq<Submission>, sts: set<Status>): (r: nat)
    ensures r <= |subs|
    ensures r == |Filter(subs, InStatuses(sts))|
  {
    if subs == [] then 0
    else (if subs[0].status in sts then 1 else 0) + CountStatus(subs[1..], sts)
  }

  lemma {:induction false} CountStatusUnion(subs: seq<Submission>, a: set<Status>, b: set<Status>)
    requires a !! b
    ensures CountStatus(subs, a) + CountStatus(subs, b) == CountStatus(subs, a + b)
  {
    if subs != [] {
      CountStatusUnion(subs[1..], a, b);
    }
  }

  /** The tests `getStats` filters by. */
  predicate PassedProposal(s: Submission) { s.status == ProposalCompleted }
  predicate PassedSkripsi(s: Submission) { s.status == SkripsiCompleted }
  predicate AwaitingRevision(s: Submission) { s.status == RevisionProposalPending || s.status == RevisionSkripsiPending }
  predicate IsUpcoming(s: Schedule) { s.status == Upcoming }

  /** `getStats`: the number of submissions, how many sit in each completed
      status and in either revision stage, and how many schedules are still
      upcoming. */
  function StatsOf(subs: seq<Submission>, schedules: seq<Schedule>): (r: Stats)
    ensures r.total == |subs|
    ensures r.proposalPassed == |Filter(subs, PassedProposal)|
    ensures r.skripsiPassed == |Filter(subs, PassedSkripsi)|
    ensures r.pendingRevision == |Filter(subs, AwaitingRevision)|
    ensures r.upcomingExams == |Filter(schedules, IsUpcoming)|
  {
    FilterAgree(subs, InStatuses({ProposalCompleted}), PassedProposal);
    FilterAgree(subs, InStatuses({SkripsiCompleted}), PassedSkripsi);
    FilterAgree(subs, InStatuses({RevisionProposalPending, RevisionSkripsiPending}), AwaitingRevision);
    Stats(|subs|,
          CountStatus(subs, {ProposalCompleted}),
          CountStatus(subs, {SkripsiCompleted}),
          CountStatus(subs, {RevisionProposalPending, RevisionSkripsiPending}),
          |Filter(schedules, IsUpcoming)|)
  }

  /** The passed and revision-pending counts never add up to more than the
      number of submissions, and the upcoming exams never outnumber the
      schedules. */
  lemma StatsBounded(subs: seq<Submission>, schedules: seq<Schedule>)
    ensures var st := StatsOf(subs, schedules);
      && st.proposalPassed + st.skripsiPassed + st.pendingRevision <= st.total
      && st.upcomingExams <= |schedules|
  {
    CountStatusUnion(subs, {ProposalCompleted}, {SkripsiCompleted});
    CountStatusUnion(subs, {ProposalCompleted, SkripsiCompleted}, {RevisionProposalPending, RevisionSkripsiPending});
    assert {ProposalCompleted} + {SkripsiCompleted} == {ProposalCompleted, SkripsiCompleted};
  }

  /** Copies of both process lists. */
  datatype Snapshot = Snapshot(submissions: seq<Submission>, schedules: seq<Schedule>)

  /** The schedule list without every schedule carrying the id. */
  function WithoutSchedule(schedules: seq<Schedule>, id: string): (r: seq<Schedule>)
    ensures forall i :: 0 <= i < |r| ==> r[i].id != id && r[i] in schedules
    ensures forall i :: 0 <= i < |schedules| && schedules[i].id != id ==> schedules[i] in r
    ensures Subsequence(r, schedules)
  {
    Filter(schedules, (s: Schedule) => s.id != id)
  }

  /** Deleting a schedule keeps every other schedule as often as it was
      listed. */
  lemma WithoutScheduleCounts(schedules: seq<Schedule>, id: string, x: Schedule)
    ensures multiset(WithoutSchedule(schedules, id))[x] == if x.id != id then multiset(schedules)[x] else 0
  {
    FilterMultiplicity(schedules, (s: Schedule) => s.id != id, x);
  }

  /** `schedules.find(s => s.id === id)`, as a position. */
  function ScheduleIndex(schedules: seq<Schedule>, id: string): (r: Option<nat>)
    ensures r.Some? ==> r.value < |schedules| && schedules[r.value].id == id
    ensures r.Some? ==> forall j :: 0 <= j < r.value ==> schedules[j].id != id
    ensures r.None? ==> forall j :: 0 <= j < |schedules| ==> schedules[j].id != id
  {
    FirstIndex(schedules, (s: Schedule) => s.id == id)
  }

  /** The parts of the store the process operations never touch. */
  datatype Setup = Setup(
    rooms: seq<string>,
    proposal: seq<FileRequirement>,
    skripsi: seq<FileRequirement>,
    proposalRevision: seq<FileRequirement>,
    skripsiRevision: seq<FileRequirement>)

  // ===========================================================================
  // The store

  class MockDatabase {
    var submissions: seq<Submission>
    var schedules: seq<Schedule>
    var rooms: seq<string>
    var proposalRequirements: seq<FileRequirement>
    var skripsiRequirements: seq<FileRequirement>
    var proposalRevisionRequirements: seq<FileRequirement>
    var skripsiRevisionRequirements: seq<FileRequirement>
    const activeYear: string

    /** One registration per student and phase, and no room listed twice. */
    predicate Valid()
      reads this
    {
      UniqueRegistrations(submissions) && Distinct(rooms)
    }

    function CurrentSetup(): Setup
      reads this
    {
      Setup(rooms, proposalRequirements, skripsiRequirements, proposalRevisionRequirements, skripsiRevisionRequirements)
    }

    /** A fresh store: no submissions or schedules, the four default rooms and
        the four catalogs as shipped. */
    constructor()
      ensures submissions == [] && schedules == []
      ensures rooms == InitialRooms()
      ensures proposalRequirements == ProposalRequirements() && skripsiRequirements == SkripsiRequirements()
      ensures proposalRevisionRequirements == ProposalRevisionRequirements()
      ensures skripsiRevisionRequirements == SkripsiRevisionRequirements()
      ensures activeYear == "2024/2025"
      ensures Valid()
    {
      submissions := [];
      schedules := [];
      rooms := InitialRooms();
      proposalRequirements := ProposalRequirements();
      skripsiRequirements := SkripsiRequirements();
      proposalRevisionRequirements := ProposalRevisionRequirements();
      skripsiRevisionRequirements := SkripsiRevisionRequirements();
      activeYear := "2024/2025";
    }

    // --- snapshot, reset, restore ---------------------------------------

    /** Copies of both process lists. */
    method GetProcessSnapshot() returns (snap: Snapshot)
      ensures snap.submissions == submissions && snap.schedules == schedules
      ensures Valid() ==> UniqueRegistrations(snap.submissions)
    {
      snap := Snapshot(submissions, schedules);
    }

    /** Both process lists replaced wholesale; rooms and catalogs untouched. */
    method RestoreProcessSnapshot(snap: Snapshot)
      modifies this
      ensures submissions == snap.submissions && schedules == snap.schedules
      ensures CurrentSetup() == old(CurrentSetup())
      ensures old(Valid()) && UniqueRegistrations(snap.submissions) ==> Valid()
    {
      submissions := snap.submissions;
      schedules := snap.schedules;
    }

    /** Both process lists emptied; rooms and catalogs untouched. */
    method ResetProcessData()
      modifies this
      ensures submissions == [] && schedules == []
      ensures CurrentSetup() == old(CurrentSetup())
      ensures old(Valid()) ==> Valid()
    {
      submissions := [];
      schedules := [];
    }

    // --- requirements and rooms -----------------------------------------

    /** The registration catalog of a phase. */
    function RegistrationCatalog(p: Phase): seq<FileRequirement>
      reads this
    {
      if p == Proposal then proposalRequirements else skripsiRequirements
    }

    /** The revision catalog of a phase. */
    function RevisionCatalog(p: Phase): seq<FileRequirement>
      reads this
    {
      if p == Proposal then proposalRevisionRequirements else skripsiRevisionRequirements
    }

    /** Replaces the registration catalog of one phase; the other catalogs
        stay. */
    method UpdateRequirements(p: Phase, reqs: seq<FileRequirement>)
      modifies this
      ensures RegistrationCatalog(p) == reqs
      ensures RegistrationCatalog(if p == Proposal then Skripsi else Proposal) == old(RegistrationCatalog(if p == Proposal then Skripsi else Proposal))
      ensures proposalRevisionRequirements == old(proposalRevisionRequirements)
      ensures skripsiRevisionRequirements == old(skripsiRevisionRequirements)
      ensures submissions == old(submissions) && schedules == old(schedules) && rooms == old(rooms)
      ensures old(Valid()) ==> Valid()
    {
      if p == Proposal {
        proposalRequirements := reqs;
      } else {
        skripsiRequirements := reqs;
      }
    }

    /** Replaces the revision catalog of one phase; the other catalogs stay. */
    method UpdateRevisionRequirements(p: Phase, reqs: seq<FileRequirement>)
      modifies this
      ensures RevisionCatalog(p) == reqs
      ensures RevisionCatalog(if p == Proposal then Skripsi else Proposal) == old(RevisionCatalog(if p == Proposal then Skripsi else Proposal))
      ensures proposalRequirements == old(proposalRequirements)
      ensures skripsiRequirements == old(skripsiRequirements)
      ensures submissions == old(submissions) && schedules == old(schedules) && rooms == old(rooms)
      ensures old(Valid()) ==> Valid()
    {
      if p == Proposal {
        proposalRevisionRequirements := reqs;
      } else {
        skripsiRevisionRequirements := reqs;
      }
    }

    /** Adds a room unless it is already listed. */
    method AddRoom(name: string)
      modifies this
      ensures rooms == WithRoom(old(rooms), name)
      ensures submissions == old(submissions) && schedules == old(schedules)
      ensures RegistrationCatalog(Proposal) == old(RegistrationCatalog(Proposal))
      ensures RegistrationCatalog(Skripsi) == old(RegistrationCatalog(Skripsi))
      ensures RevisionCatalog(Proposal) == old(RevisionCatalog(Proposal))
      ensures RevisionCatalog(Skripsi) == old(RevisionCatalog(Skripsi))
      ensures old(Valid()) ==> Valid()
    {
      if name !in rooms {
        rooms := rooms + [name];
      }
    }

    /** Removes every copy of a room name. */
    method DeleteRoom(name: string)
      modifies this
      ensures rooms == WithoutRoom(old(rooms), name)
      ensures submissions == old(submissions) && schedules == old(schedules)
      ensures RegistrationCatalog(Proposal) == old(RegistrationCatalog(Proposal))
      ensures RegistrationCatalog(Skripsi) == old(RegistrationCatalog(Skripsi))
      ensures RevisionCatalog(Proposal) == old(RevisionCatalog(Proposal))
      ensures RevisionCatalog(Skripsi) == old(RevisionCatalog(Skripsi))
      ensures old(Valid()) ==> Valid()
    {
      rooms := WithoutRoom(rooms, name);
    }

    // --- submissions ----------------------------------------------------

    /** The first submission of this student for this phase, if any. */
    function SubmissionByNpm(npm: string, p: Phase): (r: Option<Submission>)
      reads this
      ensures r.Some? ==> r.value in submissions && r.value.studentNpm == npm && r.value.phase == p
      ensures r.None? <==> forall i :: 0 <= i < |submissions| ==> !(submissions[i].studentNpm == npm && submissions[i].phase == p)
    {
      Find(submissions, (s: Submission) => s.studentNpm == npm && s.phase == p)
    }

    /** Stores a submission under its (student number, phase) key. */
    method AddSubmission(submission: Submission)
      modifies this
      ensures submissions == Upsert(old(submissions), submission)
      ensures schedules == old(schedules) && CurrentSetup() == old(CurrentSetup())
      ensures old(Valid()) ==> Valid()
    {
      var existingIndex := FirstIndex(submissions, (s: Submission) => SameRegistration(s, submission));
      if existingIndex.Some? {
        submissions := submissions[existingIndex.value := submission];
      } else {
        submissions := submissions + [submission];
      }
      if old(Valid()) {
        UpsertKeepsUnique(old(submissions), submission);
      }
    }

    /** Lays the revision files over the submission's files and clears its
        verdicts; nothing happens for an unknown id. */
    method SubmitRevision(submissionId: string, files: Files)
      modifies this
      ensures match SubmissionIndex(old(submissions), submissionId)
        case None => submissions == old(submissions)
        case Some(i) => submissions == old(submissions)[i := RevisedRecord(old(submissions)[i], files)]
      ensures schedules == old(schedules) && CurrentSetup() == old(CurrentSetup())
      ensures old(Valid()) ==> Valid()
    {
      var idx := SubmissionIndex(submissions, submissionId);
      if idx.Some? {
        var sub := submissions[idx.value];
        sub := sub.(files := Spread(sub.files, files));
        sub := sub.(validations := map[]);
        submissions := submissions[idx.value := sub];
        if old(Valid()) {
          UpdateKeepsUnique(old(submissions), idx.value, sub);
        }
      }
    }

    /** Stores a verdict on one file and, outside the revision stage,
        recomputes the status from the current registration catalog; nothing
        happens for an unknown id. */
    method ValidateFile(submissionId: string, fileId: string, isValid: bool, notes: string)
      modifies this
      ensures match SubmissionIndex(old(submissions), submissionId)
        case None => submissions == old(submissions)
        case Some(i) => submissions == old(submissions)[i := ValidateRecord(old(submissions)[i],
                          RegistrationCatalog(old(submissions)[i].phase), fileId, isValid, notes)]
      ensures schedules == old(schedules) && CurrentSetup() == old(CurrentSetup())
      ensures old(Valid()) ==> Valid()
    {
      var idx := SubmissionIndex(submissions, submissionId);
      if idx.Some? {
        var sub := submissions[idx.value];
        sub := sub.(validations := sub.validations[fileId := ValidationItem(isValid, notes)]);
        var isRevisionContext := MentionsRevision(sub.status);
        if !isRevisionContext {
          var requirements := RegistrationCatalog(sub.phase);
          var anyRejected := AnyRejected(sub.validations);
          var allRequiredValidated := AllRequiredValid(requirements, sub.validations);
          if anyRejected {
            sub := sub.(status := Rejected);
          } else if allRequiredValidated {
            sub := sub.(status := Validated);
          } else {
            sub := sub.(status := Pending);
          }
        }
        submissions := submissions[idx.value := sub];
        if old(Valid()) {
          UpdateKeepsUnique(old(submissions), idx.value, sub);
        }
      }
    }

    /** Withdraws the verdict on one file; outside the revision and completed
        stages the submission goes back to pending. Nothing happens for an
        unknown id. */
    method ResetFileValidation(submissionId: string, fileId: string)
      modifies this
      ensures match SubmissionIndex(old(submissions), submissionId)
        case None => submissions == old(submissions)
        case Some(i) => submissions == old(submissions)[i := ResetRecord(old(submissions)[i], fileId)]
      ensures schedules == old(schedules) && CurrentSetup() == old(CurrentSetup())
      ensures old(Valid()) ==> Valid()
    {
      var idx := SubmissionIndex(submissions, submissionId);
      if idx.Some? {
        var sub := submissions[idx.value];
        sub := sub.(validations := sub.validations - {fileId});
        if !MentionsRevision(sub.status) && !MentionsCompleted(sub.status) {
          sub := sub.(status := Pending);
        }
        submissions := submissions[idx.value := sub];
        if old(Valid()) {
          UpdateKeepsUnique(old(submissions), idx.value, sub);
        }
      }
    }

    /** Moves a revision stage to its completed status; nothing happens for an
        unknown id or another status. */
    method FinalizeRevision(submissionId: string)
      modifies this
      ensures match SubmissionIndex(old(submissions), submissionId)
        case None => submissions == old(submissions)
        case Some(i) => submissions == old(submissions)[i := FinalizedRecord(old(submissions)[i])]
      ensures schedules == old(schedules) && CurrentSetup() == old(CurrentSetup())
      ensures old(Valid()) ==> Valid()
    {
      var idx := SubmissionIndex(submissions, submissionId);
      if idx.Some? {
        var sub := submissions[idx.value];
        if sub.status == RevisionProposalPending {
          sub := sub.(status := ProposalCompleted);
        } else if sub.status == RevisionSkripsiPending {
          sub := sub.(status := SkripsiCompleted);
        }
        submissions := submissions[idx.value := sub];
        if old(Valid()) {
          UpdateKeepsUnique(old(submissions), idx.value, sub);
        }
      }
    }

    // --- schedules ------------------------------------------------------

    /** Appends the schedule and marks its submission scheduled, whatever its
        status was. */
    method AddSchedule(schedule: Schedule)
      modifies this
      ensures schedules == old(schedules) + [schedule]
      ensures match SubmissionIndex(old(submissions), schedule.submissionId)
        case None => submissions == old(submissions)
        case Some(i) => submissions == old(submissions)[i := old(submissions)[i].(status := Scheduled)]
      ensures CurrentSetup() == old(CurrentSetup())
      ensures old(Valid()) ==> Valid()
    {
      schedules := schedules + [schedule];
      var idx := SubmissionIndex(submissions, schedule.submissionId);
      if idx.Some? {
        var sub := submissions[idx.value].(status := Scheduled);
        submissions := submissions[idx.value := sub];
        if old(Valid()) {
          UpdateKeepsUnique(old(submissions), idx.value, sub);
        }
      }
    }

    /** Marks the schedule held and moves its submission to the revision stage
        of its phase; nothing happens for an unknown schedule id. */
    method CompleteSchedule(scheduleId: string)
      modifies this
      ensures match ScheduleIndex(old(schedules), scheduleId)
        case None => schedules == old(schedules) && submissions == old(submissions)
        case Some(k) =>
          var sched := old(schedules)[k];
          && schedules == old(schedules)[k := sched.(status := Completed)]
          && match SubmissionIndex(old(submissions), sched.submissionId)
             case None => submissions == old(submissions)
             case Some(i) => submissions == old(submissions)[i := old(submissions)[i].(status := RevisionPendingFor(old(submissions)[i].phase))]
      ensures CurrentSetup() == old(CurrentSetup())
      ensures old(Valid()) ==> Valid()
    {
      var k := ScheduleIndex(schedules, scheduleId);
      if k.None? {
        return;
      }
      var schedule := schedules[k.value];
      schedules := schedules[k.value := schedule.(status := Completed)];
      var idx := SubmissionIndex(submissions, schedule.submissionId);
      if idx.Some? {
        var sub := submissions[idx.value];
        sub := sub.(status := RevisionPendingFor(sub.phase));
        submissions := submissions[idx.value := sub];
        if old(Valid()) {
          UpdateKeepsUnique(old(submissions), idx.value, sub);
        }
      }
    }

    /** Removes every schedule with the id, rejects its submission and leaves
        the reason on its first file; nothing happens for an unknown schedule
        id. */
    method DeleteSchedule(scheduleId: string, reason: string)
      modifies this
      ensures match ScheduleIndex(old(schedules), scheduleId)
        case None => schedules == old(schedules) && submissions == old(submissions)
        case Some(k) =>
          && schedules == WithoutSchedule(old(schedules), scheduleId)
          && match SubmissionIndex(old(submissions), old(schedules)[k].submissionId)
             case None => submissions == old(submissions)
             case Some(i) => submissions == old(submissions)[i := ResetByAdminRecord(old(submissions)[i], reason)]
      ensures CurrentSetup() == old(CurrentSetup())
      ensures old(Valid()) ==> Valid()
    {
      var k := ScheduleIndex(schedules, scheduleId);
      if k.None? {
        return;
      }
      var schedule := schedules[k.value];
      schedules := WithoutSchedule(schedules, scheduleId);
      var idx := SubmissionIndex(submissions, schedule.submissionId);
      if idx.Some? {
        var sub := submissions[idx.value];
        sub := sub.(status := Rejected);
        var firstKey := FirstKey(sub.files);
        if firstKey.Some? && firstKey.value != "" {
          sub := sub.(validations := sub.validations[firstKey.value := ValidationItem(false, ResetNote(reason))]);
        }
        submissions := submissions[idx.value := sub];
        if old(Valid()) {
          UpdateKeepsUnique(old(submissions), idx.value, sub);
        }
      }
    }

    /** Scans the schedules in order and reports the first room or lecturer
        clash with the new schedule, as a message; None when nothing clashes. */
    method CheckConflict(newSchedule: Schedule) returns (msg: Option<string>)
      ensures FirstConflict(schedules, newSchedule).None? ==> msg.None?
      ensures FirstConflict(schedules, newSchedule).Some? ==> msg == Some(Message(FirstConflict(schedules, newSchedule).value))
    {
      var latest := schedules;
      var newStart := ClockMinutes(newSchedule.time);
      var newEnd := ClockMinutes(newSchedule.endTime);
      var newPeople := NewPeople(newSchedule);
      var i := 0;
      while i < |latest|
        invariant 0 <= i <= |latest|
        invariant NoObjection(latest[..i], newSchedule)
      {
        var s := latest[i];
        if s.id == newSchedule.id || s.status == Completed || s.date != newSchedule.date {
          ScanPass(newSchedule, s, newStart, newEnd, newPeople);
          NoneUpToExtend(latest, i, Objector(newSchedule));
          i := i + 1;
          continue;
        }
        var existStart := ClockMinutes(s.time);
        var existEnd := ClockMinutes(s.endTime);
        var isTimeOverlap := Overlaps(newStart, newEnd, existStart, existEnd);
        if isTimeOverlap {
          ScanStop(newSchedule, s, newStart, newEnd, newPeople);
          if s.room == newSchedule.room {
            ScanHit(latest, newSchedule, i);
            return Some(Message(RoomClash(s)));
          }
          var conflictingPerson := SharedLecturer(s, newPeople);
          if conflictingPerson.Some? {
            ScanHit(latest, newSchedule, i);
            return Some(Message(LecturerClash(conflictingPerson.value, s)));
          }
        }
        ScanPass(newSchedule, s, newStart, newEnd, newPeople);
        NoneUpToExtend(latest, i, Objector(newSchedule));
        i := i + 1;
      }
      assert latest[..i] == latest;
      NoneUpToMeans(latest, Objector(newSchedule));
      NoConflictAtAll(latest, newSchedule);
      return None;
    }
  }
}
