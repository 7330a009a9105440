/** The scheduling desk: the queue of validated registrations, the default
    two-hour window, the room list, booking a defense after the conflict
    check, and resetting or passing a held defense. */
module AdminScheduling {
  import opened Strings
  import opened Seqs
  import opened Types
  import opened MockDb

  // ===========================================================================
  // The queue

  /** A registration waiting for a defense date. */
  predicate IsReady(s: Submission)
  {
    s.status == Validated
  }

  // ===========================================================================
  // The default end time

  /** The end time filled in when a start time is typed: the hour plus two,
      wrapping at midnight, with the same minutes, both padded to two digits.
      A piece that does not read as a number prints as "NaN"; a start time
      without a colon has no minutes to print and fills in nothing (None). */
  function DefaultEndTime(val: string): (r: Option<string>)
    ensures r.Some? <==> |Split(val, ':')| >= 2
  {
    DefaultEndOfParts(Split(val, ':'))
  }

  /** The end time from the pieces of the start time around its colons. */
  function DefaultEndOfParts(parts: seq<string>): (r: Option<string>)
    ensures r.Some? <==> |parts| >= 2
  {
    if |parts| < 2 then None
    else Some(EndHourText(NumberOf(parts[0])) + ":" + MinuteText(NumberOf(parts[1])))
  }

  /** The hour two hours on, padded; NaN prints as "NaN". */
  function EndHourText(h: Option<nat>): string
  {
    match h
    case Some(h) => PadStart2(NatToString((h + 2) % 24))
    case None => PadStart2("NaN")
  }

  /** The minutes, padded; NaN prints as "NaN". */
  function MinuteText(m: Option<nat>): string
  {
    match m
    case Some(m) => PadStart2(NatToString(m))
    case None => PadStart2("NaN")
  }

  lemma EndHourOfNumber(h: nat)
    ensures EndHourText(Some(h)) == TwoDigits((h + 2) % 24)
  {
  }

  lemma DefaultEndOfPieces(hs: string, ms: string)
    ensures DefaultEndOfParts([hs, ms]) == Some(EndHourText(NumberOf(hs)) + ":" + MinuteText(NumberOf(ms)))
  {
  }

  lemma DefaultEndOfNumbers(hs: string, ms: string, h: nat, m: nat)
    requires NumberOf(hs) == Some(h) && NumberOf(ms) == Some(m)
    ensures DefaultEndOfParts([hs, ms]) == Some(TwoDigits((h + 2) % 24) + ":" + TwoDigits(m))
  {
    EndHourOfNumber(h);
    DefaultEndOfPieces(hs, ms);
  }

  /** A time written "HH:MM" splits into its two-digit pieces. */
  lemma TwoDigitSplit(h: nat, m: nat)
    ensures Split(TwoDigits(h) + ":" + TwoDigits(m), ':') == [TwoDigits(h), TwoDigits(m)]
  {
    PaddedNumberValue(h);
    PaddedNumberValue(m);
    SplitAtColon(TwoDigits(h), TwoDigits(m));
  }

  /** A start time written "HH:MM" ends two hours later, on the clock, with
      the same minutes. */
  lemma DefaultEndTimeOfClock(h: nat, m: nat)
    ensures DefaultEndTime(TwoDigits(h) + ":" + TwoDigits(m)) == Some(TwoDigits((h + 2) % 24) + ":" + TwoDigits(m))
  {
    TwoDigitSplit(h, m);
    NumberOfTwoDigits(h);
    NumberOfTwoDigits(m);
    DefaultEndOfNumbers(TwoDigits(h), TwoDigits(m), h, m);
  }

  // ===========================================================================
  // Booking

  /** The schedule the form builds: the committee is the student's directory
      entry, the status is upcoming and the year is the store's active year. */
  function BuildSchedule(id: string, sub: Submission, student: Student, date: string, time: string,
                         endTime: string, room: string, year: string): (r: Schedule)
    ensures r.submissionId == sub.id && r.phase == sub.phase && r.status == Upcoming
    ensures r.date == date && r.time == time && r.endTime == endTime && r.room == room
    ensures r.studentName == student.nama && r.title == student.judulSkripsi
    ensures r.pembimbing1 == student.pembimbing1 && r.pembimbing2 == student.pembimbing2
    ensures r.penguji1 == student.penguji1 && r.penguji2 == student.penguji2
  {
    Schedule(id, sub.id, sub.phase, date, time, endTime, room, student.nama, student.judulSkripsi,
             student.pembimbing1, student.pembimbing2, student.penguji1, student.penguji2, Upcoming, Some(year))
  }

  /** When the scan finds nothing, no schedule in the list objects to the new
      one: an accepted booking clashes with nobody. */
  lemma NoConflictMeansNoObjection(schedules: seq<Schedule>, n: Schedule)
    requires FirstConflict(schedules, n).None?
    ensures forall i :: 0 <= i < |schedules| ==> ConflictWith(n, schedules[i]).None?
  {
    var xs := Objections(schedules, n);
    assert forall i :: 0 <= i < |xs| ==> xs[i].None?;
  }

  /** All the form fields the booking needs are filled in. */
  predicate FormComplete(selected: Option<Submission>, student: Option<Student>, date: string, time: string,
                         endTime: string, room: string)
  {
    selected.Some? && student.Some? && date != "" && time != "" && endTime != "" && room != ""
  }

  class AdminSchedulingPage {
    const db: MockDatabase
    var readySubmissions: seq<Submission>
    var existingSchedules: seq<Schedule>
    var availableRooms: seq<string>
    var selectedSubmission: Option<Submission>
    var selectedSchedule: Option<Schedule>
    var studentDetails: Option<Student>
    var date: string
    var time: string
    var endTime: string
    var room: string
    var conflictError: Option<string>
    var newRoomName: string

    constructor(db: MockDatabase)
      ensures this.db == db
      ensures readySubmissions == [] && existingSchedules == [] && availableRooms == []
      ensures selectedSubmission.None? && selectedSchedule.None? && studentDetails.None?
      ensures date == "" && time == "" && endTime == "" && room == "" && conflictError.None? && newRoomName == ""
    {
      this.db := db;
      readySubmissions := [];
      existingSchedules := [];
      availableRooms := [];
      selectedSubmission := None;
      selectedSchedule := None;
      studentDetails := None;
      date := "";
      time := "";
      endTime := "";
      room := "";
      conflictError := None;
      newRoomName := "";
    }

    method RefreshData()
      modifies this
      ensures readySubmissions == Filter(db.submissions, IsReady)
      ensures existingSchedules == db.schedules && availableRooms == db.rooms
      ensures selectedSubmission == old(selectedSubmission) && selectedSchedule == old(selectedSchedule)
      ensures studentDetails == old(studentDetails) && conflictError == old(conflictError)
      ensures date == old(date) && time == old(time) && endTime == old(endTime) && room == old(room)
    {
      readySubmissions := Filter(db.submissions, IsReady);
      existingSchedules := db.schedules;
      availableRooms := db.rooms;
    }

    /** The directory entry looked up for the current selection (the lookup
        itself is outside the model). */
    method LoadStudentDetails(student: Option<Student>)
      modifies this
      ensures studentDetails == student
      ensures selectedSubmission == old(selectedSubmission) && selectedSchedule == old(selectedSchedule)
    {
      studentDetails := student;
    }

    /** Picking a registration from the queue clears the last conflict
        message. */
    method SelectSubmission(sub: Submission)
      modifies this
      ensures selectedSubmission == Some(sub) && conflictError.None?
      ensures selectedSchedule == old(selectedSchedule) && date == old(date) && room == old(room)
    {
      selectedSubmission := Some(sub);
      conflictError := None;
    }

    method SelectSchedule(s: Schedule)
      modifies this
      ensures selectedSchedule == Some(s) && selectedSubmission == old(selectedSubmission)
    {
      selectedSchedule := Some(s);
    }

    /** Typing a start time; a non-empty one also fills in the default end. */
    method HandleStartTimeChange(val: string)
      modifies this
      ensures time == val
      ensures val != "" && DefaultEndTime(val).Some? ==> endTime == DefaultEndTime(val).value
      ensures val == "" || DefaultEndTime(val).None? ==> endTime == old(endTime)
      ensures date == old(date) && room == old(room) && selectedSubmission == old(selectedSubmission)
    {
      time := val;
      if val != "" {
        var e := DefaultEndTime(val);
        endTime := if e.Some? then e.value else endTime;
      }
    }

    method HandleRoomChange(r: string)
      modifies this
      ensures room == r && date == old(date) && time == old(time) && endTime == old(endTime)
    {
      room := r;
    }

    method HandleDateChange(d: string)
      modifies this
      ensures date == d && room == old(room) && time == old(time) && endTime == old(endTime)
    {
      date := d;
    }

    method HandleEndTimeChange(e: string)
      modifies this
      ensures endTime == e && date == old(date) && room == old(room) && time == old(time)
    {
      endTime := e;
    }

    method HandleNewRoomNameChange(name: string)
      modifies this
      ensures newRoomName == name && room == old(room)
    {
      newRoomName := name;
    }

    /** Adding the typed room name, trimmed; a blank name adds nothing. */
    method HandleAddRoom()
      modifies this, db
      ensures Trim(old(newRoomName)) == "" ==> db.rooms == old(db.rooms) && newRoomName == old(newRoomName)
      ensures Trim(old(newRoomName)) != "" ==>
        db.rooms == WithRoom(old(db.rooms), Trim(old(newRoomName))) && newRoomName == "" && availableRooms == db.rooms
      ensures db.submissions == old(db.submissions) && db.schedules == old(db.schedules)
      ensures old(db.Valid()) ==> db.Valid()
      ensures room == old(room)
    {
      var name := Trim(newRoomName);
      if name != "" {
        db.AddRoom(name);
        newRoomName := "";
        availableRooms := db.rooms;
      }
    }

    /** Deleting a room after confirmation; a form holding that room lets it
        go. */
    method HandleDeleteRoom(r: string, confirmed: bool)
      modifies this, db
      ensures !confirmed ==> db.rooms == old(db.rooms) && room == old(room)
      ensures confirmed ==> db.rooms == WithoutRoom(old(db.rooms), r) && availableRooms == db.rooms
      ensures confirmed ==> room == if old(room) == r then "" else old(room)
      ensures r !in db.rooms || !confirmed
      ensures db.submissions == old(db.submissions) && db.schedules == old(db.schedules)
      ensures old(db.Valid()) ==> db.Valid()
    {
      if confirmed {
        db.DeleteRoom(r);
        availableRooms := db.rooms;
        if room == r {
          room := "";
        }
      }
    }

    /** A refused booking only shows its message; the form is kept. */
    method ShowConflict(msg: string)
      modifies this
      ensures conflictError == Some(msg)
      ensures selectedSubmission == old(selectedSubmission) && selectedSchedule == old(selectedSchedule)
      ensures date == old(date) && time == old(time) && endTime == old(endTime) && room == old(room)
    {
      conflictError := Some(msg);
    }

    /** Booking the selected registration: an incomplete form does nothing; a
        conflict is shown and nothing is stored; otherwise the schedule is
        stored, the registration becomes scheduled and the form is cleared. */
    method HandleSchedule(now: nat)
      modifies this, db
      ensures !old(FormComplete(selectedSubmission, studentDetails, date, time, endTime, room)) ==>
        db.schedules == old(db.schedules) && db.submissions == old(db.submissions) && conflictError == old(conflictError)
        && date == old(date) && time == old(time) && endTime == old(endTime) && room == old(room)
      ensures old(FormComplete(selectedSubmission, studentDetails, date, time, endTime, room)) ==>
        var n := BuildSchedule(NatToString(now), old(selectedSubmission).value, old(studentDetails).value,
                               old(date), old(time), old(endTime), old(room), db.activeYear);
        && (FirstConflict(old(db.schedules), n).Some? ==>
              && conflictError == Some(Message(FirstConflict(old(db.schedules), n).value))
              && db.schedules == old(db.schedules) && db.submissions == old(db.submissions)
              && selectedSubmission == old(selectedSubmission)
              && date == old(date) && time == old(time) && endTime == old(endTime) && room == old(room))
        && (FirstConflict(old(db.schedules), n).None? ==>
              && db.schedules == old(db.schedules) + [n]
              && (match SubmissionIndex(old(db.submissions), n.submissionId)
                  case None => db.submissions == old(db.submissions)
                  case Some(i) => db.submissions == old(db.submissions)[i := old(db.submissions)[i].(status := Scheduled)])
              && conflictError.None? && selectedSubmission.None?
              && date == "" && time == "" && endTime == "" && room == ""
              && existingSchedules == db.schedules)
      ensures db.CurrentSetup() == old(db.CurrentSetup())
      ensures old(db.Valid()) ==> db.Valid()
    {
      if !FormComplete(selectedSubmission, studentDetails, date, time, endTime, room) {
        return;
      }
      var newSchedule := BuildSchedule(NatToString(now), selectedSubmission.value, studentDetails.value,
                                       date, time, endTime, room, db.activeYear);
      var error := db.CheckConflict(newSchedule);
      if error.Some? {
        ShowConflict(error.value);
        return;
      }
      Book(newSchedule);
    }

    /** The success path of booking: the schedule is stored, the
        registration becomes scheduled, the lists are reloaded and the form
        is cleared. */
    method Book(n: Schedule)
      modifies this, db
      ensures db.schedules == old(db.schedules) + [n]
      ensures match SubmissionIndex(old(db.submissions), n.submissionId)
        case None => db.submissions == old(db.submissions)
        case Some(i) => db.submissions == old(db.submissions)[i := old(db.submissions)[i].(status := Scheduled)]
      ensures conflictError.None? && selectedSubmission.None?
      ensures date == "" && time == "" && endTime == "" && room == ""
      ensures existingSchedules == db.schedules
      ensures db.CurrentSetup() == old(db.CurrentSetup())
      ensures old(db.Valid()) ==> db.Valid()
    {
      db.AddSchedule(n);
      selectedSubmission := None;
      RefreshData();
      date := "";
      time := "";
      endTime := "";
      room := "";
      conflictError := None;
    }

    /** Resetting a held defense: `reason` is the answer to the prompt (None
        when cancelled); no schedule selected or no reason does nothing. */
    method HandleResetSchedule(reason: Option<string>)
      modifies this, db
      ensures old(selectedSchedule).None? || reason.None? || reason.value == "" ==>
        db.schedules == old(db.schedules) && db.submissions == old(db.submissions) && selectedSchedule == old(selectedSchedule)
      ensures old(selectedSchedule).Some? && reason.Some? && reason.value != "" ==>
        && (match ScheduleIndex(old(db.schedules), old(selectedSchedule).value.id)
            case None => db.schedules == old(db.schedules) && db.submissions == old(db.submissions)
            case Some(k) =>
              && db.schedules == WithoutSchedule(old(db.schedules), old(selectedSchedule).value.id)
              && match SubmissionIndex(old(db.submissions), old(db.schedules)[k].submissionId)
                 case None => db.submissions == old(db.submissions)
                 case Some(i) => db.submissions == old(db.submissions)[i := ResetByAdminRecord(old(db.submissions)[i], reason.value)])
        && selectedSchedule.None? && studentDetails.None? && existingSchedules == db.schedules
      ensures db.CurrentSetup() == old(db.CurrentSetup())
      ensures old(db.Valid()) ==> db.Valid()
    {
      if selectedSchedule.None? {
        return;
      }
      if reason.None? || reason.value == "" {
        return;
      }
      db.DeleteSchedule(selectedSchedule.value.id, reason.value);
      selectedSchedule := None;
      studentDetails := None;
      RefreshData();
    }

    /** Recording a passed defense for the selected schedule. */
    method HandlePassExam()
      modifies this, db
      ensures old(selectedSchedule).None? ==>
        db.schedules == old(db.schedules) && db.submissions == old(db.submissions)
      ensures old(selectedSchedule).Some? ==>
        && (match ScheduleIndex(old(db.schedules), old(selectedSchedule).value.id)
            case None => db.schedules == old(db.schedules) && db.submissions == old(db.submissions)
            case Some(k) =>
              var sched := old(db.schedules)[k];
              && db.schedules == old(db.schedules)[k := sched.(status := Completed)]
              && match SubmissionIndex(old(db.submissions), sched.submissionId)
                 case None => db.submissions == old(db.submissions)
                 case Some(i) => db.submissions == old(db.submissions)[i := old(db.submissions)[i].(status := RevisionPendingFor(old(db.submissions)[i].phase))])
        && selectedSchedule.None? && studentDetails.None? && existingSchedules == db.schedules
      ensures db.CurrentSetup() == old(db.CurrentSetup())
      ensures old(db.Valid()) ==> db.Valid()
    {
      if selectedSchedule.None? {
        return;
      }
      db.CompleteSchedule(selectedSchedule.value.id);
      selectedSchedule := None;
      studentDetails := None;
      RefreshData();
    }
  }

  // ===========================================================================
  // Conflict scenarios

  /** A lecturer named as an examiner of a blocking defense in another room
      and as an advisor of the new one is a lecturer clash. */
  lemma SharedLecturerClash(e: Schedule, n: Schedule, p: string)
    requires Blocks(n, e) && e.room != n.room
    requires Trim(e.penguji1) == p && Trim(n.pembimbing2) == p && !IsPlaceholder(p)
    ensures ConflictWith(n, e).Some? && ConflictWith(n, e).value.LecturerClash?
  {
    AdvisorIsNewPerson(n, p);
    ExaminerIsExistingPerson(e, p);
  }

  lemma AdvisorIsNewPerson(n: Schedule, p: string)
    requires Trim(n.pembimbing2) == p && !IsPlaceholder(p)
    ensures p in NewPeople(n)
  {
    assert Committee(n)[1] == p;
  }

  lemma ExaminerIsExistingPerson(e: Schedule, p: string)
    requires Trim(e.penguji1) == p && !IsPlaceholder(p)
    ensures p in ExistingPeople(e)
  {
    assert Committee(e)[2] == p;
  }
}
