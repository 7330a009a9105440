/** The application shell: which submissions need a student's attention,
    the notification dot with its remembered count and timestamp, and the
    landing page of each staff role. */
module App {
  import opened Strings
  import opened Seqs
  import opened Types
  import opened MockDb

  // ===========================================================================
  // Actionable submissions and the notification count

  /** A submission waits on its student: it was rejected, or it is in a
      revision stage with some file refused. */
  predicate Actionable(s: Submission)
    ensures Actionable(s) ==> s.status == Rejected || AnyRejected(s.validations)
  {
    if s.status == Rejected then true
    else if MentionsRevision(s.status) then AnyRejected(s.validations)
    else false
  }

  /** The statuses behind the substring test: only a rejected record, or a
      revision-stage record with a refused file, is actionable; a rejected
      record counts even with no refused file on record. */
  lemma ActionableExactly(s: Submission)
    ensures Actionable(s) <==>
      || s.status == Rejected
      || ((s.status == RevisionProposalPending || s.status == RevisionSkripsiPending) && AnyRejected(s.validations))
  {
    StatusSubstrings(s.status);
  }

  /** Upcoming sessions plus actionable submissions. */
  function NotificationCount(upcoming: seq<Schedule>, subs: seq<Submission>): (r: nat)
    ensures |upcoming| <= r <= |upcoming| + |subs|
    ensures r == |upcoming| + |Passing(subs, Actionable)|
  {
    FilterSize(subs, Actionable);
    |upcoming| + |Filter(subs, Actionable)|
  }

  /** The count exceeds the number of upcoming sessions exactly when some
      submission is actionable. */
  lemma CountAboveSessions(upcoming: seq<Schedule>, subs: seq<Submission>)
    ensures NotificationCount(upcoming, subs) > |upcoming| <==> exists i :: 0 <= i < |subs| && Actionable(subs[i])
  {
    var xs := Filter(subs, Actionable);
    if xs != [] {
      assert xs[0] in subs && Actionable(xs[0]);
      var i :| 0 <= i < |subs| && subs[i] == xs[0];
    }
  }

  // ===========================================================================
  // The notification dot

  /** The remembered count and the time it was last raised or cleared, in
      milliseconds. */
  datatype NotifState = NotifState(count: int, timestamp: int)

  const OneDayMs: int := 24 * 60 * 60 * 1000

  /** The remembered state, or a fresh zero state stamped now when nothing
      is stored. */
  function StoredOr(stored: Option<NotifState>, now: int): NotifState
  {
    if stored.Some? then stored.value else NotifState(0, now)
  }

  /** One check of the dot: whether it shows and the state remembered for
      the next check. The remembered count always becomes the current one;
      the dot shows exactly when there is something to see and the
      remembered timestamp is at most a day old; the timestamp moves to now
      when the count drops to zero or rises, and is otherwise kept. */
  function NotificationStep(stored: Option<NotifState>, count: nat, now: int): (r: (bool, NotifState))
    ensures r.1.count == count
    ensures r.0 <==> count > 0 && now - r.1.timestamp <= OneDayMs
    ensures count == 0 || count > StoredOr(stored, now).count ==> r.1.timestamp == now
    ensures count > 0 && count <= StoredOr(stored, now).count ==> r.1.timestamp == StoredOr(stored, now).timestamp
  {
    var state := StoredOr(stored, now);
    if count == 0 then (false, NotifState(0, now))
    else if count > state.count then (true, NotifState(count, now))
    else if count == state.count then (!(now - state.timestamp > OneDayMs), state)
    else (!(now - state.timestamp > OneDayMs), state.(count := count))
  }

  /** The first check with nothing stored shows the dot exactly when there
      is something to see. */
  lemma FirstCheck(count: nat, now: int)
    ensures NotificationStep(None, count, now).0 <==> count > 0
  {
  }

  /** A count that has not risen for more than a day no longer shows the
      dot. */
  lemma DotExpires(stored: NotifState, count: nat, now: int)
    requires 0 < count <= stored.count && now - stored.timestamp > OneDayMs
    ensures !NotificationStep(Some(stored), count, now).0
    ensures NotificationStep(Some(stored), count, now).1 == NotifState(count, stored.timestamp)
  {
  }

  /** Once the dot has gone out, later checks keep it out until the count
      rises or drops to zero. */
  lemma QuietStaysQuiet(stored: Option<NotifState>, c1: nat, t1: int, c2: nat, t2: int)
    requires c1 > 0 && !NotificationStep(stored, c1, t1).0
    requires 0 < c2 <= c1 && t1 <= t2
    ensures !NotificationStep(Some(NotificationStep(stored, c1, t1).1), c2, t2).0
  {
    var s1 := NotificationStep(stored, c1, t1).1;
    assert t1 - s1.timestamp > OneDayMs;
    assert NotificationStep(Some(s1), c2, t2).1.timestamp == s1.timestamp;
  }

  /** A rise in the count always shows the dot, however old the stored
      state. */
  lemma RiseShows(stored: NotifState, count: nat, now: int)
    requires count > stored.count && count > 0
    ensures NotificationStep(Some(stored), count, now) == (true, NotifState(count, now))
  {
  }

  // ===========================================================================
  // Roles and pages

  datatype Role = NoRole | MainAdmin | LibraryStaff

  datatype Page =
    | Dashboard
    | RegistrationHub
    | ScheduleStatusPage
    | ProposalForm
    | SkripsiForm
    | RevisionProposal
    | RevisionSkripsi
    | History
    | AdminValidation
    | AdminScheduling
    | AdminSettings
    | AdminReports
    | LibraryAdmin

  /** The pages only staff reach through the role switch. */
  predicate IsStaffPage(p: Page)
  {
    p.AdminValidation? || p.AdminScheduling? || p.AdminSettings? || p.AdminReports? || p.LibraryAdmin?
  }

  /** Where a role change lands: the validation desk for the main office,
      the library desk for library staff, the dashboard otherwise. */
  function LandingPage(role: Role): (p: Page)
    ensures IsStaffPage(p) <==> role != NoRole
  {
    match role
    case MainAdmin => AdminValidation
    case LibraryStaff => LibraryAdmin
    case NoRole => Dashboard
  }

  /** Distinct roles land on distinct pages. */
  lemma LandingDistinguishesRoles(a: Role, b: Role)
    requires LandingPage(a) == LandingPage(b)
    ensures a == b
  {
  }

  // ===========================================================================
  // The shell

  class AppShell {
    const db: MockDatabase
    var currentPage: Page
    var adminRole: Role
    var hasNotifications: bool
    /** The remembered notification state, absent until the first check. */
    var storedState: Option<NotifState>

    constructor(db: MockDatabase, storedState: Option<NotifState>)
      ensures this.db == db && this.storedState == storedState
      ensures currentPage == Dashboard && adminRole == NoRole && !hasNotifications
    {
      this.db := db;
      this.storedState := storedState;
      currentPage := Dashboard;
      adminRole := NoRole;
      hasNotifications := false;
    }

    /** One notification check against the store's submissions and the
        sessions due soon, which the caller supplies. */
    method CheckNotifications(upcoming: seq<Schedule>, now: int)
      modifies this
      ensures storedState.Some?
      ensures (hasNotifications, storedState.value) == NotificationStep(old(storedState), NotificationCount(upcoming, db.submissions), now)
      ensures currentPage == old(currentPage) && adminRole == old(adminRole)
    {
      var actionable := Filter(db.submissions, Actionable);
      var currentCount := |upcoming| + |actionable|;
      var state := if storedState.Some? then storedState.value else NotifState(0, now);
      var showDot := false;
      if currentCount == 0 {
        showDot := false;
        state := NotifState(0, now);
      } else if currentCount > state.count {
        showDot := true;
        state := NotifState(currentCount, now);
      } else if currentCount == state.count {
        var isExpired := now - state.timestamp > OneDayMs;
        showDot := !isExpired;
      } else {
        var isExpired := now - state.timestamp > OneDayMs;
        showDot := !isExpired;
        state := state.(count := currentCount);
      }
      storedState := Some(state);
      hasNotifications := showDot;
    }

    method HandleRoleChange(role: Role)
      modifies this
      ensures adminRole == role && currentPage == LandingPage(role)
      ensures hasNotifications == old(hasNotifications) && storedState == old(storedState)
    {
      adminRole := role;
      if role == MainAdmin {
        currentPage := AdminValidation;
      } else if role == LibraryStaff {
        currentPage := LibraryAdmin;
      } else {
        currentPage := Dashboard;
      }
    }
  }
}
