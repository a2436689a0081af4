/** The course-management bounded context: administrative enrollment records.

    An `Enrollment` is a record of one student in one course, with a status
    that moves through a small state machine. The administrative `Course`
    keeps these records keyed by student id; only ACTIVE records count
    against its capacity. Every `new DateTimeImmutable()` becomes the `now`
    parameter. */
module CourseManagement {
  import opened Wrappers
  import opened Errors
  import opened PhpText
  import opened DomainEvents
  import opened CourseRules

  // ---------------------------------------------------------------- EnrollmentStatus

  datatype EnrollmentStatus = Active | Completed | Dropped | Suspended

  /** The enum's backing value, `toString()`. */
  function StatusToString(s: EnrollmentStatus): (r: string)
    ensures forall i :: 0 <= i < |r| ==> 'a' <= r[i] <= 'z'
  {
    match s
    case Active => "active"
    case Completed => "completed"
    case Dropped => "dropped"
    case Suspended => "suspended"
  }

  /** `EnrollmentStatus::fromString`: matches the lower-cased input against
      the four backing values. */
  function StatusFromString(value: string): (r: Result<EnrollmentStatus, Error>)
    ensures r.Failure? ==> r.error == InvalidEnrollmentStatus(value)
    ensures r.Success? <==> ToLower(value) in {"active", "completed", "dropped", "suspended"}
    ensures r.Success? ==> StatusToString(r.value) == ToLower(value)
  {
    match ToLower(value)
    case "active" => Success(Active)
    case "completed" => Success(Completed)
    case "dropped" => Success(Dropped)
    case "suspended" => Success(Suspended)
    case _ => Failure(InvalidEnrollmentStatus(value))
  }

  /** Printing then parsing gives the status back, and parsing ignores ASCII
      case: any spelling that lower-cases to a status name is that status. */
  lemma StatusRoundTrip(s: EnrollmentStatus, spelling: string)
    requires ToLower(spelling) == StatusToString(s)
    ensures StatusFromString(StatusToString(s)) == Success(s)
    ensures StatusFromString(spelling) == Success(s)
  {
    var t := StatusToString(s);
    assert ToLower(t) == t;
  }

  predicate IsActive(s: EnrollmentStatus) { s == Active }
  predicate IsCompleted(s: EnrollmentStatus) { s == Completed }
  predicate IsDropped(s: EnrollmentStatus) { s == Dropped }
  predicate IsSuspended(s: EnrollmentStatus) { s == Suspended }

  /** `canAttendClasses()`. */
  predicate CanAttendClasses(s: EnrollmentStatus) { s == Active }

  /** Exactly one of the four status predicates holds, and attending classes
      is the same as being active. */
  lemma ExactlyOneStatus(s: EnrollmentStatus)
    ensures (if IsActive(s) then 1 else 0) + (if IsCompleted(s) then 1 else 0)
          + (if IsDropped(s) then 1 else 0) + (if IsSuspended(s) then 1 else 0) == 1
    ensures CanAttendClasses(s) <==> IsActive(s)
  {
  }

  // ---------------------------------------------------------------- Enrollment

  datatype Enrollment = Enrollment(
    studentId: string,
    courseId: string,
    studentName: string,
    studentEmail: string,
    status: EnrollmentStatus,
    enrolledAt: Instant,
    updatedAt: Instant,
    completedAt: Option<Instant>,
    droppedAt: Option<Instant>)

  /** `Enrollment::create`: a fresh record is active and has neither a
      completion nor a drop date. */
  function CreateEnrollment(studentId: string, courseId: string, name: string, email: string,
                            enrolledAt: Instant, now: Instant): (r: Enrollment)
    ensures IsActive(r.status) && r.completedAt.None? && r.droppedAt.None?
    ensures SameIdentity(r, Enrollment(studentId, courseId, name, email, Active, enrolledAt, now, None, None))
    ensures r.updatedAt == now
  {
    Enrollment(studentId, courseId, name, email, Active, enrolledAt, now, None, None)
  }

  /** `Enrollment::reconstitute` takes every field as stored. */
  function ReconstituteEnrollment(studentId: string, courseId: string, name: string, email: string,
                                  status: EnrollmentStatus, enrolledAt: Instant, updatedAt: Instant,
                                  completedAt: Option<Instant>, droppedAt: Option<Instant>): (r: Enrollment)
    ensures r.status == status && r.completedAt == completedAt && r.droppedAt == droppedAt
    ensures r.studentId == studentId && r.courseId == courseId && r.enrolledAt == enrolledAt
    ensures r.studentName == name && r.studentEmail == email && r.updatedAt == updatedAt
  {
    Enrollment(studentId, courseId, name, email, status, enrolledAt, updatedAt, completedAt, droppedAt)
  }

  /** The fields the source declares `readonly`. */
  predicate SameIdentity(a: Enrollment, b: Enrollment) {
    && a.studentId == b.studentId && a.courseId == b.courseId
    && a.studentName == b.studentName && a.studentEmail == b.studentEmail
    && a.enrolledAt == b.enrolledAt
  }

  /** The four status changes an enrollment offers. */
  datatype Transition = Complete | Drop | Suspend | Reactivate

  /** The state machine as a table: which status each transition leaves
      from, and where it goes. */
  predicate Allowed(from: EnrollmentStatus, t: Transition) {
    match t
    case Complete => from == Active
    case Drop => from == Active || from == Suspended
    case Suspend => from == Active
    case Reactivate => from == Suspended
  }

  function Target(t: Transition): EnrollmentStatus {
    match t
    case Complete => Completed
    case Drop => Dropped
    case Suspend => Suspended
    case Reactivate => Active
  }

  /** `complete()`. */
  function CompleteEnrollment(e: Enrollment, now: Instant): (r: Result<Enrollment, Error>)
    ensures r.Success? <==> IsActive(e.status)
    ensures r.Failure? ==> r.error == OnlyActiveCanComplete
    ensures r.Success? ==> r.value == e.(status := Completed, completedAt := Some(now), updatedAt := now)
  {
    if !IsActive(e.status) then Failure(OnlyActiveCanComplete)
    else Success(e.(status := Completed, completedAt := Some(now), updatedAt := now))
  }

  /** `drop()`: the completed check comes before the already-dropped check. */
  function DropEnrollment(e: Enrollment, now: Instant): (r: Result<Enrollment, Error>)
    ensures r.Success? <==> IsActive(e.status) || IsSuspended(e.status)
    ensures IsCompleted(e.status) ==> r == Failure(CannotDropCompleted)
    ensures IsDropped(e.status) ==> r == Failure(AlreadyDropped)
    ensures r.Success? ==> r.value == e.(status := Dropped, droppedAt := Some(now), updatedAt := now)
  {
    if IsCompleted(e.status) then Failure(CannotDropCompleted)
    else if IsDropped(e.status) then Failure(AlreadyDropped)
    else Success(e.(status := Dropped, droppedAt := Some(now), updatedAt := now))
  }

  /** `suspend()`. */
  function SuspendEnrollment(e: Enrollment, now: Instant): (r: Result<Enrollment, Error>)
    ensures r.Success? <==> IsActive(e.status)
    ensures r.Failure? ==> r.error == OnlyActiveCanSuspend
    ensures r.Success? ==> r.value == e.(status := Suspended, updatedAt := now)
  {
    if !IsActive(e.status) then Failure(OnlyActiveCanSuspend)
    else Success(e.(status := Suspended, updatedAt := now))
  }

  /** `reactivate()`. */
  function ReactivateEnrollment(e: Enrollment, now: Instant): (r: Result<Enrollment, Error>)
    ensures r.Success? <==> IsSuspended(e.status)
    ensures r.Failure? ==> r.error == OnlySuspendedCanReactivate
    ensures r.Success? ==> r.value == e.(status := Active, updatedAt := now)
  {
    if !IsSuspended(e.status) then Failure(OnlySuspendedCanReactivate)
    else Success(e.(status := Active, updatedAt := now))
  }

  function Apply(e: Enrollment, t: Transition, now: Instant): Result<Enrollment, Error> {
    match t
    case Complete => CompleteEnrollment(e, now)
    case Drop => DropEnrollment(e, now)
    case Suspend => SuspendEnrollment(e, now)
    case Reactivate => ReactivateEnrollment(e, now)
  }

  /** The four methods implement the transition table: a transition succeeds
      exactly when the table allows it, lands on the table's target, keeps
      the record's identity, and sets a completion or drop date only when it
      completes or drops. */
  lemma TransitionsFollowTable(e: Enrollment, t: Transition, now: Instant)
    ensures Apply(e, t, now).Success? <==> Allowed(e.status, t)
    ensures Apply(e, t, now).Success? ==>
              && Apply(e, t, now).value.status == Target(t)
              && SameIdentity(Apply(e, t, now).value, e)
              && Apply(e, t, now).value.updatedAt == now
              && Apply(e, t, now).value.completedAt == (if t == Complete then Some(now) else e.completedAt)
              && Apply(e, t, now).value.droppedAt == (if t == Drop then Some(now) else e.droppedAt)
  {
  }

  /** Completed and dropped are terminal: every transition out of them fails. */
  lemma TerminalStatuses(e: Enrollment, t: Transition, now: Instant)
    requires IsCompleted(e.status) || IsDropped(e.status)
    ensures Apply(e, t, now).Failure?
  {
    TransitionsFollowTable(e, t, now);
  }

  /** Applies transitions in turn; a failing one leaves the record as it was
      and the run goes on, as a caller catching the exception would. */
  function ApplyAll(e: Enrollment, ts: seq<Transition>, now: Instant): Enrollment
    decreases |ts|
  {
    if ts == [] then e
    else
      var r := Apply(e, ts[0], now);
      ApplyAll(if r.Success? then r.value else e, ts[1..], now)
  }

  /** No sequence of transitions changes who is enrolled where, the snapshot
      of name and e-mail, or the enrollment date; and once a record reaches
      completed or dropped it stays there. */
  lemma {:induction false} LifecycleKeepsIdentity(e: Enrollment, ts: seq<Transition>, now: Instant)
    ensures SameIdentity(ApplyAll(e, ts, now), e)
    ensures IsCompleted(e.status) || IsDropped(e.status) ==> ApplyAll(e, ts, now) == e
    decreases |ts|
  {
    if ts != [] {
      var r := Apply(e, ts[0], now);
      TransitionsFollowTable(e, ts[0], now);
      var e1 := if r.Success? then r.value else e;
      LifecycleKeepsIdentity(e1, ts[1..], now);
    }
  }

  /** Suspending and then reactivating restores an active record, changing
      nothing but its update time. */
  lemma SuspendThenReactivate(e: Enrollment, now1: Instant, now2: Instant)
    requires IsActive(e.status)
    ensures SuspendEnrollment(e, now1).Success?
    ensures ReactivateEnrollment(SuspendEnrollment(e, now1).value, now2) == Success(e.(updatedAt := now2))
  {
  }

  // ---------------------------------------------------------------- Course

  datatype Course = Course(
    id: string,
    title: string,
    description: string,
    maxCapacity: int,
    instructorId: Option<string>,
    enrollments: map<string, Enrollment>,
    createdAt: Instant,
    updatedAt: Instant)

  const DefaultMaxCapacity: int := 100

  predicate ValidMaxCapacity(n: int) {
    0 < n <= SeatLimit
  }

  function MaxCapacityError(n: int): (r: Option<Error>)
    ensures r.None? <==> ValidMaxCapacity(n)
  {
    if n <= 0 then Some(MaxCapacityNotPositive)
    else if n > SeatLimit then Some(MaxCapacityTooLarge)
    else None
  }

  /** The private constructor: title first, then capacity; no records yet. */
  function NewCourse(id: string, title: string, description: string, maxCapacity: int,
                     instructorId: Option<string>, createdAt: Instant, updatedAt: Instant): (r: Result<Course, Error>)
    ensures r.Success? <==> ValidTitle(title) && ValidMaxCapacity(maxCapacity)
    ensures !ValidTitle(title) ==> r == Failure(TitleError(title).value)
    ensures ValidTitle(title) && !ValidMaxCapacity(maxCapacity) ==> r == Failure(MaxCapacityError(maxCapacity).value)
    ensures r.Success? ==> r.value == Course(id, title, description, maxCapacity, instructorId, map[], createdAt, updatedAt)
  {
    if TitleError(title).Some? then Failure(TitleError(title).value)
    else if MaxCapacityError(maxCapacity).Some? then Failure(MaxCapacityError(maxCapacity).value)
    else Success(Course(id, title, description, maxCapacity, instructorId, map[], createdAt, updatedAt))
  }

  /** `Course::create`: capacity defaults to 100, no instructor. */
  function CreateCourse(now: Instant, id: string, title: string, description: string,
                        maxCapacity: int := DefaultMaxCapacity, instructorId: Option<string> := None): (r: Result<Course, Error>)
    ensures r.Success? <==> ValidTitle(title) && ValidMaxCapacity(maxCapacity)
    ensures r.Success? ==> r.value.id == id && r.value.title == title && r.value.description == description
    ensures r.Success? ==> r.value.enrollments == map[] && r.value.maxCapacity == maxCapacity
    ensures r.Success? ==> r.value.instructorId == instructorId && r.value.createdAt == now == r.value.updatedAt
  {
    NewCourse(id, title, description, maxCapacity, instructorId, now, now)
  }

  /** `Course::reconstitute`: the stored records are taken as they are. */
  function ReconstituteCourse(id: string, title: string, description: string, maxCapacity: int,
                              instructorId: Option<string>, enrollments: map<string, Enrollment>,
                              createdAt: Instant, updatedAt: Instant): (r: Result<Course, Error>)
    ensures r.Success? <==> ValidTitle(title) && ValidMaxCapacity(maxCapacity)
    ensures r.Success? ==> r.value.enrollments == enrollments && r.value.maxCapacity == maxCapacity
    ensures r.Success? ==> r.value.id == id && r.value.title == title && r.value.description == description
    ensures r.Success? ==> r.value.instructorId == instructorId
    ensures r.Success? ==> r.value.createdAt == createdAt && r.value.updatedAt == updatedAt
  {
    match NewCourse(id, title, description, maxCapacity, instructorId, createdAt, updatedAt)
    case Failure(err) => Failure(err)
    case Success(c) => Success(c.(enrollments := enrollments))
  }

  predicate HasEnrollmentRecord(c: Course, studentId: string) {
    studentId in c.enrollments
  }

  /** `getEnrollmentRecord()`: the record, or null. */
  function GetEnrollmentRecord(c: Course, studentId: string): (r: Option<Enrollment>)
    ensures r.Some? <==> HasEnrollmentRecord(c, studentId)
    ensures r.Some? ==> r.value == c.enrollments[studentId]
  {
    if studentId in c.enrollments then Some(c.enrollments[studentId]) else None
  }

  /** The ids of the records with status `s`: the keys `array_filter` keeps. */
  function KeysWithStatus(m: map<string, Enrollment>, s: EnrollmentStatus): (r: set<string>)
    ensures r <= m.Keys
    ensures forall k :: k in r <==> k in m && m[k].status == s
  {
    set k | k in m && m[k].status == s
  }

  /** `array_filter($this->enrollments, ...)` on one status: the sub-map. */
  function EnrollmentsWithStatus(c: Course, s: EnrollmentStatus): (r: map<string, Enrollment>)
    ensures r.Keys == KeysWithStatus(c.enrollments, s)
    ensures forall k :: k in r ==> r[k] == c.enrollments[k] && r[k].status == s
  {
    map k | k in KeysWithStatus(c.enrollments, s) :: c.enrollments[k]
  }

  function CountWithStatus(c: Course, s: EnrollmentStatus): nat {
    |KeysWithStatus(c.enrollments, s)|
  }

  function CountActive(c: Course): nat { CountWithStatus(c, Active) }
  function CountCompleted(c: Course): nat { CountWithStatus(c, Completed) }
  function CountDropped(c: Course): nat { CountWithStatus(c, Dropped) }
  function CountSuspended(c: Course): nat { CountWithStatus(c, Suspended) }

  function TotalEnrollmentCount(c: Course): nat {
    |c.enrollments|
  }

  /** The getters for the active, completed and dropped record lists. */
  function ActiveEnrollments(c: Course): (r: map<string, Enrollment>)
    ensures forall k :: k in r <==> k in c.enrollments && c.enrollments[k].status == Active
    ensures forall k :: k in r ==> r[k] == c.enrollments[k]
    ensures |r| == CountActive(c)
  {
    EnrollmentsWithStatus(c, Active)
  }

  function CompletedEnrollments(c: Course): (r: map<string, Enrollment>)
    ensures forall k :: k in r <==> k in c.enrollments && c.enrollments[k].status == Completed
    ensures forall k :: k in r ==> r[k] == c.enrollments[k]
    ensures |r| == CountCompleted(c)
  {
    EnrollmentsWithStatus(c, Completed)
  }

  function DroppedEnrollments(c: Course): (r: map<string, Enrollment>)
    ensures forall k :: k in r <==> k in c.enrollments && c.enrollments[k].status == Dropped
    ensures forall k :: k in r ==> r[k] == c.enrollments[k]
    ensures |r| == CountDropped(c)
  {
    EnrollmentsWithStatus(c, Dropped)
  }

  predicate IsAtMaxCapacity(c: Course) {
    CountActive(c) >= c.maxCapacity
  }

  function AvailableCapacity(c: Course): (r: int)
    ensures r <= 0 <==> IsAtMaxCapacity(c)
    ensures r + CountActive(c) == c.maxCapacity
  {
    c.maxCapacity - CountActive(c)
  }

  datatype Statistics = Statistics(active: nat, completed: nat, dropped: nat, suspended: nat, total: nat)

  /** `getEnrollmentStatistics()`: the four per-status counts add up to the
      total, whatever the records are. */
  function EnrollmentStatistics(c: Course): (r: Statistics)
    ensures r.active + r.completed + r.dropped + r.suspended == r.total
    ensures r.total == |c.enrollments|
    ensures r.active == |ActiveEnrollments(c)| && r.completed == |CompletedEnrollments(c)|
    ensures r.dropped == |DroppedEnrollments(c)|
  {
    StatusCountsPartition(c.enrollments);
    Statistics(CountActive(c), CountCompleted(c), CountDropped(c), CountSuspended(c), TotalEnrollmentCount(c))
  }

  /** The four status classes partition the records. */
  lemma StatusCountsPartition(m: map<string, Enrollment>)
    ensures |KeysWithStatus(m, Active)| + |KeysWithStatus(m, Completed)|
          + |KeysWithStatus(m, Dropped)| + |KeysWithStatus(m, Suspended)| == |m|
  {
    var a, c, d, s := KeysWithStatus(m, Active), KeysWithStatus(m, Completed),
                      KeysWithStatus(m, Dropped), KeysWithStatus(m, Suspended);
    assert a * c == {} && (a + c) * d == {} && (a + c + d) * s == {};
    assert a + c + d + s == m.Keys;
  }

  /** `recordEnrollment(...)`: an existing record for the student is refused
      first; then the ACTIVE count is checked against the capacity; on success
      a fresh active record, keyed by the student id and carrying this
      course's id, is added. */
  function RecordEnrollment(c: Course, studentId: string, name: string, email: string,
                            enrolledAt: Instant, now: Instant): (r: Result<Course, Error>)
    ensures r.Failure? <==> HasEnrollmentRecord(c, studentId) || IsAtMaxCapacity(c)
    ensures HasEnrollmentRecord(c, studentId) ==> r == Failure(EnrollmentRecordExists(studentId))
    ensures !HasEnrollmentRecord(c, studentId) && IsAtMaxCapacity(c) ==> r == Failure(CourseAtMaxCapacity(c.maxCapacity))
    ensures r.Success? ==> r.value.enrollments == c.enrollments[studentId := CreateEnrollment(studentId, c.id, name, email, enrolledAt, now)]
    ensures r.Success? ==> r.value.(enrollments := c.enrollments, updatedAt := c.updatedAt) == c
  {
    if HasEnrollmentRecord(c, studentId) then Failure(EnrollmentRecordExists(studentId))
    else if IsAtMaxCapacity(c) then Failure(CourseAtMaxCapacity(c.maxCapacity))
    else Success(c.(enrollments := c.enrollments[studentId := CreateEnrollment(studentId, c.id, name, email, enrolledAt, now)],
                    updatedAt := now))
  }

  /** A successful record adds one to the total and to the active count and
      leaves the completed, dropped and suspended counts as they were; the
      new record is active, dated as given, and in this course. */
  lemma RecordEnrollmentCounts(c: Course, studentId: string, name: string, email: string,
                               enrolledAt: Instant, now: Instant)
    requires RecordEnrollment(c, studentId, name, email, enrolledAt, now).Success?
    ensures var c' := RecordEnrollment(c, studentId, name, email, enrolledAt, now).value;
            && TotalEnrollmentCount(c') == TotalEnrollmentCount(c) + 1
            && CountActive(c') == CountActive(c) + 1
            && CountCompleted(c') == CountCompleted(c)
            && CountDropped(c') == CountDropped(c)
            && CountSuspended(c') == CountSuspended(c)
            && GetEnrollmentRecord(c', studentId).Some?
            && var e := GetEnrollmentRecord(c', studentId).value;
               e.status == Active && e.courseId == c.id && e.enrolledAt == enrolledAt
               && e.studentName == name && e.studentEmail == email
  {
    var c' := RecordEnrollment(c, studentId, name, email, enrolledAt, now).value;
    assert KeysWithStatus(c'.enrollments, Active) == KeysWithStatus(c.enrollments, Active) + {studentId};
    assert KeysWithStatus(c'.enrollments, Completed) == KeysWithStatus(c.enrollments, Completed);
    assert KeysWithStatus(c'.enrollments, Dropped) == KeysWithStatus(c.enrollments, Dropped);
    assert KeysWithStatus(c'.enrollments, Suspended) == KeysWithStatus(c.enrollments, Suspended);
  }

  /** Only active records take a seat: a full course accepts a new record
      again once one of its active records is completed, dropped or
      suspended. */
  lemma InactiveRecordsFreeSeats(c: Course, k: string, t: Transition, now: Instant)
    requires k in c.enrollments && IsActive(c.enrollments[k].status)
    requires t != Reactivate
    requires Apply(c.enrollments[k], t, now).Success?
    ensures var c' := c.(enrollments := c.enrollments[k := Apply(c.enrollments[k], t, now).value]);
            CountActive(c') + 1 == CountActive(c) && AvailableCapacity(c') == AvailableCapacity(c) + 1
  {
    var c' := c.(enrollments := c.enrollments[k := Apply(c.enrollments[k], t, now).value]);
    TransitionsFollowTable(c.enrollments[k], t, now);
    assert KeysWithStatus(c.enrollments, Active) == KeysWithStatus(c'.enrollments, Active) + {k};
  }

  /** `updateInfo(...)`: the title is validated before anything is assigned;
      capacity and records are never touched. */
  function UpdateCourseInfo(c: Course, title: string, description: string,
                            instructorId: Option<string>, now: Instant): (r: Result<Course, Error>)
    ensures r.Success? <==> ValidTitle(title)
    ensures r.Failure? ==> r.error == TitleError(title).value
    ensures r.Success? ==> r.value.title == title && r.value.description == description
                           && r.value.instructorId == instructorId && r.value.updatedAt == now
    ensures r.Success? ==> r.value.id == c.id && r.value.maxCapacity == c.maxCapacity
                           && r.value.enrollments == c.enrollments && r.value.createdAt == c.createdAt
  {
    if TitleError(title).Some? then Failure(TitleError(title).value)
    else Success(c.(title := title, description := description, instructorId := instructorId, updatedAt := now))
  }
}
