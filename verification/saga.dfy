/** The synchronous enrollment saga across the two course contexts.

    1. The learning-side `EnrollStudentHandler` validates the ids, finds the
       student, then the course, grants access, saves the course, and
       publishes the course's events through the bus.
    2. The bus hands `StudentEnrolled` to the `StudentEnrolledListener`, which
       turns it into a management-side `EnrollStudentCommand` (the date goes
       through `format('Y-m-d H:i:s')` as text).
    3. The management-side `EnrollStudentHandler` validates the ids, parses
       the date, finds the administrative course or makes a placeholder,
       records the enrollment and saves.

    Every step rethrows what it catches, so a failure in step 3 surfaces as
    the failure of step 1, after step 1's save. Repositories are maps from
    id to aggregate; the management-side store is the state of the bus's
    consumers. */
module EnrollmentSaga {
  import opened Wrappers
  import opened Errors
  import opened DomainEvents
  import opened EventBus
  import EventQueue
  import PhpText
  import opened PhpArray
  import CourseRules
  import SL = StudentLearning
  import CM = CourseManagement

  /** The library calls the handlers make, as given functions:
      `filter_var(FILTER_VALIDATE_EMAIL)`, `Uuid::isValid`,
      `format('Y-m-d H:i:s')` and `new DateTimeImmutable($text)`. */
  datatype Platform = Platform(
    isEmail: string -> bool,
    isUuid: string -> bool,
    format: Instant -> string,
    parse: string -> Option<Instant>)

  // ---------------------------------------------------------------- management side

  /** The management context's course repository, by course id. */
  type AdminStore = map<string, CM.Course>

  /** `CourseManagement\Application\Command\EnrollStudentCommand`. */
  datatype AdminCommand = AdminCommand(
    courseId: string, studentId: string, studentName: string, studentEmail: string, enrolledAt: string)

  const PlaceholderTitle: string := "Course Placeholder"
  const PlaceholderDescription: string := "Course created from enrollment event"
  const PlaceholderCapacity: int := 100

  lemma PlaceholderTitleBytes()
    ensures PhpText.ByteLength(PlaceholderTitle) == 18
  {
    assert PhpText.IsAscii(PlaceholderTitle);
    PhpText.AsciiByteLength(PlaceholderTitle);
  }

  lemma PlaceholderTitleTrimmed()
    ensures PhpText.Trim(PlaceholderTitle) == PlaceholderTitle
  {
    PhpText.TrimFixedPoint(PlaceholderTitle);
  }

  /** The placeholder's title passes the course-title rule. */
  lemma PlaceholderTitleIsValid()
    ensures CourseRules.ValidTitle(PlaceholderTitle)
  {
    PlaceholderTitleBytes();
    PlaceholderTitleTrimmed();
  }

  /** The course the management handler creates when it has none for the
      id: creating it cannot fail. */
  function PlaceholderCourse(courseId: string, now: Instant): (r: Result<CM.Course, Error>)
    ensures r.Success?
    ensures r.value.id == courseId && r.value.title == PlaceholderTitle
    ensures r.value.description == PlaceholderDescription
    ensures r.value.maxCapacity == PlaceholderCapacity && r.value.enrollments == map[]
  {
    PlaceholderTitleIsValid();
    CM.CreateCourse(now, courseId, PlaceholderTitle, PlaceholderDescription, PlaceholderCapacity)
  }

  /** The course the enrollment is recorded into: the stored one if any,
      a fresh placeholder otherwise. */
  function AdminCourseFor(store: AdminStore, courseId: string, now: Instant): (r: CM.Course)
    ensures courseId in store ==> r == store[courseId]
    ensures courseId !in store ==> Success(r) == PlaceholderCourse(courseId, now)
  {
    if courseId in store then store[courseId] else PlaceholderCourse(courseId, now).value
  }

  /** `ICourseRepository::save` on the management side: the course is stored
      under the given id, every other course stays as it was. */
  function SaveAdminCourse(store: AdminStore, courseId: string, c: CM.Course): (r: AdminStore)
    ensures r.Keys == store.Keys + {courseId}
    ensures courseId in r && r[courseId] == c
    ensures forall k :: k in store && k != courseId ==> r[k] == store[k]
  {
    store[courseId := c]
  }

  /** The management-side `EnrollStudentHandler::handle`. Ids and date are
      checked first, outside the `try`; then the enrollment is recorded and,
      only if that succeeded, the course is saved. A failure returns no store:
      nothing was saved. */
  function AdminEnroll(p: Platform, now: Instant, store: AdminStore, cmd: AdminCommand): (r: Result<AdminStore, Error>)
    ensures !p.isUuid(cmd.courseId) ==> r == Failure(InvalidUuid(cmd.courseId))
    ensures p.isUuid(cmd.courseId) && !p.isUuid(cmd.studentId) ==> r == Failure(InvalidUuid(cmd.studentId))
    ensures p.isUuid(cmd.courseId) && p.isUuid(cmd.studentId) && p.parse(cmd.enrolledAt).None? ==>
              r == Failure(DateNotParsable(cmd.enrolledAt))
    ensures r.Success? ==> r.value.Keys == store.Keys + {cmd.courseId}
    ensures r.Success? ==> forall k :: k in store && k != cmd.courseId ==> r.value[k] == store[k]
  {
    if !p.isUuid(cmd.courseId) then Failure(InvalidUuid(cmd.courseId))
    else if !p.isUuid(cmd.studentId) then Failure(InvalidUuid(cmd.studentId))
    else match p.parse(cmd.enrolledAt)
      case None => Failure(DateNotParsable(cmd.enrolledAt))
      case Some(at) =>
        var course := AdminCourseFor(store, cmd.courseId, now);
        match CM.RecordEnrollment(course, cmd.studentId, cmd.studentName, cmd.studentEmail, at, now)
        case Failure(err) => Failure(err)
        case Success(c) => Success(SaveAdminCourse(store, cmd.courseId, c))
  }

  /** The repository finds each course under its own id. */
  predicate AdminKeyedById(store: AdminStore) {
    forall k :: k in store ==> store[k].id == k
  }

  /** Past its id and date checks, the handler is `recordEnrollment` on
      the course it picks (stored or placeholder), followed by a save. */
  lemma AdminEnrollUnfolds(p: Platform, now: Instant, store: AdminStore, cmd: AdminCommand)
    requires p.isUuid(cmd.courseId) && p.isUuid(cmd.studentId) && p.parse(cmd.enrolledAt).Some?
    ensures var rec := CM.RecordEnrollment(AdminCourseFor(store, cmd.courseId, now), cmd.studentId,
                                           cmd.studentName, cmd.studentEmail, p.parse(cmd.enrolledAt).value, now);
            AdminEnroll(p, now, store, cmd)
            == if rec.Success? then Success(SaveAdminCourse(store, cmd.courseId, rec.value)) else Failure(rec.error)
  {
  }

  /** With valid ids and a parsable date, the handler succeeds exactly when
      the course it picks (stored or placeholder) has no record for the
      student and is below capacity, and otherwise fails with that course's
      refusal. */
  lemma AdminEnrollDecides(p: Platform, now: Instant, store: AdminStore, cmd: AdminCommand)
    requires p.isUuid(cmd.courseId) && p.isUuid(cmd.studentId) && p.parse(cmd.enrolledAt).Some?
    ensures var course := AdminCourseFor(store, cmd.courseId, now);
            && (AdminEnroll(p, now, store, cmd).Success? <==>
                  !CM.HasEnrollmentRecord(course, cmd.studentId) && !CM.IsAtMaxCapacity(course))
            && (CM.HasEnrollmentRecord(course, cmd.studentId) ==>
                  AdminEnroll(p, now, store, cmd) == Failure(EnrollmentRecordExists(cmd.studentId)))
            && (!CM.HasEnrollmentRecord(course, cmd.studentId) && CM.IsAtMaxCapacity(course) ==>
                  AdminEnroll(p, now, store, cmd) == Failure(CourseAtMaxCapacity(course.maxCapacity)))
  {
    AdminEnrollUnfolds(p, now, store, cmd);
  }

  /** The handler keeps the store keyed by course id: a placeholder gets
      the command's course id, and recording never changes a course's id. */
  lemma AdminEnrollKeepsKeys(p: Platform, now: Instant, store: AdminStore, cmd: AdminCommand)
    requires AdminKeyedById(store)
    requires AdminEnroll(p, now, store, cmd).Success?
    ensures AdminKeyedById(AdminEnroll(p, now, store, cmd).value)
  {
    AdminEnrollUnfolds(p, now, store, cmd);
    var course := AdminCourseFor(store, cmd.courseId, now);
    assert course.id == cmd.courseId;
    var rec := CM.RecordEnrollment(course, cmd.studentId, cmd.studentName, cmd.studentEmail,
                                   p.parse(cmd.enrolledAt).value, now);
    assert rec.value.id == cmd.courseId;
    var saved := SaveAdminCourse(store, cmd.courseId, rec.value);
    forall k | k in saved
      ensures saved[k].id == k
    {
      if k != cmd.courseId {
        assert saved[k] == store[k];
      }
    }
  }

  /** A successful run saves, under the course id, a course holding an
      active record of the command's student with the command's snapshot
      and parsed date. */
  lemma AdminEnrollRecords(p: Platform, now: Instant, store: AdminStore, cmd: AdminCommand)
    requires AdminKeyedById(store)
    requires AdminEnroll(p, now, store, cmd).Success?
    ensures var c := AdminEnroll(p, now, store, cmd).value[cmd.courseId];
            && CM.GetEnrollmentRecord(c, cmd.studentId).Some?
            && var e := CM.GetEnrollmentRecord(c, cmd.studentId).value;
               && e.status == CM.Active
               && e.studentName == cmd.studentName && e.studentEmail == cmd.studentEmail
               && Some(e.enrolledAt) == p.parse(cmd.enrolledAt)
               && e.courseId == cmd.courseId
  {
    AdminEnrollUnfolds(p, now, store, cmd);
    var course := AdminCourseFor(store, cmd.courseId, now);
    assert course.id == cmd.courseId;
    var rec := CM.RecordEnrollment(course, cmd.studentId, cmd.studentName, cmd.studentEmail,
                                   p.parse(cmd.enrolledAt).value, now);
    assert rec.value.id == cmd.courseId;
  }

  /** The management handler never creates a course the caller did not ask
      for, and a placeholder is saved only together with its first record. */
  lemma PlaceholderOnlyWithRecord(p: Platform, now: Instant, store: AdminStore, cmd: AdminCommand)
    requires cmd.courseId !in store
    requires AdminEnroll(p, now, store, cmd).Success?
    ensures var c := AdminEnroll(p, now, store, cmd).value[cmd.courseId];
            && c.title == PlaceholderTitle && c.maxCapacity == PlaceholderCapacity
            && c.enrollments.Keys == {cmd.studentId}
  {
    AdminEnrollUnfolds(p, now, store, cmd);
    var course := AdminCourseFor(store, cmd.courseId, now);
    FirstRecordOnEmptyCourse(course, cmd.studentId, cmd.studentName, cmd.studentEmail,
                             p.parse(cmd.enrolledAt).value, now);
  }

  /** A course with no records and room takes its first record, which is
      then its only one. */
  lemma FirstRecordOnEmptyCourse(course: CM.Course, studentId: string, name: string, email: string,
                                 date: Instant, now: Instant)
    requires course.enrollments == map[] && course.maxCapacity > 0
    ensures var rec := CM.RecordEnrollment(course, studentId, name, email, date, now);
            && rec.Success?
            && rec.value.title == course.title && rec.value.maxCapacity == course.maxCapacity
            && rec.value.enrollments.Keys == {studentId}
  {
    assert CM.KeysWithStatus(course.enrollments, CM.Active) == {};
  }

  // ---------------------------------------------------------------- listener

  /** The command the listener builds from the event. */
  function CommandFrom(p: Platform, e: Object): (r: AdminCommand)
    requires e.StudentEnrolled?
    ensures r.courseId == e.courseId && r.studentId == e.studentId
    ensures r.studentName == e.studentName && r.studentEmail == e.studentEmail
    ensures Lookup(ToArray(e, p.format), "enrolled_at") == Some(r.enrolledAt)
  {
    StudentEnrolledArrayRoundTrip(e, p.format, "");
    AdminCommand(e.courseId, e.studentId, e.studentName, e.studentEmail, p.format(e.enrolledAt))
  }

  /** `StudentEnrolledListener::process`: objects other than `StudentEnrolled`
      are ignored; a `StudentEnrolled` runs the management handler once, and
      its failure is rethrown as is. */
  function ListenerProcess(p: Platform, now: Instant, store: AdminStore, o: Object): (r: Result<AdminStore, Error>)
    ensures !o.StudentEnrolled? ==> r == Success(store)
    ensures o.StudentEnrolled? ==> r == AdminEnroll(p, now, store, CommandFrom(p, o))
    ensures r.Failure? ==> o.StudentEnrolled?
    ensures r.Success? && o.StudentEnrolled? ==> r.value.Keys == store.Keys + {o.courseId}
    ensures r.Success? ==> forall k :: k in store && (o.StudentEnrolled? ==> k != o.courseId) ==> r.value[k] == store[k]
  {
    if !o.StudentEnrolled? then Success(store) else AdminEnroll(p, now, store, CommandFrom(p, o))
  }

  /** Everything listening on the bus, as far as the model sees it: the
      enrollment listener (the tenant listener only logs). */
  function Listeners(p: Platform, now: Instant): Dispatcher<AdminStore> {
    (store, o) => ListenerProcess(p, now, store, o)
  }

  // ---------------------------------------------------------------- learning side

  /** The learning-side repositories and the bus whose consumers hold the
      management-side store. */
  datatype System = System(
    students: map<string, SL.Student>,
    courses: map<string, SL.Course>,
    bus: Bus<AdminStore>)

  /** `StudentLearning\Application\Command\EnrollStudentCommand`. */
  datatype EnrollCommand = EnrollCommand(courseId: string, studentId: string)

  /** Pending events are not persisted: a saved course keeps none, and a
      loaded course starts with none. */
  function Persisted(c: SL.Course): (r: SL.Course)
    ensures r.events.pending == [] && r.(events := c.events) == c
  {
    c.(events := EventQueue.Empty())
  }

  /** The learning-side `EnrollStudentHandler::handle`. The ids are checked,
      then the student is looked up, then the course; a grant failure is
      rethrown. After a grant the course is saved, then its events are
      published; a failure while publishing leaves the save in place. */
  function LearningEnroll(p: Platform, now: Instant, sys: System, cmd: EnrollCommand): (r: Outcome<System, Error>)
    ensures !p.isUuid(cmd.courseId) ==> r == Aborted(sys, InvalidUuid(cmd.courseId))
    ensures p.isUuid(cmd.courseId) && !p.isUuid(cmd.studentId) ==> r == Aborted(sys, InvalidUuid(cmd.studentId))
    ensures p.isUuid(cmd.courseId) && p.isUuid(cmd.studentId) && cmd.studentId !in sys.students ==>
              r == Aborted(sys, StudentNotFound(cmd.studentId))
    ensures (p.isUuid(cmd.courseId) && p.isUuid(cmd.studentId) && cmd.studentId in sys.students
             && cmd.courseId !in sys.courses) ==> r == Aborted(sys, CourseNotFound(cmd.courseId))
    ensures r.state.students == sys.students
    ensures r.state.courses.Keys == sys.courses.Keys
    ensures forall k :: k in sys.courses && k != cmd.courseId ==> r.state.courses[k] == sys.courses[k]
  {
    if !p.isUuid(cmd.courseId) then Aborted(sys, InvalidUuid(cmd.courseId))
    else if !p.isUuid(cmd.studentId) then Aborted(sys, InvalidUuid(cmd.studentId))
    else if cmd.studentId !in sys.students then Aborted(sys, StudentNotFound(cmd.studentId))
    else if cmd.courseId !in sys.courses then Aborted(sys, CourseNotFound(cmd.courseId))
    else
      var student := sys.students[cmd.studentId];
      var course := Persisted(sys.courses[cmd.courseId]);
      match SL.GrantLearningAccess(course, student, now)
      case Failure(err) => Aborted(sys, err)
      case Success(granted) => SaveAndPublish(p, now, sys, cmd.courseId, granted)
  }

  /** The tail of the learning handler: save the granted course, then publish
      its events. Whatever the bus does, the save stays. */
  function SaveAndPublish(p: Platform, now: Instant, sys: System, courseId: string, granted: SL.Course)
    : (r: Outcome<System, Error>)
    ensures r.state.students == sys.students
    ensures r.state.courses == sys.courses[courseId := Persisted(granted)]
    ensures var out := PublishEntity(Listeners(p, now), sys.bus, Aggregate(granted.events)).outcome;
            && r.state.bus == out.state
            && (r.Finished? <==> out.Finished?)
            && (r.Aborted? ==> r.error == out.error)
  {
    var saved := sys.(courses := sys.courses[courseId := Persisted(granted)]);
    var published := PublishEntity(Listeners(p, now), sys.bus, Aggregate(granted.events));
    match published.outcome
    case Finished(b) => Finished(saved.(bus := b))
    case Aborted(b, err) => Aborted(saved.(bus := b), err)
  }

  /** The conditions under which the learning handler reaches its grant. */
  predicate ReachesGrant(p: Platform, sys: System, cmd: EnrollCommand) {
    p.isUuid(cmd.courseId) && p.isUuid(cmd.studentId)
    && cmd.studentId in sys.students && cmd.courseId in sys.courses
  }

  /** The course as the learning handler loads it. */
  function LoadedCourse(sys: System, cmd: EnrollCommand): SL.Course
    requires cmd.courseId in sys.courses
  {
    Persisted(sys.courses[cmd.courseId])
  }

  /** The `StudentEnrolled` a successful grant hands to the bus. */
  function GrantedEvent(sys: System, cmd: EnrollCommand, now: Instant): (r: Object)
    requires cmd.courseId in sys.courses && cmd.studentId in sys.students
    ensures r.StudentEnrolled? && IsDomainEvent(r)
  {
    SL.EnrolledEvent(LoadedCourse(sys, cmd), sys.students[cmd.studentId], now)
  }

  /** Publishing a course that holds exactly one domain event is one dispatch. */
  lemma PublishOneEvent<S>(d: Dispatcher<S>, b: Bus<S>, e: Object)
    requires IsDomainEvent(e)
    ensures PublishEntity(d, b, Aggregate(EventQueue.Queue([Obj(e)]))).outcome == Dispatch(d, b, e)
  {
    PublishEntityOfOne(d, b, Obj(e));
  }

  /** A failure before the grant, or of the grant itself, leaves every store
      and the bus untouched. */
  lemma EarlyFailureChangesNothing(p: Platform, now: Instant, sys: System, cmd: EnrollCommand)
    requires !ReachesGrant(p, sys, cmd)
             || SL.GrantLearningAccess(LoadedCourse(sys, cmd), sys.students[cmd.studentId], now).Failure?
    ensures LearningEnroll(p, now, sys, cmd).Aborted?
    ensures LearningEnroll(p, now, sys, cmd).state == sys
    ensures ReachesGrant(p, sys, cmd) ==>
              LearningEnroll(p, now, sys, cmd).error
              == SL.GrantLearningAccess(LoadedCourse(sys, cmd), sys.students[cmd.studentId], now).error
  {
  }

  /** The saga's central property: when the management step fails after a
      successful grant, the learning side has ALREADY saved the grant, the
      management store and the delivered log are as before, and the caller
      sees exactly the management step's error. */
  lemma AdminFailureKeepsLearningGrant(p: Platform, now: Instant, sys: System, cmd: EnrollCommand)
    requires ReachesGrant(p, sys, cmd)
    requires SL.GrantLearningAccess(LoadedCourse(sys, cmd), sys.students[cmd.studentId], now).Success?
    requires AdminEnroll(p, now, sys.bus.consumers, CommandFrom(p, GrantedEvent(sys, cmd, now))).Failure?
    ensures var r := LearningEnroll(p, now, sys, cmd);
            && r.Aborted?
            && r.error == AdminEnroll(p, now, sys.bus.consumers, CommandFrom(p, GrantedEvent(sys, cmd, now))).error
            && SL.HasLearningAccess(r.state.courses[cmd.courseId], sys.students[cmd.studentId].id)
            && r.state.courses[cmd.courseId]
               == Persisted(SL.GrantLearningAccess(LoadedCourse(sys, cmd), sys.students[cmd.studentId], now).value)
            && r.state.bus == sys.bus
  {
    var granted := SL.GrantLearningAccess(LoadedCourse(sys, cmd), sys.students[cmd.studentId], now).value;
    assert granted.events.pending == [Obj(GrantedEvent(sys, cmd, now))];
    assert granted.events == EventQueue.Queue([Obj(GrantedEvent(sys, cmd, now))]);
    PublishOneEvent(Listeners(p, now), sys.bus, GrantedEvent(sys, cmd, now));
  }

  /** When the whole saga succeeds, both contexts know the student: the
      learning course grants access, the management course holds an active
      record with the same snapshot, dated by the round trip of the grant
      time through `format` and `parse`, and the bus delivered exactly the
      one `StudentEnrolled`. */
  lemma SagaSuccessIsConsistent(p: Platform, now: Instant, sys: System, cmd: EnrollCommand)
    requires ReachesGrant(p, sys, cmd)
    requires sys.courses[cmd.courseId].id == cmd.courseId && sys.students[cmd.studentId].id == cmd.studentId
    requires AdminKeyedById(sys.bus.consumers)
    requires LearningEnroll(p, now, sys, cmd).Finished?
    ensures var r := LearningEnroll(p, now, sys, cmd);
            var s := sys.students[cmd.studentId];
            && SL.HasLearningAccess(r.state.courses[cmd.courseId], cmd.studentId)
            && cmd.courseId in r.state.bus.consumers
            && CM.GetEnrollmentRecord(r.state.bus.consumers[cmd.courseId], cmd.studentId).Some?
            && var e := CM.GetEnrollmentRecord(r.state.bus.consumers[cmd.courseId], cmd.studentId).value;
               && e.status == CM.Active && e.courseId == cmd.courseId
               && e.studentName == s.name && e.studentEmail == s.email
               && Some(e.enrolledAt) == p.parse(p.format(now))
               && r.state.bus.delivered == sys.bus.delivered + [GrantedEvent(sys, cmd, now)]
  {
    var granted := SL.GrantLearningAccess(LoadedCourse(sys, cmd), sys.students[cmd.studentId], now).value;
    var ev := GrantedEvent(sys, cmd, now);
    assert granted.events == EventQueue.Queue([Obj(ev)]);
    PublishOneEvent(Listeners(p, now), sys.bus, ev);
    var acmd := CommandFrom(p, ev);
    AdminEnrollRecords(p, now, sys.bus.consumers, acmd);
  }

  /** The saga succeeds exactly when the grant and the management step both
      do; the management step is then run on the event the grant produced. */
  lemma SagaSucceedsIffBothSteps(p: Platform, now: Instant, sys: System, cmd: EnrollCommand)
    requires ReachesGrant(p, sys, cmd)
    ensures LearningEnroll(p, now, sys, cmd).Finished? <==>
              && SL.GrantLearningAccess(LoadedCourse(sys, cmd), sys.students[cmd.studentId], now).Success?
              && AdminEnroll(p, now, sys.bus.consumers, CommandFrom(p, GrantedEvent(sys, cmd, now))).Success?
  {
    var g := SL.GrantLearningAccess(LoadedCourse(sys, cmd), sys.students[cmd.studentId], now);
    if g.Success? {
      assert g.value.events == EventQueue.Queue([Obj(GrantedEvent(sys, cmd, now))]);
      PublishOneEvent(Listeners(p, now), sys.bus, GrantedEvent(sys, cmd, now));
    }
  }

  // ---------------------------------------------------------------- partial enrollment

  /** A run in which the management step refuses the event. The learning
      course has room and does not know the student; the management course
      under the same id already holds a (dropped) record for them. The ids
      "c1" and "s1" stand for valid UUIDs: this platform's `isUuid` accepts
      them as such, and `AdminFailureKeepsLearningGrant` covers real ones. */
  function WitnessPlatform(): Platform {
    Platform((s: string) => true, (s: string) => true, (t: Instant) => "2024-01-01 00:00:00", (s: string) => Some(0))
  }

  function WitnessSystem(): System {
    var student := SL.Student("s1", "Ada", "ada@example.org", 0, 0);
    var course := SL.Course("c1", "Algebra", 100, map[], 0, 0, EventQueue.Empty());
    var record := CM.Enrollment("s1", "c1", "Ada", "ada@example.org", CM.Dropped, 0, 0, None, Some(0));
    var admin := CM.Course("c1", "Algebra", "", 100, None, map["s1" := record], 0, 0);
    System(map["s1" := student], map["c1" := course], Bus(map["c1" := admin], []))
  }

  /** The handler as written reports the management step's refusal to its
      caller, yet the learning course it saved now grants the student
      access: the enrollment has failed and stuck at the same time. */
  lemma PartialEnrollmentWitness()
    ensures var sys := WitnessSystem();
            var r := LearningEnroll(WitnessPlatform(), 0, sys, EnrollCommand("c1", "s1"));
            && !SL.HasLearningAccess(sys.courses["c1"], "s1")
            && r.Aborted? && r.error == EnrollmentRecordExists("s1")
            && SL.HasLearningAccess(r.state.courses["c1"], "s1")
  {
    var p := WitnessPlatform();
    var sys := WitnessSystem();
    var cmd := EnrollCommand("c1", "s1");
    assert ReachesGrant(p, sys, cmd);
    assert !SL.IsAtCapacity(LoadedCourse(sys, cmd));
    var acmd := CommandFrom(p, GrantedEvent(sys, cmd, 0));
    assert acmd.courseId == "c1" && acmd.studentId == "s1";
    AdminEnrollDecides(p, 0, sys.bus.consumers, acmd);
    AdminFailureKeepsLearningGrant(p, 0, sys, cmd);
  }

  /** The learning handler with the save moved after publishing, so that a
      refusal anywhere in the saga leaves the learning courses as they were.
      Success is unchanged. */
  function AtomicLearningEnroll(p: Platform, now: Instant, sys: System, cmd: EnrollCommand): (r: Outcome<System, Error>)
    ensures r.Aborted? ==> r.state.courses == sys.courses && r.state.students == sys.students
    ensures r.Finished? ==> r.state.students == sys.students && r.state.courses.Keys == sys.courses.Keys
  {
    if !ReachesGrant(p, sys, cmd) then LearningEnroll(p, now, sys, cmd)
    else
      var student := sys.students[cmd.studentId];
      match SL.GrantLearningAccess(LoadedCourse(sys, cmd), student, now)
      case Failure(err) => Aborted(sys, err)
      case Success(granted) =>
        var published := PublishEntity(Listeners(p, now), sys.bus, Aggregate(granted.events));
        match published.outcome
        case Finished(b) => Finished(sys.(courses := sys.courses[cmd.courseId := Persisted(granted)], bus := b))
        case Aborted(b, err) => Aborted(sys.(bus := b), err)
  }

  /** The corrected handler agrees with the one as written on whether the
      saga succeeds, on the state it then leaves, and on the error it
      reports otherwise; only the learning courses after a failure
      differ. */
  lemma AtomicEnrollAgrees(p: Platform, now: Instant, sys: System, cmd: EnrollCommand)
    ensures var a := AtomicLearningEnroll(p, now, sys, cmd);
            var w := LearningEnroll(p, now, sys, cmd);
            && (a.Finished? <==> w.Finished?)
            && (a.Finished? ==> a == w)
            && (a.Aborted? ==> a.error == w.error && a.state == w.state.(courses := sys.courses))
  {
  }

  /** With the save moved, the witness run fails with the same error and
      the student has no learning access. */
  lemma AtomicEnrollRejectsWitness()
    ensures var r := AtomicLearningEnroll(WitnessPlatform(), 0, WitnessSystem(), EnrollCommand("c1", "s1"));
            && r.Aborted? && r.error == EnrollmentRecordExists("s1")
            && !SL.HasLearningAccess(r.state.courses["c1"], "s1")
  {
    PartialEnrollmentWitness();
    AtomicEnrollAgrees(WitnessPlatform(), 0, WitnessSystem(), EnrollCommand("c1", "s1"));
  }
}
