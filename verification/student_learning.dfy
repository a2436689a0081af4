/** The learning-access bounded context: who may see a course's material.

    `Student` is a learner identity, `EnrollmentDate` the moment access was
    granted, and `Course` the aggregate root holding, per student id, the
    student snapshot and the date access was granted. Granting access records
    a `StudentEnrolled` event on the course's pending queue. Clock reads become
    a `now` parameter; `filter_var(..., FILTER_VALIDATE_EMAIL)` becomes the
    `isEmail` parameter. */
module StudentLearning {
  import opened Wrappers
  import opened Errors
  import opened PhpText
  import opened DomainEvents
  import opened CourseRules
  import EventQueue

  // ---------------------------------------------------------------- EnrollmentDate

  datatype EnrollmentDate = EnrollmentDate(value: Instant)

  /** `EnrollmentDate::fromDateTime($value)` validated against the clock. */
  function EnrollmentDateOf(value: Instant, now: Instant): (r: Result<EnrollmentDate, Error>)
    ensures r.Failure? <==> value > now
    ensures r.Failure? ==> r.error == EnrollmentDateInFuture
    ensures r.Success? ==> ToDateTime(r.value) == value
  {
    if value > now then Failure(EnrollmentDateInFuture) else Success(EnrollmentDate(value))
  }

  /** `EnrollmentDate::fromString($text)`: `new DateTimeImmutable($text)`,
      given here as `parse`, then the same validation. */
  function EnrollmentDateFromString(parse: string -> Option<Instant>, text: string, now: Instant): (r: Result<EnrollmentDate, Error>)
    ensures parse(text).None? ==> r == Failure(DateNotParsable(text))
    ensures parse(text).Some? ==> r == EnrollmentDateOf(parse(text).value, now)
  {
    match parse(text)
    case None => Failure(DateNotParsable(text))
    case Some(t) => EnrollmentDateOf(t, now)
  }

  /** `EnrollmentDate::now()`. */
  function EnrollmentDateNow(now: Instant): (r: EnrollmentDate)
    ensures EnrollmentDateOf(now, now) == Success(r)
  {
    EnrollmentDate(now)
  }

  function ToDateTime(d: EnrollmentDate): Instant {
    d.value
  }

  predicate IsBefore(a: EnrollmentDate, b: EnrollmentDate) {
    a.value < b.value
  }

  predicate IsAfter(a: EnrollmentDate, b: EnrollmentDate) {
    a.value > b.value
  }

  /** `isBefore` and `isAfter` are strict and mirror each other: never both,
      neither exactly when the instants coincide. */
  lemma BeforeAfterTrichotomy(a: EnrollmentDate, b: EnrollmentDate)
    ensures !(IsBefore(a, b) && IsAfter(a, b))
    ensures !IsBefore(a, b) && !IsAfter(a, b) <==> ToDateTime(a) == ToDateTime(b)
    ensures IsBefore(a, b) <==> IsAfter(b, a)
    ensures !IsBefore(a, a) && !IsAfter(a, a)
  {
  }

  // ---------------------------------------------------------------- Student

  datatype Student = Student(id: string, name: string, email: string, createdAt: Instant, updatedAt: Instant)

  predicate ValidStudentName(name: string) {
    !IsEmpty(Trim(name)) && 2 <= ByteLength(name) <= 255
  }

  predicate ValidStudentEmail(isEmail: string -> bool, email: string) {
    !IsEmpty(Trim(email)) && isEmail(email)
  }

  function StudentNameError(name: string): (r: Option<Error>)
    ensures r.None? <==> ValidStudentName(name)
  {
    match CheckText(name, 2, 255)
    case Acceptable => None
    case Blank => Some(StudentNameEmpty)
    case TooShort => Some(StudentNameTooShort)
    case TooLong => Some(StudentNameTooLong)
  }

  function StudentEmailError(isEmail: string -> bool, email: string): (r: Option<Error>)
    ensures r.None? <==> ValidStudentEmail(isEmail, email)
    ensures IsEmpty(Trim(email)) ==> r == Some(StudentEmailEmpty)
  {
    if IsEmpty(Trim(email)) then Some(StudentEmailEmpty)
    else if !isEmail(email) then Some(StudentEmailFormat)
    else None
  }

  /** The name is checked before the e-mail. */
  function StudentInfoError(isEmail: string -> bool, name: string, email: string): (r: Option<Error>)
    ensures r.None? <==> ValidStudentName(name) && ValidStudentEmail(isEmail, email)
    ensures !ValidStudentName(name) ==> r == StudentNameError(name)
  {
    if StudentNameError(name).Some? then StudentNameError(name) else StudentEmailError(isEmail, email)
  }

  /** The private constructor shared by `create` and `reconstitute`. */
  function NewStudent(isEmail: string -> bool, id: string, name: string, email: string,
                      createdAt: Instant, updatedAt: Instant): (r: Result<Student, Error>)
    ensures r.Success? <==> ValidStudentName(name) && ValidStudentEmail(isEmail, email)
    ensures r.Success? ==> r.value == Student(id, name, email, createdAt, updatedAt)
    ensures r.Failure? ==> Some(r.error) == StudentInfoError(isEmail, name, email)
  {
    match StudentInfoError(isEmail, name, email)
    case Some(err) => Failure(err)
    case None => Success(Student(id, name, email, createdAt, updatedAt))
  }

  /** `Student::create`: both timestamps are the current time. */
  function CreateStudent(isEmail: string -> bool, id: string, name: string, email: string, now: Instant): (r: Result<Student, Error>)
    ensures r.Success? <==> ValidStudentName(name) && ValidStudentEmail(isEmail, email)
    ensures r.Success? ==> r.value.id == id && r.value.name == name && r.value.email == email
    ensures r.Success? ==> r.value.createdAt == now == r.value.updatedAt
  {
    NewStudent(isEmail, id, name, email, now, now)
  }

  /** `Student::reconstitute`: loading from storage applies the same rules. */
  function ReconstituteStudent(isEmail: string -> bool, id: string, name: string, email: string,
                               createdAt: Instant, updatedAt: Instant): (r: Result<Student, Error>)
    ensures r.Success? <==> ValidStudentName(name) && ValidStudentEmail(isEmail, email)
    ensures r.Success? ==> r.value == Student(id, name, email, createdAt, updatedAt)
  {
    NewStudent(isEmail, id, name, email, createdAt, updatedAt)
  }

  /** `Student::updateInfo`: both fields are validated before either is assigned. */
  function UpdateStudentInfo(isEmail: string -> bool, s: Student, name: string, email: string, now: Instant): (r: Result<Student, Error>)
    ensures r.Success? <==> ValidStudentName(name) && ValidStudentEmail(isEmail, email)
    ensures r.Success? ==> r.value.name == name && r.value.email == email && r.value.updatedAt == now
    ensures r.Success? ==> r.value.id == s.id && r.value.createdAt == s.createdAt
    ensures r.Failure? ==> Some(r.error) == StudentInfoError(isEmail, name, email)
  {
    match StudentInfoError(isEmail, name, email)
    case Some(err) => Failure(err)
    case None => Success(s.(name := name, email := email, updatedAt := now))
  }

  /** A student's identity survives any sequence of `updateInfo` calls. */
  lemma {:induction false} StudentIdIsStable(isEmail: string -> bool, s: Student, updates: seq<(string, string)>, now: Instant)
    ensures UpdateAll(isEmail, s, updates, now).id == s.id
    ensures UpdateAll(isEmail, s, updates, now).createdAt == s.createdAt
    decreases |updates|
  {
    if updates != [] {
      var r := UpdateStudentInfo(isEmail, s, updates[0].0, updates[0].1, now);
      StudentIdIsStable(isEmail, if r.Success? then r.value else s, updates[1..], now);
    }
  }

  /** Applies (name, e-mail) updates in turn, skipping those that fail. */
  function UpdateAll(isEmail: string -> bool, s: Student, updates: seq<(string, string)>, now: Instant): Student
    decreases |updates|
  {
    if updates == [] then s
    else
      var r := UpdateStudentInfo(isEmail, s, updates[0].0, updates[0].1, now);
      UpdateAll(isEmail, if r.Success? then r.value else s, updates[1..], now)
  }

  // ---------------------------------------------------------------- Course

  /** One learner's entry: the student as granted, and when. */
  datatype Access = Access(student: Student, enrolledAt: EnrollmentDate)

  datatype Course = Course(
    id: string,
    title: string,
    maxStudents: int,
    enrolled: map<string, Access>,
    createdAt: Instant,
    updatedAt: Instant,
    events: EventQueue.Queue<Publishable>)

  const DefaultMaxStudents: int := 100

  predicate ValidMaxStudents(n: int) {
    0 < n <= SeatLimit
  }

  function MaxStudentsError(n: int): (r: Option<Error>)
    ensures r.None? <==> ValidMaxStudents(n)
  {
    if n <= 0 then Some(MaxStudentsNotPositive)
    else if n > SeatLimit then Some(MaxStudentsTooLarge)
    else None
  }

  /** The private constructor: the title is checked before the seat count;
      the course starts with no learners and no pending events. */
  function NewCourse(id: string, title: string, maxStudents: int, createdAt: Instant, updatedAt: Instant): (r: Result<Course, Error>)
    ensures r.Success? <==> ValidTitle(title) && ValidMaxStudents(maxStudents)
    ensures !ValidTitle(title) ==> r == Failure(TitleError(title).value)
    ensures ValidTitle(title) && !ValidMaxStudents(maxStudents) ==> r == Failure(MaxStudentsError(maxStudents).value)
    ensures r.Success? ==> r.value == Course(id, title, maxStudents, map[], createdAt, updatedAt, EventQueue.Empty())
  {
    if TitleError(title).Some? then Failure(TitleError(title).value)
    else if MaxStudentsError(maxStudents).Some? then Failure(MaxStudentsError(maxStudents).value)
    else Success(Course(id, title, maxStudents, map[], createdAt, updatedAt, EventQueue.Empty()))
  }

  /** `Course::create`; the seat count defaults to 100. */
  function CreateCourse(now: Instant, id: string, title: string, maxStudents: int := DefaultMaxStudents): (r: Result<Course, Error>)
    ensures r.Success? <==> ValidTitle(title) && ValidMaxStudents(maxStudents)
    ensures r.Success? ==> r.value.enrolled == map[] && r.value.maxStudents == maxStudents
    ensures r.Success? ==> Wellformed(r.value) && !EventQueue.HasEvents(r.value.events)
    ensures r.Success? ==> r.value.id == id && r.value.title == title
    ensures r.Success? ==> r.value.createdAt == now && r.value.updatedAt == now
  {
    NewCourse(id, title, maxStudents, now, now)
  }

  /** `Course::reconstitute`: title and seat count are validated, the learner
      map is taken as stored without checking it against the seat count. */
  function ReconstituteCourse(id: string, title: string, maxStudents: int, enrolled: map<string, Access>,
                              createdAt: Instant, updatedAt: Instant): (r: Result<Course, Error>)
    ensures r.Success? <==> ValidTitle(title) && ValidMaxStudents(maxStudents)
    ensures r.Success? ==> r.value.enrolled == enrolled && r.value.maxStudents == maxStudents
    ensures r.Success? ==> r.value.events.pending == []
    ensures r.Success? ==> r.value.id == id && r.value.title == title
    ensures r.Success? ==> r.value.createdAt == createdAt && r.value.updatedAt == updatedAt
  {
    match NewCourse(id, title, maxStudents, createdAt, updatedAt)
    case Failure(err) => Failure(err)
    case Success(c) => Success(c.(enrolled := enrolled))
  }

  predicate HasLearningAccess(c: Course, studentId: string) {
    studentId in c.enrolled
  }

  function LearnerCount(c: Course): nat {
    |c.enrolled|
  }

  predicate IsAtCapacity(c: Course) {
    LearnerCount(c) >= c.maxStudents
  }

  function AvailableLearningSlots(c: Course): (r: int)
    ensures r <= 0 <==> IsAtCapacity(c)
    ensures r + LearnerCount(c) == c.maxStudents
  {
    c.maxStudents - LearnerCount(c)
  }

  /** What a course created by `create` and changed only by grants satisfies:
      a valid title and seat count, no more learners than seats, and each
      entry keyed by its own student's id. */
  predicate Wellformed(c: Course) {
    && ValidTitle(c.title)
    && ValidMaxStudents(c.maxStudents)
    && LearnerCount(c) <= c.maxStudents
    && forall k :: k in c.enrolled ==> c.enrolled[k].student.id == k
  }

  /** The event a successful grant records. */
  function EnrolledEvent(c: Course, s: Student, now: Instant): Object {
    StudentEnrolled(c.id, s.id, s.name, s.email, ToDateTime(EnrollmentDateNow(now)))
  }

  /** `Course::grantLearningAccess($student)`: the duplicate check runs before
      the capacity check; on success the student's entry is added and exactly
      one `StudentEnrolled` is recorded. */
  function GrantLearningAccess(c: Course, s: Student, now: Instant): (r: Result<Course, Error>)
    ensures r.Failure? <==> HasLearningAccess(c, s.id) || IsAtCapacity(c)
    ensures HasLearningAccess(c, s.id) ==> r == Failure(AlreadyHasLearningAccess(s.id))
    ensures !HasLearningAccess(c, s.id) && IsAtCapacity(c) ==> r == Failure(CourseAtCapacity(c.maxStudents))
    ensures r.Success? ==> HasLearningAccess(r.value, s.id)
    ensures r.Success? ==> r.value.enrolled.Keys == c.enrolled.Keys + {s.id}
    ensures r.Success? ==> LearnerCount(r.value) == LearnerCount(c) + 1
    ensures r.Success? ==> r.value.enrolled[s.id] == Access(s, EnrollmentDate(now))
    ensures r.Success? ==> forall k :: k in c.enrolled ==> r.value.enrolled[k] == c.enrolled[k]
    ensures r.Success? ==> r.value.events.pending == c.events.pending + [Obj(StudentEnrolled(c.id, s.id, s.name, s.email, now))]
    ensures r.Success? ==> r.value.(enrolled := c.enrolled, updatedAt := c.updatedAt, events := c.events) == c
  {
    if HasLearningAccess(c, s.id) then Failure(AlreadyHasLearningAccess(s.id))
    else if IsAtCapacity(c) then Failure(CourseAtCapacity(c.maxStudents))
    else
      var date := EnrollmentDateNow(now);
      Success(c.(enrolled := c.enrolled[s.id := Access(s, date)],
                 updatedAt := now,
                 events := EventQueue.Record(c.events, Obj(EnrolledEvent(c, s, now)))))
  }

  /** A grant keeps a well-formed course well-formed: seats are never
      over-committed on a course built by `create`. */
  lemma GrantPreservesWellformed(c: Course, s: Student, now: Instant)
    requires Wellformed(c)
    requires GrantLearningAccess(c, s, now).Success?
    ensures Wellformed(GrantLearningAccess(c, s, now).value)
  {
  }

  /** Grants students one after the other, stopping at the first failure. */
  function GrantAll(c: Course, ss: seq<Student>, now: Instant): Result<Course, Error>
    decreases |ss|
  {
    if ss == [] then Success(c)
    else match GrantLearningAccess(c, ss[0], now)
      case Failure(err) => Failure(err)
      case Success(c1) => GrantAll(c1, ss[1..], now)
  }

  predicate DistinctIds(ss: seq<Student>) {
    forall i, j :: 0 <= i < j < |ss| ==> ss[i].id != ss[j].id
  }

  /** Granting distinct new students to a course with room for all of them
      succeeds, and exactly their ids are added. */
  lemma {:induction false} GrantAllFits(c: Course, ss: seq<Student>, now: Instant)
    requires DistinctIds(ss)
    requires forall i :: 0 <= i < |ss| ==> ss[i].id !in c.enrolled
    requires LearnerCount(c) + |ss| <= c.maxStudents
    ensures GrantAll(c, ss, now).Success?
    ensures LearnerCount(GrantAll(c, ss, now).value) == LearnerCount(c) + |ss|
    ensures GrantAll(c, ss, now).value.maxStudents == c.maxStudents
    ensures forall i :: 0 <= i < |ss| ==> HasLearningAccess(GrantAll(c, ss, now).value, ss[i].id)
    decreases |ss|
  {
    if ss != [] {
      var c1 := GrantLearningAccess(c, ss[0], now).value;
      forall i | 0 <= i < |ss[1..]|
        ensures ss[1..][i].id !in c1.enrolled
      {
        assert ss[1..][i] == ss[i + 1];
      }
      GrantAllFits(c1, ss[1..], now);
      var final := GrantAll(c1, ss[1..], now).value;
      forall i | 0 <= i < |ss|
        ensures HasLearningAccess(final, ss[i].id)
      {
        if i > 0 {
          assert ss[i] == ss[1..][i - 1];
        } else {
          GrantAllKeepsAccess(c1, ss[1..], now, ss[0].id);
        }
      }
    }
  }

  lemma {:induction false} GrantAllKeepsAccess(c: Course, ss: seq<Student>, now: Instant, id: string)
    requires HasLearningAccess(c, id)
    requires GrantAll(c, ss, now).Success?
    ensures HasLearningAccess(GrantAll(c, ss, now).value, id)
    decreases |ss|
  {
    if ss != [] {
      GrantAllKeepsAccess(GrantLearningAccess(c, ss[0], now).value, ss[1..], now, id);
    }
  }

  /** With room for N learners, N distinct students all get access, the next
      new student is refused for capacity, and any of the N is refused as a
      duplicate. */
  lemma FillingACourse(c: Course, ss: seq<Student>, extra: Student, now: Instant)
    requires c.enrolled == map[] && c.maxStudents == |ss|
    requires DistinctIds(ss)
    requires forall i :: 0 <= i < |ss| ==> ss[i].id != extra.id
    ensures GrantAll(c, ss, now).Success?
    ensures GrantLearningAccess(GrantAll(c, ss, now).value, extra, now) == Failure(CourseAtCapacity(|ss|))
    ensures forall i :: 0 <= i < |ss| ==>
              GrantLearningAccess(GrantAll(c, ss, now).value, ss[i], now) == Failure(AlreadyHasLearningAccess(ss[i].id))
  {
    GrantAllFits(c, ss, now);
    var full := GrantAll(c, ss, now).value;
    assert !HasLearningAccess(full, extra.id) by {
      if HasLearningAccess(full, extra.id) {
        GrantAllOnlyAdds(c, ss, now, extra.id);
      }
    }
  }

  lemma {:induction false} GrantAllOnlyAdds(c: Course, ss: seq<Student>, now: Instant, id: string)
    requires GrantAll(c, ss, now).Success?
    requires HasLearningAccess(GrantAll(c, ss, now).value, id)
    ensures HasLearningAccess(c, id) || exists i :: 0 <= i < |ss| && ss[i].id == id
    decreases |ss|
  {
    if ss != [] {
      var c1 := GrantLearningAccess(c, ss[0], now).value;
      GrantAllOnlyAdds(c1, ss[1..], now, id);
      if !HasLearningAccess(c1, id) {
        var i :| 0 <= i < |ss[1..]| && ss[1..][i].id == id;
        assert ss[i + 1].id == id;
      }
    }
  }

  /** `reconstitute` trusts storage: a stored course may hold more learners
      than seats, and then every further grant to a new student fails. */
  lemma ReconstituteSkipsSeatCheck(id: string, title: string, a: Access, b: Access, s: Student, now: Instant)
    requires ValidTitle(title)
    requires a.student.id != b.student.id && s.id != a.student.id && s.id != b.student.id
    ensures var stored := map[a.student.id := a, b.student.id := b];
            && ReconstituteCourse(id, title, 1, stored, now, now).Success?
            && !Wellformed(ReconstituteCourse(id, title, 1, stored, now, now).value)
            && GrantLearningAccess(ReconstituteCourse(id, title, 1, stored, now, now).value, s, now)
               == Failure(CourseAtCapacity(1))
  {
    var stored := map[a.student.id := a, b.student.id := b];
    assert |stored.Keys| == 2 by {
      assert stored.Keys == {a.student.id, b.student.id};
    }
    var c := ReconstituteCourse(id, title, 1, stored, now, now).value;
    assert c.enrolled == stored && c.maxStudents == 1;
    OverfullRefusesGrant(c, s, now);
  }

  /** A course holding more learners than seats is not well-formed, and
      refuses a new student for lack of seats. */
  lemma OverfullRefusesGrant(c: Course, s: Student, now: Instant)
    requires LearnerCount(c) > c.maxStudents && s.id !in c.enrolled
    ensures !Wellformed(c)
    ensures GrantLearningAccess(c, s, now) == Failure(CourseAtCapacity(c.maxStudents))
  {
  }

}
