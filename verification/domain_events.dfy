/** The objects an aggregate records and the bus carries.

    Two of them implement the `DomainEvent` interface (an occurrence time, a
    name, an array form): the learning context's `StudentEnrolled` and the
    TenantManagement module's `TenantCreated`. The `App` edition's
    `TenantCreated` has the same payload and an array form but does NOT
    implement the interface. Any other object is represented by its class name.

    Time is an integer instant; `DateTimeImmutable::format('Y-m-d H:i:s')` is
    a function passed in by the caller. */
module DomainEvents {
  import opened Wrappers
  import opened PhpArray

  type Instant = int

  /** The `$paramsMap` argument of the bus. */
  type Params = map<string, string>

  datatype Object =
    | StudentEnrolled(courseId: string, studentId: string, studentName: string,
                      studentEmail: string, enrolledAt: Instant)
    | TenantCreated(tenantId: string, name: string, slug: string, occurredAt: Instant)
    | AppTenantCreated(tenantId: string, name: string, slug: string, occurredAt: Instant)
    | OtherObject(className: string)

  /** What an aggregate may record and the bus may be handed: an object, or a
      closure that builds one from the bus's parameter map. */
  datatype Publishable = Obj(obj: Object) | Closure(make: Params -> Object)

  predicate IsDomainEvent(o: Object) {
    o.StudentEnrolled? || o.TenantCreated?
  }

  const StudentEnrolledName: string := "student_learning.student_enrolled"
  const TenantCreatedName: string := "tenant.created"

  /** `DomainEvent::eventName()`: a constant per event class. */
  function EventName(e: Object): string
    requires IsDomainEvent(e)
  {
    match e
    case StudentEnrolled(_, _, _, _, _) => StudentEnrolledName
    case TenantCreated(_, _, _, _) => TenantCreatedName
  }

  /** `DomainEvent::occurredAt()`: a `StudentEnrolled` occurs when the student
      enrolled; a `TenantCreated` carries its own timestamp. */
  function OccurredAt(e: Object): Instant
    requires IsDomainEvent(e)
  {
    match e
    case StudentEnrolled(_, _, _, _, t) => t
    case TenantCreated(_, _, _, t) => t
  }

  /** The event name determines the event class, so consumers may route on it. */
  lemma EventNameIdentifiesClass(a: Object, b: Object)
    requires IsDomainEvent(a) && IsDomainEvent(b)
    ensures EventName(a) == EventName(b) <==> (a.StudentEnrolled? <==> b.StudentEnrolled?)
    ensures a.StudentEnrolled? ==> OccurredAt(a) == a.enrolledAt
    ensures a.TenantCreated? ==> OccurredAt(a) == a.occurredAt
  {
    assert StudentEnrolledName[0] != TenantCreatedName[0];
  }

  /** The array form of an event: string keys to string values. */
  type Fields = Assoc<string>

  const StudentEnrolledKeys: seq<string> :=
    ["course_id", "student_id", "student_name", "student_email", "enrolled_at"]
  const TenantCreatedKeys: seq<string> := ["tenant_id", "name", "slug", "occurred_at"]

  predicate HasArrayForm(o: Object) {
    !o.OtherObject?
  }

  /** `toArray()` of the three event classes; dates are rendered by `format`. */
  function ToArray(e: Object, format: Instant -> string): (r: Fields)
    requires HasArrayForm(e)
    ensures e.StudentEnrolled? ==> Keys(r) == StudentEnrolledKeys
    ensures !e.StudentEnrolled? ==> Keys(r) == TenantCreatedKeys
  {
    match e
    case StudentEnrolled(c, s, n, m, t) =>
      [("course_id", c), ("student_id", s), ("student_name", n),
       ("student_email", m), ("enrolled_at", format(t))]
    case TenantCreated(i, n, s, t) =>
      [("tenant_id", i), ("name", n), ("slug", s), ("occurred_at", format(t))]
    case AppTenantCreated(i, n, s, t) =>
      [("tenant_id", i), ("name", n), ("slug", s), ("occurred_at", format(t))]
  }

  /** Reading the array form of a `StudentEnrolled` back gives the payload
      verbatim (the date through `format`), and no other key is present. */
  lemma StudentEnrolledArrayRoundTrip(e: Object, format: Instant -> string, other: string)
    requires e.StudentEnrolled?
    requires other !in StudentEnrolledKeys
    ensures Lookup(ToArray(e, format), "course_id") == Some(e.courseId)
    ensures Lookup(ToArray(e, format), "student_id") == Some(e.studentId)
    ensures Lookup(ToArray(e, format), "student_name") == Some(e.studentName)
    ensures Lookup(ToArray(e, format), "student_email") == Some(e.studentEmail)
    ensures Lookup(ToArray(e, format), "enrolled_at") == Some(format(e.enrolledAt))
    ensures Lookup(ToArray(e, format), other) == None
  {
    var fs := ToArray(e, format);
    LookupAt(fs, 0);
    LookupAt(fs, 1);
    LookupAt(fs, 2);
    LookupAt(fs, 3);
    LookupAt(fs, 4);
    LookupAbsent(fs, other);
  }

  /** The same for both `TenantCreated` classes. */
  lemma TenantCreatedArrayRoundTrip(e: Object, format: Instant -> string, other: string)
    requires e.TenantCreated? || e.AppTenantCreated?
    requires other !in TenantCreatedKeys
    ensures Lookup(ToArray(e, format), "tenant_id") == Some(e.tenantId)
    ensures Lookup(ToArray(e, format), "name") == Some(e.name)
    ensures Lookup(ToArray(e, format), "slug") == Some(e.slug)
    ensures Lookup(ToArray(e, format), "occurred_at") == Some(format(e.occurredAt))
    ensures Lookup(ToArray(e, format), other) == None
  {
    var fs := ToArray(e, format);
    LookupAt(fs, 0);
    LookupAt(fs, 1);
    LookupAt(fs, 2);
    LookupAt(fs, 3);
    LookupAbsent(fs, other);
  }
}
