/** The exceptions the core throws, one constructor per throw site. Most are
    PHP `InvalidArgumentException`s; `EventTypeMismatch` is the `TypeError` PHP
    raises when the bus is handed an object that is neither a `DomainEvent` nor
    a `Closure`, and `DateNotParsable` is the generic exception of
    `new DateTimeImmutable($text)`. */
module Errors {

  datatype Error =
    // Value objects
    | InvalidUuid(value: string)
    | EnrollmentDateInFuture
    | InvalidEnrollmentStatus(value: string)
    | TenantIdEmpty
    | TenantIdTooLong
    | TenantSlugEmpty
    | TenantSlugTooShort
    | TenantSlugTooLong
    | TenantSlugPattern
    | InvalidTenantStatus(value: string)
    | ContactEmailEmpty
    | ContactEmailFormat(value: string)
    | DateNotParsable(text: string)
    // Student (learning context)
    | StudentNameEmpty
    | StudentNameTooShort
    | StudentNameTooLong
    | StudentEmailEmpty
    | StudentEmailFormat
    // Course (both contexts)
    | CourseTitleEmpty
    | CourseTitleTooShort
    | CourseTitleTooLong
    | MaxStudentsNotPositive
    | MaxStudentsTooLarge
    | MaxCapacityNotPositive
    | MaxCapacityTooLarge
    | AlreadyHasLearningAccess(studentId: string)
    | CourseAtCapacity(maxStudents: int)
    | EnrollmentRecordExists(studentId: string)
    | CourseAtMaxCapacity(maxCapacity: int)
    // Enrollment state machine
    | OnlyActiveCanComplete
    | CannotDropCompleted
    | AlreadyDropped
    | OnlyActiveCanSuspend
    | OnlySuspendedCanReactivate
    // Tenant
    | TenantNameEmpty
    | TenantNameTooShort
    | TenantNameTooLong
    | TenantAlreadyActive
    | TenantAlreadySuspended
    | SlugAlreadyExists(slug: string)
    // Application handlers
    | StudentNotFound(studentId: string)
    | CourseNotFound(courseId: string)
    // Event bus
    | NotADomainEvent
    | EventTypeMismatch
    | NoReleaseEventsMethod
    | ReleaseEventsNotArray
    // Array input of the wrong PHP type (strict_types TypeError)
    | NotAString(key: string)
    // A failure raised by an event consumer the model does not see into
    | ConsumerFailed(reason: string)
}
