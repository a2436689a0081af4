# Course enrollment and tenant core, modelled in Dafny

This is a functional model of the domain core of a multi-tenant
course-enrollment platform written in PHP on Hyperf. The model covers five
areas:

- **Domain event infrastructure.** This is the pending-event queue every
  aggregate root keeps. It also covers the domain event bus that validates
  events and hands them to a PSR-14 dispatcher.
- **StudentLearning context.** Students, courses that grant learning access
  up to a seat limit, enrollment dates, and the `StudentEnrolled` event.
- **CourseManagement context.** Administrative courses holding enrollment
  records. Each record moves through the active / completed / dropped /
  suspended lifecycle. The context also provides per-status counts and
  statistics.
- **Enrollment saga.** The learning handler grants access, saves the course
  and publishes the event. A listener turns the event into a management
  command. The management handler records the enrollment, creating a
  placeholder course when it has none for the id. Failures are rethrown
  back to the first handler.
- **Tenants.** The `TenantId`, `TenantSlug`, `TenantStatus` and
  `ContactEmail` value objects, and the `Tenant` aggregate and its
  lifecycle. Both editions of the create-tenant handler are covered, the
  `App` one and the TenantManagement module's. So is the `CreateTenantDTO`
  array form.

Aggregates are immutable datatypes, and operations are pure functions that
return `Result` (a value or the exception that replaced it). Handlers and
the bus return an `Outcome`: the state reached and, if the call threw, the
error. PHP does not undo side effects when an exception propagates, so an
aborted outcome still carries every save made before the throw.
Repositories are maps from id to aggregate. The bus is a delivered-event log
plus the state of its consumers, which here is the management-side course
store.

The model takes the following as parameters rather than computing them:
- the wall clock, as `now`;
- `Uuid::isValid`, `FILTER_VALIDATE_EMAIL`, date formatting and date parsing;
- the generated tenant id.

Strings are sequences of Unicode scalar values, standing for the valid
UTF-8 byte strings PHP holds. On those, PHP's string built-ins are modelled
exactly where the rules depend on them (module `PhpText`):
- `trim` uses its default character list;
- `strtolower` changes ASCII letters only;
- `strlen` counts UTF-8 bytes;
- `empty()` is also true for `"0"`.

Files, in dependency order:
- `wrappers.dfy`, `errors.dfy`, `php_text.dfy`, `php_array.dfy`
- `domain_events.dfy`, `event_queue.dfy`, `event_bus.dfy`
- `course_rules.dfy`, `student_learning.dfy`, `course_management.dfy`, `saga.dfy`
- `tenant_values.dfy`, `tenants.dfy`, `tenant_handlers.dfy`, `create_tenant_dto.dfy`

## Model

| member | source | states |
|---|---|---|
| PhpText.Trim | src/app/Domain/Tenant/ValueObject/TenantSlug.php:28 | `trim` returns a contiguous middle of its input: everything cut off at either end is a trim character, no trim character is left at either end, and the result is '' exactly when every character is one |
| PhpText.ToLower | src/app/Domain/Tenant/ValueObject/TenantSlug.php:28 | `strtolower` maps each character through ASCII lower-casing and keeps the length |
| PhpText.ByteLength | src/app/Domain/Tenant/ValueObject/TenantSlug.php:47-57 | `strlen` of the UTF-8 encoding lies between one and four bytes per character |
| PhpText.CheckText | src/app/Domain/Tenant/Entity/Tenant.php:209-222 | the shared text rule: blank iff the trim is PHP-empty, else too short or too long by byte length, else acceptable |
| PhpText.NormaliseIdempotent | src/modules/TenantManagement/Domain/ValueObject/ContactEmail.php:22 | trimming and lower-casing a second time changes nothing |
| EventQueue.Record | src/modules/Shared/Domain/Traits/HasDomainEvent.php:20-23 | recording keeps every pending event in place and adds the new one last |
| EventQueue.Release | src/modules/Shared/Domain/Traits/HasDomainEvent.php:30-35 | release hands back exactly the pending events and leaves the queue empty |
| EventQueue.Clear | src/modules/Shared/Domain/Traits/HasDomainEvent.php:50-53 | clearing leaves no pending event |
| EventQueue.RecordAllAppends | src/modules/Shared/Domain/Traits/HasDomainEvent.php:20-23 | events recorded one by one come out after what was pending, in recording order |
| EventQueue.ReleaseReturnsRecorded | src/modules/Shared/Domain/Traits/HasDomainEvent.php:20-35 | a release returns exactly the recorded events; a second release returns nothing; the queue then has no events |
| EventQueue.GetAgreesWithRelease | src/modules/Shared/Domain/Traits/HasDomainEvent.php:42-61 | getEvents reads what a release would return, without consuming it; hasEvents is true iff that is non-empty |
| EventBus.Dispatch | src/modules/Shared/Infrastructure/Event/HyperfDomainEventBus.php:38-39 | one dispatch succeeds iff the consumers accept the event; on success the event is logged and the consumers' new state kept, on failure nothing changes |
| EventBus.Deliver | src/app/Application/Tenant/Command/CreateTenantHandler.php:50-52 | in-order delivery: on success the log grows by exactly the events; on failure it grows by a proper prefix of them |
| EventBus.Publish | src/modules/Shared/Infrastructure/Event/HyperfDomainEventBus.php:29-40 | a closure is first applied to the parameter map; publish succeeds iff the result is a domain event the consumers accept, and then logs exactly that event; a failure leaves the bus unchanged and names the non-event or the consumers' error |
| EventBus.PublishEach | src/modules/Shared/Infrastructure/Event/HyperfDomainEventBus.php:45-50 | on success every element was a domain event and all were delivered in order; on failure exactly a proper prefix was delivered |
| EventBus.PublishAll | src/modules/Shared/Infrastructure/Event/HyperfDomainEventBus.php:45-50 | publishAll delivers every event with empty parameters on success; on failure it has delivered exactly the elements before the one that stopped it, and that element is either not a domain event (its rejection is the error) or was refused by the consumers (their error is the error) |
| EventBus.PublishEachIsValidatedDelivery | src/modules/Shared/Infrastructure/Event/HyperfDomainEventBus.php:29-50 | when every element is a domain event, publishing equals plain in-order delivery |
| EventBus.PublishEachStopsAtNonEvent | src/modules/Shared/Infrastructure/Event/HyperfDomainEventBus.php:29-50 | validation is per element: events before the first non-event are delivered, then the call fails with that element's rejection |
| EventBus.PublishEntity | src/modules/Shared/Infrastructure/Event/HyperfDomainEventBus.php:55-80 | no releaseEvents method, or a non-array release, fails before any delivery; an aggregate's queue is drained and its events are delivered in order: all of them on success, and on failure exactly those before the event that stopped it, which is either not a domain event (its rejection is the error) or was refused by the consumers (their error is the error) |
| EventBus.PublishEntities | src/modules/Shared/Infrastructure/Event/HyperfDomainEventBus.php:85-90 | one result per holder; a success has processed every holder, a failure at least one; what a failure delivered and which error it returns is `EventBus.PublishEntitiesAborts` |
| EventBus.PublishEntitiesDrains | src/modules/Shared/Infrastructure/Event/HyperfDomainEventBus.php:85-90 | holders whose turn came (the failing one included) are drained; the rest are untouched |
| EventBus.PublishEntitiesDelivers | src/modules/Shared/Infrastructure/Event/HyperfDomainEventBus.php:85-90 | a success means every holder was an aggregate, and their events were delivered holder after holder |
| EventBus.PublishEntitiesAborts | src/modules/Shared/Infrastructure/Event/HyperfDomainEventBus.php:85-90 | with no catch in the loop, a failure stops at the last holder whose turn came: every earlier holder was an aggregate, all their events were delivered in holder order and nothing is undone, and the outcome is exactly what publishing that holder gave on the bus so reached |
| EventBus.PublishEntityOfOne | src/modules/Shared/Infrastructure/Event/HyperfDomainEventBus.php:55-80 | an aggregate with one pending event publishes exactly as publish does on that event |
| DomainEvents.EventNameIdentifiesClass | src/modules/StudentLearning/Events/StudentEnrolled.php:28-36 | the event name tells the two domain-event classes apart; occurredAt is the enrollment time or the tenant creation time |
| DomainEvents.ToArray | src/modules/StudentLearning/Events/StudentEnrolled.php:38-47 | the array form has exactly the class's keys, in declaration order |
| DomainEvents.StudentEnrolledArrayRoundTrip | src/modules/StudentLearning/Events/StudentEnrolled.php:38-47 | every StudentEnrolled field reads back from the array form (the date through format), and no other key is present |
| DomainEvents.TenantCreatedArrayRoundTrip | src/modules/TenantManagement/Domain/Event/TenantCreated.php:35-43 | tenant_id, name, slug and the formatted occurred_at read back unchanged, for both TenantCreated classes; no other key is present |
| CourseRules.TitleError | src/modules/StudentLearning/Domain/Entity/Course.php:201-214 | a title is accepted iff its trim is not PHP-empty and its raw byte length is 3..255; otherwise one of the three title errors |
| StudentLearning.EnrollmentDateOf | src/modules/StudentLearning/Domain/ValueObject/EnrollmentDate.php:58-64 | a date is refused iff it lies after now |
| StudentLearning.EnrollmentDateFromString | src/modules/StudentLearning/Domain/ValueObject/EnrollmentDate.php:33-36 | unparsable text is refused with the text; parsed text then goes through the not-in-future rule |
| StudentLearning.EnrollmentDateNow | src/modules/StudentLearning/Domain/ValueObject/EnrollmentDate.php:23-26 | the current instant always passes the not-in-future rule |
| StudentLearning.BeforeAfterTrichotomy | src/modules/StudentLearning/Domain/ValueObject/EnrollmentDate.php:48-56 | isBefore and isAfter are strict mirrors: never both, neither iff the instants coincide |
| StudentLearning.StudentNameError | src/modules/StudentLearning/Domain/Entity/Student.php:108-121 | a name is accepted iff its trim is not PHP-empty and its raw byte length is 2..255 |
| StudentLearning.StudentEmailError | src/modules/StudentLearning/Domain/Entity/Student.php:123-132 | an e-mail is accepted iff its trim is not PHP-empty and the format filter accepts it; a blank one gives the empty error |
| StudentLearning.StudentInfoError | src/modules/StudentLearning/Domain/Entity/Student.php:19-28 | the name is checked before the e-mail |
| StudentLearning.NewStudent | src/modules/StudentLearning/Domain/Entity/Student.php:19-28 | construction succeeds iff name and e-mail pass, and then keeps every argument |
| StudentLearning.CreateStudent | src/modules/StudentLearning/Domain/Entity/Student.php:33-47 | create applies both rules and stamps both timestamps with now |
| StudentLearning.ReconstituteStudent | src/modules/StudentLearning/Domain/Entity/Student.php:52-66 | loading applies the same rules and keeps the stored timestamps |
| StudentLearning.UpdateStudentInfo | src/modules/StudentLearning/Domain/Entity/Student.php:71-79 | update succeeds iff both values pass; it then changes name, e-mail and update time only; a refused update reports the first failing rule |
| StudentLearning.StudentIdIsStable | src/modules/StudentLearning/Domain/Entity/Student.php:19-28 | no sequence of updates changes a student's id or creation time |
| StudentLearning.MaxStudentsError | src/modules/StudentLearning/Domain/Entity/Course.php:216-225 | a seat count is accepted iff it is 1..1000 |
| StudentLearning.NewCourse | src/modules/StudentLearning/Domain/Entity/Course.php:34-43 | construction checks the title before the seat count and starts with no learners and no events |
| StudentLearning.CreateCourse | src/modules/StudentLearning/Domain/Entity/Course.php:48-62 | a created course keeps the given id, title and seat count, is stamped `now` on both timestamps, is well-formed and empty, and has no pending events |
| StudentLearning.ReconstituteCourse | src/modules/StudentLearning/Domain/Entity/Course.php:67-84 | loading validates title and seat count, then keeps id, title, timestamps and the learner map exactly as stored |
| StudentLearning.AvailableLearningSlots | src/modules/StudentLearning/Domain/Entity/Course.php:142-161 | free slots plus learners equal the seat count; no free slot iff the course is at capacity |
| StudentLearning.GrantLearningAccess | src/modules/StudentLearning/Domain/Entity/Course.php:95-127 | a grant fails iff the student already has access or the course is full, checked in that order; on success it adds exactly this student, keeps every other entry, and records exactly one StudentEnrolled |
| StudentLearning.GrantPreservesWellformed | src/modules/StudentLearning/Domain/Entity/Course.php:95-127 | a grant never over-commits seats on a well-formed course |
| StudentLearning.GrantAllFits | src/modules/StudentLearning/Domain/Entity/Course.php:95-127 | distinct new students who fit all get access; the learner count grows by their number |
| StudentLearning.GrantAllKeepsAccess | src/modules/StudentLearning/Domain/Entity/Course.php:95-127 | access once granted survives later grants |
| StudentLearning.GrantAllOnlyAdds | src/modules/StudentLearning/Domain/Entity/Course.php:95-127 | after a run of grants, only students who already had access or were granted in the run have access |
| StudentLearning.FillingACourse | src/modules/StudentLearning/Domain/Entity/Course.php:95-127 | with N seats, N distinct students all get in; the next new one is refused for capacity, and a repeat is refused as a duplicate |
| StudentLearning.ReconstituteSkipsSeatCheck | src/modules/StudentLearning/Domain/Entity/Course.php:67-84 | a stored course may hold more learners than seats; every further grant to a new student then fails |
| StudentLearning.OverfullRefusesGrant | src/modules/StudentLearning/Domain/Entity/Course.php:104-108 | `isAtCapacity` compares with `>=`, so a course holding more learners than seats also refuses every new student for lack of seats |
| CourseManagement.StatusToString | src/modules/CourseManagement/Domain/ValueObject/EnrollmentStatus.php:57-60 | a status's text is lower-case ASCII |
| CourseManagement.StatusFromString | src/modules/CourseManagement/Domain/ValueObject/EnrollmentStatus.php:21-30 | text is accepted iff its lower-case form is one of the four values, and the result prints as that form; anything else fails with the input |
| CourseManagement.StatusRoundTrip | src/modules/CourseManagement/Domain/ValueObject/EnrollmentStatus.php:16-30 | each status reads back from its text, in any ASCII case |
| CourseManagement.ExactlyOneStatus | src/modules/CourseManagement/Domain/ValueObject/EnrollmentStatus.php:32-55 | exactly one status predicate holds; attending classes is being active |
| CourseManagement.CreateEnrollment | src/modules/CourseManagement/Domain/Entity/Enrollment.php:37-53 | a fresh record is active, with no completion or drop date, and carries the given identity and snapshot |
| CourseManagement.ReconstituteEnrollment | src/modules/CourseManagement/Domain/Entity/Enrollment.php:58-80 | loading keeps every stored field: identity, student name and email, status, dates and the update time |
| CourseManagement.CompleteEnrollment | src/modules/CourseManagement/Domain/Entity/Enrollment.php:85-94 | only an active record completes; completing sets the completion date and update time |
| CourseManagement.DropEnrollment | src/modules/CourseManagement/Domain/Entity/Enrollment.php:99-112 | an active or suspended record drops; a completed one fails first, then an already dropped one |
| CourseManagement.SuspendEnrollment | src/modules/CourseManagement/Domain/Entity/Enrollment.php:117-125 | only an active record suspends |
| CourseManagement.ReactivateEnrollment | src/modules/CourseManagement/Domain/Entity/Enrollment.php:130-138 | only a suspended record reactivates |
| CourseManagement.TransitionsFollowTable | src/modules/CourseManagement/Domain/Entity/Enrollment.php:85-138 | each transition succeeds iff the status table allows it, lands on the table's target, keeps identity, and dates only completion or drop |
| CourseManagement.TerminalStatuses | src/modules/CourseManagement/Domain/Entity/Enrollment.php:85-138 | completed and dropped records accept no transition |
| CourseManagement.LifecycleKeepsIdentity | src/modules/CourseManagement/Domain/Entity/Enrollment.php:85-138 | no transition sequence changes student, course, snapshot or enrollment date; terminal records stay as they are |
| CourseManagement.SuspendThenReactivate | src/modules/CourseManagement/Domain/Entity/Enrollment.php:117-138 | suspending then reactivating an active record restores it, up to the update time |
| CourseManagement.MaxCapacityError | src/modules/CourseManagement/Domain/Entity/Course.php:360-369 | a capacity is accepted iff it is 1..1000 |
| CourseManagement.NewCourse | src/modules/CourseManagement/Domain/Entity/Course.php:31-42 | construction checks the title before the capacity and starts with no records |
| CourseManagement.CreateCourse | src/modules/CourseManagement/Domain/Entity/Course.php:47-65 | create keeps id, title, description, capacity and instructor, starts empty, and stamps both times with now |
| CourseManagement.ReconstituteCourse | src/modules/CourseManagement/Domain/Entity/Course.php:70-91 | loading validates title and capacity, then keeps id, title, description, instructor, timestamps and the stored records |
| CourseManagement.GetEnrollmentRecord | src/modules/CourseManagement/Domain/Entity/Course.php:136-147 | a record is found iff the course has one for the student, and it is that record |
| CourseManagement.KeysWithStatus | src/modules/CourseManagement/Domain/Entity/Course.php:167-220 | exactly the ids whose record has the given status |
| CourseManagement.EnrollmentsWithStatus | src/modules/CourseManagement/Domain/Entity/Course.php:253-285 | the filtered map holds exactly the records with that status, unchanged |
| CourseManagement.ActiveEnrollments | src/modules/CourseManagement/Domain/Entity/Course.php:253-261 | the active list holds exactly the records whose status is active, each unchanged, and is as long as the active count |
| CourseManagement.CompletedEnrollments | src/modules/CourseManagement/Domain/Entity/Course.php:264-272 | the completed list holds exactly the records whose status is completed, each unchanged, and is as long as the completed count |
| CourseManagement.DroppedEnrollments | src/modules/CourseManagement/Domain/Entity/Course.php:275-285 | the dropped list holds exactly the records whose status is dropped, each unchanged, and is as long as the dropped count |
| CourseManagement.AvailableCapacity | src/modules/CourseManagement/Domain/Entity/Course.php:243-246 | free capacity plus active records equal the capacity; none free iff the course is at max capacity |
| CourseManagement.EnrollmentStatistics | src/modules/CourseManagement/Domain/Entity/Course.php:229-238 | the four per-status counts add up to the total number of records |
| CourseManagement.StatusCountsPartition | src/modules/CourseManagement/Domain/Entity/Course.php:167-220 | the four status classes partition the records |
| CourseManagement.RecordEnrollment | src/modules/CourseManagement/Domain/Entity/Course.php:101-131 | recording fails iff the student already has a record or the active count reached capacity, in that order; success adds one fresh active record and changes nothing else but the update time |
| CourseManagement.RecordEnrollmentCounts | src/modules/CourseManagement/Domain/Entity/Course.php:101-131 | a successful record adds one to the total and the active count and leaves the other counts alone |
| CourseManagement.InactiveRecordsFreeSeats | src/modules/CourseManagement/Domain/Entity/Course.php:152-155 | completing, dropping or suspending an active record frees a seat |
| CourseManagement.UpdateCourseInfo | src/modules/CourseManagement/Domain/Entity/Course.php:290-298 | an update succeeds iff the new title passes; it never touches id, capacity or records |
| EnrollmentSaga.PlaceholderTitleIsValid | src/modules/CourseManagement/Application/Command/EnrollStudentHandler.php:40-48 | the placeholder title passes the title rule |
| EnrollmentSaga.PlaceholderCourse | src/modules/CourseManagement/Application/Command/EnrollStudentHandler.php:40-48 | creating the placeholder never fails; it has the command's course id, the fixed title, description and capacity 100, and no records |
| EnrollmentSaga.AdminCourseFor | src/modules/CourseManagement/Application/Command/EnrollStudentHandler.php:38-48 | the stored course when there is one, the placeholder otherwise |
| EnrollmentSaga.SaveAdminCourse | src/modules/CourseManagement/Application/Command/EnrollStudentHandler.php:65 | saving stores the course under its id and leaves every other course as it was |
| EnrollmentSaga.AdminEnroll | src/modules/CourseManagement/Application/Command/EnrollStudentHandler.php:31-82 | course id, then student id, then date are checked first; a success saves under the course id only |
| EnrollmentSaga.AdminEnrollDecides | src/modules/CourseManagement/Application/Command/EnrollStudentHandler.php:56-81 | past the checks, the handler succeeds iff the chosen course has no record for the student and room; otherwise it fails with the course's refusal |
| EnrollmentSaga.AdminEnrollKeepsKeys | src/modules/CourseManagement/Application/Command/EnrollStudentHandler.php:38-65 | the store stays keyed by course id |
| EnrollmentSaga.AdminEnrollRecords | src/modules/CourseManagement/Application/Command/EnrollStudentHandler.php:56-65 | a success saves an active record carrying the command's snapshot, parsed date and course id |
| EnrollmentSaga.PlaceholderOnlyWithRecord | src/modules/CourseManagement/Application/Command/EnrollStudentHandler.php:40-65 | a placeholder is saved only together with its first and only record |
| EnrollmentSaga.CommandFrom | src/modules/CourseManagement/Infrastructure/EventListener/StudentEnrolledListener.php:55-61 | the command carries the event's ids and snapshot; its date is the event's enrolled_at array field |
| EnrollmentSaga.ListenerProcess | src/modules/CourseManagement/Infrastructure/EventListener/StudentEnrolledListener.php:40-82 | objects other than StudentEnrolled are ignored and never fail; a StudentEnrolled runs the handler once, its failure is rethrown, and a success touches only the event's course |
| EnrollmentSaga.Persisted | src/modules/StudentLearning/Application/Command/EnrollStudentHandler.php:59 | a stored course keeps no pending events and nothing else changes |
| EnrollmentSaga.LearningEnroll | src/modules/StudentLearning/Application/Command/EnrollStudentHandler.php:37-78 | the checks run in order: course id, student id, student lookup, course lookup, each failing with its own error; students and other courses are never touched |
| EnrollmentSaga.SaveAndPublish | src/modules/StudentLearning/Application/Command/EnrollStudentHandler.php:59-62 | the granted course is saved, without pending events, before its events are published; the bus state, success and error are the publish's, and the save stands whatever the publish does |
| EnrollmentSaga.GrantedEvent | src/modules/StudentLearning/Domain/Entity/Course.php:118-125 | the event of a grant is a StudentEnrolled domain event |
| EnrollmentSaga.EarlyFailureChangesNothing | src/modules/StudentLearning/Application/Command/EnrollStudentHandler.php:37-78 | a failure before or in the grant leaves every store and the bus as they were, and reports the grant's error |
| EnrollmentSaga.AdminFailureKeepsLearningGrant | src/modules/StudentLearning/Application/Command/EnrollStudentHandler.php:54-78 | when the management step fails after a grant, the learning course is already saved with the grant, the bus and management store are unchanged, and the management error reaches the caller |
| EnrollmentSaga.SagaSuccessIsConsistent | src/modules/CourseManagement/Infrastructure/EventListener/StudentEnrolledListener.php:40-82 | after a successful saga, both contexts know the student; the records agree on snapshot and date, and one StudentEnrolled was delivered |
| EnrollmentSaga.SagaSucceedsIffBothSteps | src/modules/StudentLearning/Application/Command/EnrollStudentHandler.php:54-78 | the saga succeeds iff the grant and the management step both succeed |
| EnrollmentSaga.PartialEnrollmentWitness | src/modules/StudentLearning/Application/Command/EnrollStudentHandler.php:58-62 | a concrete run that reports the management refusal yet leaves the student with learning access |
| EnrollmentSaga.AtomicLearningEnroll | src/modules/CourseManagement/Infrastructure/EventListener/StudentEnrolledListener.php:78-80 | with the save after publishing, a failed run leaves the learning courses and students as they were |
| EnrollmentSaga.AtomicEnrollAgrees | src/modules/StudentLearning/Application/Command/EnrollStudentHandler.php:54-78 | the corrected handler agrees with the original on success, on the final state of a success, and on the error; only the learning courses after a failure differ |
| EnrollmentSaga.AtomicEnrollRejectsWitness | src/modules/CourseManagement/Infrastructure/EventListener/StudentEnrolledListener.php:78-80 | on the witness run, the corrected handler fails with the same error and grants no access |
| TenantValues.TenantIdFromString | src/app/Domain/Tenant/ValueObject/TenantId.php:22-25 | an id is accepted iff it is not PHP-empty (so "0" is refused) and at most 36 bytes, and it keeps the text unchanged |
| TenantValues.TenantIdRoundTrip | src/app/Domain/Tenant/ValueObject/TenantId.php:22-40 | an id reads back from its text; two ids are equal iff their texts are |
| TenantValues.SlugPatternIsShape | src/app/Domain/Tenant/ValueObject/TenantSlug.php:16 | the slug pattern matches exactly the non-empty strings of a-z, 0-9 and '-' that neither start nor end with '-' and never hold "--" |
| TenantValues.TenantSlugFromString | src/app/Domain/Tenant/ValueObject/TenantSlug.php:26-64 | the input is trimmed and lower-cased; the result is accepted iff it is non-empty, 3..50 bytes and matches the pattern; failures come in the order empty, short, long, pattern |
| TenantValues.AcceptedSlugShape | src/app/Domain/Tenant/ValueObject/TenantSlug.php:16-18 | an accepted slug has 3..50 characters of that shape |
| TenantValues.SlugRoundTrip | src/app/Domain/Tenant/ValueObject/TenantSlug.php:26-34 | an accepted slug reads back from its text unchanged |
| TenantValues.SlugEqualsUpToNormalForm | src/app/Domain/Tenant/ValueObject/TenantSlug.php:36-39 | inputs with the same normal form give the same outcome; accepted slugs are equal iff their normal forms are |
| TenantValues.StatusValue | src/app/Domain/Tenant/ValueObject/TenantStatus.php:14-17 | every backing value is lower-case ASCII |
| TenantValues.StatusFromString | src/app/Domain/Tenant/ValueObject/TenantStatus.php:29-33 | text is accepted iff its lower-case form is one of the four values; an unknown one fails with the input |
| TenantValues.StatusRoundTrip | src/modules/Tenant/Domain/ValueObject/TenantStatus.php:14-33 | every status reads back from its value, in any ASCII case; isActive and canAccessPlatform both hold iff the status is active |
| TenantValues.ContactEmailFromString | src/modules/TenantManagement/Domain/ValueObject/ContactEmail.php:20-44 | the input is trimmed and lower-cased; it is refused if empty, then if the format filter rejects it (quoting the normalised value) |
| TenantValues.ContactEmailRoundTrip | src/modules/TenantManagement/Domain/ValueObject/ContactEmail.php:20-33 | an accepted address reads back from its text; inputs with the same normal form are equal |
| Tenants.TenantNameError | src/app/Domain/Tenant/Entity/Tenant.php:209-222 | a name is accepted iff its trim is not PHP-empty and its raw byte length is 3..255 |
| Tenants.CreatedEvent | src/app/Domain/Tenant/Entity/Tenant.php:63-68 | the creation event carries the id, name, slug text and time; it is a domain event only in the module edition |
| Tenants.NewTenant | src/app/Domain/Tenant/Entity/Tenant.php:25-36 | construction succeeds iff the name passes, with no pending events |
| Tenants.CreateTenant | src/modules/TenantManagement/Domain/Entity/Tenant.php:42-72 | create keeps its arguments, defaults to pending, stamps both times with now, and records exactly one creation event |
| Tenants.ReconstituteTenant | src/app/Domain/Tenant/Entity/Tenant.php:76-96 | loading applies the name rule, keeps every stored field, and records no event |
| Tenants.Activate | src/app/Domain/Tenant/Entity/Tenant.php:101-109 | activation fails iff the tenant is already active; otherwise only status and update time change |
| Tenants.SuspendTenant | src/app/Domain/Tenant/Entity/Tenant.php:114-122 | suspension fails iff the tenant is already suspended; otherwise only status and update time change |
| Tenants.Deactivate | src/app/Domain/Tenant/Entity/Tenant.php:127-131 | deactivation never fails, sets inactive from any status, and changes nothing else but the update time |
| Tenants.UpdateTenantInfo | src/modules/TenantManagement/Domain/Entity/Tenant.php:137-145 | an update succeeds iff the name passes; only name, e-mail, phone and update time change, and a refused one changes nothing |
| Tenants.ReleaseTenantEvents | src/app/Domain/Tenant/Entity/Tenant.php:196-201 | release returns the pending events and leaves the tenant otherwise unchanged with none |
| Tenants.TenantStatusTable | src/modules/TenantManagement/Domain/Entity/Tenant.php:102-153 | from each status: which of activate and suspend is refused, and whether the tenant then reaches the platform |
| Tenants.TenantIdentityIsStable | src/app/Domain/Tenant/Entity/Tenant.php:26-32 | no sequence of lifecycle calls changes id, slug, edition, creation time or pending events, and the name stays valid |
| Tenants.EditionsAgree | src/modules/TenantManagement/Domain/Entity/Tenant.php:42-72 | both editions build the same tenant; their creation events have the same array form under any date formatter, but only the module's is a domain event |
| Tenants.CreatedTenantReleasesOnce | src/modules/TenantManagement/Domain/Entity/Tenant.php:42-72 | a new tenant is pending and releases exactly its creation event, then nothing |
| TenantHandlers.SaveTenant | src/app/Domain/Tenant/Repository/TenantRepositoryInterface.php:21 | saving stores the tenant under its id without pending events and leaves every other tenant as it was |
| TenantHandlers.PrepareTenant | src/app/Application/Tenant/Command/CreateTenantHandler.php:32-44 | slug errors come first, then a taken slug (quoting the slug as typed); success needs a valid slug, a free slug, a valid e-mail and a valid name |
| TenantHandlers.DispatchCreated | src/modules/TenantManagement/Application/Command/CreateTenantHandler.php:50 | after dispatch the in-memory tenant has no pending events |
| TenantHandlers.CreateTenantHandle | src/modules/TenantManagement/Application/Command/CreateTenantHandler.php:29-53 | a failure before the save changes nothing; a tenant the handler returns has no pending events |
| TenantHandlers.HandleAfterPrepare | src/app/Application/Tenant/Command/CreateTenantHandler.php:47-52 | past the checks, the store holds the saved tenant and the bus is as the dispatch left it; the handler finishes iff the dispatch does, and a dispatch error is the handler's error |
| TenantHandlers.SlugCheckedFirst | src/app/Application/Tenant/Command/CreateTenantHandler.php:32 | a bad slug fails with its own error whatever the other inputs are |
| TenantHandlers.TakenSlugChangesNothing | src/app/Application/Tenant/Command/CreateTenantHandler.php:33-35 | a taken slug fails with nothing saved or dispatched, even when name or e-mail is bad too |
| TenantHandlers.SavedBeforeDispatch | src/app/Application/Tenant/Command/CreateTenantHandler.php:38-47 | past the checks, the new tenant is pending with exactly its creation event pending, and it is stored whether or not dispatch later fails |
| TenantHandlers.CreationEventDelivered | src/app/Application/Tenant/Command/CreateTenantHandler.php:47-52 | the creation event is the only thing delivered, and it is delivered iff the handler finishes |
| TenantHandlers.CreateTenantSucceedsIff | src/modules/TenantManagement/Application/Command/CreateTenantHandler.php:29-53 | the handler finishes iff every check passes and the consumers accept the creation event |
| TenantHandlers.CreateTenantKeepsSlugsUnique | src/migrations/2024_10_01_000001_create_tenants_table.php:24 | the unique index on slugs is preserved |
| TenantHandlers.AppEventRejectedByBus | src/app/Domain/Tenant/Event/TenantCreated.php:14 | the domain bus's publishEntity refuses the App creation event without delivering anything |
| CreateTenantDto.StringField | src/app/Application/Tenant/DTO/CreateTenantDTO.php:23-25 | a missing or null value reads as ''; a string reads as itself; anything else is a type error naming the key |
| CreateTenantDto.NullableStringField | src/app/Application/Tenant/DTO/CreateTenantDTO.php:26 | a missing or null phone reads as null; a string as itself; anything else is a type error |
| CreateTenantDto.FromArray | src/app/Application/Tenant/DTO/CreateTenantDTO.php:20-28 | fromArray succeeds iff no field has a non-string value; the first bad field in parameter order, contact_phone included, is reported; present strings become the fields; missing or null fields default to '' and to no phone |
| CreateTenantDto.ToArray | src/app/Application/Tenant/DTO/CreateTenantDTO.php:30-38 | the array form has exactly the keys name, slug, contact_email, contact_phone |
| CreateTenantDto.DtoRoundTrip | src/app/Application/Tenant/DTO/CreateTenantDTO.php:20-38 | fromArray(toArray(d)) gives d back |
| CreateTenantDto.EmptyPayloadDefaults | src/app/Application/Tenant/DTO/CreateTenantDTO.php:20-28 | a payload without the four keys yields empty strings and no phone |

## Left out

- HTTP controllers, request validation, response formatting and the pagination clamp are framework plumbing.
- Persistence is not modelled: repository implementations, ORM models and migrations. Repositories are maps. The migrations' unique slug index is the `SlugsUnique` invariant. The management context's unique (course, student) pair is the record map's key.
- Logging is not modelled: logger calls, logging configuration, and the TenantManagement `TenantCreatedListener`, which only logs.
- `listen()` of the enrollment listener is not modelled. It only names the event class. Its `process` is modelled, with the class test as a branch.
- Read-side handlers are not modelled: GetTenantHandler, ListTenantsHandler, GetTenantQuery, TenantDTO.
- Library calls are parameters: `Uuid::isValid`, `FILTER_VALIDATE_EMAIL`, date formatting and date parsing.
- `TenantId::generate` and `Str::uuid` are randomness. The handler receives the generated `TenantId` as a parameter.
- Wall-clock reads are the `now` parameter. Timestamps are integer instants without time zones or precision loss.
- Concurrency is not modelled. Check-then-act races on slug uniqueness and on course capacity between requests cannot occur in a sequential model.
- Several source files are not part of this model:
  - the `App` edition's `ContactEmail`, for which the TenantManagement module's is used;
  - the TenantManagement module's `TenantId`, `TenantSlug` and repository interface, for which the `App` edition's are used;
  - the management-side `CourseId` and `StudentId`, which are assumed to be UUID-checked like the learning-side ones.
- Byte strings that are not valid UTF-8 cannot be represented: strings are sequences of Unicode scalar values, so `strlen` and `trim` are modelled only on well-formed UTF-8 input.
- PHP array order is not kept where arrays become maps: the learner list of a learning course and the management getters (`getActiveEnrollments` and the others, which filter with `array_filter` and keep insertion order) return maps keyed by student id. No caller in the modelled code depends on that order.
- Exception messages are replaced by distinct error values. Where a message quotes an input, the error carries that input.
- EnrollmentSaga.AdminEnrollRecords: requires the management store to be keyed by course id (`AdminKeyedById`). The repository finds a course by its id, and the handler keeps that property (`AdminEnrollKeepsKeys`).
- EnrollmentSaga.SagaSuccessIsConsistent: requires the loaded student and course to carry the ids they were found under. This is a repository property the PHP code never checks.
- EventBus.Dispatch: a failing consumer is assumed to leave its own state unchanged. The PSR-14 listeners in scope throw before they save.

## Findings

| source | as written | input that shows it | evidently intended | confidence | as-written member | corrected member |
|---|---|---|---|---|---|---|
| src/modules/StudentLearning/Application/Command/EnrollStudentHandler.php:58-62 | the learning course is saved before its `StudentEnrolled` is published, and nothing undoes the save when the management step rethrows | learning course "c1" has room and no entry for student "s1" ("c1" and "s1" stand for valid UUIDs; the witness platform accepts them as such); the management course "c1" already holds a (dropped) record for "s1"; the caller gets "record exists" while the saved learning course grants "s1" access. A management course created as a placeholder with capacity 100 behind a learning course with more seats fails the same way for the 101st learner | the listener's comment (StudentEnrolledListener.php:78-80) says the rethrow is there so that the original enrollment fails when it cannot be recorded in CourseManagement, so a refused enrollment should leave no learning access behind | medium, not executed | EnrollmentSaga.PartialEnrollmentWitness | EnrollmentSaga.AtomicLearningEnroll |

`EnrollmentSaga.AdminFailureKeepsLearningGrant` states the as-written
behaviour for every input: the grant is already saved when the management
error reaches the caller. In `EnrollmentSaga.AtomicLearningEnroll` the save
follows a successful publish. Its contract guarantees that an aborted run
leaves the learning courses unchanged. `EnrollmentSaga.AtomicEnrollAgrees`
shows that it behaves like the original everywhere else.
