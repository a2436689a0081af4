/** The course-title rule, written identically in both bounded contexts'
    `Course::validateTitle`: not blank after trimming, then 3 to 255 bytes of
    raw (untrimmed) text. */
module CourseRules {
  import opened Wrappers
  import opened Errors
  import opened PhpText

  predicate ValidTitle(title: string) {
    !IsEmpty(Trim(title)) && 3 <= ByteLength(title) <= 255
  }

  function TitleError(title: string): (r: Option<Error>)
    ensures r.None? <==> ValidTitle(title)
    ensures r.Some? ==> r.value in {CourseTitleEmpty, CourseTitleTooShort, CourseTitleTooLong}
  {
    match CheckText(title, 3, 255)
    case Acceptable => None
    case Blank => Some(CourseTitleEmpty)
    case TooShort => Some(CourseTitleTooShort)
    case TooLong => Some(CourseTitleTooLong)
  }

  /** The upper bound both contexts put on a course's seat count. */
  const SeatLimit: int := 1000
}
