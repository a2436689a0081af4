/** The tenant context's value objects: `TenantId`, `TenantSlug`,
    `TenantStatus` (identical in both editions) and `ContactEmail`.
    `filter_var(..., FILTER_VALIDATE_EMAIL)` is the `isEmail` parameter. */
module TenantValues {
  import opened Wrappers
  import opened Errors
  import opened PhpText

  // ---------------------------------------------------------------- TenantId

  datatype TenantId = TenantId(value: string)

  const TenantIdMaxBytes: nat := 36

  /** `TenantId::fromString`: the text is kept as given; PHP-empty text
      (including "0") and text over 36 bytes are refused. */
  function TenantIdFromString(id: string): (r: Result<TenantId, Error>)
    ensures r.Success? <==> !IsEmpty(id) && ByteLength(id) <= TenantIdMaxBytes
    ensures IsEmpty(id) ==> r == Failure(TenantIdEmpty)
    ensures !IsEmpty(id) && ByteLength(id) > TenantIdMaxBytes ==> r == Failure(TenantIdTooLong)
    ensures r.Success? ==> TenantIdToString(r.value) == id
  {
    if IsEmpty(id) then Failure(TenantIdEmpty)
    else if ByteLength(id) > TenantIdMaxBytes then Failure(TenantIdTooLong)
    else Success(TenantId(id))
  }

  function TenantIdToString(t: TenantId): string {
    t.value
  }

  predicate TenantIdEquals(a: TenantId, b: TenantId) {
    a.value == b.value
  }

  /** Reading an id back from its text gives the same id, and two ids read
      from text are `equals` exactly when the texts are identical. */
  lemma TenantIdRoundTrip(s: string, t: string)
    requires TenantIdFromString(s).Success? && TenantIdFromString(t).Success?
    ensures TenantIdFromString(TenantIdToString(TenantIdFromString(s).value)) == TenantIdFromString(s)
    ensures TenantIdEquals(TenantIdFromString(s).value, TenantIdFromString(t).value) <==> s == t
  {
  }

  // ---------------------------------------------------------------- TenantSlug

  const SlugMinLength: nat := 3
  const SlugMaxLength: nat := 50

  predicate IsSlugChar(c: char) {
    'a' <= c <= 'z' || '0' <= c <= '9'
  }

  /** `^[a-z0-9]+(?:-[a-z0-9]+)*$` as a right-linear grammar: a slug is a
      slug character followed by nothing, by another slug, or by '-' and
      another slug. */
  predicate MatchesSlugPattern(s: string)
    decreases |s|
  {
    && |s| > 0 && IsSlugChar(s[0])
    && (|s| == 1 || MatchesSlugPattern(s[1..]) || (s[1] == '-' && MatchesSlugPattern(s[2..])))
  }

  /** The shape the pattern describes, stated independently: only slug
      characters and hyphens, no hyphen at either end, no two hyphens in a
      row. */
  predicate SlugShape(s: string) {
    && |s| > 0
    && (forall i :: 0 <= i < |s| ==> IsSlugChar(s[i]) || s[i] == '-')
    && s[0] != '-' && s[|s| - 1] != '-'
    && forall i :: 0 < i < |s| ==> s[i] == '-' ==> s[i - 1] != '-'
  }

  lemma {:induction false} SlugPatternIsShape(s: string)
    ensures MatchesSlugPattern(s) <==> SlugShape(s)
    decreases |s|
  {
    if |s| >= 2 {
      var t1 := s[1..];
      var t2 := s[2..];
      SlugPatternIsShape(t1);
      SlugPatternIsShape(t2);
      assert forall i :: 0 <= i < |t1| ==> t1[i] == s[i + 1];
      assert forall i :: 0 <= i < |t2| ==> t2[i] == s[i + 2];
      if MatchesSlugPattern(s) {
        if MatchesSlugPattern(t1) {
          assert SlugShape(s) by {
            forall i | 0 < i < |s| && s[i] == '-'
              ensures s[i - 1] != '-'
            {
              if i > 1 {
                assert t1[i - 1] == '-';
              }
            }
          }
        } else {
          assert s[1] == '-' && SlugShape(t2);
          assert SlugShape(s) by {
            forall i | 0 < i < |s| && s[i] == '-'
              ensures s[i - 1] != '-'
            {
              if i > 2 {
                assert t2[i - 2] == '-';
              }
            }
          }
        }
      }
      if SlugShape(s) {
        if s[1] != '-' {
          assert SlugShape(t1) by {
            forall i | 0 < i < |t1| && t1[i] == '-'
              ensures t1[i - 1] != '-'
            {
              assert s[i + 1] == '-';
            }
          }
        } else {
          assert |s| > 2 && s[2] != '-';
          assert SlugShape(t2) by {
            forall i | 0 < i < |t2| && t2[i] == '-'
              ensures t2[i - 1] != '-'
            {
              assert s[i + 2] == '-';
            }
          }
        }
      }
    }
  }

  datatype TenantSlug = TenantSlug(value: string)

  /** The slug rule on an already normalised value. */
  predicate ValidSlugValue(v: string) {
    !IsEmpty(v) && SlugMinLength <= ByteLength(v) <= SlugMaxLength && MatchesSlugPattern(v)
  }

  /** `TenantSlug::fromString`: trims and lower-cases, then checks, in
      order, emptiness, the minimum and maximum length, and the pattern. */
  function TenantSlugFromString(slug: string): (r: Result<TenantSlug, Error>)
    ensures r.Success? <==> ValidSlugValue(Normalise(slug))
    ensures r.Success? ==> TenantSlugToString(r.value) == Normalise(slug)
    ensures IsEmpty(Normalise(slug)) ==> r == Failure(TenantSlugEmpty)
    ensures !IsEmpty(Normalise(slug)) && ByteLength(Normalise(slug)) < SlugMinLength ==> r == Failure(TenantSlugTooShort)
    ensures !IsEmpty(Normalise(slug)) && ByteLength(Normalise(slug)) > SlugMaxLength ==> r == Failure(TenantSlugTooLong)
    ensures (&& !IsEmpty(Normalise(slug))
             && SlugMinLength <= ByteLength(Normalise(slug)) <= SlugMaxLength
             && !MatchesSlugPattern(Normalise(slug)))
            ==> r == Failure(TenantSlugPattern)
  {
    var v := Normalise(slug);
    if IsEmpty(v) then Failure(TenantSlugEmpty)
    else if ByteLength(v) < SlugMinLength then Failure(TenantSlugTooShort)
    else if ByteLength(v) > SlugMaxLength then Failure(TenantSlugTooLong)
    else if !MatchesSlugPattern(v) then Failure(TenantSlugPattern)
    else Success(TenantSlug(v))
  }

  function TenantSlugToString(s: TenantSlug): string {
    s.value
  }

  predicate TenantSlugEquals(a: TenantSlug, b: TenantSlug) {
    a.value == b.value
  }

  lemma SlugCharsAreAscii(s: string)
    requires SlugShape(s)
    ensures IsAscii(s)
  {
  }

  /** An accepted slug is 3 to 50 characters of `a-z`, `0-9` and '-', never
      starts or ends with '-', and never holds "--". */
  lemma AcceptedSlugShape(slug: string)
    requires TenantSlugFromString(slug).Success?
    ensures var v := TenantSlugToString(TenantSlugFromString(slug).value);
            && SlugShape(v)
            && SlugMinLength <= |v| <= SlugMaxLength
  {
    var v := TenantSlugToString(TenantSlugFromString(slug).value);
    SlugPatternIsShape(v);
    SlugCharsAreAscii(v);
    AsciiByteLength(v);
  }

  /** Normalisation is idempotent, so reading an accepted slug back from its
      text gives the same slug. */
  lemma SlugRoundTrip(slug: string)
    requires TenantSlugFromString(slug).Success?
    ensures TenantSlugFromString(TenantSlugToString(TenantSlugFromString(slug).value)) == TenantSlugFromString(slug)
  {
    NormaliseIdempotent(slug);
  }

  /** Inputs that differ only in ASCII case or surrounding whitespace give
      the same outcome, and accepted slugs are `equals` exactly when their
      normal forms coincide. */
  lemma SlugEqualsUpToNormalForm(a: string, b: string)
    ensures Normalise(a) == Normalise(b) ==> TenantSlugFromString(a) == TenantSlugFromString(b)
    ensures TenantSlugFromString(a).Success? && TenantSlugFromString(b).Success? ==>
              (TenantSlugEquals(TenantSlugFromString(a).value, TenantSlugFromString(b).value)
               <==> Normalise(a) == Normalise(b))
  {
  }

  // ---------------------------------------------------------------- TenantStatus

  datatype TenantStatus = Active | Inactive | Suspended | Pending

  /** The enum's backing value. */
  function StatusValue(s: TenantStatus): (r: string)
    ensures forall i :: 0 <= i < |r| ==> 'a' <= r[i] <= 'z'
  {
    match s
    case Active => "active"
    case Inactive => "inactive"
    case Suspended => "suspended"
    case Pending => "pending"
  }

  /** `TenantStatus::fromString`: `tryFrom(strtolower($status))`. */
  function StatusFromString(status: string): (r: Result<TenantStatus, Error>)
    ensures r.Success? <==> ToLower(status) in {"active", "inactive", "suspended", "pending"}
    ensures r.Failure? ==> r.error == InvalidTenantStatus(status)
    ensures r.Success? ==> StatusValue(r.value) == ToLower(status)
  {
    match ToLower(status)
    case "active" => Success(Active)
    case "inactive" => Success(Inactive)
    case "suspended" => Success(Suspended)
    case "pending" => Success(Pending)
    case _ => Failure(InvalidTenantStatus(status))
  }

  predicate IsActive(s: TenantStatus) { s == Active }

  predicate CanAccessPlatform(s: TenantStatus) { s == Active }

  /** Every status reads back from its value, in any ASCII case; only the
      active status gives platform access. */
  lemma StatusRoundTrip(s: TenantStatus, spelling: string)
    requires ToLower(spelling) == StatusValue(s)
    ensures StatusFromString(StatusValue(s)) == Success(s)
    ensures StatusFromString(spelling) == Success(s)
    ensures IsActive(s) <==> CanAccessPlatform(s)
    ensures CanAccessPlatform(s) <==> s == Active
  {
    var t := StatusValue(s);
    assert ToLower(t) == t;
  }

  // ---------------------------------------------------------------- ContactEmail

  datatype ContactEmail = ContactEmail(value: string)

  /** `ContactEmail::fromString`: trims and lower-cases, then refuses an
      empty value and one the e-mail filter rejects. */
  function ContactEmailFromString(isEmail: string -> bool, email: string): (r: Result<ContactEmail, Error>)
    ensures r.Success? <==> !IsEmpty(Normalise(email)) && isEmail(Normalise(email))
    ensures IsEmpty(Normalise(email)) ==> r == Failure(ContactEmailEmpty)
    ensures !IsEmpty(Normalise(email)) && !isEmail(Normalise(email)) ==> r == Failure(ContactEmailFormat(Normalise(email)))
    ensures r.Success? ==> ContactEmailToString(r.value) == Normalise(email)
  {
    var v := Normalise(email);
    if IsEmpty(v) then Failure(ContactEmailEmpty)
    else if !isEmail(v) then Failure(ContactEmailFormat(v))
    else Success(ContactEmail(v))
  }

  function ContactEmailToString(e: ContactEmail): string {
    e.value
  }

  predicate ContactEmailEquals(a: ContactEmail, b: ContactEmail) {
    a.value == b.value
  }

  /** Reading an accepted address back from its text gives the same
      address; addresses differing only in ASCII case or surrounding
      whitespace are `equals`. */
  lemma ContactEmailRoundTrip(isEmail: string -> bool, a: string, b: string)
    requires ContactEmailFromString(isEmail, a).Success?
    ensures ContactEmailFromString(isEmail, ContactEmailToString(ContactEmailFromString(isEmail, a).value))
            == ContactEmailFromString(isEmail, a)
    ensures Normalise(a) == Normalise(b) ==>
              ContactEmailFromString(isEmail, b).Success?
              && ContactEmailEquals(ContactEmailFromString(isEmail, a).value, ContactEmailFromString(isEmail, b).value)
  {
    NormaliseIdempotent(a);
  }
}
