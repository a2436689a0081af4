/** `CreateTenantDTO`: the request payload for tenant creation, read from and
    written to a PHP array. The file declares `strict_types`, so a present
    value of the wrong type is a `TypeError`, not a conversion. */
module CreateTenantDto {
  import opened Wrappers
  import opened Errors
  import opened PhpArray

  /** A value in the incoming array: a string, null, or anything else. */
  datatype PhpValue = PStr(s: string) | PNull | POther(typeName: string)

  datatype CreateTenantDTO = CreateTenantDTO(
    name: string, slug: string, contactEmail: string, contactPhone: Option<string>)

  const DtoKeys: seq<string> := ["name", "slug", "contact_email", "contact_phone"]

  /** `$data[$key] ?? ''` bound to a `string` parameter. */
  function StringField(data: Assoc<PhpValue>, key: string): (r: Result<string, Error>)
    ensures Lookup(data, key).None? || Lookup(data, key) == Some(PNull) ==> r == Success("")
    ensures Lookup(data, key).Some? && Lookup(data, key).value.PStr? ==> r == Success(Lookup(data, key).value.s)
    ensures r.Failure? <==> Lookup(data, key).Some? && Lookup(data, key).value.POther?
    ensures r.Failure? ==> r.error == NotAString(key)
  {
    match Lookup<PhpValue>(data, key)
    case None => Success("")
    case Some(PNull) => Success("")
    case Some(PStr(s)) => Success(s)
    case Some(POther(_)) => Failure(NotAString(key))
  }

  /** `$data[$key] ?? null` bound to a `?string` parameter. */
  function NullableStringField(data: Assoc<PhpValue>, key: string): (r: Result<Option<string>, Error>)
    ensures Lookup(data, key).None? || Lookup(data, key) == Some(PNull) ==> r == Success(None)
    ensures Lookup(data, key).Some? && Lookup(data, key).value.PStr? ==> r == Success(Some(Lookup(data, key).value.s))
    ensures r.Failure? <==> Lookup(data, key).Some? && Lookup(data, key).value.POther?
    ensures r.Failure? ==> r.error == NotAString(key)
  {
    match Lookup<PhpValue>(data, key)
    case None => Success(None)
    case Some(PNull) => Success(None)
    case Some(PStr(s)) => Success(Some(s))
    case Some(POther(_)) => Failure(NotAString(key))
  }

  /** Whether the value under `key` would be refused by a string parameter. */
  predicate IllTyped(data: Assoc<PhpValue>, key: string) {
    Lookup(data, key).Some? && Lookup(data, key).value.POther?
  }

  /** Whether `$data[$key] ?? …` falls back to its default: the key is
      missing or holds null. */
  predicate Absent(data: Assoc<PhpValue>, key: string) {
    Lookup(data, key).None? || Lookup(data, key) == Some(PNull)
  }

  /** `CreateTenantDTO::fromArray`: parameters are bound in declaration
      order, so the first ill-typed one in that order is reported. */
  function FromArray(data: Assoc<PhpValue>): (r: Result<CreateTenantDTO, Error>)
    ensures r.Success? <==>
              && !IllTyped(data, "name") && !IllTyped(data, "slug")
              && !IllTyped(data, "contact_email") && !IllTyped(data, "contact_phone")
    ensures IllTyped(data, "name") ==> r == Failure(NotAString("name"))
    ensures !IllTyped(data, "name") && IllTyped(data, "slug") ==> r == Failure(NotAString("slug"))
    ensures (&& !IllTyped(data, "name") && !IllTyped(data, "slug")
             && IllTyped(data, "contact_email"))
            ==> r == Failure(NotAString("contact_email"))
    ensures (&& !IllTyped(data, "name") && !IllTyped(data, "slug")
             && !IllTyped(data, "contact_email") && IllTyped(data, "contact_phone"))
            ==> r == Failure(NotAString("contact_phone"))
    ensures r.Success? ==>
              && Success(r.value.name) == StringField(data, "name")
              && Success(r.value.slug) == StringField(data, "slug")
              && Success(r.value.contactEmail) == StringField(data, "contact_email")
              && Success(r.value.contactPhone) == NullableStringField(data, "contact_phone")
    ensures r.Success? && Absent(data, "name") ==> r.value.name == ""
    ensures r.Success? && Absent(data, "slug") ==> r.value.slug == ""
    ensures r.Success? && Absent(data, "contact_email") ==> r.value.contactEmail == ""
    ensures r.Success? && Absent(data, "contact_phone") ==> r.value.contactPhone == None
  {
    var name :- StringField(data, "name");
    var slug :- StringField(data, "slug");
    var contactEmail :- StringField(data, "contact_email");
    var contactPhone :- NullableStringField(data, "contact_phone");
    Success(CreateTenantDTO(name, slug, contactEmail, contactPhone))
  }

  function PhoneValue(p: Option<string>): PhpValue {
    match p
    case Some(s) => PStr(s)
    case None => PNull
  }

  /** `toArray()`: the four fields under their snake-case keys. */
  function ToArray(dto: CreateTenantDTO): (r: Assoc<PhpValue>)
    ensures Keys(r) == DtoKeys
    ensures forall i :: 0 <= i < 3 ==> r[i].1.PStr?
  {
    [("name", PStr(dto.name)), ("slug", PStr(dto.slug)),
     ("contact_email", PStr(dto.contactEmail)), ("contact_phone", PhoneValue(dto.contactPhone))]
  }

  /** Every DTO survives the trip through its array form. */
  lemma DtoRoundTrip(dto: CreateTenantDTO)
    ensures FromArray(ToArray(dto)) == Success(dto)
  {
    var a := ToArray(dto);
    LookupAt(a, 0);
    LookupAt(a, 1);
    LookupAt(a, 2);
    LookupAt(a, 3);
  }

  /** An empty payload is accepted, with empty strings and no phone; a
      payload with only unrelated keys reads the same. */
  lemma EmptyPayloadDefaults(data: Assoc<PhpValue>)
    requires forall i :: 0 <= i < |data| ==> data[i].0 !in DtoKeys
    ensures FromArray(data) == Success(CreateTenantDTO("", "", "", None))
  {
    forall k | k in DtoKeys
      ensures Lookup(data, k) == None
    {
      LookupAbsent(data, k);
    }
  }
}
