/** The `Tenant` aggregate. The `App` edition and the TenantManagement
    module's edition have the same fields, rules and lifecycle. The `App`
    edition keeps its own event array; the module's uses the shared event
    trait. They differ in one respect only: the event `create` records. The
    module's is a domain event; the `App` one is a plain object. Both
    editions are one datatype, and the `edition` field selects the event. */
module Tenants {
  import opened Wrappers
  import opened Errors
  import opened PhpText
  import opened DomainEvents
  import opened TenantValues
  import EventQueue

  datatype Edition = AppEdition | ModulesEdition

  datatype Tenant = Tenant(
    edition: Edition,
    id: TenantId,
    name: string,
    slug: TenantSlug,
    contactEmail: ContactEmail,
    contactPhone: Option<string>,
    status: TenantStatus,
    createdAt: Instant,
    updatedAt: Instant,
    events: EventQueue.Queue<Publishable>)

  predicate ValidTenantName(name: string) {
    !IsEmpty(Trim(name)) && 3 <= ByteLength(name) <= 255
  }

  /** `validateName`: blank after trimming, then under 3 or over 255 bytes. */
  function TenantNameError(name: string): (r: Option<Error>)
    ensures r.None? <==> ValidTenantName(name)
    ensures IsEmpty(Trim(name)) ==> r == Some(TenantNameEmpty)
    ensures r.Some? ==> r.value in {TenantNameEmpty, TenantNameTooShort, TenantNameTooLong}
  {
    match CheckText(name, 3, 255)
    case Acceptable => None
    case Blank => Some(TenantNameEmpty)
    case TooShort => Some(TenantNameTooShort)
    case TooLong => Some(TenantNameTooLong)
  }

  /** The event `create` records in each edition. */
  function CreatedEvent(edition: Edition, id: TenantId, name: string, slug: TenantSlug, now: Instant): (r: Object)
    ensures r.TenantCreated? || r.AppTenantCreated?
    ensures IsDomainEvent(r) <==> edition == ModulesEdition
    ensures r.tenantId == TenantIdToString(id) && r.name == name
    ensures r.slug == TenantSlugToString(slug) && r.occurredAt == now
  {
    match edition
    case AppEdition => AppTenantCreated(id.value, name, slug.value, now)
    case ModulesEdition => TenantCreated(id.value, name, slug.value, now)
  }

  /** The private constructor: validates the name, starts with no events. */
  function NewTenant(edition: Edition, id: TenantId, name: string, slug: TenantSlug, contactEmail: ContactEmail,
                     contactPhone: Option<string>, status: TenantStatus,
                     createdAt: Instant, updatedAt: Instant): (r: Result<Tenant, Error>)
    ensures r.Success? <==> ValidTenantName(name)
    ensures r.Failure? ==> Some(r.error) == TenantNameError(name)
    ensures r.Success? ==> r.value.events.pending == []
  {
    match TenantNameError(name)
    case Some(err) => Failure(err)
    case None =>
      Success(Tenant(edition, id, name, slug, contactEmail, contactPhone, status,
                     createdAt, updatedAt, EventQueue.Empty()))
  }

  /** `Tenant::create`: the status defaults to pending, both timestamps are
      the current time, and one creation event is recorded. */
  function CreateTenant(edition: Edition, now: Instant, id: TenantId, name: string, slug: TenantSlug,
                        contactEmail: ContactEmail, contactPhone: Option<string> := None,
                        status: Option<TenantStatus> := None): (r: Result<Tenant, Error>)
    ensures r.Success? <==> ValidTenantName(name)
    ensures r.Failure? ==> Some(r.error) == TenantNameError(name)
    ensures r.Success? ==>
              && r.value.edition == edition && r.value.id == id && r.value.name == name && r.value.slug == slug
              && r.value.contactEmail == contactEmail && r.value.contactPhone == contactPhone
              && r.value.createdAt == now && r.value.updatedAt == now
    ensures r.Success? ==> r.value.status == status.GetOr(Pending)
    ensures r.Success? ==> r.value.events.pending == [Obj(CreatedEvent(edition, id, name, slug, now))]
  {
    var t :- NewTenant(edition, id, name, slug, contactEmail, contactPhone, status.GetOr(Pending), now, now);
    Success(t.(events := EventQueue.Record(t.events, Obj(CreatedEvent(edition, id, name, slug, now)))))
  }

  /** `Tenant::reconstitute`: the stored fields, the same name rule, and no
      events. */
  function ReconstituteTenant(edition: Edition, id: TenantId, name: string, slug: TenantSlug,
                              contactEmail: ContactEmail, contactPhone: Option<string>, status: TenantStatus,
                              createdAt: Instant, updatedAt: Instant): (r: Result<Tenant, Error>)
    ensures r.Success? <==> ValidTenantName(name)
    ensures r.Success? ==>
              && r.value.id == id && r.value.name == name && r.value.slug == slug
              && r.value.contactEmail == contactEmail && r.value.contactPhone == contactPhone
              && r.value.status == status && r.value.createdAt == createdAt && r.value.updatedAt == updatedAt
    ensures r.Success? ==> !EventQueue.HasEvents(r.value.events)
  {
    NewTenant(edition, id, name, slug, contactEmail, contactPhone, status, createdAt, updatedAt)
  }

  /** `activate`: refused when already active. */
  function Activate(t: Tenant, now: Instant): (r: Result<Tenant, Error>)
    ensures r.Failure? <==> IsActive(t.status)
    ensures r.Failure? ==> r.error == TenantAlreadyActive
    ensures r.Success? ==> r.value.status == Active && r.value.updatedAt == now
    ensures r.Success? ==> r.value.(status := t.status, updatedAt := t.updatedAt) == t
  {
    if IsActive(t.status) then Failure(TenantAlreadyActive)
    else Success(t.(status := Active, updatedAt := now))
  }

  /** `suspend`: refused when already suspended. */
  function SuspendTenant(t: Tenant, now: Instant): (r: Result<Tenant, Error>)
    ensures r.Failure? <==> t.status == Suspended
    ensures r.Failure? ==> r.error == TenantAlreadySuspended
    ensures r.Success? ==> r.value.status == Suspended && r.value.updatedAt == now
    ensures r.Success? ==> r.value.(status := t.status, updatedAt := t.updatedAt) == t
  {
    if t.status == Suspended then Failure(TenantAlreadySuspended)
    else Success(t.(status := Suspended, updatedAt := now))
  }

  /** `deactivate`: unconditional. */
  function Deactivate(t: Tenant, now: Instant): (r: Tenant)
    ensures r.status == Inactive && r.updatedAt == now
    ensures r.(status := t.status, updatedAt := t.updatedAt) == t
  {
    t.(status := Inactive, updatedAt := now)
  }

  /** `updateInfo`: the name is validated before anything is assigned, so a
      refused update leaves the tenant as it was. */
  function UpdateTenantInfo(t: Tenant, now: Instant, name: string, contactEmail: ContactEmail,
                            contactPhone: Option<string> := None): (r: Result<Tenant, Error>)
    ensures r.Success? <==> ValidTenantName(name)
    ensures r.Failure? ==> Some(r.error) == TenantNameError(name)
    ensures r.Success? ==>
              r.value.name == name && r.value.contactEmail == contactEmail
              && r.value.contactPhone == contactPhone && r.value.updatedAt == now
    ensures r.Success? ==>
              r.value.(name := t.name, contactEmail := t.contactEmail,
                       contactPhone := t.contactPhone, updatedAt := t.updatedAt) == t
  {
    if TenantNameError(name).Some? then Failure(TenantNameError(name).value)
    else Success(t.(name := name, contactEmail := contactEmail, contactPhone := contactPhone, updatedAt := now))
  }

  predicate TenantCanAccessPlatform(t: Tenant) {
    CanAccessPlatform(t.status)
  }

  datatype TenantReleased = TenantReleased(events: seq<Publishable>, tenant: Tenant)

  /** `releaseEvents()`: the pending events, and the tenant with none. */
  function ReleaseTenantEvents(t: Tenant): (r: TenantReleased)
    ensures r.events == t.events.pending && r.tenant.events.pending == []
    ensures r.tenant.(events := t.events) == t
  {
    var rel := EventQueue.Release(t.events);
    TenantReleased(rel.events, t.(events := rel.queue))
  }

  // ---------------------------------------------------------------- lifecycle

  datatype TenantCommand =
    | ActivateCmd
    | SuspendCmd
    | DeactivateCmd
    | UpdateInfoCmd(name: string, contactEmail: ContactEmail, contactPhone: Option<string>)

  /** One lifecycle call; a refused call leaves the tenant as it was. */
  function Perform(t: Tenant, c: TenantCommand, now: Instant): Tenant {
    match c
    case ActivateCmd => KeepIfRefused(Activate(t, now), t)
    case SuspendCmd => KeepIfRefused(SuspendTenant(t, now), t)
    case DeactivateCmd => Deactivate(t, now)
    case UpdateInfoCmd(n, e, p) => KeepIfRefused(UpdateTenantInfo(t, now, n, e, p), t)
  }

  function KeepIfRefused(r: Result<Tenant, Error>, t: Tenant): Tenant {
    if r.Success? then r.value else t
  }

  function PerformAll(t: Tenant, cs: seq<TenantCommand>, now: Instant): Tenant
    decreases |cs|
  {
    if cs == [] then t else PerformAll(Perform(t, cs[0], now), cs[1..], now)
  }

  /** The status table: from every status, which call is refused, where
      the others lead, and whether the tenant then reaches the platform. */
  lemma TenantStatusTable(t: Tenant, now: Instant)
    ensures Activate(t, now).Success? <==> t.status in {Inactive, Suspended, Pending}
    ensures SuspendTenant(t, now).Success? <==> t.status in {Active, Inactive, Pending}
    ensures Activate(t, now).Success? ==> TenantCanAccessPlatform(Activate(t, now).value)
    ensures SuspendTenant(t, now).Success? ==> !TenantCanAccessPlatform(SuspendTenant(t, now).value)
    ensures !TenantCanAccessPlatform(Deactivate(t, now))
    ensures TenantCanAccessPlatform(t) <==> t.status == Active
  {
  }

  /** Id, slug, edition, creation time and pending events never change
      under any sequence of lifecycle calls; the name always stays valid. */
  lemma {:induction false} TenantIdentityIsStable(t: Tenant, cs: seq<TenantCommand>, now: Instant)
    requires ValidTenantName(t.name)
    ensures var u := PerformAll(t, cs, now);
            && u.id == t.id && u.slug == t.slug && u.edition == t.edition
            && u.createdAt == t.createdAt && u.events == t.events
            && ValidTenantName(u.name)
    decreases |cs|
  {
    if cs != [] {
      PerformKeepsIdentity(t, cs[0], now);
      TenantIdentityIsStable(Perform(t, cs[0], now), cs[1..], now);
    }
  }

  lemma PerformKeepsIdentity(t: Tenant, c: TenantCommand, now: Instant)
    requires ValidTenantName(t.name)
    ensures var u := Perform(t, c, now);
            && u.id == t.id && u.slug == t.slug && u.edition == t.edition
            && u.createdAt == t.createdAt && u.events == t.events
            && ValidTenantName(u.name)
  {
    match c
    case ActivateCmd =>
    case SuspendCmd =>
    case DeactivateCmd =>
    case UpdateInfoCmd(n, e, p) =>
  }

  /** The two editions build the same tenant from the same arguments, up to
      the edition tag and the created event. The module's event is a domain
      event and the `App` one is not; both carry the same payload, and so
      read as the same array under any date format. */
  lemma EditionsAgree(now: Instant, id: TenantId, name: string, slug: TenantSlug,
                      contactEmail: ContactEmail, contactPhone: Option<string>, status: Option<TenantStatus>,
                      format: Instant -> string)
    requires ValidTenantName(name)
    ensures var a := CreateTenant(AppEdition, now, id, name, slug, contactEmail, contactPhone, status);
            var m := CreateTenant(ModulesEdition, now, id, name, slug, contactEmail, contactPhone, status);
            && a.Success? && m.Success?
            && a.value.(edition := ModulesEdition, events := m.value.events) == m.value
            && |a.value.events.pending| == 1 && |m.value.events.pending| == 1
            && !IsDomainEvent(a.value.events.pending[0].obj)
            && IsDomainEvent(m.value.events.pending[0].obj)
            && ToArray(a.value.events.pending[0].obj, format)
               == ToArray(m.value.events.pending[0].obj, format)
  {
  }

  /** A created tenant releases exactly its one creation event, then
      nothing; a reconstituted tenant releases nothing. */
  lemma CreatedTenantReleasesOnce(edition: Edition, now: Instant, id: TenantId, name: string, slug: TenantSlug,
                                  contactEmail: ContactEmail)
    requires ValidTenantName(name)
    ensures var t := CreateTenant(edition, now, id, name, slug, contactEmail).value;
            var rel := ReleaseTenantEvents(t);
            && rel.events == [Obj(CreatedEvent(edition, id, name, slug, now))]
            && ReleaseTenantEvents(rel.tenant).events == []
            && rel.tenant.status == Pending
  {
  }
}
