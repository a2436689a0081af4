/** `CreateTenantHandler::handle` in both editions, over a tenant repository
    kept as a map from id text to tenant.

    The flow is the same in both editions:
    1. normalise and validate the slug;
    2. refuse a slug already taken;
    3. build the tenant;
    4. save it;
    5. hand its events on.
    Step 3's arguments are evaluated in order: `TenantId::generate()`, then
    `ContactEmail::fromString` (which may throw), and only then `create`,
    which validates the name. The generated id is a parameter. The `App`
    handler passes each released event to the PSR-14 dispatcher itself. The
    module's handler calls the domain bus's `publishEntity`. */
module TenantHandlers {
  import opened Wrappers
  import opened Errors
  import opened DomainEvents
  import opened EventBus
  import opened TenantValues
  import opened Tenants
  import EventQueue

  type TenantStore = map<string, Tenant>

  /** `slugExists($slug)`. */
  predicate SlugExists(store: TenantStore, slug: TenantSlug) {
    exists k :: k in store && store[k].slug == slug
  }

  /** The unique index on `tenants.slug`. */
  predicate SlugsUnique(store: TenantStore) {
    forall a, b :: a in store && b in store && store[a].slug == store[b].slug ==> a == b
  }

  /** `save($tenant)`: create or update under the tenant's id. Pending events
      are not part of what is stored. */
  function SaveTenant(store: TenantStore, t: Tenant): (r: TenantStore)
    ensures r.Keys == store.Keys + {TenantIdToString(t.id)}
    ensures r[TenantIdToString(t.id)] == t.(events := EventQueue.Empty())
    ensures forall k :: k in store && k != TenantIdToString(t.id) ==> r[k] == store[k]
  {
    store[t.id.value := t.(events := EventQueue.Empty())]
  }

  datatype CreateTenantCommand = CreateTenantCommand(
    name: string, slug: string, contactEmail: string, contactPhone: Option<string>)

  /** Lines 32-44: every check, then `Tenant::create`. */
  function PrepareTenant(edition: Edition, isEmail: string -> bool, store: TenantStore,
                         cmd: CreateTenantCommand, newId: TenantId, now: Instant): (r: Result<Tenant, Error>)
    ensures TenantSlugFromString(cmd.slug).Failure? ==> r == Failure(TenantSlugFromString(cmd.slug).error)
    ensures TenantSlugFromString(cmd.slug).Success? && SlugExists(store, TenantSlugFromString(cmd.slug).value)
            ==> r == Failure(SlugAlreadyExists(cmd.slug))
    ensures r.Success? <==>
              && TenantSlugFromString(cmd.slug).Success?
              && !SlugExists(store, TenantSlugFromString(cmd.slug).value)
              && ContactEmailFromString(isEmail, cmd.contactEmail).Success?
              && ValidTenantName(cmd.name)
    ensures r.Success? ==>
              r == CreateTenant(edition, now, newId, cmd.name, TenantSlugFromString(cmd.slug).value,
                                ContactEmailFromString(isEmail, cmd.contactEmail).value, cmd.contactPhone)
  {
    var slug :- TenantSlugFromString(cmd.slug);
    if SlugExists(store, slug) then Failure(SlugAlreadyExists(cmd.slug))
    else
      var email :- ContactEmailFromString(isEmail, cmd.contactEmail);
      CreateTenant(edition, now, newId, cmd.name, slug, email, cmd.contactPhone)
  }

  datatype TenantSystem<S> = TenantSystem(store: TenantStore, bus: Bus<S>)

  /** The handler's outcome, and the in-memory tenant it built (the source of
      the returned DTO), if it got that far. */
  datatype CreateTenantResult<S> = CreateTenantResult(outcome: Outcome<TenantSystem<S>, Error>, tenant: Option<Tenant>)

  /** Lines 49-52 of the `App` handler and line 50 of the module's: the
      freshly created tenant's events go out and its queue is left empty.
      The `App` tenant records plain objects only, which resolve to
      themselves. */
  function DispatchCreated<S>(d: Dispatcher<S>, b: Bus<S>, t: Tenant): (r: (Published<S>, Tenant))
    ensures r.1 == t.(events := EventQueue.Empty())
  {
    match t.edition
    case AppEdition =>
      var rel := ReleaseTenantEvents(t);
      (Deliver(d, b, ResolveAll(rel.events, map[])), rel.tenant)
    case ModulesEdition =>
      var p := PublishEntity(d, b, Aggregate(t.events));
      (p.outcome, t.(events := p.entity.queue))
  }

  /** `CreateTenantHandler::handle`. */
  function CreateTenantHandle<S>(edition: Edition, d: Dispatcher<S>, isEmail: string -> bool, sys: TenantSystem<S>,
                                 cmd: CreateTenantCommand, newId: TenantId, now: Instant): (r: CreateTenantResult<S>)
    ensures PrepareTenant(edition, isEmail, sys.store, cmd, newId, now).Failure? ==>
              r == CreateTenantResult(Aborted(sys, PrepareTenant(edition, isEmail, sys.store, cmd, newId, now).error), None)
    ensures r.tenant.Some? ==> r.tenant.value.events.pending == []
  {
    match PrepareTenant(edition, isEmail, sys.store, cmd, newId, now)
    case Failure(err) => CreateTenantResult(Aborted(sys, err), None)
    case Success(t) =>
      var store := SaveTenant(sys.store, t);
      var (published, after) := DispatchCreated(d, sys.bus, t);
      match published
      case Finished(b) => CreateTenantResult(Finished(TenantSystem(store, b)), Some(after))
      case Aborted(b, err) => CreateTenantResult(Aborted(TenantSystem(store, b), err), Some(after))
  }

  // ---------------------------------------------------------------- properties

  /** The slug is validated before anything else: a bad slug fails with its
      own error whatever the name, e-mail and repository are. */
  lemma SlugCheckedFirst<S>(edition: Edition, d: Dispatcher<S>, isEmail: string -> bool, sys: TenantSystem<S>,
                            cmd: CreateTenantCommand, newId: TenantId, now: Instant)
    requires TenantSlugFromString(cmd.slug).Failure?
    ensures CreateTenantHandle(edition, d, isEmail, sys, cmd, newId, now)
         == CreateTenantResult(Aborted(sys, TenantSlugFromString(cmd.slug).error), None)
  {
  }

  /** A taken slug fails with the slug as typed. Nothing is saved and
      nothing is dispatched, even when the name or e-mail is also bad. */
  lemma TakenSlugChangesNothing<S>(edition: Edition, d: Dispatcher<S>, isEmail: string -> bool, sys: TenantSystem<S>,
                                   cmd: CreateTenantCommand, newId: TenantId, now: Instant)
    requires TenantSlugFromString(cmd.slug).Success?
    requires SlugExists(sys.store, TenantSlugFromString(cmd.slug).value)
    ensures CreateTenantHandle(edition, d, isEmail, sys, cmd, newId, now)
         == CreateTenantResult(Aborted(sys, SlugAlreadyExists(cmd.slug)), None)
  {
  }

  /** Past the checks, the handler's outcome is the save followed by the
      dispatch of the freshly created tenant. */
  lemma HandleAfterPrepare<S>(edition: Edition, d: Dispatcher<S>, isEmail: string -> bool, sys: TenantSystem<S>,
                              cmd: CreateTenantCommand, newId: TenantId, now: Instant)
    requires PrepareTenant(edition, isEmail, sys.store, cmd, newId, now).Success?
    ensures var t := PrepareTenant(edition, isEmail, sys.store, cmd, newId, now).value;
            var pub := DispatchCreated(d, sys.bus, t).0;
            var r := CreateTenantHandle(edition, d, isEmail, sys, cmd, newId, now).outcome;
            && r.state == TenantSystem(SaveTenant(sys.store, t), pub.state)
            && (r.Finished? <==> pub.Finished?)
            && (r.Aborted? ==> r.error == pub.error)
  {
  }

  /** Past the checks, the new tenant is pending and is saved before any
      dispatch: the store holds it whether or not dispatch then fails. */
  lemma SavedBeforeDispatch<S>(edition: Edition, d: Dispatcher<S>, isEmail: string -> bool, sys: TenantSystem<S>,
                               cmd: CreateTenantCommand, newId: TenantId, now: Instant)
    requires PrepareTenant(edition, isEmail, sys.store, cmd, newId, now).Success?
    ensures var t := PrepareTenant(edition, isEmail, sys.store, cmd, newId, now).value;
            var r := CreateTenantHandle(edition, d, isEmail, sys, cmd, newId, now);
            && t.status == Pending
            && t.events.pending == [Obj(CreatedEvent(edition, newId, cmd.name, t.slug, now))]
            && r.outcome.state.store == SaveTenant(sys.store, t)
            && r.outcome.state.store[TenantIdToString(newId)].status == Pending
  {
    HandleAfterPrepare(edition, d, isEmail, sys, cmd, newId, now);
  }

  /** The one creation event is the only thing dispatched, and it is in the
      delivered log exactly when the handler finishes. */
  lemma CreationEventDelivered<S>(edition: Edition, d: Dispatcher<S>, isEmail: string -> bool, sys: TenantSystem<S>,
                                  cmd: CreateTenantCommand, newId: TenantId, now: Instant)
    requires PrepareTenant(edition, isEmail, sys.store, cmd, newId, now).Success?
    ensures var t := PrepareTenant(edition, isEmail, sys.store, cmd, newId, now).value;
            var r := CreateTenantHandle(edition, d, isEmail, sys, cmd, newId, now);
            var e := CreatedEvent(edition, newId, cmd.name, t.slug, now);
            && (r.outcome.Finished? ==> r.outcome.state.bus.delivered == sys.bus.delivered + [e])
            && (r.outcome.Aborted? ==> r.outcome.state.bus.delivered == sys.bus.delivered)
  {
    var t := PrepareTenant(edition, isEmail, sys.store, cmd, newId, now).value;
    HandleAfterPrepare(edition, d, isEmail, sys, cmd, newId, now);
    DispatchOneEvent(d, sys.bus, t, CreatedEvent(edition, newId, cmd.name, t.slug, now));
  }

  /** The handler finishes exactly when every check passes and the
      consumers accept the creation event. */
  lemma CreateTenantSucceedsIff<S>(edition: Edition, d: Dispatcher<S>, isEmail: string -> bool, sys: TenantSystem<S>,
                                   cmd: CreateTenantCommand, newId: TenantId, now: Instant)
    ensures var p := PrepareTenant(edition, isEmail, sys.store, cmd, newId, now);
            CreateTenantHandle(edition, d, isEmail, sys, cmd, newId, now).outcome.Finished?
            <==> p.Success? && d(sys.bus.consumers, CreatedEvent(edition, newId, cmd.name, p.value.slug, now)).Success?
  {
    var p := PrepareTenant(edition, isEmail, sys.store, cmd, newId, now);
    if p.Success? {
      var t := p.value;
      DispatchOneEvent(d, sys.bus, t, CreatedEvent(edition, newId, cmd.name, t.slug, now));
    }
  }

  /** Dispatching a tenant that holds a single domain-bus-acceptable event
      is one `dispatch` of that event. */
  lemma DispatchOneEvent<S>(d: Dispatcher<S>, b: Bus<S>, t: Tenant, e: Object)
    requires t.events.pending == [Obj(e)]
    requires t.edition == ModulesEdition ==> IsDomainEvent(e)
    ensures DispatchCreated(d, b, t).0 == Dispatch(d, b, e)
  {
    assert ResolveAll(t.events.pending, map[]) == [e];
    match Dispatch(d, b, e)
    case Aborted(_, _) =>
    case Finished(b1) =>
      assert Deliver(d, b1, []) == Finished(b1);
      assert PublishEach(d, b1, [], map[]) == Finished(b1);
  }

  /** The slug index stays unique: the handler saves only under a slug no
      stored tenant has. */
  lemma CreateTenantKeepsSlugsUnique<S>(edition: Edition, d: Dispatcher<S>, isEmail: string -> bool, sys: TenantSystem<S>,
                                        cmd: CreateTenantCommand, newId: TenantId, now: Instant)
    requires SlugsUnique(sys.store)
    ensures SlugsUnique(CreateTenantHandle(edition, d, isEmail, sys, cmd, newId, now).outcome.state.store)
  {
    var p := PrepareTenant(edition, isEmail, sys.store, cmd, newId, now);
    if p.Success? {
      SavedBeforeDispatch(edition, d, isEmail, sys, cmd, newId, now);
      SaveFreshSlugKeepsUnique(sys.store, p.value);
    }
  }

  lemma SaveFreshSlugKeepsUnique(store: TenantStore, t: Tenant)
    requires SlugsUnique(store) && !SlugExists(store, t.slug)
    ensures SlugsUnique(SaveTenant(store, t))
  {
    var s := SaveTenant(store, t);
    assert forall k :: k in store && k != t.id.value ==> s[k].slug != t.slug;
    forall a, b | a in s && b in s && s[a].slug == s[b].slug
      ensures a == b
    {
      if a != t.id.value && b != t.id.value {
        assert store[a].slug == store[b].slug;
      }
    }
  }

  /** Why the `App` handler dispatches by hand: its creation event is not a
      domain event, so the domain bus's `publishEntity` would refuse it
      without delivering anything. */
  lemma AppEventRejectedByBus<S>(d: Dispatcher<S>, b: Bus<S>, now: Instant, id: TenantId, name: string,
                                 slug: TenantSlug, contactEmail: ContactEmail)
    requires ValidTenantName(name)
    ensures var t := CreateTenant(AppEdition, now, id, name, slug, contactEmail).value;
            PublishEntity(d, b, Aggregate(t.events)).outcome == Aborted(b, EventTypeMismatch)
  {
    var t := CreateTenant(AppEdition, now, id, name, slug, contactEmail).value;
    var e := CreatedEvent(AppEdition, id, name, slug, now);
    assert t.events == EventQueue.Queue([Obj(e)]);
    LoneNonEventRejected(d, b, e);
  }

  lemma LoneNonEventRejected<S>(d: Dispatcher<S>, b: Bus<S>, e: Object)
    requires !IsDomainEvent(e)
    ensures PublishEntity(d, b, Aggregate(EventQueue.Queue([Obj(e)]))).outcome == Aborted(b, EventTypeMismatch)
  {
    PublishEntityOfOne(d, b, Obj(e));
  }
}
