/** The domain event bus (`HyperfDomainEventBus`) over an abstract PSR-14
    dispatcher.

    The consumers behind the dispatcher are one function on their own state
    `S`: given an object, they either fail or return their new state. A
    successful dispatch also appends the object to the bus's delivered log.
    The bus has no `catch`: the first failure ends the call, everything done
    before it stays done, and nothing after it runs. A failing consumer is
    assumed to leave its state as it found it. */
module EventBus {
  import opened Wrappers
  import opened Errors
  import opened DomainEvents
  import EventQueue

  /** The PSR-14 dispatcher together with every listener registered on it. */
  type Dispatcher<!S> = (S, Object) -> Result<S, Error>

  datatype Bus<S> = Bus(consumers: S, delivered: seq<Object>)

  type Published<S> = Outcome<Bus<S>, Error>

  /** One `dispatch($event)`: the consumers run once; on success the event is
      logged as delivered. */
  function Dispatch<S>(d: Dispatcher<S>, b: Bus<S>, e: Object): (r: Published<S>)
    ensures r.Finished? <==> d(b.consumers, e).Success?
    ensures r.Finished? ==> r.state.consumers == d(b.consumers, e).value
    ensures r.Finished? ==> r.state.delivered == b.delivered + [e]
    ensures r.Aborted? ==> r.state == b && r.error == d(b.consumers, e).error
  {
    match d(b.consumers, e)
    case Success(s) => Finished(Bus(s, b.delivered + [e]))
    case Failure(err) => Aborted(b, err)
  }

  /** Dispatches objects one after the other, stopping at the first failure:
      the shape of the `foreach ... dispatch()` loops in the handlers. */
  function Deliver<S>(d: Dispatcher<S>, b: Bus<S>, es: seq<Object>): (r: Published<S>)
    ensures r.Finished? ==> r.state.delivered == b.delivered + es
    ensures r.Aborted? ==> |b.delivered| <= |r.state.delivered| < |b.delivered| + |es|
    ensures r.Aborted? ==> r.state.delivered == b.delivered + es[..|r.state.delivered| - |b.delivered|]
    decreases |es|
  {
    if es == [] then Finished(b)
    else match Dispatch(d, b, es[0])
      case Aborted(b1, err) => Aborted(b1, err)
      case Finished(b1) =>
        var r := Deliver(d, b1, es[1..]);
        assert b1.delivered + es[1..] == b.delivered + es;
        assert r.Aborted? ==> b1.delivered + es[1..][..|r.state.delivered| - |b1.delivered|]
                              == b.delivered + es[..|r.state.delivered| - |b.delivered|];
        r
  }

  /** The object a publishable stands for: a closure is first applied to the
      parameter map. */
  function Resolve(p: Publishable, params: Params): Object {
    match p
    case Obj(o) => o
    case Closure(f) => f(params)
  }

  function ResolveAll(ps: seq<Publishable>, params: Params): (r: seq<Object>)
    ensures |r| == |ps|
  {
    seq(|ps|, i requires 0 <= i < |ps| => Resolve(ps[i], params))
  }

  lemma ResolveAllAppend(xs: seq<Publishable>, ys: seq<Publishable>, params: Params)
    ensures ResolveAll(xs + ys, params) == ResolveAll(xs, params) + ResolveAll(ys, params)
  {
  }

  /** The error `publish` raises for something that is not a domain event: a
      closure whose result is not one fails the `instanceof` check; any other
      object already fails the `DomainEvent|Closure` parameter type. */
  function RejectionOf(p: Publishable): Error {
    if p.Closure? then NotADomainEvent else EventTypeMismatch
  }

  /** `publish($event, $paramsMap)`. */
  function Publish<S>(d: Dispatcher<S>, b: Bus<S>, p: Publishable, params: Params := map[]): (r: Published<S>)
    ensures r.Finished? <==> IsDomainEvent(Resolve(p, params)) && d(b.consumers, Resolve(p, params)).Success?
    ensures r.Finished? ==> r.state.delivered == b.delivered + [Resolve(p, params)]
    ensures r.Aborted? ==> r.state == b
    ensures !IsDomainEvent(Resolve(p, params)) ==> r.error == RejectionOf(p)
    ensures r.Aborted? && IsDomainEvent(Resolve(p, params)) ==> r.error == d(b.consumers, Resolve(p, params)).error
  {
    var e := Resolve(p, params);
    if !IsDomainEvent(e) then Aborted(b, RejectionOf(p)) else Dispatch(d, b, e)
  }

  /** `publish` on each element in order, with the same parameter map. */
  function PublishEach<S>(d: Dispatcher<S>, b: Bus<S>, ps: seq<Publishable>, params: Params): (r: Published<S>)
    ensures r.Finished? ==> r.state.delivered == b.delivered + ResolveAll(ps, params)
    ensures r.Finished? ==> forall i :: 0 <= i < |ps| ==> IsDomainEvent(Resolve(ps[i], params))
    ensures r.Aborted? ==> |b.delivered| <= |r.state.delivered| < |b.delivered| + |ps|
    ensures r.Aborted? ==>
              r.state.delivered == b.delivered + ResolveAll(ps[..|r.state.delivered| - |b.delivered|], params)
    decreases |ps|
  {
    if ps == [] then Finished(b)
    else match Publish(d, b, ps[0], params)
      case Aborted(b1, err) =>
        assert ResolveAll(ps[..0], params) == [];
        Aborted(b1, err)
      case Finished(b1) =>
        var r := PublishEach(d, b1, ps[1..], params);
        ResolveAllCons(ps, params, |r.state.delivered| - |b1.delivered|);
        r
  }

  /** Resolving a non-empty sequence, or a prefix of it one longer than a
      prefix of its tail, puts the head's object first. */
  lemma ResolveAllCons(ps: seq<Publishable>, params: Params, k: int)
    requires ps != []
    ensures ResolveAll(ps, params) == [Resolve(ps[0], params)] + ResolveAll(ps[1..], params)
    ensures forall i :: 1 <= i < |ps| ==> ps[i] == ps[1..][i - 1]
    ensures 0 <= k < |ps| ==>
              ResolveAll(ps[..k + 1], params) == [Resolve(ps[0], params)] + ResolveAll(ps[1..][..k], params)
  {
    if 0 <= k < |ps| {
      assert ps[..k + 1] == [ps[0]] + ps[1..][..k];
      ResolveAllAppend([ps[0]], ps[1..][..k], params);
    }
    ResolveAllAppend([ps[0]], ps[1..], params);
    assert ps == [ps[0]] + ps[1..];
  }

  /** `publishAll($events)`: each element goes through `publish` with an
      empty parameter map. */
  function PublishAll<S>(d: Dispatcher<S>, b: Bus<S>, ps: seq<Publishable>): (r: Published<S>)
    ensures r.Finished? ==> r.state.delivered == b.delivered + ResolveAll(ps, map[])
    ensures r.Aborted? ==> AbortedAt(d, b, ps, map[], r)
  {
    if PublishEach(d, b, ps, map[]).Aborted? then
      PublishEachAborts(d, b, ps, map[]);
      PublishEach(d, b, ps, map[])
    else PublishEach(d, b, ps, map[])
  }

  /** How an aborted run over `ps` ended: exactly the first `k` elements were
      delivered, and element `k` stopped it. */
  predicate AbortedAt<S>(d: Dispatcher<S>, b: Bus<S>, ps: seq<Publishable>, params: Params, r: Published<S>)
    requires r.Aborted?
  {
    var k := |r.state.delivered| - |b.delivered|;
    && 0 <= k < |ps|
    && r.state.delivered == b.delivered + ResolveAll(ps[..k], params)
    && StoppedBy(d, r, ps[k], params)
  }

  /** `p` is what aborted `r`: it is not a domain event, or the consumers, in
      the state the run had reached, refused it with the error `r` carries. */
  predicate StoppedBy<S>(d: Dispatcher<S>, r: Published<S>, p: Publishable, params: Params)
    requires r.Aborted?
  {
    && (!IsDomainEvent(Resolve(p, params)) ==> r.error == RejectionOf(p))
    && (IsDomainEvent(Resolve(p, params)) ==>
          && d(r.state.consumers, Resolve(p, params)).Failure?
          && r.error == d(r.state.consumers, Resolve(p, params)).error)
  }

  /** An aborted `publish` loop stopped at its first non-event or at the first
      event the consumers refused, after delivering everything before it. */
  lemma {:induction false} PublishEachAborts<S>(d: Dispatcher<S>, b: Bus<S>, ps: seq<Publishable>, params: Params)
    requires PublishEach(d, b, ps, params).Aborted?
    ensures AbortedAt(d, b, ps, params, PublishEach(d, b, ps, params))
    decreases |ps|
  {
    var r := PublishEach(d, b, ps, params);
    var k := |r.state.delivered| - |b.delivered|;
    assert StoppedBy(d, r, ps[k], params) by {
      match Publish(d, b, ps[0], params)
      case Aborted(b1, err) =>
        assert r == Aborted(b1, err) && b1 == b;
      case Finished(b1) =>
        assert r == PublishEach(d, b1, ps[1..], params);
        PublishEachAborts(d, b1, ps[1..], params);
        assert ps[k] == ps[1..][k - 1];
    }
  }

  /** When every element resolves to a domain event, publishing is plain
      in-order delivery of the resolved events: the bus adds validation and
      nothing else. */
  lemma {:induction false} PublishEachIsValidatedDelivery<S>(d: Dispatcher<S>, b: Bus<S>, ps: seq<Publishable>, params: Params)
    requires forall i :: 0 <= i < |ps| ==> IsDomainEvent(Resolve(ps[i], params))
    ensures PublishEach(d, b, ps, params) == Deliver(d, b, ResolveAll(ps, params))
    decreases |ps|
  {
    if ps != [] {
      var es := ResolveAll(ps, params);
      assert es[0] == Resolve(ps[0], params);
      assert es[1..] == ResolveAll(ps[1..], params);
      match Dispatch(d, b, es[0])
      case Aborted(_, _) =>
      case Finished(b1) =>
        assert forall i :: 0 <= i < |ps[1..]| ==> ps[1..][i] == ps[i + 1];
        PublishEachIsValidatedDelivery(d, b1, ps[1..], params);
    }
  }

  /** Validation happens per element, not up front: the elements before the
      first non-event are published, then the call fails with the rejection
      of that element, and no later element is published. */
  lemma {:induction false} PublishEachStopsAtNonEvent<S>(d: Dispatcher<S>, b: Bus<S>, ps: seq<Publishable>, params: Params, k: int)
    requires 0 <= k < |ps|
    requires forall i :: 0 <= i < k ==> IsDomainEvent(Resolve(ps[i], params))
    requires !IsDomainEvent(Resolve(ps[k], params))
    requires Deliver(d, b, ResolveAll(ps[..k], params)).Finished?
    ensures PublishEach(d, b, ps, params)
         == Aborted(Deliver(d, b, ResolveAll(ps[..k], params)).state, RejectionOf(ps[k]))
    decreases k
  {
    if k == 0 {
    } else {
      var es := ResolveAll(ps[..k], params);
      assert es[0] == Resolve(ps[0], params);
      assert es[1..] == ResolveAll(ps[1..][..k - 1], params);
      var b1 := Dispatch(d, b, es[0]).state;
      assert forall i :: 0 <= i < |ps[1..]| ==> ps[1..][i] == ps[i + 1];
      PublishEachStopsAtNonEvent(d, b1, ps[1..], params, k - 1);
    }
  }

  /** What `publishEntity` is handed: an object without `releaseEvents()`,
      one whose `releaseEvents()` returns something other than an array, or
      an aggregate root with its pending-event queue. */
  datatype Holder =
    | NoReleaseMethod
    | NonArrayRelease
    | Aggregate(queue: EventQueue.Queue<Publishable>)

  /** The holder as left behind by a `releaseEvents()` call. */
  function Drained(h: Holder): Holder {
    if h.Aggregate? then Aggregate(EventQueue.Empty()) else h
  }

  datatype EntityPublished<S> = EntityPublished(entity: Holder, outcome: Published<S>)

  /** `publishEntity($entity, $paramsMap)`. */
  function PublishEntity<S>(d: Dispatcher<S>, b: Bus<S>, h: Holder, params: Params := map[]): (r: EntityPublished<S>)
    ensures h.NoReleaseMethod? ==> r.entity == h && r.outcome == Aborted(b, NoReleaseEventsMethod)
    ensures h.NonArrayRelease? ==> r.outcome == Aborted(b, ReleaseEventsNotArray)
    ensures h.Aggregate? ==> r.entity.Aggregate? && r.entity.queue.pending == []
    ensures h.Aggregate? && r.outcome.Finished? ==>
              r.outcome.state.delivered == b.delivered + ResolveAll(h.queue.pending, params)
    ensures h.Aggregate? && r.outcome.Aborted? ==> AbortedAt(d, b, h.queue.pending, params, r.outcome)
  {
    match h
    case NoReleaseMethod => EntityPublished(h, Aborted(b, NoReleaseEventsMethod))
    case NonArrayRelease => EntityPublished(h, Aborted(b, ReleaseEventsNotArray))
    case Aggregate(q) =>
      var rel := EventQueue.Release(q);
      var out := PublishEach(d, b, rel.events, params);
      if out.Aborted? then
        PublishEachAborts(d, b, rel.events, params);
        EntityPublished(Aggregate(rel.queue), out)
      else EntityPublished(Aggregate(rel.queue), out)
  }

  /** An aggregate holding a single pending event publishes exactly as
      `publish` does on that event. */
  lemma PublishEntityOfOne<S>(d: Dispatcher<S>, b: Bus<S>, p: Publishable)
    ensures PublishEntity(d, b, Aggregate(EventQueue.Queue([p]))).outcome == Publish(d, b, p, map[])
  {
    var ps := [p];
    assert EventQueue.Release(EventQueue.Queue(ps)).events == ps;
    match Publish(d, b, p, map[])
    case Finished(b1) =>
      assert ps[1..] == [];
      assert PublishEach(d, b1, ps[1..], map[]) == Finished(b1);
    case Aborted(_, _) =>
  }

  /** The events of several holders, holder after holder. */
  function PendingOf(hs: seq<Holder>): seq<Publishable> {
    if hs == [] then []
    else (if hs[0].Aggregate? then hs[0].queue.pending else []) + PendingOf(hs[1..])
  }

  /** `released` counts the holders whose turn came (the failing one included). */
  datatype EntitiesPublished<S> = EntitiesPublished(entities: seq<Holder>, released: nat, outcome: Published<S>)

  /** `publishEntities($entities, $paramsMap)`: holder after holder. */
  function PublishEntities<S>(d: Dispatcher<S>, b: Bus<S>, hs: seq<Holder>, params: Params := map[]): (r: EntitiesPublished<S>)
    ensures |r.entities| == |hs| && r.released <= |hs|
    ensures r.outcome.Finished? ==> r.released == |hs|
    ensures r.outcome.Aborted? ==> r.released > 0
    decreases |hs|
  {
    if hs == [] then EntitiesPublished([], 0, Finished(b))
    else
      var first := PublishEntity(d, b, hs[0], params);
      match first.outcome
      case Aborted(b1, err) =>
        EntitiesPublished([first.entity] + hs[1..], 1, Aborted(b1, err))
      case Finished(b1) =>
        var rest := PublishEntities(d, b1, hs[1..], params);
        EntitiesPublished([first.entity] + rest.entities, rest.released + 1, rest.outcome)
  }

  /** Holder `j` is where a run of `publishEntities` over `hs` stopped with
      outcome `out`: every holder before it was an aggregate, all their
      events were delivered in holder order, and `out` is what publishing
      holder `j` gave on the bus so reached. By `PublishEntity`, that is a
      reflection error with nothing more delivered, or a proper prefix of
      the holder's events followed by the error of the event that stopped
      it. */
  ghost predicate StopsAt<S>(d: Dispatcher<S>, b: Bus<S>, hs: seq<Holder>, params: Params, j: int, out: Published<S>) {
    && 0 <= j < |hs|
    && (forall i :: 0 <= i < j ==> hs[i].Aggregate?)
    && PublishEntities(d, b, hs[..j], params).outcome.Finished?
    && PublishEntities(d, b, hs[..j], params).outcome.state.delivered
       == b.delivered + ResolveAll(PendingOf(hs[..j]), params)
    && out == PublishEntity(d, PublishEntities(d, b, hs[..j], params).outcome.state, hs[j], params).outcome
  }

  /** An aborted `publishEntities` stopped at the last holder whose turn
      came; nothing before it is undone. */
  lemma {:induction false} PublishEntitiesAborts<S>(d: Dispatcher<S>, b: Bus<S>, hs: seq<Holder>, params: Params)
    requires PublishEntities(d, b, hs, params).outcome.Aborted?
    ensures StopsAt(d, b, hs, params, PublishEntities(d, b, hs, params).released - 1,
                    PublishEntities(d, b, hs, params).outcome)
    decreases |hs|
  {
    var r := PublishEntities(d, b, hs, params);
    var first := PublishEntity(d, b, hs[0], params);
    if first.outcome.Aborted? {
      assert r.released == 1 && r.outcome == first.outcome;
      assert hs[..0] == [];
      assert PublishEntities(d, b, hs[..0], params).outcome == Finished(b);
    } else {
      var b1 := first.outcome.state;
      var rest := PublishEntities(d, b1, hs[1..], params);
      assert r.released == rest.released + 1 && r.outcome == rest.outcome;
      PublishEntitiesAborts(d, b1, hs[1..], params);
      StopsAtCons(d, b, hs, params, rest.released - 1, r.outcome);
    }
  }

  /** Stopping at holder `j` of the tail, after a first holder that went
      through, is stopping at holder `j + 1` of the whole. */
  lemma StopsAtCons<S>(d: Dispatcher<S>, b: Bus<S>, hs: seq<Holder>, params: Params, j: int, out: Published<S>)
    requires hs != [] && PublishEntity(d, b, hs[0], params).outcome.Finished?
    requires StopsAt(d, PublishEntity(d, b, hs[0], params).outcome.state, hs[1..], params, j, out)
    ensures StopsAt(d, b, hs, params, j + 1, out)
  {
    var b1 := PublishEntity(d, b, hs[0], params).outcome.state;
    var bj := PublishEntities(d, b1, hs[1..][..j], params).outcome.state;
    assert hs[0].Aggregate?;
    assert PublishEntities(d, b, hs[..j + 1], params).outcome == Finished(bj) by {
      PrefixSteps(d, b, hs, j + 1, params);
    }
    assert hs[j + 1] == hs[1..][j];
    assert forall i :: 0 <= i < j + 1 ==> hs[i].Aggregate? by {
      PrefixSteps(d, b, hs, j + 1, params);
    }
    assert bj.delivered == b.delivered + ResolveAll(PendingOf(hs[..j + 1]), params) by {
      PrefixSteps(d, b, hs, j + 1, params);
      assert b1.delivered == b.delivered + ResolveAll(hs[0].queue.pending, params);
      ResolveAllAppend(hs[0].queue.pending, PendingOf(hs[1..][..j]), params);
      AppendAssoc(b.delivered, ResolveAll(hs[0].queue.pending, params), ResolveAll(PendingOf(hs[1..][..j]), params));
    }
  }

  /** The first `j` holders, `j > 0`, publish as the first holder followed
      by the next `j - 1`. */
  lemma PrefixSteps<S>(d: Dispatcher<S>, b: Bus<S>, hs: seq<Holder>, j: nat, params: Params)
    requires 0 < j < |hs|
    requires PublishEntity(d, b, hs[0], params).outcome.Finished?
    requires hs[0].Aggregate?
    ensures var b1 := PublishEntity(d, b, hs[0], params).outcome.state;
            && PublishEntities(d, b, hs[..j], params).outcome == PublishEntities(d, b1, hs[1..][..j - 1], params).outcome
            && hs[j] == hs[1..][j - 1]
            && PendingOf(hs[..j]) == hs[0].queue.pending + PendingOf(hs[1..][..j - 1])
            && (forall i :: 1 <= i < j ==> hs[i] == hs[1..][i - 1])
  {
    assert hs[..j][0] == hs[0];
    assert hs[..j][1..] == hs[1..][..j - 1];
  }

  /** The holders whose turn came are drained by `publishEntities`, and the
      rest are left untouched. */
  lemma {:induction false} PublishEntitiesDrains<S>(d: Dispatcher<S>, b: Bus<S>, hs: seq<Holder>, params: Params)
    ensures var r := PublishEntities(d, b, hs, params);
            && (forall i :: 0 <= i < r.released ==> r.entities[i] == Drained(hs[i]))
            && (forall i :: r.released <= i < |hs| ==> r.entities[i] == hs[i])
    decreases |hs|
  {
    if hs != [] {
      var first := PublishEntity(d, b, hs[0], params);
      assert first.entity == Drained(hs[0]);
      if first.outcome.Aborted? {
        assert PublishEntities(d, b, hs, params).entities == [first.entity] + hs[1..];
      } else {
        var rest := PublishEntities(d, first.outcome.state, hs[1..], params);
        PublishEntitiesDrains(d, first.outcome.state, hs[1..], params);
        ConsEntities(hs, first.entity, rest.entities, rest.released);
      }
    }
  }

  /** A successful `publishEntities` saw only aggregates and delivered their
      events holder after holder. */
  lemma {:induction false} PublishEntitiesDelivers<S>(d: Dispatcher<S>, b: Bus<S>, hs: seq<Holder>, params: Params)
    requires PublishEntities(d, b, hs, params).outcome.Finished?
    ensures forall i :: 0 <= i < |hs| ==> hs[i].Aggregate?
    ensures PublishEntities(d, b, hs, params).outcome.state.delivered == b.delivered + ResolveAll(PendingOf(hs), params)
    decreases |hs|
  {
    if hs != [] {
      var first := PublishEntity(d, b, hs[0], params);
      assert first.outcome.Finished?;
      var b1 := first.outcome.state;
      assert PublishEntities(d, b, hs, params).outcome == PublishEntities(d, b1, hs[1..], params).outcome;
      PublishEntitiesDelivers(d, b1, hs[1..], params);
      DeliversCons(d, b, hs, params);
    }
  }

  /** One aggregate that went through, in front of holders that delivered
      their events, delivers its own events first. */
  lemma DeliversCons<S>(d: Dispatcher<S>, b: Bus<S>, hs: seq<Holder>, params: Params)
    requires hs != [] && PublishEntity(d, b, hs[0], params).outcome.Finished?
    requires forall i :: 0 <= i < |hs[1..]| ==> hs[1..][i].Aggregate?
    ensures forall i :: 0 <= i < |hs| ==> hs[i].Aggregate?
    ensures var b1 := PublishEntity(d, b, hs[0], params).outcome.state;
            b1.delivered + ResolveAll(PendingOf(hs[1..]), params) == b.delivered + ResolveAll(PendingOf(hs), params)
  {
    assert hs[0].Aggregate?;
    assert forall i :: 1 <= i < |hs| ==> hs[i] == hs[1..][i - 1];
    PendingOfCons(hs, params);
    AppendAssoc(b.delivered, ResolveAll(hs[0].queue.pending, params), ResolveAll(PendingOf(hs[1..]), params));
  }

  lemma AppendAssoc<T>(x: seq<T>, a: seq<T>, c: seq<T>)
    ensures (x + a) + c == x + (a + c)
  {
  }

  lemma PendingOfCons(hs: seq<Holder>, params: Params)
    requires hs != [] && hs[0].Aggregate?
    ensures ResolveAll(PendingOf(hs), params)
         == ResolveAll(hs[0].queue.pending, params) + ResolveAll(PendingOf(hs[1..]), params)
  {
    ResolveAllAppend(hs[0].queue.pending, PendingOf(hs[1..]), params);
  }

  /** The holders after one more drained holder in front. */
  lemma ConsEntities(hs: seq<Holder>, first: Holder, rest: seq<Holder>, k: nat)
    requires hs != [] && first == Drained(hs[0]) && |rest| == |hs| - 1 && k <= |rest|
    requires forall i :: 0 <= i < k ==> rest[i] == Drained(hs[1..][i])
    requires forall i :: k <= i < |rest| ==> rest[i] == hs[1..][i]
    ensures forall i :: 0 <= i < k + 1 ==> ([first] + rest)[i] == Drained(hs[i])
    ensures forall i :: k + 1 <= i < |hs| ==> ([first] + rest)[i] == hs[i]
  {
    assert forall i :: 1 <= i < |hs| ==> ([first] + rest)[i] == rest[i - 1] && hs[i] == hs[1..][i - 1];
  }
}
