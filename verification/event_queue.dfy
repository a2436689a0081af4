/** The pending-event queue every aggregate root keeps (the `HasDomainEvent`
    trait, and the hand-written copy inside the `App` edition's `Tenant`).
    Mutating operations return the new queue. */
module EventQueue {

  datatype Queue<E> = Queue(pending: seq<E>)

  /** What `releaseEvents()` hands back, and the queue it leaves behind. */
  datatype Released<E> = Released(events: seq<E>, queue: Queue<E>)

  function Empty<E>(): Queue<E> {
    Queue([])
  }

  /** `recordEvent($e)`: append at the end. */
  function Record<E>(q: Queue<E>, e: E): (r: Queue<E>)
    ensures |r.pending| == |q.pending| + 1
    ensures r.pending[..|q.pending|] == q.pending && r.pending[|q.pending|] == e
  {
    Queue(q.pending + [e])
  }

  /** Records several events, one `recordEvent` call after the other. */
  function RecordAll<E>(q: Queue<E>, es: seq<E>): Queue<E>
    decreases |es|
  {
    if es == [] then q else RecordAll(Record(q, es[0]), es[1..])
  }

  /** `releaseEvents()`: the queue's content, and an empty queue. */
  function Release<E>(q: Queue<E>): (r: Released<E>)
    ensures r.events == q.pending && r.queue.pending == []
  {
    Released(q.pending, Empty())
  }

  /** `getEvents()`: the content, leaving the queue as it is. */
  function GetEvents<E>(q: Queue<E>): seq<E> {
    q.pending
  }

  /** `clearEvents()`. */
  function Clear<E>(q: Queue<E>): (r: Queue<E>)
    ensures r.pending == []
  {
    Empty()
  }

  /** `hasEvents()`: `!empty($this->domainEvents)`. */
  predicate HasEvents<E>(q: Queue<E>) {
    q.pending != []
  }

  /** Recording appends: the events recorded into a queue come out of it, in
      recording order, after whatever was pending before. */
  lemma {:induction false} RecordAllAppends<E>(q: Queue<E>, es: seq<E>)
    ensures RecordAll(q, es).pending == q.pending + es
    decreases |es|
  {
    if es != [] {
      RecordAllAppends(Record(q, es[0]), es[1..]);
      assert q.pending + [es[0]] + es[1..] == q.pending + es;
    }
  }

  /** Release returns exactly the recorded events, in record order, and a
      second release without recording in between returns nothing. */
  lemma ReleaseReturnsRecorded<E>(es: seq<E>)
    ensures Release(RecordAll(Empty(), es)).events == es
    ensures Release(Release(RecordAll(Empty(), es)).queue).events == []
    ensures !HasEvents(Release(RecordAll(Empty(), es)).queue)
  {
    RecordAllAppends(Empty(), es);
  }

  /** Reading leaves the queue intact: `getEvents()` agrees with a later
      `releaseEvents()`, and `hasEvents()` says whether that is empty. */
  lemma GetAgreesWithRelease<E>(q: Queue<E>)
    ensures GetEvents(q) == Release(q).events
    ensures HasEvents(q) <==> |Release(q).events| > 0
    ensures Release(Clear(q)).events == []
  {
  }
}
