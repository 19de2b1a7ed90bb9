/**
 * The host's scheduling primitives (`requestAnimationFrame` and `setTimeout`),
 * reduced to a queue that hands out a fresh handle per request and remembers
 * which requests are still pending. Firing and cancelling are explicit.
 */
module Host {

  /** `next` is the next handle to hand out; `pending` maps live handles to their payload. */
  datatype Queue<T> = Queue(next: nat, pending: map<nat, T>)

  function EmptyQueue<T>(): (q: Queue<T>)
    ensures q.pending == map[]
  {
    Queue(0, map[])
  }

  /** Every pending handle was handed out earlier. */
  predicate WellFormed<T>(q: Queue<T>) {
    forall h :: h in q.pending ==> h < q.next
  }

  datatype Scheduled<T> = Scheduled(queue: Queue<T>, handle: nat)

  /** Requests a frame or a timer: the returned handle was never handed out before. */
  function Schedule<T>(q: Queue<T>, payload: T): (r: Scheduled<T>)
    ensures q.next <= r.handle < r.queue.next
    ensures WellFormed(q) ==> WellFormed(r.queue) && r.handle !in q.pending
    ensures r.queue.pending == q.pending[r.handle := payload]
  {
    Scheduled(Queue(q.next + 1, q.pending[q.next := payload]), q.next)
  }

  /** `cancelAnimationFrame`/`clearTimeout`; also how a fired request leaves the queue. */
  function Cancel<T>(q: Queue<T>, h: nat): (r: Queue<T>)
    ensures h !in r.pending
    ensures r.next == q.next
    ensures WellFormed(q) ==> WellFormed(r)
    ensures forall k :: k in r.pending <==> k in q.pending && k != h
    ensures forall k :: k in r.pending ==> r.pending[k] == q.pending[k]
  {
    Queue(q.next, q.pending - {h})
  }
}
