/**
 * `async_queue`: a FIFO queue guarded by a mutex, whose consumers can be
 * told to stop. The model is sequential: the queue is a sequence, the lock
 * is always available to the blocking operations, and whether the lock is
 * free for `try_push`/`try_pop` is an input. A `pop` that would wait for
 * data returns `Blocked` instead.
 */
module Queue {

  /** What a `pop` or a `try_pop` gives back. */
  datatype PopOutcome<T> =
    | Item(value: T)     // the front element, now removed
    | StopRequest        // the call threw `stop_request`
    | Blocked            // `pop` waits for a push or a stop
    | Nothing            // `try_pop` returned an empty optional

  class AsyncQueue<T> {
    var items: seq<T>
    var shouldStop: bool

    constructor ()
      ensures items == [] && !shouldStop
    {
      items := [];
      shouldStop := false;
    }

    /** `reset`: consumers may pop again; the contents stay. */
    method Reset()
      modifies this
      ensures !shouldStop && items == old(items)
    {
      shouldStop := false;
    }

    /** `stop`: every later `pop` throws until a `reset`; the contents stay. */
    method Stop()
      modifies this
      ensures shouldStop && items == old(items)
    {
      shouldStop := true;
    }

    /** `is_stopping`. */
    method IsStopping() returns (b: bool)
      ensures b <==> shouldStop
    {
      b := shouldStop;
    }

    /** `empty`. */
    method Empty() returns (b: bool)
      ensures b <==> items == []
    {
      b := |items| == 0;
    }

    /** `push`: x goes to the back. */
    method Push(x: T)
      modifies this
      ensures items == old(items) + [x]
      ensures shouldStop == old(shouldStop)
    {
      items := items + [x];
    }

    /**
     * `pop`: a stop request wins over queued data, which stays queued; with
     * no stop and no data the caller waits; otherwise the front element is
     * removed and returned.
     */
    method Pop() returns (r: PopOutcome<T>)
      modifies this
      ensures shouldStop == old(shouldStop)
      ensures old(shouldStop) ==> r == StopRequest && items == old(items)
      ensures !old(shouldStop) && old(items) == [] ==> r == Blocked && items == old(items)
      ensures !old(shouldStop) && old(items) != [] ==>
                r == Item(old(items)[0]) && items == old(items)[1..]
    {
      if shouldStop {
        r := StopRequest;
      } else if |items| == 0 {
        r := Blocked;
      } else {
        r := Item(items[0]);
        items := items[1..];
      }
    }

    /** `try_push`: fails, changing nothing, when the lock is taken; otherwise appends. */
    method TryPush(x: T, lockTaken: bool) returns (ok: bool)
      modifies this
      ensures ok <==> !lockTaken
      ensures ok ==> items == old(items) + [x]
      ensures !ok ==> items == old(items)
      ensures shouldStop == old(shouldStop)
    {
      if lockTaken {
        ok := false;
      } else {
        items := items + [x];
        ok := true;
      }
    }

    /**
     * `try_pop`: nothing when the lock is taken or the queue is empty, even
     * when stopping; a stop request when stopping with data queued;
     * otherwise the front element.
     */
    method TryPop(lockTaken: bool) returns (r: PopOutcome<T>)
      modifies this
      ensures shouldStop == old(shouldStop)
      ensures lockTaken || old(items) == [] ==> r == Nothing && items == old(items)
      ensures !lockTaken && old(items) != [] && old(shouldStop) ==> r == StopRequest && items == old(items)
      ensures !lockTaken && old(items) != [] && !old(shouldStop) ==>
                r == Item(old(items)[0]) && items == old(items)[1..]
    {
      if lockTaken || |items| == 0 {
        r := Nothing;
      } else if shouldStop {
        r := StopRequest;
      } else {
        r := Item(items[0]);
        items := items[1..];
      }
    }
  }

  /**
   * First in, first out: on a queue that is not stopping, two pushes followed
   * by two pops give the two elements back in the order they were pushed.
   */
  method FifoOrder<T>(q: AsyncQueue<T>, x: T, y: T) returns (first: PopOutcome<T>, second: PopOutcome<T>)
    requires !q.shouldStop
    modifies q
    ensures old(q.items) == [] ==> first == Item(x) && second == Item(y) && q.items == []
    ensures old(q.items) != [] ==> first == Item(old(q.items)[0])
    ensures q.shouldStop == old(q.shouldStop)
  {
    q.Push(x);
    q.Push(y);
    first := q.Pop();
    second := q.Pop();
  }
}
