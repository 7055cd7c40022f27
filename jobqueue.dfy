/** The part of `asyncio.Queue` the service uses: `put`, `get` and `task_done`,
    with the queue's count of unfinished tasks. */
module JobQueue {

  class AsyncQueue {
    /** Queued job ids, oldest first. */
    var items: seq<string>
    /** `put`s not yet matched by a `task_done`. */
    var unfinished: nat

    constructor ()
      ensures items == [] && unfinished == 0
    {
      items := [];
      unfinished := 0;
    }

    /** `put`: append at the tail; one more unfinished task. */
    method Put(id: string)
      modifies this
      ensures items == old(items) + [id] && unfinished == old(unfinished) + 1
    {
      items := items + [id];
      unfinished := unfinished + 1;
    }

    /** `get` on a non-empty queue: remove and return the head. (On an empty queue
        the caller waits; the worker model only calls it when an item is there.) */
    method Get() returns (id: string)
      requires items != []
      modifies this
      ensures id == old(items[0]) && items == old(items[1..]) && unfinished == old(unfinished)
    {
      id := items[0];
      items := items[1..];
    }

    /** `task_done`: one fewer unfinished task; false where asyncio raises
        "task_done() called too many times". */
    method TaskDone() returns (ok: bool)
      modifies this
      ensures ok <==> old(unfinished) > 0
      ensures unfinished == if ok then old(unfinished) - 1 else old(unfinished)
      ensures items == old(items)
    {
      ok := unfinished > 0;
      if ok {
        unfinished := unfinished - 1;
      }
    }
  }
}
