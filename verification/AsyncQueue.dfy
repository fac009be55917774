/** The bounded event queue: its critical sections, as the producers and the worker run them.

    The functions say what each critical section does to the queue; module QueueProtocol
    interleaves them.  Events are the numbers of the enqueue attempts that brought them. */
module AsyncQueue {

  const MAX_QUEUE := 10000
  const BATCH_SIZE := 20
  const SEND_RETRIES := 3
  const RETRY_BASE_MS := 200
  const RETRY_MAX_MS := 5000

  type Event = nat

  datatype SendResult = Ok | Permanent | Retryable

  function Min(a: nat, b: nat): nat { if a < b then a else b }

  /** How many events the worker takes at once. */
  function TakeCount(queue: seq<Event>): (n: nat)
    ensures n <= |queue|
  {
    Min(BATCH_SIZE, |queue|)
  }

  /** How many events of a batch fit back into the queue. */
  function RequeueCount(queue: seq<Event>, batch: seq<Event>): (n: nat)
    ensures n <= |batch|
  {
    if |queue| >= MAX_QUEUE then 0 else Min(|batch|, MAX_QUEUE - |queue|)
  }

  /** The last events of the batch that fit, in order, then the queue. */
  function Requeued(queue: seq<Event>, batch: seq<Event>): seq<Event> {
    batch[|batch| - RequeueCount(queue, batch)..] + queue
  }

  /** Sends go on while the answer is retryable, the agent runs and attempts are left. */
  predicate Retries(r: SendResult, running: bool, attempt: nat) {
    r == Retryable && running && attempt < SEND_RETRIES
  }

  /** The wait after the given attempt: doubling, up to a maximum. */
  function Wait(attempt: nat): (ms: nat)
    ensures RETRY_BASE_MS <= ms <= RETRY_MAX_MS
  {
    if attempt == 0 then RETRY_BASE_MS else Min(Wait(attempt - 1) * 2, RETRY_MAX_MS)
  }

  /** 200, 400, 800, 1600, 3200 and then 5000 ms. */
  lemma {:induction false} WaitTimes(attempt: nat)
    ensures Wait(0) == 200 && Wait(1) == 400 && Wait(2) == 800 && Wait(3) == 1600 && Wait(4) == 3200
    ensures attempt >= 5 ==> Wait(attempt) == 5000
    decreases attempt
  {
    assert Wait(1) == 400 && Wait(2) == 800 && Wait(3) == 1600 && Wait(4) == 3200;
    if attempt >= 5 {
      WaitTimes(attempt - 1);
    }
  }

  class Queue {
    var queue: seq<Event>
    var dropped: nat

    ghost predicate Valid()
      reads this
    {
      |queue| <= MAX_QUEUE
    }

    constructor ()
      ensures Valid() && queue == [] && dropped == 0
    {
      queue, dropped := [], 0;
    }

    method Enqueue(e: Event) returns (ok: bool)
      requires Valid()
      modifies this
      ensures Valid() && ok == (|old(queue)| < MAX_QUEUE)
      ensures queue == if ok then old(queue) + [e] else old(queue)
      ensures dropped == if ok then old(dropped) else old(dropped) + 1
    {
      if |queue| >= MAX_QUEUE {
        dropped := dropped + 1;
        return false;
      }
      queue := queue + [e];
      return true;
    }

    /** The worker's first critical section. */
    method TakeBatch() returns (batch: seq<Event>)
      requires Valid()
      modifies this`queue
      ensures Valid()
      ensures batch == old(queue)[..TakeCount(old(queue))] && queue == old(queue)[TakeCount(old(queue))..]
      ensures batch + queue == old(queue) && |batch| <= 20 && (|batch| == 20 || queue == [])
    {
      batch := [];
      while queue != [] && |batch| < BATCH_SIZE
        invariant batch + queue == old(queue) && |batch| <= BATCH_SIZE
        decreases |queue|
      {
        assert batch + queue == (batch + [queue[0]]) + queue[1..];
        batch := batch + [queue[0]];
        queue := queue[1..];
      }
      assert |batch| == TakeCount(old(queue));
    }

    method RequeueFront(batch: seq<Event>)
      requires Valid()
      modifies this
      ensures Valid() && queue == Requeued(old(queue), batch)
      ensures dropped == old(dropped) + |batch| - RequeueCount(old(queue), batch)
      ensures |batch| + |old(queue)| <= 10000 ==> queue == batch + old(queue) && dropped == old(dropped)
      ensures
        var gone := |batch| + |old(queue)| - 10000;
        gone > 0 ==> queue == batch[gone..] + old(queue) && dropped == old(dropped) + gone
    {
      var rest := batch;
      while rest != []
        invariant rest <= batch && queue == batch[|rest|..] + old(queue) && |queue| <= MAX_QUEUE
        invariant dropped == old(dropped)
        decreases |rest|
      {
        if |queue| >= MAX_QUEUE {
          dropped := dropped + |rest|;
          return;
        }
        assert batch[|rest| - 1..] == [batch[|rest| - 1]] + batch[|rest|..];
        queue := [rest[|rest| - 1]] + queue;
        rest := rest[..|rest| - 1];
      }
    }

    method DropBatchAndQueue(batch: seq<Event>)
      requires Valid()
      modifies this
      ensures Valid() && queue == [] && dropped == old(dropped) + |batch| + |old(queue)|
    {
      var n := |batch|;
      n := n + |queue|;
      queue := [];
      if n > 0 { dropped := dropped + n; }
    }

    /** Sends a batch, at most SEND_RETRIES + 1 times.  The transport's answers and whether
        the agent is running after each of them are given; sends counts the answers used, and
        waits are the backoffs between them, at most this long each. */
    method SendWithRetry(answers: seq<SendResult>, running: seq<bool>)
      returns (r: SendResult, sends: nat, waits: seq<nat>)
      requires |answers| == |running| == SEND_RETRIES + 1
      ensures 1 <= sends <= 4 && r == answers[sends - 1]
      ensures forall i :: 0 <= i < sends - 1 ==> answers[i] == Retryable && running[i]
      ensures answers[sends - 1] == Retryable && running[sends - 1] ==> sends == 4
      ensures |waits| == sends - 1 && forall i :: 0 <= i < |waits| ==> waits[i] == Wait(i)
    {
      var attempt := 0;
      var backoff := RETRY_BASE_MS;
      waits := [];
      while true
        invariant 0 <= attempt <= SEND_RETRIES
        invariant forall i :: 0 <= i < attempt ==> answers[i] == Retryable && running[i]
        invariant backoff == Wait(attempt)
        invariant |waits| == attempt && forall i :: 0 <= i < |waits| ==> waits[i] == Wait(i)
        decreases SEND_RETRIES - attempt
      {
        r := answers[attempt];
        if r != Retryable { return r, attempt + 1, waits; }
        if !running[attempt] { return Retryable, attempt + 1, waits; }
        if attempt == SEND_RETRIES { return Retryable, attempt + 1, waits; }
        waits := waits + [backoff];
        backoff := Min(backoff * 2, RETRY_MAX_MS);
        attempt := attempt + 1;
      }
    }
  }
}
