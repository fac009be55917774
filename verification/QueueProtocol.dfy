/** Producers, one worker and stop, interleaved in every way, with any transport answers.

    A state records the shared queue, the flag and the drop counter, where the worker is,
    and the history: how many events were offered, which were accepted, delivered and lost. */
module QueueProtocol {
  import opened AsyncQueue

  /** Where the worker is.  stopping is what it read of the flag before sending. */
  datatype Worker =
    | NotStarted
    | Waiting
    | Picked(batch: seq<Event>)
    | Deciding(batch: seq<Event>, stopping: bool)
    | Sending(batch: seq<Event>, stopping: bool, attempt: nat)
    | Retried(batch: seq<Event>, stopping: bool, attempt: nat)
    | Backoff(batch: seq<Event>, stopping: bool, attempt: nat)
    | Refused(batch: seq<Event>, stopping: bool)
    | Failed(batch: seq<Event>, stopping: bool)
    | Rejected(batch: seq<Event>)
    | Counting(n: nat, exit: bool)
    | Checking
    | Leaving
    | Exited
  {
    /** The events the worker holds that are neither delivered nor lost. */
    function InFlight(): seq<Event> {
      if Picked? || Deciding? || Sending? || Retried? || Backoff? || Refused? || Failed? then batch else []
    }
  }

  datatype State = State(
    queue: seq<Event>, running: bool, dropped: nat, worker: Worker,
    offered: nat, accepted: seq<Event>, delivered: seq<Event>, lost: seq<Event>,
    twiceCounted: nat)
  {
    /** Everything accepted and not lost, oldest first. */
    function Pipeline(): seq<Event> { delivered + worker.InFlight() + queue }
  }

  datatype Action =
    | Offer            // a producer enqueues the next event
    | Start
    | Stop
    | Take             // the worker wakes, reads the flag and takes a batch
    | ReadFlag         // it reads the flag before sending
    | Deadline(passed: bool)
    | Send(answer: SendResult)
    | CheckRetry       // it reads the flag after a retryable answer
    | Resume           // the backoff ends
    | CountRefused     // it counts a permanently refused batch
    | GiveBack         // it puts a failed batch back, or drops everything when stopping
    | DropAll          // it drops everything after a permanent refusal while stopping
    | CountDropped     // it adds what it dropped to the counter
    | CheckStop        // it reads the flag after sending
    | CheckEmpty       // it looks whether the queue is empty

  predicate WorkerAction(a: Action) { !a.Offer? && !a.Start? && !a.Stop? }

  predicate Enabled(s: State, a: Action) {
    var w := s.worker;
    match a
    case Offer => true
    case Start => w.NotStarted?
    case Stop => true
    case Take => w.Waiting?
    case ReadFlag => w.Picked?
    case Deadline(passed) => w.Deciding? && (passed ==> w.stopping)
    case Send(_) => w.Sending?
    case CheckRetry => w.Retried?
    case Resume => w.Backoff?
    case CountRefused => w.Refused?
    case GiveBack => w.Failed?
    case DropAll => w.Rejected?
    case CountDropped => w.Counting?
    case CheckStop => w.Checking?
    case CheckEmpty => w.Leaving?
  }

  function Offered(s: State): State {
    var e := s.offered;
    var t := s.(offered := e + 1);
    if |s.queue| >= MAX_QUEUE then t.(dropped := s.dropped + 1, lost := s.lost + [e])
    else t.(queue := s.queue + [e], accepted := s.accepted + [e])
  }

  function Taken(s: State): State {
    var n := TakeCount(s.queue);
    if n == 0 then s.(worker := if s.running then Waiting else Exited)
    else s.(queue := s.queue[n..], worker := Picked(s.queue[..n]))
  }

  function Answered(s: State, answer: SendResult): State
    requires s.worker.Sending?
  {
    var w := s.worker;
    match answer
    case Ok => s.(delivered := s.delivered + w.batch, worker := Checking)
    case Permanent => s.(worker := Refused(w.batch, w.stopping))
    case Retryable => s.(worker := Retried(w.batch, w.stopping, w.attempt))
  }

  function GivenBack(s: State): State
    requires s.worker.Failed?
  {
    var batch := s.worker.batch;
    if s.worker.stopping then
      s.(queue := [], lost := s.lost + batch + s.queue, worker := Counting(|batch| + |s.queue|, false))
    else
      var gone := |batch| - RequeueCount(s.queue, batch);
      s.(queue := Requeued(s.queue, batch), dropped := s.dropped + gone,
         lost := s.lost + batch[..gone], worker := Checking)
  }

  function Apply(s: State, a: Action): State
    requires Enabled(s, a)
  {
    var w := s.worker;
    match a
    case Offer => Offered(s)
    case Start => s.(running := true, worker := Waiting)
    case Stop => s.(running := false)
    case Take => Taken(s)
    case ReadFlag => s.(worker := Deciding(w.batch, !s.running))
    case Deadline(passed) =>
      if passed
      then s.(queue := [], lost := s.lost + w.batch + s.queue, worker := Counting(|w.batch| + |s.queue|, true))
      else s.(worker := Sending(w.batch, w.stopping, 0))
    case Send(answer) => Answered(s, answer)
    case CheckRetry =>
      s.(worker := if Retries(Retryable, s.running, w.attempt) then Backoff(w.batch, w.stopping, w.attempt)
                   else Failed(w.batch, w.stopping))
    case Resume => s.(worker := Sending(w.batch, w.stopping, w.attempt + 1))
    case CountRefused =>
      s.(dropped := s.dropped + |w.batch|, lost := s.lost + w.batch,
         worker := if w.stopping then Rejected(w.batch) else Checking)
    case GiveBack => GivenBack(s)
    case DropAll =>
      s.(queue := [], lost := s.lost + s.queue, twiceCounted := s.twiceCounted + |w.batch|,
         worker := Counting(|w.batch| + |s.queue|, false))
    case CountDropped =>
      s.(dropped := s.dropped + w.n, worker := if w.exit then Exited else Checking)
    case CheckStop => s.(worker := if s.running then Waiting else Leaving)
    case CheckEmpty => s.(worker := if s.queue == [] then Exited else Waiting)
  }

  const INIT := State([], false, 0, NotStarted, 0, [], [], [], 0)

  // ---- Runs ----

  ghost predicate Possible(s: State, acts: seq<Action>)
    decreases |acts|
  {
    acts == [] || (Enabled(s, acts[0]) && Possible(Apply(s, acts[0]), acts[1..]))
  }

  ghost function After(s: State, acts: seq<Action>): State
    requires Possible(s, acts)
    decreases |acts|
  {
    if acts == [] then s else After(Apply(s, acts[0]), acts[1..])
  }

  // ---- The invariant ----

  ghost predicate Increasing(es: seq<Event>) {
    forall i, j :: 0 <= i < j < |es| ==> es[i] < es[j]
  }

  function Ids(n: nat): seq<Event> {
    if n == 0 then [] else Ids(n - 1) + [n - 1]
  }

  /** What the worker has taken out of the queue for dropping and not yet counted. */
  function Uncounted(w: Worker): nat { if w.Counting? then w.n else 0 }

  ghost predicate Ordered(pipeline: seq<Event>, offered: nat, accepted: seq<Event>) {
    && Increasing(pipeline) && Increasing(accepted)
    && (forall e :: e in pipeline ==> e in accepted)
    && (forall e :: e in accepted ==> e < offered)
  }

  ghost predicate Partition(pipeline: seq<Event>, lost: seq<Event>, offered: nat) {
    multiset(pipeline) + multiset(lost) == multiset(Ids(offered))
  }

  /** Every offered event is delivered, in flight, queued or lost, and exactly one of these;
      those not lost are in the order they were accepted. */
  ghost predicate Sound(pipeline: seq<Event>, lost: seq<Event>, offered: nat, accepted: seq<Event>) {
    Ordered(pipeline, offered, accepted) && Partition(pipeline, lost, offered)
  }

  ghost predicate Counted(s: State) {
    s.dropped + Uncounted(s.worker) == |s.lost| + s.twiceCounted
  }

  ghost predicate WorkerOk(s: State) {
    var w := s.worker;
    && |w.InFlight()| <= BATCH_SIZE
    && (w.Rejected? ==> |w.batch| <= BATCH_SIZE)
    && (w.Picked? || w.Deciding? || w.Sending? || w.Retried? || w.Backoff? || w.Refused? || w.Failed? || w.Rejected? ==>
          |w.batch| > 0)
    && (w.Sending? || w.Retried? ==> w.attempt <= SEND_RETRIES)
    && (w.Backoff? ==> w.attempt < SEND_RETRIES)
    && (w.Deciding? || w.Sending? || w.Retried? || w.Backoff? || w.Refused? || w.Failed? ==>
          (w.stopping ==> !s.running))
    && (w.Rejected? || w.Exited? || w.Leaving? ==> !s.running)
    && (w.Counting? ==> !s.running)
  }

  ghost predicate Inv(s: State) {
    |s.queue| <= MAX_QUEUE && Sound(s.Pipeline(), s.lost, s.offered, s.accepted) && Counted(s) && WorkerOk(s)
  }

  // ---- Every step keeps it ----

  lemma {:induction false} SubseqIncreasing(es: seq<Event>, a: nat, b: nat)
    requires Increasing(es) && a <= b <= |es|
    ensures Increasing(es[..a] + es[b..])
    ensures forall e :: e in es[..a] + es[b..] ==> e in es
  {
    var cut := es[..a] + es[b..];
    forall i, j | 0 <= i < j < |cut| ensures cut[i] < cut[j] {
      assert cut[i] == es[if i < a then i else i - a + b];
      assert cut[j] == es[if j < a then j else j - a + b];
    }
  }

  /** Cutting a stretch out of the pipeline and losing exactly it. */
  lemma {:induction false} Cut(p: seq<Event>, lost: seq<Event>, offered: nat, accepted: seq<Event>, a: nat, b: nat)
    requires Sound(p, lost, offered, accepted) && a <= b <= |p|
    ensures Sound(p[..a] + p[b..], lost + p[a..b], offered, accepted)
  {
    hide Ids, Increasing;
    SubseqIncreasing(p, a, b);
    assert p == p[..a] + p[a..b] + p[b..];
    assert multiset(p) == multiset(p[..a]) + multiset(p[a..b]) + multiset(p[b..]);
  }

  lemma {:induction false} Refuse(p: seq<Event>, lost: seq<Event>, offered: nat, accepted: seq<Event>)
    requires Sound(p, lost, offered, accepted)
    ensures Sound(p, lost + [offered], offered + 1, accepted)
  {
    hide Increasing;
    assert Ids(offered + 1) == Ids(offered) + [offered];
    assert multiset(lost + [offered]) == multiset(lost) + multiset{offered};
    assert multiset(Ids(offered + 1)) == multiset(Ids(offered)) + multiset{offered};
  }

  lemma {:induction false} IncreasingAppend(es: seq<Event>, e: Event)
    requires Increasing(es) && forall x :: x in es ==> x < e
    ensures Increasing(es + [e])
  {
    forall i, j | 0 <= i < j < |es + [e]| ensures (es + [e])[i] < (es + [e])[j] {
      assert es[i] in es;
    }
  }

  lemma {:induction false} Accept(p: seq<Event>, lost: seq<Event>, offered: nat, accepted: seq<Event>)
    requires Sound(p, lost, offered, accepted)
    ensures Sound(p + [offered], lost, offered + 1, accepted + [offered])
  {
    hide Increasing;
    IncreasingAppend(p, offered);
    IncreasingAppend(accepted, offered);
    AcceptPartition(p, lost, offered);
  }

  lemma {:induction false} AcceptPartition(p: seq<Event>, lost: seq<Event>, offered: nat)
    requires Partition(p, lost, offered)
    ensures Partition(p + [offered], lost, offered + 1)
  {
    assert Ids(offered + 1) == Ids(offered) + [offered];
    assert multiset(p + [offered]) == multiset(p) + multiset{offered};
    assert multiset(Ids(offered + 1)) == multiset(Ids(offered)) + multiset{offered};
  }

  /** The pieces of d + b + q. */
  lemma {:induction false} Pieces(d: seq<Event>, b: seq<Event>, q: seq<Event>, k: nat)
    requires k <= |b|
    ensures
      var p, n := d + b + q, |d|;
      && p[..n] + p[n + k..] == d + b[k..] + q && p[n..n + k] == b[..k]
      && p[..n] + p[|p|..] == d && p[n..|p|] == b + q
      && p[..n + |b|] + p[|p|..] == d + b && p[n + |b|..|p|] == q
  {
  }

  lemma {:induction false} Reassociate(d: seq<Event>, b: seq<Event>, q: seq<Event>)
    ensures d + [] + (b + q) == d + b + q
    ensures d + (b + q) == d + b + q
    ensures d + [] + [] == d
  {
  }

  lemma {:induction false} GiveBackMoves(s: State)
    requires Inv(s) && s.worker.Failed? && !s.worker.stopping
    ensures var t := GivenBack(s); Sound(t.Pipeline(), t.lost, t.offered, t.accepted)
  {
    hide Sound, WorkerOk, Counted, RequeueCount;
    var batch, d := s.worker.batch, |s.delivered|;
    var gone := |batch| - RequeueCount(s.queue, batch);
    Pieces(s.delivered, batch, s.queue, gone);
    Cut(s.Pipeline(), s.lost, s.offered, s.accepted, d, d + gone);
    Reassociate(s.delivered, batch[gone..], s.queue);
  }

  lemma {:induction false} GiveUpMoves(s: State)
    requires Inv(s) && s.worker.Failed? && s.worker.stopping
    ensures var t := GivenBack(s); Sound(t.Pipeline(), t.lost, t.offered, t.accepted)
  {
    hide Sound, WorkerOk, Counted;
    var batch, d := s.worker.batch, |s.delivered|;
    Pieces(s.delivered, batch, s.queue, 0);
    Cut(s.Pipeline(), s.lost, s.offered, s.accepted, d, |s.Pipeline()|);
    Reassociate(s.delivered, [], []);
    Reassociate(s.lost, batch, s.queue);
  }

  lemma {:induction false} DropMoves(s: State, a: Action)
    requires Inv(s) && Enabled(s, a) && (a == Deadline(true) || a == CountRefused || a == DropAll)
    ensures var t := Apply(s, a); Sound(t.Pipeline(), t.lost, t.offered, t.accepted)
  {
    hide Sound, WorkerOk, Counted;
    var t, b, d, p := Apply(s, a), s.worker.InFlight(), |s.delivered|, s.Pipeline();
    Pieces(s.delivered, b, s.queue, |b|);
    if a.CountRefused? {
      Cut(p, s.lost, s.offered, s.accepted, d, d + |b|);
      assert t.Pipeline() == s.delivered + b[|b|..] + s.queue && b[..|b|] == b;
    } else if a.DropAll? {
      Cut(p, s.lost, s.offered, s.accepted, d + |b|, |p|);
      assert t.Pipeline() == s.delivered + b;
    } else {
      Cut(p, s.lost, s.offered, s.accepted, d, |p|);
      assert s.lost + (b + s.queue) == t.lost;
      assert t.Pipeline() == s.delivered;
    }
  }

  lemma {:induction false} OfferMoves(s: State)
    requires Inv(s)
    ensures var t := Offered(s); Sound(t.Pipeline(), t.lost, t.offered, t.accepted)
  {
    hide Sound, WorkerOk, Counted;
    var t, p := Offered(s), s.Pipeline();
    if |s.queue| >= MAX_QUEUE {
      Refuse(p, s.lost, s.offered, s.accepted);
      assert t.Pipeline() == p;
    } else {
      Accept(p, s.lost, s.offered, s.accepted);
      assert t.Pipeline() == p + [s.offered];
    }
  }

  /** The other steps only move events along the pipeline. */
  lemma {:induction false} OtherMoves(s: State, a: Action)
    requires Enabled(s, a) && !a.Offer? && !a.GiveBack? && a != Deadline(true) && a != CountRefused && a != DropAll
    ensures var t := Apply(s, a);
      t.Pipeline() == s.Pipeline() && t.lost == s.lost && t.offered == s.offered && t.accepted == s.accepted
  {
    hide Taken, Answered, Offered, GivenBack, Retries;
    match a
    case Take => TakeMoves(s);
    case Send(answer) => AnswerMoves(s, answer);
    case _ =>
  }

  lemma {:induction false} TakeMoves(s: State)
    requires s.worker.Waiting?
    ensures var t := Taken(s);
      t.Pipeline() == s.Pipeline() && t.lost == s.lost && t.offered == s.offered && t.accepted == s.accepted
  {
    hide TakeCount;
    assert s.queue == s.queue[..TakeCount(s.queue)] + s.queue[TakeCount(s.queue)..];
  }

  lemma {:induction false} AnswerMoves(s: State, answer: SendResult)
    requires s.worker.Sending?
    ensures var t := Answered(s, answer);
      t.Pipeline() == s.Pipeline() && t.lost == s.lost && t.offered == s.offered && t.accepted == s.accepted
  {
  }

  /** No step loses an event without recording it, duplicates one, or reorders them. */
  lemma {:induction false} StepMoves(s: State, a: Action)
    requires Inv(s) && Enabled(s, a)
    ensures var t := Apply(s, a); Sound(t.Pipeline(), t.lost, t.offered, t.accepted)
  {
    hide Sound, WorkerOk, Counted;
    if a.Offer? { OfferMoves(s); }
    else if a.GiveBack? { if s.worker.stopping { GiveUpMoves(s); } else { GiveBackMoves(s); } }
    else if a == Deadline(true) || a == CountRefused || a == DropAll { DropMoves(s, a); }
    else { OtherMoves(s, a); }
  }

  /** Bound, counter and worker. */
  lemma {:induction false} StepBounded(s: State, a: Action)
    requires |s.queue| <= MAX_QUEUE && Enabled(s, a)
    ensures |Apply(s, a).queue| <= MAX_QUEUE
  {
  }

  lemma {:induction false} StepCounted(s: State, a: Action)
    requires Counted(s) && Enabled(s, a)
    ensures Counted(Apply(s, a))
  {
    hide Requeued, TakeCount, RequeueCount, Retries;
    if a.GiveBack? && !s.worker.stopping {
      GivenBackCounted(s);
    }
  }

  lemma {:induction false} GivenBackCounted(s: State)
    requires Counted(s) && s.worker.Failed? && !s.worker.stopping
    ensures Counted(GivenBack(s))
  {
    hide Requeued, RequeueCount;
  }

  lemma {:induction false} StepWorkerOk(s: State, a: Action)
    requires WorkerOk(s) && Enabled(s, a)
    ensures WorkerOk(Apply(s, a))
  {
    hide Requeued, RequeueCount;
  }

  lemma {:induction false} StepCounts(s: State, a: Action)
    requires Inv(s) && Enabled(s, a)
    ensures |Apply(s, a).queue| <= MAX_QUEUE && Counted(Apply(s, a)) && WorkerOk(Apply(s, a))
  {
    hide Sound, Apply, Counted, WorkerOk;
    StepBounded(s, a);
    StepCounted(s, a);
    StepWorkerOk(s, a);
  }

  lemma {:induction false} StepKeeps(s: State, a: Action)
    requires Inv(s) && Enabled(s, a)
    ensures Inv(Apply(s, a))
  {
    hide Apply, Sound, Counted, WorkerOk;
    StepMoves(s, a);
    StepCounts(s, a);
  }

  lemma {:induction false} RunKeeps(s: State, acts: seq<Action>)
    requires Inv(s) && Possible(s, acts)
    ensures Inv(After(s, acts))
    decreases |acts|
  {
    if acts != [] {
      StepKeeps(s, acts[0]);
      RunKeeps(Apply(s, acts[0]), acts[1..]);
    }
  }
}
