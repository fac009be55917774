/** What holds of every run of the queue: order, accounting and shutdown. */
module QueueTheorems {
  import opened AsyncQueue
  import opened QueueProtocol

  // ---- Order, bound, exactly once ----

  /** a is b with some elements left out. */
  ghost predicate Subsequence(a: seq<Event>, b: seq<Event>)
    decreases |b|
  {
    if a == [] then true
    else if b == [] then false
    else if a[0] == b[0] then Subsequence(a[1..], b[1..])
    else Subsequence(a, b[1..])
  }

  lemma {:induction false} IncreasingSubsequence(a: seq<Event>, b: seq<Event>)
    requires Increasing(a) && Increasing(b) && forall e :: e in a ==> e in b
    ensures Subsequence(a, b)
    decreases |b|
  {
    if a != [] {
      assert a[0] in b;
      if a[0] == b[0] {
        forall e | e in a[1..] ensures e in b[1..] {
          var i :| 1 <= i < |a| && a[i] == e;
          assert a[0] < a[i];
          assert e in b;
        }
        IncreasingSubsequence(a[1..], b[1..]);
      } else {
        var k :| 0 <= k < |b| && b[k] == a[0];
        assert b[0] < b[k];
        forall e | e in a ensures e in b[1..] {
          var i :| 0 <= i < |a| && a[i] == e;
          assert a[0] <= a[i];
          assert e in b;
        }
        IncreasingSubsequence(a, b[1..]);
      }
    }
  }

  lemma {:induction false} InitInv()
    ensures Inv(INIT)
  {
    assert INIT.Pipeline() == [] && Ids(0) == [];
  }

  lemma {:induction false} IdsOnce(n: nat, e: Event)
    ensures multiset(Ids(n))[e] == if e < n then 1 else 0
    decreases n
  {
    hide Ids;
    var last := NextId(n);
    if n > 0 {
      IdsOnce(n - 1, e);
      CountAppend(Ids(n - 1), last, e);
    }
  }

  lemma {:induction false} NextId(n: nat) returns (last: Event)
    ensures n == 0 ==> Ids(n) == []
    ensures n > 0 ==> last == n - 1 && Ids(n) == Ids(n - 1) + [last]
  {
    last := if n > 0 then n - 1 else 0;
  }

  lemma {:induction false} CountAppend(es: seq<Event>, last: Event, e: Event)
    ensures multiset(es + [last])[e] == multiset(es)[e] + if e == last then 1 else 0
  {
    assert multiset(es + [last]) == multiset(es) + multiset([last]);
  }

  lemma {:induction false} IdsLength(n: nat)
    ensures |Ids(n)| == n
    decreases n
  {
    if n > 0 {
      IdsLength(n - 1);
    }
  }

  /** In every interleaving the queue is bounded, and what is delivered, in flight and
      queued, in this order, is the accepted events in the order they were accepted, with
      the lost ones left out. */
  lemma {:induction false} DeliveredInOrder(acts: seq<Action>)
    requires Possible(INIT, acts)
    ensures
      var s := After(INIT, acts);
      && |s.queue| <= MAX_QUEUE && |s.worker.InFlight()| <= BATCH_SIZE
      && Subsequence(s.delivered + s.worker.InFlight() + s.queue, s.accepted)
  {
    InitInv();
    RunKeeps(INIT, acts);
    var s := After(INIT, acts);
    IncreasingSubsequence(s.Pipeline(), s.accepted);
  }

  /** Every offered event is in exactly one place, once. */
  lemma {:induction false} ExactlyOnce(acts: seq<Action>, e: Event)
    requires Possible(INIT, acts)
    ensures
      var s := After(INIT, acts);
      multiset(s.delivered)[e] + multiset(s.worker.InFlight())[e] + multiset(s.queue)[e] + multiset(s.lost)[e]
      == if e < s.offered then 1 else 0
  {
    InitInv();
    RunKeeps(INIT, acts);
    var s := After(INIT, acts);
    IdsOnce(s.offered, e);
    assert multiset(s.Pipeline()) == multiset(s.delivered) + multiset(s.worker.InFlight()) + multiset(s.queue);
    assert (multiset(s.Pipeline()) + multiset(s.lost))[e] == multiset(Ids(s.offered))[e];
  }

  // ---- Drop accounting ----

  /** The sizes of the batches that were permanently refused while stopping. */
  ghost function RefusedWhileStopping(s: State, acts: seq<Action>): nat
    requires Possible(s, acts)
    decreases |acts|
  {
    if acts == [] then 0
    else (if acts[0] == DropAll then |s.worker.batch| else 0) + RefusedWhileStopping(Apply(s, acts[0]), acts[1..])
  }

  lemma {:induction false} TwiceCountedIs(s: State, acts: seq<Action>)
    requires Possible(s, acts)
    ensures After(s, acts).twiceCounted == s.twiceCounted + RefusedWhileStopping(s, acts)
    decreases |acts|
  {
    if acts != [] {
      TwiceCountedIs(Apply(s, acts[0]), acts[1..]);
    }
  }

  /** Offers are accounted for, and the drop counter exceeds the true losses by exactly the
      sizes of the batches permanently refused while stopping, once nothing is left to count. */
  lemma {:induction false} DropAccounting(acts: seq<Action>)
    requires Possible(INIT, acts)
    ensures
      var s := After(INIT, acts);
      && s.offered == |s.delivered| + |s.worker.InFlight()| + |s.queue| + |s.lost|
      && (!s.worker.Counting? ==> s.dropped == |s.lost| + RefusedWhileStopping(INIT, acts))
  {
    InitInv();
    RunKeeps(INIT, acts);
    TwiceCountedIs(INIT, acts);
    var s := After(INIT, acts);
    IdsLength(s.offered);
    assert |multiset(s.Pipeline())| == |s.Pipeline()| && |multiset(s.lost)| == |s.lost|;
    assert |multiset(s.Pipeline()) + multiset(s.lost)| == |multiset(Ids(s.offered))|;
  }

  lemma {:induction false} NoneRefused(s: State, acts: seq<Action>)
    requires Inv(s) && Possible(s, acts)
    ensures RefusedWhileStopping(s, acts) == 0 <==> DropAll !in acts
    decreases |acts|
  {
    hide Sound, Apply;
    if acts != [] {
      StepKeeps(s, acts[0]);
      NoneRefused(Apply(s, acts[0]), acts[1..]);
      assert acts == [acts[0]] + acts[1..];
    }
  }

  /** The counter is exact precisely on the runs without that branch. */
  lemma {:induction false} CounterExact(acts: seq<Action>)
    requires Possible(INIT, acts) && !After(INIT, acts).worker.Counting?
    ensures After(INIT, acts).dropped == |After(INIT, acts).lost| <==> DropAll !in acts
  {
    InitInv();
    DropAccounting(acts);
    NoneRefused(INIT, acts);
  }

  const REFUSED_FOR_GOOD := [Send(Permanent), CountRefused, DropAll, CountDropped]

  /** Whenever a batch is refused for good while stopping, the losses grow by the batch and
      what was queued, but the counter counts the batch twice. */
  lemma {:induction false} RefusalCountsTwice(s: State)
    requires s.worker.Sending? && s.worker.stopping
    ensures
      && Possible(s, REFUSED_FOR_GOOD)
      && var t, batch := After(s, REFUSED_FOR_GOOD), s.worker.batch;
         && t.lost == s.lost + batch + s.queue
         && t.dropped == s.dropped + 2 * |batch| + |s.queue|
  {
    hide Possible, After;
    var batch := s.worker.batch;
    var s1 := s.(worker := Refused(batch, true));
    var s2 := s1.(worker := Rejected(batch), dropped := s.dropped + |batch|, lost := s.lost + batch);
    var s3 := Apply(s2, DropAll);
    var s4 := Apply(s3, CountDropped);
    var rest: seq<Action> := [CountDropped];
    Nothing(s4);
    Then(s3, rest, s4, [], s4);
    Then(s2, [DropAll, CountDropped], s3, rest, s4);
    Then(s1, [CountRefused, DropAll, CountDropped], s2, [DropAll, CountDropped], s4);
    Then(s, REFUSED_FOR_GOOD, s1, [CountRefused, DropAll, CountDropped], s4);
  }

  const STOP_WITH_ONE_EVENT := [Start, Offer, Stop, Take, ReadFlag, Deadline(false)]

  lemma {:induction false} StoppingSend()
    ensures
      && Possible(INIT, STOP_WITH_ONE_EVENT)
      && After(INIT, STOP_WITH_ONE_EVENT) == State([], false, 0, Sending([0], true, 0), 1, [0], [], [], 0)
  {
    hide Possible, After;
    var s1 := INIT.(running := true, worker := Waiting);
    var s2 := s1.(queue := [0], offered := 1, accepted := [0]);
    var s3 := s2.(running := false);
    var s4 := s3.(queue := [], worker := Picked([0]));
    var s5 := s4.(worker := Deciding([0], true));
    var s6 := s5.(worker := Sending([0], true, 0));
    assert s3.queue[1..] == [] && s3.queue[..1] == [0];
    Nothing(s6);
    Then(s5, [Deadline(false)], s6, [], s6);
    Then(s4, [ReadFlag, Deadline(false)], s5, [Deadline(false)], s6);
    Then(s3, [Take, ReadFlag, Deadline(false)], s4, [ReadFlag, Deadline(false)], s6);
    Then(s2, [Stop, Take, ReadFlag, Deadline(false)], s3, [Take, ReadFlag, Deadline(false)], s6);
    Then(s1, [Offer, Stop, Take, ReadFlag, Deadline(false)], s2, [Stop, Take, ReadFlag, Deadline(false)], s6);
    Then(INIT, STOP_WITH_ONE_EVENT, s1, [Offer, Stop, Take, ReadFlag, Deadline(false)], s6);
  }

  /** One event, refused for good after stop: lost once, counted twice. */
  lemma {:induction false} CounterCanExceed()
    ensures
      var acts := STOP_WITH_ONE_EVENT + REFUSED_FOR_GOOD;
      Possible(INIT, acts) && After(INIT, acts).lost == [0] && After(INIT, acts).dropped == 2
  {
    hide Possible, After;
    StoppingSend();
    RefusalCountsTwice(After(INIT, STOP_WITH_ONE_EVENT));
    Sequel(INIT, STOP_WITH_ONE_EVENT, REFUSED_FOR_GOOD);
  }

  lemma {:induction false} Sequel(s: State, a: seq<Action>, b: seq<Action>)
    requires Possible(s, a) && Possible(After(s, a), b)
    ensures Possible(s, a + b) && After(s, a + b) == After(After(s, a), b)
    decreases |a|
  {
    if a == [] {
      assert a + b == b;
    } else {
      Sequel(Apply(s, a[0]), a[1..], b);
      assert (a + b)[1..] == a[1..] + b;
    }
  }

  lemma {:induction false} Nothing(s: State)
    ensures Possible(s, []) && After(s, []) == s
  {
  }

  lemma {:induction false} Then(s: State, acts: seq<Action>, s1: State, rest: seq<Action>, t: State)
    requires acts != [] && acts[1..] == rest
    requires Enabled(s, acts[0]) && Apply(s, acts[0]) == s1 && Possible(s1, rest) && After(s1, rest) == t
    ensures Possible(s, acts) && After(s, acts) == t
  {
  }

  // ---- Delivery when the transport accepts ----

  /** A run in which every send succeeds and the deadline is never reached. */
  ghost predicate Benign(acts: seq<Action>) {
    forall a :: a in acts ==> (a.Send? ==> a.answer == Ok) && a != Deadline(true)
  }

  ghost predicate NothingLost(s: State) {
    && s.Pipeline() == s.accepted
    && !s.worker.Retried? && !s.worker.Backoff? && !s.worker.Refused? && !s.worker.Failed?
    && !s.worker.Rejected? && !s.worker.Counting?
  }

  lemma {:induction false} BenignKeeps(s: State, acts: seq<Action>)
    requires NothingLost(s) && Possible(s, acts) && Benign(acts)
    ensures NothingLost(After(s, acts))
    decreases |acts|
  {
    if acts != [] {
      var a := acts[0];
      assert a in acts;
      BenignStep(s, a);
      assert forall x :: x in acts[1..] ==> x in acts;
      BenignKeeps(Apply(s, a), acts[1..]);
    }
  }

  lemma {:induction false} BenignStep(s: State, a: Action)
    requires NothingLost(s) && Enabled(s, a) && (a.Send? ==> a.answer == Ok) && a != Deadline(true)
    ensures NothingLost(Apply(s, a))
  {
    if a.Offer? {
      var t := Offered(s);
      assert |s.queue| < MAX_QUEUE ==> t.Pipeline() == s.Pipeline() + [s.offered];
      assert |s.queue| >= MAX_QUEUE ==> t.Pipeline() == s.Pipeline();
    } else {
      OtherMoves(s, a);
    }
  }

  /** With such a transport everything accepted is delivered or still queued, in order; an
      exited worker has delivered all but what was offered after its last look. */
  lemma {:induction false} AllDelivered(acts: seq<Action>)
    requires Possible(INIT, acts) && Benign(acts)
    ensures
      var s := After(INIT, acts);
      && s.delivered + s.worker.InFlight() + s.queue == s.accepted
      && (s.worker.Exited? ==> s.delivered + s.queue == s.accepted)
  {
    assert INIT.Pipeline() == [];
    BenignKeeps(INIT, acts);
    var s := After(INIT, acts);
    assert s.worker.Exited? ==> s.delivered + [] + s.queue == s.delivered + s.queue;
  }

  // ---- What is lost, and why ----

  /** A batch taken is the first twenty events, or all if there are fewer. */
  lemma {:induction false} TakesTheFirst(s: State)
    requires s.worker.Waiting? && s.queue != []
    ensures
      var t := Apply(s, Take);
      && t.worker.Picked? && t.worker.batch + t.queue == s.queue && t.lost == s.lost
      && |t.worker.batch| <= 20 && (|t.worker.batch| == 20 || t.queue == [])
  {
  }

  /** A batch that failed while the agent runs goes back in front of the queue, but for as many
      of its first events as there is no room for. */
  lemma {:induction false} GiveBackLoses(s: State)
    requires s.worker.Failed? && !s.worker.stopping && |s.queue| <= 10000
    ensures
      var t, batch := Apply(s, GiveBack), s.worker.batch;
      var gone := if |batch| + |s.queue| > 10000 then |batch| + |s.queue| - 10000 else 0;
      gone <= |batch| && t.queue == batch[gone..] + s.queue && t.lost == s.lost + batch[..gone]
      && t.dropped == s.dropped + gone
  {
  }

  /** Events are lost only at a full queue, when offered or given back; by a permanent refusal; or
      in shutdown. */
  lemma {:induction false} LossCauses(s: State, a: Action)
    requires |s.queue| <= 10000 && Enabled(s, a) && Apply(s, a).lost != s.lost
    ensures
      || (a == Offer && |s.queue| == 10000 && Apply(s, a).lost == s.lost + [s.offered])
      || (a == GiveBack && s.worker.Failed? && |s.worker.batch| + |s.queue| > 10000)
      || a == CountRefused || a == DropAll
      || ((a == Deadline(true) || a == GiveBack) && (s.worker.Deciding? || s.worker.Failed?) && s.worker.stopping)
  {
    hide Requeued;
    match a
    case GiveBack =>
      if !s.worker.stopping {
        GiveBackLoses(s);
        assert s.lost + s.worker.batch[..0] == s.lost;
      }
    case _ =>
  }

  /** No stop, no permanent refusal, and room for each batch that is given back. */
  ghost predicate Patient(s: State, acts: seq<Action>)
    requires Possible(s, acts)
    decreases |acts|
  {
    acts == [] || (
      && acts[0] != Stop && acts[0] != Send(Permanent)
      && (acts[0] == GiveBack && s.worker.Failed? ==> |s.worker.batch| + |s.queue| <= 10000)
      && Patient(Apply(s, acts[0]), acts[1..]))
  }

  /** Nothing accepted was lost and nothing is about to be. */
  ghost predicate KeepsAll(s: State) {
    var w := s.worker;
    && s.Pipeline() == s.accepted && |s.queue| <= 10000 && (w.NotStarted? || s.running)
    && !w.Refused? && !w.Rejected? && !w.Counting?
    && (w.Deciding? || w.Sending? || w.Retried? || w.Backoff? || w.Failed? ==> !w.stopping)
  }

  lemma {:induction false} PatientStep(s: State, a: Action)
    requires KeepsAll(s) && Enabled(s, a) && a != Stop && a != Send(Permanent)
    requires a == GiveBack && s.worker.Failed? ==> |s.worker.batch| + |s.queue| <= 10000
    ensures KeepsAll(Apply(s, a))
  {
    hide Requeued, RequeueCount, TakeCount, Retries;
    StepBounded(s, a);
    match a
    case Offer => OfferKeeps(s);
    case GiveBack => GiveBackKeeps(s);
    case _ => OtherMoves(s, a);
  }

  lemma {:induction false} OfferKeeps(s: State)
    requires s.Pipeline() == s.accepted
    ensures Offered(s).Pipeline() == Offered(s).accepted
  {
    var held := s.delivered + s.worker.InFlight();
    assert held + (s.queue + [s.offered]) == held + s.queue + [s.offered];
  }

  lemma {:induction false} GiveBackKeeps(s: State)
    requires s.worker.Failed? && !s.worker.stopping && |s.worker.batch| + |s.queue| <= 10000
    ensures Apply(s, GiveBack).Pipeline() == s.Pipeline() && Apply(s, GiveBack).accepted == s.accepted
  {
    hide Requeued, RequeueCount;
    GiveBackLoses(s);
    var batch := s.worker.batch;
    assert batch[0..] == batch && s.delivered + [] + (batch + s.queue) == s.delivered + batch + s.queue;
  }

  lemma {:induction false} PatientKeeps(s: State, acts: seq<Action>)
    requires KeepsAll(s) && Possible(s, acts) && Patient(s, acts)
    ensures KeepsAll(After(s, acts))
    decreases |acts|
  {
    hide KeepsAll, Apply;
    if acts != [] {
      PatientStep(s, acts[0]);
      PatientKeeps(Apply(s, acts[0]), acts[1..]);
    }
  }

  /** However often the transport fails, as long as it refuses no batch for good, the agent is not
      stopped and failed batches find room, nothing accepted is ever lost. */
  lemma {:induction false} FailuresLoseNothing(acts: seq<Action>)
    requires Possible(INIT, acts) && Patient(INIT, acts)
    ensures
      var s := After(INIT, acts);
      s.delivered + s.worker.InFlight() + s.queue == s.accepted
  {
    assert INIT.Pipeline() == [];
    PatientKeeps(INIT, acts);
  }

  // ---- Shutdown ----

  /** A bound on the worker's remaining steps once stop is published: the pending events
      weigh most, then how far the worker is from seeing the flag. */
  function Remaining(s: State): nat {
    40 * (|s.queue| + |s.worker.InFlight()|) + Rank(s.worker, s.queue == [])
  }

  function Rank(w: Worker, empty: bool): (r: nat)
    ensures r < 40
  {
    match w
    case NotStarted => 0
    case Waiting => 13
    case Picked(_) => 12
    case Deciding(_, stopping) => if stopping then 11 else 22
    case Backoff(_, _, _) => 25
    case Sending(_, stopping, _) => if stopping then 10 else 20
    case Retried(_, stopping, _) => if stopping then 9 else 19
    case Failed(_, stopping) => if stopping then 8 else 18
    case Refused(_, _) => 7
    case Rejected(_) => 6
    case Counting(_, exit) => if exit || empty then 5 else 16
    case Checking => if empty then 3 else 15
    case Leaving => if empty then 2 else 14
    case Exited => 0
  }

  /** Every worker step after stop brings it closer to the exit. */
  lemma {:induction false} StepDescends(s: State, a: Action)
    requires Inv(s) && !s.running && Enabled(s, a) && WorkerAction(a)
    ensures Remaining(Apply(s, a)) < Remaining(s) && !Apply(s, a).running
  {
    hide Sound;
    if a.GiveBack? && !s.worker.stopping {
      assert |Requeued(s.queue, s.worker.batch)| <= |s.queue| + |s.worker.batch|;
    }
  }

  /** Once stop is published and producers are quiet, the worker makes at most Remaining(s)
      steps, and until it has exited it always has a step to make. */
  lemma {:induction false} ShutdownTerminates(s: State, acts: seq<Action>)
    requires Inv(s) && !s.running && Possible(s, acts) && forall a :: a in acts ==> WorkerAction(a)
    ensures |acts| <= Remaining(s)
    ensures
      var t := After(s, acts);
      t.worker.NotStarted? || t.worker.Exited? || exists a :: WorkerAction(a) && Enabled(t, a)
    decreases |acts|
  {
    hide Sound, Remaining;
    if acts == [] {
      NextAction(s);
    } else {
      assert acts[0] in acts;
      StepDescends(s, acts[0]);
      StepKeeps(s, acts[0]);
      assert forall a :: a in acts[1..] ==> a in acts;
      ShutdownTerminates(Apply(s, acts[0]), acts[1..]);
    }
  }

  lemma {:induction false} NextAction(s: State)
    ensures s.worker.NotStarted? || s.worker.Exited? || exists a :: WorkerAction(a) && Enabled(s, a)
  {
    var a := match s.worker
      case Waiting => Take
      case Picked(_) => ReadFlag
      case Deciding(_, _) => Deadline(false)
      case Sending(_, _, _) => Send(Ok)
      case Retried(_, _, _) => CheckRetry
      case Backoff(_, _, _) => Resume
      case Refused(_, _) => CountRefused
      case Failed(_, _) => GiveBack
      case Rejected(_) => DropAll
      case Counting(_, _) => CountDropped
      case Checking => CheckStop
      case _ => CheckEmpty;
    assert !s.worker.NotStarted? && !s.worker.Exited? ==> WorkerAction(a) && Enabled(s, a);
  }

  /** A worker that has left, or is about to, left nothing behind. */
  ghost predicate LeavesNothing(s: State) {
    s.worker.Exited? || (s.worker.Counting? && s.worker.exit) ==> s.queue == []
  }

  lemma {:induction false} QuietLeavesNothing(s: State, acts: seq<Action>)
    requires LeavesNothing(s) && Possible(s, acts) && forall a :: a in acts ==> WorkerAction(a)
    ensures LeavesNothing(After(s, acts))
    decreases |acts|
  {
    hide Apply, LeavesNothing;
    if acts != [] {
      assert acts[0] in acts;
      WorkerLeavesNothing(s, acts[0]);
      assert forall a :: a in acts[1..] ==> a in acts;
      QuietLeavesNothing(Apply(s, acts[0]), acts[1..]);
    }
  }

  lemma {:induction false} WorkerLeavesNothing(s: State, a: Action)
    requires LeavesNothing(s) && Enabled(s, a) && WorkerAction(a)
    ensures LeavesNothing(Apply(s, a))
  {
  }

  /** If producers are quiet from stop on, a worker that has exited leaves an empty queue; and if
      moreover the transport took every batch and the deadline was not passed, everything that
      was ever accepted is delivered, in order. */
  lemma {:induction false} DrainedAtExit(before: seq<Action>, quiet: seq<Action>)
    requires Possible(INIT, before) && After(INIT, before).running
    requires Possible(After(INIT, before), [Stop] + quiet) && forall a :: a in quiet ==> WorkerAction(a)
    ensures
      var t := After(After(INIT, before), [Stop] + quiet);
      t.worker.Exited? ==> t.queue == [] && (Benign(before) && Benign(quiet) ==> t.delivered == t.accepted)
  {
    hide Inv, Benign, NothingLost;
    var s, all := After(INIT, before), [Stop] + quiet;
    assert all[0] == Stop && all[1..] == quiet;
    InitInv();
    RunKeeps(INIT, before);
    RunningWorker(s);
    QuietLeavesNothing(Apply(s, Stop), quiet);
    if Benign(before) && Benign(quiet) {
      InitLostNothing();
      BenignKeeps(INIT, before);
      StopBenign(quiet);
      BenignKeeps(s, all);
      LostNothing(After(s, all));
    }
  }

  /** While the agent runs the worker has not left. */
  lemma {:induction false} RunningWorker(s: State)
    requires Inv(s) && s.running
    ensures LeavesNothing(Apply(s, Stop))
  {
    hide Sound, Counted;
  }

  lemma {:induction false} InitLostNothing()
    ensures NothingLost(INIT)
  {
    assert INIT.Pipeline() == [];
  }

  lemma {:induction false} StopBenign(quiet: seq<Action>)
    requires Benign(quiet)
    ensures Benign([Stop] + quiet)
  {
  }

  lemma {:induction false} LostNothing(s: State)
    requires NothingLost(s)
    ensures s.worker.Exited? && s.queue == [] ==> s.delivered == s.accepted
  {
    if s.worker.Exited? && s.queue == [] {
      assert s.Pipeline() == s.delivered;
    }
  }

  /** The worker is on its way out and will not send again. */
  ghost predicate Winding(s: State) {
    var w := s.worker;
    && !s.running
    && (|| ((w.Retried? || w.Refused? || w.Failed?) && w.stopping)
        || w.Rejected? || w.Counting? || w.Exited?
        || ((w.Checking? || w.Leaving?) && s.queue == []))
    && (w.Counting? ==> s.queue == [])
  }

  lemma {:induction false} WindingStays(s: State, acts: seq<Action>)
    requires Winding(s) && Possible(s, acts) && forall a :: a in acts ==> WorkerAction(a)
    ensures Winding(After(s, acts)) && forall a :: a in acts ==> !a.Send?
    decreases |acts|
  {
    if acts != [] {
      assert acts[0] in acts;
      assert Winding(Apply(s, acts[0]));
      assert forall a :: a in acts[1..] ==> a in acts;
      WindingStays(Apply(s, acts[0]), acts[1..]);
      assert acts == [acts[0]] + acts[1..];
    }
  }

  /** A send begun after the worker saw stop, if not answered Ok, is its last one. */
  lemma {:induction false} FailedSendIsLast(s: State, answer: SendResult, acts: seq<Action>)
    requires Inv(s) && s.worker.Sending? && s.worker.stopping && answer != Ok
    requires Possible(s, [Send(answer)] + acts) && forall a :: a in acts ==> WorkerAction(a)
    ensures forall a :: a in acts ==> !a.Send?
  {
    var all := [Send(answer)] + acts;
    assert all[0] == Send(answer) && all[1..] == acts;
    WindingStays(Apply(s, Send(answer)), acts);
  }

  /** In every run a batch has been sent at most SEND_RETRIES times before the send that is
      about to be made. */
  lemma {:induction false} AttemptsBounded(acts: seq<Action>)
    requires Possible(INIT, acts) && After(INIT, acts).worker.Sending?
    ensures After(INIT, acts).worker.attempt <= SEND_RETRIES
    ensures 1 <= |After(INIT, acts).worker.batch| <= BATCH_SIZE
  {
    InitInv();
    RunKeeps(INIT, acts);
  }

  /** The worker is between the first send of a batch and the end of its retries. */
  predicate InSend(w: Worker) { w.Sending? || w.Retried? || w.Backoff? }

  /** The worker is there before each of the actions. */
  ghost predicate StaysInSend(s: State, acts: seq<Action>)
    requires Possible(s, acts)
    decreases |acts|
  {
    acts == [] || (InSend(s.worker) && StaysInSend(Apply(s, acts[0]), acts[1..]))
  }

  function Sends(acts: seq<Action>): nat {
    if acts == [] then 0 else (if acts[0].Send? then 1 else 0) + Sends(acts[1..])
  }

  /** Sends still possible in the same go. */
  function SendsLeft(w: Worker): int {
    if w.Sending? then SEND_RETRIES + 1 - w.attempt
    else if w.Retried? || w.Backoff? then SEND_RETRIES - w.attempt
    else 0
  }

  lemma {:induction false} SendStep(s: State, a: Action)
    requires Inv(s) && Enabled(s, a) && InSend(s.worker)
    ensures SendsLeft(Apply(s, a).worker) + (if a.Send? then 1 else 0) <= SendsLeft(s.worker)
    ensures SendsLeft(Apply(s, a).worker) >= 0
  {
    hide Sound, Counted;
    StepWorkerOk(s, a);
  }

  lemma {:induction false} SendsFrom(s: State, acts: seq<Action>)
    requires Inv(s) && Possible(s, acts) && StaysInSend(s, acts) && SendsLeft(s.worker) >= 0
    ensures Sends(acts) <= SendsLeft(s.worker)
    decreases |acts|
  {
    hide Inv, Apply, SendsLeft;
    if acts != [] {
      SendStep(s, acts[0]);
      StepKeeps(s, acts[0]);
      SendsFrom(Apply(s, acts[0]), acts[1..]);
    }
  }

  /** In every run, from the decision to send a batch until the worker is done with it, however
      the producers interleave, at most SEND_RETRIES + 1 sends are made. */
  lemma {:induction false} SendsBounded(before: seq<Action>, acts: seq<Action>)
    requires Possible(INIT, before) && After(INIT, before).worker.Deciding?
    requires
      var s := After(INIT, before);
      Possible(s, [Deadline(false)] + acts) && StaysInSend(Apply(s, Deadline(false)), acts)
    ensures Sends(acts) <= SEND_RETRIES + 1
  {
    hide Inv;
    InitInv();
    RunKeeps(INIT, before);
    var s := After(INIT, before);
    var all := [Deadline(false)] + acts;
    assert all[0] == Deadline(false) && all[1..] == acts;
    StepKeeps(s, Deadline(false));
    SendsFrom(Apply(s, Deadline(false)), acts);
  }

  // ---- How often a batch is sent ----

  /** Sends made in this go. */
  function SendsMade(w: Worker): int {
    if w.Sending? then w.attempt else if w.Retried? || w.Backoff? then w.attempt + 1 else 0
  }

  lemma {:induction false} SendsMadeStep(s: State, a: Action)
    requires Enabled(s, a) && InSend(s.worker) && InSend(Apply(s, a).worker)
    ensures SendsMade(Apply(s, a).worker) == SendsMade(s.worker) + if a.Send? then 1 else 0
  {
  }

  lemma {:induction false} SendsMadeFrom(s: State, acts: seq<Action>)
    requires Possible(s, acts) && StaysInSend(s, acts) && InSend(After(s, acts).worker)
    ensures SendsMade(After(s, acts).worker) == SendsMade(s.worker) + Sends(acts)
    decreases |acts|
  {
    hide Apply, SendsMade;
    if acts != [] {
      var t := Apply(s, acts[0]);
      assert InSend(t.worker) by { if |acts| > 1 { assert acts[1..] != []; } }
      SendsMadeStep(s, acts[0]);
      SendsMadeFrom(t, acts[1..]);
    }
  }

  /** After a retryable answer, while the agent runs, the worker gives the batch up exactly when
      this was its fourth send; once stopped, it gives up at once. */
  lemma {:induction false} GivesUpAfterFour(before: seq<Action>, acts: seq<Action>)
    requires Possible(INIT, before) && After(INIT, before).worker.Deciding?
    requires
      var s := After(INIT, before);
      Possible(s, [Deadline(false)] + acts) && StaysInSend(Apply(s, Deadline(false)), acts)
    requires After(After(INIT, before), [Deadline(false)] + acts).worker.Retried?
    ensures
      var t := After(After(INIT, before), [Deadline(false)] + acts);
      Apply(t, CheckRetry).worker.Failed? <==> !t.running || Sends(acts) == 4
  {
    var s := After(INIT, before);
    var all := [Deadline(false)] + acts;
    assert all[0] == Deadline(false) && all[1..] == acts;
    SendsMadeFrom(Apply(s, Deadline(false)), acts);
    SendsBounded(before, acts);
  }
}
