/** Throwing threads in any interleaving, and the throws that reach the collector.

    A step is one critical section: a suppressed throw is recorded, a captured throw's message or
    a class's message is built, a flush takes the pending counts, a message is given to the
    queue.  A thread keeps what it has built or taken in hand until it has given it to the
    queue; messages in hand are given in any order. */
module CaptureProtocol {
  import opened Wrappers
  import opened JsonText
  import opened Sums
  import opened EventSerializer
  import opened CountAggregator
  import opened CapturePipeline
  import AsyncQueue
  import QueueProtocol
  import QueueTheorems

  /** handed[e] is the message of the queue's e-th enqueue attempt; thrown are the fingerprints of
      the sampled throws, and spilled those of the throws that overflowed. */
  datatype State = State(
    counts: Counts, inHand: seq<string>, handed: seq<string>, thrown: seq<Bytes>, spilled: seq<Bytes>)

  datatype Action =
    | Record(fp: Bytes, proto: CapturedEvent, at: int)
    | Capture(ev: CapturedEvent)
    | ShipClass(site: Deployment, name: Bytes, data: Bytes)
    | Flush(force: bool, at: int, fps: seq<Bytes>)
    | Give(i: nat)

  /** No room for a new fingerprint. */
  predicate Spills(pending: Pending, fp: Bytes) { fp !in pending && |pending| >= MAX_ENTRIES }

  ghost predicate Enabled(s: State, a: Action) {
    match a
    case Record(fp, proto, _) => proto.fingerprint == fp
    case Capture(ev) => ev.occurrences == 1
    case ShipClass(_, _, _) => true
    case Flush(force, at, fps) => Lists(fps, Ready(s.counts, at, force))
    case Give(i) => i < |s.inHand|
  }

  ghost function Apply(s: State, a: Action): State
    requires Enabled(s, a)
  {
    match a
    case Record(fp, proto, at) =>
      s.(counts := Recorded(s.counts, fp, proto, at), thrown := s.thrown + [fp],
         spilled := if Spills(s.counts.pending, fp) then s.spilled + [fp] else s.spilled)
    case Capture(ev) => s.(inHand := s.inHand + [EventText(ev)], thrown := s.thrown + [ev.fingerprint])
    case ShipClass(site, name, data) => s.(inHand := s.inHand + [ClassText(site, name, data)])
    case Flush(force, at, fps) =>
      s.(counts := Drained(s.counts, at, force), inHand := s.inHand + Summaries(fps, Ready(s.counts, at, force)))
    case Give(i) =>
      s.(inHand := s.inHand[..i] + s.inHand[i + 1..], handed := s.handed + [s.inHand[i]])
  }

  const INIT := State(Counts(map[], 0, 0), [], [], [], [])

  ghost predicate Possible(s: State, acts: seq<Action>)
    decreases |acts|
  {
    acts == [] || (Enabled(s, acts[0]) && Possible(Apply(s, acts[0]), acts[1..]))
  }

  ghost function After(s: State, acts: seq<Action>): State
    requires Possible(s, acts)
    decreases |acts|
  {
    if acts == [] then s else After(Apply(s, acts[0]), acts[1..])
  }

  /** Every throw is in a message, in hand or given away, or counted; entries are bounded and
      never empty. */
  ghost predicate Conserved(s: State) {
    && Bounded(s.counts.pending)
    && |s.thrown| == Total(s.handed, OccurrencesOf) + Total(s.inHand, OccurrencesOf) + Held(s.counts)
  }

  lemma {:induction false} StepConserves(s: State, a: Action)
    requires Conserved(s) && Enabled(s, a)
    ensures Conserved(Apply(s, a))
  {
    hide Total, Held, Bounded, OccurrencesOf, EventText, ClassText, Recorded, Drained, Summaries, Lists, Ready;
    match a
    case Record(fp, proto, at) => RecordedCounts(s.counts, fp, proto, at);
    case Capture(ev) =>
      OccurrencesRead(ev);
      TotalOne(s.inHand, EventText(ev), OccurrencesOf);
    case ShipClass(site, name, data) =>
      ClassesCountNothing(site, name, data);
      TotalOne(s.inHand, ClassText(site, name, data), OccurrencesOf);
    case Flush(force, at, fps) =>
      FlushCounts(s.counts, fps, at, force, s.inHand);
      DrainedBounded(s.counts, at, force);
    case Give(i) =>
      TotalWithout(s.inHand, i, OccurrencesOf);
      TotalOne(s.handed, s.inHand[i], OccurrencesOf);
  }

  lemma {:induction false} DrainedBounded(c: Counts, at: int, force: bool)
    requires Bounded(c.pending)
    ensures Bounded(Drained(c, at, force).pending)
  {
  }

  lemma {:induction false} RunConserves(s: State, acts: seq<Action>)
    requires Conserved(s) && Possible(s, acts)
    ensures Conserved(After(s, acts))
    decreases |acts|
  {
    hide Conserved;
    if acts != [] {
      StepConserves(s, acts[0]);
      RunConserves(Apply(s, acts[0]), acts[1..]);
    }
  }

  lemma {:induction false} InitConserved()
    ensures Conserved(INIT)
  {
    hide OccurrencesOf;
  }

  /** Throws are conserved in every interleaving. */
  lemma {:induction false} ThrowsConserved(acts: seq<Action>)
    requires Possible(INIT, acts)
    ensures
      var s := After(INIT, acts);
      && |s.thrown| == Total(s.handed, OccurrencesOf) + Total(s.inHand, OccurrencesOf)
                     + MapTotal(s.counts.pending, CountOf) + s.counts.overflow
      && |s.counts.pending| <= MAX_ENTRIES
      && forall fp :: fp in s.counts.pending ==> s.counts.pending[fp].count >= 1
  {
    hide OccurrencesOf, Total;
    InitConserved();
    RunConserves(INIT, acts);
  }

  // ---- In time ----

  /** In every run, a flush that is forced or comes 5000 ms or more after the last one, or is the
      first, puts all pending counts in hand; after any other less than 5000 ms have passed. */
  lemma {:induction false} FlushedInTime(acts: seq<Action>, force: bool, at: int, fps: seq<Bytes>)
    requires Possible(INIT, acts) && Enabled(After(INIT, acts), Flush(force, at, fps))
    ensures
      var s, last := After(INIT, acts), After(INIT, acts).counts.lastFlush;
      var t := Apply(s, Flush(force, at, fps));
      if force || last == 0 || at - last >= 5000
      then
        && t.counts.pending == map[] && t.counts.lastFlush == at
        && |t.inHand| == |s.inHand| + |fps| && Lists(fps, s.counts.pending)
      else
        t.counts == s.counts && t.inHand == s.inHand
  {
    hide Lists, Summaries, Possible, After;
    var s := After(INIT, acts);
    FlushTimes(s.counts, at, force);
    if Ready(s.counts, at, force) == map[] {
      NothingListed(fps, Ready(s.counts, at, force));
    }
  }

  lemma {:induction false} NothingListed(fps: seq<Bytes>, pending: Pending)
    requires Lists(fps, pending) && pending == map[]
    ensures fps == [] && Summaries(fps, pending) == []
  {
    SomeMember(fps);
  }

  lemma {:induction false} SomeMember(fps: seq<Bytes>)
    ensures fps == [] || exists fp :: fp in fps
  {
    if fps != [] { assert fps[0] in fps; }
  }

  /** The times that an action sets the clock to, if it does. */
  predicate Marks(a: Action, at: int) {
    (a.Record? && a.at == at) || (a.Flush? && a.at == at)
  }

  /** The clock that flushes are measured by shows the time of a record or flush of the run. */
  lemma {:induction false} ClockIsOfTheRun(s: State, acts: seq<Action>)
    requires Possible(s, acts)
    ensures
      var last := After(s, acts).counts.lastFlush;
      last == s.counts.lastFlush || exists a :: a in acts && Marks(a, last)
    decreases |acts|
  {
    hide Bounded, Lists, Summaries, ClassText, EventText;
    if acts != [] {
      var a := acts[0];
      var t := Apply(s, a);
      ClockIsOfTheRun(t, acts[1..]);
      ClockStep(s, a);
      assert a in acts && forall x :: x in acts[1..] ==> x in acts;
    }
  }

  lemma {:induction false} ClockStep(s: State, a: Action)
    requires Enabled(s, a)
    ensures Apply(s, a).counts.lastFlush == s.counts.lastFlush || Marks(a, Apply(s, a).counts.lastFlush)
  {
    hide Bounded, Lists, Summaries, ClassText, EventText;
  }

  // ---- Fingerprint by fingerprint ----

  /** Fingerprints are told apart as a receiver of their text can. */
  function ThrowsOf(key: Utf16): Bytes -> nat { (fp: Bytes) => if Decode(fp) == key then 1 else 0 }

  function MessagesOf(key: Utf16): string -> nat {
    (text: string) => if FingerprintOf(text) == Some(key) then OccurrencesOf(text) else 0
  }

  function EntriesOf(key: Utf16): Entry -> nat {
    (e: Entry) => if Decode(e.proto.fingerprint) == key then e.count else 0
  }

  /** Every entry holds an event of its own fingerprint. */
  ghost predicate Filed(pending: Pending) {
    forall fp :: fp in pending ==> pending[fp].proto.fingerprint == fp && pending[fp].count >= 1
  }

  ghost predicate ConservedOf(s: State, key: Utf16) {
    && Filed(s.counts.pending) && |s.spilled| == s.counts.overflow
    && Total(s.thrown, ThrowsOf(key))
       == Total(s.handed, MessagesOf(key)) + Total(s.inHand, MessagesOf(key))
          + MapTotal(s.counts.pending, EntriesOf(key)) + Total(s.spilled, ThrowsOf(key))
  }

  lemma {:induction false} StepConservesOf(s: State, a: Action, key: Utf16)
    requires ConservedOf(s, key) && Enabled(s, a)
    ensures ConservedOf(Apply(s, a), key)
  {
    hide Total, MapTotal, Filed, Recorded, Drained, EventText, ClassText, Summaries, Lists, Ready;
    hide MessagesOf, EntriesOf, ThrowsOf, Spills;
    match a
    case Record(fp, proto, at) =>
      TotalOne(s.thrown, fp, ThrowsOf(key));
      TotalOne(s.spilled, fp, ThrowsOf(key));
      RecordedOf(s.counts, fp, proto, at, key);
    case Capture(ev) =>
      CapturedOf(ev, key);
      TotalOne(s.thrown, ev.fingerprint, ThrowsOf(key));
      TotalOne(s.inHand, EventText(ev), MessagesOf(key));
    case ShipClass(site, name, data) =>
      ClassesOf(site, name, data, key);
      TotalOne(s.inHand, ClassText(site, name, data), MessagesOf(key));
    case Flush(force, at, fps) => FlushedOf(s.counts, fps, at, force, s.inHand, key);
    case Give(i) =>
      TotalWithout(s.inHand, i, MessagesOf(key));
      TotalOne(s.handed, s.inHand[i], MessagesOf(key));
  }

  lemma {:induction false} CapturedOf(ev: CapturedEvent, key: Utf16)
    requires ev.occurrences == 1
    ensures MessagesOf(key)(EventText(ev)) == ThrowsOf(key)(ev.fingerprint)
  {
    hide EventText, OccurrencesOf, FingerprintOf, Decode;
    OccurrencesRead(ev);
    FingerprintRead(ev);
  }

  lemma {:induction false} ClassesOf(site: Deployment, name: Bytes, data: Bytes, key: Utf16)
    ensures MessagesOf(key)(ClassText(site, name, data)) == 0
  {
    hide ClassText, OccurrencesOf, FingerprintOf;
    ClassesCountNothing(site, name, data);
  }

  /** A throw is filed under its own fingerprint, and under no other. */
  lemma {:induction false} RecordedOf(c: Counts, fp: Bytes, proto: CapturedEvent, at: int, key: Utf16)
    requires Filed(c.pending) && proto.fingerprint == fp
    ensures
      var r, v := Recorded(c, fp, proto, at), EntriesOf(key);
      && Filed(r.pending) && r.overflow == c.overflow + (if Spills(c.pending, fp) then 1 else 0)
      && MapTotal(r.pending, v)
         == MapTotal(c.pending, v) + if Spills(c.pending, fp) then 0 else ThrowsOf(key)(fp)
  {
    hide MapTotal, Filed, EntriesOf, ThrowsOf;
    var e := Entry(proto, (if fp in c.pending then c.pending[fp].count else 0) + 1);
    if !Spills(c.pending, fp) {
      PutFiled(c.pending, fp, e);
      PutOf(c.pending, fp, e, key);
      assert Recorded(c, fp, proto, at).pending == c.pending[fp := e];
    }
  }

  lemma {:induction false} PutFiled(pending: Pending, fp: Bytes, e: Entry)
    requires Filed(pending) && e.proto.fingerprint == fp && e.count >= 1
    ensures Filed(pending[fp := e])
  {
  }

  lemma {:induction false} PutOf(pending: Pending, fp: Bytes, e: Entry, key: Utf16)
    requires Filed(pending) && e.proto.fingerprint == fp
    requires e.count == (if fp in pending then pending[fp].count else 0) + 1
    ensures MapTotal(pending[fp := e], EntriesOf(key)) == MapTotal(pending, EntriesOf(key)) + ThrowsOf(key)(fp)
  {
    hide MapTotal, Decode;
    var v := EntriesOf(key);
    MapTotalPut(pending, fp, e, v);
    if fp in pending {
      MapTotalRemove(pending, fp, v);
      assert v(e) == v(pending[fp]) + ThrowsOf(key)(fp);
    }
  }

  lemma {:induction false} FlushedOf(
    c: Counts, fps: seq<Bytes>, at: int, force: bool, inHand: seq<string>, key: Utf16)
    requires Filed(c.pending) && Lists(fps, Ready(c, at, force))
    ensures
      var summaries, v, d := Summaries(fps, Ready(c, at, force)), EntriesOf(key), Drained(c, at, force);
      && Filed(d.pending) && d.overflow == c.overflow
      && Total(inHand + summaries, MessagesOf(key)) + MapTotal(d.pending, v)
         == Total(inHand, MessagesOf(key)) + MapTotal(c.pending, v)
  {
    hide Total, Summaries, Lists, Summary, MessagesOf, EntriesOf;
    var ready := Ready(c, at, force);
    forall fp | fp in ready ensures MessagesOf(key)(Summary(ready[fp])) == EntriesOf(key)(ready[fp]) {
      SummaryOf(ready[fp], key);
    }
    Listed(fps, ready);
    SummariesWeigh(fps, ready, MessagesOf(key), EntriesOf(key));
    TotalAppend(inHand, Summaries(fps, ready), MessagesOf(key));
  }

  lemma {:induction false} SummaryOf(e: Entry, key: Utf16)
    requires e.count >= 1
    ensures MessagesOf(key)(Summary(e)) == EntriesOf(key)(e)
  {
    hide EventText, OccurrencesOf, FingerprintOf, Decode;
    OccurrencesRead(WithCount(e));
    FingerprintRead(WithCount(e));
  }

  lemma {:induction false} RunConservesOf(s: State, acts: seq<Action>, key: Utf16)
    requires ConservedOf(s, key) && Possible(s, acts)
    ensures ConservedOf(After(s, acts), key)
    decreases |acts|
  {
    hide ConservedOf;
    if acts != [] {
      StepConservesOf(s, acts[0], key);
      RunConservesOf(Apply(s, acts[0]), acts[1..], key);
    }
  }

  /** Throws are conserved for every fingerprint by itself: no throw is ever reported, held or
      dropped under another one. */
  lemma {:induction false} FingerprintsConserved(acts: seq<Action>, key: Utf16)
    requires Possible(INIT, acts)
    ensures
      var s := After(INIT, acts);
      && |s.spilled| == s.counts.overflow
      && Total(s.thrown, ThrowsOf(key))
         == Total(s.handed, MessagesOf(key)) + Total(s.inHand, MessagesOf(key))
            + MapTotal(s.counts.pending, EntriesOf(key)) + Total(s.spilled, ThrowsOf(key))
  {
    hide MessagesOf, EntriesOf, ThrowsOf;
    assert ConservedOf(INIT, key);
    RunConservesOf(INIT, acts, key);
  }

  // ---- To the collector ----

  /** What the message of each attempt weighs. */
  function Weight(handed: seq<string>, f: string -> nat): AsyncQueue.Event -> nat {
    (e: AsyncQueue.Event) => if e < |handed| then f(handed[e]) else 0
  }

  lemma {:induction false} IdsWeigh(handed: seq<string>, n: nat, f: string -> nat)
    requires n <= |handed|
    ensures Total(QueueProtocol.Ids(n), Weight(handed, f)) == Total(handed[..n], f)
    decreases n
  {
    if n > 0 {
      IdsWeigh(handed, n - 1, f);
      var last: AsyncQueue.Event := n - 1;
      TotalOne(QueueProtocol.Ids(n - 1), last, Weight(handed, f));
      assert handed[..n] == handed[..n - 1] + [handed[n - 1]];
      TotalOne(handed[..n - 1], handed[n - 1], f);
    }
  }

  /** Whatever messages weigh, what the queue was given is delivered, in flight, queued or lost,
      weight for weight. */
  lemma {:induction false} QueueConserves(handed: seq<string>, q: QueueProtocol.State, f: string -> nat)
    requires QueueProtocol.Inv(q) && q.offered == |handed|
    ensures
      var w := Weight(handed, f);
      Total(handed, f) == Total(q.delivered, w) + Total(q.worker.InFlight(), w) + Total(q.queue, w) + Total(q.lost, w)
  {
    hide Total, Weight;
    var w := Weight(handed, f);
    var flight := q.worker.InFlight();
    assert multiset(q.Pipeline() + q.lost) == multiset(QueueProtocol.Ids(q.offered));
    TotalPermuted(q.Pipeline() + q.lost, QueueProtocol.Ids(q.offered), w);
    IdsWeigh(handed, |handed|, f);
    assert handed[..|handed|] == handed;
    TotalAppend(q.Pipeline(), q.lost, w);
    TotalAppend(q.delivered + flight, q.queue, w);
    TotalAppend(q.delivered, flight, w);
  }

  lemma {:induction false} RunSound(steps: seq<QueueProtocol.Action>)
    requires QueueProtocol.Possible(QueueProtocol.INIT, steps)
    ensures QueueProtocol.Inv(QueueProtocol.After(QueueProtocol.INIT, steps))
  {
    QueueTheorems.InitInv();
    QueueProtocol.RunKeeps(QueueProtocol.INIT, steps);
  }

  /** End to end: any run of the throwing threads together with any run of the queue that was
      offered their messages. */
  lemma {:induction false} EndToEnd(acts: seq<Action>, steps: seq<QueueProtocol.Action>)
    requires Possible(INIT, acts) && QueueProtocol.Possible(QueueProtocol.INIT, steps)
    requires QueueProtocol.After(QueueProtocol.INIT, steps).offered == |After(INIT, acts).handed|
    ensures
      var s, q := After(INIT, acts), QueueProtocol.After(QueueProtocol.INIT, steps);
      var w := Weight(s.handed, OccurrencesOf);
      |s.thrown|
      == Total(q.delivered, w) + Total(q.worker.InFlight(), w) + Total(q.queue, w) + Total(q.lost, w)
         + Total(s.inHand, OccurrencesOf) + MapTotal(s.counts.pending, CountOf) + s.counts.overflow
  {
    hide OccurrencesOf, Total, QueueProtocol.Inv, MapTotal, Weight;
    ThrowsConserved(acts);
    RunSound(steps);
    QueueConserves(After(INIT, acts).handed, QueueProtocol.After(QueueProtocol.INIT, steps), OccurrencesOf);
  }

  /** And so for every fingerprint: what the collector sums up for one is what was thrown for it,
      less what is still on the way, lost or spilled. */
  lemma {:induction false} EndToEndOf(acts: seq<Action>, steps: seq<QueueProtocol.Action>, key: Utf16)
    requires Possible(INIT, acts) && QueueProtocol.Possible(QueueProtocol.INIT, steps)
    requires QueueProtocol.After(QueueProtocol.INIT, steps).offered == |After(INIT, acts).handed|
    ensures
      var s, q := After(INIT, acts), QueueProtocol.After(QueueProtocol.INIT, steps);
      var w := Weight(s.handed, MessagesOf(key));
      Total(s.thrown, ThrowsOf(key))
      == Total(q.delivered, w) + Total(q.worker.InFlight(), w) + Total(q.queue, w) + Total(q.lost, w)
         + Total(s.inHand, MessagesOf(key)) + MapTotal(s.counts.pending, EntriesOf(key))
         + Total(s.spilled, ThrowsOf(key))
  {
    hide MessagesOf, EntriesOf, ThrowsOf, Total, QueueProtocol.Inv, MapTotal, Weight;
    FingerprintsConserved(acts, key);
    RunSound(steps);
    QueueConserves(After(INIT, acts).handed, QueueProtocol.After(QueueProtocol.INIT, steps), MessagesOf(key));
  }
}
