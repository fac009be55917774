/** The exception callback, from the sampler's decision to the messages it hands to the queue. */
module CapturePipeline {
  import opened Wrappers
  import opened JsonText
  import opened Sums
  import opened JsonWriter
  import opened Sampler
  import opened EventSerializer
  import opened CountAggregator
  import JsonParser
  import SourceCache

  /** What the runtime tells about one throw, and the times read while it is handled. */
  datatype Throw = Throw(
    fingerprint: Bytes, timestamp: Bytes, exceptionType: Bytes, message: Bytes, caught: bool,
    location: Location, caughtAt: Location, thread: ThreadDetails, causes: seq<CauseInfo>,
    suppressed: seq<CauseInfo>, metrics: JvmMetrics, stack: seq<StackFrame>,
    sampledAt: int, recordedAt: int, flushedAt: int)

  datatype Deployment = Deployment(deploymentId: Bytes, environment: Bytes, instanceId: Bytes)

  const NO_LOCATION := Location([], [], -1, [], false)
  const NO_THREAD := ThreadDetails([], -1, false)
  const NO_METRICS := JvmMetrics(-1, -1, -1, -1, -1, -1, -1)

  /** A suppressed throw keeps its identity only. */
  function Proto(t: Throw, hits: nat, site: Deployment): CapturedEvent {
    CapturedEvent(
      t.fingerprint, COUNT_ONLY, hits, 1, t.timestamp, site.deploymentId, site.environment, site.instanceId,
      t.exceptionType, [], t.caught, t.location, NO_LOCATION, NO_THREAD, [], [], NO_METRICS, false, [])
  }

  function Captured(t: Throw, d: Decision, site: Deployment): CapturedEvent {
    CapturedEvent(
      t.fingerprint, d.mode, d.hitCount, 1, t.timestamp, site.deploymentId, site.environment, site.instanceId,
      t.exceptionType, t.message, t.caught, t.location, if t.caught then t.caughtAt else NO_LOCATION, t.thread,
      t.causes, t.suppressed, if d.mode.FULL? then t.metrics else NO_METRICS, d.mode.FULL?, t.stack)
  }

  function ClassMembers(site: Deployment, name: Bytes, data: Bytes): seq<Member> {
    [Str("type", Ascii("source_class")), Str("instanceId", site.instanceId),
     Str("deploymentId", site.deploymentId), Str("className", name), Str("bytecodeB64", data)]
  }

  function ClassText(site: Deployment, name: Bytes, data: Bytes): string {
    Text(Object(ClassMembers(site, name, data)))
  }

  method WriteClass(site: Deployment, name: Bytes, data: Bytes) returns (text: string)
    ensures text == ClassText(site, name, data)
  {
    hide Decode, Ascii, Text, ClassMembers;
    var w := new Writer();
    w.BeginObject();
    WriteClassFields(w, site, name, data);
    w.EndObject();
    text := w.out;
  }

  method WriteClassFields(w: Writer, site: Deployment, name: Bytes, data: Bytes)
    requires w.Valid() && w.at.InObject? && w.at.members == []
    modifies w
    ensures w.Valid() && w.at == InObject(old(w.at).outer, ClassMembers(site, name, data))
  {
    hide Decode, Ascii, Text, Rendered, Writer.Valid, Writer.View;
    w.FieldChars(Ascii("type"), Some(Ascii("source_class")));
    w.FieldString(Ascii("instanceId"), site.instanceId);
    w.FieldString(Ascii("deploymentId"), site.deploymentId);
    w.FieldString(Ascii("className"), name);
    w.FieldString(Ascii("bytecodeB64"), data);
    assert w.at.members == ClassMembers(site, name, data);
  }

  lemma {:induction false} ClassNames(site: Deployment, name: Bytes, data: Bytes)
    ensures forall m :: m in ClassMembers(site, name, data) ==> m.key != Name("occurrences")
  {
    hide Name, Decode;
    var t := "occurrences";
    OtherName("type", t);
    OtherName("instanceId", t);
    OtherName("deploymentId", t);
    OtherName("className", t);
    OtherName("bytecodeB64", t);
  }

  /** A class message stands for no throw. */
  lemma {:induction false} ClassesCountNothing(site: Deployment, name: Bytes, data: Bytes)
    ensures OccurrencesOf(ClassText(site, name, data)) == 0
  {
    hide Name, ClassMembers, Text, JsonParser.Parse;
    var members := ClassMembers(site, name, data);
    JsonParser.ParseUndoesText(Object(members));
    ClassNames(site, name, data);
    LookupBefore([], members, Name("occurrences"));
    assert [] + members == members;
  }

  function Slashed(name: Bytes): Bytes {
    seq(|name|, i requires 0 <= i < |name| => if name[i] == '.' then '/' else name[i])
  }

  // Which classes a stack ships.

  predicate Wanted(f: StackFrame, c: SourceCache.Cache) {
    f.appCode && f.className != [] && SourceCache.Ships(c, Slashed(f.className))
  }

  /** The application classes of a stack that are cached and not shipped yet, each once, in the
      order of their first frames. */
  function Shipping(stack: seq<StackFrame>, c: SourceCache.Cache): (names: seq<Bytes>)
    ensures forall name :: name in names ==> SourceCache.Ships(c, name)
  {
    if stack == [] then []
    else
      var f := stack[|stack| - 1];
      var before := Shipping(stack[..|stack| - 1], c);
      if Wanted(f, c) && Slashed(f.className) !in before then before + [Slashed(f.className)] else before
  }

  function ClassTexts(site: Deployment, c: SourceCache.Cache, names: seq<Bytes>): seq<string> {
    seq(|names|, i requires 0 <= i < |names| => ClassText(site, names[i], SourceCache.Given(c, names[i])))
  }

  /** The cache once these classes have been given out. */
  function AllTaken(c: SourceCache.Cache, names: seq<Bytes>): SourceCache.Cache {
    if names == [] then c
    else SourceCache.Taken(AllTaken(c, names[..|names| - 1]), names[|names| - 1])
  }

  /** An application frame is in this class. */
  ghost predicate FrameIn(stack: seq<StackFrame>, name: Bytes) {
    exists i :: 0 <= i < |stack| && stack[i].appCode && stack[i].className != [] && Slashed(stack[i].className) == name
  }

  /** A class is shipped exactly when some application frame is in it, it is cached and it was not
      shipped before; and then once. */
  lemma {:induction false} ShippingIs(stack: seq<StackFrame>, c: SourceCache.Cache, name: Bytes)
    ensures
      name in Shipping(stack, c)
      <==> FrameIn(stack, name) && name in c.bytes && !(name in c.shipped && c.shipped[name])
    ensures multiset(Shipping(stack, c))[name] <= 1
    decreases |stack|
  {
    hide Slashed, FrameIn;
    if stack == [] {
      NoFrame(stack, c, name);
    } else {
      var n := |stack| - 1;
      ShippingIs(stack[..n], c, name);
      LastFrame(stack, n, name);
      OneMoreName(Shipping(stack[..n], c), Slashed(stack[n].className), name);
    }
  }

  lemma {:induction false} NoFrame(stack: seq<StackFrame>, c: SourceCache.Cache, name: Bytes)
    requires stack == []
    ensures !FrameIn(stack, name) && multiset(Shipping(stack, c))[name] == 0
  {
  }

  lemma {:induction false} LastFrame(stack: seq<StackFrame>, n: nat, name: Bytes)
    requires |stack| == n + 1
    ensures
      FrameIn(stack, name)
      <==> FrameIn(stack[..n], name)
           || (stack[n].appCode && stack[n].className != [] && Slashed(stack[n].className) == name)
  {
    hide Slashed;
    assert forall i :: 0 <= i < n ==> stack[..n][i] == stack[i];
  }

  lemma {:induction false} OneMoreName(names: seq<Bytes>, slash: Bytes, name: Bytes)
    ensures name in names + [slash] <==> name in names || name == slash
    ensures multiset(names + [slash])[name] == multiset(names)[name] + if name == slash then 1 else 0
    ensures name !in names ==> multiset(names)[name] == 0
  {
    assert multiset(names + [slash]) == multiset(names) + multiset([slash]);
  }

  lemma {:induction false} AllTakenIs(c: SourceCache.Cache, names: seq<Bytes>, name: Bytes)
    requires forall x :: x in names ==> x in c.bytes
    ensures AllTaken(c, names).bytes == c.bytes && AllTaken(c, names).total == c.total
    ensures SourceCache.Shipped(AllTaken(c, names), name) <==> SourceCache.Shipped(c, name) || name in names
    decreases |names|
  {
    if names != [] {
      var n := |names| - 1;
      assert names == names[..n] + [names[n]];
      AllTakenIs(c, names[..n], name);
      AllTakenIs(c, names[..n], names[n]);
    }
  }

  /** Giving out one class more. */
  lemma {:induction false} NextClass(site: Deployment, c: SourceCache.Cache, stack: seq<StackFrame>, i: nat)
    requires i < |stack| && SourceCache.Balanced(c)
    ensures
      var names, next := Shipping(stack[..i], c), Shipping(stack[..i + 1], c);
      var v, f := AllTaken(c, names), stack[i];
      var name := Slashed(f.className);
      if !f.appCode || f.className == [] then next == names
      else
        && AllTaken(c, next) == SourceCache.Taken(v, name)
        && (SourceCache.Given(v, name) == [] ==> next == names)
        && (SourceCache.Given(v, name) != [] ==>
              ClassTexts(site, c, next)
              == ClassTexts(site, c, names) + [ClassText(site, name, SourceCache.Given(v, name))])
  {
    hide ClassText, Slashed, SourceCache.Balanced;
    var names, f := Shipping(stack[..i], c), stack[i];
    var name := Slashed(f.className);
    assert stack[..i + 1][..i] == stack[..i];
    AllTakenIs(c, names, name);
    if SourceCache.Ships(AllTaken(c, names), name) {
      assert (names + [name])[..|names|] == names;
      SourceCache.GivesSome(c, name);
    }
  }

  class Agent {
    const sampler: AdaptiveSampler
    const aggregator: CountAggregator
    const cache: SourceCache.SourceCache
    const site: Deployment
    const hasQueue: bool
    /** Every message given to the queue's enqueue, in order. */
    var handed: seq<string>

    ghost predicate Valid()
      reads this, sampler, sampler.stripes, aggregator, cache
    {
      sampler.Valid() && Bounded(aggregator.pending) && SourceCache.Balanced(cache.View())
    }

    /** The throws that the handed messages, the pending counts and the overflow stand for. */
    ghost function Carried(): nat
      reads this, aggregator
    {
      Total(handed, OccurrencesOf) + Held(aggregator.View())
    }

    constructor (maxEntries: nat, hash: Fingerprint -> nat, site: Deployment, hasQueue: bool)
      ensures Valid() && handed == [] && Carried() == 0
    {
      hide OccurrencesOf;
      sampler := new AdaptiveSampler(maxEntries, hash);
      aggregator := new CountAggregator();
      cache := new SourceCache.SourceCache();
      this.site := site;
      this.hasQueue := hasQueue;
      handed := [];
    }

    /** fps is the order in which the entries were taken. */
    method FlushPendingCounts(force: bool, now: int) returns (ghost fps: seq<Bytes>)
      requires Bounded(aggregator.pending)
      modifies this`handed, aggregator
      ensures Bounded(aggregator.pending)
      ensures !hasQueue ==> handed == old(handed) && aggregator.View() == old(aggregator.View())
      ensures hasQueue ==>
        && aggregator.View() == Drained(old(aggregator.View()), now, force)
        && Lists(fps, Ready(old(aggregator.View()), now, force))
        && handed == old(handed) + Summaries(fps, Ready(old(aggregator.View()), now, force))
      ensures Carried() == old(Carried())
    {
      hide OccurrencesOf, Total, Summaries, Held, Bounded, Lists, Ready, Drained;
      fps := [];
      if !hasQueue { return; }
      ghost var before := aggregator.View();
      var summaries;
      summaries, fps := aggregator.Drain([], force, now);
      FlushCounts(before, fps, now, force, handed);
      Listed(fps, Ready(before, now, force));
      assert summaries == Summaries(fps, Ready(before, now, force));
      var i := 0;
      while i < |summaries|
        invariant 0 <= i <= |summaries| && handed == old(handed) + summaries[..i]
        modifies this`handed
      {
        handed := handed + [summaries[i]];
        i := i + 1;
      }
      assert handed == old(handed) + summaries;
    }

    /** Ships the classes of a stack that were not shipped before. */
    method ShipClasses(stack: seq<StackFrame>)
      requires SourceCache.Balanced(cache.View())
      modifies this`handed, cache
      ensures SourceCache.Balanced(cache.View())
      ensures handed == old(handed) + ClassTexts(site, old(cache.View()), Shipping(stack, old(cache.View())))
      ensures cache.View() == AllTaken(old(cache.View()), Shipping(stack, old(cache.View())))
      ensures Total(handed, OccurrencesOf) == old(Total(handed, OccurrencesOf))
    {
      hide OccurrencesOf, Total, ClassText, ClassTexts, Shipping, AllTaken, SourceCache.Balanced;
      ghost var c := cache.View();
      NoClasses(site, c, stack[..0]);
      for i := 0 to |stack|
        invariant SourceCache.Balanced(cache.View()) && cache.View() == AllTaken(c, Shipping(stack[..i], c))
        invariant handed == old(handed) + ClassTexts(site, c, Shipping(stack[..i], c))
        invariant Total(handed, OccurrencesOf) == old(Total(handed, OccurrencesOf))
      {
        NextClass(site, c, stack, i);
        if !stack[i].appCode || stack[i].className == [] { continue; }
        var slash := Slashed(stack[i].className);
        var data := cache.TakeUnshipped(slash);
        if data == [] { continue; }
        var text := WriteClass(site, slash, data);
        ClassesCountNothing(site, slash, data);
        TotalOne(handed, text, OccurrencesOf);
        handed := handed + [text];
      }
      assert stack[..|stack|] == stack;
    }

    /** One sampled throw.  It is carried by one message, or counted; without a queue only
        suppressed throws are.  What is handed over is the classes of a full capture, then the
        captured event, then what a flush that is due takes. */
    method ExceptionCallback(t: Throw) returns (d: Decision, ghost fps: seq<Bytes>)
      requires Valid()
      modifies this`handed, sampler.stripes, aggregator, cache
      ensures Valid()
      ensures Carried() == old(Carried()) + if hasQueue || d.mode == COUNT_ONLY then 1 else 0
      ensures
        var i := sampler.StripeFor(t.fingerprint);
        d == Verdict(old(sampler.stripes[i].View()), sampler.perStripeMax, t.fingerprint, t.sampledAt)
      ensures
        var counts := AfterThrow(old(aggregator.View()), t, d, site);
        aggregator.View() == if hasQueue then Drained(counts, t.flushedAt, false) else counts
      ensures hasQueue ==>
        && (old(aggregator.lastFlushMs) != 0 && t.flushedAt - old(aggregator.lastFlushMs) >= 5000 ==>
              aggregator.pending == map[] && aggregator.lastFlushMs == t.flushedAt)
        && (aggregator.pending != map[] ==>
              aggregator.lastFlushMs != 0 && t.flushedAt - aggregator.lastFlushMs < 5000)
      ensures !hasQueue ==> handed == old(handed) && cache.View() == old(cache.View())
      ensures hasQueue ==>
        && Lists(fps, ReadyAfter(old(aggregator.View()), t, d, site))
        && handed == old(handed) + Messages(t, d, site, old(cache.View()))
                     + Summaries(fps, ReadyAfter(old(aggregator.View()), t, d, site))
        && cache.View() == AllTaken(old(cache.View()), ClassesOf(t, d, old(cache.View())))
    {
      hide OccurrencesOf, Total, EventText, Held, Bounded, Drained, SourceCache.Balanced, Summaries, Lists, Ready;
      hide Decided, Verdict, Consistent, AllTaken, Messages, ClassesOf, AfterThrow;
      d := sampler.Decide(t.fingerprint, t.sampledAt);
      Handle(t, d);
      FlushTimes(aggregator.View(), t.flushedAt, false);
      ClockKept(old(aggregator.View()), t, d, site);
      fps := FlushPendingCounts(false, t.flushedAt);
    }

    /** What the decision asks for: the throw is counted, or handed over if there is a queue. */
    method Handle(t: Throw, d: Decision)
      requires Bounded(aggregator.pending) && SourceCache.Balanced(cache.View())
      modifies this`handed, aggregator, cache
      ensures Bounded(aggregator.pending) && SourceCache.Balanced(cache.View())
      ensures aggregator.View() == AfterThrow(old(aggregator.View()), t, d, site)
      ensures Carried() == old(Carried()) + if hasQueue || d.mode == COUNT_ONLY then 1 else 0
      ensures !hasQueue ==> handed == old(handed) && cache.View() == old(cache.View())
      ensures hasQueue ==>
        && handed == old(handed) + Messages(t, d, site, old(cache.View()))
        && cache.View() == AllTaken(old(cache.View()), ClassesOf(t, d, old(cache.View())))
    {
      hide OccurrencesOf, Total, Held, Bounded, Recorded, SourceCache.Balanced, Proto, AllTaken, Messages, ClassesOf;
      NothingHanded(t, site, cache.View());
      if d.mode == COUNT_ONLY {
        aggregator.Record(t.fingerprint, Proto(t, d.hitCount, site), t.recordedAt);
      } else if hasQueue {
        HandOver(t, d);
      }
    }

    /** The classes of a full capture, then the captured event. */
    method HandOver(t: Throw, d: Decision)
      requires SourceCache.Balanced(cache.View()) && d.mode != COUNT_ONLY
      modifies this`handed, cache
      ensures SourceCache.Balanced(cache.View())
      ensures handed == old(handed) + Messages(t, d, site, old(cache.View()))
      ensures cache.View() == AllTaken(old(cache.View()), ClassesOf(t, d, old(cache.View())))
      ensures Total(handed, OccurrencesOf) == old(Total(handed, OccurrencesOf)) + 1
    {
      hide OccurrencesOf, Total, EventText, SourceCache.Balanced, Shipping, AllTaken, ClassTexts;
      NothingTaken(site, cache.View());
      var ev := Captured(t, d, site);
      if d.mode == FULL { ShipClasses(t.stack); }
      var text := SerializeEvent(ev);
      OccurrencesRead(ev);
      TotalOne(handed, text, OccurrencesOf);
      handed := handed + [text];
    }
  }

  /** The counts before the flush. */
  function AfterThrow(c: Counts, t: Throw, d: Decision, site: Deployment): Counts {
    if d.mode == COUNT_ONLY then Recorded(c, t.fingerprint, Proto(t, d.hitCount, site), t.recordedAt) else c
  }

  lemma {:induction false} ClockKept(c: Counts, t: Throw, d: Decision, site: Deployment)
    ensures c.lastFlush != 0 ==> AfterThrow(c, t, d, site).lastFlush == c.lastFlush
  {
  }

  /** What the flush takes. */
  function ReadyAfter(c: Counts, t: Throw, d: Decision, site: Deployment): Pending {
    Ready(AfterThrow(c, t, d, site), t.flushedAt, false)
  }

  /** The classes that a throw ships. */
  function ClassesOf(t: Throw, d: Decision, c: SourceCache.Cache): (names: seq<Bytes>)
    ensures forall name :: name in names ==> SourceCache.Ships(c, name)
  {
    if d.mode == FULL then Shipping(t.stack, c) else []
  }

  /** What a throw hands over before the flush. */
  function Messages(t: Throw, d: Decision, site: Deployment, c: SourceCache.Cache): seq<string> {
    ClassTexts(site, c, ClassesOf(t, d, c)) + if d.mode == COUNT_ONLY then [] else [EventText(Captured(t, d, site))]
  }

  lemma {:induction false} NoClasses(site: Deployment, c: SourceCache.Cache, stack: seq<StackFrame>)
    requires stack == []
    ensures Shipping(stack, c) == [] && AllTaken(c, Shipping(stack, c)) == c
    ensures ClassTexts(site, c, Shipping(stack, c)) == []
  {
  }

  lemma {:induction false} NothingHanded(t: Throw, site: Deployment, c: SourceCache.Cache)
    ensures forall d: Decision :: d.mode == COUNT_ONLY ==> Messages(t, d, site, c) == [] && ClassesOf(t, d, c) == []
    ensures AllTaken(c, []) == c
  {
  }

  lemma {:induction false} NothingTaken(site: Deployment, c: SourceCache.Cache)
    ensures AllTaken(c, []) == c && ClassTexts(site, c, []) == []
  {
  }

  lemma {:induction false} FlushCounts(c: Counts, fps: seq<Bytes>, t: int, force: bool, handed: seq<string>)
    requires Bounded(c.pending) && Lists(fps, Ready(c, t, force))
    ensures
      var summaries := Summaries(fps, Ready(c, t, force));
      Total(handed + summaries, OccurrencesOf) + Held(Drained(c, t, force)) == Total(handed, OccurrencesOf) + Held(c)
  {
    hide OccurrencesOf, Summaries, Summary, Total;
    var ready := Ready(c, t, force);
    TotalAppend(handed, Summaries(fps, ready), OccurrencesOf);
    SummariesCount(fps, ready);
  }
}
