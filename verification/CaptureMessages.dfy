/** What a reader finds in the messages that a throw gives rise to. */
module CaptureMessages {
  import opened Wrappers
  import opened JsonText
  import JsonParser
  import opened Sampler
  import opened EventSerializer
  import opened EventReader
  import opened CountAggregator
  import opened CapturePipeline
  import SourceCache
  import Base64

  /** A captured throw's message tells everything that the runtime told, under its own name: the
      metrics with full captures only, the catch site if the throw was caught. */
  lemma {:induction false} CapturedRead(t: Throw, d: Decision, site: Deployment)
    ensures
      var w := ReadMessage(EventText(Captured(t, d, site)));
      && w.Some?
      && var h, more := w.value.header, w.value.details;
         && h.timestamp == Decode(t.timestamp) && h.fingerprint == Decode(t.fingerprint)
         && h.mode == d.mode && h.hitCount == d.hitCount && h.occurrences == 1
         && h.deploymentId == Decode(site.deploymentId) && h.environment == Decode(site.environment)
         && h.instanceId == Decode(site.instanceId)
         && h.exceptionType == Decode(t.exceptionType) && h.exceptionMessage == Decode(t.message)
         && h.caught == t.caught
         && LocationShown(more.location, t.location) && (t.caught ==> LocationShown(more.caughtAt, t.caughtAt))
         && (!t.caught ==> more.caughtAt == None) && ThreadShown(more.thread, t.thread)
         && CausesShown(more.causeChain, t.causes) && CausesShown(more.suppressed, t.suppressed)
         && (d.mode == FULL ==> more.metrics.Some? && MetricsShown(more.metrics.value, t.metrics))
         && (d.mode != FULL ==> more.metrics == None)
         && |more.stack| == |t.stack| && forall i :: 0 <= i < |t.stack| ==> FrameShown(more.stack[i], t.stack[i])
  {
    hide ReadMessage, EventText, Decode, ThreadShown, CausesShown, MetricsShown, FrameShown;
    EventRead(Captured(t, d, site));
  }

  /** A summary tells the identity of the latest throw it stands for, and how many there were. */
  lemma {:induction false} SummaryRead(t: Throw, hits: nat, site: Deployment, count: nat)
    requires count >= 1
    ensures
      var w := ReadMessage(Summary(Entry(Proto(t, hits, site), count)));
      && w.Some?
      && var h, more := w.value.header, w.value.details;
         && h.timestamp == Decode(t.timestamp) && h.fingerprint == Decode(t.fingerprint)
         && h.mode == COUNT_ONLY && h.hitCount == hits && h.occurrences == count
         && h.deploymentId == Decode(site.deploymentId) && h.environment == Decode(site.environment)
         && h.instanceId == Decode(site.instanceId)
         && h.exceptionType == Decode(t.exceptionType) && h.exceptionMessage == [] && h.caught == t.caught
         && LocationShown(more.location, t.location) && more.caughtAt == None
         && more.causeChain == [] && more.suppressed == [] && more.metrics == None && more.stack == []
  {
    hide ReadMessage, EventText, ThreadShown, MetricsShown, FrameShown, First;
    EventRead(WithCount(Entry(Proto(t, hits, site), count)));
  }

  /** A dotted class name with slashes. */
  lemma {:induction false} SlashedIs(name: Bytes)
    ensures |Slashed(name)| == |name| && '.' !in Slashed(name)
    ensures forall i :: 0 <= i < |name| ==>
      (name[i] == '.' ==> Slashed(name)[i] == '/') && (name[i] != '.' ==> Slashed(name)[i] == name[i])
  {
  }

  lemma {:induction false} ClassMarks(site: Deployment, name: Bytes, data: Bytes)
    ensures DistinctMarks(ClassMembers(site, name, data))
  {
    hide Name, Mark, Decode;
    NameMark("type", 4, 't');
    NameMark("instanceId", 10, 'i');
    NameMark("deploymentId", 12, 'd');
    NameMark("className", 9, 'c');
    NameMark("bytecodeB64", 11, 'b');
  }

  /** A class message names the class and carries its bytes, for this deployment. */
  lemma {:induction false} ClassRead(site: Deployment, name: Bytes, data: Bytes)
    ensures
      var t := JsonParser.Parse(ClassText(site, name, data));
      && t.Some? && t.value.Object?
      && var ms := t.value.members;
         && TextAt(ms, "type") == Some(Name("source_class"))
         && TextAt(ms, "instanceId") == Some(Decode(site.instanceId))
         && TextAt(ms, "deploymentId") == Some(Decode(site.deploymentId))
         && TextAt(ms, "className") == Some(Decode(name)) && TextAt(ms, "bytecodeB64") == Some(Decode(data))
  {
    hide Name, Lookup, Decode, DistinctMarks, Text, JsonParser.Parse;
    var ms := ClassMembers(site, name, data);
    JsonParser.ParseUndoesText(Object(ms));
    ClassMarks(site, name, data);
    SourceClassIs();
    FoundMember(ms, ms[0]);
    FoundMember(ms, ms[1]);
    FoundMember(ms, ms[2]);
    FoundMember(ms, ms[3]);
    FoundMember(ms, ms[4]);
  }

  lemma {:induction false} SourceClassIs()
    ensures Decode(Ascii("source_class")) == Name("source_class")
  {
  }

  /** The bytes are those that were stored for the class. */
  lemma {:induction false} ShippedBytes(c: SourceCache.Cache, name: Bytes)
    requires SourceCache.Ships(c, name)
    ensures Base64.Decode(SourceCache.Given(c, name)) == Some(c.bytes[name])
  {
    Base64.DecodeExactly(SourceCache.Given(c, name), c.bytes[name]);
  }

  /** A full capture hands over the classes of its stack, then its event; a reduced one its event
      only; a suppressed throw nothing. */
  lemma {:induction false} MessagesAre(t: Throw, d: Decision, site: Deployment, c: SourceCache.Cache)
    ensures d.mode == FULL ==>
      Messages(t, d, site, c) == ClassTexts(site, c, Shipping(t.stack, c)) + [EventText(Captured(t, d, site))]
    ensures d.mode == FULL ==> ClassesOf(t, d, c) == Shipping(t.stack, c)
    ensures d.mode == REDUCED ==> Messages(t, d, site, c) == [EventText(Captured(t, d, site))]
    ensures d.mode == COUNT_ONLY ==> Messages(t, d, site, c) == []
    ensures d.mode != FULL ==> ClassesOf(t, d, c) == []
  {
    hide EventText, Captured;
  }
}
