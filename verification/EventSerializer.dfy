/** The captured event and its wire form. */
module EventSerializer {
  import opened Wrappers
  import opened JsonText
  import opened JsonString
  import opened JsonWriter
  import JsonParser
  import opened Sampler

  datatype LocalVariable = LocalVariable(
    name: Bytes, signature: Bytes, slot: int, kind: Bytes, value: Bytes, source: Bytes)

  datatype StackFrame = StackFrame(
    frameIndex: int, className: Bytes, methodName: Bytes, lineNumber: int, sourceFile: Bytes,
    appCode: bool, locals: seq<LocalVariable>)

  datatype Location = Location(
    className: Bytes, methodName: Bytes, lineNumber: int, sourceFile: Bytes, valid: bool)

  datatype CauseInfo = CauseInfo(exceptionType: Bytes, exceptionMessage: Bytes)

  datatype ThreadDetails = ThreadDetails(name: Bytes, priority: int, isDaemon: bool)

  datatype JvmMetrics = JvmMetrics(
    heapUsedBytes: int, heapMaxBytes: int, gcCollectionCount: int, gcTimeMs: int,
    threadCount: int, loadedClassCount: int, uptimeMs: int)

  datatype CapturedEvent = CapturedEvent(
    fingerprint: Bytes, mode: CaptureMode, hitCount: nat, occurrences: nat, timestamp: Bytes,
    deploymentId: Bytes, environment: Bytes, instanceId: Bytes,
    exceptionType: Bytes, exceptionMessage: Bytes, caught: bool,
    location: Location, caughtAt: Location, thread: ThreadDetails,
    causeChain: seq<CauseInfo>, suppressed: seq<CauseInfo>,
    metrics: JvmMetrics, metricsValid: bool, stack: seq<StackFrame>)

  // The tree of an event.

  /** The bytes of a literal. */
  function Ascii(s: string): Bytes {
    seq(|s|, i requires 0 <= i < |s| => if s[i] as int < 0x80 then s[i] else '?')
  }

  function Name(s: string): Utf16 { Decode(Ascii(s)) }

  function Str(name: string, v: Bytes): Member { Member(Name(name), String(Decode(v))) }
  function Int(name: string, v: int): Member { Member(Name(name), Number(v, 0)) }
  function Flag(name: string, v: bool): Member { Member(Name(name), Bool(v)) }
  function Node(name: string, t: Json): Member { Member(Name(name), t) }

  /** A line that is not known is null. */
  function Line(n: int): Member { Node("lineNumber", if n >= 0 then Number(n, 0) else Null) }

  /** A text that is left out when empty. */
  function Unless(name: string, v: Bytes): seq<Member> { if v == [] then [] else [Str(name, v)] }

  function LocationTree(loc: Location): Json {
    if !loc.valid then Null
    else Object(LocationMembers(loc))
  }

  function LocationMembers(loc: Location): seq<Member> {
    [Str("className", loc.className), Str("methodName", loc.methodName),
     Line(loc.lineNumber), Str("sourceFile", loc.sourceFile)]
  }

  function CauseMembers(c: CauseInfo): seq<Member> {
    [Str("exceptionType", c.exceptionType), Str("exceptionMessage", c.exceptionMessage)]
  }

  function CauseTrees(causes: seq<CauseInfo>): seq<Json> {
    seq(|causes|, i requires 0 <= i < |causes| => Object(CauseMembers(causes[i])))
  }

  function MetricsMembers(m: JvmMetrics): seq<Member> {
    [Int("heapUsedBytes", m.heapUsedBytes), Int("heapMaxBytes", m.heapMaxBytes),
     Int("gcCollectionCount", m.gcCollectionCount), Int("gcTimeMs", m.gcTimeMs),
     Int("threadCount", m.threadCount), Int("loadedClassCount", m.loadedClassCount),
     Int("uptimeMs", m.uptimeMs)]
  }

  function LocalMembers(lv: LocalVariable): seq<Member> {
    Unless("name", lv.name) + Unless("signature", lv.signature) + [Int("slot", lv.slot)]
    + Unless("type", lv.kind) + [Str("value", lv.value), Str("source", lv.source)]
  }

  function LocalTrees(locals: seq<LocalVariable>): seq<Json> {
    seq(|locals|, i requires 0 <= i < |locals| => Object(LocalMembers(locals[i])))
  }

  function FrameMembers(f: StackFrame): seq<Member> {
    [Int("frameIndex", f.frameIndex), Str("className", f.className), Str("methodName", f.methodName),
     Line(f.lineNumber), Str("sourceFile", f.sourceFile), Flag("isAppCode", f.appCode),
     Node("localVariables", Array(LocalTrees(f.locals)))]
  }

  function FrameTrees(stack: seq<StackFrame>): seq<Json> {
    seq(|stack|, i requires 0 <= i < |stack| => Object(FrameMembers(stack[i])))
  }

  function ModeName(mode: CaptureMode): Bytes {
    Ascii(match mode case FULL => "FULL" case REDUCED => "REDUCED" case COUNT_ONLY => "COUNT_ONLY")
  }

  function BeforeCount(ev: CapturedEvent): seq<Member> {
    [Str("timestamp", ev.timestamp), Str("fingerprint", ev.fingerprint),
     Str("captureMode", ModeName(ev.mode)), Int("hitCount", ev.hitCount)]
  }

  function Count(ev: CapturedEvent): Member {
    Int("occurrences", if ev.occurrences != 0 then ev.occurrences else 1)
  }

  function Origin(ev: CapturedEvent): seq<Member> {
    [Str("deploymentId", ev.deploymentId), Str("environment", ev.environment),
     Str("instanceId", ev.instanceId), Str("exceptionType", ev.exceptionType),
     Str("exceptionMessage", ev.exceptionMessage), Flag("caught", ev.caught)]
  }

  function ThreadMembers(t: ThreadDetails): seq<Member> {
    [Str("name", t.name), Int("priority", t.priority), Flag("isDaemon", t.isDaemon)]
  }

  function Details(ev: CapturedEvent): seq<Member> {
    [Node("location", LocationTree(ev.location)), Node("caughtAt", LocationTree(ev.caughtAt)),
     Node("threadInfo", Object(ThreadMembers(ev.thread))),
     Node("causeChain", Array(CauseTrees(ev.causeChain))),
     Node("suppressedExceptions", Array(CauseTrees(ev.suppressed))),
     Node("jvmMetrics", if ev.metricsValid then Object(MetricsMembers(ev.metrics)) else Null),
     Node("stackTrace", Array(FrameTrees(ev.stack)))]
  }

  function EventTree(ev: CapturedEvent): Json {
    Object(BeforeCount(ev) + [Count(ev)] + Origin(ev) + Details(ev))
  }

  function EventText(ev: CapturedEvent): string {
    Text(EventTree(ev))
  }

  // The writing of an event.

  /** A line number, or null when it is not known. */
  method WriteLine(w: Writer, n: int)
    requires w.Valid() && w.at.InObject?
    modifies w
    ensures w.Valid() && w.at == InObject(old(w.at).outer, old(w.at).members + [Line(n)])
  {
    hide Decode, Rendered, Ascii, Writer.Valid, Writer.View;
    if n >= 0 { w.FieldInt(Ascii("lineNumber"), n); } else { w.FieldNull(Ascii("lineNumber")); }
  }

  method WriteLocation(w: Writer, k: Bytes, loc: Location)
    requires w.Valid()
    modifies w
    ensures w.Valid() && w.at == WithMember(old(w.at), Member(Decode(k), LocationTree(loc)))
  {
    hide Decode, Rendered, Ascii, Writer.Valid, Writer.View;
    w.Key(k);
    if !loc.valid {
      w.ValueNull();
      return;
    }
    w.BeginObject();
    w.FieldString(Ascii("className"), loc.className);
    w.FieldString(Ascii("methodName"), loc.methodName);
    WriteLine(w, loc.lineNumber);
    w.FieldString(Ascii("sourceFile"), loc.sourceFile);
    assert w.at.members == LocationMembers(loc);
    w.EndObject();
  }

  method WriteCauses(w: Writer, k: Bytes, causes: seq<CauseInfo>)
    requires w.Valid()
    modifies w
    ensures w.Valid() && w.at == WithMember(old(w.at), Member(Decode(k), Array(CauseTrees(causes))))
  {
    hide Decode, Rendered, Ascii, Writer.Valid, Writer.View;
    w.Key(k);
    w.BeginArray();
    ghost var outer := AfterKey(old(w.at), Decode(k));
    for i := 0 to |causes|
      invariant w.Valid() && w.at == InArray(outer, CauseTrees(causes[..i]))
    {
      w.BeginObject();
      w.FieldString(Ascii("exceptionType"), causes[i].exceptionType);
      w.FieldString(Ascii("exceptionMessage"), causes[i].exceptionMessage);
      assert w.at.members == CauseMembers(causes[i]);
      w.EndObject();
      assert CauseTrees(causes[..i]) + [Object(CauseMembers(causes[i]))] == CauseTrees(causes[..i + 1]);
    }
    assert causes[..|causes|] == causes;
    w.EndArray();
  }

  /** The first four metrics, in an object just begun. */
  method WriteMemory(w: Writer, m: JvmMetrics)
    requires w.Valid() && w.at.InObject? && w.at.members == []
    modifies w
    ensures w.Valid() && w.at == InObject(old(w.at).outer, MetricsMembers(m)[..4])
  {
    hide Decode, Rendered, Ascii, Writer.Valid, Writer.View;
    w.FieldInt(Ascii("heapUsedBytes"), m.heapUsedBytes);
    w.FieldInt(Ascii("heapMaxBytes"), m.heapMaxBytes);
    w.FieldInt(Ascii("gcCollectionCount"), m.gcCollectionCount);
    w.FieldInt(Ascii("gcTimeMs"), m.gcTimeMs);
    assert w.at.members == MetricsMembers(m)[..4];
  }

  method WriteMetrics(w: Writer, m: JvmMetrics)
    requires w.Valid()
    modifies w
    ensures w.Valid() && w.at == WithMember(old(w.at), Member(Name("jvmMetrics"), Object(MetricsMembers(m))))
  {
    hide Decode, Rendered, Ascii, Writer.Valid, Writer.View;
    w.Key(Ascii("jvmMetrics"));
    w.BeginObject();
    WriteMemory(w, m);
    ghost var all := MetricsMembers(m);
    w.FieldInt(Ascii("threadCount"), m.threadCount);
    w.FieldInt(Ascii("loadedClassCount"), m.loadedClassCount);
    w.FieldInt(Ascii("uptimeMs"), m.uptimeMs);
    assert all[..4] + [all[4]] + [all[5]] + [all[6]] == all;
    w.EndObject();
  }

  /** A field that is left out when empty. */
  method WriteUnless(w: Writer, name: string, v: Bytes)
    requires w.Valid() && w.at.InObject?
    modifies w
    ensures w.Valid() && w.at == InObject(old(w.at).outer, old(w.at).members + Unless(name, v))
  {
    hide Decode, Rendered, Ascii, Writer.Valid, Writer.View;
    if v != [] { w.FieldString(Ascii(name), v); }
  }

  method WriteLocal(w: Writer, lv: LocalVariable)
    requires w.Valid()
    modifies w
    ensures w.Valid() && w.at == Placed(old(w.at), Object(LocalMembers(lv)))
  {
    hide Decode, Rendered, Ascii, Unless, Writer.Valid, Writer.View;
    w.BeginObject();
    WriteUnless(w, "name", lv.name);
    WriteUnless(w, "signature", lv.signature);
    assert w.at.members == Unless("name", lv.name) + Unless("signature", lv.signature);
    w.FieldInt(Ascii("slot"), lv.slot);
    WriteUnless(w, "type", lv.kind);
    w.FieldString(Ascii("value"), lv.value);
    w.FieldString(Ascii("source"), lv.source);
    assert w.at.members == LocalMembers(lv);
    w.EndObject();
  }

  method WriteLocals(w: Writer, locals: seq<LocalVariable>)
    requires w.Valid()
    modifies w
    ensures w.Valid() && w.at == WithMember(old(w.at), Node("localVariables", Array(LocalTrees(locals))))
  {
    hide Decode, Rendered, Ascii, Writer.Valid, Writer.View;
    w.Key(Ascii("localVariables"));
    ghost var outer := w.at;
    w.BeginArray();
    for i := 0 to |locals|
      invariant w.Valid() && w.at == InArray(outer, LocalTrees(locals[..i]))
    {
      WriteLocal(w, locals[i]);
      assert LocalTrees(locals[..i]) + [Object(LocalMembers(locals[i]))] == LocalTrees(locals[..i + 1]);
    }
    assert locals[..|locals|] == locals;
    w.EndArray();
  }

  method WriteFrame(w: Writer, f: StackFrame)
    requires w.Valid()
    modifies w
    ensures w.Valid() && w.at == Placed(old(w.at), Object(FrameMembers(f)))
  {
    hide Decode, Rendered, Ascii, LocalTrees, Line, Writer.Valid, Writer.View;
    w.BeginObject();
    w.FieldInt(Ascii("frameIndex"), f.frameIndex);
    w.FieldString(Ascii("className"), f.className);
    w.FieldString(Ascii("methodName"), f.methodName);
    ghost var all := FrameMembers(f);
    assert w.at.members == all[..3];
    WriteLine(w, f.lineNumber);
    assert w.at.members == all[..4];
    w.FieldString(Ascii("sourceFile"), f.sourceFile);
    w.FieldBool(Ascii("isAppCode"), f.appCode);
    WriteLocals(w, f.locals);
    assert all[..4] + [all[4]] + [all[5]] + [all[6]] == all;
    w.EndObject();
  }

  method WriteThread(w: Writer, t: ThreadDetails)
    requires w.Valid()
    modifies w
    ensures w.Valid() && w.at == WithMember(old(w.at), Node("threadInfo", Object(ThreadMembers(t))))
  {
    hide Decode, Rendered, Ascii, Writer.Valid, Writer.View;
    w.Key(Ascii("threadInfo"));
    w.BeginObject();
    w.FieldString(Ascii("name"), t.name);
    w.FieldInt(Ascii("priority"), t.priority);
    w.FieldBool(Ascii("isDaemon"), t.isDaemon);
    assert w.at.members == ThreadMembers(t);
    w.EndObject();
  }

  method WriteStack(w: Writer, stack: seq<StackFrame>)
    requires w.Valid()
    modifies w
    ensures w.Valid() && w.at == WithMember(old(w.at), Node("stackTrace", Array(FrameTrees(stack))))
  {
    hide Decode, Rendered, Ascii, Writer.Valid, Writer.View;
    w.Key(Ascii("stackTrace"));
    ghost var outer := w.at;
    w.BeginArray();
    for i := 0 to |stack|
      invariant w.Valid() && w.at == InArray(outer, FrameTrees(stack[..i]))
    {
      WriteFrame(w, stack[i]);
      assert FrameTrees(stack[..i]) + [Object(FrameMembers(stack[i]))] == FrameTrees(stack[..i + 1]);
    }
    assert stack[..|stack|] == stack;
    w.EndArray();
  }

  /** The flat fields of an event, in an object just begun. */
  method WriteFields(w: Writer, ev: CapturedEvent)
    requires w.Valid() && w.at.InObject? && w.at.members == []
    modifies w
    ensures w.Valid() && w.at == InObject(old(w.at).outer, BeforeCount(ev) + [Count(ev)] + Origin(ev))
  {
    hide Decode, Rendered, Ascii, Writer.Valid, Writer.View;
    w.FieldString(Ascii("timestamp"), ev.timestamp);
    w.FieldString(Ascii("fingerprint"), ev.fingerprint);
    w.FieldChars(Ascii("captureMode"), Some(ModeName(ev.mode)));
    w.FieldInt(Ascii("hitCount"), ev.hitCount);
    assert w.at.members == BeforeCount(ev);
    w.FieldInt(Ascii("occurrences"), if ev.occurrences != 0 then ev.occurrences else 1);
    WriteOrigin(w, ev);
  }

  method WriteOrigin(w: Writer, ev: CapturedEvent)
    requires w.Valid() && w.at.InObject?
    modifies w
    ensures w.Valid() && w.at == InObject(old(w.at).outer, old(w.at).members + Origin(ev))
  {
    hide Decode, Rendered, Ascii, Writer.Valid, Writer.View;
    ghost var before := w.at.members;
    w.FieldString(Ascii("deploymentId"), ev.deploymentId);
    w.FieldString(Ascii("environment"), ev.environment);
    w.FieldString(Ascii("instanceId"), ev.instanceId);
    assert w.at.members == before + Origin(ev)[..3];
    w.FieldString(Ascii("exceptionType"), ev.exceptionType);
    w.FieldString(Ascii("exceptionMessage"), ev.exceptionMessage);
    w.FieldBool(Ascii("caught"), ev.caught);
    assert before + Origin(ev)[..3] + [Origin(ev)[3]] + [Origin(ev)[4]] + [Origin(ev)[5]] == before + Origin(ev);
  }

  /** The nested part of an event. */
  method WriteDetails(w: Writer, ev: CapturedEvent)
    requires w.Valid() && w.at.InObject?
    modifies w
    ensures w.Valid() && w.at == InObject(old(w.at).outer, old(w.at).members + Details(ev))
  {
    hide Decode, Rendered, Ascii, Writer.Valid, Writer.View;
    hide LocationTree, ThreadMembers, CauseTrees, MetricsMembers, FrameTrees;
    ghost var before := w.at.members;
    WriteLocation(w, Ascii("location"), ev.location);
    WriteLocation(w, Ascii("caughtAt"), ev.caughtAt);
    WriteThread(w, ev.thread);
    WriteCauses(w, Ascii("causeChain"), ev.causeChain);
    WriteCauses(w, Ascii("suppressedExceptions"), ev.suppressed);
    assert w.at.members == before + Details(ev)[..5];
    if ev.metricsValid { WriteMetrics(w, ev.metrics); } else { w.FieldNull(Ascii("jvmMetrics")); }
    WriteStack(w, ev.stack);
    assert before + Details(ev)[..5] + [Details(ev)[5]] + [Details(ev)[6]] == before + Details(ev);
  }

  method SerializeEvent(ev: CapturedEvent) returns (text: string)
    ensures text == EventText(ev)
  {
    hide BeforeCount, Count, Origin, Details, Text;
    var w := new Writer();
    w.BeginObject();
    WriteFields(w, ev);
    WriteDetails(w, ev);
    w.EndObject();
    text := w.out;
  }

  // What a reader of the text finds.

  /** The value that an object's name stands for: the last one, if it occurs twice. */
  function Lookup(members: seq<Member>, key: Utf16): Option<Json> {
    if members == [] then None
    else
      var n := |members| - 1;
      if members[n].key == key then Some(members[n].value) else Lookup(members[..n], key)
  }

  lemma {:induction false} LookupBefore(front: seq<Member>, back: seq<Member>, key: Utf16)
    requires forall m :: m in back ==> m.key != key
    ensures Lookup(front + back, key) == Lookup(front, key)
    decreases |back|
  {
    if back == [] {
      assert front + back == front;
    } else {
      var n := |back| - 1;
      assert (front + back)[..|front| + n] == front + back[..n];
      assert back[n] in back;
      LookupBefore(front, back[..n], key);
    }
  }

  lemma {:induction false} OtherName(s: string, t: string)
    requires s != [] && t != [] && s[0] as int < 0x80 && t[0] as int < 0x80 && s[0] != t[0]
    ensures Name(s) != Name(t)
  {
    assert Name(s)[0] == s[0] as int && Name(t)[0] == t[0] as int;
  }

  lemma {:induction false} OriginNames(ev: CapturedEvent, t: string)
    requires t != [] && (t[0] == 'o' || t[0] == 'f')
    ensures forall m :: m in Origin(ev) ==> m.key != Name(t)
  {
    hide Name, Decode;
    OtherName("deploymentId", t);
    OtherName("environment", t);
    OtherName("instanceId", t);
    OtherName("exceptionType", t);
    OtherName("exceptionMessage", t);
    OtherName("caught", t);
  }

  lemma {:induction false} DetailNames(ev: CapturedEvent, t: string)
    requires t != [] && (t[0] == 'o' || t[0] == 'f')
    ensures forall m :: m in Details(ev) ==> m.key != Name(t)
  {
    hide Name, LocationTree, ThreadMembers, CauseTrees, MetricsMembers, FrameTrees;
    OtherName("location", t);
    OtherName("caughtAt", t);
    OtherName("threadInfo", t);
    OtherName("causeChain", t);
    OtherName("suppressedExceptions", t);
    OtherName("jvmMetrics", t);
    OtherName("stackTrace", t);
  }

  /** The number of throws that a message stands for, as its receiver reads it; a message
      without the field, such as a class's bytes, stands for none. */
  function OccurrencesOf(text: string): nat {
    match JsonParser.Parse(text)
    case Some(Object(members)) =>
      (match Lookup(members, Name("occurrences"))
       case Some(Number(n, e)) => if n >= 0 && e == 0 then n else 0
       case _ => 0)
    case _ => 0
  }

  /** An event's text parses to the event's tree. */
  lemma {:induction false} EventRoundTrip(ev: CapturedEvent)
    ensures JsonParser.Parse(EventText(ev)) == Some(EventTree(ev))
  {
    JsonParser.ParseUndoesText(EventTree(ev));
  }

  /** Who reads the text finds the event's occurrences; a zero is shown as one. */
  lemma {:induction false} OccurrencesRead(ev: CapturedEvent)
    ensures OccurrencesOf(EventText(ev)) == if ev.occurrences != 0 then ev.occurrences else 1
  {
    hide Origin, Details, BeforeCount, Name;
    EventRoundTrip(ev);
    OriginNames(ev, "occurrences");
    DetailNames(ev, "occurrences");
    var front := BeforeCount(ev) + [Count(ev)];
    assert EventTree(ev).members == front + (Origin(ev) + Details(ev));
    LookupBefore(front, Origin(ev) + Details(ev), Name("occurrences"));
  }

  /** The fingerprint that a message is about, as its receiver reads it. */
  function FingerprintOf(text: string): Option<Utf16> {
    match JsonParser.Parse(text)
    case Some(Object(members)) =>
      (match Lookup(members, Name("fingerprint"))
       case Some(String(units)) => Some(units)
       case _ => None)
    case _ => None
  }

  /** Who reads the text finds the event's fingerprint. */
  lemma {:induction false} FingerprintRead(ev: CapturedEvent)
    ensures FingerprintOf(EventText(ev)) == Some(Decode(ev.fingerprint))
  {
    hide Origin, Details, Name, Decode;
    var key := "fingerprint";
    EventRoundTrip(ev);
    OriginNames(ev, key);
    DetailNames(ev, key);
    OtherName("captureMode", key);
    OtherName("hitCount", key);
    OtherName("occurrences", key);
    var front := BeforeCount(ev)[..2];
    var back := BeforeCount(ev)[2..] + [Count(ev)] + Origin(ev) + Details(ev);
    assert EventTree(ev).members == front + back;
    LookupBefore(front, back, Name(key));
  }
}
