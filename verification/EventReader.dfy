/** A reader of the agent's messages, by field names, and what it finds in them. */
module EventReader {
  import opened Wrappers
  import opened JsonText
  import JsonParser
  import opened Sampler
  import opened EventSerializer

  // What a reader makes of a message.

  datatype WireLocation = WireLocation(className: Utf16, methodName: Utf16, line: Option<int>, sourceFile: Utf16)

  datatype WireCause = WireCause(exceptionType: Utf16, exceptionMessage: Utf16)

  datatype WireThread = WireThread(name: Utf16, priority: int, isDaemon: bool)

  datatype WireMetrics = WireMetrics(
    heapUsedBytes: int, heapMaxBytes: int, gcCollectionCount: int, gcTimeMs: int,
    threadCount: int, loadedClassCount: int, uptimeMs: int)

  datatype WireLocal = WireLocal(
    name: Utf16, signature: Utf16, slot: int, kind: Utf16, value: Utf16, source: Utf16)

  datatype WireFrame = WireFrame(
    frameIndex: int, className: Utf16, methodName: Utf16, line: Option<int>, sourceFile: Utf16,
    appCode: bool, locals: seq<WireLocal>)

  datatype WireHeader = WireHeader(
    timestamp: Utf16, fingerprint: Utf16, mode: CaptureMode, hitCount: int, occurrences: int,
    deploymentId: Utf16, environment: Utf16, instanceId: Utf16,
    exceptionType: Utf16, exceptionMessage: Utf16, caught: bool)

  datatype WireDetails = WireDetails(
    location: Option<WireLocation>, caughtAt: Option<WireLocation>, thread: WireThread,
    causeChain: seq<WireCause>, suppressed: seq<WireCause>,
    metrics: Option<WireMetrics>, stack: seq<WireFrame>)

  datatype WireEvent = WireEvent(header: WireHeader, details: WireDetails)

  type Members = seq<Member>

  function TextAt(ms: Members, name: string): Option<Utf16> {
    match Lookup(ms, Name(name))
    case Some(String(units)) => Some(units)
    case _ => None
  }

  /** A text that may be left out when empty. */
  function TextOrEmpty(ms: Members, name: string): Option<Utf16> {
    match Lookup(ms, Name(name))
    case None => Some([])
    case Some(String(units)) => Some(units)
    case _ => None
  }

  function IntAt(ms: Members, name: string): Option<int> {
    match Lookup(ms, Name(name))
    case Some(Number(n, e)) => if e == 0 then Some(n) else None
    case _ => None
  }

  function FlagAt(ms: Members, name: string): Option<bool> {
    match Lookup(ms, Name(name))
    case Some(Bool(b)) => Some(b)
    case _ => None
  }

  /** A number, or nothing for null. */
  function LineAt(ms: Members, name: string): Option<Option<int>> {
    match Lookup(ms, Name(name))
    case Some(Number(n, e)) => if e == 0 then Some(Some(n)) else None
    case Some(Null) => Some(None)
    case _ => None
  }

  function ReadAll<T>(items: seq<Json>, read: Json -> Option<T>): Option<seq<T>> {
    if items == [] then Some([])
    else
      var head :- read(items[0]);
      var tail :- ReadAll(items[1..], read);
      Some([head] + tail)
  }

  function ListAt<T>(ms: Members, name: string, read: Json -> Option<T>): Option<seq<T>> {
    match Lookup(ms, Name(name))
    case Some(Array(items)) => ReadAll(items, read)
    case _ => None
  }

  /** An object, or nothing for null. */
  function NodeAt<T>(ms: Members, name: string, read: Json -> Option<T>): Option<Option<T>> {
    match Lookup(ms, Name(name))
    case Some(Null) => Some(None)
    case Some(t) =>
      var v :- read(t);
      Some(Some(v))
    case None => None
  }

  function ReadMode(units: Utf16): Option<CaptureMode> {
    if units == Name("FULL") then Some(FULL)
    else if units == Name("REDUCED") then Some(REDUCED)
    else if units == Name("COUNT_ONLY") then Some(COUNT_ONLY)
    else None
  }

  function ReadLocation(t: Json): Option<WireLocation> {
    if !t.Object? then None
    else
      var className :- TextAt(t.members, "className");
      var methodName :- TextAt(t.members, "methodName");
      var line :- LineAt(t.members, "lineNumber");
      var sourceFile :- TextAt(t.members, "sourceFile");
      Some(WireLocation(className, methodName, line, sourceFile))
  }

  function ReadCause(t: Json): Option<WireCause> {
    if !t.Object? then None
    else
      var exceptionType :- TextAt(t.members, "exceptionType");
      var exceptionMessage :- TextAt(t.members, "exceptionMessage");
      Some(WireCause(exceptionType, exceptionMessage))
  }

  function ReadThread(t: Json): Option<WireThread> {
    if !t.Object? then None
    else
      var name :- TextAt(t.members, "name");
      var priority :- IntAt(t.members, "priority");
      var isDaemon :- FlagAt(t.members, "isDaemon");
      Some(WireThread(name, priority, isDaemon))
  }

  function ReadMetrics(t: Json): Option<WireMetrics> {
    if !t.Object? then None
    else
      var heapUsedBytes :- IntAt(t.members, "heapUsedBytes");
      var heapMaxBytes :- IntAt(t.members, "heapMaxBytes");
      var gcCollectionCount :- IntAt(t.members, "gcCollectionCount");
      var gcTimeMs :- IntAt(t.members, "gcTimeMs");
      var threadCount :- IntAt(t.members, "threadCount");
      var loadedClassCount :- IntAt(t.members, "loadedClassCount");
      var uptimeMs :- IntAt(t.members, "uptimeMs");
      Some(WireMetrics(
        heapUsedBytes, heapMaxBytes, gcCollectionCount, gcTimeMs, threadCount, loadedClassCount, uptimeMs))
  }

  function ReadLocal(t: Json): Option<WireLocal> {
    if !t.Object? then None
    else
      var name :- TextOrEmpty(t.members, "name");
      var signature :- TextOrEmpty(t.members, "signature");
      var slot :- IntAt(t.members, "slot");
      var kind :- TextOrEmpty(t.members, "type");
      var value :- TextAt(t.members, "value");
      var source :- TextAt(t.members, "source");
      Some(WireLocal(name, signature, slot, kind, value, source))
  }

  function ReadFrame(t: Json): Option<WireFrame> {
    if !t.Object? then None
    else
      var frameIndex :- IntAt(t.members, "frameIndex");
      var className :- TextAt(t.members, "className");
      var methodName :- TextAt(t.members, "methodName");
      var line :- LineAt(t.members, "lineNumber");
      var sourceFile :- TextAt(t.members, "sourceFile");
      var appCode :- FlagAt(t.members, "isAppCode");
      var locals :- ListAt(t.members, "localVariables", ReadLocal);
      Some(WireFrame(frameIndex, className, methodName, line, sourceFile, appCode, locals))
  }

  function ReadHeader(ms: Members): Option<WireHeader> {
    var timestamp :- TextAt(ms, "timestamp");
    var fingerprint :- TextAt(ms, "fingerprint");
    var modeName :- TextAt(ms, "captureMode");
    var mode :- ReadMode(modeName);
    var hitCount :- IntAt(ms, "hitCount");
    var occurrences :- IntAt(ms, "occurrences");
    var deploymentId :- TextAt(ms, "deploymentId");
    var environment :- TextAt(ms, "environment");
    var instanceId :- TextAt(ms, "instanceId");
    var exceptionType :- TextAt(ms, "exceptionType");
    var exceptionMessage :- TextAt(ms, "exceptionMessage");
    var caught :- FlagAt(ms, "caught");
    Some(WireHeader(
      timestamp, fingerprint, mode, hitCount, occurrences, deploymentId, environment, instanceId,
      exceptionType, exceptionMessage, caught))
  }

  function ReadDetails(ms: Members): Option<WireDetails> {
    var location :- NodeAt(ms, "location", ReadLocation);
    var caughtAt :- NodeAt(ms, "caughtAt", ReadLocation);
    var threadTree :- Lookup(ms, Name("threadInfo"));
    var thread :- ReadThread(threadTree);
    var causeChain :- ListAt(ms, "causeChain", ReadCause);
    var suppressed :- ListAt(ms, "suppressedExceptions", ReadCause);
    var metrics :- NodeAt(ms, "jvmMetrics", ReadMetrics);
    var stack :- ListAt(ms, "stackTrace", ReadFrame);
    Some(WireDetails(location, caughtAt, thread, causeChain, suppressed, metrics, stack))
  }

  function ReadEvent(t: Json): Option<WireEvent> {
    if !t.Object? then None
    else
      var header :- ReadHeader(t.members);
      var details :- ReadDetails(t.members);
      Some(WireEvent(header, details))
  }

  function ReadMessage(text: string): Option<WireEvent> {
    var t :- JsonParser.Parse(text);
    ReadEvent(t)
  }

  // What the event says, field by field.

  predicate LineShown(line: Option<int>, n: int) { line == if n >= 0 then Some(n) else None }

  predicate LocationShown(w: Option<WireLocation>, loc: Location) {
    if !loc.valid then w == None
    else
      && w.Some? && w.value.className == Decode(loc.className) && w.value.methodName == Decode(loc.methodName)
      && LineShown(w.value.line, loc.lineNumber) && w.value.sourceFile == Decode(loc.sourceFile)
  }

  predicate CauseShown(w: WireCause, c: CauseInfo) {
    w.exceptionType == Decode(c.exceptionType) && w.exceptionMessage == Decode(c.exceptionMessage)
  }

  predicate CausesShown(ws: seq<WireCause>, causes: seq<CauseInfo>) {
    |ws| == |causes| && forall i :: 0 <= i < |ws| ==> CauseShown(ws[i], causes[i])
  }

  predicate ThreadShown(w: WireThread, t: ThreadDetails) {
    w.name == Decode(t.name) && w.priority == t.priority && w.isDaemon == t.isDaemon
  }

  predicate MetricsShown(w: WireMetrics, m: JvmMetrics) {
    && w.heapUsedBytes == m.heapUsedBytes && w.heapMaxBytes == m.heapMaxBytes
    && w.gcCollectionCount == m.gcCollectionCount && w.gcTimeMs == m.gcTimeMs
    && w.threadCount == m.threadCount && w.loadedClassCount == m.loadedClassCount && w.uptimeMs == m.uptimeMs
  }

  predicate LocalShown(w: WireLocal, lv: LocalVariable) {
    && w.name == Decode(lv.name) && w.signature == Decode(lv.signature) && w.slot == lv.slot
    && w.kind == Decode(lv.kind) && w.value == Decode(lv.value) && w.source == Decode(lv.source)
  }

  predicate FrameShown(w: WireFrame, f: StackFrame) {
    && w.frameIndex == f.frameIndex && w.className == Decode(f.className) && w.methodName == Decode(f.methodName)
    && LineShown(w.line, f.lineNumber) && w.sourceFile == Decode(f.sourceFile) && w.appCode == f.appCode
    && |w.locals| == |f.locals| && forall i :: 0 <= i < |w.locals| ==> LocalShown(w.locals[i], f.locals[i])
  }

  predicate HeaderShown(w: WireHeader, ev: CapturedEvent) {
    && w.timestamp == Decode(ev.timestamp) && w.fingerprint == Decode(ev.fingerprint) && w.mode == ev.mode
    && w.hitCount == ev.hitCount && w.occurrences == (if ev.occurrences != 0 then ev.occurrences else 1)
    && w.deploymentId == Decode(ev.deploymentId) && w.environment == Decode(ev.environment)
    && w.instanceId == Decode(ev.instanceId)
    && w.exceptionType == Decode(ev.exceptionType) && w.exceptionMessage == Decode(ev.exceptionMessage)
    && w.caught == ev.caught
  }

  predicate DetailsShown(w: WireDetails, ev: CapturedEvent) {
    && LocationShown(w.location, ev.location) && LocationShown(w.caughtAt, ev.caughtAt)
    && ThreadShown(w.thread, ev.thread)
    && CausesShown(w.causeChain, ev.causeChain) && CausesShown(w.suppressed, ev.suppressed)
    && (if ev.metricsValid then w.metrics.Some? && MetricsShown(w.metrics.value, ev.metrics) else w.metrics == None)
    && |w.stack| == |ev.stack| && forall i :: 0 <= i < |w.stack| ==> FrameShown(w.stack[i], ev.stack[i])
  }

  // Names.

  lemma {:induction false} DecodeAscii(s: Bytes)
    requires forall i :: 0 <= i < |s| ==> s[i] as int < 0x80
    ensures |Decode(s)| == |s| && forall i :: 0 <= i < |s| ==> Decode(s)[i] == s[i] as int
    decreases |s|
  {
    if s != [] {
      DecodeAscii(s[1..]);
      assert First(s) == Prefix(s[0] as int, 1);
    }
  }

  /** A field's name is its letters. */
  lemma {:induction false} NameIs(s: string)
    requires forall i :: 0 <= i < |s| ==> s[i] as int < 0x80
    ensures |Name(s)| == |s| && forall i :: 0 <= i < |s| ==> Name(s)[i] == s[i] as int
  {
    DecodeAscii(Ascii(s));
  }

  /** Length and first letter, which tell the names of one object apart. */
  function Mark(units: Utf16): int {
    if units == [] then 0 else |units| * 0x10000 + units[0]
  }

  lemma {:induction false} NameMark(s: string, n: nat, c: char)
    requires |s| == n > 0 && s[0] == c && c as int < 0x80
    ensures Mark(Name(s)) == n * 0x10000 + c as int
  {
    DecodeAscii(Ascii(s));
  }

  ghost predicate DistinctMarks(ms: Members) {
    forall a, b :: 0 <= a < b < |ms| ==> Mark(ms[a].key) != Mark(ms[b].key)
  }

  lemma {:induction false} FoundMember(ms: Members, m: Member)
    requires DistinctMarks(ms) && m in ms
    ensures Lookup(ms, m.key) == Some(m.value)
    decreases |ms|
  {
    hide Mark;
    var n := |ms| - 1;
    if ms[n].key == m.key {
      var i :| 0 <= i < |ms| && ms[i] == m;
      assert i == n;
    } else {
      assert ms == ms[..n] + [ms[n]];
      FoundMember(ms[..n], m);
    }
  }

  lemma {:induction false} MissingMember(ms: Members, key: Utf16)
    requires forall i :: 0 <= i < |ms| ==> ms[i].key != key
    ensures Lookup(ms, key) == None
    decreases |ms|
  {
    if ms != [] {
      MissingMember(ms[..|ms| - 1], key);
    }
  }

  lemma {:induction false} ReadAllIs<T>(items: seq<Json>, read: Json -> Option<T>, out: seq<T>)
    requires |items| == |out| && forall i :: 0 <= i < |items| ==> read(items[i]) == Some(out[i])
    ensures ReadAll(items, read) == Some(out)
    decreases |items|
  {
    if items != [] {
      ReadAllIs(items[1..], read, out[1..]);
      assert [out[0]] + out[1..] == out;
    }
  }

  // The parts of an event, read back.

  lemma {:induction false} LineRead(ms: Members, n: int)
    requires DistinctMarks(ms) && Line(n) in ms
    ensures LineAt(ms, "lineNumber").Some? && LineShown(LineAt(ms, "lineNumber").value, n)
  {
    hide Name, Lookup, DistinctMarks;
    FoundMember(ms, Line(n));
  }

  lemma {:induction false} LocationMarks(loc: Location)
    ensures DistinctMarks(LocationMembers(loc))
  {
    hide Name, Mark, Decode;
    NameMark("className", 9, 'c');
    NameMark("methodName", 10, 'm');
    NameMark("lineNumber", 10, 'l');
    NameMark("sourceFile", 10, 's');
  }

  lemma {:induction false} LocationRead(loc: Location)
    requires loc.valid
    ensures ReadLocation(LocationTree(loc)).Some? && LocationShown(ReadLocation(LocationTree(loc)), loc)
  {
    hide Name, Lookup, Decode, DistinctMarks, LineAt, LineShown;
    var ms := LocationMembers(loc);
    LocationMarks(loc);
    FoundMember(ms, ms[0]);
    FoundMember(ms, ms[1]);
    LineRead(ms, loc.lineNumber);
    FoundMember(ms, ms[3]);
  }

  lemma {:induction false} CauseRead(c: CauseInfo)
    ensures ReadCause(Object(CauseMembers(c))).Some? && CauseShown(ReadCause(Object(CauseMembers(c))).value, c)
  {
    hide Name, Mark, Lookup, Decode;
    NameMark("exceptionType", 13, 'e');
    NameMark("exceptionMessage", 16, 'e');
    var ms := CauseMembers(c);
    FoundMember(ms, ms[0]);
    FoundMember(ms, ms[1]);
  }

  lemma {:induction false} CausesRead(causes: seq<CauseInfo>)
    ensures
      var ws := ReadAll(CauseTrees(causes), ReadCause);
      ws.Some? && CausesShown(ws.value, causes)
  {
    hide ReadCause, CauseShown, CauseMembers;
    forall i | 0 <= i < |causes| ensures ReadCause(Object(CauseMembers(causes[i]))).Some? {
      CauseRead(causes[i]);
    }
    var out := seq(|causes|, i requires 0 <= i < |causes| => ReadCause(Object(CauseMembers(causes[i]))).value);
    ReadAllIs(CauseTrees(causes), ReadCause, out);
    forall i | 0 <= i < |causes| ensures CauseShown(out[i], causes[i]) {
      CauseRead(causes[i]);
    }
  }

  lemma {:induction false} ThreadRead(t: ThreadDetails)
    ensures
      var w := ReadThread(Object(ThreadMembers(t)));
      w.Some? && ThreadShown(w.value, t)
  {
    hide Name, Mark, Lookup, Decode;
    NameMark("name", 4, 'n');
    NameMark("priority", 8, 'p');
    NameMark("isDaemon", 8, 'i');
    var ms := ThreadMembers(t);
    FoundMember(ms, ms[0]);
    FoundMember(ms, ms[1]);
    FoundMember(ms, ms[2]);
  }

  lemma {:induction false} MetricsMarks(m: JvmMetrics)
    ensures DistinctMarks(MetricsMembers(m))
  {
    hide Name, Mark;
    NameMark("heapUsedBytes", 13, 'h');
    NameMark("heapMaxBytes", 12, 'h');
    NameMark("gcCollectionCount", 17, 'g');
    NameMark("gcTimeMs", 8, 'g');
    NameMark("threadCount", 11, 't');
    NameMark("loadedClassCount", 16, 'l');
    NameMark("uptimeMs", 8, 'u');
  }

  lemma {:induction false} MetricsRead(m: JvmMetrics)
    ensures
      var w := ReadMetrics(Object(MetricsMembers(m)));
      w.Some? && MetricsShown(w.value, m)
  {
    hide Name, Lookup, DistinctMarks;
    var ms := MetricsMembers(m);
    MetricsMarks(m);
    FoundMember(ms, ms[0]);
    FoundMember(ms, ms[1]);
    FoundMember(ms, ms[2]);
    FoundMember(ms, ms[3]);
    FoundMember(ms, ms[4]);
    FoundMember(ms, ms[5]);
    FoundMember(ms, ms[6]);
  }

  lemma {:induction false} MarksAppend(a: Members, b: Members)
    requires DistinctMarks(a) && DistinctMarks(b)
    requires forall x, y :: x in a && y in b ==> Mark(x.key) != Mark(y.key)
    ensures DistinctMarks(a + b)
  {
    hide Mark;
    forall i, j | 0 <= i < j < |a + b| ensures Mark((a + b)[i].key) != Mark((a + b)[j].key) {
      if i < |a| <= j {
        assert a[i] in a && b[j - |a|] in b;
      }
    }
  }

  lemma {:induction false} OneMark(m: Member)
    ensures DistinctMarks([m])
  {
  }

  // A local variable: fields that are empty may be missing.

  lemma {:induction false} UnlessRead(front: Members, name: string, v: Bytes, back: Members)
    requires DistinctMarks(front + Unless(name, v) + back)
    requires Without(front, name) && Without(back, name)
    ensures TextOrEmpty(front + Unless(name, v) + back, name) == Some(Decode(v))
  {
    hide Name, Lookup, DistinctMarks;
    var ms := front + Unless(name, v) + back;
    if v == [] {
      forall i | 0 <= i < |ms| ensures ms[i].key != Name(name) {
        assert ms[i] in front || ms[i] in back;
      }
      MissingMember(ms, Name(name));
      assert Decode(v) == [];
    } else {
      FoundMember(ms, Str(name, v));
    }
  }

  lemma {:induction false} LocalMarks(lv: LocalVariable)
    ensures DistinctMarks(LocalMembers(lv))
    ensures Mark(Name("name")) == 0x4006E && Mark(Name("signature")) == 0x90073 && Mark(Name("slot")) == 0x40073
    ensures Mark(Name("type")) == 0x40074 && Mark(Name("value")) == 0x50076 && Mark(Name("source")) == 0x60073
  {
    hide Name, Mark, Decode;
    NameMark("name", 4, 'n');
    NameMark("signature", 9, 's');
    NameMark("slot", 4, 's');
    NameMark("type", 4, 't');
    NameMark("value", 5, 'v');
    NameMark("source", 6, 's');
    OneMark(Str("name", lv.name));
    OneMark(Str("signature", lv.signature));
    OneMark(Str("type", lv.kind));
    OneMark(Int("slot", lv.slot));
    var a, b, c := Unless("name", lv.name), Unless("signature", lv.signature), Unless("type", lv.kind);
    MarksAppend(a, b);
    MarksAppend(a + b, [Int("slot", lv.slot)]);
    MarksAppend(a + b + [Int("slot", lv.slot)], c);
    MarksAppend(a + b + [Int("slot", lv.slot)] + c, [Str("value", lv.value), Str("source", lv.source)]);
  }

  lemma {:induction false} NamesOfLocal(name: string)
    ensures Name("name") != Name("signature") && Name("signature") != Name("type")
    ensures Name("name") != Name("type")
    ensures name in ["slot", "value", "source"] ==>
      Name(name) != Name("name") && Name(name) != Name("signature") && Name(name) != Name("type")
  {
    hide Name, Mark;
    NameMark("name", 4, 'n');
    NameMark("signature", 9, 's');
    NameMark("slot", 4, 's');
    NameMark("type", 4, 't');
    NameMark("value", 5, 'v');
    NameMark("source", 6, 's');
  }

  /** The fields that every local has, and those that may be missing, before and after one. */
  lemma {:induction false} LocalParts(lv: LocalVariable)
    ensures
      var a, b, c := Unless("name", lv.name), Unless("signature", lv.signature), Unless("type", lv.kind);
      var slot, last := [Int("slot", lv.slot)], [Str("value", lv.value), Str("source", lv.source)];
      && LocalMembers(lv) == [] + a + (b + slot + c + last)
      && LocalMembers(lv) == a + b + (slot + c + last)
      && LocalMembers(lv) == (a + b + slot) + c + last
  {
    hide Unless, Str, Int;
  }

  /** No member has this name. */
  predicate Without(ms: Members, name: string) {
    forall m :: m in ms ==> m.key != Name(name)
  }

  lemma {:induction false} WithoutBoth(a: Members, b: Members, name: string)
    ensures Without(a + b, name) <==> Without(a, name) && Without(b, name)
  {
    hide Name;
    if Without(a + b, name) {
      assert forall m :: m in a || m in b ==> m in a + b;
    }
  }

  lemma {:induction false} UnlessOthers(name: string, v: Bytes, other: string)
    requires Name(name) != Name(other)
    ensures Without(Unless(name, v), other)
  {
    hide Name;
  }

  lemma {:induction false} FixedOthers(lv: LocalVariable, other: string)
    requires Name("slot") != Name(other) && Name("value") != Name(other) && Name("source") != Name(other)
    ensures Without([Int("slot", lv.slot)], other)
    ensures Without([Str("value", lv.value), Str("source", lv.source)], other)
  {
    hide Name;
  }

  lemma {:induction false} LocalTextsRead(lv: LocalVariable)
    ensures TextOrEmpty(LocalMembers(lv), "name") == Some(Decode(lv.name))
    ensures TextOrEmpty(LocalMembers(lv), "signature") == Some(Decode(lv.signature))
    ensures TextOrEmpty(LocalMembers(lv), "type") == Some(Decode(lv.kind))
  {
    hide Name, Decode, DistinctMarks, TextOrEmpty, LocalMembers, Unless, Without, Str, Int;
    LocalMarks(lv);
    LocalParts(lv);
    NamesOfLocal("slot");
    NamesOfLocal("value");
    NamesOfLocal("source");
    var a, b, c := Unless("name", lv.name), Unless("signature", lv.signature), Unless("type", lv.kind);
    var slot, last := [Int("slot", lv.slot)], [Str("value", lv.value), Str("source", lv.source)];
    FixedOthers(lv, "name");
    FixedOthers(lv, "signature");
    FixedOthers(lv, "type");
    UnlessOthers("signature", lv.signature, "name");
    UnlessOthers("type", lv.kind, "name");
    UnlessOthers("name", lv.name, "signature");
    UnlessOthers("type", lv.kind, "signature");
    UnlessOthers("name", lv.name, "type");
    UnlessOthers("signature", lv.signature, "type");
    WithoutBoth(b, slot, "name");
    WithoutBoth(b + slot, c, "name");
    WithoutBoth(b + slot + c, last, "name");
    WithoutNone("name");
    UnlessRead([], "name", lv.name, b + slot + c + last);
    WithoutBoth(slot, c, "signature");
    WithoutBoth(slot + c, last, "signature");
    UnlessRead(a, "signature", lv.signature, slot + c + last);
    WithoutBoth(a, b, "type");
    WithoutBoth(a + b, slot, "type");
    UnlessRead(a + b + slot, "type", lv.kind, last);
  }

  lemma {:induction false} WithoutNone(name: string)
    ensures Without([], name)
  {
  }

  lemma {:induction false} LocalRead(lv: LocalVariable)
    ensures
      var w := ReadLocal(Object(LocalMembers(lv)));
      w.Some? && LocalShown(w.value, lv)
  {
    hide Name, Lookup, Decode, DistinctMarks, TextOrEmpty, Unless, Mark;
    var ms := LocalMembers(lv);
    LocalMarks(lv);
    LocalTextsRead(lv);
    FoundMember(ms, Int("slot", lv.slot));
    FoundMember(ms, Str("value", lv.value));
    FoundMember(ms, Str("source", lv.source));
  }

  lemma {:induction false} LocalsRead(locals: seq<LocalVariable>)
    ensures
      var ws := ReadAll(LocalTrees(locals), ReadLocal);
      ws.Some? && |ws.value| == |locals| && forall i :: 0 <= i < |locals| ==> LocalShown(ws.value[i], locals[i])
  {
    hide ReadLocal, LocalShown, LocalMembers;
    forall i | 0 <= i < |locals| ensures ReadLocal(Object(LocalMembers(locals[i]))).Some? {
      LocalRead(locals[i]);
    }
    var out := seq(|locals|, i requires 0 <= i < |locals| => ReadLocal(Object(LocalMembers(locals[i]))).value);
    ReadAllIs(LocalTrees(locals), ReadLocal, out);
    forall i | 0 <= i < |locals| ensures LocalShown(out[i], locals[i]) {
      LocalRead(locals[i]);
    }
  }

  lemma {:induction false} FrameMarks(f: StackFrame)
    ensures DistinctMarks(FrameMembers(f))
  {
    hide Name, Mark, Decode, LocalTrees;
    NameMark("frameIndex", 10, 'f');
    NameMark("className", 9, 'c');
    NameMark("methodName", 10, 'm');
    NameMark("lineNumber", 10, 'l');
    NameMark("sourceFile", 10, 's');
    NameMark("isAppCode", 9, 'i');
    NameMark("localVariables", 14, 'l');
  }

  lemma {:induction false} FrameFieldsRead(f: StackFrame)
    ensures
      var ms := FrameMembers(f);
      && IntAt(ms, "frameIndex") == Some(f.frameIndex) && TextAt(ms, "className") == Some(Decode(f.className))
      && TextAt(ms, "methodName") == Some(Decode(f.methodName))
      && LineAt(ms, "lineNumber").Some? && LineShown(LineAt(ms, "lineNumber").value, f.lineNumber)
      && TextAt(ms, "sourceFile") == Some(Decode(f.sourceFile)) && FlagAt(ms, "isAppCode") == Some(f.appCode)
      && Lookup(ms, Name("localVariables")) == Some(Array(LocalTrees(f.locals)))
  {
    hide Name, Lookup, Decode, DistinctMarks, LineAt, LineShown, LocalTrees;
    var ms := FrameMembers(f);
    FrameMarks(f);
    FoundMember(ms, ms[0]);
    FoundMember(ms, ms[1]);
    FoundMember(ms, ms[2]);
    LineRead(ms, f.lineNumber);
    FoundMember(ms, ms[4]);
    FoundMember(ms, ms[5]);
    FoundMember(ms, ms[6]);
  }

  lemma {:induction false} FrameRead(f: StackFrame)
    ensures
      var w := ReadFrame(Object(FrameMembers(f)));
      w.Some? && FrameShown(w.value, f)
  {
    hide Name, Lookup, Decode, LineAt, LineShown, TextAt, IntAt, FlagAt, ReadAll, LocalTrees, LocalShown, ReadLocal;
    hide FrameMembers;
    FrameFieldsRead(f);
    LocalsRead(f.locals);
  }

  lemma {:induction false} FramesRead(stack: seq<StackFrame>)
    ensures
      var ws := ReadAll(FrameTrees(stack), ReadFrame);
      ws.Some? && |ws.value| == |stack| && forall i :: 0 <= i < |stack| ==> FrameShown(ws.value[i], stack[i])
  {
    hide ReadFrame, FrameShown, FrameMembers;
    forall i | 0 <= i < |stack| ensures ReadFrame(Object(FrameMembers(stack[i]))).Some? {
      FrameRead(stack[i]);
    }
    var out := seq(|stack|, i requires 0 <= i < |stack| => ReadFrame(Object(FrameMembers(stack[i]))).value);
    ReadAllIs(FrameTrees(stack), ReadFrame, out);
    forall i | 0 <= i < |stack| ensures FrameShown(out[i], stack[i]) {
      FrameRead(stack[i]);
    }
  }

  // The whole event.

  lemma {:induction false} BeforeMarks(ev: CapturedEvent)
    ensures DistinctMarks(BeforeCount(ev) + [Count(ev)])
    ensures forall m :: m in BeforeCount(ev) + [Count(ev)] ==>
      Mark(m.key) in {0x90074, 0xB0066, 0xB0063, 0x80068, 0xB006F}
  {
    hide Name, Mark, Decode, ModeName;
    NameMark("timestamp", 9, 't');
    NameMark("fingerprint", 11, 'f');
    NameMark("captureMode", 11, 'c');
    NameMark("hitCount", 8, 'h');
    NameMark("occurrences", 11, 'o');
  }

  lemma {:induction false} OriginMarks(ev: CapturedEvent)
    ensures DistinctMarks(Origin(ev))
    ensures forall m :: m in Origin(ev) ==>
      Mark(m.key) in {0xC0064, 0xB0065, 0xA0069, 0xD0065, 0x100065, 0x60063}
  {
    hide Name, Mark, Decode;
    NameMark("deploymentId", 12, 'd');
    NameMark("environment", 11, 'e');
    NameMark("instanceId", 10, 'i');
    NameMark("exceptionType", 13, 'e');
    NameMark("exceptionMessage", 16, 'e');
    NameMark("caught", 6, 'c');
  }

  lemma {:induction false} DetailMarks(ev: CapturedEvent)
    ensures DistinctMarks(Details(ev))
    ensures forall m :: m in Details(ev) ==>
      Mark(m.key) in {0x8006C, 0x80063, 0xA0074, 0xA0063, 0x140073, 0xA006A, 0xA0073}
  {
    hide Name, Mark, LocationTree, ThreadMembers, CauseTrees, MetricsMembers, FrameTrees;
    NameMark("location", 8, 'l');
    NameMark("caughtAt", 8, 'c');
    NameMark("threadInfo", 10, 't');
    NameMark("causeChain", 10, 'c');
    NameMark("suppressedExceptions", 20, 's');
    NameMark("jvmMetrics", 10, 'j');
    NameMark("stackTrace", 10, 's');
  }

  lemma {:induction false} EventMarks(ev: CapturedEvent)
    ensures DistinctMarks(EventTree(ev).members)
  {
    hide BeforeCount, Count, Origin, Details, Mark, DistinctMarks;
    BeforeMarks(ev);
    OriginMarks(ev);
    DetailMarks(ev);
    MarksAppend(BeforeCount(ev) + [Count(ev)], Origin(ev));
    MarksAppend(BeforeCount(ev) + [Count(ev)] + Origin(ev), Details(ev));
  }

  lemma {:induction false} ModeRead(mode: CaptureMode)
    ensures ReadMode(Decode(ModeName(mode))) == Some(mode)
  {
    hide Name, Mark, Decode;
    NameMark("FULL", 4, 'F');
    NameMark("REDUCED", 7, 'R');
    NameMark("COUNT_ONLY", 10, 'C');
    ModeNames();
  }

  lemma {:induction false} ModeNames()
    ensures Decode(ModeName(FULL)) == Name("FULL") && Decode(ModeName(REDUCED)) == Name("REDUCED")
    ensures Decode(ModeName(COUNT_ONLY)) == Name("COUNT_ONLY")
  {
  }

  lemma {:induction false} EarlyRead(ms: Members, ev: CapturedEvent)
    requires DistinctMarks(ms) && forall m :: m in BeforeCount(ev) + [Count(ev)] ==> m in ms
    ensures TextAt(ms, "timestamp") == Some(Decode(ev.timestamp))
    ensures TextAt(ms, "fingerprint") == Some(Decode(ev.fingerprint))
    ensures TextAt(ms, "captureMode") == Some(Decode(ModeName(ev.mode)))
    ensures IntAt(ms, "hitCount") == Some(ev.hitCount)
    ensures IntAt(ms, "occurrences") == Some(if ev.occurrences != 0 then ev.occurrences else 1)
  {
    hide Name, Lookup, Decode, DistinctMarks, ModeName;
    var all := BeforeCount(ev);
    assert all[0] in all && all[1] in all && all[2] in all && all[3] in all;
    FoundMember(ms, all[0]);
    FoundMember(ms, all[1]);
    FoundMember(ms, all[2]);
    FoundMember(ms, all[3]);
    FoundMember(ms, Count(ev));
  }

  lemma {:induction false} OriginRead(ms: Members, ev: CapturedEvent)
    requires DistinctMarks(ms) && forall m :: m in Origin(ev) ==> m in ms
    ensures TextAt(ms, "deploymentId") == Some(Decode(ev.deploymentId))
    ensures TextAt(ms, "environment") == Some(Decode(ev.environment))
    ensures TextAt(ms, "instanceId") == Some(Decode(ev.instanceId))
    ensures TextAt(ms, "exceptionType") == Some(Decode(ev.exceptionType))
    ensures TextAt(ms, "exceptionMessage") == Some(Decode(ev.exceptionMessage))
    ensures FlagAt(ms, "caught") == Some(ev.caught)
  {
    hide Name, Lookup, Decode, DistinctMarks;
    var all := Origin(ev);
    assert all[0] in all && all[1] in all && all[2] in all && all[3] in all && all[4] in all && all[5] in all;
    FoundMember(ms, all[0]);
    FoundMember(ms, all[1]);
    FoundMember(ms, all[2]);
    FoundMember(ms, all[3]);
    FoundMember(ms, all[4]);
    FoundMember(ms, all[5]);
  }

  lemma {:induction false} HeaderRead(ms: Members, ev: CapturedEvent)
    requires DistinctMarks(ms) && forall m :: m in BeforeCount(ev) + [Count(ev)] || m in Origin(ev) ==> m in ms
    ensures ReadHeader(ms).Some? && HeaderShown(ReadHeader(ms).value, ev)
  {
    hide TextAt, IntAt, FlagAt, Decode, DistinctMarks, BeforeCount, Count, Origin, ReadMode, ModeName;
    EarlyRead(ms, ev);
    OriginRead(ms, ev);
    ModeRead(ev.mode);
  }

  lemma {:induction false} PlacesRead(ms: Members, ev: CapturedEvent)
    requires DistinctMarks(ms) && forall m :: m in Details(ev) ==> m in ms
    ensures
      var w := NodeAt(ms, "location", ReadLocation);
      w.Some? && LocationShown(w.value, ev.location)
    ensures
      var w := NodeAt(ms, "caughtAt", ReadLocation);
      w.Some? && LocationShown(w.value, ev.caughtAt)
    ensures
      var w := NodeAt(ms, "jvmMetrics", ReadMetrics);
      w.Some?
      && if ev.metricsValid then w.value.Some? && MetricsShown(w.value.value, ev.metrics) else w.value == None
  {
    hide Name, Lookup, DistinctMarks, ReadLocation, LocationShown, ReadMetrics, MetricsShown, LocationTree;
    hide ThreadMembers, CauseTrees, MetricsMembers, FrameTrees;
    var all := Details(ev);
    assert all[0] in all && all[1] in all && all[5] in all;
    FoundMember(ms, all[0]);
    FoundMember(ms, all[1]);
    FoundMember(ms, all[5]);
    PlaceTree(ev.location);
    PlaceTree(ev.caughtAt);
    MetricsRead(ev.metrics);
  }

  lemma {:induction false} PlaceTree(loc: Location)
    ensures !loc.valid ==> LocationTree(loc) == Null && LocationShown(None, loc)
    ensures loc.valid ==>
      LocationTree(loc).Object? && ReadLocation(LocationTree(loc)).Some?
      && LocationShown(ReadLocation(LocationTree(loc)), loc)
  {
    hide ReadLocation;
    if loc.valid { LocationRead(loc); }
  }

  lemma {:induction false} ListsRead(ms: Members, ev: CapturedEvent)
    requires DistinctMarks(ms) && forall m :: m in Details(ev) ==> m in ms
    ensures
      var w := Lookup(ms, Name("threadInfo"));
      w.Some? && ReadThread(w.value).Some? && ThreadShown(ReadThread(w.value).value, ev.thread)
    ensures
      var w := ListAt(ms, "causeChain", ReadCause);
      w.Some? && CausesShown(w.value, ev.causeChain)
    ensures
      var w := ListAt(ms, "suppressedExceptions", ReadCause);
      w.Some? && CausesShown(w.value, ev.suppressed)
    ensures
      var w := ListAt(ms, "stackTrace", ReadFrame);
      w.Some? && |w.value| == |ev.stack| && forall i :: 0 <= i < |ev.stack| ==> FrameShown(w.value[i], ev.stack[i])
  {
    hide Name, Lookup, DistinctMarks, ReadThread, ThreadShown, ReadAll, CausesShown, FrameShown, LocationTree;
    hide ThreadMembers, CauseTrees, MetricsMembers, FrameTrees;
    var all := Details(ev);
    assert all[2] in all && all[3] in all && all[4] in all && all[6] in all;
    FoundMember(ms, all[2]);
    FoundMember(ms, all[3]);
    FoundMember(ms, all[4]);
    FoundMember(ms, all[6]);
    ThreadRead(ev.thread);
    CausesRead(ev.causeChain);
    CausesRead(ev.suppressed);
    FramesRead(ev.stack);
  }

  lemma {:induction false} DetailsRead(ms: Members, ev: CapturedEvent)
    requires DistinctMarks(ms) && forall m :: m in Details(ev) ==> m in ms
    ensures ReadDetails(ms).Some? && DetailsShown(ReadDetails(ms).value, ev)
  {
    hide NodeAt, ListAt, Lookup, DistinctMarks, Details, ReadThread, ThreadShown, CausesShown, FrameShown;
    hide LocationShown, MetricsShown, Name;
    PlacesRead(ms, ev);
    ListsRead(ms, ev);
  }

  /** Who reads an event's text by field names finds the event: every field under its own name,
      the nested objects and lists likewise, with null or nothing where a part is missing. */
  lemma {:induction false} EventRead(ev: CapturedEvent)
    ensures
      var w := ReadMessage(EventText(ev));
      w.Some? && HeaderShown(w.value.header, ev) && DetailsShown(w.value.details, ev)
  {
    hide BeforeCount, Count, Origin, Details, DistinctMarks, ReadHeader, ReadDetails, HeaderShown, DetailsShown;
    hide EventText, JsonParser.Parse;
    EventRoundTrip(ev);
    EventMarks(ev);
    var ms := EventTree(ev).members;
    HeaderRead(ms, ev);
    DetailsRead(ms, ev);
  }
}
