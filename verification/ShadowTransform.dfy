/** The per-method capture transform: what it inserts, and where.

    The functions specify the code that is inserted for each element; the classes are the
    transform itself, which updates its table of known slots and appends to a builder. */
module ShadowTransform {
  import opened Bytecode

  // ---- Parameter slots ----

  /** A slot known to hold a value of a kind. */
  datatype Entry = Entry(slot: nat, kind: Kind)

  /** int covers boolean, byte, short and char. */
  function StoreKind(t: TypeKind): Kind {
    match t
    case TLong => KLong
    case TFloat => KFloat
    case TDouble => KDouble
    case TReference => KRef
    case _ => KInt
  }

  function SlotsFrom(slot: nat, params: seq<TypeKind>): seq<Entry>
    decreases |params|
  {
    if params == [] then []
    else [Entry(slot, StoreKind(params[0]))] + SlotsFrom(slot + params[0].SlotSize(), params[1..])
  }

  function ParamSlots(isStatic: bool, params: seq<TypeKind>): seq<Entry> {
    if isStatic then SlotsFrom(0, params) else [Entry(0, KRef)] + SlotsFrom(1, params)
  }

  /** Entries lie in increasing slots and none reaches into the next one. */
  ghost predicate Disjoint(es: seq<Entry>) {
    forall i, j :: 0 <= i < j < |es| ==> es[i].slot + Width(es[i].kind) <= es[j].slot
  }

  function Width(k: Kind): nat { if k.Wide() then 2 else 1 }

  lemma {:induction false} SlotsFromDisjoint(slot: nat, params: seq<TypeKind>)
    ensures Disjoint(SlotsFrom(slot, params))
    ensures forall e :: e in SlotsFrom(slot, params) ==> slot <= e.slot
    decreases |params|
  {
    if params != [] {
      var next := slot + params[0].SlotSize();
      SlotsFromDisjoint(next, params[1..]);
      var es, rest := SlotsFrom(slot, params), SlotsFrom(next, params[1..]);
      forall i, j | 0 <= i < j < |es|
        ensures es[i].slot + Width(es[i].kind) <= es[j].slot
      {
        assert es[j] == rest[j - 1];
        if i > 0 { assert es[i] == rest[i - 1]; }
      }
    }
  }

  lemma {:induction false} ParamSlotsDisjoint(isStatic: bool, params: seq<TypeKind>)
    ensures Disjoint(ParamSlots(isStatic, params))
  {
    SlotsFromDisjoint(if isStatic then 0 else 1, params);
    if !isStatic {
      var es, rest := ParamSlots(false, params), SlotsFrom(1, params);
      forall i, j | 0 <= i < j < |es|
        ensures es[i].slot + Width(es[i].kind) <= es[j].slot
      {
        assert es[j] == rest[j - 1];
        if i > 0 { assert es[i] == rest[i - 1]; }
      }
    }
  }

  // ---- The table of known slots: an insertion-ordered map ----

  predicate WideAt(es: seq<Entry>, slot: nat) {
    exists e :: e in es && e.slot == slot && e.kind.Wide()
  }

  function Remove(es: seq<Entry>, slot: nat): (r: seq<Entry>)
    ensures forall e :: e in r <==> e in es && e.slot != slot
    ensures |r| <= |es|
  {
    if es == [] then []
    else if es[0].slot == slot then Remove(es[1..], slot)
    else [es[0]] + Remove(es[1..], slot)
  }

  /** Overwriting a present key keeps its place in the order. */
  function Put(es: seq<Entry>, slot: nat, kind: Kind): (r: seq<Entry>)
    ensures forall e :: e in r <==> e == Entry(slot, kind) || (e in es && e.slot != slot)
  {
    if es == [] then [Entry(slot, kind)]
    else if es[0].slot == slot then [Entry(slot, kind)] + Remove(es[1..], slot)
    else [es[0]] + Put(es[1..], slot, kind)
  }

  function RecordStore(known: seq<Entry>, slot: nat, kind: Kind): seq<Entry> {
    var below := if slot > 0 && WideAt(known, slot - 1) then Remove(known, slot - 1) else known;
    var above := if kind.Wide() then Remove(below, slot + 1) else below;
    Put(above, slot, kind)
  }

  // ---- What is inserted ----

  predicate ThrowCapable(i: Instr) {
    i.Invoke? || i.Field? || i.ArrayLoad? || i.ArrayStore?
  }

  /** The table after an element. */
  function Advance(known: seq<Entry>, i: Instr): seq<Entry> {
    match i
    case LabelTarget(_) => []
    case Store(slot, kind) => RecordStore(known, slot, kind)
    case Increment(slot, _) => RecordStore(known, slot, KInt)
    case _ => known
  }

  function CaptureOf(e: Entry): seq<Instr> {
    [InsertedConst(e.slot), InsertedLoad(e.slot, e.kind), InsertedCall(Capture(e.kind))]
  }

  function Captures(es: seq<Entry>): (r: seq<Instr>)
    ensures |r| == 3 * |es|
    ensures forall i :: i in r ==> i.Inserted()
  {
    if es == [] then [] else CaptureOf(es[0]) + Captures(es[1..])
  }

  /** What is inserted before an element. */
  function Before(known: seq<Entry>, i: Instr): (r: seq<Instr>)
    ensures forall x :: x in r ==> x.Inserted()
  {
    if i.Return? then [InsertedCall(ExitMethod)]
    else if ThrowCapable(i) then Captures(known)
    else []
  }

  /** An element with what is inserted before it. */
  function Expansion(known: seq<Entry>, i: Instr): seq<Instr> {
    Before(known, i) + [i]
  }

  function Prologue(params: seq<Entry>): seq<Instr> {
    [LabelTarget(TryStart), InsertedCall(EnterMethod)] + Captures(params)
  }

  function Epilogue(): seq<Instr> {
    [LabelTarget(TryEnd), LabelTarget(CatchAll), InsertedCall(ExitMethod), InsertedRethrow]
  }

  /** The table before element n of a body. */
  function KnownAt(params: seq<Entry>, body: seq<Instr>, n: nat): seq<Entry>
    requires n <= |body|
  {
    if n == 0 then params else Advance(KnownAt(params, body, n - 1), body[n - 1])
  }

  function Expand(params: seq<Entry>, body: seq<Instr>, n: nat): seq<Instr>
    requires n <= |body|
  {
    if n == 0 then []
    else Expand(params, body, n - 1) + Expansion(KnownAt(params, body, n - 1), body[n - 1])
  }

  const CATCH_ALL_ENTRY := Handler(TryStart, TryEnd, CatchAll, true, 0)

  function TransformBody(params: seq<Entry>, body: seq<Instr>): seq<Instr> {
    Prologue(params) + Expand(params, body, |body|) + Epilogue()
  }

  /** An eligible method is rewritten, any other is kept. */
  function TransformMethod(m: Method): Method {
    if m.eligible
    then m.(body := TransformBody(ParamSlots(m.isStatic, m.params), m.body), table := m.table + [CATCH_ALL_ENTRY])
    else m
  }

  function TransformProgram(p: Program): (q: Program)
    ensures |q| == |p|
    ensures forall i :: 0 <= i < |p| ==> q[i] == TransformMethod(p[i])
  {
    seq(|p|, i requires 0 <= i < |p| => TransformMethod(p[i]))
  }

  // ---- The transform ----

  /** The code being built: elements and exception table. */
  class CodeBuilder {
    var code: seq<Instr>
    var table: seq<Handler>

    constructor (table: seq<Handler>)
      ensures code == [] && this.table == table
    {
      code := [];
      this.table := table;
    }

    method With(i: Instr)
      modifies this
      ensures code == old(code) + [i] && table == old(table)
    {
      code := code + [i];
    }

    method ExceptionCatchAll(start: LabelId, end: LabelId, target: LabelId)
      modifies this
      ensures table == old(table) + [Handler(start, end, target, true, 0)] && code == old(code)
    {
      table := table + [Handler(start, end, target, true, 0)];
    }
  }

  class ShadowCodeTransform {
    var known: seq<Entry>
    const params: seq<Entry>
    var tryStart: LabelId

    constructor (params: seq<Entry>)
      requires Disjoint(params)
      ensures this.params == params && known == params
    {
      this.params := params;
      known := [];
      new;
      for i := 0 to |params|
        invariant known == params[..i]
      {
        PutFresh(params[..i], params[i]);
        known := Put(known, params[i].slot, params[i].kind);
        assert params[..i + 1] == params[..i] + [params[i]];
      }
    }

    method AtStart(cb: CodeBuilder)
      requires cb as object != this
      modifies this`tryStart, cb
      ensures tryStart == TryStart
      ensures cb.code == old(cb.code) + Prologue(params) && cb.table == old(cb.table)
    {
      tryStart := TryStart;
      cb.With(LabelTarget(tryStart));
      cb.With(InsertedCall(EnterMethod));
      EmitCaptures(cb, params);
    }

    /** One capture sequence per entry, in order. */
    method EmitCaptures(cb: CodeBuilder, es: seq<Entry>)
      modifies cb
      ensures cb.code == old(cb.code) + Captures(es) && cb.table == old(cb.table)
    {
      for i := 0 to |es|
        invariant cb.code == old(cb.code) + Captures(es[..i]) && cb.table == old(cb.table)
      {
        EmitCapture(cb, es[i].slot, es[i].kind);
        CapturesAppend(es[..i], es[i]);
        assert es[..i + 1] == es[..i] + [es[i]];
      }
      assert es[..|es|] == es;
    }

    static method EmitCapture(cb: CodeBuilder, slot: nat, kind: Kind)
      modifies cb
      ensures cb.code == old(cb.code) + CaptureOf(Entry(slot, kind)) && cb.table == old(cb.table)
    {
      cb.With(InsertedConst(slot));
      cb.With(InsertedLoad(slot, kind));
      cb.With(InsertedCall(Capture(kind)));
    }

    method AtEnd(cb: CodeBuilder)
      requires tryStart == TryStart
      modifies cb
      ensures cb.code == old(cb.code) + Epilogue() && cb.table == old(cb.table) + [CATCH_ALL_ENTRY]
    {
      cb.With(LabelTarget(TryEnd));
      cb.ExceptionCatchAll(tryStart, TryEnd, CatchAll);
      cb.With(LabelTarget(CatchAll));
      cb.With(InsertedCall(ExitMethod));
      cb.With(InsertedRethrow);
    }

    method Accept(cb: CodeBuilder, e: Instr)
      requires cb as object != this
      modifies this`known, cb
      ensures known == Advance(old(known), e)
      ensures cb.code == old(cb.code) + Expansion(old(known), e) && cb.table == old(cb.table)
    {
      if e.LabelTarget? {
        known := [];
        cb.With(e);
        return;
      }
      if e.Store? {
        cb.With(e);
        NoteStore(e.slot, e.kind);
        return;
      }
      if e.Increment? {
        cb.With(e);
        NoteStore(e.slot, KInt);
        return;
      }
      if e.Return? {
        cb.With(InsertedCall(ExitMethod));
        cb.With(e);
        return;
      }
      if ThrowCapable(e) {
        EmitCaptures(cb, known);
      }
      cb.With(e);
    }

    method NoteStore(slot: nat, kind: Kind)
      modifies this`known
      ensures known == RecordStore(old(known), slot, kind)
    {
      if slot > 0 && WideAt(known, slot - 1) {
        known := Remove(known, slot - 1);
      }
      if kind.Wide() {
        known := Remove(known, slot + 1);
      }
      known := Put(known, slot, kind);
    }
  }

  lemma {:induction false} PutFresh(es: seq<Entry>, e: Entry)
    requires forall i :: 0 <= i < |es| ==> es[i].slot != e.slot
    ensures Put(es, e.slot, e.kind) == es + [e]
  {
    if es != [] {
      PutFresh(es[1..], e);
    }
  }

  lemma {:induction false} CapturesAppend(es: seq<Entry>, e: Entry)
    ensures Captures(es + [e]) == Captures(es) + CaptureOf(e)
  {
    if es == [] {
      assert Captures([e]) == CaptureOf(e) + Captures([]);
    } else {
      assert (es + [e])[1..] == es[1..] + [e];
      CapturesAppend(es[1..], e);
    }
  }

  /** Runs the transform over a method as the class-file library drives it: the start
      hook, every element in order, the end hook. */
  method TransformCode(m: Method) returns (r: Method)
    ensures r == TransformMethod(m)
  {
    if !m.eligible { return m; }
    var params := ComputeParamSlots(m.isStatic, m.params);
    ParamSlotsDisjoint(m.isStatic, m.params);
    var cb := new CodeBuilder(m.table);
    var t := new ShadowCodeTransform(params);
    t.AtStart(cb);
    assert cb.code == Prologue(params);
    AcceptAll(t, cb, m.body);
    assert cb.code == Prologue(params) + Expand(params, m.body, |m.body|);
    t.AtEnd(cb);
    assert cb.code == TransformBody(params, m.body);
    r := m.(body := cb.code, table := cb.table);
  }

  method AcceptAll(t: ShadowCodeTransform, cb: CodeBuilder, body: seq<Instr>)
    requires t.known == t.params && cb as object != t
    modifies t`known, cb
    ensures cb.code == old(cb.code) + Expand(t.params, body, |body|) && cb.table == old(cb.table)
  {
    hide Advance, Expansion;
    ghost var before := cb.code;
    for i := 0 to |body|
      invariant t.known == KnownAt(t.params, body, i)
      invariant cb.code == before + Expand(t.params, body, i) && cb.table == old(cb.table)
    {
      t.Accept(cb, body[i]);
      assert cb.code == before + (Expand(t.params, body, i) + Expansion(KnownAt(t.params, body, i), body[i]));
    }
  }

  method ComputeParamSlots(isStatic: bool, params: seq<TypeKind>) returns (out: seq<Entry>)
    ensures out == ParamSlots(isStatic, params)
  {
    out := [];
    var slot: nat := 0;
    if !isStatic {
      out := out + [Entry(slot, KRef)];
      slot := slot + 1;
    }
    for i := 0 to |params|
      invariant out + SlotsFrom(slot, params[i..]) == ParamSlots(isStatic, params)
    {
      assert params[i..][1..] == params[i + 1..];
      out := out + [Entry(slot, StoreKind(params[i]))];
      slot := slot + params[i].SlotSize();
    }
  }
}
