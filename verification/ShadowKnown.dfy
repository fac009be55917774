/** Why every inserted load is legal: the table of known slots never claims more than the
    local variables hold. */
module ShadowKnown {
  import opened Bytecode
  import opened ShadowTransform
  import opened ShadowMachine

  /** Every entry's slot holds, in its lower half, a value of the entry's kind. */
  ghost predicate Holds(es: seq<Entry>, locals: Locals) {
    forall e :: e in es ==> HoldsKind(locals, e.slot, e.kind)
  }

  /** Recording a store keeps the table true, wide values included. */
  lemma {:induction false} RecordStoreHolds(es: seq<Entry>, locals: Locals, slot: nat, v: Value)
    requires Holds(es, locals)
    ensures Holds(RecordStore(es, slot, v.kind), SetLocal(locals, slot, v))
  {
    var es', locals' := RecordStore(es, slot, v.kind), SetLocal(locals, slot, v);
    forall e | e in es' ensures HoldsKind(locals', e.slot, e.kind) {
      if e != Entry(slot, v.kind) {
        assert e in es && e.slot != slot;
        assert HoldsKind(locals, e.slot, e.kind);
        if e.slot + 1 == slot && e.kind.Wide() {
          assert WideAt(es, slot - 1);
        }
      }
    }
  }

  /** Every element keeps the table true of the locals it leaves. */
  lemma {:induction false} AdvanceHolds(es: seq<Entry>, i: Instr, f: Frame, rows: seq<Row>)
    requires Holds(es, f.locals) && IsLocal(i) && LocalStep(i, f, rows).Ok?
    ensures Holds(Advance(es, i), LocalStep(i, f, rows).frame.locals)
  {
    match i
    case Store(slot, kind) => RecordStoreHolds(es, f.locals, slot, f.stack[|f.stack| - 1]);
    case Increment(slot, delta) =>
      RecordStoreHolds(es, f.locals, slot, Value(KInt, Wrap32(f.locals[slot].v.bits + delta)));
    case _ =>
  }

  lemma {:induction false} BindArgsHolds(done: seq<Entry>, es: seq<Entry>, locals: Locals, args: seq<Value>)
    requires Disjoint(done + es) && ArgsFit(es, args) && Holds(done, locals)
    ensures Holds(done + es, BindArgs(locals, es, args))
    decreases |es|
  {
    if es == [] {
      assert done + es == done;
    } else {
      var locals' := SetLocal(locals, es[0].slot, args[0]);
      forall e | e in done + [es[0]] ensures HoldsKind(locals', e.slot, e.kind) {
        if e in done {
          var i :| 0 <= i < |done| && done[i] == e;
          assert (done + es)[i] == e && (done + es)[|done|] == es[0];
          assert e.slot + Width(e.kind) <= es[0].slot;
        }
      }
      assert done + es == (done + [es[0]]) + es[1..];
      BindArgsHolds(done + [es[0]], es[1..], locals', args[1..]);
    }
  }

  /** At entry, the parameters are where the table says they are. */
  lemma {:induction false} ParamsHold(p: Program, m: nat, args: seq<Value>)
    requires m < |p| && ArgsFit(Params(p[m]), args)
    ensures Holds(Params(p[m]), Activation(p, m, args).locals)
  {
    ParamSlotsDisjoint(p[m].isStatic, p[m].params);
    assert [] + Params(p[m]) == Params(p[m]);
    BindArgsHolds([], Params(p[m]), map[], args);
  }

  // ---- Running the inserted captures ----

  function CaptureAll(rows: seq<Row>, es: seq<Entry>, locals: Locals): seq<Row>
    requires Holds(es, locals)
    decreases |es|
  {
    if es == [] then rows
    else CaptureAll(WriteTop(rows, es[0].slot, locals[es[0].slot].v), es[1..], locals)
  }

  /** The row holds the current value of every listed slot. */
  ghost predicate Current(es: seq<Entry>, locals: Locals, row: Row)
    requires Holds(es, locals)
  {
    forall e :: e in es ==> e.slot in row && row[e.slot] == locals[e.slot].v
  }

  lemma {:induction false} CaptureAllCurrent(rows: seq<Row>, done: seq<Entry>, es: seq<Entry>, locals: Locals)
    requires Holds(done, locals) && Holds(es, locals)
    requires rows != [] && Current(done, locals, rows[|rows| - 1])
    ensures
      var rows' := CaptureAll(rows, es, locals);
      && |rows'| == |rows| && rows'[..|rows| - 1] == rows[..|rows| - 1]
      && Current(done, locals, rows'[|rows| - 1])
      && Current(es, locals, rows'[|rows| - 1])
    decreases |es|
  {
    if es != [] {
      var rows' := WriteTop(rows, es[0].slot, locals[es[0].slot].v);
      assert rows'[|rows| - 1] == rows[|rows| - 1][es[0].slot := locals[es[0].slot].v];
      CaptureAllCurrent(rows', done + [es[0]], es[1..], locals);
      forall e | e in es
        ensures
          var row := CaptureAll(rows, es, locals)[|rows| - 1];
          e.slot in row && row[e.slot] == locals[e.slot].v
      {
        if e == es[0] { assert e in done + [es[0]]; } else { assert e in es[1..]; }
      }
      assert forall e :: e in done ==> e in done + [es[0]];
    }
  }

  /** The state after the captures: only pc and the top row differ. */
  function Captured(t: State, es: seq<Entry>): State
    requires t.frames != [] && Holds(es, t.Top().locals)
  {
    t.WithTop(t.Top().(pc := t.Top().pc + 3 * |es|)).(rows := CaptureAll(t.rows, es, t.Top().locals))
  }

  function CapturedOne(t: State, e: Entry): State
    requires t.frames != [] && HoldsKind(t.Top().locals, e.slot, e.kind)
  {
    t.WithTop(t.Top().(pc := t.Top().pc + 3)).(rows := WriteTop(t.rows, e.slot, t.Top().locals[e.slot].v))
  }

  lemma {:induction false} CapturedNone(t: State)
    requires t.frames != []
    ensures Captured(t, []) == t
  {
    assert t.frames == t.frames[..|t.frames| - 1] + [t.Top()];
  }

  lemma {:induction false} CapturedSplit(t: State, es: seq<Entry>)
    requires t.frames != [] && Holds(es, t.Top().locals) && es != []
    ensures Captured(CapturedOne(t, es[0]), es[1..]) == Captured(t, es)
  {
  }

  lemma {:induction false} CaptureCodeSplit(body: seq<Instr>, pc: nat, es: seq<Entry>)
    requires es != [] && pc + 3 * |es| <= |body| && body[pc..pc + 3 * |es|] == Captures(es)
    ensures body[pc..pc + 3] == CaptureOf(es[0])
    ensures body[pc + 3..pc + 3 * |es|] == Captures(es[1..])
  {
    var code := body[pc..pc + 3 * |es|];
    assert code[..3] == CaptureOf(es[0]) && code[3..] == Captures(es[1..]);
    assert body[pc..pc + 3] == code[..3];
    assert body[pc + 3..pc + 3 * |es|] == code[3..];
  }

  lemma {:induction false} CapturesLength(es: seq<Entry>)
    ensures |Captures(es)| == 3 * |es|
  {
  }

  ghost predicate AtCode(q: Program, t: State, code: seq<Instr>) {
    && t.frames != [] && t.mode.Normal? && t.Top().m < |q|
    && t.Top().pc + |code| <= |q[t.Top().m].body|
    && q[t.Top().m].body[t.Top().pc..t.Top().pc + |code|] == code
  }

  /** The step of an inserted element that is legal where it is. */
  lemma {:induction false} StepInserted(q: Program, sem: Semantics, t: State, f': Frame, rows': seq<Row>)
    requires t.frames != [] && t.mode.Normal? && t.Top().m < |q| && t.Top().pc < |q[t.Top().m].body|
    requires
      var i := q[t.Top().m].body[t.Top().pc];
      (i.Inserted() || i.LabelTarget?) && IsLocal(i) && LocalStep(i, t.Top(), t.rows) == Ok(f', rows')
    ensures Step(q, sem, Running(t)) == Running(t.WithTop(f').(rows := rows'))
  {
  }

  /** One capture: three legal steps that write the slot's current value. */
  lemma {:induction false} CaptureOneRuns(q: Program, sem: Semantics, t: State, e: Entry)
    requires AtCode(q, t, CaptureOf(e)) && HoldsKind(t.Top().locals, e.slot, e.kind)
    ensures Run(q, sem, Running(t), 3)
         == Running(CapturedOne(t, e))
  {
    hide Step, LocalStep;
    var f, v := t.Top(), t.Top().locals[e.slot].v;
    var f1 := f.(pc := f.pc + 1, stack := f.stack + [Value(KInt, e.slot)]);
    var f2 := f.(pc := f.pc + 2, stack := f.stack + [Value(KInt, e.slot)] + [v]);
    var f3 := f.(pc := f.pc + 3);
    CaptureElements(q[f.m].body, f.pc, e);
    CaptureSteps(e, f, t.rows);
    StepInserted(q, sem, t, f1, t.rows);
    StepInserted(q, sem, t.WithTop(f1), f2, t.rows);
    StepInserted(q, sem, t.WithTop(f2), f3, WriteTop(t.rows, e.slot, v));
    TopReplaced(t, f1, f2, t.rows);
    TopReplaced(t, f2, f3, WriteTop(t.rows, e.slot, v));
    RunThree(q, sem, Running(t));
  }

  lemma {:induction false} CaptureElements(body: seq<Instr>, pc: nat, e: Entry)
    requires pc + 3 <= |body| && body[pc..pc + 3] == CaptureOf(e)
    ensures body[pc] == InsertedConst(e.slot) && body[pc + 1] == InsertedLoad(e.slot, e.kind)
    ensures body[pc + 2] == InsertedCall(Capture(e.kind))
  {
    var code := body[pc..pc + 3];
    assert code[0] == body[pc] && code[1] == body[pc + 1] && code[2] == body[pc + 2];
  }

  /** The three elements of a capture, one after the other. */
  lemma {:induction false} CaptureSteps(e: Entry, f: Frame, rows: seq<Row>)
    requires HoldsKind(f.locals, e.slot, e.kind)
    ensures
      var v := f.locals[e.slot].v;
      var f1 := f.(pc := f.pc + 1, stack := f.stack + [Value(KInt, e.slot)]);
      var f2 := f.(pc := f.pc + 2, stack := f.stack + [Value(KInt, e.slot)] + [v]);
      && LocalStep(InsertedConst(e.slot), f, rows) == Ok(f1, rows)
      && LocalStep(InsertedLoad(e.slot, e.kind), f1, rows) == Ok(f2, rows)
      && LocalStep(InsertedCall(Capture(e.kind)), f2, rows) == Ok(f.(pc := f.pc + 3), WriteTop(rows, e.slot, v))
  {
    hide WriteTop;
    var v := f.locals[e.slot].v;
    assert (f.stack + [Value(KInt, e.slot)] + [v])[..|f.stack|] == f.stack;
  }

  lemma {:induction false} TopReplaced(t: State, f: Frame, g: Frame, rows: seq<Row>)
    requires t.frames != []
    ensures t.WithTop(f).WithTop(g) == t.WithTop(g)
    ensures t.WithTop(f).(rows := t.rows) == t.WithTop(f)
    ensures t.WithTop(f).WithTop(g).(rows := rows) == t.WithTop(g).(rows := rows)
  {
  }

  lemma {:induction false} CapturesCompose(q: Program, sem: Semantics, t: State, es: seq<Entry>, k: nat, n: nat)
    requires t.frames != [] && es != [] && Holds(es, t.Top().locals)
    requires Run(q, sem, Running(t), k) == Running(CapturedOne(t, es[0]))
    requires Run(q, sem, Running(CapturedOne(t, es[0])), n) == Running(Captured(CapturedOne(t, es[0]), es[1..]))
    ensures Run(q, sem, Running(t), k + n) == Running(Captured(t, es))
  {
    CapturedSplit(t, es);
    RunSplit(q, sem, Running(t), k, Running(CapturedOne(t, es[0])), n, Running(Captured(t, es)));
  }

  /** Captures of held slots never fail, and change only the top row. */
  lemma {:induction false} CapturesRun(q: Program, sem: Semantics, t: State, es: seq<Entry>, n: nat)
    requires n == 3 * |es| && AtCode(q, t, Captures(es)) && Holds(es, t.Top().locals)
    ensures Run(q, sem, Running(t), n) == Running(Captured(t, es))
    decreases |es|
  {
    hide Step, Run, Captures, CaptureAll, LocalStep;
    if es == [] {
      CapturedNone(t);
      RunZero(q, sem, Running(t));
    } else {
      CaptureCodeSplit(q[t.Top().m].body, t.Top().pc, es);
      CaptureOneRuns(q, sem, t, es[0]);
      CapturesRun(q, sem, CapturedOne(t, es[0]), es[1..], n - 3);
      CapturesCompose(q, sem, t, es, 3, n - 3);
    }
  }
}
