/** A small-step machine for one thread running a program, and the shadow stack beside it.

    The machine runs original and transformed programs alike: an inserted call acts on the
    shadow stack, everything else acts on frames and on the world (heap, statics, other
    threads), which the shadow stack is not part of. */
module ShadowMachine {
  import opened Bytecode
  import opened ShadowTransform

  type World(!new)

  /** What an opaque element does, given the operand stack and the world. */
  datatype Effect =
    | Continue(stack: seq<Value>, world: World)
    | Jump(choice: nat, stack: seq<Value>, world: World)
    | Call(callee: nat, args: seq<Value>, rest: seq<Value>, world: World)
    | Raise(exc: int, world: World)
    | Wrong

  /** The meaning of the opaque elements and of the catch types; any pair of functions. */
  datatype Semantics = Semantics(effect: (Instr, seq<Value>, World) -> Effect,
                                 catches: (nat, int, World) -> bool)

  /** An activation.  While it is suspended in a call, pc stays at the call. */
  datatype Frame = Frame(m: nat, pc: nat, locals: Locals, stack: seq<Value>)

  datatype Mode = Normal | Unwinding(exc: int)

  datatype Outcome = Returned(result: seq<Value>) | Threw(exc: int)

  /** One original instruction, as executed. */
  datatype Observation = Observation(m: nat, instr: Instr, locals: Locals, stack: seq<Value>, world: World)

  /** One activation's captured slots. */
  type Row = map<nat, Value>

  /** The activations (top last), the world, the shadow stack and what has been executed. */
  datatype State = State(frames: seq<Frame>, mode: Mode, world: World, rows: seq<Row>, log: seq<Observation>)
  {
    function Top(): Frame
      requires frames != []
    {
      frames[|frames| - 1]
    }

    function WithTop(f: Frame): State
      requires frames != []
    {
      this.(frames := frames[..|frames| - 1] + [f])
    }
  }

  datatype Config =
    | Running(s: State)
    | Finished(outcome: Outcome, world: World, rows: seq<Row>, log: seq<Observation>)
    | Stuck

  function Exception(exc: int): Value { Value(KRef, exc) }

  // ---- The unbounded shadow stack ----

  function Enter(rows: seq<Row>): seq<Row> { rows + [map[]] }

  function Exit(rows: seq<Row>): seq<Row> {
    if rows == [] then rows else rows[..|rows| - 1]
  }

  function WriteTop(rows: seq<Row>, slot: nat, v: Value): seq<Row> {
    if rows == [] then rows else rows[..|rows| - 1] + [rows[|rows| - 1][slot := v]]
  }

  // ---- Starting an activation ----

  /** Arguments match the parameters in number and kind. */
  predicate ArgsFit(es: seq<Entry>, args: seq<Value>) {
    |es| == |args| && forall i :: 0 <= i < |es| ==> args[i].kind == es[i].kind
  }

  function BindArgs(locals: Locals, es: seq<Entry>, args: seq<Value>): Locals
    requires |es| == |args|
    decreases |es|
  {
    if es == [] then locals else BindArgs(SetLocal(locals, es[0].slot, args[0]), es[1..], args[1..])
  }

  function Params(m: Method): seq<Entry> { ParamSlots(m.isStatic, m.params) }

  function Activation(p: Program, m: nat, args: seq<Value>): Frame
    requires m < |p| && ArgsFit(Params(p[m]), args)
  {
    Frame(m, 0, BindArgs(map[], Params(p[m]), args), [])
  }

  // ---- Steps ----

  /** The 32-bit two's complement value of an integer. */
  function Wrap32(n: int): int {
    var r := n % 0x1_0000_0000;
    if r < 0x8000_0000 then r else r - 0x1_0000_0000
  }

  /** An element that only touches the frame and the shadow stack; None when it is not
      legal there. */
  datatype LocalResult = Ok(frame: Frame, rows: seq<Row>) | Illegal

  function LocalStep(i: Instr, f: Frame, rows: seq<Row>): LocalResult {
    var n := |f.stack|;
    match i
    case LabelTarget(_) => Ok(f.(pc := f.pc + 1), rows)
    case Store(slot, kind) =>
      if n > 0 && f.stack[n - 1].kind == kind
      then Ok(f.(pc := f.pc + 1, stack := f.stack[..n - 1], locals := SetLocal(f.locals, slot, f.stack[n - 1])), rows)
      else Illegal
    case Load(slot, kind) =>
      if HoldsKind(f.locals, slot, kind)
      then Ok(f.(pc := f.pc + 1, stack := f.stack + [f.locals[slot].v]), rows)
      else Illegal
    case Increment(slot, delta) =>
      if HoldsKind(f.locals, slot, KInt)
      then
        var sum := Value(KInt, Wrap32(f.locals[slot].v.bits + delta));
        Ok(f.(pc := f.pc + 1, locals := SetLocal(f.locals, slot, sum)), rows)
      else Illegal
    case InsertedConst(value) => Ok(f.(pc := f.pc + 1, stack := f.stack + [Value(KInt, value)]), rows)
    case InsertedLoad(slot, kind) =>
      if HoldsKind(f.locals, slot, kind)
      then Ok(f.(pc := f.pc + 1, stack := f.stack + [f.locals[slot].v]), rows)
      else Illegal
    case InsertedCall(EnterMethod) => Ok(f.(pc := f.pc + 1), Enter(rows))
    case InsertedCall(ExitMethod) => Ok(f.(pc := f.pc + 1), Exit(rows))
    case InsertedCall(Capture(kind)) =>
      if n > 1 && f.stack[n - 1].kind == kind && f.stack[n - 2].kind == KInt && f.stack[n - 2].bits >= 0
      then Ok(f.(pc := f.pc + 1, stack := f.stack[..n - 2]), WriteTop(rows, f.stack[n - 2].bits, f.stack[n - 1]))
      else Illegal
    case _ => Illegal
  }

  predicate IsLocal(i: Instr) {
    i.LabelTarget? || i.Store? || i.Load? || i.Increment? || i.InsertedConst? || i.InsertedLoad? || i.InsertedCall?
  }

  /** Leaving the top activation with a result. */
  function ReturnStep(s: State, result: seq<Value>): Config
    requires s.frames != []
  {
    var below := s.frames[..|s.frames| - 1];
    if below == [] then Finished(Returned(result), s.world, s.rows, s.log)
    else
      var caller := below[|below| - 1];
      Running(s.(frames := below[..|below| - 1] + [caller.(pc := caller.pc + 1, stack := caller.stack + result)]))
  }

  function EffectStep(p: Program, i: Instr, e: Effect, s: State): Config
    requires s.frames != [] && s.Top().m < |p|
  {
    var f := s.Top();
    match e
    case Continue(stack, w) =>
      Running(s.WithTop(f.(pc := f.pc + 1, stack := stack)).(world := w))
    case Jump(choice, stack, w) =>
      if i.Branch? && choice < |i.targets| && Bound(p[f.m].body, i.targets[choice])
      then Running(s.WithTop(f.(pc := IndexOf(p[f.m].body, i.targets[choice]), stack := stack)).(world := w))
      else Stuck
    case Call(callee, args, rest, w) =>
      if i.Invoke? && callee < |p| && ArgsFit(Params(p[callee]), args)
      then
        var suspended := s.WithTop(f.(stack := rest));
        Running(suspended.(frames := suspended.frames + [Activation(p, callee, args)], world := w))
      else Stuck
    case Raise(exc, w) => Running(s.(mode := Unwinding(exc), world := w))
    case Wrong => Stuck
  }

  predicate Covers(code: seq<Instr>, h: Handler, pc: nat) {
    IndexOf(code, h.start) <= pc < IndexOf(code, h.end)
  }

  /** The first entry of the table, in order, that covers pc and catches exc. */
  function FindHandler(sem: Semantics, code: seq<Instr>, table: seq<Handler>, pc: nat, exc: int, w: World): (r: nat)
    ensures r <= |table|
    decreases |table|
  {
    if table == [] then 0
    else if Covers(code, table[0], pc) && (table[0].catchAll || sem.catches(table[0].catchType, exc, w)) then 0
    else 1 + FindHandler(sem, code, table[1..], pc, exc, w)
  }

  function UnwindStep(p: Program, sem: Semantics, s: State): Config
    requires s.frames != [] && s.mode.Unwinding? && s.Top().m < |p|
  {
    var f, exc := s.Top(), s.mode.exc;
    var m := p[f.m];
    var h := FindHandler(sem, m.body, m.table, f.pc, exc, s.world);
    if h < |m.table| then
      Running(s.WithTop(f.(pc := IndexOf(m.body, m.table[h].target), stack := [Exception(exc)])).(mode := Normal))
    else if |s.frames| == 1 then Finished(Threw(exc), s.world, s.rows, s.log)
    else Running(s.(frames := s.frames[..|s.frames| - 1]))
  }

  function Noted(i: Instr, s: State): State
    requires s.frames != []
  {
    var f := s.Top();
    if i.Inserted() || i.LabelTarget? then s
    else s.(log := s.log + [Observation(f.m, i, f.locals, f.stack, s.world)])
  }

  function InstrStep(p: Program, sem: Semantics, s: State): Config
    requires s.frames != [] && s.Top().m < |p| && s.Top().pc < |p[s.Top().m].body|
  {
    var f := s.Top();
    var i := p[f.m].body[f.pc];
    var n := |f.stack|;
    var noted := Noted(i, s);
    if IsLocal(i) then
      match LocalStep(i, f, s.rows)
      case Ok(f', rows') => Running(noted.WithTop(f').(rows := rows'))
      case Illegal => Stuck
    else if i.Return? then
      if i.void then ReturnStep(noted, [])
      else if n > 0 then ReturnStep(noted, [f.stack[n - 1]])
      else Stuck
    else if i.InsertedRethrow? then
      if n > 0 && f.stack[n - 1].kind == KRef then Running(noted.(mode := Unwinding(f.stack[n - 1].bits))) else Stuck
    else EffectStep(p, i, sem.effect(i, f.stack, s.world), noted)
  }

  function Step(p: Program, sem: Semantics, c: Config): Config {
    if !c.Running? then c
    else if c.s.frames == [] || c.s.Top().m >= |p| then Stuck
    else if c.s.mode.Unwinding? then UnwindStep(p, sem, c.s)
    else if c.s.Top().pc < |p[c.s.Top().m].body| then InstrStep(p, sem, c.s)
    else Stuck
  }

  function Stepper(p: Program, sem: Semantics): Config -> Config { c => Step(p, sem, c) }

  function Iterate<C>(step: C -> C, c: C, n: nat): C
    decreases n
  {
    if n == 0 then c else Iterate(step, step(c), n - 1)
  }

  function Run(p: Program, sem: Semantics, c: Config, n: nat): Config {
    Iterate(Stepper(p, sem), c, n)
  }

  /** The first activation of a run, on a thread whose shadow stack is rows. */
  function Start(p: Program, m: nat, args: seq<Value>, w: World, rows: seq<Row>): Config
    requires m < |p| && ArgsFit(Params(p[m]), args)
  {
    Running(State([Activation(p, m, args)], Normal, w, rows, []))
  }

  lemma {:induction false} IterateAppend<C>(step: C -> C, c: C, a: nat, b: nat)
    ensures Iterate(step, Iterate(step, c, a), b) == Iterate(step, c, a + b)
    decreases a
  {
    if a > 0 {
      IterateAppend(step, step(c), a - 1, b);
    }
  }

  lemma {:induction false} IterateFixed<C>(step: C -> C, c: C, n: nat)
    requires step(c) == c
    ensures Iterate(step, c, n) == c
    decreases n
  {
    if n > 0 {
      IterateFixed(step, c, n - 1);
    }
  }

  lemma {:induction false} RunSplit(q: Program, sem: Semantics, c: Config, a: nat, c': Config, b: nat, c'': Config)
    requires Run(q, sem, c, a) == c' && Run(q, sem, c', b) == c''
    ensures Run(q, sem, c, a + b) == c''
  {
    IterateAppend(Stepper(q, sem), c, a, b);
  }

  lemma {:induction false} RunZero(q: Program, sem: Semantics, c: Config)
    ensures Run(q, sem, c, 0) == c
  {
  }

  lemma {:induction false} RunOne(q: Program, sem: Semantics, c: Config)
    ensures Run(q, sem, c, 1) == Step(q, sem, c)
  {
    var step := Stepper(q, sem);
    assert Iterate(step, step(c), 0) == step(c);
  }

  lemma {:induction false} RunTwo(q: Program, sem: Semantics, c: Config)
    ensures Run(q, sem, c, 2) == Step(q, sem, Step(q, sem, c))
  {
    var step := Stepper(q, sem);
    assert Iterate(step, c, 2) == Iterate(step, step(c), 1);
    assert Iterate(step, step(step(c)), 0) == step(step(c));
  }

  lemma {:induction false} RunThree(q: Program, sem: Semantics, c: Config)
    ensures Run(q, sem, c, 3) == Step(q, sem, Step(q, sem, Step(q, sem, c)))
  {
    var step := Stepper(q, sem);
    assert Iterate(step, c, 3) == Iterate(step, step(c), 2) == Iterate(step, step(step(c)), 1);
    assert Iterate(step, step(step(step(c))), 0) == step(step(step(c)));
  }

  lemma {:induction false} RunFive(q: Program, sem: Semantics, c: Config)
    ensures Run(q, sem, c, 5) == Step(q, sem, Step(q, sem, Step(q, sem, Step(q, sem, Step(q, sem, c)))))
  {
    hide Step;
    var c2 := Step(q, sem, Step(q, sem, c));
    RunTwo(q, sem, c);
    RunThree(q, sem, c2);
    RunSplit(q, sem, c, 2, c2, 3, Run(q, sem, c2, 3));
  }

  /** A halted configuration stays as it is. */
  lemma {:induction false} RunHalted(p: Program, sem: Semantics, c: Config, n: nat)
    requires !c.Running?
    ensures Run(p, sem, c, n) == c
  {
    IterateFixed(Stepper(p, sem), c, n);
  }
}
