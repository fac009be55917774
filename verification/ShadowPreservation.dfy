/** The transform preserves meaning, and keeps the shadow stack aligned with the
    activations of eligible methods.

    A run of the original program and a run of the transformed one are related at the
    points where the transformed one is about to execute what belongs to the next original
    element.  One original step is matched by one or more transformed steps. */
module ShadowPreservation {
  import opened Sequences
  import opened Bytecode
  import opened ShadowTransform
  import opened ShadowMachine
  import opened ShadowLayout
  import opened ShadowKnown

  // ---- The relation ----

  function KnownOf(p: Program, f: Frame): seq<Entry>
    requires f.m < |p| && f.pc <= |p[f.m].body|
  {
    KnownAt(Params(p[f.m]), p[f.m].body, f.pc)
  }

  /** The table is true of an activation, unless it is at a label, where it is forgotten. */
  ghost predicate Typed(p: Program, f: Frame) {
    && f.m < |p| && f.pc <= |p[f.m].body|
    && (p[f.m].eligible && f.pc < |p[f.m].body| && !p[f.m].body[f.pc].LabelTarget? ==> Holds(KnownOf(p, f), f.locals))
  }

  /** An activation suspended in a call: the same locals and stack, at the place the call
      moved to, and its row holds the current value of every slot known there. */
  ghost predicate FrameSuspended(p: Program, f: Frame, g: Frame, rows: seq<Row>) {
    && f.m < |p| && f.pc < |p[f.m].body| && p[f.m].body[f.pc].Invoke? && Typed(p, f)
    && g == f.(pc := SiteOf(p[f.m], f.pc))
    && (p[f.m].eligible ==> rows != [] && Current(KnownOf(p, f), f.locals, Last(rows)))
  }

  /** The rows without that of an activation of m, if it has one. */
  function Below(p: Program, m: nat, rows: seq<Row>): seq<Row>
    requires m < |p| && (p[m].eligible ==> rows != [])
  {
    if p[m].eligible then Init(rows) else rows
  }

  ghost predicate Suspended(p: Program, base: seq<Row>, fs: seq<Frame>, gs: seq<Frame>, rows: seq<Row>)
    decreases |fs|
  {
    && |fs| == |gs|
    && if fs == [] then rows == base
       else FrameSuspended(p, Last(fs), Last(gs), rows)
            && Suspended(p, base, Init(fs), Init(gs), Below(p, Last(fs).m, rows))
  }

  ghost predicate TopRelated(p: Program, mode: Mode, f: Frame, g: Frame) {
    && Typed(p, f)
    && (mode.Unwinding? ==> f.pc < |p[f.m].body|)
    && g == f.(pc := if mode.Unwinding? then SiteOf(p[f.m], f.pc) else StartOf(p[f.m], f.pc))
  }

  ghost predicate Related(p: Program, base: seq<Row>, s: State, t: State) {
    && s.mode == t.mode && s.world == t.world && s.log == t.log
    && s.frames != [] && t.frames != []
    && TopRelated(p, s.mode, s.Top(), t.Top())
    && (p[s.Top().m].eligible ==> t.rows != [])
    && Suspended(p, base, Init(s.frames), Init(t.frames), Below(p, s.Top().m, t.rows))
  }

  /** Nothing is claimed once the original is stuck: a verified program never is. */
  ghost predicate RelatedConfig(p: Program, base: seq<Row>, c: Config, d: Config) {
    match c
    case Running(s) => d.Running? && Related(p, base, s, d.s)
    case Finished(outcome, w, _, log) => d == Finished(outcome, w, base, log)
    case Stuck => true
  }

  /** The rows of the activations below are untouched. */
  ghost predicate Keeps(below: seq<Row>, d: Config) {
    d.Running? ==> below <= d.s.rows
  }

  // ---- From the start of an expansion to the element itself ----

  /** What the rows are when the element itself is about to execute. */
  ghost predicate SiteRows(p: Program, f: Frame, rows: seq<Row>, rows1: seq<Row>)
    requires f.m < |p| && f.pc < |p[f.m].body| && (p[f.m].eligible ==> rows != [])
    requires Typed(p, f)
  {
    var i := p[f.m].body[f.pc];
    if !p[f.m].eligible then rows1 == rows
    else if i.Return? then rows1 == Init(rows)
    else if ThrowCapable(i) then
      rows1 != [] && Init(rows1) == Init(rows) && Current(KnownOf(p, f), f.locals, Last(rows1))
    else rows1 == rows
  }

  ghost predicate AtSite(p: Program, s: State, t: State, t1: State) {
    && s.frames != [] && t.frames != []
    && Typed(p, s.Top()) && s.Top().pc < |p[s.Top().m].body| && (p[s.Top().m].eligible ==> t.rows != [])
    && t1 == t.WithTop(s.Top().(pc := SiteOf(p[s.Top().m], s.Top().pc))).(rows := t1.rows)
    && SiteRows(p, s.Top(), t.rows, t1.rows)
  }

  lemma {:induction false} NothingBefore(m: Method, n: nat)
    requires n < |m.body| && (m.eligible ==> !m.body[n].Return? && !ThrowCapable(m.body[n]))
    ensures SiteOf(m, n) == StartOf(m, n)
  {
    hide Expand, KnownAt, Prologue;
  }

  lemma {:induction false} ReachSite(p: Program, sem: Semantics, s: State, t: State)
    returns (n: nat, t1: State)
    requires OriginalProgram(p) && s.frames != [] && t.frames != [] && s.mode.Normal? && t.mode.Normal?
    requires TopRelated(p, s.mode, s.Top(), t.Top()) && s.Top().pc < |p[s.Top().m].body|
    requires p[s.Top().m].eligible ==> t.rows != []
    ensures Run(TransformProgram(p), sem, Running(t), n) == Running(t1)
    ensures AtSite(p, s, t, t1)
  {
    hide Step;
    var q, f, m := TransformProgram(p), s.Top(), p[s.Top().m];
    var i := m.body[f.pc];
    hide Expand, KnownAt, Prologue, TransformMethod, Holds, Captures, Current, SiteOf, StartOf;
    if m.eligible && i.Return? {
      n, t1 := ReachReturn(q, sem, t, m, f);
    } else if m.eligible && ThrowCapable(i) {
      n, t1 := ReachCaptures(p, sem, t, f);
    } else {
      NothingBefore(m, f.pc);
      n, t1 := 0, t;
      RunZero(q, sem, Running(t));
      assert t.WithTop(t.Top()) == t;
    }
  }

  lemma {:induction false} ReachCaptures(p: Program, sem: Semantics, t: State, f: Frame)
    returns (n: nat, t1: State)
    requires t.frames != [] && t.rows != [] && t.mode.Normal? && Typed(p, f)
    requires p[f.m].eligible && f.pc < |p[f.m].body| && ThrowCapable(p[f.m].body[f.pc])
    requires t.Top() == f.(pc := StartOf(p[f.m], f.pc))
    ensures Run(TransformProgram(p), sem, Running(t), n) == Running(t1)
    ensures t1 == t.WithTop(f.(pc := SiteOf(p[f.m], f.pc))).(rows := t1.rows)
    ensures t1.rows != [] && Init(t1.rows) == Init(t.rows) && Current(KnownOf(p, f), f.locals, Last(t1.rows))
  {
    hide Step, KnownAt, Expand, StartOf, CaptureAll, Captures;
    var q, m, known := TransformProgram(p), p[f.m], KnownOf(p, f);
    ElementLayout(m, f.pc);
    CapturesLength(known);
    assert AtCode(q, t, Captures(known));
    n, t1 := 3 * |known|, Captured(t, known);
    CapturesRun(q, sem, t, known, n);
    CaptureAllCurrent(t.rows, [], known, f.locals);
  }

  lemma {:induction false} ReachReturn(q: Program, sem: Semantics, t: State, m: Method, f: Frame)
    returns (n: nat, t1: State)
    requires t.frames != [] && t.rows != [] && t.mode.Normal?
    requires m.eligible && f.pc < |m.body| && m.body[f.pc].Return?
    requires f.m < |q| && q[f.m] == TransformMethod(m) && t.Top() == f.(pc := StartOf(m, f.pc))
    ensures Run(q, sem, Running(t), n) == Running(t1)
    ensures t1 == t.WithTop(f.(pc := SiteOf(m, f.pc))).(rows := Init(t.rows))
  {
    hide Step;
    ElementLayout(m, f.pc);
    var before := TransformMethod(m).body[StartOf(m, f.pc)..SiteOf(m, f.pc)];
    assert before[0] == InsertedCall(ExitMethod);
    n, t1 := 1, t.WithTop(f.(pc := SiteOf(m, f.pc))).(rows := Init(t.rows));
    StepInserted(q, sem, t, f.(pc := SiteOf(m, f.pc)), Init(t.rows));
    RunOne(q, sem, Running(t));
  }

  // ---- The step of the element itself ----

  ghost predicate ReadyAtSite(p: Program, base: seq<Row>, s: State, t: State, t1: State) {
    && OriginalProgram(p) && Related(p, base, s, t) && s.mode.Normal?
    && s.Top().pc < |p[s.Top().m].body| && AtSite(p, s, t, t1)
  }

  function SiteInstr(p: Program, s: State): Instr
    requires s.frames != [] && s.Top().m < |p| && s.Top().pc < |p[s.Top().m].body|
  {
    p[s.Top().m].body[s.Top().pc]
  }

  lemma {:induction false} OriginalSite(p: Program, f: Frame)
    requires OriginalProgram(p) && f.m < |p| && f.pc < |p[f.m].body|
    ensures OriginalMethod(p[f.m]) && OriginalInstr(p[f.m].body, p[f.m].body[f.pc])
  {
    hide OriginalInstr;
    assert p[f.m] in p && p[f.m].body[f.pc] in p[f.m].body;
  }

  lemma {:induction false} SiteFacts(p: Program, base: seq<Row>, s: State, t: State, t1: State)
    requires ReadyAtSite(p, base, s, t, t1)
    ensures s.frames != [] && s.Top().m < |p| && s.Top().pc < |p[s.Top().m].body|
    ensures
      var q, f, i := TransformProgram(p), s.Top(), SiteInstr(p, s);
      && Typed(p, f) && f.pc < |p[f.m].body| && (p[f.m].eligible ==> t.rows != []) && s.mode.Normal?
      && OriginalMethod(p[f.m]) && OriginalInstr(p[f.m].body, i)
      && t1.frames != [] && t1.Top() == f.(pc := SiteOf(p[f.m], f.pc)) && t1.mode.Normal?
      && t1.world == s.world && t1.log == s.log && Init(t1.frames) == Init(t.frames)
      && |q| == |p| && q[f.m] == TransformMethod(p[f.m])
      && t1.Top().pc < |q[f.m].body| && q[f.m].body[t1.Top().pc] == i
      && SiteOf(p[f.m], f.pc) + 1 == StartOf(p[f.m], f.pc + 1)
  {
    hide KnownAt, Suspended, SiteRows, Holds, SiteOf, StartOf, TransformMethod, OriginalMethod, OriginalInstr;
    var f := s.Top();
    OriginalSite(p, f);
    SiteInBody(p[f.m], f.pc);
  }

  /** The same activation goes on, in related places. */
  lemma {:induction false} GoesOn(p: Program, base: seq<Row>, s: State, t: State, t1: State,
                                  f': Frame, g': Frame, mode': Mode, w': World, log': seq<Observation>)
    requires ReadyAtSite(p, base, s, t, t1) && !SiteInstr(p, s).Return?
    requires f'.m == s.Top().m && TopRelated(p, mode', f', g')
    ensures
      var s' := s.WithTop(f').(mode := mode', world := w', log := log');
      var t' := t1.WithTop(g').(mode := mode', world := w', log := log');
      Related(p, base, s', t') && Below(p, s.Top().m, t.rows) <= t'.rows
  {
    hide StartOf, SiteOf, KnownAt, Holds;
    var s' := s.WithTop(f').(mode := mode', world := w', log := log');
    var t' := t1.WithTop(g').(mode := mode', world := w', log := log');
    assert Init(s'.frames) == Init(s.frames) && Init(t'.frames) == Init(t.frames);
    assert s'.Top() == f' && t'.Top() == g';
    assert Below(p, f'.m, t'.rows) == Below(p, f'.m, t.rows);
  }

  lemma {:induction false} LocalShift(i: Instr, f: Frame, pc: nat, rows: seq<Row>, rows1: seq<Row>)
    requires IsLocal(i) && !i.Inserted()
    ensures
      match LocalStep(i, f, rows)
      case Ok(f', _) =>
        && f'.m == f.m && f'.pc == f.pc + 1
        && LocalStep(i, f.(pc := pc), rows1) == Ok(f'.(pc := pc + 1), rows1)
      case Illegal => LocalStep(i, f.(pc := pc), rows1).Illegal?
  {
  }

  lemma {:induction false} TypedNext(p: Program, f: Frame, f': Frame)
    requires Typed(p, f) && f.pc < |p[f.m].body|
    requires f'.m == f.m && f'.pc == f.pc + 1
    requires
      var i := p[f.m].body[f.pc];
      if IsLocal(i) then
        exists rows: seq<Row> :: LocalStep(i, f, rows).Ok? && f'.locals == LocalStep(i, f, rows).frame.locals
      else f'.locals == f.locals
    ensures Typed(p, f')
  {
    var m := p[f.m];
    var i, known := m.body[f.pc], KnownOf(p, f);
    if m.eligible {
      assert KnownOf(p, f') == Advance(known, i);
      if IsLocal(i) && !i.LabelTarget? {
        var rows: seq<Row> :| LocalStep(i, f, rows).Ok? && f'.locals == LocalStep(i, f, rows).frame.locals;
        AdvanceHolds(known, i, f, rows);
      }
    }
  }

  lemma {:induction false} StepLocal(p: Program, sem: Semantics, s: State)
    requires s.frames != [] && s.mode.Normal? && s.Top().m < |p| && s.Top().pc < |p[s.Top().m].body|
    requires IsLocal(SiteInstr(p, s))
    ensures
      match LocalStep(SiteInstr(p, s), s.Top(), s.rows)
      case Ok(f', rows') =>
        Step(p, sem, Running(s)) == Running(s.WithTop(f').(rows := rows', log := Noted(SiteInstr(p, s), s).log))
      case Illegal => Step(p, sem, Running(s)) == Stuck
  {
  }

  lemma {:induction false} LocalSite(p: Program, sem: Semantics, base: seq<Row>, s: State, t: State, t1: State)
    requires ReadyAtSite(p, base, s, t, t1) && IsLocal(SiteInstr(p, s))
    ensures RelatedConfig(p, base, Step(p, sem, Running(s)), Step(TransformProgram(p), sem, Running(t1)))
    ensures Keeps(Below(p, s.Top().m, t.rows), Step(TransformProgram(p), sem, Running(t1)))
  {
    hide Step, StartOf, SiteOf, KnownAt, Holds, LocalStep, Suspended, Related, AtSite;
    SiteFacts(p, base, s, t, t1);
    var f, i := s.Top(), SiteInstr(p, s);
    LocalShift(i, f, t1.Top().pc, s.rows, t1.rows);
    StepLocal(p, sem, s);
    StepLocal(TransformProgram(p), sem, t1);
    match LocalStep(i, f, s.rows)
    case Ok(f', rows') =>
      TypedNext(p, f, f');
      GoesOn(p, base, s, t, t1, f', f'.(pc := t1.Top().pc + 1), Normal, s.world, Noted(i, s).log);
      RowsIrrelevant(p, base, s.WithTop(f').(log := Noted(i, s).log), rows',
                     t1.WithTop(f'.(pc := t1.Top().pc + 1)).(log := Noted(i, s).log));
    case Illegal =>
  }

  /** The original program has no use for rows. */
  lemma {:induction false} RowsIrrelevant(p: Program, base: seq<Row>, s: State, rows: seq<Row>, t: State)
    requires Related(p, base, s, t)
    ensures Related(p, base, s.(rows := rows), t)
  {
    hide StartOf, SiteOf, KnownAt, Holds, Suspended;
  }

  /** The steps of a return and of an opaque element, in either program. */
  lemma {:induction false} StepReturn(p: Program, sem: Semantics, s: State)
    requires s.frames != [] && s.mode.Normal? && s.Top().m < |p| && s.Top().pc < |p[s.Top().m].body|
    requires SiteInstr(p, s).Return?
    ensures
      var i, stack := SiteInstr(p, s), s.Top().stack;
      Step(p, sem, Running(s))
      == if i.void then ReturnStep(Noted(i, s), [])
         else if stack != [] then ReturnStep(Noted(i, s), [Last(stack)])
         else Stuck
  {
  }

  lemma {:induction false} StepEffect(p: Program, sem: Semantics, s: State)
    requires s.frames != [] && s.mode.Normal? && s.Top().m < |p| && s.Top().pc < |p[s.Top().m].body|
    requires !IsLocal(SiteInstr(p, s)) && !SiteInstr(p, s).Return? && !SiteInstr(p, s).Inserted()
    ensures
      var i := SiteInstr(p, s);
      Step(p, sem, Running(s)) == EffectStep(p, i, sem.effect(i, s.Top().stack, s.world), Noted(i, s))
  {
  }

  lemma {:induction false} ReturnSite(p: Program, sem: Semantics, base: seq<Row>, s: State, t: State, t1: State)
    requires ReadyAtSite(p, base, s, t, t1) && SiteInstr(p, s).Return?
    ensures RelatedConfig(p, base, Step(p, sem, Running(s)), Step(TransformProgram(p), sem, Running(t1)))
    ensures Keeps(Below(p, s.Top().m, t.rows), Step(TransformProgram(p), sem, Running(t1)))
  {
    hide Step, StartOf, SiteOf, KnownAt, Holds, Suspended;
    SiteFacts(p, base, s, t, t1);
    StepReturn(p, sem, s);
    StepReturn(TransformProgram(p), sem, t1);
    var i, stack := SiteInstr(p, s), s.Top().stack;
    var s0, t0 := Noted(i, s), Noted(i, t1);
    assert t1.rows == Below(p, s.Top().m, t.rows);
    if i.void {
      ReturnRelated(p, base, s0, t0, []);
    } else if stack != [] {
      ReturnRelated(p, base, s0, t0, [Last(stack)]);
    }
  }

  /** What a return leaves in both programs. */
  lemma {:induction false} ReturnRelated(p: Program, base: seq<Row>, s: State, t: State, result: seq<Value>)
    requires OriginalProgram(p) && s.frames != [] && t.frames != []
    requires s.mode.Normal? && t.mode.Normal? && s.world == t.world && s.log == t.log
    requires Suspended(p, base, Init(s.frames), Init(t.frames), t.rows)
    ensures RelatedConfig(p, base, ReturnStep(s, result), ReturnStep(t, result))
    ensures Keeps(t.rows, ReturnStep(t, result))
  {
    hide StartOf, SiteOf, KnownAt, Holds;
    var fs, gs := Init(s.frames), Init(t.frames);
    if fs != [] {
      var f0, g0 := Last(fs), Last(gs);
      var f', g' := f0.(pc := f0.pc + 1, stack := f0.stack + result), g0.(pc := g0.pc + 1, stack := g0.stack + result);
      CallerNext(p, f0, f');
      Resumes(p, base, s, fs, gs, t.rows, f', g', s.log);
    }
  }

  lemma {:induction false} CallerNext(p: Program, f: Frame, f': Frame)
    requires OriginalProgram(p) && Typed(p, f) && f.pc < |p[f.m].body| && p[f.m].body[f.pc].Invoke?
    requires f'.m == f.m && f'.pc == f.pc + 1 && f'.locals == f.locals
    ensures Typed(p, f') && SiteOf(p[f.m], f.pc) + 1 == StartOf(p[f.m], f'.pc)
  {
    hide Expand, KnownAt;
    assert p[f.m] in p;
    if p[f.m].eligible { ElementLayout(p[f.m], f.pc); }
    TypedNext(p, f, f');
  }

  /** A caller goes on after its call. */
  lemma {:induction false} Resumes(p: Program, base: seq<Row>, s: State, fs: seq<Frame>, gs: seq<Frame>,
                                   rows: seq<Row>, f': Frame, g': Frame, log': seq<Observation>)
    requires fs != [] && Suspended(p, base, fs, gs, rows)
    requires f'.m == Last(fs).m && TopRelated(p, Normal, f', g')
    ensures
      Related(p, base, State(Init(fs) + [f'], Normal, s.world, s.rows, log'),
                       State(Init(gs) + [g'], Normal, s.world, rows, log'))
  {
    hide StartOf, SiteOf, KnownAt, Holds;
    assert Init(Init(fs) + [f']) == Init(fs) && Init(Init(gs) + [g']) == Init(gs);
  }

  /** An opaque element that does not call: it goes on, jumps, or raises. */
  lemma {:induction false} EffectSite(p: Program, sem: Semantics, base: seq<Row>, s: State, t: State, t1: State)
    requires ReadyAtSite(p, base, s, t, t1)
    requires !IsLocal(SiteInstr(p, s)) && !SiteInstr(p, s).Return?
    requires !sem.effect(SiteInstr(p, s), s.Top().stack, s.world).Call?
    ensures RelatedConfig(p, base, Step(p, sem, Running(s)), Step(TransformProgram(p), sem, Running(t1)))
    ensures Keeps(Below(p, s.Top().m, t.rows), Step(TransformProgram(p), sem, Running(t1)))
  {
    hide Step, KnownAt, Holds, StartOf, SiteOf, Suspended, Related, AtSite, EffectStep;
    SiteFacts(p, base, s, t, t1);
    StepEffect(p, sem, s);
    StepEffect(TransformProgram(p), sem, t1);
    match sem.effect(SiteInstr(p, s), s.Top().stack, s.world)
    case Continue(stack, w) => ContinueSite(p, base, s, t, t1, stack, w);
    case Jump(choice, stack, w) => JumpSite(p, base, s, t, t1, choice, stack, w);
    case Raise(exc, w) => RaiseSite(p, base, s, t, t1, exc, w);
    case Wrong => WrongSite(p, base, s, t, t1);
  }

  /** The same effect, in the original and at the site, gives related configurations. */
  ghost predicate SameEffect(p: Program, base: seq<Row>, s: State, t: State, t1: State, e: Effect)
    requires s.frames != [] && s.Top().m < |p| && s.Top().pc < |p[s.Top().m].body|
    requires t1.frames != [] && t1.Top().m < |p| && (p[s.Top().m].eligible ==> t.rows != [])
  {
    var q, i := TransformProgram(p), SiteInstr(p, s);
    && RelatedConfig(p, base, EffectStep(p, i, e, Noted(i, s)), EffectStep(q, i, e, Noted(i, t1)))
    && Keeps(Below(p, s.Top().m, t.rows), EffectStep(q, i, e, Noted(i, t1)))
  }

  lemma {:induction false} ContinueSite(p: Program, base: seq<Row>, s: State, t: State, t1: State,
                                        stack: seq<Value>, w: World)
    requires ReadyAtSite(p, base, s, t, t1) && !IsLocal(SiteInstr(p, s)) && !SiteInstr(p, s).Return?
    ensures t1.frames != [] && t1.Top().m < |p|
    ensures SameEffect(p, base, s, t, t1, Continue(stack, w))
  {
    hide KnownAt, Holds, StartOf, SiteOf, Suspended, Related, AtSite;
    SiteFacts(p, base, s, t, t1);
    var f, g := s.Top(), t1.Top();
    var f' := f.(pc := f.pc + 1, stack := stack);
    TypedNext(p, f, f');
    GoesOn(p, base, s, t, t1, f', g.(pc := g.pc + 1, stack := stack), Normal, w, Noted(SiteInstr(p, s), s).log);
  }

  lemma {:induction false} JumpSite(p: Program, base: seq<Row>, s: State, t: State, t1: State,
                                    choice: nat, stack: seq<Value>, w: World)
    requires ReadyAtSite(p, base, s, t, t1) && !IsLocal(SiteInstr(p, s)) && !SiteInstr(p, s).Return?
    ensures t1.frames != [] && t1.Top().m < |p|
    ensures SameEffect(p, base, s, t, t1, Jump(choice, stack, w))
  {
    hide IndexOf, Bound, TransformMethod, TopRelated, KnownAt, Holds, StartOf, SiteOf, Suspended, Related, AtSite;
    SiteFacts(p, base, s, t, t1);
    var f, g, i := s.Top(), t1.Top(), SiteInstr(p, s);
    if i.Branch? && choice < |i.targets| && Bound(p[f.m].body, i.targets[choice]) {
      var l := i.targets[choice];
      JumpTarget(p[f.m], i, choice);
      var f' := f.(pc := IndexOf(p[f.m].body, l), stack := stack);
      var g' := g.(pc := IndexOf(TransformMethod(p[f.m]).body, l), stack := stack);
      AtLabel(p, f', g');
      GoesOn(p, base, s, t, t1, f', g', Normal, w, Noted(i, s).log);
    }
  }

  lemma {:induction false} JumpTarget(m: Method, i: Instr, choice: nat)
    requires OriginalMethod(m) && OriginalInstr(m.body, i) && i.Branch? && choice < |i.targets|
    ensures
      var l, t := i.targets[choice], TransformMethod(m).body;
      && Bound(m.body, l) && Bound(t, l) && IndexOf(m.body, l) < |m.body|
      && m.body[IndexOf(m.body, l)].LabelTarget? && IndexOf(t, l) == StartOf(m, IndexOf(m.body, l))
  {
    hide StartOf, SiteOf;
    assert i.targets[choice] in i.targets;
    LabelMoves(m, i.targets[choice]);
  }

  /** At a label nothing is claimed of the locals. */
  lemma {:induction false} AtLabel(p: Program, f: Frame, g: Frame)
    requires f.m < |p| && f.pc < |p[f.m].body| && p[f.m].body[f.pc].LabelTarget?
    requires g == f.(pc := StartOf(p[f.m], f.pc))
    ensures TopRelated(p, Normal, f, g)
  {
  }

  lemma {:induction false} RaiseSite(p: Program, base: seq<Row>, s: State, t: State, t1: State, exc: int, w: World)
    requires ReadyAtSite(p, base, s, t, t1) && !IsLocal(SiteInstr(p, s)) && !SiteInstr(p, s).Return?
    ensures t1.frames != [] && t1.Top().m < |p|
    ensures SameEffect(p, base, s, t, t1, Raise(exc, w))
  {
    hide KnownAt, Holds, StartOf, SiteOf, Suspended, Related, AtSite;
    SiteFacts(p, base, s, t, t1);
    GoesOn(p, base, s, t, t1, s.Top(), t1.Top(), Unwinding(exc), w, Noted(SiteInstr(p, s), s).log);
    assert s.WithTop(s.Top()) == s && t1.WithTop(t1.Top()) == t1;
  }

  lemma {:induction false} WrongSite(p: Program, base: seq<Row>, s: State, t: State, t1: State)
    requires ReadyAtSite(p, base, s, t, t1)
    ensures t1.frames != [] && t1.Top().m < |p|
    ensures SameEffect(p, base, s, t, t1, Wrong)
  {
    SiteFacts(p, base, s, t, t1);
  }

  // ---- Calls ----

  /** A method is entered: the inserted prologue opens a row and captures the parameters. */
  lemma {:induction false} EnterCallee(p: Program, sem: Semantics, base: seq<Row>, s: State, t: State,
                                       callee: nat, args: seq<Value>)
    returns (n: nat, t': State)
    requires OriginalProgram(p) && callee < |p| && ArgsFit(Params(p[callee]), args)
    requires s.frames != [] && t.frames != []
    requires s.mode.Normal? && t.mode.Normal? && s.world == t.world && s.log == t.log
    requires s.Top() == Activation(p, callee, args) == t.Top()
    requires Suspended(p, base, Init(s.frames), Init(t.frames), t.rows)
    ensures Run(TransformProgram(p), sem, Running(t), n) == Running(t')
    ensures Related(p, base, s, t') && t.rows <= t'.rows
    ensures
      var es := Params(p[callee]);
      p[callee].eligible ==>
        t'.rows != [] && Holds(es, s.Top().locals) && Current(es, s.Top().locals, Last(t'.rows))
  {
    hide Step, Holds, Suspended, Expand;
    ParamsHold(p, callee, args);
    assert Typed(p, s.Top());
    if p[callee].eligible {
      n, t' := RunPrologue(p, sem, t, callee);
      assert Below(p, callee, t'.rows) == t.rows;
      assert Init(t'.frames) == Init(t.frames);
    } else {
      n, t' := 0, t;
      RunZero(TransformProgram(p), sem, Running(t));
    }
  }

  lemma {:induction false} RunPrologue(p: Program, sem: Semantics, t: State, m: nat)
    returns (n: nat, t': State)
    requires m < |p| && p[m].eligible
    requires t.frames != [] && t.mode.Normal? && t.Top().m == m && t.Top().pc == 0
    requires Holds(Params(p[m]), t.Top().locals)
    ensures Run(TransformProgram(p), sem, Running(t), n) == Running(t')
    ensures t' == t.WithTop(t.Top().(pc := StartOf(p[m], 0))).(rows := t'.rows)
    ensures |t'.rows| == |t.rows| + 1 && Init(t'.rows) == t.rows
    ensures Current(Params(p[m]), t.Top().locals, Last(t'.rows))
  {
    hide Step, Run, Holds, KnownAt, Expand, TransformMethod, ParamSlots, Captures, CaptureAll, Current;
    var q, es, f := TransformProgram(p), Params(p[m]), t.Top();
    PrologueLayout(p[m]);
    var t2 := t.WithTop(f.(pc := 2)).(rows := Enter(t.rows));
    PrologueEnters(q, sem, t);
    CapturesRun(q, sem, t2, es, 3 * |es|);
    var k := 3 * |es|;
    t' := Captured(t2, es);
    RunSplit(q, sem, Running(t), 2, Running(t2), k, Running(t'));
    n := 2 + k;
    CaptureAllCurrent(t2.rows, [], es, f.locals);
  }

  /** The first two elements open a row. */
  lemma {:induction false} PrologueEnters(q: Program, sem: Semantics, t: State)
    requires t.frames != [] && t.mode.Normal? && t.Top().m < |q| && t.Top().pc == 0
    requires |q[t.Top().m].body| >= 2
    requires q[t.Top().m].body[0] == LabelTarget(TryStart) && q[t.Top().m].body[1] == InsertedCall(EnterMethod)
    ensures Run(q, sem, Running(t), 2) == Running(t.WithTop(t.Top().(pc := 2)).(rows := Enter(t.rows)))
  {
    hide Step;
    var f1, f2 := t.Top().(pc := 1), t.Top().(pc := 2);
    StepInserted(q, sem, t, f1, t.rows);
    StepInserted(q, sem, t.WithTop(f1), f2, Enter(t.rows));
    TopReplaced(t, f1, f2, Enter(t.rows));
    RunTwo(q, sem, Running(t));
  }

  lemma {:induction false} PrologueLayout(m: Method)
    requires m.eligible
    ensures
      var t, es := TransformMethod(m).body, Params(m);
      && 2 + 3 * |es| == StartOf(m, 0) <= |t|
      && t[0] == LabelTarget(TryStart) && t[1] == InsertedCall(EnterMethod)
      && t[2..2 + |Captures(es)|] == Captures(es)
  {
    var t, es := TransformMethod(m).body, Params(m);
    assert t[..|Prologue(es)|] == Prologue(es);
    assert t[2..2 + |Captures(es)|] == Prologue(es)[2..];
  }

  lemma {:induction false} PrefixTrans<T>(a: seq<T>, b: seq<T>, c: seq<T>)
    requires a <= b && b <= c
    ensures a <= c
  {
  }

  /** A call that does not resolve leaves the machine stuck. */
  lemma {:induction false} CallFails(p: Program, s: State, e: Effect)
    requires s.frames != [] && s.Top().m < |p| && s.Top().pc < |p[s.Top().m].body| && e.Call?
    requires !(SiteInstr(p, s).Invoke? && e.callee < |p| && ArgsFit(Params(p[e.callee]), e.args))
    ensures EffectStep(p, SiteInstr(p, s), e, Noted(SiteInstr(p, s), s)) == Stuck
  {
  }

  lemma {:induction false} SameParams(p: Program, m: nat)
    requires m < |p|
    ensures Params(TransformProgram(p)[m]) == Params(p[m])
  {
  }

  lemma {:induction false} SameActivation(p: Program, m: nat, args: seq<Value>)
    requires m < |p| && ArgsFit(Params(p[m]), args)
    ensures ArgsFit(Params(TransformProgram(p)[m]), args)
    ensures Activation(TransformProgram(p), m, args) == Activation(p, m, args)
  {
    hide Params;
    SameParams(p, m);
  }

  /** Both programs suspend the caller at the call and push the same activation. */
  lemma {:induction false} CallPushes(p: Program, base: seq<Row>, s: State, t: State, t1: State, e: Effect)
    returns (s': State, t': State)
    requires ReadyAtSite(p, base, s, t, t1) && SiteInstr(p, s).Invoke? && e.Call?
    requires e.callee < |p| && ArgsFit(Params(p[e.callee]), e.args)
    ensures t1.frames != [] && t1.Top().m < |TransformProgram(p)|
    ensures EffectStep(p, SiteInstr(p, s), e, Noted(SiteInstr(p, s), s)) == Running(s')
    ensures EffectStep(TransformProgram(p), SiteInstr(p, s), e, Noted(SiteInstr(p, s), t1)) == Running(t')
    ensures s'.frames != [] && t'.frames != [] && s'.mode.Normal? && t'.mode.Normal?
    ensures s'.world == t'.world && s'.log == t'.log
    ensures s'.Top() == Activation(p, e.callee, e.args) == t'.Top()
    ensures Suspended(p, base, Init(s'.frames), Init(t'.frames), t'.rows)
    ensures Below(p, s.Top().m, t.rows) <= t'.rows
  {
    hide KnownAt, Holds, StartOf, SiteOf, TransformMethod, Params, IndexOf, Bound;
    hide EffectStep, FrameSuspended, Activation;
    SiteFacts(p, base, s, t, t1);
    SameParams(p, e.callee);
    SameActivation(p, e.callee, e.args);
    var i := SiteInstr(p, s);
    s' := Pushed(p, i, e, s);
    t' := Pushed(TransformProgram(p), i, e, t1);
    var f, g := s.Top().(stack := e.rest), t1.Top().(stack := e.rest);
    CallerSuspended(p, base, s, t, t1, f, g);
    assert Init(s'.frames) == Init(s.frames) + [f] && Init(t'.frames) == Init(t.frames) + [g];
    assert Init(Init(s.frames) + [f]) == Init(s.frames) && Init(Init(t.frames) + [g]) == Init(t.frames);
  }

  /** A call keeps the caller where it is and starts the callee. */
  lemma {:induction false} Pushed(p: Program, i: Instr, e: Effect, s: State)
    returns (s': State)
    requires s.frames != [] && s.Top().m < |p| && i.Invoke? && e.Call?
    requires e.callee < |p| && ArgsFit(Params(p[e.callee]), e.args)
    ensures EffectStep(p, i, e, Noted(i, s)) == Running(s')
    ensures s'.frames == Init(s.frames) + [s.Top().(stack := e.rest)] + [Activation(p, e.callee, e.args)]
    ensures s'.world == e.world && s'.log == Noted(i, s).log && s'.mode == s.mode && s'.rows == s.rows
  {
    hide Params, Activation, ArgsFit;
    s' := EffectStep(p, i, e, Noted(i, s)).s;
  }

  lemma {:induction false} CallerSuspended(
    p: Program, base: seq<Row>, s: State, t: State, t1: State, f: Frame, g: Frame)
    requires ReadyAtSite(p, base, s, t, t1) && SiteInstr(p, s).Invoke?
    requires t1.frames != [] && f == s.Top().(stack := f.stack) && g == t1.Top().(stack := f.stack)
    ensures FrameSuspended(p, f, g, t1.rows) && (p[f.m].eligible ==> t.rows != [] && t1.rows != [])
    ensures Below(p, f.m, t1.rows) == Below(p, f.m, t.rows)
    ensures Below(p, f.m, t.rows) <= t1.rows
  {
    hide KnownAt, Holds, StartOf, SiteOf, TransformMethod, Params, Suspended, Current;
    SiteFacts(p, base, s, t, t1);
  }

  lemma {:induction false} CallSite(p: Program, sem: Semantics, base: seq<Row>, s: State, t: State, t1: State)
    returns (n: nat)
    requires ReadyAtSite(p, base, s, t, t1)
    requires !IsLocal(SiteInstr(p, s)) && !SiteInstr(p, s).Return?
    requires sem.effect(SiteInstr(p, s), s.Top().stack, s.world).Call?
    ensures
      var q := TransformProgram(p);
      var d := Run(q, sem, Running(t1), 1 + n);
      RelatedConfig(p, base, Step(p, sem, Running(s)), d) && Keeps(Below(p, s.Top().m, t.rows), d)
  {
    hide Step, KnownAt, Holds, StartOf, SiteOf, Suspended, AtSite, Related, EffectStep;
    SiteFacts(p, base, s, t, t1);
    StepEffect(p, sem, s);
    StepEffect(TransformProgram(p), sem, t1);
    var q, i := TransformProgram(p), SiteInstr(p, s);
    var e := sem.effect(i, s.Top().stack, s.world);
    n := 0;
    if i.Invoke? && e.callee < |p| && ArgsFit(Params(p[e.callee]), e.args) {
      var s', t' := CallPushes(p, base, s, t, t1, e);
      var t'';
      n, t'' := EnterCallee(p, sem, base, s', t', e.callee, e.args);
      RunOne(q, sem, Running(t1));
      RunSplit(q, sem, Running(t1), 1, Running(t'), n, Running(t''));
      PrefixTrans(Below(p, s.Top().m, t.rows), t'.rows, t''.rows);
    } else {
      CallFails(p, s, e);
      RunOne(q, sem, Running(t1));
      CallFails(q, t1, e);
    }
  }

  // ---- Exceptions ----

  /** The top activation is gone, and so is its row. */
  lemma {:induction false} Pops(p: Program, base: seq<Row>, s: State, t: State)
    requires OriginalProgram(p) && Related(p, base, s, t) && s.mode.Unwinding?
    ensures
      var below := Below(p, s.Top().m, t.rows);
      if |s.frames| == 1 then |t.frames| == 1 && below == base
      else Related(p, base, s.(frames := Init(s.frames)), t.(frames := Init(t.frames), rows := below))
  {
    hide StartOf, SiteOf, KnownAt, Holds;
  }

  /** A handler of the top activation takes over at the same label. */
  lemma {:induction false} HandlerTarget(p: Program, m: nat, h: nat)
    requires OriginalProgram(p) && m < |p| && h < |p[m].table|
    ensures
      var t, target := TransformMethod(p[m]), p[m].table[h].target;
      && h < |t.table| && t.table[h] == p[m].table[h]
      && IndexOf(p[m].body, target) < |p[m].body| && p[m].body[IndexOf(p[m].body, target)].LabelTarget?
      && IndexOf(t.body, target) == StartOf(p[m], IndexOf(p[m].body, target))
  {
    hide StartOf, TransformBody;
    assert p[m] in p && p[m].table[h] in p[m].table;
    assert OriginalHandler(p[m].body, p[m].table[h]);
    LabelMoves(p[m], p[m].table[h].target);
  }

  /** At a label nothing is known, so a handler's activation is related wherever it came from. */
  lemma {:induction false} HandlerRelated(p: Program, mode: Mode, f0: Frame, g0: Frame, f: Frame, g: Frame)
    requires TopRelated(p, mode, f0, g0) && f == f0.(pc := f.pc, stack := f.stack)
    requires g == g0.(pc := g.pc, stack := f.stack)
    requires f.m < |p| && f.pc < |p[f.m].body| && p[f.m].body[f.pc].LabelTarget? && g.pc == StartOf(p[f.m], f.pc)
    ensures TopRelated(p, Normal, f, g)
  {
    hide StartOf, SiteOf, KnownAt, Holds;
  }

  lemma {:induction false} NewTop(s: State, f: Frame)
    requires s.frames != []
    ensures s.WithTop(f).frames != [] && s.WithTop(f).Top() == f && Init(s.WithTop(f).frames) == Init(s.frames)
  {
    assert s.WithTop(f).frames == Init(s.frames) + [f];
  }

  lemma {:induction false} Catches(p: Program, base: seq<Row>, s: State, t: State, h: nat)
    requires OriginalProgram(p) && Related(p, base, s, t) && s.mode.Unwinding?
    requires h < |p[s.Top().m].table|
    ensures
      var m, m' := p[s.Top().m], TransformMethod(p[s.Top().m]);
      var target, stack := m.table[h].target, [Exception(s.mode.exc)];
      && m'.table[h].target == target
      && var s' := s.WithTop(s.Top().(pc := IndexOf(m.body, target), stack := stack)).(mode := Normal);
         var t' := t.WithTop(t.Top().(pc := IndexOf(m'.body, target), stack := stack)).(mode := Normal);
         Related(p, base, s', t') && Below(p, s.Top().m, t.rows) <= t'.rows
  {
    hide StartOf, SiteOf, KnownAt, Holds, Suspended, Expand;
    hide TransformMethod, OriginalInstr, OriginalHandler, IndexOf, Bound;
    var m := p[s.Top().m];
    var target, stack := m.table[h].target, [Exception(s.mode.exc)];
    HandlerTarget(p, s.Top().m, h);
    var f := s.Top().(pc := IndexOf(m.body, target), stack := stack);
    var g := t.Top().(pc := IndexOf(TransformMethod(m).body, target), stack := stack);
    HandlerRelated(p, s.mode, s.Top(), t.Top(), f, g);
    NewTop(s, f);
    NewTop(t, g);
  }

  /** In an eligible method, an exception without a handler goes through the catch-all:
      the row is closed and the same exception leaves the method. */
  lemma {:induction false} CatchAllRuns(q: Program, sem: Semantics, m: Method, t: State, pc: nat)
    requires OriginalMethod(m) && m.eligible && pc < |m.body|
    requires t.frames != [] && t.rows != [] && t.mode.Unwinding?
    requires t.Top().m < |q| && q[t.Top().m] == TransformMethod(m) && t.Top().pc == SiteOf(m, pc)
    requires FindHandler(sem, m.body, m.table, pc, t.mode.exc, t.world) == |m.table|
    ensures
      Run(q, sem, Running(t), 5)
      == if |t.frames| == 1 then Finished(Threw(t.mode.exc), t.world, Init(t.rows), t.log)
         else Running(t.(frames := Init(t.frames), rows := Init(t.rows)))
  {
    hide Step, SiteOf, Expand, KnownAt, TransformMethod, FindHandler, Epilogue, Covers, IndexOf, Before;
    var exc, n := t.mode.exc, |TransformMethod(m).body|;
    EntersCatchAll(q, sem, m, t, pc);
    var t4 := AtHandler(t, n - 1).(mode := Unwinding(exc), rows := Init(t.rows));
    EpilogueRuns(q, sem, m, t);
    RethrowEscapes(sem, m, exc, t.world);
    StepUnwind(q, sem, t4);
    assert Init(t4.frames) == Init(t.frames) && |t4.frames| == |t.frames|;
    RunFive(q, sem, Running(t));
  }

  /** The machine at place pc of the catch-all's code. */
  function AtHandler(t: State, pc: int): State
    requires t.frames != [] && t.mode.Unwinding? && pc >= 0
  {
    t.WithTop(t.Top().(pc := pc, stack := [Exception(t.mode.exc)])).(mode := Normal)
  }

  lemma {:induction false} EntersCatchAll(q: Program, sem: Semantics, m: Method, t: State, pc: nat)
    requires OriginalMethod(m) && m.eligible && pc < |m.body|
    requires t.frames != [] && t.rows != [] && t.mode.Unwinding?
    requires t.Top().m < |q| && q[t.Top().m] == TransformMethod(m) && t.Top().pc == SiteOf(m, pc)
    requires FindHandler(sem, m.body, m.table, pc, t.mode.exc, t.world) == |m.table|
    ensures |TransformMethod(m).body| >= 4
    ensures Step(q, sem, Running(t)) == Running(AtHandler(t, |TransformMethod(m).body| - 3))
  {
    hide Step, SiteOf, Expand, KnownAt, TransformBody, FindHandler;
    HandlerLookup(sem, m, pc, t.mode.exc, t.world);
    OwnLabels(m);
    StepUnwind(q, sem, t);
  }

  lemma {:induction false} EpilogueRuns(q: Program, sem: Semantics, m: Method, t: State)
    requires OriginalMethod(m) && m.eligible && |TransformMethod(m).body| >= 4
    requires t.frames != [] && t.rows != [] && t.mode.Unwinding?
    requires t.Top().m < |q| && q[t.Top().m] == TransformMethod(m)
    ensures
      var n := |TransformMethod(m).body|;
      Step(q, sem, Step(q, sem, Step(q, sem, Running(AtHandler(t, n - 3)))))
      == Running(AtHandler(t, n - 1).(mode := Unwinding(t.mode.exc), rows := Init(t.rows)))
  {
    hide Step, Expand, KnownAt, TransformMethod;
    OwnLabels(m);
    EpilogueSteps(q, sem, t, TransformMethod(m).body);
  }

  /** One step in the catch-all's code. */
  lemma {:induction false} HandlerStep(q: Program, sem: Semantics, t: State, pc: nat, rows: seq<Row>)
    requires t.frames != [] && t.mode.Unwinding? && t.Top().m < |q| && pc < |q[t.Top().m].body|
    requires
      var i := q[t.Top().m].body[pc];
      (i.LabelTarget? && rows == t.rows) || (i == InsertedCall(ExitMethod) && rows == Exit(t.rows))
    ensures Step(q, sem, Running(AtHandler(t, pc))) == Running(AtHandler(t, pc + 1).(rows := rows))
  {
    hide Step;
    var t1 := AtHandler(t, pc);
    StepInserted(q, sem, t1, t1.Top().(pc := pc + 1), rows);
  }

  lemma {:induction false} EpilogueSteps(q: Program, sem: Semantics, t: State, body: seq<Instr>)
    requires |body| >= 4 && body[|body| - 4..] == Epilogue()
    requires t.frames != [] && t.rows != [] && t.mode.Unwinding?
    requires t.Top().m < |q| && q[t.Top().m].body == body
    ensures
      var n := |body|;
      Step(q, sem, Step(q, sem, Step(q, sem, Running(AtHandler(t, n - 3)))))
      == Running(AtHandler(t, n - 1).(mode := Unwinding(t.mode.exc), rows := Init(t.rows)))
  {
    hide Step;
    var n := |body|;
    var tail := body[n - 4..];
    assert tail[1] == body[n - 3] && tail[2] == body[n - 2] && tail[3] == body[n - 1];
    var t1, t2, t3 := AtHandler(t, n - 3), AtHandler(t, n - 2), AtHandler(t, n - 1).(rows := Init(t.rows));
    HandlerStep(q, sem, t, n - 3, t.rows);
    HandlerStep(q, sem, t, n - 2, Init(t.rows));
    StepRethrow(q, sem, t3);
  }

  lemma {:induction false} StepUnwind(q: Program, sem: Semantics, t: State)
    requires t.frames != [] && t.mode.Unwinding? && t.Top().m < |q|
    ensures Step(q, sem, Running(t)) == UnwindStep(q, sem, t)
  {
  }

  lemma {:induction false} StepRethrow(q: Program, sem: Semantics, t: State)
    requires t.frames != [] && t.mode.Normal? && t.Top().m < |q| && t.Top().pc < |q[t.Top().m].body|
    requires SiteInstr(q, t).InsertedRethrow? && t.Top().stack != [] && Last(t.Top().stack).kind == KRef
    ensures Step(q, sem, Running(t)) == Running(t.(mode := Unwinding(Last(t.Top().stack).bits)))
  {
  }

  lemma {:induction false} UnwindSite(p: Program, sem: Semantics, base: seq<Row>, s: State, t: State)
    returns (n: nat)
    requires OriginalProgram(p) && Related(p, base, s, t) && s.mode.Unwinding?
    ensures
      var d := Run(TransformProgram(p), sem, Running(t), 1 + n);
      RelatedConfig(p, base, Step(p, sem, Running(s)), d) && Keeps(Below(p, s.Top().m, t.rows), d)
  {
    hide Step, SiteOf, StartOf, Expand, KnownAt, Holds, Suspended;
    var q, f, m, exc := TransformProgram(p), s.Top(), p[s.Top().m], s.mode.exc;
    assert m in p;
    var h := FindHandler(sem, m.body, m.table, f.pc, exc, s.world);
    HandlerLookup(sem, m, f.pc, exc, s.world);
    StepUnwind(p, sem, s);
    n := 0;
    if h < |m.table| {
      Catches(p, base, s, t, h);
      StepUnwind(q, sem, t);
      RunOne(q, sem, Running(t));
    } else {
      Pops(p, base, s, t);
      if m.eligible {
        n := 4;
        CatchAllRuns(q, sem, m, t, f.pc);
      } else {
        StepUnwind(q, sem, t);
        RunOne(q, sem, Running(t));
      }
    }
  }

  // ---- One original step ----

  /** One step of the original is matched by one or more steps of the transformed program,
      and the rows of the activations below are left alone. */
  lemma {:induction false} StepMatched(p: Program, sem: Semantics, base: seq<Row>, s: State, t: State)
    returns (n: nat)
    requires OriginalProgram(p) && Related(p, base, s, t)
    ensures n > 0
    ensures
      var d := Run(TransformProgram(p), sem, Running(t), n);
      && RelatedConfig(p, base, Step(p, sem, Running(s)), d)
      && (!Step(p, sem, Running(s)).Stuck? ==> Keeps(Below(p, s.Top().m, t.rows), d))
  {
    hide Step, SiteOf, StartOf, Expand, KnownAt, Holds, Suspended, RelatedConfig, AtSite;
    var q := TransformProgram(p);
    if s.mode.Unwinding? {
      n := UnwindSite(p, sem, base, s, t);
      n := n + 1;
    } else if s.Top().pc < |p[s.Top().m].body| {
      var n1, t1 := ReachSite(p, sem, s, t);
      var n2 := 0;
      var i := SiteInstr(p, s);
      SiteFacts(p, base, s, t, t1);
      if IsLocal(i) {
        LocalSite(p, sem, base, s, t, t1);
        RunOne(q, sem, Running(t1));
      } else if i.Return? {
        ReturnSite(p, sem, base, s, t, t1);
        RunOne(q, sem, Running(t1));
      } else if sem.effect(i, s.Top().stack, s.world).Call? {
        n2 := CallSite(p, sem, base, s, t, t1);
      } else {
        EffectSite(p, sem, base, s, t, t1);
        RunOne(q, sem, Running(t1));
      }
      RunSplit(q, sem, Running(t), n1, Running(t1), 1 + n2, Run(q, sem, Running(t1), 1 + n2));
      n := n1 + (1 + n2);
    } else {
      FallsOff(p, sem, base, s);
      n := 1;
    }
  }

  lemma {:induction false} FallsOff(p: Program, sem: Semantics, base: seq<Row>, s: State)
    requires s.frames != [] && s.mode.Normal? && s.Top().m < |p| && s.Top().pc >= |p[s.Top().m].body|
    ensures Step(p, sem, Running(s)) == Stuck
    ensures forall d :: RelatedConfig(p, base, Stuck, d)
  {
  }
}
