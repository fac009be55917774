/** What the transform guarantees about whole runs. */
module ShadowTheorems {
  import opened Sequences
  import opened Bytecode
  import opened ShadowTransform
  import opened ShadowMachine
  import opened ShadowLayout
  import opened ShadowKnown
  import opened ShadowTracking
  import opened ShadowPreservation
  import opened ShadowStore
  import opened Wrappers

  // ---- Runs of any length ----

  lemma {:induction false} RunMatched(p: Program, sem: Semantics, base: seq<Row>, c: Config, d: Config, n: nat)
    returns (k: nat)
    requires OriginalProgram(p) && RelatedConfig(p, base, c, d)
    ensures k >= n
    ensures RelatedConfig(p, base, Run(p, sem, c, n), Run(TransformProgram(p), sem, d, k))
    decreases n
  {
    hide Step, Related;
    var q := TransformProgram(p);
    if n == 0 {
      k := 0;
      RunZero(p, sem, c);
      RunZero(q, sem, d);
    } else if !c.Running? {
      k := n;
      RunHalted(p, sem, c, n);
      if c.Finished? { RunHalted(q, sem, d, n); }
    } else {
      var k1 := StepMatched(p, sem, base, c.s, d.s);
      var c', d' := Step(p, sem, c), Run(q, sem, d, k1);
      var k2 := RunMatched(p, sem, base, c', d', n - 1);
      RunOne(p, sem, c);
      RunSplit(p, sem, c, 1, c', n - 1, Run(p, sem, c', n - 1));
      RunSplit(q, sem, d, k1, d', k2, Run(q, sem, d', k2));
      k := k1 + k2;
    }
  }

  /** The start of a run: the transformed program executes the prologue. */
  lemma {:induction false} StartMatched(p: Program, sem: Semantics, m: nat, args: seq<Value>, w: World, base: seq<Row>)
    returns (k: nat)
    requires OriginalProgram(p) && m < |p| && ArgsFit(Params(p[m]), args)
    ensures ArgsFit(Params(TransformProgram(p)[m]), args)
    ensures RelatedConfig(p, base, Start(p, m, args, w, base),
                          Run(TransformProgram(p), sem, Start(TransformProgram(p), m, args, w, base), k))
  {
    hide Step, Holds, KnownAt, Expand;
    var q := TransformProgram(p);
    var s := Start(p, m, args, w, base).s;
    assert Activation(q, m, args) == Activation(p, m, args);
    assert Init(s.frames) == [];
    var t';
    k, t' := EnterCallee(p, sem, base, s, s, m, args);
  }

  /** Meaning preservation.  After any number of steps of the original program there is a
      later point of the transformed one with the same activations, locals, operand stacks,
      world, and history of executed original instructions (each with the locals and stack
      it saw); in particular the same result or the same escaping exception, with the
      shadow stack back to what it was. */
  lemma {:induction false} MeaningPreserved(p: Program, sem: Semantics, m: nat, args: seq<Value>, w: World,
                                            base: seq<Row>, n: nat)
    returns (k: nat)
    requires OriginalProgram(p) && m < |p| && ArgsFit(Params(p[m]), args)
    ensures k >= n && ArgsFit(Params(TransformProgram(p)[m]), args)
    ensures RelatedConfig(p, base, Run(p, sem, Start(p, m, args, w, base), n),
                          Run(TransformProgram(p), sem, Start(TransformProgram(p), m, args, w, base), k))
  {
    hide Step, RelatedConfig;
    var q := TransformProgram(p);
    var k1 := StartMatched(p, sem, m, args, w, base);
    var c, d := Start(p, m, args, w, base), Start(q, m, args, w, base);
    var d1 := Run(q, sem, d, k1);
    var k2 := RunMatched(p, sem, base, c, d1, n);
    RunSplit(q, sem, d, k1, d1, k2, Run(q, sem, d1, k2));
    k := k1 + k2;
  }

  /** A program that never gets stuck, as a verified one. */
  ghost predicate NeverStuck(p: Program, sem: Semantics, c: Config) {
    forall n: nat :: !Run(p, sem, c, n).Stuck?
  }

  /** Both programs finish together or neither does: same outcome, same world, same history,
      and the shadow stack of the transformed one is what it was at the start. */
  lemma {:induction false} SameOutcome(p: Program, sem: Semantics, m: nat, args: seq<Value>, w: World, base: seq<Row>,
                                       outcome: Outcome, w': World, log: seq<Observation>)
    requires OriginalProgram(p) && m < |p| && ArgsFit(Params(p[m]), args)
    requires NeverStuck(p, sem, Start(p, m, args, w, base))
    ensures ArgsFit(Params(TransformProgram(p)[m]), args)
    ensures
      var c, d := Start(p, m, args, w, base), Start(TransformProgram(p), m, args, w, base);
      (exists n: nat, rows :: Run(p, sem, c, n) == Finished(outcome, w', rows, log))
      <==> (exists k: nat :: Run(TransformProgram(p), sem, d, k) == Finished(outcome, w', base, log))
  {
    hide Step, Related;
    var q := TransformProgram(p);
    var k0 := MeaningPreserved(p, sem, m, args, w, base, 0);
    var c, d := Start(p, m, args, w, base), Start(q, m, args, w, base);
    if n: nat, rows :| Run(p, sem, c, n) == Finished(outcome, w', rows, log) {
      var k := MeaningPreserved(p, sem, m, args, w, base, n);
      assert Run(q, sem, d, k) == Finished(outcome, w', base, log);
    }
    if k: nat :| Run(q, sem, d, k) == Finished(outcome, w', base, log) {
      var k' := MeaningPreserved(p, sem, m, args, w, base, k);
      var e := Run(q, sem, d, k);
      RunHalted(q, sem, e, k' - k);
      RunSplit(q, sem, d, k, e, k' - k, e);
      assert !Run(p, sem, c, k).Stuck?;
      assert Run(p, sem, c, k) == Finished(outcome, w', Run(p, sem, c, k).rows, log);
    }
  }

  /** The transformed program is never stuck where the original is not, so every inserted load
      finds its slot assigned with its kind, and every inserted call its operands. */
  lemma {:induction false} TransformedNeverStuck(p: Program, sem: Semantics, m: nat, args: seq<Value>, w: World,
                                                 base: seq<Row>)
    requires OriginalProgram(p) && m < |p| && ArgsFit(Params(p[m]), args)
    requires NeverStuck(p, sem, Start(p, m, args, w, base))
    ensures ArgsFit(Params(TransformProgram(p)[m]), args)
    ensures NeverStuck(TransformProgram(p), sem, Start(TransformProgram(p), m, args, w, base))
  {
    hide Step, Related;
    var q := TransformProgram(p);
    var k0 := MeaningPreserved(p, sem, m, args, w, base, 0);
    var c, d := Start(p, m, args, w, base), Start(q, m, args, w, base);
    forall k: nat ensures !Run(q, sem, d, k).Stuck? {
      var k' := MeaningPreserved(p, sem, m, args, w, base, k);
      var e := Run(q, sem, d, k);
      assert !Run(p, sem, c, k).Stuck?;
      if e.Stuck? {
        RunHalted(q, sem, e, k' - k);
        RunSplit(q, sem, d, k, e, k' - k, e);
        assert false;
      }
    }
  }

  // ---- Depth ----

  /** How many of the activations have a row. */
  function Instrumented(p: Program, fs: seq<Frame>): nat {
    if fs == [] then 0
    else Instrumented(p, Init(fs)) + if Last(fs).m < |p| && p[Last(fs).m].eligible then 1 else 0
  }

  lemma {:induction false} SuspendedDepth(p: Program, base: seq<Row>, fs: seq<Frame>, gs: seq<Frame>, rows: seq<Row>)
    requires Suspended(p, base, fs, gs, rows)
    ensures |rows| == |base| + Instrumented(p, fs) && base <= rows
    decreases |fs|
  {
    if fs != [] {
      SuspendedDepth(p, base, Init(fs), Init(gs), Below(p, Last(fs).m, rows));
    }
  }

  /** At every related point the depth is that of the start plus the number of live
      activations of eligible methods, however deep, and the rows below are intact. */
  lemma {:induction false} DepthBalanced(p: Program, base: seq<Row>, s: State, t: State)
    requires Related(p, base, s, t)
    ensures |t.rows| == |base| + Instrumented(p, s.frames) && base <= t.rows
  {
    SuspendedDepth(p, base, Init(s.frames), Init(t.frames), Below(p, s.Top().m, t.rows));
  }

  /** The original run stays above h activations for n steps. */
  ghost predicate StaysAbove(p: Program, sem: Semantics, c: Config, h: nat, n: nat) {
    forall i :: 0 <= i <= n ==> Run(p, sem, c, i).Running? && |Run(p, sem, c, i).s.frames| > h
  }

  /** While the callees of an activation run, return, throw, catch and call again, the rows
      of that activation and of all below it do not change. */
  lemma {:induction false} CallersUntouched(
    p: Program, sem: Semantics, base: seq<Row>, s: State, t: State, h: nat, n: nat)
    returns (k: nat)
    requires OriginalProgram(p) && Related(p, base, s, t) && StaysAbove(p, sem, Running(s), h, n)
    ensures
      var c, d := Run(p, sem, Running(s), n), Run(TransformProgram(p), sem, Running(t), k);
      && c.Running? && d.Running? && Related(p, base, c.s, d.s)
      && h < |s.frames| && h < |c.s.frames| && c.s.frames[..h] == s.frames[..h]
      && var depth := |base| + Instrumented(p, s.frames[..h]);
         depth <= |t.rows| && depth <= |d.s.rows| && d.s.rows[..depth] == t.rows[..depth]
    decreases n
  {
    hide Step, Run, Related, Instrumented, StaysAbove;
    var q := TransformProgram(p);
    StaysNow(p, sem, s, h, n);
    LowerDepth(p, base, s, t, h);
    if n == 0 {
      k := 0;
      RunZero(p, sem, Running(s));
      RunZero(q, sem, Running(t));
    } else {
      var k1 := StepMatched(p, sem, base, s, t);
      var s' := StaysNext(p, sem, s, h, n);
      var t' := Run(q, sem, Running(t), k1).s;
      RunOne(p, sem, Running(s));
      StepKeepsLower(p, sem, s, h);
      StaysNow(p, sem, s', h, n - 1);
      var k2 := CallersUntouched(p, sem, base, s', t', h, n - 1);
      LowerDepth(p, base, s', t', h);
      RunSplit(p, sem, Running(s), 1, Running(s'), n - 1, Run(p, sem, Running(s'), n - 1));
      RunSplit(q, sem, Running(t), k1, Running(t'), k2, Run(q, sem, Running(t'), k2));
      k := k1 + k2;
      var depth := |base| + Instrumented(p, s.frames[..h]);
      PrefixAgree(Below(p, s.Top().m, t.rows), t.rows, t'.rows, depth);
    }
  }

  lemma {:induction false} StaysNow(p: Program, sem: Semantics, s: State, h: nat, n: nat)
    requires StaysAbove(p, sem, Running(s), h, n)
    ensures |s.frames| > h
  {
    hide Step, Run;
    RunZero(p, sem, Running(s));
    assert |Run(p, sem, Running(s), 0).s.frames| > h;
  }

  lemma {:induction false} StaysNext(p: Program, sem: Semantics, s: State, h: nat, n: nat) returns (s': State)
    requires n > 0 && StaysAbove(p, sem, Running(s), h, n)
    ensures Step(p, sem, Running(s)) == Running(s') && StaysAbove(p, sem, Running(s'), h, n - 1)
  {
    hide Step, Run;
    RunOne(p, sem, Running(s));
    assert Run(p, sem, Running(s), 1).Running?;
    s' := Step(p, sem, Running(s)).s;
    forall i | 0 <= i <= n - 1
      ensures Run(p, sem, Running(s'), i).Running? && |Run(p, sem, Running(s'), i).s.frames| > h
    {
      RunSplit(p, sem, Running(s), 1, Running(s'), i, Run(p, sem, Running(s'), i));
    }
  }

  lemma {:induction false} PrefixAgree<T>(below: seq<T>, a: seq<T>, b: seq<T>, n: nat)
    requires below <= a && below <= b && n <= |below|
    ensures a[..n] == b[..n]
  {
    assert a[..n] == below[..n] == b[..n];
  }

  /** A step that leaves more than h activations leaves the lowest h alone. */
  lemma {:induction false} StepKeepsLower(p: Program, sem: Semantics, s: State, h: nat)
    requires s.frames != [] && |s.frames| > h
    ensures
      var c := Step(p, sem, Running(s));
      c.Running? && |c.s.frames| > h ==> c.s.frames[..h] == s.frames[..h]
  {
    hide LocalStep, BindArgs, FindHandler, IndexOf;
  }

  lemma {:induction false} LowerDepth(p: Program, base: seq<Row>, s: State, t: State, h: nat)
    requires Related(p, base, s, t) && |s.frames| > h
    ensures s.Top().m < |p| && (p[s.Top().m].eligible ==> t.rows != [])
    ensures |base| + Instrumented(p, s.frames[..h]) <= |Below(p, s.Top().m, t.rows)|
    ensures Below(p, s.Top().m, t.rows) <= t.rows
  {
    SuspendedDepth(p, base, Init(s.frames), Init(t.frames), Below(p, s.Top().m, t.rows));
    InstrumentedPrefix(p, Init(s.frames), h);
    assert s.frames[..h] == Init(s.frames)[..h];
  }

  lemma {:induction false} InstrumentedPrefix(p: Program, fs: seq<Frame>, h: nat)
    requires h <= |fs|
    ensures Instrumented(p, fs[..h]) <= Instrumented(p, fs)
    decreases |fs|
  {
    if h < |fs| {
      InstrumentedPrefix(p, Init(fs), h);
      assert Init(fs)[..h] == fs[..h];
    } else {
      assert fs[..h] == fs;
    }
  }

  // ---- Captured values ----

  /** When the transformed program is about to execute a call, a field access or an array
      access, its row holds the current value of every slot known there; and every inserted
      load on the way was legal, or it would not have come this far. */
  lemma {:induction false} CapturedValuesCurrent(p: Program, sem: Semantics, base: seq<Row>, s: State, t: State)
    returns (n: nat, t1: State)
    requires OriginalProgram(p) && Related(p, base, s, t) && s.mode.Normal? && p[s.Top().m].eligible
    requires s.Top().pc < |p[s.Top().m].body| && ThrowCapable(SiteInstr(p, s))
    ensures Run(TransformProgram(p), sem, Running(t), n) == Running(t1)
    ensures t1.frames != [] && t.rows != [] && t1.rows != [] && Init(t1.rows) == Init(t.rows)
    ensures t1.Top() == s.Top().(pc := SiteOf(p[s.Top().m], s.Top().pc))
    ensures t1.Top().pc < |TransformMethod(p[s.Top().m]).body|
    ensures TransformMethod(p[s.Top().m]).body[t1.Top().pc] == SiteInstr(p, s)
    ensures
      forall e :: e in KnownOf(p, s.Top()) ==>
        && HoldsKind(t1.Top().locals, e.slot, e.kind)
        && e.slot in Last(t1.rows) && Last(t1.rows)[e.slot] == t1.Top().locals[e.slot].v
  {
    hide Step, Expand, KnownAt, SiteOf, StartOf;
    n, t1 := ReachSite(p, sem, s, t);
    SiteFacts(p, base, s, t, t1);
  }

  /** What the body determines at an activation's element. */
  ghost predicate DeterminedIn(p: Program, f: Frame, slot: nat, kind: Kind)
    requires f.m < |p| && f.pc <= |p[f.m].body|
  {
    Determined(ParamSlots(p[f.m].isStatic, p[f.m].params), p[f.m].body, f.pc, slot, kind)
  }

  lemma {:induction false} KnownIsDetermined(p: Program, f: Frame, slot: nat, kind: Kind)
    requires f.m < |p| && f.pc <= |p[f.m].body|
    ensures Entry(slot, kind) in KnownOf(p, f) <==> DeterminedIn(p, f, slot, kind)
  {
    hide KnownAt, Determined, ParamSlots;
    ParamSlotsDisjoint(p[f.m].isStatic, p[f.m].params);
    KnownExactly(ParamSlots(p[f.m].isStatic, p[f.m].params), p[f.m].body, f.pc, Entry(slot, kind));
  }

  /** A local holds a value of the kind, and the row shows it. */
  predicate ShownIn(row: Row, locals: Locals, slot: nat, kind: Kind) {
    HoldsKind(locals, slot, kind) && slot in row && row[slot] == locals[slot].v
  }

  /** When a call, a field access or an array access of an eligible method is about to execute,
      the live row holds the current value of every slot that a store or increment earlier in the
      block, or a parameter in the first block, determines there. */
  lemma {:induction false} DeterminedSlotsCurrent(p: Program, sem: Semantics, base: seq<Row>, s: State, t: State)
    returns (n: nat, t1: State)
    requires OriginalProgram(p) && Related(p, base, s, t) && s.mode.Normal? && p[s.Top().m].eligible
    requires s.Top().pc < |p[s.Top().m].body|
    requires var i := p[s.Top().m].body[s.Top().pc]; i.Invoke? || i.Field? || i.ArrayLoad? || i.ArrayStore?
    ensures Run(TransformProgram(p), sem, Running(t), n) == Running(t1)
    ensures t1.frames != [] && t1.rows != [] && t1.Top() == s.Top().(pc := SiteOf(p[s.Top().m], s.Top().pc))
    ensures
      forall slot, kind :: DeterminedIn(p, s.Top(), slot, kind) ==>
        ShownIn(Last(t1.rows), t1.Top().locals, slot, kind)
  {
    hide Step, KnownAt, SiteOf, DeterminedIn, KnownOf;
    n, t1 := CapturedValuesCurrent(p, sem, base, s, t);
    var row, locals := Last(t1.rows), t1.Top().locals;
    forall slot, kind | DeterminedIn(p, s.Top(), slot, kind) ensures ShownIn(row, locals, slot, kind) {
      KnownIsDetermined(p, s.Top(), slot, kind);
    }
  }

  /** The row of every suspended activation of an eligible method is the one at that
      activation's depth, and holds the current value of every slot known at its call. */
  lemma {:induction false} CallerRowsCurrent(p: Program, base: seq<Row>, fs: seq<Frame>, gs: seq<Frame>,
                                             rows: seq<Row>, j: nat)
    requires Suspended(p, base, fs, gs, rows) && j < |fs| && fs[j].m < |p| && p[fs[j].m].eligible
    ensures fs[j].pc < |p[fs[j].m].body|
    ensures
      var depth := |base| + Instrumented(p, fs[..j]);
      && depth < |rows|
      && forall e :: e in KnownOf(p, fs[j]) ==>
           && HoldsKind(fs[j].locals, e.slot, e.kind)
           && e.slot in rows[depth] && rows[depth][e.slot] == fs[j].locals[e.slot].v
    decreases |fs|
  {
    hide KnownAt, SiteOf, HoldsKind;
    SuspendedDepth(p, base, fs, gs, rows);
    var below := Below(p, Last(fs).m, rows);
    if j == |fs| - 1 {
      assert fs[..j] == Init(fs);
      SuspendedDepth(p, base, Init(fs), Init(gs), below);
    } else {
      assert Init(fs)[..j] == fs[..j];
      CallerRowsCurrent(p, base, Init(fs), Init(gs), below, j);
    }
  }

  /** How many activations above the j-th have a row. */
  function Above(p: Program, fs: seq<Frame>, j: nat): int
    requires j < |fs|
  {
    Instrumented(p, fs) - Instrumented(p, fs[..j + 1])
  }

  /** The k-th row from the top holds the current value of every slot known in an activation. */
  ghost predicate Shows(p: Program, f: Frame, rows: seq<Row>, k: int) {
    && f.m < |p| && f.pc <= |p[f.m].body| && 0 <= k < |rows|
    && forall e :: e in KnownOf(p, f) ==>
         && HoldsKind(f.locals, e.slot, e.kind)
         && e.slot in rows[|rows| - 1 - k] && rows[|rows| - 1 - k][e.slot] == f.locals[e.slot].v
  }

  /** A caller's row is as far from the top as there are activations with a row above it. */
  lemma {:induction false} CallerShows(p: Program, base: seq<Row>, s: State, t: State, rows: seq<Row>, j: nat)
    requires Related(p, base, s, t) && j < |s.frames| - 1 && s.frames[j].m < |p| && p[s.frames[j].m].eligible
    requires |rows| == |t.rows| && Below(p, s.Top().m, t.rows) <= rows
    ensures Shows(p, s.frames[j], rows, Above(p, s.frames, j))
  {
    hide KnownAt, Suspended, HoldsKind, Instrumented, Above;
    var fs, below := s.frames, Below(p, s.Top().m, t.rows);
    assert Init(fs)[j] == fs[j] && Init(fs)[..j] == fs[..j];
    CallerRowsCurrent(p, base, Init(fs), Init(t.frames), below, j);
    DepthFromTop(p, base, s, t, j);
  }

  lemma {:induction false} DepthFromTop(p: Program, base: seq<Row>, s: State, t: State, j: nat)
    requires Related(p, base, s, t) && j < |s.frames| && s.frames[j].m < |p| && p[s.frames[j].m].eligible
    ensures |t.rows| - 1 - Above(p, s.frames, j) == |base| + Instrumented(p, s.frames[..j])
    ensures Above(p, s.frames, j) >= 0
  {
    hide Related;
    var fs := s.frames;
    DepthBalanced(p, base, s, t);
    assert Init(fs[..j + 1]) == fs[..j] && Last(fs[..j + 1]) == fs[j];
    InstrumentedPrefix(p, fs, j + 1);
  }

  /** When a throw-capable element is about to execute in an eligible method, every live
      activation of an eligible method has its row, counted from the top, up to date. */
  lemma {:induction false} EveryRowShows(p: Program, sem: Semantics, base: seq<Row>, s: State, t: State)
    returns (n: nat, t1: State)
    requires OriginalProgram(p) && Related(p, base, s, t) && s.mode.Normal? && p[s.Top().m].eligible
    requires s.Top().pc < |p[s.Top().m].body| && ThrowCapable(SiteInstr(p, s))
    ensures Run(TransformProgram(p), sem, Running(t), n) == Running(t1)
    ensures t1.frames != [] && t1.Top() == s.Top().(pc := SiteOf(p[s.Top().m], s.Top().pc))
    ensures forall j: nat :: j < |s.frames| && s.frames[j].m < |p| && p[s.frames[j].m].eligible ==>
      Shows(p, s.frames[j], t1.rows, Above(p, s.frames, j))
  {
    hide Step, KnownAt, SiteOf, Suspended, Shows, Above, Instrumented;
    n, t1 := CapturedValuesCurrent(p, sem, base, s, t);
    TopShows(p, s, t1.rows, t1.Top().locals);
    RowsBelow(p, base, s, t, t1.rows);
    forall j: nat | j < |s.frames| && s.frames[j].m < |p| && p[s.frames[j].m].eligible
      ensures Shows(p, s.frames[j], t1.rows, Above(p, s.frames, j))
    {
      if j < |s.frames| - 1 {
        CallerShows(p, base, s, t, t1.rows, j);
      }
    }
  }

  lemma {:induction false} TopShows(p: Program, s: State, rows: seq<Row>, locals: Locals)
    requires s.frames != [] && s.Top().m < |p| && s.Top().pc < |p[s.Top().m].body| && rows != []
    requires locals == s.Top().locals
    requires
      forall e :: e in KnownOf(p, s.Top()) ==>
        HoldsKind(locals, e.slot, e.kind) && e.slot in Last(rows) && Last(rows)[e.slot] == locals[e.slot].v
    ensures Shows(p, s.frames[|s.frames| - 1], rows, Above(p, s.frames, |s.frames| - 1))
  {
    hide KnownAt, Instrumented;
    assert s.frames[..|s.frames|] == s.frames;
  }

  lemma {:induction false} RowsBelow(p: Program, base: seq<Row>, s: State, t: State, rows: seq<Row>)
    requires Related(p, base, s, t) && p[s.Top().m].eligible && t.rows != [] && rows != [] && Init(rows) == Init(t.rows)
    ensures |rows| == |t.rows| && Below(p, s.Top().m, t.rows) <= rows && s.Top() == s.frames[|s.frames| - 1]
  {
    assert rows == Init(rows) + [Last(rows)] && t.rows == Init(t.rows) + [Last(t.rows)];
  }

  /** What the agent reads: for the activation with k instrumented ones above it, the frame and
      the tags at depth k give the current value of every slot the body determines there that the
      store has room for, and nothing beyond its 64 rows and 32 slots. */
  method AgentReads(sh: ThreadShadow, k: nat, slot: nat, ghost p: Program, ghost f: Frame, ghost kind: Kind)
    returns (r: Option<Read>)
    requires sh.Valid() && Shows(p, f, sh.stack, k) && DeterminedIn(p, f, slot, kind)
    ensures HoldsKind(f.locals, slot, kind)
    ensures
      r == if |sh.stack| - 1 - k < 64 && slot < 32 then Some(Captured(f.locals[slot].v)) else None
  {
    hide KnownAt, DeterminedIn;
    KnownIsDetermined(p, f, slot, kind);
    ghost var d := |sh.stack| - 1 - k;
    ReadsBack(sh.stack, d, slot);
    var cells := sh.GetFrame(k);
    var tags := sh.GetSlotTypes(k);
    if cells.None? || tags.None? || slot >= MAX_SLOTS { return None; }
    r := Some(ReadSlot(cells.value[slot], tags.value[slot]));
  }
}
