/** Where each original element, label and handler ends up in a transformed body. */
module ShadowLayout {
  import opened Bytecode
  import opened ShadowTransform
  import opened ShadowMachine

  /** Where the expansion of element n begins. */
  function StartOf(m: Method, n: nat): nat
    requires n <= |m.body|
  {
    if m.eligible then |Prologue(Params(m))| + |Expand(Params(m), m.body, n)| else n
  }

  /** Where element n itself is. */
  function SiteOf(m: Method, n: nat): nat
    requires n < |m.body|
  {
    StartOf(m, n) + if m.eligible then |Before(KnownAt(Params(m), m.body, n), m.body[n])| else 0
  }

  lemma {:induction false} ExpandNext(es: seq<Entry>, body: seq<Instr>, n: nat)
    requires n < |body|
    ensures Expand(es, body, n + 1) == Expand(es, body, n) + Expansion(KnownAt(es, body, n), body[n])
  {
  }

  lemma {:induction false} ExpandPrefix(es: seq<Entry>, body: seq<Instr>, n: nat, k: nat)
    requires n <= k <= |body|
    ensures Expand(es, body, n) <= Expand(es, body, k)
  {
    hide Expand, KnownAt, Expansion;
    if n < k {
      ExpandPrefix(es, body, n, k - 1);
      ExpandNext(es, body, k - 1);
      PrefixOfAppend(Expand(es, body, n), Expand(es, body, k - 1), Expansion(KnownAt(es, body, k - 1), body[k - 1]));
    }
  }

  lemma {:induction false} PrefixOfAppend<T>(a: seq<T>, b: seq<T>, c: seq<T>)
    requires a <= b
    ensures a <= b + c
  {
    assert (b + c)[..|a|] == b[..|a|];
  }

  lemma {:induction false} PrefixAt<T>(pro: seq<T>, a: seq<T>, b: seq<T>, post: seq<T>, lo: nat, hi: nat)
    requires a <= b && lo <= hi <= |a|
    ensures (pro + b + post)[|pro| + lo..|pro| + hi] == a[lo..hi]
  {
    assert b[lo..hi] == a[lo..hi];
  }

  lemma {:induction false} ExpandElements(es: seq<Entry>, body: seq<Instr>, k: nat)
    requires k <= |body|
    ensures forall x :: x in Expand(es, body, k) ==> x.Inserted() || x in body[..k]
  {
    if k > 0 {
      ExpandElements(es, body, k - 1);
      assert body[..k] == body[..k - 1] + [body[k - 1]];
    }
  }

  /** The expansion of element n: the inserted code, then the element. */
  lemma {:induction false} ElementLayout(m: Method, n: nat)
    requires m.eligible && n < |m.body|
    ensures
      var t := TransformMethod(m).body;
      && SiteOf(m, n) + 1 == StartOf(m, n + 1) <= |t| - 4
      && t[SiteOf(m, n)] == m.body[n]
      && t[StartOf(m, n)..SiteOf(m, n)] == Before(KnownAt(Params(m), m.body, n), m.body[n])
  {
    hide Expand, KnownAt, Prologue, Epilogue, Before, Expansion, TransformMethod;
    var es := Params(m);
    var pro, here, known := Prologue(es), Expand(es, m.body, n), KnownAt(es, m.body, n);
    var next, all := Expand(es, m.body, n + 1), Expand(es, m.body, |m.body|);
    TransformedBody(m);
    ExpandNext(es, m.body, n);
    ExpandPrefix(es, m.body, n + 1, |m.body|);
    ExpansionLayout(here, known, m.body[n]);
    var site := |here| + |Before(known, m.body[n])|;
    PrefixAt(pro, next, all, Epilogue(), |here|, site);
    PrefixAt(pro, next, all, Epilogue(), site, site + 1);
    assert TransformMethod(m).body[|pro| + site] == next[site..site + 1][0];
  }

  /** An element's place, in any method. */
  lemma {:induction false} SiteInBody(m: Method, n: nat)
    requires n < |m.body|
    ensures
      var t := TransformMethod(m).body;
      SiteOf(m, n) < |t| && t[SiteOf(m, n)] == m.body[n] && SiteOf(m, n) + 1 == StartOf(m, n + 1)
  {
    hide Expand, KnownAt, Prologue, Before, TransformBody;
    if m.eligible { ElementLayout(m, n); }
  }

  lemma {:induction false} TransformedBody(m: Method)
    requires m.eligible
    ensures |Epilogue()| == 4
    ensures TransformMethod(m).body == Prologue(Params(m)) + Expand(Params(m), m.body, |m.body|) + Epilogue()
  {
    hide Expand, Prologue;
  }

  lemma {:induction false} ExpansionLayout(here: seq<Instr>, known: seq<Entry>, i: Instr)
    ensures
      var next, site := here + Expansion(known, i), |here| + |Before(known, i)|;
      && |next| == site + 1 && next[site] == i && next[|here|..site] == Before(known, i)
  {
  }

  lemma {:induction false} SiteMonotone(m: Method, i: nat, j: nat)
    requires i < j < |m.body|
    ensures SiteOf(m, i) < SiteOf(m, j)
  {
    hide Expand, KnownAt, Prologue, Before, TransformMethod;
    if m.eligible {
      ElementLayout(m, i);
      ExpandPrefix(Params(m), m.body, i + 1, j);
    }
  }

  lemma {:induction false} SiteOrder(m: Method, i: nat, j: nat)
    requires i < |m.body| && j < |m.body|
    ensures i < j <==> SiteOf(m, i) < SiteOf(m, j)
  {
    hide SiteOf;
    if i < j { SiteMonotone(m, i, j); }
    if j < i { SiteMonotone(m, j, i); }
  }

  lemma {:induction false} PrologueElements(es: seq<Entry>)
    ensures |Prologue(es)| >= 2 && forall i :: 0 < i < |Prologue(es)| ==> Prologue(es)[i].Inserted()
  {
  }

  /** Before the epilogue, the only label that is not original is the first element. */
  lemma {:induction false} LabelsBefore(m: Method, n: nat, j: nat)
    requires m.eligible && n <= |m.body| && j < StartOf(m, n)
    ensures
      var t := TransformMethod(m).body;
      && j < |t|
      && (j == 0 ==> t[j] == LabelTarget(TryStart))
      && (j > 0 ==> t[j].Inserted() || t[j] in m.body[..n])
  {
    var es := Params(m);
    var pro, here, all := Prologue(es), Expand(es, m.body, n), Expand(es, m.body, |m.body|);
    ExpandPrefix(es, m.body, n, |m.body|);
    ElementAt(pro, here, all, Epilogue(), j);
    if j < |pro| {
      PrologueElements(es);
    } else {
      ExpandElements(es, m.body, n);
    }
  }

  lemma {:induction false} ElementAt<T>(pro: seq<T>, a: seq<T>, b: seq<T>, post: seq<T>, j: nat)
    requires a <= b && j < |pro| + |a|
    ensures j < |pro + b + post|
    ensures (pro + b + post)[j] == if j < |pro| then pro[j] else a[j - |pro|]
  {
  }

  /** A bound original label moves with the element that binds it. */
  lemma {:induction false} LabelMoves(m: Method, l: LabelId)
    requires OriginalMethod(m) && l.Orig? && Bound(m.body, l)
    ensures
      var t, i := TransformMethod(m).body, IndexOf(m.body, l);
      i < |m.body| && IndexOf(t, l) == SiteOf(m, i) == StartOf(m, i) && Bound(t, l)
  {
    var i := IndexOf(m.body, l);
    assert i < |m.body|;
    if m.eligible {
      var t := TransformMethod(m).body;
      ElementLayout(m, i);
      forall j | 0 <= j < SiteOf(m, i)
        ensures t[j] != LabelTarget(l)
      {
        LabelsBefore(m, i, j);
      }
      IndexOfIs(t, l, SiteOf(m, i));
    }
  }

  lemma {:induction false} EpilogueEnds(front: seq<Instr>, t: seq<Instr>)
    requires t == front + Epilogue()
    ensures |t| == |front| + 4 && t[|t| - 4..] == Epilogue()
    ensures t[|t| - 4] == LabelTarget(TryEnd) && t[|t| - 3] == LabelTarget(CatchAll)
  {
  }

  lemma {:induction false} NotOwnLabel(m: Method, j: nat)
    requires OriginalMethod(m) && m.eligible && j < StartOf(m, |m.body|)
    ensures j < |TransformMethod(m).body|
    ensures TransformMethod(m).body[j] != LabelTarget(TryEnd) && TransformMethod(m).body[j] != LabelTarget(CatchAll)
  {
    hide Expand, Prologue, TransformMethod, StartOf;
    LabelsBefore(m, |m.body|, j);
    var i := TransformMethod(m).body[j];
    if i in m.body[..|m.body|] { assert OriginalInstr(m.body, i); }
  }

  /** The three labels of the transform: region start and end, and handler. */
  lemma {:induction false} OwnLabels(m: Method)
    requires OriginalMethod(m) && m.eligible
    ensures
      var t := TransformMethod(m).body;
      && |t| >= 6
      && IndexOf(t, TryStart) == 0
      && IndexOf(t, TryEnd) == |t| - 4 == StartOf(m, |m.body|)
      && IndexOf(t, CatchAll) == |t| - 3
      && t[|t| - 4..] == Epilogue()
  {
    hide Expand, Prologue, TransformMethod, OriginalMethod, OriginalInstr, IndexOf, Epilogue;
    var t := TransformMethod(m).body;
    TransformedBody(m);
    PrologueElements(Params(m));
    EpilogueEnds(Prologue(Params(m)) + Expand(Params(m), m.body, |m.body|), t);
    LabelsBefore(m, |m.body|, 0);
    forall j | 0 <= j < |t| - 4
      ensures t[j] != LabelTarget(TryEnd) && t[j] != LabelTarget(CatchAll)
    {
      NotOwnLabel(m, j);
    }
    IndexOfIs(t, TryStart, 0);
    IndexOfIs(t, TryEnd, |t| - 4);
    IndexOfIs(t, CatchAll, |t| - 3);
  }

  /** Where a bound label is, relative to an element, before and after. */
  lemma {:induction false} LabelOrder(m: Method, l: LabelId, pc: nat)
    requires OriginalMethod(m) && l.Orig? && Bound(m.body, l) && pc < |m.body|
    ensures
      var t := TransformMethod(m).body;
      IndexOf(t, l) <= SiteOf(m, pc) <==> IndexOf(m.body, l) <= pc
  {
    LabelMoves(m, l);
    SiteOrder(m, pc, IndexOf(m.body, l));
  }

  /** An original handler covers the same elements as before. */
  lemma {:induction false} HandlerMoves(m: Method, h: Handler, pc: nat)
    requires OriginalMethod(m) && h in m.table && pc < |m.body|
    ensures Covers(TransformMethod(m).body, h, SiteOf(m, pc)) == Covers(m.body, h, pc)
  {
    assert OriginalHandler(m.body, h);
    LabelOrder(m, h.start, pc);
    LabelOrder(m, h.end, pc);
  }

  /** An original handler never covers the rethrow at the end. */
  lemma {:induction false} HandlerEnds(m: Method, h: Handler)
    requires OriginalMethod(m) && m.eligible && h in m.table
    ensures !Covers(TransformMethod(m).body, h, |TransformMethod(m).body| - 1)
  {
    assert OriginalHandler(m.body, h);
    LabelMoves(m, h.end);
    ElementLayout(m, IndexOf(m.body, h.end));
  }

  lemma {:induction false} FindSame(sem: Semantics, code: seq<Instr>, code': seq<Instr>,
                                    table: seq<Handler>, pc: nat, pc': nat, exc: int, w: World)
    requires forall h :: h in table ==> Covers(code, h, pc) == Covers(code', h, pc')
    ensures FindHandler(sem, code, table, pc, exc, w) == FindHandler(sem, code', table, pc', exc, w)
    decreases |table|
  {
    if table != [] {
      FindSame(sem, code, code', table[1..], pc, pc', exc, w);
    }
  }

  lemma {:induction false} FindNone(sem: Semantics, code: seq<Instr>, table: seq<Handler>, pc: nat, exc: int, w: World)
    requires forall h :: h in table ==> !Covers(code, h, pc)
    ensures FindHandler(sem, code, table, pc, exc, w) == |table|
    decreases |table|
  {
    if table != [] {
      FindNone(sem, code, table[1..], pc, exc, w);
    }
  }

  lemma {:induction false} FindAppend(sem: Semantics, code: seq<Instr>, table: seq<Handler>, last: Handler,
                                      pc: nat, exc: int, w: World)
    ensures
      var k := FindHandler(sem, code, table, pc, exc, w);
      FindHandler(sem, code, table + [last], pc, exc, w)
      == if k < |table| then k
         else if Covers(code, last, pc) && (last.catchAll || sem.catches(last.catchType, exc, w)) then |table|
         else |table| + 1
    decreases |table|
  {
    if table == [] {
      assert (table + [last])[1..] == [];
    } else {
      assert (table + [last])[1..] == table[1..] + [last];
      FindAppend(sem, code, table[1..], last, pc, exc, w);
    }
  }

  /** An exception at an original element reaches the same original handler; when there
      is none, it reaches the catch-all. */
  lemma {:induction false} HandlerLookup(sem: Semantics, m: Method, pc: nat, exc: int, w: World)
    requires OriginalMethod(m) && pc < |m.body|
    ensures
      var t, k := TransformMethod(m), FindHandler(sem, m.body, m.table, pc, exc, w);
      FindHandler(sem, t.body, t.table, SiteOf(m, pc), exc, w) == k
  {
    var t := TransformMethod(m);
    forall h | h in m.table ensures Covers(m.body, h, pc) == Covers(t.body, h, SiteOf(m, pc)) {
      HandlerMoves(m, h, pc);
    }
    FindSame(sem, m.body, t.body, m.table, pc, SiteOf(m, pc), exc, w);
    if m.eligible {
      OwnLabels(m);
      ElementLayout(m, pc);
      FindAppend(sem, t.body, m.table, CATCH_ALL_ENTRY, SiteOf(m, pc), exc, w);
    }
  }

  lemma {:induction false} CatchAllEnds(code: seq<Instr>)
    requires |code| >= 4 && IndexOf(code, TryEnd) == |code| - 4
    ensures !Covers(code, CATCH_ALL_ENTRY, |code| - 1)
  {
  }

  /** What the catch-all rethrows is not caught in the same method again. */
  lemma {:induction false} RethrowEscapes(sem: Semantics, m: Method, exc: int, w: World)
    requires OriginalMethod(m) && m.eligible
    ensures
      var t := TransformMethod(m);
      FindHandler(sem, t.body, t.table, |t.body| - 1, exc, w) == |t.table|
  {
    hide Expand, Prologue, IndexOf, Covers, TransformBody;
    var t := TransformMethod(m);
    OwnLabels(m);
    CatchAllEnds(t.body);
    forall h | h in t.table ensures !Covers(t.body, h, |t.body| - 1) {
      if h in m.table { HandlerEnds(m, h); }
    }
    FindNone(sem, t.body, t.table, |t.body| - 1, exc, w);
  }
}
