/** Which slots are captured where, read off the body: a slot is captured before a throw-capable
    element exactly when a store or increment earlier in the same block, or the parameter list,
    still determines it there. */
module ShadowTracking {
  import opened Bytecode
  import opened ShadowTransform
  import opened ShadowMachine
  import opened ShadowLayout

  /** The element gives the slot a value of the kind. */
  predicate Sets(i: Instr, slot: nat, kind: Kind) {
    i == Store(slot, kind) || (i.Increment? && i.slot == slot && kind == KInt)
  }

  /** The element begins a block, or writes to a half of a value of the kind in the slot: to its
      own slots, or a wide value to the slot below. */
  predicate Ends(i: Instr, slot: nat, kind: Kind) {
    || i.LabelTarget?
    || (i.Increment? && (i.slot == slot || (i.slot == slot + 1 && kind.Wide())))
    || (i.Store? && (i.slot == slot || (i.slot == slot + 1 && kind.Wide()) || (i.slot + 1 == slot && i.kind.Wide())))
  }

  /** Nothing from element i up to n ends it. */
  ghost predicate Lasts(body: seq<Instr>, i: nat, n: nat, slot: nat, kind: Kind)
    requires n <= |body|
  {
    forall j :: i <= j < n ==> !Ends(body[j], slot, kind)
  }

  /** Element i sets the slot, and nothing ends that before element n. */
  ghost predicate SetAt(body: seq<Instr>, i: nat, n: nat, slot: nat, kind: Kind)
    requires n <= |body|
  {
    i < n && Sets(body[i], slot, kind) && Lasts(body, i + 1, n, slot, kind)
  }

  ghost predicate Determined(params: seq<Entry>, body: seq<Instr>, n: nat, slot: nat, kind: Kind)
    requires n <= |body|
  {
    || (exists i: nat :: SetAt(body, i, n, slot, kind))
    || (Entry(slot, kind) in params && Lasts(body, 0, n, slot, kind))
  }

  // ---- The table ----

  ghost predicate OneKind(es: seq<Entry>) {
    forall e, f :: e in es && f in es && e.slot == f.slot ==> e == f
  }

  lemma {:induction false} RecordStoreExactly(known: seq<Entry>, slot: nat, kind: Kind)
    requires OneKind(known)
    ensures OneKind(RecordStore(known, slot, kind))
    ensures
      forall e :: e in RecordStore(known, slot, kind) <==>
        || e == Entry(slot, kind)
        || (&& e in known && e.slot != slot
            && !(slot == e.slot + 1 && e.kind.Wide()) && !(slot + 1 == e.slot && kind.Wide()))
  {
  }

  lemma {:induction false} AdvanceExactly(known: seq<Entry>, i: Instr, e: Entry)
    requires OneKind(known)
    ensures OneKind(Advance(known, i))
    ensures e in Advance(known, i) <==> Sets(i, e.slot, e.kind) || (e in known && !Ends(i, e.slot, e.kind))
  {
    hide RecordStore;
    if i.Store? { RecordStoreExactly(known, i.slot, i.kind); }
    if i.Increment? { RecordStoreExactly(known, i.slot, KInt); }
  }

  lemma {:induction false} DeterminedNext(params: seq<Entry>, body: seq<Instr>, n: nat, slot: nat, kind: Kind)
    requires n < |body|
    ensures
      Determined(params, body, n + 1, slot, kind)
      <==> Sets(body[n], slot, kind) || (Determined(params, body, n, slot, kind) && !Ends(body[n], slot, kind))
  {
    hide Sets, Ends;
    if Sets(body[n], slot, kind) {
      assert SetAt(body, n, n + 1, slot, kind);
    }
    if Determined(params, body, n, slot, kind) && !Ends(body[n], slot, kind) {
      if i: nat :| SetAt(body, i, n, slot, kind) {
        assert SetAt(body, i, n + 1, slot, kind);
      }
    }
    if Determined(params, body, n + 1, slot, kind) && !Sets(body[n], slot, kind) {
      var next := n + 1;
      if i: nat :| SetAt(body, i, next, slot, kind) {
        assert i < n;
        assert SetAt(body, i, n, slot, kind);
      }
    }
  }

  lemma {:induction false} ParamsOneKind(params: seq<Entry>)
    requires Disjoint(params)
    ensures OneKind(params)
  {
    assert forall i, j :: 0 <= i < j < |params| ==> params[i].slot < params[j].slot;
  }

  /** The table before element n holds exactly what the body determines there. */
  lemma {:induction false} KnownExactly(params: seq<Entry>, body: seq<Instr>, n: nat, e: Entry)
    requires Disjoint(params) && n <= |body|
    ensures OneKind(KnownAt(params, body, n))
    ensures e in KnownAt(params, body, n) <==> Determined(params, body, n, e.slot, e.kind)
    decreases n
  {
    hide Advance, Sets, Ends;
    if n == 0 {
      ParamsOneKind(params);
    } else {
      KnownExactly(params, body, n - 1, e);
      AdvanceExactly(KnownAt(params, body, n - 1), body[n - 1], e);
      hide Determined;
      DeterminedNext(params, body, n - 1, e.slot, e.kind);
    }
  }

  // ---- The code ----

  lemma {:induction false} CapturesHold(es: seq<Entry>, slot: nat, kind: Kind)
    ensures InsertedLoad(slot, kind) in Captures(es) <==> Entry(slot, kind) in es
    decreases |es|
  {
    if es != [] {
      CapturesHold(es[1..], slot, kind);
      assert es == [es[0]] + es[1..];
      var c := CaptureOf(es[0]);
      assert InsertedLoad(slot, kind) in c <==> c[1] == InsertedLoad(slot, kind);
    }
  }

  /** Before an element the transformed code loads a slot for capture exactly when the element is
      a call, a field access or an array access and the body determines the slot there. */
  lemma {:induction false} CapturedExactly(m: Method, n: nat, slot: nat, kind: Kind)
    requires m.eligible && n < |m.body|
    ensures StartOf(m, n) <= SiteOf(m, n) < |TransformMethod(m).body|
    ensures
      var t, i := TransformMethod(m).body, m.body[n];
      && t[SiteOf(m, n)] == i
      && (InsertedLoad(slot, kind) in t[StartOf(m, n)..SiteOf(m, n)]
          <==> (i.Invoke? || i.Field? || i.ArrayLoad? || i.ArrayStore?)
               && Determined(ParamSlots(m.isStatic, m.params), m.body, n, slot, kind))
  {
    hide Determined, KnownAt, ParamSlots, TransformMethod, Captures, Expand, Prologue;
    var params := ParamSlots(m.isStatic, m.params);
    ElementLayout(m, n);
    ParamSlotsDisjoint(m.isStatic, m.params);
    KnownExactly(params, m.body, n, Entry(slot, kind));
    CapturesHold(KnownAt(params, m.body, n), slot, kind);
    BeforeIs(KnownAt(params, m.body, n), m.body[n], slot, kind);
  }

  lemma {:induction false} BeforeIs(known: seq<Entry>, i: Instr, slot: nat, kind: Kind)
    ensures
      InsertedLoad(slot, kind) in Before(known, i)
      <==> (i.Invoke? || i.Field? || i.ArrayLoad? || i.ArrayStore?) && InsertedLoad(slot, kind) in Captures(known)
  {
    hide Captures;
  }

  /** A store and a call: the call is preceded by the capture of the receiver, the parameter and
      the slot just stored. */
  lemma {:induction false} StoreIsCaptured()
    ensures
      var m := Method(true, false, [TLong], [Store(3, KInt), Invoke(0), Return(true)], []);
      TransformMethod(m).body
      == [LabelTarget(TryStart), InsertedCall(EnterMethod)]
         + CaptureOf(Entry(0, KRef)) + CaptureOf(Entry(1, KLong))
         + [Store(3, KInt)]
         + CaptureOf(Entry(0, KRef)) + CaptureOf(Entry(1, KLong)) + CaptureOf(Entry(3, KInt)) + [Invoke(0)]
         + [InsertedCall(ExitMethod), Return(true)]
         + [LabelTarget(TryEnd), LabelTarget(CatchAll), InsertedCall(ExitMethod), InsertedRethrow]
  {
    hide Prologue, Expand, Captures, CaptureOf, KnownAt, TransformMethod, Expansion, ParamSlots;
    var m := Method(true, false, [TLong], [Store(3, KInt), Invoke(0), Return(true)], []);
    var es := [Entry(0, KRef), Entry(1, KLong)];
    TwoParams();
    TransformedBody(m);
    PrologueOfTwo(es);
    StoreExpanded(es, m.body);
  }

  lemma {:induction false} StoreExpanded(es: seq<Entry>, body: seq<Instr>)
    requires es == [Entry(0, KRef), Entry(1, KLong)] && body == [Store(3, KInt), Invoke(0), Return(true)]
    ensures
      Expand(es, body, 3)
      == [Store(3, KInt)]
         + CaptureOf(Entry(0, KRef)) + CaptureOf(Entry(1, KLong)) + CaptureOf(Entry(3, KInt)) + [Invoke(0)]
         + [InsertedCall(ExitMethod), Return(true)]
  {
    hide Expand, Captures, CaptureOf, KnownAt;
    StoreTable(es, body);
    ExpandNext(es, body, 0);
    ExpandNext(es, body, 1);
    ExpandNext(es, body, 2);
    ThreeCaptures();
    ExpandNone(es, body);
  }

  lemma {:induction false} TwoParams()
    ensures ParamSlots(false, [TLong]) == [Entry(0, KRef), Entry(1, KLong)]
  {
    assert SlotsFrom(3, []) == [];
    assert [TLong][1..] == [];
  }

  lemma {:induction false} ExpandNone(es: seq<Entry>, body: seq<Instr>)
    ensures Expand(es, body, 0) == []
  {
  }

  lemma {:induction false} StoreTable(es: seq<Entry>, body: seq<Instr>)
    requires es == [Entry(0, KRef), Entry(1, KLong)] && body == [Store(3, KInt), Invoke(0), Return(true)]
    ensures KnownAt(es, body, 0) == es
    ensures KnownAt(es, body, 1) == KnownAt(es, body, 2) == es + [Entry(3, KInt)]
  {
    hide Put;
    PutFresh(es, Entry(3, KInt));
    assert !WideAt(es, 2);
    assert KnownAt(es, body, 1) == Advance(KnownAt(es, body, 0), body[0]);
    assert KnownAt(es, body, 2) == Advance(KnownAt(es, body, 1), body[1]);
  }

  lemma {:induction false} TwoCaptures(es: seq<Entry>)
    requires es == [Entry(0, KRef), Entry(1, KLong)]
    ensures Captures(es) == CaptureOf(Entry(0, KRef)) + CaptureOf(Entry(1, KLong))
  {
    hide Captures;
    CapturesNone();
    CapturesAppend([], Entry(0, KRef));
    CapturesAppend([Entry(0, KRef)], Entry(1, KLong));
    assert [] + [Entry(0, KRef)] == [Entry(0, KRef)] && es == [Entry(0, KRef)] + [Entry(1, KLong)];
  }

  lemma {:induction false} CapturesNone()
    ensures Captures([]) == []
  {
  }

  lemma {:induction false} PrologueOfTwo(es: seq<Entry>)
    requires es == [Entry(0, KRef), Entry(1, KLong)]
    ensures
      Prologue(es)
      == [LabelTarget(TryStart), InsertedCall(EnterMethod)] + CaptureOf(Entry(0, KRef)) + CaptureOf(Entry(1, KLong))
  {
    hide Captures, CaptureOf;
    TwoCaptures(es);
  }

  lemma {:induction false} ThreeCaptures()
    ensures
      Captures([Entry(0, KRef), Entry(1, KLong)] + [Entry(3, KInt)])
      == CaptureOf(Entry(0, KRef)) + CaptureOf(Entry(1, KLong)) + CaptureOf(Entry(3, KInt))
  {
    hide Captures, CaptureOf;
    TwoCaptures([Entry(0, KRef), Entry(1, KLong)]);
    CapturesAppend([Entry(0, KRef), Entry(1, KLong)], Entry(3, KInt));
  }

  // ---- Parameters ----

  /** How many of the types take two slots. */
  function WideCount(params: seq<TypeKind>): nat {
    if params == [] then 0
    else WideCount(params[..|params| - 1]) + if params[|params| - 1] in {TLong, TDouble} then 1 else 0
  }

  lemma {:induction false} WideCountHead(params: seq<TypeKind>)
    requires params != []
    ensures WideCount(params) == (if params[0] in {TLong, TDouble} then 1 else 0) + WideCount(params[1..])
    decreases |params|
  {
    var n := |params| - 1;
    if n > 0 {
      WideCountHead(params[..n]);
      assert params[..n][1..] == params[1..][..n - 1];
    } else {
      assert params[..0] == [] && params[1..] == [];
    }
  }

  lemma {:induction false} SlotsFromAt(slot: nat, params: seq<TypeKind>, j: nat)
    requires j < |params|
    ensures |SlotsFrom(slot, params)| == |params|
    ensures SlotsFrom(slot, params)[j] == Entry(slot + j + WideCount(params[..j]), StoreKind(params[j]))
    decreases |params|
  {
    hide StoreKind;
    var next := slot + params[0].SlotSize();
    if j > 0 {
      SlotsFromAt(next, params[1..], j - 1);
      WideCountHead(params[..j]);
      assert params[..j][1..] == params[1..][..j - 1];
    } else if |params| > 1 {
      SlotsFromAt(next, params[1..], 0);
    }
  }

  /** The j-th parameter is in the slot after the receiver, if there is one, and the parameters
      before it, of which long and double take two; it is captured as what its type is stored as. */
  lemma {:induction false} ParamSlotIs(isStatic: bool, params: seq<TypeKind>, j: nat)
    requires j < |params|
    ensures
      var receiver, t := if isStatic then 0 else 1, params[j];
      var es := ParamSlots(isStatic, params);
      && |es| == receiver + |params| && (!isStatic ==> es[0] == Entry(0, KRef))
      && es[receiver + j].slot == receiver + j + WideCount(params[..j])
      && (es[receiver + j].kind == KLong <==> t == TLong) && (es[receiver + j].kind == KDouble <==> t == TDouble)
      && (es[receiver + j].kind == KFloat <==> t == TFloat) && (es[receiver + j].kind == KRef <==> t == TReference)
  {
    SlotsFromAt(if isStatic then 0 else 1, params, j);
  }
}
