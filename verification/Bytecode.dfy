/** Method bodies, local variables and exception tables, abstracted from class files.

    A method body is a list of code elements; labels are elements, as they are for a
    class-file code transform.  Elements the transform does not look into are opaque:
    their effect is a parameter of the machine in module ShadowMachine. */
module Bytecode {

  /** The coarse kinds a local-variable store can have. */
  datatype Kind = KInt | KLong | KFloat | KDouble | KRef {
    /** long and double occupy two local-variable slots. */
    predicate Wide() { KLong? || KDouble? }
  }

  /** The kinds a parameter can be declared with. */
  datatype TypeKind = TBoolean | TByte | TChar | TShort | TInt | TLong | TFloat | TDouble | TReference {
    function SlotSize(): nat { if TLong? || TDouble? then 2 else 1 }
  }

  /** A value of a kind; for a reference, bits == 0 is null. */
  datatype Value = Value(kind: Kind, bits: int)

  /** Labels of the original body are Orig; the others are created by the transform. */
  datatype LabelId = Orig(n: nat) | TryStart | TryEnd | CatchAll

  /** Calls to the shadow store. */
  datatype ShadowCall = EnterMethod | ExitMethod | Capture(kind: Kind)

  /** Code elements.  The Inserted ones appear only in transformed bodies; an inserted
      constant, load, static call or athrow is the ordinary instruction, marked. */
  datatype Instr =
    | LabelTarget(id: LabelId)
    | Store(slot: nat, kind: Kind)
    | Load(slot: nat, kind: Kind)
    | Increment(slot: nat, delta: int)
    | Branch(opcode: nat, targets: seq<LabelId>)
    | Return(void: bool)
    | Throw
    | Invoke(opcode: nat)
    | Field(opcode: nat)
    | ArrayLoad(opcode: nat)
    | ArrayStore(opcode: nat)
    | Other(opcode: nat)
    | InsertedConst(value: nat)
    | InsertedLoad(slot: nat, kind: Kind)
    | InsertedCall(call: ShadowCall)
    | InsertedRethrow
  {
    predicate Inserted() {
      InsertedConst? || InsertedLoad? || InsertedCall? || InsertedRethrow?
    }
  }

  /** An exception-table entry; a catch-all has no catch type. */
  datatype Handler = Handler(start: LabelId, end: LabelId, target: LabelId, catchAll: bool, catchType: nat)

  datatype Method = Method(eligible: bool, isStatic: bool, params: seq<TypeKind>,
                           body: seq<Instr>, table: seq<Handler>)

  type Program = seq<Method>

  // ---- Labels ----

  /** The position of the first binding of a label, or |code| when it is not bound. */
  function IndexOf(code: seq<Instr>, l: LabelId): (i: nat)
    ensures i <= |code|
    ensures i < |code| ==> code[i] == LabelTarget(l)
    ensures forall j :: 0 <= j < i ==> code[j] != LabelTarget(l)
  {
    if code == [] then 0
    else if code[0] == LabelTarget(l) then 0
    else 1 + IndexOf(code[1..], l)
  }

  predicate Bound(code: seq<Instr>, l: LabelId) {
    LabelTarget(l) in code
  }

  lemma {:induction false} IndexOfIs(code: seq<Instr>, l: LabelId, i: nat)
    requires i < |code| && code[i] == LabelTarget(l)
    requires forall j :: 0 <= j < i ==> code[j] != LabelTarget(l)
    ensures IndexOf(code, l) == i
  {
  }

  /** What a class file before the transform satisfies: no inserted element, every label
      its own, and every label the branches and the exception table name is bound. */
  ghost predicate OriginalInstr(code: seq<Instr>, i: Instr) {
    && !i.Inserted()
    && (i.LabelTarget? ==> i.id.Orig?)
    && (i.Branch? ==> forall l :: l in i.targets ==> l.Orig? && Bound(code, l))
  }

  ghost predicate OriginalHandler(code: seq<Instr>, h: Handler) {
    && h.start.Orig? && h.end.Orig? && h.target.Orig?
    && Bound(code, h.start) && Bound(code, h.end) && Bound(code, h.target)
  }

  ghost predicate OriginalMethod(m: Method) {
    && (forall i :: i in m.body ==> OriginalInstr(m.body, i))
    && (forall h :: h in m.table ==> OriginalHandler(m.body, h))
  }

  ghost predicate OriginalProgram(p: Program) {
    forall m :: m in p ==> OriginalMethod(m)
  }

  // ---- Local variables ----

  /** What a local-variable slot holds; High is the upper half of a wide value. */
  datatype Local = Low(v: Value) | High

  type Locals = map<nat, Local>

  predicate HoldsKind(locals: Locals, slot: nat, kind: Kind) {
    slot in locals && locals[slot].Low? && locals[slot].v.kind == kind
  }

  /** A store (section 2.6.1 of the JVM Specification): a wide value takes two slots, and
      overwriting the upper half of a wide value invalidates it. */
  function SetLocal(locals: Locals, slot: nat, v: Value): Locals {
    var below := if slot > 0 && slot - 1 in locals && locals[slot - 1].Low? && locals[slot - 1].v.kind.Wide()
                 then locals - {slot - 1} else locals;
    var upper := if v.kind.Wide() then below[slot + 1 := High] else below;
    upper[slot := Low(v)]
  }
}
