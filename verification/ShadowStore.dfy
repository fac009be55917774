/** The per-thread shadow store: 64 rows of 32 slots and a depth counter that counts past
    them.  It is the unbounded stack of slot maps of module ShadowMachine, cut to size. */
module ShadowStore {
  import opened Bytecode
  import opened ShadowMachine
  import opened Wrappers

  const MAX_DEPTH := 64
  const MAX_SLOTS := 32

  /** A stored object: null, or a reference or boxed primitive. */
  datatype Cell = Null | Boxed(kind: Kind, bits: int)

  /** What is stored for a value: a captured null is stored as null. */
  function CellOf(v: Value): Cell {
    if v.kind.KRef? && v.bits == 0 then Null else Boxed(v.kind, v.bits)
  }

  /** The stored type tag; 0 is an empty slot. */
  function TagOf(k: Kind): (tag: int)
    ensures 1 <= tag <= 5
  {
    match k
    case KRef => 1
    case KInt => 2
    case KLong => 3
    case KFloat => 4
    case KDouble => 5
  }

  /** The kind that a tag stands for. */
  function KindOf(tag: int): Kind
    requires 1 <= tag <= 5
  {
    if tag == 1 then KRef
    else if tag == 2 then KInt
    else if tag == 3 then KLong
    else if tag == 4 then KFloat
    else KDouble
  }

  datatype Read = Empty | Captured(v: Value)

  /** What a slot's cell and tag stand for. */
  function ReadSlot(cell: Cell, tag: int): Read
    requires 0 <= tag <= 5
  {
    if tag == 0 then Empty else Captured(Value(KindOf(tag), if cell.Null? then 0 else cell.bits))
  }

  /** Slot j of row d of a stack, as a cell and as a tag. */
  function CellAt(stack: seq<Row>, d: int, j: nat): Cell {
    if 0 <= d < |stack| && j in stack[d] then CellOf(stack[d][j]) else Null
  }

  function TagAt(stack: seq<Row>, d: int, j: nat): (tag: int)
    ensures 0 <= tag <= 5
  {
    if 0 <= d < |stack| && j in stack[d] then TagOf(stack[d][j].kind) else 0
  }

  /** A slot's name, if one was set. */
  function NameAt(labels: seq<map<nat, string>>, d: int, j: nat): Option<string> {
    if 0 <= d < |labels| && j in labels[d] then Some(labels[d][j]) else None
  }

  /** Reading a slot gives exactly what was captured there, and nothing for the others. */
  lemma {:induction false} ReadsBack(stack: seq<Row>, d: nat, j: nat)
    requires d < |stack|
    ensures ReadSlot(CellAt(stack, d, j), TagAt(stack, d, j)) == if j in stack[d] then Captured(stack[d][j]) else Empty
  {
  }

  method Fill<T>(a: array<T>, v: T)
    modifies a
    ensures forall j :: 0 <= j < a.Length ==> a[j] == v
  {
    forall j | 0 <= j < a.Length { a[j] := v; }
  }

  /** Rows of one width, all different. */
  ghost predicate Grid<T>(rows: seq<array<T>>) {
    && |rows| == MAX_DEPTH
    && (forall d :: 0 <= d < MAX_DEPTH ==> rows[d].Length == MAX_SLOTS)
    && (forall d, e :: 0 <= d < e < MAX_DEPTH ==> rows[d] != rows[e])
  }

  method NewGrid<T>(v: T) returns (rows: seq<array<T>>)
    ensures Grid(rows) && fresh(rows)
    ensures forall d, j :: 0 <= d < MAX_DEPTH && 0 <= j < MAX_SLOTS ==> rows[d][j] == v
  {
    rows := [];
    for d := 0 to MAX_DEPTH
      invariant |rows| == d && fresh(rows)
      invariant forall i :: 0 <= i < d ==> rows[i].Length == MAX_SLOTS
      invariant forall i, j :: 0 <= i < d && 0 <= j < MAX_SLOTS ==> rows[i][j] == v
      invariant forall i, j :: 0 <= i < j < d ==> rows[i] != rows[j]
    {
      var row := new T[MAX_SLOTS](_ => v);
      rows := rows + [row];
    }
  }

  // What the operations on the unbounded stack change, as seen slot by slot.

  lemma {:induction false} EnterReads(stack: seq<Row>, labels: seq<map<nat, string>>)
    requires |stack| == |labels|
    ensures |Enter(stack)| == |stack| + 1
    ensures forall d, j :: CellAt(Enter(stack), d, j) == if d == |stack| then Null else CellAt(stack, d, j)
    ensures forall d, j :: TagAt(Enter(stack), d, j) == if d == |stack| then 0 else TagAt(stack, d, j)
    ensures forall d, j :: NameAt(labels + [map[]], d, j) == if d == |stack| then None else NameAt(labels, d, j)
  {
  }

  lemma {:induction false} ExitNothing(stack: seq<Row>)
    requires stack == []
    ensures Exit(stack) == []
  {
  }

  lemma {:induction false} ExitReads(stack: seq<Row>, labels: seq<map<nat, string>>)
    requires |stack| == |labels| > 0
    ensures |Exit(stack)| == |stack| - 1
    ensures forall d, j :: CellAt(Exit(stack), d, j) == if d == |stack| - 1 then Null else CellAt(stack, d, j)
    ensures forall d, j :: TagAt(Exit(stack), d, j) == if d == |stack| - 1 then 0 else TagAt(stack, d, j)
    ensures
      var rest := labels[..|labels| - 1];
      forall d, j :: NameAt(rest, d, j) == if d == |stack| - 1 then None else NameAt(labels, d, j)
  {
    var rest := labels[..|labels| - 1];
    forall d, j ensures NameAt(rest, d, j) == if d == |stack| - 1 then None else NameAt(labels, d, j) {
      if 0 <= d < |rest| { assert rest[d] == labels[d]; }
    }
  }

  lemma {:induction false} WriteReads(stack: seq<Row>, slot: nat, v: Value)
    ensures |WriteTop(stack, slot, v)| == |stack|
    ensures forall d, j :: 0 <= d < |stack| ==>
      CellAt(WriteTop(stack, slot, v), d, j) == if d == |stack| - 1 && j == slot then CellOf(v) else CellAt(stack, d, j)
    ensures forall d, j :: 0 <= d < |stack| ==>
      TagAt(WriteTop(stack, slot, v), d, j)
      == if d == |stack| - 1 && j == slot then TagOf(v.kind) else TagAt(stack, d, j)
    ensures forall d, j :: d >= |stack| ==>
      && CellAt(WriteTop(stack, slot, v), d, j) == CellAt(stack, d, j)
      && TagAt(WriteTop(stack, slot, v), d, j) == TagAt(stack, d, j)
  {
    hide CellOf, TagOf;
  }

  lemma {:induction false} NameReads(labels: seq<map<nat, string>>, slot: nat, name: string)
    requires labels != []
    ensures
      var n := |labels| - 1;
      var next := labels[..n] + [labels[n][slot := name]];
      |next| == |labels| &&
      forall d, j :: NameAt(next, d, j) == if d == n && j == slot then Some(name) else NameAt(labels, d, j)
  {
  }

  class ThreadShadow {
    var depth: int
    const frames: seq<array<Cell>>
    const names: seq<array<Option<string>>>
    const slotTypes: seq<array<int>>
    /** The unbounded stack this store is a window on, and the names set on it. */
    ghost var stack: seq<Row>
    ghost var labels: seq<map<nat, string>>

    ghost predicate Valid()
      reads this, frames, names, slotTypes
    {
      && Grid(frames) && Grid(names) && Grid(slotTypes)
      && depth == |stack| - 1 && |labels| == |stack|
      && (forall d, j :: 0 <= d < MAX_DEPTH && 0 <= j < MAX_SLOTS ==> frames[d][j] == CellAt(stack, d, j))
      && (forall d, j :: 0 <= d < MAX_DEPTH && 0 <= j < MAX_SLOTS ==> names[d][j] == NameAt(labels, d, j))
      && (forall d, j :: 0 <= d < MAX_DEPTH && 0 <= j < MAX_SLOTS ==> slotTypes[d][j] == TagAt(stack, d, j))
    }

    constructor ()
      ensures Valid() && stack == [] && labels == []
      ensures fresh(frames) && fresh(names) && fresh(slotTypes)
    {
      var cells := NewGrid<Cell>(Null);
      var texts := NewGrid<Option<string>>(None);
      var tags := NewGrid<int>(0);
      depth := -1;
      frames, names, slotTypes := cells, texts, tags;
      stack, labels := [], [];
    }

    /** Empties row d, if it is stored. */
    method ClearRow(d: int)
      requires Grid(frames) && Grid(names) && Grid(slotTypes)
      modifies frames, names, slotTypes
      ensures forall i, j :: 0 <= i < MAX_DEPTH && 0 <= j < MAX_SLOTS ==>
        && frames[i][j] == (if i == d then Null else old(frames[i][j]))
        && names[i][j] == (if i == d then None else old(names[i][j]))
        && slotTypes[i][j] == if i == d then 0 else old(slotTypes[i][j])
    {
      if 0 <= d < MAX_DEPTH {
        Fill(frames[d], Null);
        Fill(names[d], None);
        Fill(slotTypes[d], 0);
      }
    }

    method EnterMethod()
      requires Valid()
      modifies this, frames, names, slotTypes
      ensures Valid() && stack == Enter(old(stack)) && labels == old(labels) + [map[]]
    {
      hide CellAt, TagAt, NameAt, Enter;
      EnterReads(stack, labels);
      depth := depth + 1;
      ClearRow(depth);
      stack, labels := Enter(stack), labels + [map[]];
    }

    method ExitMethod()
      requires Valid()
      modifies this, frames, names, slotTypes
      ensures Valid() && stack == Exit(old(stack))
      ensures labels == if old(labels) == [] then [] else old(labels)[..|old(labels)| - 1]
    {
      hide CellAt, TagAt, NameAt, Exit;
      if depth >= 0 {
        ExitReads(stack, labels);
        ClearRow(depth);
        depth := depth - 1;
        stack, labels := Exit(stack), labels[..|labels| - 1];
      } else {
        ExitNothing(stack);
      }
    }

    static predicate InRange(d: int, slot: int) {
      0 <= d < MAX_DEPTH && 0 <= slot < MAX_SLOTS
    }

    method CaptureObject(slot: nat, bits: int)
      requires Valid()
      modifies this, frames, slotTypes
      ensures Valid() && stack == WriteTop(old(stack), slot, Value(KRef, bits)) && labels == old(labels)
    {
      Write(slot, if bits == 0 then Null else Boxed(KRef, bits), 1, Value(KRef, bits));
    }

    method CaptureInt(slot: nat, bits: int)
      requires Valid()
      modifies this, frames, slotTypes
      ensures Valid() && stack == WriteTop(old(stack), slot, Value(KInt, bits)) && labels == old(labels)
    {
      Write(slot, Boxed(KInt, bits), 2, Value(KInt, bits));
    }

    method CaptureLong(slot: nat, bits: int)
      requires Valid()
      modifies this, frames, slotTypes
      ensures Valid() && stack == WriteTop(old(stack), slot, Value(KLong, bits)) && labels == old(labels)
    {
      Write(slot, Boxed(KLong, bits), 3, Value(KLong, bits));
    }

    method CaptureFloat(slot: nat, bits: int)
      requires Valid()
      modifies this, frames, slotTypes
      ensures Valid() && stack == WriteTop(old(stack), slot, Value(KFloat, bits)) && labels == old(labels)
    {
      Write(slot, Boxed(KFloat, bits), 4, Value(KFloat, bits));
    }

    method CaptureDouble(slot: nat, bits: int)
      requires Valid()
      modifies this, frames, slotTypes
      ensures Valid() && stack == WriteTop(old(stack), slot, Value(KDouble, bits)) && labels == old(labels)
    {
      Write(slot, Boxed(KDouble, bits), 5, Value(KDouble, bits));
    }

    /** The value that the cell and the tag stand for goes into one slot of the last row. */
    method Write(slot: nat, cell: Cell, tag: int, ghost v: Value)
      requires Valid() && cell == CellOf(v) && tag == TagOf(v.kind)
      modifies this, frames, slotTypes
      ensures Valid() && stack == WriteTop(old(stack), slot, v) && labels == old(labels)
    {
      hide CellAt, TagAt, CellOf, TagOf, WriteTop;
      WriteReads(stack, slot, v);
      if InRange(depth, slot) {
        frames[depth][slot] := cell;
        slotTypes[depth][slot] := tag;
      }
      stack := WriteTop(stack, slot, v);
    }

    method SetSlotMetadata(slot: nat, name: string)
      requires Valid()
      modifies this, names
      ensures Valid() && stack == old(stack)
      ensures
        var n := |old(labels)| - 1;
        labels == if n < 0 then [] else old(labels)[..n] + [old(labels)[n][slot := name]]
    {
      hide CellAt, TagAt, NameAt;
      if labels != [] { NameReads(labels, slot, name); }
      if InRange(depth, slot) { names[depth][slot] := Some(name); }
      if labels != [] { labels := labels[..|labels| - 1] + [labels[|labels| - 1][slot := name]]; }
    }

    /** The row of frame k below the current one, if it is stored: the row itself, not a copy. */
    method GetFrame(k: int) returns (r: Option<array<Cell>>)
      requires Valid()
      ensures
        var d := |stack| - 1 - k;
        if 0 <= d < MAX_DEPTH
        then
          && r == Some(frames[d]) && r.value.Length == MAX_SLOTS
          && forall j :: 0 <= j < MAX_SLOTS ==> r.value[j] == CellAt(stack, d, j)
        else r == None
    {
      var d := depth - k;
      if 0 <= d < MAX_DEPTH { return Some(frames[d]); }
      return None;
    }

    method GetMetadata(k: int) returns (r: Option<array<Option<string>>>)
      requires Valid()
      ensures
        var d := |stack| - 1 - k;
        if 0 <= d < MAX_DEPTH
        then
          && r == Some(names[d]) && r.value.Length == MAX_SLOTS
          && forall j :: 0 <= j < MAX_SLOTS ==> r.value[j] == NameAt(labels, d, j)
        else r == None
    {
      var d := depth - k;
      if 0 <= d < MAX_DEPTH { return Some(names[d]); }
      return None;
    }

    method GetSlotTypes(k: int) returns (r: Option<array<int>>)
      requires Valid()
      ensures
        var d := |stack| - 1 - k;
        if 0 <= d < MAX_DEPTH
        then
          && r == Some(slotTypes[d]) && r.value.Length == MAX_SLOTS
          && forall j :: 0 <= j < MAX_SLOTS ==> r.value[j] == TagAt(stack, d, j)
        else r == None
    {
      var d := depth - k;
      if 0 <= d < MAX_DEPTH { return Some(slotTypes[d]); }
      return None;
    }
  }
}
