/** The bounded cache of class bytes, each shipped at most once. */
module SourceCache {
  import opened Wrappers
  import opened JsonText
  import opened Sums
  import Base64

  const MAX_BYTES := 33554432
  const MAX_CLASSES := 8192

  datatype Cache = Cache(bytes: map<Bytes, Bytes>, shipped: map<Bytes, bool>, total: nat)

  predicate Shipped(v: Cache, name: Bytes) { name in v.shipped && v.shipped[name] }

  /** Whether a class is stored; data that is missing or empty never is. */
  predicate Accepts(v: Cache, name: Bytes, data: Bytes) {
    && data != [] && name !in v.bytes && |v.bytes| < MAX_CLASSES && v.total + |data| <= MAX_BYTES
  }

  function Stored(v: Cache, name: Bytes, data: Bytes): Cache {
    if Accepts(v, name, data) then v.(bytes := v.bytes[name := data], total := v.total + |data|) else v
  }

  predicate Ships(v: Cache, name: Bytes) { name in v.bytes && !Shipped(v, name) }

  function Taken(v: Cache, name: Bytes): Cache {
    if Ships(v, name) then v.(shipped := v.shipped[name := true]) else v
  }

  function Given(v: Cache, name: Bytes): Bytes {
    if Ships(v, name) then Base64.Encoding(v.bytes[name]) else []
  }

  function Size(b: Bytes): nat { |b| }

  /** Data is stored exactly when there is some, the class is new, and both budgets allow. */
  lemma {:induction false} StoringIs(v: Cache, name: Bytes, data: Bytes)
    ensures
      Stored(v, name, data) ==
        if data != [] && name !in v.bytes && |v.bytes| < 8192 && v.total + |data| <= 33554432
        then Cache(v.bytes[name := data], v.shipped, v.total + |data|)
        else v
  {
  }

  /** The stored sizes add up to the total, which is within budget. */
  ghost predicate Balanced(v: Cache) {
    && v.total == MapTotal(v.bytes, Size) && v.total <= MAX_BYTES && |v.bytes| <= MAX_CLASSES
    && forall name :: name in v.bytes ==> v.bytes[name] != []
  }

  lemma {:induction false} OneMoreKey<K, V>(m: map<K, V>, k: K, v: V)
    requires k !in m
    ensures |m[k := v]| == |m| + 1
  {
    assert m[k := v].Keys == m.Keys + {k};
    assert |m[k := v].Keys| == |m[k := v]| && |m.Keys| == |m|;
  }

  lemma {:induction false} StoredBalanced(v: Cache, name: Bytes, data: Bytes)
    requires Balanced(v)
    ensures Balanced(Stored(v, name, data))
  {
    hide MapTotal;
    if Accepts(v, name, data) {
      MapTotalPut(v.bytes, name, data, Size);
      OneMoreKey(v.bytes, name, data);
    }
  }

  class SourceCache {
    var bytes: map<Bytes, Bytes>
    var shipped: map<Bytes, bool>
    var totalBytes: nat

    function View(): Cache
      reads this
    {
      Cache(bytes, shipped, totalBytes)
    }

    constructor ()
      ensures View() == EMPTY && Balanced(View())
    {
      bytes, shipped, totalBytes := map[], map[], 0;
    }

    method Store(name: Bytes, data: Option<Bytes>)
      requires Balanced(View())
      modifies this
      ensures Balanced(View())
      ensures View() == if data.Some? then Stored(old(View()), name, data.value) else old(View())
    {
      if data.None? || data.value == [] { return; }
      StoredBalanced(View(), name, data.value);
      if name in bytes { return; }
      if |bytes| >= MAX_CLASSES { return; }
      if totalBytes + |data.value| > MAX_BYTES { return; }
      bytes := bytes[name := data.value];
      totalBytes := totalBytes + |data.value|;
    }

    method TakeUnshipped(name: Bytes) returns (text: Bytes)
      requires Balanced(View())
      modifies this
      ensures Balanced(View()) && View() == Taken(old(View()), name) && text == Given(old(View()), name)
    {
      if name !in bytes { return []; }
      if name !in shipped { shipped := shipped[name := false]; }
      if shipped[name] { return []; }
      shipped := shipped[name := true];
      text := Base64.Base64Encode(bytes[name]);
    }
  }

  const EMPTY := Cache(map[], map[], 0)

  lemma {:induction false} GivesSome(v: Cache, name: Bytes)
    requires Balanced(v) && Ships(v, name)
    ensures Given(v, name) != []
  {
    Base64.EncodingLength(v.bytes[name]);
  }

  // Whole runs.

  datatype Call = Store(name: Bytes, data: Bytes) | Take(name: Bytes)

  function After(calls: seq<Call>): Cache {
    if calls == [] then EMPTY
    else
      var n := |calls| - 1;
      match calls[n]
      case Store(name, data) => Stored(After(calls[..n]), name, data)
      case Take(name) => Taken(After(calls[..n]), name)
  }

  /** The text that the i-th call gives out. */
  function Output(calls: seq<Call>, i: nat): Bytes
    requires i < |calls|
  {
    match calls[i]
    case Store(_, _) => []
    case Take(name) => Given(After(calls[..i]), name)
  }

  /** The i-th call is the one that stores this class, with these bytes. */
  predicate StoresAt(calls: seq<Call>, i: nat, name: Bytes, data: Bytes)
    requires i < |calls|
  {
    calls[i] == Store(name, data) && Accepts(After(calls[..i]), name, data)
  }

  lemma {:induction false} RunBalanced(calls: seq<Call>)
    ensures Balanced(After(calls))
    decreases |calls|
  {
    hide Balanced;
    if calls == [] {
      EmptyBalanced();
    } else {
      var n := |calls| - 1;
      RunBalanced(calls[..n]);
      match calls[n]
      case Store(name, data) => StoredBalanced(After(calls[..n]), name, data);
      case Take(name) => TakenBalanced(After(calls[..n]), name);
    }
  }

  lemma {:induction false} EmptyBalanced()
    ensures Balanced(EMPTY)
  {
  }

  lemma {:induction false} TakenBalanced(v: Cache, name: Bytes)
    requires Balanced(v)
    ensures Balanced(Taken(v, name))
  {
  }

  /** Nothing stored or shipped is forgotten or replaced. */
  lemma {:induction false} Kept(calls: seq<Call>, i: nat, name: Bytes)
    requires i <= |calls|
    ensures
      var before, after := After(calls[..i]), After(calls);
      && (name in before.bytes ==> name in after.bytes && after.bytes[name] == before.bytes[name])
      && (Shipped(before, name) ==> Shipped(after, name))
    decreases |calls|
  {
    if i == |calls| {
      assert calls[..i] == calls;
    } else {
      var n := |calls| - 1;
      Kept(calls[..n], i, name);
      assert calls[..n][..i] == calls[..i];
    }
  }

  lemma {:induction false} StoredOnce(calls: seq<Call>, name: Bytes) returns (i: nat)
    requires name in After(calls).bytes
    ensures i < |calls| && StoresAt(calls, i, name, After(calls).bytes[name])
    decreases |calls|
  {
    var n := |calls| - 1;
    if calls[n].Store? && calls[n].name == name && Accepts(After(calls[..n]), name, calls[n].data) {
      i := n;
    } else {
      i := StoredOnce(calls[..n], name);
      assert calls[..n][..i] == calls[..i];
    }
  }

  lemma {:induction false} ShippedOnce(calls: seq<Call>, name: Bytes) returns (i: nat)
    requires Shipped(After(calls), name)
    ensures i < |calls| && calls[i] == Take(name) && Output(calls, i) != []
    decreases |calls|
  {
    var n := |calls| - 1;
    var before := After(calls[..n]);
    if calls[n] == Take(name) && Ships(before, name) {
      i := n;
      RunBalanced(calls[..n]);
      GivesSome(before, name);
    } else {
      i := ShippedOnce(calls[..n], name);
      assert calls[..n][..i] == calls[..i];
    }
  }

  lemma {:induction false} GivesOut(calls: seq<Call>, i: nat)
    requires i < |calls| && calls[i].Take?
    ensures Output(calls, i) != [] <==> Ships(After(calls[..i]), calls[i].name)
  {
    hide Balanced;
    var before := After(calls[..i]);
    RunBalanced(calls[..i]);
    if Ships(before, calls[i].name) {
      GivesSome(before, calls[i].name);
    }
  }

  ghost predicate StoredBefore(calls: seq<Call>, i: nat, name: Bytes)
    requires i <= |calls|
  {
    exists j, data :: 0 <= j < i && StoresAt(calls, j, name, data)
  }

  ghost predicate ShippedBefore(calls: seq<Call>, i: nat, name: Bytes)
    requires i <= |calls|
  {
    exists j :: 0 <= j < i && calls[j] == Take(name) && Output(calls, j) != []
  }

  lemma {:induction false} StoredBeforeIs(calls: seq<Call>, i: nat, name: Bytes)
    requires i <= |calls|
    ensures StoredBefore(calls, i, name) <==> name in After(calls[..i]).bytes
  {
    if StoredBefore(calls, i, name) {
      var j, data :| 0 <= j < i && StoresAt(calls, j, name, data);
      Stays(calls, j, i, name);
    }
    if name in After(calls[..i]).bytes {
      var j := StoredOnce(calls[..i], name);
      assert calls[..i][..j] == calls[..j];
      assert StoresAt(calls, j, name, After(calls[..i]).bytes[name]);
    }
  }

  /** What the j-th call does is still so before the i-th. */
  lemma {:induction false} Stays(calls: seq<Call>, j: nat, i: nat, name: Bytes)
    requires j < i <= |calls|
    ensures
      var early, late := After(calls[..j + 1]), After(calls[..i]);
      && (name in early.bytes ==> name in late.bytes && late.bytes[name] == early.bytes[name])
      && (Shipped(early, name) ==> Shipped(late, name))
    ensures calls[..j + 1][..j] == calls[..j]
  {
    Kept(calls[..i], j + 1, name);
    assert calls[..i][..j + 1] == calls[..j + 1];
    assert calls[..j + 1][..j] == calls[..j];
  }

  lemma {:induction false} ShipsNow(calls: seq<Call>, j: nat)
    requires j < |calls| && calls[j].Take? && Output(calls, j) != []
    ensures Shipped(After(calls[..j + 1]), calls[j].name)
  {
    GivesOut(calls, j);
    assert calls[..j + 1][..j] == calls[..j];
  }

  lemma {:induction false} SameOutput(calls: seq<Call>, i: nat, j: nat)
    requires j < i <= |calls|
    ensures Output(calls[..i], j) == Output(calls, j)
  {
    assert calls[..i][..j] == calls[..j];
  }

  lemma {:induction false} ShippedBeforeIs(calls: seq<Call>, i: nat, name: Bytes)
    requires i <= |calls|
    ensures ShippedBefore(calls, i, name) <==> Shipped(After(calls[..i]), name)
  {
    hide After, Given, Output;
    if ShippedBefore(calls, i, name) {
      var j :| 0 <= j < i && calls[j] == Take(name) && Output(calls, j) != [];
      Stays(calls, j, i, name);
      ShipsNow(calls, j);
    }
    if Shipped(After(calls[..i]), name) {
      var j := ShippedOnce(calls[..i], name);
      SameOutput(calls, i, j);
    }
  }

  /** A call ships a class exactly when the class is stored by then and no earlier call shipped
      it; so no class is shipped twice. */
  lemma {:induction false} ShipsExactlyOnce(calls: seq<Call>, i: nat)
    requires i < |calls| && calls[i].Take?
    ensures
      Output(calls, i) != [] <==> StoredBefore(calls, i, calls[i].name) && !ShippedBefore(calls, i, calls[i].name)
  {
    GivesOut(calls, i);
    StoredBeforeIs(calls, i, calls[i].name);
    ShippedBeforeIs(calls, i, calls[i].name);
  }

  /** What is shipped decodes to the bytes of the one call that stored the class. */
  lemma {:induction false} ShipsStoredBytes(calls: seq<Call>, i: nat, j: nat, data: Bytes)
    requires j < |calls| && i < |calls| && calls[i].Take? && Output(calls, i) != []
    requires StoresAt(calls, j, calls[i].name, data)
    ensures j < i && Base64.Decode(Output(calls, i)) == Some(data)
  {
    hide After, Balanced, Base64.Encoding, Base64.Decode;
    var name := calls[i].name;
    GivesOut(calls, i);
    StoresNow(calls, j, name, data);
    if i < j {
      assert calls[..j][..i] == calls[..i];
      Kept(calls[..j], i, name);
    }
    Stays(calls, j, i, name);
    Base64.DecodeExactly(Output(calls, i), data);
  }

  lemma {:induction false} StoresNow(calls: seq<Call>, j: nat, name: Bytes, data: Bytes)
    requires j < |calls| && StoresAt(calls, j, name, data)
    ensures After(calls[..j + 1]).bytes == After(calls[..j]).bytes[name := data] && name !in After(calls[..j]).bytes
  {
    assert calls[..j + 1][..j] == calls[..j];
  }

  /** No class is stored twice. */
  lemma {:induction false} StoresAtMostOnce(calls: seq<Call>, i: nat, j: nat, name: Bytes, a: Bytes, b: Bytes)
    requires i < |calls| && j < |calls| && StoresAt(calls, i, name, a) && StoresAt(calls, j, name, b)
    ensures i == j
  {
    if i < j {
      Stays(calls, i, j, name);
    } else if j < i {
      Stays(calls, j, i, name);
    }
  }
}
