/** The streaming JSON writer and what its text is the text of. */
module JsonWriter {
  import opened Wrappers
  import opened JsonText
  import JsonString
  import JsonParser

  /** The writer's state as a value. */
  datatype Output = Output(out: string, needComma: bool, afterKey: bool) {
    /** What goes before the next value or key. */
    function Lead(): string { if !afterKey && needComma then "," else "" }

    /** The state after a value with this text. */
    function Written(text: string): Output { Output(out + Lead() + text, true, false) }
  }

  /** Where the writer stands: inside which open arrays and objects, with which values written so
      far.  The outermost level is any state at all; calls that do not nest end up there. */
  datatype Context =
    | Base(view: Output)
    | InArray(outer: Context, items: seq<Json>)
    | InObject(outer: Context, members: seq<Member>)
    | AfterKey(outer: Context, key: Utf16)

  function KeyText(key: Utf16): string { StringText(key) + ":" }

  /** The state that the writer is in at a context. */
  function Rendered(c: Context): Output {
    match c
    case Base(view) => view
    case InArray(outer, items) => InBrackets(Rendered(outer), items)
    case InObject(outer, members) => InBraces(Rendered(outer), members)
    case AfterKey(outer, key) => Named(Rendered(outer), key)
  }

  /** The context after a complete value. */
  function Placed(c: Context, t: Json): Context {
    match c
    case InArray(outer, items) => InArray(outer, items + [t])
    case AfterKey(InObject(outer, members), key) => InObject(outer, members + [Member(key, t)])
    case _ => Base(Rendered(c).Written(Text(t)))
  }

  function ArrayEnded(c: Context): Context {
    match c
    case InArray(outer, items) => Placed(outer, Array(items))
    case _ => Base(Rendered(c).(out := Rendered(c).out + "]", needComma := true))
  }

  function ObjectEnded(c: Context): Context {
    match c
    case InObject(outer, members) => Placed(outer, Object(members))
    case _ => Base(Rendered(c).(out := Rendered(c).out + "}", needComma := true))
  }

  /** The context after a member of an object. */
  function WithMember(c: Context, m: Member): Context {
    match c
    case InObject(outer, members) => InObject(outer, members + [m])
    case _ => Placed(AfterKey(c, m.key), m.value)
  }

  /** An open array and an open object, as the writer's state. */
  function InBrackets(v: Output, items: seq<Json>): Output {
    Output(v.out + v.Lead() + "[" + ItemsText(items), items != [], false)
  }

  function InBraces(v: Output, members: seq<Member>): Output {
    Output(v.out + v.Lead() + "{" + MembersText(members), members != [], false)
  }

  function Named(v: Output, key: Utf16): Output {
    Output(v.out + v.Lead() + KeyText(key), v.needComma, true)
  }

  lemma {:induction false} ItemRendered(v: Output, items: seq<Json>, t: Json)
    ensures InBrackets(v, items + [t]) == InBrackets(v, items).Written(Text(t))
  {
    hide Text, ItemsText;
    JsonParser.ItemsLast(items + [t], |items|);
    assert (items + [t])[..|items|] == items;
  }

  lemma {:induction false} MemberRendered(v: Output, members: seq<Member>, m: Member)
    ensures InBraces(v, members + [m]) == Named(InBraces(v, members), m.key).Written(Text(m.value))
  {
    hide Text, MembersText, StringText;
    JsonParser.MembersLast(members + [m], |members|);
    assert (members + [m])[..|members|] == members;
  }

  /** A value's text, written in any state, is its place in the open tree. */
  lemma {:induction false} PlacedRendered(c: Context, t: Json)
    ensures Rendered(Placed(c, t)) == Rendered(c).Written(Text(t))
  {
    hide Text, InBrackets, InBraces, Named;
    match c
    case InArray(outer, items) => ItemRendered(Rendered(outer), items, t);
    case AfterKey(InObject(outer, members), key) => MemberRendered(Rendered(outer), members, Member(key, t));
    case _ =>
  }

  /** From any state, whatever its comma flags, the text that is added is the separator and a text
      that parses to the tree; so two trees are never written alike. */
  lemma {:induction false} WriterRoundTrip(v: Output, t: Json, u: Json)
    ensures
      var added := Rendered(Placed(Base(v), t)).out;
      v.out + v.Lead() <= added && JsonParser.Parse(added[|v.out + v.Lead()|..]) == Some(t)
    ensures Placed(Base(v), t) == Placed(Base(v), u) ==> t == u
  {
    PlacedRendered(Base(v), t);
    PlacedRendered(Base(v), u);
    JsonParser.ParseUndoesText(t);
    JsonParser.ParseUndoesText(u);
    var head := v.out + v.Lead();
    assert (head + Text(t))[|head|..] == Text(t);
    assert (head + Text(u))[|head|..] == Text(u);
  }

  class Writer {
    var out: string
    var needComma: bool
    var afterKey: bool
    ghost var at: Context

    function View(): Output
      reads this
    {
      Output(out, needComma, afterKey)
    }

    ghost predicate Valid()
      reads this
    {
      View() == Rendered(at)
    }

    constructor ()
      ensures Valid() && at == Base(Output("", false, false))
    {
      out, needComma, afterKey := "", false, false;
      at := Base(Output("", false, false));
    }

    method Prefix()
      modifies this`out, this`afterKey
      ensures out == old(out) + old(View().Lead()) && !afterKey
    {
      if afterKey {
        afterKey := false;
        return;
      }
      if needComma { out := out + ","; }
    }

    method BeginObject()
      requires Valid()
      modifies this
      ensures Valid() && at == InObject(old(at), [])
    {
      Prefix();
      out := out + "{";
      needComma := false;
      at := InObject(at, []);
    }

    method EndObject()
      requires Valid()
      modifies this
      ensures Valid() && at == ObjectEnded(old(at))
    {
      if at.InObject? {
        EndedText(Rendered(at.outer), "{", MembersText(at.members), "}");
        PlacedRendered(at.outer, Object(at.members));
      }
      out := out + "}";
      needComma := true;
      at := ObjectEnded(at);
    }

    method BeginArray()
      requires Valid()
      modifies this
      ensures Valid() && at == InArray(old(at), [])
    {
      Prefix();
      out := out + "[";
      needComma := false;
      at := InArray(at, []);
    }

    method EndArray()
      requires Valid()
      modifies this
      ensures Valid() && at == ArrayEnded(old(at))
    {
      if at.InArray? {
        EndedText(Rendered(at.outer), "[", ItemsText(at.items), "]");
        PlacedRendered(at.outer, Array(at.items));
      }
      out := out + "]";
      needComma := true;
      at := ArrayEnded(at);
    }

    method Key(k: Bytes)
      requires Valid()
      modifies this
      ensures Valid() && at == AfterKey(old(at), Decode(k))
    {
      hide UnitsText, Decode;
      Prefix();
      var text := JsonString.Escape(k);
      ghost var before := out;
      out := out + "\"";
      out := out + text;
      out := out + "\":";
      assert out == before + KeyText(Decode(k));
      afterKey := true;
      at := AfterKey(at, Decode(k));
    }

    /** What the value methods have in common. */
    method Value(text: string, ghost t: Json)
      requires Valid() && text == Text(t)
      modifies this
      ensures Valid() && at == Placed(old(at), t)
    {
      hide Text;
      Prefix();
      out := out + text;
      needComma := true;
      PlacedRendered(at, t);
      at := Placed(at, t);
    }

    method ValueString(v: Bytes)
      requires Valid()
      modifies this
      ensures Valid() && at == Placed(old(at), String(Decode(v)))
    {
      var text := JsonString.Escape(v);
      Value("\"" + text + "\"", String(Decode(v)));
    }

    method ValueInt(v: int)
      requires Valid()
      modifies this
      ensures Valid() && at == Placed(old(at), Number(v, 0))
    {
      Value(IntText(v), Number(v, 0));
    }

    method ValueBool(v: bool)
      requires Valid()
      modifies this
      ensures Valid() && at == Placed(old(at), Bool(v))
    {
      Value(if v then "true" else "false", Bool(v));
    }

    method ValueNull()
      requires Valid()
      modifies this
      ensures Valid() && at == Placed(old(at), Null)
    {
      Value("null", Null);
    }

    /** The caller vouches for the text.  If it is the text of a tree, as this writer would write
        it, the tree is placed; other text is only appended as a value. */
    method ValueRaw(raw: string, ghost t: Json)
      requires Valid()
      modifies this
      ensures Valid() && View() == old(View()).Written(raw)
      ensures at == if raw == Text(t) then Placed(old(at), t) else Base(old(View()).Written(raw))
    {
      hide Text;
      ghost var before := View();
      Prefix();
      out := out + raw;
      needComma := true;
      PlacedRendered(at, t);
      at := if raw == Text(t) then Placed(at, t) else Base(before.Written(raw));
    }

    method FieldString(k: Bytes, v: Bytes)
      requires Valid()
      modifies this
      ensures Valid() && at == WithMember(old(at), Member(Decode(k), String(Decode(v))))
    {
      Key(k);
      ValueString(v);
    }

    /** The form for C strings, where a null pointer is the empty text. */
    method FieldChars(k: Bytes, v: Option<Bytes>)
      requires Valid()
      modifies this
      ensures Valid()
      ensures at == WithMember(old(at), Member(Decode(k), String(Decode(if v.Some? then v.value else []))))
    {
      Key(k);
      ValueString(if v.Some? then v.value else []);
    }

    method FieldInt(k: Bytes, v: int)
      requires Valid()
      modifies this
      ensures Valid() && at == WithMember(old(at), Member(Decode(k), Number(v, 0)))
    {
      Key(k);
      ValueInt(v);
    }

    method FieldBool(k: Bytes, v: bool)
      requires Valid()
      modifies this
      ensures Valid() && at == WithMember(old(at), Member(Decode(k), Bool(v)))
    {
      Key(k);
      ValueBool(v);
    }

    method FieldNull(k: Bytes)
      requires Valid()
      modifies this
      ensures Valid() && at == WithMember(old(at), Member(Decode(k), Null))
    {
      Key(k);
      ValueNull();
    }
  }

  lemma {:induction false} EndedText(v: Output, open: string, body: string, close: string)
    ensures v.out + v.Lead() + open + body + close == v.out + v.Lead() + (open + body + close)
  {
  }

  /** The calls that write a tree: an object's members are each a key and a value. */
  method Emit(w: Writer, t: Json)
    requires w.Valid()
    modifies w
    ensures w.Valid() && w.at == Placed(old(w.at), t)
    decreases t
  {
    hide Rendered, Decode, Encode, Text;
    match t
    case Null => w.ValueNull();
    case Bool(truth) => w.ValueBool(truth);
    case Number(m, e) =>
      if e == 0 { w.ValueInt(m); } else { w.ValueRaw(Text(t), t); }
    case String(units) =>
      JsonString.DecodeEncode(units);
      w.ValueString(Encode(units));
    case Array(items) =>
      w.BeginArray();
      for i := 0 to |items|
        invariant w.Valid() && w.at == InArray(old(w.at), items[..i])
      {
        Emit(w, items[i]);
        assert items[..i] + [items[i]] == items[..i + 1];
      }
      assert items[..|items|] == items;
      w.EndArray();
    case Object(members) =>
      w.BeginObject();
      for i := 0 to |members|
        invariant w.Valid() && w.at == InObject(old(w.at), members[..i])
      {
        JsonString.DecodeEncode(members[i].key);
        w.Key(Encode(members[i].key));
        Emit(w, members[i].value);
        assert members[..i] + [members[i]] == members[..i + 1];
      }
      assert members[..|members|] == members;
      w.EndObject();
  }
}
