/** A parser of the JSON grammar (RFC 8259), and the proof that it reads back JsonText.Text. */
module JsonParser {
  import opened Wrappers
  import opened JsonText
  import opened JsonString

  predicate Space(c: char) { c == ' ' || c == '\t' || c == '\n' || c == '\r' }

  predicate DigitChar(c: char) { '0' <= c <= '9' }

  function SkipSpace(s: string): (r: string)
    ensures |r| <= |s|
  {
    if s != [] && Space(s[0]) then SkipSpace(s[1..]) else s
  }

  /** The digits a text begins with, and what follows them. */
  function TakeDigits(s: string): (r: (string, string))
    ensures r.0 + r.1 == s
    ensures forall c :: c in r.0 ==> DigitChar(c)
    ensures r.1 == [] || !DigitChar(r.1[0])
  {
    if s != [] && DigitChar(s[0]) then
      var (digits, rest) := TakeDigits(s[1..]);
      ([s[0]] + digits, rest)
    else ([], s)
  }

  function ValueOf(digits: string): nat
    requires forall c :: c in digits ==> DigitChar(c)
  {
    if digits == [] then 0
    else ValueOf(digits[..|digits| - 1]) * 10 + DigitValue(digits[|digits| - 1])
  }

  function DigitValue(c: char): nat
    requires DigitChar(c)
  {
    c as int - '0' as int
  }

  function Negated(minus: bool, n: int): int { if minus then -n else n }

  predicate StartsWith(s: string, c: char) { s != [] && s[0] == c }

  predicate Exponent(s: string) { StartsWith(s, 'e') || StartsWith(s, 'E') }

  /** An exponent part, without its letter. */
  function ParseExponent(s: string): (r: Option<(int, string)>)
    ensures r.Some? ==> |r.value.1| < |s|
  {
    var signed := StartsWith(s, '-') || StartsWith(s, '+');
    var (digits, rest) := TakeDigits(if signed then s[1..] else s);
    if digits == [] then None else Some((Negated(StartsWith(s, '-'), ValueOf(digits)), rest))
  }

  function ParseFraction(s: string): (r: Option<(string, string)>)
    ensures r.Some? ==> |r.value.1| <= |s| && forall c :: c in r.value.0 ==> DigitChar(c)
  {
    if StartsWith(s, '.') then
      var (digits, rest) := TakeDigits(s[1..]);
      if digits == [] then None else Some((digits, rest))
    else Some(([], s))
  }

  function ParseNumber(s: string): (r: Option<(Json, string)>)
    ensures r.Some? ==> |r.value.1| < |s|
  {
    var minus := StartsWith(s, '-');
    var (digits, s1) := TakeDigits(if minus then s[1..] else s);
    if digits == [] || (|digits| > 1 && digits[0] == '0') then None
    else
      var (fraction, s2) :- ParseFraction(s1);
      var (exponent, rest) :- if Exponent(s2) then ParseExponent(s2[1..]) else Some((0, s2));
      Some((Number(Negated(minus, ValueOf(digits + fraction)), exponent - |fraction|), rest))
  }

  /** A value at the start of a text, and what follows it. */
  function ParseValue(s: string): (r: Option<(Json, string)>)
    ensures r.Some? ==> |r.value.1| < |s|
    decreases |s|, 1
  {
    if s == [] then None
    else if s[0] == 'n' then ParseWord(s, "null", Null)
    else if s[0] == 't' then ParseWord(s, "true", Bool(true))
    else if s[0] == 'f' then ParseWord(s, "false", Bool(false))
    else if s[0] == '\"' then
      var (units, rest) :- ParseChars(s[1..]);
      Some((String(units), rest))
    else if s[0] == '[' then
      var body := SkipSpace(s[1..]);
      if StartsWith(body, ']') then Some((Array([]), body[1..]))
      else
        var (items, rest) :- ParseItems(body);
        Some((Array(items), rest))
    else if s[0] == '{' then
      var body := SkipSpace(s[1..]);
      if StartsWith(body, '}') then Some((Object([]), body[1..]))
      else
        var (members, rest) :- ParseMembers(body);
        Some((Object(members), rest))
    else ParseNumber(s)
  }

  function ParseWord(s: string, word: string, t: Json): (r: Option<(Json, string)>)
    requires word != []
    ensures r.Some? ==> |r.value.1| < |s|
  {
    if word <= s then Some((t, s[|word|..])) else None
  }

  /** One value or more, up to the closing bracket. */
  function ParseItems(s: string): (r: Option<(seq<Json>, string)>)
    ensures r.Some? ==> |r.value.1| < |s|
    decreases |s|, 2
  {
    var (item, s1) :- ParseValue(s);
    var s2 := SkipSpace(s1);
    if StartsWith(s2, ']') then Some(([item], s2[1..]))
    else if StartsWith(s2, ',') then
      var (items, rest) :- ParseItems(SkipSpace(s2[1..]));
      Some(([item] + items, rest))
    else None
  }

  /** A member's name with its colon. */
  function ParseKey(s: string): (r: Option<(Utf16, string)>)
    ensures r.Some? ==> |r.value.1| < |s|
  {
    if !StartsWith(s, '\"') then None
    else
      var (key, s1) :- ParseChars(s[1..]);
      var s2 := SkipSpace(s1);
      if StartsWith(s2, ':') then Some((key, SkipSpace(s2[1..]))) else None
  }

  /** One member or more, up to the closing brace. */
  function ParseMembers(s: string): (r: Option<(seq<Member>, string)>)
    ensures r.Some? ==> |r.value.1| < |s|
    decreases |s|, 2
  {
    var (key, s1) :- ParseKey(s);
    var (value, s2) :- ParseValue(s1);
    var s3 := SkipSpace(s2);
    if StartsWith(s3, '}') then Some(([Member(key, value)], s3[1..]))
    else if StartsWith(s3, ',') then
      var (members, rest) :- ParseMembers(SkipSpace(s3[1..]));
      Some(([Member(key, value)] + members, rest))
    else None
  }

  /** A whole JSON text. */
  function Parse(s: string): Option<Json> {
    var (t, rest) :- ParseValue(SkipSpace(s));
    if SkipSpace(rest) == [] then Some(t) else None
  }

  // What the parser makes of the text of a tree.

  lemma {:induction false} DecimalDigits(n: nat)
    ensures forall c :: c in Decimal(n) ==> DigitChar(c)
    ensures ValueOf(Decimal(n)) == n
    ensures Decimal(n) != [] && (Decimal(n)[0] == '0' ==> n == 0 && |Decimal(n)| == 1)
    decreases n
  {
    if n >= 10 {
      DecimalDigits(n / 10);
      var d := Decimal(n);
      assert d[..|d| - 1] == Decimal(n / 10) && d[|d| - 1] == Digit(n % 10);
    }
  }

  lemma {:induction false} TakeDigitsOf(digits: string, rest: string)
    requires forall c :: c in digits ==> DigitChar(c)
    requires rest == [] || !DigitChar(rest[0])
    ensures TakeDigits(digits + rest) == (digits, rest)
    decreases |digits|
  {
    if digits == [] {
      assert digits + rest == rest;
    } else {
      assert (digits + rest)[1..] == digits[1..] + rest;
      TakeDigitsOf(digits[1..], rest);
      assert [digits[0]] + digits[1..] == digits && (digits + rest)[0] == digits[0];
    }
  }

  /** No number goes on with this text. */
  predicate EndsNumber(rest: string) {
    rest == [] || !(DigitChar(rest[0]) || rest[0] == '.' || rest[0] == 'e' || rest[0] == 'E')
  }

  lemma {:induction false} TakeInt(n: int, rest: string)
    requires rest == [] || !DigitChar(rest[0])
    ensures
      var s := IntText(n) + rest;
      var digits := Decimal(if n < 0 then -n else n);
      && StartsWith(s, '-') == (n < 0) && !StartsWith(s, '+')
      && TakeDigits(if n < 0 then s[1..] else s) == (digits, rest)
      && (forall c :: c in digits ==> DigitChar(c)) && digits != [] && (|digits| > 1 ==> digits[0] != '0')
      && Negated(n < 0, ValueOf(digits)) == n
  {
    hide Decimal, ValueOf, TakeDigits;
    var digits := Decimal(if n < 0 then -n else n);
    DecimalDigits(if n < 0 then -n else n);
    TakeDigitsOf(digits, rest);
    assert DigitChar(digits[0]);
    if n < 0 {
      assert ("-" + digits + rest)[1..] == digits + rest;
    }
  }

  lemma {:induction false} ParseExponentText(e: int, rest: string)
    requires EndsNumber(rest)
    ensures ParseExponent(IntText(e) + rest) == Some((e, rest))
  {
    hide Decimal, ValueOf, TakeDigits, IntText;
    TakeInt(e, rest);
  }

  lemma {:induction false} ParseNumberText(m: int, e: int, rest: string)
    requires EndsNumber(rest)
    ensures ParseNumber(Text(Number(m, e)) + rest) == Some((Number(m, e), rest))
  {
    hide Decimal, ValueOf, TakeDigits, IntText, ParseExponent, Negated;
    var tail := if e == 0 then rest else "e" + (IntText(e) + rest);
    assert Text(Number(m, e)) + rest == IntText(m) + tail;
    TakeInt(m, tail);
    var digits := Decimal(if m < 0 then -m else m);
    assert digits + [] == digits;
    assert ParseFraction(tail) == Some(([], tail));
    if e != 0 {
      assert tail[1..] == IntText(e) + rest;
      ParseExponentText(e, rest);
    }
  }

  /** A value's text begins with no space and no closing bracket. */
  lemma {:induction false} TextStart(t: Json)
    ensures Text(t) != [] && !Space(Text(t)[0]) && Text(t)[0] != ']' && Text(t)[0] != '}'
  {
    hide IntText, ItemsText, MembersText, StringText;
    if t.Number? {
      NumberStart(t.mantissa, t.exponent);
    }
    if t.String? {
      assert StringText(t.units)[0] == '\"' by { QuoteStart(t.units); }
    }
  }

  lemma {:induction false} QuoteStart(units: Utf16)
    ensures StartsWith(StringText(units), '\"')
  {
  }

  lemma {:induction false} NumberStart(m: int, e: int)
    ensures
      var s := Text(Number(m, e));
      s != [] && (DigitChar(s[0]) || s[0] == '-')
  {
    hide Decimal, ValueOf;
    DecimalDigits(if m < 0 then -m else m);
    assert DigitChar(Decimal(if m < 0 then -m else m)[0]);
    assert IntText(m)[0] == Text(Number(m, e))[0];
  }

  lemma {:induction false} ItemsLast(items: seq<Json>, n: nat)
    requires |items| == n + 1
    ensures ItemsText(items) == ItemsText(items[..n]) + Separator(n) + Text(items[n])
  {
    hide Text;
  }

  lemma {:induction false} ItemsHead(items: seq<Json>)
    requires items != []
    ensures ItemsText(items) == Text(items[0]) + if |items| == 1 then "" else "," + ItemsText(items[1..])
    decreases |items|
  {
    hide Text, ItemsText;
    var n := |items| - 1;
    var rest := items[1..];
    ItemsLast(items, n);
    if n > 0 {
      var front := items[..n];
      ItemsHead(front);
      assert front[1..] == rest[..n - 1];
      ItemsLast(rest, n - 1);
      if n == 1 {
        NoItems(rest[..0]);
      }
    } else {
      NoItems(items[..0]);
    }
  }

  lemma {:induction false} NoItems(items: seq<Json>)
    requires items == []
    ensures ItemsText(items) == ""
  {
  }

  lemma {:induction false} MembersLast(members: seq<Member>, n: nat)
    requires |members| == n + 1
    ensures MembersText(members) == MembersText(members[..n]) + Separator(n) + MemberText(members[n])
  {
    hide MemberText;
  }

  lemma {:induction false} MembersHead(members: seq<Member>)
    requires members != []
    ensures
      MembersText(members)
      == MemberText(members[0]) + if |members| == 1 then "" else "," + MembersText(members[1..])
    decreases |members|
  {
    hide MemberText, MembersText;
    var n := |members| - 1;
    var rest := members[1..];
    MembersLast(members, n);
    if n > 0 {
      var front := members[..n];
      MembersHead(front);
      assert front[1..] == rest[..n - 1];
      MembersLast(rest, n - 1);
      if n == 1 {
        NoMembers(rest[..0]);
      }
    } else {
      NoMembers(members[..0]);
    }
  }

  lemma {:induction false} NoMembers(members: seq<Member>)
    requires members == []
    ensures MembersText(members) == ""
  {
  }

  lemma {:induction false} NoSpace(s: string)
    requires s == [] || !Space(s[0])
    ensures SkipSpace(s) == s
  {
  }

  /** The parser reads a value's text back and leaves what follows it. */
  lemma {:induction false} ParseText(t: Json, rest: string)
    requires EndsNumber(rest)
    ensures ParseValue(Text(t) + rest) == Some((t, rest))
    decreases t, 0
  {
    hide ParseNumber, ParseChars, ParseItems, ParseMembers, ItemsText, MembersText, IntText, UnitsText, SkipSpace;
    match t
    case Null => ParseWords(rest);
    case Bool(truth) => ParseWords(rest);
    case Number(m, e) => ParseNumberValue(m, e, rest);
    case String(units) => ParseStringText(units, rest);
    case Array(items) => ParseArrayText(items, rest);
    case Object(members) => ParseObjectText(members, rest);
  }

  lemma {:induction false} ParseWords(rest: string)
    ensures ParseWord("null" + rest, "null", Null) == Some((Null, rest))
    ensures ParseWord("true" + rest, "true", Bool(true)) == Some((Bool(true), rest))
    ensures ParseWord("false" + rest, "false", Bool(false)) == Some((Bool(false), rest))
  {
    assert ("null" + rest)[4..] == rest;
    assert ("true" + rest)[4..] == rest;
    assert ("false" + rest)[5..] == rest;
  }

  lemma {:induction false} ParseNumberValue(m: int, e: int, rest: string)
    requires EndsNumber(rest)
    ensures ParseValue(Text(Number(m, e)) + rest) == Some((Number(m, e), rest))
  {
    hide ParseNumber, ParseChars, ParseItems, ParseMembers, IntText, Text;
    NumberStart(m, e);
    ParseNumberText(m, e, rest);
    assert (Text(Number(m, e)) + rest)[0] == Text(Number(m, e))[0];
  }

  lemma {:induction false} ParseStringText(units: Utf16, rest: string)
    ensures StartsWith(StringText(units) + rest, '\"')
    ensures ParseChars((StringText(units) + rest)[1..]) == Some((units, rest))
  {
    hide UnitsText, ParseChars;
    assert (StringText(units) + rest)[1..] == UnitsText(units) + "\"" + rest;
    ParseUnits(units, rest);
  }

  lemma {:induction false} ParseArrayText(items: seq<Json>, rest: string)
    ensures ParseValue("[" + ItemsText(items) + "]" + rest) == Some((Array(items), rest))
    decreases items, 2
  {
    hide Text, ParseItems, ItemsText, ParseNumber, ParseChars, ParseMembers, SkipSpace;
    var s := "[" + ItemsText(items) + "]" + rest;
    assert s[1..] == ItemsText(items) + "]" + rest;
    if items == [] {
      NoItems(items);
      NoSpace(s[1..]);
      assert s[1..][1..] == rest;
    } else {
      ItemsHead(items);
      TextStart(items[0]);
      NoSpace(s[1..]);
      ParseItemsText(items, rest);
    }
  }

  lemma {:induction false} ParseItemsText(items: seq<Json>, rest: string)
    requires items != []
    ensures ParseItems(ItemsText(items) + "]" + rest) == Some((items, rest))
    decreases items, 1
  {
    hide Text, ParseValue, ItemsText;
    ItemsHead(items);
    var s := ItemsText(items) + "]" + rest;
    var after := if |items| == 1 then "]" + rest else "," + (ItemsText(items[1..]) + "]" + rest);
    assert s == Text(items[0]) + after;
    ParseText(items[0], after);
    NoSpace(after);
    if |items| == 1 {
      assert after[1..] == rest && items == [items[0]];
    } else {
      ItemsHead(items[1..]);
      TextStart(items[1]);
      assert after[1..] == ItemsText(items[1..]) + "]" + rest;
      NoSpace(after[1..]);
      ParseItemsText(items[1..], rest);
      assert [items[0]] + items[1..] == items;
    }
  }

  lemma {:induction false} ParseObjectText(members: seq<Member>, rest: string)
    ensures ParseValue("{" + MembersText(members) + "}" + rest) == Some((Object(members), rest))
    decreases members, 2
  {
    hide Text, ParseMembers, MembersText, ParseNumber, ParseChars, ParseItems, SkipSpace;
    var s := "{" + MembersText(members) + "}" + rest;
    assert s[1..] == MembersText(members) + "}" + rest;
    if members == [] {
      NoMembers(members);
      NoSpace(s[1..]);
      assert s[1..][1..] == rest;
    } else {
      MemberStart(members);
      NoSpace(s[1..]);
      ParseMembersText(members, rest);
    }
  }

  lemma {:induction false} ParseKeyText(key: Utf16, value: Json, after: string)
    ensures ParseKey(StringText(key) + ":" + (Text(value) + after)) == Some((key, Text(value) + after))
  {
    hide Text, StringText, ParseChars;
    var s := StringText(key) + ":" + (Text(value) + after);
    var tail := ":" + (Text(value) + after);
    assert s == StringText(key) + tail;
    ParseStringText(key, tail);
    NoSpace(tail);
    TextStart(value);
    assert tail[1..] == Text(value) + after;
    NoSpace(tail[1..]);
  }

  lemma {:induction false} ParseMembersText(members: seq<Member>, rest: string)
    requires members != []
    ensures ParseMembers(MembersText(members) + "}" + rest) == Some((members, rest))
    decreases members, 1
  {
    hide Text, ParseValue, MembersText, ParseKey, StringText;
    MembersHead(members);
    var m := members[0];
    var s := MembersText(members) + "}" + rest;
    var after := if |members| == 1 then "}" + rest else "," + (MembersText(members[1..]) + "}" + rest);
    assert s == StringText(m.key) + ":" + (Text(m.value) + after);
    ParseKeyText(m.key, m.value, after);
    ParseText(m.value, after);
    NoSpace(after);
    if |members| == 1 {
      assert after[1..] == rest && members == [m];
    } else {
      MemberStart(members[1..]);
      assert after[1..] == MembersText(members[1..]) + "}" + rest;
      NoSpace(after[1..]);
      ParseMembersText(members[1..], rest);
      assert [m] + members[1..] == members;
    }
  }

  lemma {:induction false} MemberStart(members: seq<Member>)
    requires members != []
    ensures StartsWith(MembersText(members), '\"')
  {
    MembersHead(members);
  }

  /** Parsing undoes writing, for every tree. */
  lemma {:induction false} ParseUndoesText(t: Json)
    ensures Parse(Text(t)) == Some(t)
  {
    TextStart(t);
    NoSpace(Text(t));
    ParseText(t, []);
    assert Text(t) + [] == Text(t);
  }
}
