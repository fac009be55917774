/** JSON trees, the text the agent writes for them, and the encoding of its strings.

    Agent strings are bytes in modified UTF-8 (section 4.4.7 of the JVM Specification); JSON
    strings are sequences of UTF-16 code units. */
module JsonText {

  type Byte = c: char | c as int < 0x100 witness 'a'
  type Bytes = seq<Byte>

  type Unit = u: nat | u < 0x10000
  type Utf16 = seq<Unit>

  const REPLACEMENT: Unit := 0xFFFD

  datatype Member = Member(key: Utf16, value: Json)

  /** A number is mantissa * 10^exponent. */
  datatype Json =
    | Null
    | Bool(truth: bool)
    | Number(mantissa: int, exponent: int)
    | String(units: Utf16)
    | Array(items: seq<Json>)
    | Object(members: seq<Member>)

  // Modified UTF-8.

  function TwoBytes(u: nat): Bytes
    requires u < 0x800
  {
    [(0xC0 + u / 64) as char, (0x80 + u % 64) as char]
  }

  function ThreeBytes(u: Unit): Bytes {
    [(0xE0 + u / 4096) as char, (0x80 + u / 64 % 64) as char, (0x80 + u % 64) as char]
  }

  function EncodeUnit(u: Unit): (bytes: Bytes)
    ensures bytes != []
  {
    if 1 <= u < 0x80 then [u as char] else if u < 0x800 then TwoBytes(u) else ThreeBytes(u)
  }

  function Encode(units: Utf16): Bytes {
    if units == [] then [] else EncodeUnit(units[0]) + Encode(units[1..])
  }

  datatype Prefix = Prefix(unit: Unit, size: nat)

  /** The unit whose form the bytes begin with.  Longer forms than needed are read too, and a
      byte that begins no form stands for U+FFFD. */
  function First(s: Bytes): (p: Prefix)
    requires s != []
    ensures 1 <= p.size <= |s|
  {
    if s[0] as int < 0x80 then Prefix(s[0] as int, 1)
    else if |s| >= 2 && TwoBytes(Payload2(s)) == s[..2] then Prefix(Payload2(s), 2)
    else if |s| >= 3 && ThreeBytes(Payload3(s)) == s[..3] then Prefix(Payload3(s), 3)
    else Prefix(REPLACEMENT, 1)
  }

  function Payload2(s: Bytes): (u: Unit)
    requires |s| >= 2
    ensures u < 0x800
  {
    s[0] as int % 32 * 64 + s[1] as int % 64
  }

  function Payload3(s: Bytes): Unit
    requires |s| >= 3
  {
    s[0] as int % 16 * 4096 + s[1] as int % 64 * 64 + s[2] as int % 64
  }

  function Decode(s: Bytes): Utf16 {
    if s == [] then [] else [First(s).unit] + Decode(s[First(s).size..])
  }

  // The text of a string.

  const HEX := "0123456789abcdef"

  function Hex4(u: Unit): (t: string)
    ensures |t| == 4 && forall c :: c in t ==> c in HEX
  {
    [HEX[u / 4096], HEX[u / 256 % 16], HEX[u / 16 % 16], HEX[u % 16]]
  }

  function UnitText(u: Unit): (t: string)
    ensures t != []
  {
    if u == 0x22 then "\\\""
    else if u == 0x5C then "\\\\"
    else if u == 0x08 then "\\b"
    else if u == 0x0C then "\\f"
    else if u == 0x0A then "\\n"
    else if u == 0x0D then "\\r"
    else if u == 0x09 then "\\t"
    else if 0x20 <= u < 0x7F then [u as char]
    else "\\u" + Hex4(u)
  }

  function UnitsText(units: Utf16): string {
    if units == [] then "" else UnitText(units[0]) + UnitsText(units[1..])
  }

  // The text of a tree.

  function Digit(d: nat): char
    requires d < 10
  {
    ('0' as int + d) as char
  }

  function Decimal(n: nat): string {
    if n < 10 then [Digit(n)] else Decimal(n / 10) + [Digit(n % 10)]
  }

  function IntText(n: int): string {
    if n < 0 then "-" + Decimal(-n) else Decimal(n)
  }

  function StringText(units: Utf16): string {
    "\"" + UnitsText(units) + "\""
  }

  function Text(t: Json): string {
    match t
    case Null => "null"
    case Bool(truth) => if truth then "true" else "false"
    case Number(m, e) => if e == 0 then IntText(m) else IntText(m) + "e" + IntText(e)
    case String(units) => StringText(units)
    case Array(items) => "[" + ItemsText(items) + "]"
    case Object(members) => "{" + MembersText(members) + "}"
  }

  function ItemsText(items: seq<Json>): string {
    if items == [] then ""
    else
      var n := |items| - 1;
      ItemsText(items[..n]) + Separator(n) + Text(items[n])
  }

  function MembersText(members: seq<Member>): string {
    if members == [] then ""
    else
      var n := |members| - 1;
      MembersText(members[..n]) + Separator(n) + MemberText(members[n])
  }

  /** What goes before a value that n values precede. */
  function Separator(n: nat): string { if n == 0 then "" else "," }

  function MemberText(m: Member): string {
    StringText(m.key) + ":" + Text(m.value)
  }
}
