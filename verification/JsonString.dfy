/** Escaping of agent strings, the string grammar of section 7 of RFC 8259, and their match. */
module JsonString {
  import opened Wrappers
  import opened JsonText

  // Escaping, as the agent does it.  The masks and shifts are written as division and
  // remainder: b & 0xE0 == 0xC0 is b / 32 == 6, and b & 0x3F is b % 64.

  method AppendUnit(out: string, u: Unit) returns (r: string)
    ensures r == out + UnitText(u)
  {
    match u {
      case 0x22 => return out + "\\\"";
      case 0x5C => return out + "\\\\";
      case 0x08 => return out + "\\b";
      case 0x0C => return out + "\\f";
      case 0x0A => return out + "\\n";
      case 0x0D => return out + "\\r";
      case 0x09 => return out + "\\t";
      case _ =>
    }
    if 0x20 <= u < 0x7F {
      return out + [u as char];
    }
    return out + ("\\u" + Hex4(u));
  }

  method Escape(s: Bytes) returns (out: string)
    ensures out == UnitsText(Decode(s))
  {
    hide UnitText, First, Decode, UnitsText;
    DecodeNone();
    out := "";
    var i, n := 0, |s|;
    while i < n
      invariant 0 <= i <= n
      invariant out + UnitsText(Decode(s[i..])) == UnitsText(Decode(s))
    {
      ghost var rest := s[i..];
      LeadBytes(rest);
      var b0 := s[i] as int;
      var unit: Unit;
      ghost var at := i;
      assert |rest| == n - i && forall k :: 0 <= k < n - i ==> rest[k] == s[i + k];
      DecodeStep(rest);
      if b0 < 0x80 {
        unit := b0;
        i := i + 1;
      } else if b0 / 32 == 6 && i + 1 < n && s[i + 1] as int / 64 == 2 {
        unit := b0 % 32 * 64 + s[i + 1] as int % 64;
        i := i + 2;
      } else if b0 / 16 == 14 && i + 2 < n && s[i + 1] as int / 64 == 2 && s[i + 2] as int / 64 == 2 {
        unit := b0 % 16 * 4096 + s[i + 1] as int % 64 * 64 + s[i + 2] as int % 64;
        i := i + 3;
      } else {
        unit := REPLACEMENT;
        i := i + 1;
      }
      assert First(rest) == Prefix(unit, i - at);
      assert rest[i - at..] == s[i..];
      out := AppendUnit(out, unit);
    }
  }

  lemma {:induction false} DecodeNone()
    ensures forall s: Bytes :: s == [] ==> UnitsText(Decode(s)) == []
  {
  }

  lemma {:induction false} DecodeStep(s: Bytes)
    requires s != []
    ensures Decode(s) == [First(s).unit] + Decode(s[First(s).size..])
    ensures UnitsText(Decode(s)) == UnitText(First(s).unit) + UnitsText(Decode(s[First(s).size..]))
  {
    hide First, UnitText;
    assert Decode(s)[1..] == Decode(s[First(s).size..]);
  }

  /** The reference decoder's forms are the lead and continuation bytes the code looks for. */
  lemma {:induction false} LeadBytes(s: Bytes)
    requires s != []
    ensures
      var b0 := s[0] as int;
      var two := b0 / 32 == 6 && |s| >= 2 && s[1] as int / 64 == 2;
      var three := b0 / 16 == 14 && |s| >= 3 && s[1] as int / 64 == 2 && s[2] as int / 64 == 2;
      First(s) ==
        if b0 < 0x80 then Prefix(b0, 1)
        else if two then Prefix(b0 % 32 * 64 + s[1] as int % 64, 2)
        else if three then Prefix(b0 % 16 * 4096 + s[1] as int % 64 * 64 + s[2] as int % 64, 3)
        else Prefix(0xFFFD, 1)
  {
    hide Payload2, Payload3, TwoBytes, ThreeBytes;
    if |s| >= 2 { TwoBytesLead(s); }
    if |s| >= 3 { ThreeBytesLead(s); }
  }

  lemma {:induction false} TwoBytesLead(s: Bytes)
    requires |s| >= 2
    ensures Payload2(s) == s[0] as int % 32 * 64 + s[1] as int % 64
    ensures TwoBytes(Payload2(s)) == s[..2] <==> s[0] as int / 32 == 6 && s[1] as int / 64 == 2
  {
    TwoByteForm(s[0] as int, s[1] as int);
    var t := TwoBytes(Payload2(s));
    assert t == s[..2] <==> t[0] == s[0] && t[1] == s[1];
  }

  lemma {:induction false} ThreeBytesLead(s: Bytes)
    requires |s| >= 3
    ensures Payload3(s) == s[0] as int % 16 * 4096 + s[1] as int % 64 * 64 + s[2] as int % 64
    ensures
      ThreeBytes(Payload3(s)) == s[..3]
      <==> s[0] as int / 16 == 14 && s[1] as int / 64 == 2 && s[2] as int / 64 == 2
  {
    ThreeByteForm(s[0] as int, s[1] as int, s[2] as int);
    var t := ThreeBytes(Payload3(s));
    assert t == s[..3] <==> t[0] == s[0] && t[1] == s[1] && t[2] == s[2];
  }

  lemma {:induction false} TwoByteForm(b0: nat, b1: nat)
    requires b0 < 256 && b1 < 256
    ensures
      var u := b0 % 32 * 64 + b1 % 64;
      0xC0 + u / 64 == b0 && 0x80 + u % 64 == b1 <==> b0 / 32 == 6 && b1 / 64 == 2
  {
    var u := b0 % 32 * 64 + b1 % 64;
    assert u / 64 == b0 % 32 && u % 64 == b1 % 64;
  }

  lemma {:induction false} ThreeByteForm(b0: nat, b1: nat, b2: nat)
    requires b0 < 256 && b1 < 256 && b2 < 256
    ensures
      var u := b0 % 16 * 4096 + b1 % 64 * 64 + b2 % 64;
      && (0xE0 + u / 4096 == b0 && 0x80 + u / 64 % 64 == b1 && 0x80 + u % 64 == b2
          <==> b0 / 16 == 14 && b1 / 64 == 2 && b2 / 64 == 2)
  {
    var u := b0 % 16 * 4096 + b1 % 64 * 64 + b2 % 64;
    assert u / 64 == b0 % 16 * 64 + b1 % 64;
    assert u / 4096 == b0 % 16 && u / 64 % 64 == b1 % 64 && u % 64 == b2 % 64;
  }

  /** Decoding undoes encoding: every sequence of code units, unpaired surrogates included, is
      read back from its modified UTF-8 form. */
  lemma {:induction false} DecodeEncode(units: Utf16)
    ensures Decode(Encode(units)) == units
    decreases |units|
  {
    hide First, EncodeUnit;
    if units != [] {
      var u, rest := units[0], units[1..];
      FirstOfForm(u, Encode(rest));
      var s := EncodeUnit(u) + Encode(rest);
      assert s[|EncodeUnit(u)|..] == Encode(rest);
      DecodeEncode(rest);
    }
  }

  lemma {:induction false} Payload2OfForm(u: Unit)
    requires u < 0x800
    ensures (0xC0 + u / 64) % 32 * 64 + (0x80 + u % 64) % 64 == u
    ensures 0xC0 + u / 64 >= 0x80
  {
  }

  lemma {:induction false} Payload3OfForm(u: Unit)
    ensures (0xE0 + u / 4096) % 16 * 4096 + (0x80 + u / 64 % 64) % 64 * 64 + (0x80 + u % 64) % 64 == u
    ensures (0xE0 + u / 4096) / 16 == 14 && (0xE0 + u / 4096) / 32 == 7
    ensures (0x80 + u / 64 % 64) / 64 == 2 && (0x80 + u % 64) / 64 == 2
  {
    var a, b, c := u / 4096, u / 64 % 64, u % 64;
    ThreeParts(u);
    LeadBits(a);
    TrailBits(b);
    TrailBits(c);
  }

  lemma {:induction false} ThreeParts(u: Unit)
    ensures u == u / 4096 * 4096 + u / 64 % 64 * 64 + u % 64 && u / 4096 < 16
  {
    var a := u / 64;
    assert a / 64 == u / 4096;
  }

  lemma {:induction false} LeadBits(n: nat)
    requires n < 16
    ensures (0xE0 + n) % 16 == n && (0xE0 + n) / 16 == 14 && (0xE0 + n) / 32 == 7
  {
  }

  lemma {:induction false} TrailBits(n: nat)
    requires n < 64
    ensures (0x80 + n) % 64 == n && (0x80 + n) / 64 == 2
  {
  }

  lemma {:induction false} FirstOfForm(u: Unit, rest: Bytes)
    ensures First(EncodeUnit(u) + rest) == Prefix(u, |EncodeUnit(u)|)
  {
    var s := EncodeUnit(u) + rest;
    if 1 <= u < 0x80 {
    } else if u < 0x800 {
      assert s[..2] == TwoBytes(u);
      assert Payload2(s) == u by { Payload2OfForm(u); }
    } else {
      assert s[..3] == ThreeBytes(u);
      Payload3OfForm(u);
      LeadBytes(s);
    }
  }

  // Reading strings back.

  function HexValue(c: char): Option<nat> {
    if '0' <= c <= '9' then Some(c as nat - '0' as nat)
    else if 'a' <= c <= 'f' then Some(c as nat - 'a' as nat + 10)
    else if 'A' <= c <= 'F' then Some(c as nat - 'A' as nat + 10)
    else None
  }

  function HexUnit(s: string): Option<Unit>
    requires |s| == 4
  {
    match (HexValue(s[0]), HexValue(s[1]), HexValue(s[2]), HexValue(s[3]))
    case (Some(a), Some(b), Some(c), Some(d)) =>
      var u := a * 4096 + b * 256 + c * 16 + d;
      if u < 0x10000 then Some(u) else None
    case _ => None
  }

  /** A two-character escape. */
  function Short(c: char): Option<Unit> {
    match c
    case '\"' => Some(0x22)
    case '\\' => Some(0x5C)
    case '/' => Some(0x2F)
    case 'b' => Some(0x08)
    case 'f' => Some(0x0C)
    case 'n' => Some(0x0A)
    case 'r' => Some(0x0D)
    case 't' => Some(0x09)
    case _ => None
  }

  /** The code units of a character that stands for itself. */
  function Plain(c: char): Utf16 {
    var n := c as int;
    if n < 0x10000 then [n] else [0xD800 + (n - 0x10000) / 1024, 0xDC00 + (n - 0x10000) % 1024]
  }

  datatype Piece = Piece(units: Utf16, size: nat)

  /** The first character or escape of a string's content. */
  function FirstPiece(s: string): (p: Option<Piece>)
    requires s != []
    ensures p.Some? ==> 1 <= p.value.size <= |s|
  {
    if s[0] == '\\' then
      if |s| >= 6 && s[1] == 'u' && HexUnit(s[2..6]).Some? then Some(Piece([HexUnit(s[2..6]).value], 6))
      else if |s| >= 2 && Short(s[1]).Some? then Some(Piece([Short(s[1]).value], 2))
      else None
    else if s[0] as int < 0x20 || s[0] == '\"' then None
    else Some(Piece(Plain(s[0]), 1))
  }

  /** Reads a string's content up to its closing quote; the result is what is left after it. */
  function ParseChars(s: string): (r: Option<(Utf16, string)>)
    ensures r.Some? ==> |r.value.1| < |s|
    decreases |s|
  {
    if s == [] then None
    else if s[0] == '\"' then Some(([], s[1..]))
    else match FirstPiece(s)
      case None => None
      case Some(p) =>
        match ParseChars(s[p.size..])
        case None => None
        case Some((units, rest)) => Some((p.units + units, rest))
  }

  /** What a string's content stands for. */
  function Unescape(content: string): Option<Utf16> {
    match ParseChars(content + "\"")
    case Some((units, rest)) => if rest == [] then Some(units) else None
    case None => None
  }

  lemma {:induction false} HexDigit(d: nat)
    requires d < 16
    ensures HexValue(HEX[d]) == Some(d)
  {
  }

  lemma {:induction false} HexDigits(u: Unit)
    ensures u == u / 4096 * 4096 + u / 256 % 16 * 256 + u / 16 % 16 * 16 + u % 16
  {
    var a, b := u / 16, u / 256;
    assert a / 16 == b && b / 16 == u / 4096;
  }

  lemma {:induction false} HexRoundTrip(u: Unit)
    ensures HexUnit(Hex4(u)) == Some(u)
  {
    hide HexValue;
    HexDigit(u / 4096);
    HexDigit(u / 256 % 16);
    HexDigit(u / 16 % 16);
    HexDigit(u % 16);
    HexDigits(u);
  }

  lemma {:induction false} PieceOfUnit(u: Unit, rest: string)
    ensures
      var s := UnitText(u) + rest;
      s[0] != '\"' && FirstPiece(s) == Some(Piece([u], |UnitText(u)|))
  {
    hide Hex4, HexUnit;
    HexRoundTrip(u);
    var s := UnitText(u) + rest;
    if s[0] == '\\' && s[1] == 'u' {
      assert s[2..6] == Hex4(u);
    }
  }

  lemma {:induction false} ParseUnits(units: Utf16, rest: string)
    ensures ParseChars(UnitsText(units) + "\"" + rest) == Some((units, rest))
    decreases |units|
  {
    hide UnitText, FirstPiece;
    if units == [] {
      assert ("\"" + rest)[1..] == rest;
    } else {
      var head, tail := UnitText(units[0]), UnitsText(units[1..]) + "\"" + rest;
      assert UnitsText(units) + "\"" + rest == head + tail;
      PieceOfUnit(units[0], tail);
      assert (head + tail)[|head|..] == tail;
      ParseUnits(units[1..], rest);
      assert [units[0]] + units[1..] == units;
    }
  }

  lemma {:induction false} UnitAscii(u: Unit)
    ensures forall c :: c in UnitText(u) ==> 0x20 <= c as int < 0x7F
  {
    hide Hex4;
    var t := UnitText(u);
    forall i | 0 <= i < |t| ensures 0x20 <= t[i] as int < 0x7F {
      if i >= 2 && |t| == 6 {
        assert t[i] == Hex4(u)[i - 2] && t[i] in Hex4(u);
        HexAscii(t[i]);
      }
    }
  }

  lemma {:induction false} HexAscii(c: char)
    requires c in HEX
    ensures 0x20 <= c as int < 0x7F
  {
  }

  lemma {:induction false} UnitsAscii(units: Utf16)
    ensures forall c :: c in UnitsText(units) ==> 0x20 <= c as int < 0x7F
    decreases |units|
  {
    if units != [] {
      hide UnitText;
      UnitsAscii(units[1..]);
      UnitAscii(units[0]);
    }
  }

  /** Whatever the bytes are, the escaped text is printable ASCII and unescapes to exactly the
      units the bytes stand for. */
  lemma {:induction false} EscapingIsExact(s: Bytes)
    ensures Unescape(UnitsText(Decode(s))) == Some(Decode(s))
    ensures forall c :: c in UnitsText(Decode(s)) ==> 0x20 <= c as int < 0x7F
  {
    UnitsAscii(Decode(s));
    ParseUnits(Decode(s), "");
    assert UnitsText(Decode(s)) + "\"" + "" == UnitsText(Decode(s)) + "\"";
  }

  ghost predicate WellFormed(s: Bytes) {
    exists units :: s == Encode(units)
  }

  /** Two byte strings escape alike exactly when they decode alike; for well-formed ones, only
      when they are equal. */
  lemma {:induction false} EscapingIsInjective(s: Bytes, t: Bytes)
    ensures UnitsText(Decode(s)) == UnitsText(Decode(t)) <==> Decode(s) == Decode(t)
    ensures WellFormed(s) && WellFormed(t) && UnitsText(Decode(s)) == UnitsText(Decode(t)) ==> s == t
  {
    EscapingIsExact(s);
    EscapingIsExact(t);
    if WellFormed(s) && WellFormed(t) {
      var u, v :| s == Encode(u) && t == Encode(v);
      DecodeEncode(u);
      DecodeEncode(v);
    }
  }
}
