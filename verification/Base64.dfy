/** Base64 encoding, and a strict decoder after section 4 of RFC 4648. */
module Base64 {
  import opened Wrappers
  import opened JsonText

  type Sextet = d: nat | d < 64

  /** The alphabet: A-Z, a-z, 0-9, + and /. */
  function Letter(d: Sextet): Byte {
    if d < 26 then ('A' as int + d) as char
    else if d < 52 then ('a' as int + (d - 26)) as char
    else if d < 62 then ('0' as int + (d - 52)) as char
    else if d == 62 then '+' else '/'
  }

  const PAD: Byte := '='

  /** The four letters of three bytes. */
  function Quantum(a: Byte, b: Byte, c: Byte): (q: Bytes)
    ensures |q| == 4
  {
    var n := a as int * 65536 + b as int * 256 + c as int;
    [Letter(n / 262144 % 64), Letter(n / 4096 % 64), Letter(n / 64 % 64), Letter(n % 64)]
  }

  /** The encoding of a text of bytes, three at a time. */
  function Encoding(s: Bytes): Bytes {
    if s == [] then []
    else if |s| == 1 then Quantum(s[0], 0 as char, 0 as char)[..2] + [PAD, PAD]
    else if |s| == 2 then Quantum(s[0], s[1], 0 as char)[..3] + [PAD]
    else Quantum(s[0], s[1], s[2]) + Encoding(s[3..])
  }

  // The decoder.

  function LetterValue(c: char): Option<Sextet> {
    if 'A' <= c <= 'Z' then Some(c as int - 'A' as int)
    else if 'a' <= c <= 'z' then Some(c as int - 'a' as int + 26)
    else if '0' <= c <= '9' then Some(c as int - '0' as int + 52)
    else if c == '+' then Some(62)
    else if c == '/' then Some(63)
    else None
  }

  function FirstByte(p: Sextet, q: Sextet): Byte { (p * 4 + q / 16) as char }
  function SecondByte(q: Sextet, r: Sextet): Byte { (q % 16 * 16 + r / 4) as char }
  function ThirdByte(r: Sextet, t: Sextet): Byte { (r % 4 * 64 + t) as char }

  /** The bytes of the last four letters; bits that no byte uses must be zero. */
  function DecodeLast(s: string): Option<Bytes>
    requires |s| == 4
  {
    match (LetterValue(s[0]), LetterValue(s[1]), LetterValue(s[2]), LetterValue(s[3]))
    case (Some(p), Some(q), None, None) =>
      if s[2] == '=' && s[3] == '=' && q % 16 == 0 then Some([FirstByte(p, q)]) else None
    case (Some(p), Some(q), Some(r), None) =>
      if s[3] == '=' && r % 4 == 0 then Some([FirstByte(p, q), SecondByte(q, r)]) else None
    case _ => DecodeFull(s)
  }

  function DecodeFull(s: string): Option<Bytes>
    requires |s| == 4
  {
    match (LetterValue(s[0]), LetterValue(s[1]), LetterValue(s[2]), LetterValue(s[3]))
    case (Some(p), Some(q), Some(r), Some(t)) => Some([FirstByte(p, q), SecondByte(q, r), ThirdByte(r, t)])
    case _ => None
  }

  function Decode(s: string): Option<Bytes> {
    if s == [] then Some([])
    else if |s| < 4 then None
    else if |s| == 4 then DecodeLast(s)
    else
      match (DecodeFull(s[..4]), Decode(s[4..]))
      case (Some(head), Some(tail)) => Some(head + tail)
      case _ => None
  }

  /** Encoding as the agent does it. */
  method Base64Encode(s: Bytes) returns (out: Bytes)
    ensures out == Encoding(s)
  {
    hide Quantum, Letter, Encoding;
    out := [];
    var i := 0;
    assert s[0..] == s;
    while i + 2 < |s|
      invariant 0 <= i <= |s|
      invariant out + Encoding(s[i..]) == Encoding(s)
    {
      var n := s[i] as int * 65536 + s[i + 1] as int * 256 + s[i + 2] as int;
      EncodingThree(s, i, out);
      Four(out, s[i], s[i + 1], s[i + 2], n);
      out := out + [Letter(n / 262144 % 64)];
      out := out + [Letter(n / 4096 % 64)];
      out := out + [Letter(n / 64 % 64)];
      out := out + [Letter(n % 64)];
      i := i + 3;
    }
    EncodingLast(s, i);
    if i < |s| {
      var two := i + 1 < |s|;
      var n := s[i] as int * 65536 + if two then s[i + 1] as int * 256 else 0;
      Four(out, s[i], if two then s[i + 1] else 0 as char, 0 as char, n);
      out := out + [Letter(n / 262144 % 64)];
      out := out + [Letter(n / 4096 % 64)];
      out := out + [if two then Letter(n / 64 % 64) else PAD];
      out := out + [PAD];
    }
  }

  lemma {:induction false} EncodingThree(s: Bytes, i: nat, out: Bytes)
    requires i + 2 < |s|
    ensures out + Encoding(s[i..]) == out + Quantum(s[i], s[i + 1], s[i + 2]) + Encoding(s[i + 3..])
  {
    hide Quantum;
    assert s[i..][3..] == s[i + 3..];
  }

  lemma {:induction false} EncodingLast(s: Bytes, i: nat)
    requires i <= |s| <= i + 2
    ensures
      Encoding(s[i..]) ==
        if i == |s| then []
        else if i + 1 == |s| then Quantum(s[i], 0 as char, 0 as char)[..2] + [PAD, PAD]
        else Quantum(s[i], s[i + 1], 0 as char)[..3] + [PAD]
  {
    hide Quantum;
  }

  lemma {:induction false} Four(out: Bytes, a: Byte, b: Byte, c: Byte, n: nat)
    requires n == a as int * 65536 + b as int * 256 + c as int
    ensures
      var q := Quantum(a, b, c);
      var front := out + [Letter(n / 262144 % 64)] + [Letter(n / 4096 % 64)];
      && front + [Letter(n / 64 % 64)] + [Letter(n % 64)] == out + q
      && front + [Letter(n / 64 % 64)] + [PAD] == out + (q[..3] + [PAD])
      && front + [PAD] + [PAD] == out + (q[..2] + [PAD, PAD])
  {
    hide Letter;
  }

  // Decoding undoes encoding, and only what encoding yields decodes.

  lemma {:induction false} LetterIs(d: Sextet, c: char)
    ensures LetterValue(c) == Some(d) <==> c == Letter(d)
    ensures Letter(d) != '='
  {
  }

  /** The letters of three bytes, by the bits they take from each. */
  lemma {:induction false} QuantumBits(a: Byte, b: Byte, c: Byte)
    ensures
      var x, y, z := a as int, b as int, c as int;
      Quantum(a, b, c) == [Letter(x / 4), Letter(x % 4 * 16 + y / 16), Letter(y % 16 * 4 + z / 64), Letter(z % 64)]
  {
    hide Letter;
    Shifts(a as int, b as int, c as int);
  }

  /** Quotient and remainder are what add up. */
  lemma {:induction false} SplitBy(n: nat, d: nat, q: nat, r: nat)
    requires d > 0 && n == q * d + r && r < d
    ensures n / d == q && n % d == r
  {
    if n / d < q {
      Product(n / d + 1, q, d);
    } else if n / d > q {
      Product(q + 1, n / d, d);
    }
  }

  lemma {:induction false} Product(a: nat, b: nat, d: nat)
    requires a <= b
    ensures a * d <= b * d
  {
  }

  lemma {:induction false} Shifts(x: nat, y: nat, z: nat)
    requires x < 256 && y < 256 && z < 256
    ensures
      var n := x * 65536 + y * 256 + z;
      && n / 262144 % 64 == x / 4 && n / 4096 % 64 == x % 4 * 16 + y / 16
      && n / 64 % 64 == y % 16 * 4 + z / 64 && n % 64 == z % 64
  {
    var n := x * 65536 + y * 256 + z;
    SplitBy(n, 64, x * 1024 + y * 4 + z / 64, z % 64);
    SplitBy(n, 4096, x * 16 + y / 16, y % 16 * 256 + z);
    SplitBy(n, 262144, x / 4, x % 4 * 65536 + y * 256 + z);
    SplitBy(x * 16 + y / 16, 64, x / 4, x % 4 * 16 + y / 16);
    SplitBy(x * 1024 + y * 4 + z / 64, 64, x * 16 + y / 16, y % 16 * 4 + z / 64);
  }

  /** The letters of three bytes, one by one. */
  predicate Letters(s: string, x: nat, y: nat, z: nat)
    requires |s| == 4 && x < 256 && y < 256 && z < 256
  {
    && LetterValue(s[0]) == Some(x / 4) && LetterValue(s[1]) == Some(x % 4 * 16 + y / 16)
    && LetterValue(s[2]) == Some(y % 16 * 4 + z / 64) && LetterValue(s[3]) == Some(z % 64)
  }

  lemma {:induction false} LettersAre(s: string, a: Byte, b: Byte, c: Byte)
    requires |s| == 4
    ensures Letters(s, a as int, b as int, c as int) <==> s == Quantum(a, b, c)
  {
    hide Letter, LetterValue, Quantum;
    QuantumBits(a, b, c);
    var x, y, z := a as int, b as int, c as int;
    LetterIs(x / 4, s[0]);
    LetterIs(x % 4 * 16 + y / 16, s[1]);
    LetterIs(y % 16 * 4 + z / 64, s[2]);
    LetterIs(z % 64, s[3]);
  }

  lemma {:induction false} LettersDecode(s: string, a: Byte, b: Byte, c: Byte)
    requires |s| == 4
    ensures DecodeFull(s) == Some([a, b, c]) <==> Letters(s, a as int, b as int, c as int)
  {
    hide LetterValue;
    var x, y, z := a as int, b as int, c as int;
    BytesOf(x, y, z);
    match (LetterValue(s[0]), LetterValue(s[1]), LetterValue(s[2]), LetterValue(s[3]))
    case (Some(p), Some(q), Some(r), Some(t)) =>
      assert DecodeFull(s) == Some([FirstByte(p, q), SecondByte(q, r), ThirdByte(r, t)]);
      if a == FirstByte(p, q) && b == SecondByte(q, r) && c == ThirdByte(r, t) {
        SextetsOf(x, y, z, p, q, r, t);
      } else {
        DifferentBytes(FirstByte(p, q), SecondByte(q, r), ThirdByte(r, t), a, b, c);
      }
    case _ =>
  }

  lemma {:induction false} DifferentBytes(a: Byte, b: Byte, c: Byte, a': Byte, b': Byte, c': Byte)
    requires a != a' || b != b' || c != c'
    ensures [a, b, c] != [a', b', c']
  {
    assert [a, b, c][0] == a && [a, b, c][1] == b && [a, b, c][2] == c;
    assert [a', b', c'][0] == a' && [a', b', c'][1] == b' && [a', b', c'][2] == c';
  }

  lemma {:induction false} FullIs(s: string, a: Byte, b: Byte, c: Byte)
    requires |s| == 4
    ensures DecodeFull(s) == Some([a, b, c]) <==> s == Quantum(a, b, c)
  {
    hide Letters, DecodeFull, Quantum;
    LettersAre(s, a, b, c);
    LettersDecode(s, a, b, c);
  }

  lemma {:induction false} SextetsOf(x: nat, y: nat, z: nat, p: Sextet, q: Sextet, r: Sextet, t: Sextet)
    requires x == p * 4 + q / 16 && y == q % 16 * 16 + r / 4 && z == r % 4 * 64 + t
    ensures p == x / 4 && q == x % 4 * 16 + y / 16 && r == y % 16 * 4 + z / 64 && t == z % 64
  {
  }

  lemma {:induction false} BytesOf(x: nat, y: nat, z: nat)
    requires x < 256 && y < 256 && z < 256
    ensures
      var p, q, r, t := x / 4, x % 4 * 16 + y / 16, y % 16 * 4 + z / 64, z % 64;
      x == p * 4 + q / 16 && y == q % 16 * 16 + r / 4 && z == r % 4 * 64 + t
  {
  }

  lemma {:induction false} OneIs(s: string, a: Byte)
    requires |s| == 4
    ensures DecodeLast(s) == Some([a]) <==> s == Quantum(a, 0 as char, 0 as char)[..2] + [PAD, PAD]
  {
    hide Letter, Quantum;
    QuantumBits(a, 0 as char, 0 as char);
    var x := a as int;
    LetterIs(x / 4, s[0]);
    LetterIs(x % 4 * 16, s[1]);
    BytesOf(x, 0, 0);
    assert s == Quantum(a, 0 as char, 0 as char)[..2] + [PAD, PAD] <==>
           s[0] == Letter(x / 4) && s[1] == Letter(x % 4 * 16) && s[2] == '=' && s[3] == '=';
    if DecodeLast(s) == Some([a]) {
      var p, q := LetterValue(s[0]).value, LetterValue(s[1]).value;
      assert [FirstByte(p, q)] == [a];
      assert a == FirstByte(p, q);
      SextetsOf(x, 0, 0, p, q, 0, 0);
    }
  }

  lemma {:induction false} TwoIs(s: string, a: Byte, b: Byte)
    requires |s| == 4
    ensures DecodeLast(s) == Some([a, b]) <==> s == Quantum(a, b, 0 as char)[..3] + [PAD]
  {
    hide Letter, LetterValue, Quantum;
    PadValue();
    QuantumBits(a, b, 0 as char);
    var x, y := a as int, b as int;
    LetterIs(x / 4, s[0]);
    LetterIs(x % 4 * 16 + y / 16, s[1]);
    LetterIs(y % 16 * 4, s[2]);
    BytesOf(x, y, 0);
    assert s == Quantum(a, b, 0 as char)[..3] + [PAD] <==>
           s[0] == Letter(x / 4) && s[1] == Letter(x % 4 * 16 + y / 16) && s[2] == Letter(y % 16 * 4) && s[3] == '=';
    if DecodeLast(s) == Some([a, b]) {
      var p, q, r := LetterValue(s[0]).value, LetterValue(s[1]).value, LetterValue(s[2]).value;
      assert [FirstByte(p, q), SecondByte(q, r)] == [a, b];
      assert a == FirstByte(p, q) && b == SecondByte(q, r);
      SextetsOf(x, y, 0, p, q, r, 0);
    }
  }

  lemma {:induction false} PadValue()
    ensures LetterValue('=') == None
  {
  }

  lemma {:induction false} ThreeIs(s: string, a: Byte, b: Byte, c: Byte)
    requires |s| == 4
    ensures DecodeLast(s) == Some([a, b, c]) <==> s == Quantum(a, b, c)
  {
    hide Letter, LetterValue, Quantum;
    FullIs(s, a, b, c);
  }

  /** The length, and where padding stands. */
  lemma {:induction false} EncodingLength(s: Bytes)
    ensures |Encoding(s)| == 4 * ((|s| + 2) / 3)
    decreases |s|
  {
    hide Quantum;
    if |s| >= 3 {
      EncodingLength(s[3..]);
      assert (|s[3..]| + 2) / 3 + 1 == (|s| + 2) / 3;
    }
  }

  lemma {:induction false} LastDecodes(t: string, s: Bytes)
    requires |t| == 4
    ensures DecodeLast(t) == Some(s) <==> t == Encoding(s)
  {
    hide Letter, LetterValue, Quantum, DecodeLast;
    EncodingLength(s);
    DecodeLastLength(t);
    if |s| == 1 {
      assert s == [s[0]];
      OneIs(t, s[0]);
    } else if |s| == 2 {
      assert s == [s[0], s[1]];
      TwoIs(t, s[0], s[1]);
    } else if |s| == 3 {
      assert s == [s[0], s[1], s[2]];
      ThreeIs(t, s[0], s[1], s[2]);
      assert Encoding(s[3..]) == [];
    }
  }

  lemma {:induction false} DecodeLastLength(t: string)
    requires |t| == 4
    ensures DecodeLast(t).Some? ==> 1 <= |DecodeLast(t).value| <= 3
  {
    hide LetterValue;
  }

  /** Exactly the encoding of a text decodes to it, so padding and unused bits are canonical. */
  lemma {:induction false} DecodeExactly(t: string, s: Bytes)
    ensures Decode(t) == Some(s) <==> t == Encoding(s)
    decreases |t|
  {
    hide Letter, LetterValue, Quantum, DecodeLast, DecodeFull;
    EncodingLength(s);
    if t == [] {
      assert |t| == 0;
    } else if |t| == 4 {
      LastDecodes(t, s);
    } else if |t| > 4 {
      var head, tail := t[..4], t[4..];
      assert t == head + tail;
      if t == Encoding(s) {
        assert |s| > 3;
        assert Encoding(s) == Quantum(s[0], s[1], s[2]) + Encoding(s[3..]);
        assert head == Quantum(s[0], s[1], s[2]) && tail == Encoding(s[3..]);
        FullIs(head, s[0], s[1], s[2]);
        DecodeExactly(tail, s[3..]);
        assert s == [s[0], s[1], s[2]] + s[3..];
      }
      if Decode(t) == Some(s) {
        var bytes, rest := DecodeFull(head).value, Decode(tail).value;
        assert s == bytes + rest;
        FullLength(head);
        assert bytes == [s[0], s[1], s[2]] && rest == s[3..];
        FullIs(head, s[0], s[1], s[2]);
        DecodeExactly(tail, rest);
      }
    }
  }

  lemma {:induction false} FullLength(t: string)
    requires |t| == 4
    ensures DecodeFull(t).Some? ==> |DecodeFull(t).value| == 3
  {
    hide LetterValue;
  }
}
