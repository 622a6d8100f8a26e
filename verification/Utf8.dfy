/** UTF-8 as section 3 of RFC 3629 defines it: what a payload's text is as bytes, and back. */
module Utf8 {
  import opened Options

  newtype byte = n: int | 0 <= n < 256

  /** A Unicode scalar value: no surrogates. */
  newtype scalar = n: int | 0 <= n < 0xD800 || 0xE000 <= n < 0x11_0000

  type Text = seq<scalar>

  function Tail(n: int): byte
    requires n >= 0
  {
    (0x80 + n % 64) as byte
  }

  function EncodeOne(c: scalar): (bytes: seq<byte>)
    ensures 1 <= |bytes| <= 4
  {
    var n := c as int;
    if n < 0x80 then [n as byte]
    else if n < 0x800 then [(0xC0 + n / 64) as byte, Tail(n)]
    else if n < 0x1_0000 then [(0xE0 + n / 4096) as byte, Tail(n / 64), Tail(n)]
    else [(0xF0 + n / 262144) as byte, Tail(n / 4096), Tail(n / 64), Tail(n)]
  }

  function Encode(t: Text): seq<byte> {
    if t == [] then [] else EncodeOne(t[0]) + Encode(t[1..])
  }

  /** The examples of section 7 of RFC 3629, one for each length. */
  lemma Examples()
    ensures Encode([0x41, 0x2262, 0x0391, 0x2E]) == [0x41, 0xE2, 0x89, 0xA2, 0xCE, 0x91, 0x2E]
    ensures Encode([0x233B4]) == [0xF0, 0xA3, 0x8E, 0xB4]
  {
    assert Encode([]) == [];
    assert Encode([0x233B4]) == EncodeOne(0x233B4) + Encode([]);
    assert Encode([0x2E]) == [0x2E] + Encode([]);
    assert Encode([0x0391, 0x2E]) == EncodeOne(0x0391) + Encode([0x2E]);
    assert Encode([0x2262, 0x0391, 0x2E]) == EncodeOne(0x2262) + Encode([0x0391, 0x2E]);
    assert Encode([0x41, 0x2262, 0x0391, 0x2E]) == [0x41] + Encode([0x2262, 0x0391, 0x2E]);
  }

  predicate IsTail(b: byte) { 0x80 <= b < 0xC0 }

  /** The first character, as the syntax of section 4 admits it, with its length. */
  function DecodeOne(b: seq<byte>): (r: Option<(scalar, nat)>)
    requires b != []
    ensures r.Some? ==> 1 <= r.value.1 <= |b|
  {
    var b0 := b[0] as int;
    if b0 < 0x80 then Some((b0 as scalar, 1))
    else if 0xC2 <= b0 < 0xE0 && |b| >= 2 && IsTail(b[1]) then
      Some(((b0 % 32 * 64 + b[1] as int % 64) as scalar, 2))
    else if 0xE0 <= b0 < 0xF0 && |b| >= 3 && IsTail(b[1]) && IsTail(b[2])
            && (b0 == 0xE0 ==> b[1] >= 0xA0) && (b0 == 0xED ==> b[1] < 0xA0) then
      Some(((b0 % 16 * 4096 + b[1] as int % 64 * 64 + b[2] as int % 64) as scalar, 3))
    else if 0xF0 <= b0 < 0xF5 && |b| >= 4 && IsTail(b[1]) && IsTail(b[2]) && IsTail(b[3])
            && (b0 == 0xF0 ==> b[1] >= 0x90) && (b0 == 0xF4 ==> b[1] < 0x90) then
      Some(((b0 % 8 * 262144 + b[1] as int % 64 * 4096 + b[2] as int % 64 * 64 + b[3] as int % 64) as scalar, 4))
    else None
  }

  function Decode(b: seq<byte>): Option<Text> {
    if b == [] then Some([])
    else match DecodeOne(b)
      case None => None
      case Some((c, n)) =>
        match Decode(b[n..])
        case None => None
        case Some(rest) => Some([c] + rest)
  }

  lemma DecodeTwo(c: scalar, b: seq<byte>)
    requires 0x80 <= c < 0x800 && |b| >= 2 && b[..2] == EncodeOne(c)
    ensures DecodeOne(b) == Some((c, 2))
  {
    assert b[0] == b[..2][0] && b[1] == b[..2][1];
  }

  lemma RecomposeThree(n: nat)
    ensures n == n / 4096 * 4096 + n / 64 % 64 * 64 + n % 64
  {
    DivDiv(n);
    assert n == n / 64 * 64 + n % 64;
    assert n / 64 == n / 64 / 64 * 64 + n / 64 % 64;
  }

  lemma DecodeThree(c: scalar, b: seq<byte>)
    requires 0x800 <= c < 0x1_0000 && |b| >= 3 && b[..3] == EncodeOne(c)
    ensures DecodeOne(b) == Some((c, 3))
  {
    var n := c as int;
    assert b[0] == b[..3][0] && b[1] == b[..3][1] && b[2] == b[..3][2];
    RecomposeThree(n);
    assert n / 4096 < 16 && (0xE0 + n / 4096) % 16 == n / 4096;
  }

  lemma Recompose(n: nat)
    ensures n == n / 262144 * 262144 + n / 4096 % 64 * 4096 + n / 64 % 64 * 64 + n % 64
  {
    DivDiv(n);
    assert n == n / 64 * 64 + n % 64;
    assert n / 64 == n / 64 / 64 * 64 + n / 64 % 64;
    assert n / 64 / 64 == n / 64 / 64 / 64 * 64 + n / 64 / 64 % 64;
  }

  lemma DecodeFour(c: scalar, b: seq<byte>)
    requires 0x1_0000 <= c && |b| >= 4 && b[..4] == EncodeOne(c)
    ensures DecodeOne(b) == Some((c, 4))
  {
    var n := c as int;
    assert b[0] == b[..4][0] && b[1] == b[..4][1] && b[2] == b[..4][2] && b[3] == b[..4][3];
    Recompose(n);
    LeadByte(n);
  }

  lemma LeadByte(n: nat)
    requires 0x1_0000 <= n < 0x11_0000
    ensures 0 <= n / 262144 < 5 && (0xF0 + n / 262144) % 8 == n / 262144
    ensures n / 262144 == 0 ==> 0x80 + n / 4096 % 64 >= 0x90
    ensures n / 262144 == 4 ==> 0x80 + n / 4096 % 64 < 0x90
  {
    DivDiv(n);
  }

  lemma DecodeEncodeOne(c: scalar, rest: seq<byte>)
    ensures DecodeOne(EncodeOne(c) + rest) == Some((c, |EncodeOne(c)|))
  {
    var e := EncodeOne(c);
    var b := e + rest;
    assert b[..|e|] == e;
    if c < 0x80 {
      assert b[0] == e[0];
    } else if c < 0x800 {
      DecodeTwo(c, b);
    } else if c < 0x1_0000 {
      DecodeThree(c, b);
    } else {
      DecodeFour(c, b);
    }
  }

  /** Text survives the trip to bytes and back. */
  lemma {:induction false} DecodeEncode(t: Text)
    ensures Decode(Encode(t)) == Some(t)
  {
    if t != [] {
      var rest := Encode(t[1..]);
      DecodeEncodeOne(t[0], rest);
      DecodeEncode(t[1..]);
      assert (EncodeOne(t[0]) + rest)[|EncodeOne(t[0])|..] == rest;
      assert [t[0]] + t[1..] == t;
    }
  }

  lemma EncodeTwo(b0: int, b1: int)
    requires 0xC2 <= b0 < 0xE0 && 0x80 <= b1 < 0xC0
    ensures var n := b0 % 32 * 64 + b1 % 64; 0x80 <= n < 0x800 && 0xC0 + n / 64 == b0 && 0x80 + n % 64 == b1
  {
  }

  lemma Div64(q: nat, r: nat)
    requires r < 64
    ensures (q * 64 + r) / 64 == q && (q * 64 + r) % 64 == r
  {
  }

  lemma DivDiv(n: nat)
    ensures n / 4096 == n / 64 / 64 && n / 262144 == n / 64 / 64 / 64
  {
  }

  /** Six-bit digits come apart again. */
  lemma ThreeDigits(a: nat, b: nat, c: nat)
    requires b < 64 && c < 64
    ensures var n := a * 4096 + b * 64 + c; n / 4096 == a && n / 64 % 64 == b && n % 64 == c
  {
    var n := a * 4096 + b * 64 + c;
    assert n == (a * 64 + b) * 64 + c;
    Div64(a * 64 + b, c);
    Div64(a, b);
    DivDiv(n);
  }

  lemma FourDigits(a: nat, b: nat, c: nat, d: nat)
    requires b < 64 && c < 64 && d < 64
    ensures var n := a * 262144 + b * 4096 + c * 64 + d;
      n / 262144 == a && n / 4096 % 64 == b && n / 64 % 64 == c && n % 64 == d
  {
    var n := a * 262144 + b * 4096 + c * 64 + d;
    var q := a * 4096 + b * 64 + c;
    assert n == q * 64 + d;
    Div64(q, d);
    ThreeDigits(a, b, c);
    DivDiv(n);
    DivDiv(q);
  }

  lemma EncodeThree(b0: int, b1: int, b2: int)
    requires 0xE0 <= b0 < 0xF0 && 0x80 <= b1 < 0xC0 && 0x80 <= b2 < 0xC0
    requires (b0 == 0xE0 ==> b1 >= 0xA0) && (b0 == 0xED ==> b1 < 0xA0)
    ensures var n := b0 % 16 * 4096 + b1 % 64 * 64 + b2 % 64;
      0x800 <= n < 0x1_0000 && 0xE0 + n / 4096 == b0 && 0x80 + n / 64 % 64 == b1 && 0x80 + n % 64 == b2
  {
    assert b0 % 16 == b0 - 0xE0 && b1 % 64 == b1 - 0x80 && b2 % 64 == b2 - 0x80;
    ThreeDigits(b0 - 0xE0, b1 - 0x80, b2 - 0x80);
  }

  lemma LowBits(b0: int, tail: int)
    requires 0xF0 <= b0 < 0xF5 && 0x80 <= tail < 0xC0
    ensures b0 % 8 == b0 - 0xF0 && tail % 64 == tail - 0x80
  {
  }

  lemma EncodeFour(b0: int, b1: int, b2: int, b3: int)
    requires 0xF0 <= b0 < 0xF5 && 0x80 <= b1 < 0xC0 && 0x80 <= b2 < 0xC0 && 0x80 <= b3 < 0xC0
    requires (b0 == 0xF0 ==> b1 >= 0x90) && (b0 == 0xF4 ==> b1 < 0x90)
    ensures var n := b0 % 8 * 262144 + b1 % 64 * 4096 + b2 % 64 * 64 + b3 % 64;
      && 0x1_0000 <= n < 0x11_0000 && 0xF0 + n / 262144 == b0
      && 0x80 + n / 4096 % 64 == b1 && 0x80 + n / 64 % 64 == b2 && 0x80 + n % 64 == b3
  {
    LowBits(b0, b1);
    LowBits(b0, b2);
    LowBits(b0, b3);
    FourDigits(b0 % 8, b1 % 64, b2 % 64, b3 % 64);
  }

  lemma EncodeDecodeOne(b: seq<byte>)
    requires b != [] && DecodeOne(b).Some?
    ensures EncodeOne(DecodeOne(b).value.0) == b[..DecodeOne(b).value.1]
  {
    var n := DecodeOne(b).value.1;
    var e := EncodeOne(DecodeOne(b).value.0);
    if n == 2 {
      EncodeTwo(b[0] as int, b[1] as int);
      assert e == [b[0], b[1]];
    } else if n == 3 {
      EncodeThree(b[0] as int, b[1] as int, b[2] as int);
      assert e == [b[0], b[1], b[2]];
    } else if n == 4 {
      EncodeFour(b[0] as int, b[1] as int, b[2] as int, b[3] as int);
      assert e == [b[0], b[1], b[2], b[3]];
    }
  }

  lemma DecodeIs(b: seq<byte>)
    requires b != [] && Decode(b).Some?
    ensures DecodeOne(b).Some? && var (c, n) := DecodeOne(b).value;
      Decode(b[n..]).Some? && Encode(Decode(b).value) == EncodeOne(c) + Encode(Decode(b[n..]).value)
  {
    var (c, n) := DecodeOne(b).value;
    var rest := Decode(b[n..]).value;
    assert ([c] + rest)[1..] == rest;
  }

  /** And bytes that decode are exactly the encoding of what they decode to. */
  lemma {:induction false} EncodeDecode(b: seq<byte>)
    requires Decode(b).Some?
    ensures Encode(Decode(b).value) == b
    decreases |b|
  {
    if b != [] {
      var n := DecodeOne(b).value.1;
      DecodeIs(b);
      EncodeDecodeOne(b);
      EncodeDecode(b[n..]);
      Rejoin(b, n);
    }
  }

  lemma Rejoin(b: seq<byte>, n: nat)
    requires n <= |b|
    ensures b[..n] + b[n..] == b
  {
  }

  // ----- Lengths in bytes -----

  function Width(c: char): (n: nat)
    ensures 1 <= n <= 4
  {
    |EncodeOne(c as int as scalar)|
  }

  /** `str::len`. */
  function ByteLen(s: string): (n: nat)
    ensures |s| <= n
  {
    if s == "" then 0 else Width(s[0]) + ByteLen(s[1..])
  }

  function TextOf(s: string): Text {
    seq(|s|, i requires 0 <= i < |s| => s[i] as int as scalar)
  }

  lemma {:induction false} ByteLenIs(s: string)
    ensures ByteLen(s) == |Encode(TextOf(s))|
  {
    if s != "" {
      assert TextOf(s)[1..] == TextOf(s[1..]);
      ByteLenIs(s[1..]);
    }
  }

  lemma {:induction false} ByteLenConcat(a: string, b: string)
    ensures ByteLen(a + b) == ByteLen(a) + ByteLen(b)
  {
    if a == "" {
      assert a + b == b;
    } else {
      assert (a + b)[1..] == a[1..] + b;
      ByteLenConcat(a[1..], b);
    }
  }
}
