/** UTF-8 over scalar values, decoded as strictly as `TextDecoder` with `fatal`. */
module Utf8 {
  import opened JsonValues

  type Byte = n: int | 0 <= n < 256

  predicate Continues(b: Byte) {
    0x80 <= b < 0xC0
  }

  /** The payload of a continuation byte. */
  function Tail(b: Byte): (n: int)
    requires b >= 0x80
  {
    b as int - 0x80
  }

  function Lead(b: Byte, mark: int): (n: int)
    requires b >= mark
  {
    b as int - mark
  }

  function EncodeChar(c: char): (r: seq<Byte>)
    ensures 1 <= |r| <= 4
  {
    var n := c as int;
    if n < 0x80 then [n]
    else if n < 0x800 then [0xC0 + n / 0x40, 0x80 + n % 0x40]
    else if n < 0x10000 then [0xE0 + n / 0x1000, 0x80 + n / 0x40 % 0x40, 0x80 + n % 0x40]
    else [0xF0 + n / 0x40000, 0x80 + n / 0x1000 % 0x40, 0x80 + n / 0x40 % 0x40, 0x80 + n % 0x40]
  }

  function Encode(s: string): seq<Byte> {
    if s == "" then [] else EncodeChar(s[0]) + Encode(s[1..])
  }

  /** The bits a byte carries after its mark: seven of a single byte, six of a continuation, the rest of a leading one. */
  function Payload(b: Byte): nat {
    if b < 0x80 then b
    else if b < 0xC0 then b - 0x80
    else if b < 0xE0 then b - 0xC0
    else if b < 0xF0 then b - 0xE0
    else if b < 0xF8 then b - 0xF0
    else 0
  }

  function Carried(bytes: seq<Byte>): nat {
    if bytes == [] then 0 else Carried(bytes[..|bytes| - 1]) * 64 + Payload(bytes[|bytes| - 1])
  }

  lemma EncodedMarks(c: char)
    ensures var bytes, n := EncodeChar(c), c as int;
      && (forall i :: 1 <= i < |bytes| ==> Continues(bytes[i]))
      && (|bytes| == 1 <==> bytes[0] < 0x80) && (|bytes| == 2 <==> 0xC0 <= bytes[0] < 0xE0)
      && (|bytes| == 3 <==> 0xE0 <= bytes[0] < 0xF0) && (|bytes| == 4 <==> 0xF0 <= bytes[0] < 0xF8)
      && (|bytes| == 1 <==> n < 128) && (|bytes| <= 2 <==> n < 2048) && (|bytes| <= 3 <==> n < 65536)
  {
  }

  /**
   * The table of RFC 3629, section 3: the first byte tells how many there are, the others are continuations, together
   * they carry the scalar, and the number of bytes is the least that can.
   */
  lemma EncodedByTable(c: char)
    ensures var bytes, n := EncodeChar(c), c as int;
      && Carried(bytes) == n
      && (forall i :: 1 <= i < |bytes| ==> Continues(bytes[i]))
      && (|bytes| == 1 <==> bytes[0] < 0x80) && (|bytes| == 2 <==> 0xC0 <= bytes[0] < 0xE0)
      && (|bytes| == 3 <==> 0xE0 <= bytes[0] < 0xF0) && (|bytes| == 4 <==> 0xF0 <= bytes[0] < 0xF8)
      && (|bytes| == 1 <==> n < 128) && (|bytes| <= 2 <==> n < 2048) && (|bytes| <= 3 <==> n < 65536)
  {
    EncodedMarks(c);
    EncodedCarries(c);
    hide EncodeChar, Carried, Continues;
  }

  lemma EncodedCarries(c: char)
    ensures Carried(EncodeChar(c)) == c as int
  {
    hide Carried;
    var bytes, n := EncodeChar(c), c as int;
    Digits(n);
    if n < 0x80 {
      CarriedBy(bytes[0], 0, 0, 0);
      assert bytes == [bytes[0]];
    } else if n < 0x800 {
      CarriedBy(bytes[0], bytes[1], 0, 0);
      assert bytes == [bytes[0], bytes[1]];
    } else if n < 0x10000 {
      CarriedBy(bytes[0], bytes[1], bytes[2], 0);
      assert bytes == [bytes[0], bytes[1], bytes[2]];
    } else {
      CarriedBy(bytes[0], bytes[1], bytes[2], bytes[3]);
      assert bytes == [bytes[0], bytes[1], bytes[2], bytes[3]];
    }
  }

  lemma CarriedBy(a: Byte, b: Byte, c: Byte, d: Byte)
    ensures Carried([a]) == Payload(a) && Carried([a, b]) == Payload(a) * 64 + Payload(b)
    ensures Carried([a, b, c]) == Payload(a) * 4096 + Payload(b) * 64 + Payload(c)
    ensures Carried([a, b, c, d]) == Payload(a) * 262144 + Payload(b) * 4096 + Payload(c) * 64 + Payload(d)
  {
    assert [a][..0] == [] && [a, b][..1] == [a] && [a, b, c][..2] == [a, b] && [a, b, c, d][..3] == [a, b, c];
    assert Carried([]) == 0;
    assert Carried([a]) == Payload(a);
    assert Carried([a, b]) == Payload(a) * 64 + Payload(b);
    hide Payload;
  }

  predicate IsScalar(n: int) {
    0 <= n < 0xD800 || 0xE000 <= n < 0x110000
  }

  /** The first scalar of a byte sequence and how many bytes it takes; shortest forms only. */
  function DecodeChar(bytes: seq<Byte>): (r: Option<(char, nat)>)
    ensures r.Some? ==> 1 <= r.value.1 <= |bytes|
  {
    if bytes == [] then None
    else if bytes[0] < 0x80 then Some((bytes[0] as char, 1))
    else if 0xC0 <= bytes[0] < 0xE0 && |bytes| >= 2 && Continues(bytes[1]) then
      var n: int := Lead(bytes[0], 0xC0) * 0x40 + Tail(bytes[1]);
      if n >= 0x80 then Some((n as char, 2)) else None
    else if 0xE0 <= bytes[0] < 0xF0 && |bytes| >= 3 && Continues(bytes[1]) && Continues(bytes[2]) then
      var n: int := Lead(bytes[0], 0xE0) * 0x1000 + Tail(bytes[1]) * 0x40 + Tail(bytes[2]);
      if n >= 0x800 && IsScalar(n) then Some((n as char, 3)) else None
    else if 0xF0 <= bytes[0] < 0xF8 && |bytes| >= 4 && Continues(bytes[1]) && Continues(bytes[2]) && Continues(bytes[3]) then
      var n: int := Lead(bytes[0], 0xF0) * 0x40000 + Tail(bytes[1]) * 0x1000 + Tail(bytes[2]) * 0x40 + Tail(bytes[3]);
      if n >= 0x10000 && IsScalar(n) then Some((n as char, 4)) else None
    else None
  }

  function Decode(bytes: seq<Byte>): Option<string>
    decreases |bytes|
  {
    if bytes == [] then Some("")
    else
      var first := DecodeChar(bytes);
      if first.None? then None
      else
        var rest := Decode(bytes[first.value.1..]);
        if rest.Some? then Some([first.value.0] + rest.value) else None
  }

  lemma CharRoundTrip(c: char, rest: seq<Byte>)
    ensures DecodeChar(EncodeChar(c) + rest) == Some((c, |EncodeChar(c)|))
  {
    var n, bytes := c as int, EncodeChar(c) + rest;
    assert forall i :: 0 <= i < |EncodeChar(c)| ==> bytes[i] == EncodeChar(c)[i];
    Digits(n);
  }

  lemma Digits(n: nat)
    ensures n == n / 0x40 * 0x40 + n % 0x40
    ensures n / 0x40 == n / 0x1000 * 0x40 + n / 0x40 % 0x40
    ensures n / 0x1000 == n / 0x40000 * 0x40 + n / 0x1000 % 0x40
  {
  }

  lemma Quotient(a: nat, b: nat, d: nat)
    requires b < 0x40 && d == 0x40
    ensures (a * d + b) / d == a && (a * d + b) % d == b
  {
  }

  lemma CharCanonical(bytes: seq<Byte>)
    requires DecodeChar(bytes).Some?
    ensures EncodeChar(DecodeChar(bytes).value.0) == bytes[..DecodeChar(bytes).value.1]
  {
    var k := DecodeChar(bytes).value.1;
    var n := DecodeChar(bytes).value.0 as int;
    if k == 2 {
      Quotient(Lead(bytes[0], 0xC0), Tail(bytes[1]), 0x40);
      assert n == Lead(bytes[0], 0xC0) * 0x40 + Tail(bytes[1]);
    } else if k == 3 {
      CanonicalThree(bytes, n);
    } else if k == 4 {
      CanonicalFour(bytes, n);
    }
  }

  lemma CanonicalThree(bytes: seq<Byte>, n: nat)
    requires |bytes| >= 3 && 0xE0 <= bytes[0] < 0xF0 && Continues(bytes[1]) && Continues(bytes[2])
    requires n == Lead(bytes[0], 0xE0) * 0x1000 + Tail(bytes[1]) * 0x40 + Tail(bytes[2]) && n >= 0x800
    ensures n < 0x10000 && bytes[..3] == [0xE0 + n / 0x1000, 0x80 + n / 0x40 % 0x40, 0x80 + n % 0x40]
  {
    var a, b, c := Lead(bytes[0], 0xE0), Tail(bytes[1]), Tail(bytes[2]);
    Quotient(a * 0x40 + b, c, 0x40);
    Quotient(a, b, 0x40);
    Digits(n);
    assert n / 0x40 == a * 0x40 + b;
  }

  lemma CanonicalFour(bytes: seq<Byte>, n: nat)
    requires |bytes| >= 4 && 0xF0 <= bytes[0] < 0xF8 && Continues(bytes[1]) && Continues(bytes[2]) && Continues(bytes[3])
    requires n == Lead(bytes[0], 0xF0) * 0x40000 + Tail(bytes[1]) * 0x1000 + Tail(bytes[2]) * 0x40 + Tail(bytes[3])
    requires 0x10000 <= n < 0x110000
    ensures bytes[..4] == [0xF0 + n / 0x40000, 0x80 + n / 0x1000 % 0x40, 0x80 + n / 0x40 % 0x40, 0x80 + n % 0x40]
  {
    var a, b, c, d := Lead(bytes[0], 0xF0), Tail(bytes[1]), Tail(bytes[2]), Tail(bytes[3]);
    Quotient(a * 0x1000 + b * 0x40 + c, d, 0x40);
    Quotient(a * 0x40 + b, c, 0x40);
    Quotient(a, b, 0x40);
    Digits(n);
    assert n / 0x40 == (a * 0x40 + b) * 0x40 + c;
    assert n / 0x1000 == a * 0x40 + b;
  }

  lemma {:induction false} RoundTrip(s: string)
    ensures Decode(Encode(s)) == Some(s)
  {
    if s != "" {
      var rest := Encode(s[1..]);
      CharRoundTrip(s[0], rest);
      RoundTrip(s[1..]);
      assert Encode(s)[|EncodeChar(s[0])|..] == rest;
      assert s == [s[0]] + s[1..];
    }
  }

  /** Nothing but an encoding is accepted. */
  lemma {:induction false} Canonical(bytes: seq<Byte>)
    requires Decode(bytes).Some?
    ensures Encode(Decode(bytes).value) == bytes
    decreases |bytes|
  {
    if bytes != [] {
      var k := DecodeChar(bytes).value.1;
      CharCanonical(bytes);
      Canonical(bytes[k..]);
      assert bytes == bytes[..k] + bytes[k..];
      assert Decode(bytes).value[1..] == Decode(bytes[k..]).value;
    }
  }
}
