/** Base64url without padding, section 5 of RFC 4648, and a decoder that is only trusted after encoding again. */
module Base64Url {
  import opened JsonValues
  import opened Utf8

  type Sextet = n: int | 0 <= n < 64

  function Symbol(n: Sextet): char {
    if n < 26 then ('A' as int + n) as char
    else if n < 52 then ('a' as int + n - 26) as char
    else if n < 62 then ('0' as int + n - 52) as char
    else if n == 62 then '-'
    else '_'
  }

  predicate IsSymbol(c: char) {
    'A' <= c <= 'Z' || 'a' <= c <= 'z' || '0' <= c <= '9' || c == '-' || c == '_'
  }

  function ValueOf(c: char): (n: Sextet)
    requires IsSymbol(c)
  {
    if 'A' <= c <= 'Z' then c as int - 'A' as int
    else if 'a' <= c <= 'z' then c as int - 'a' as int + 26
    else if '0' <= c <= '9' then c as int - '0' as int + 52
    else if c == '-' then 62
    else 63
  }

  lemma SymbolValue(n: Sextet)
    ensures IsSymbol(Symbol(n)) && ValueOf(Symbol(n)) == n
  {
  }

  function Encode(bytes: seq<Byte>): string {
    if bytes == [] then ""
    else if |bytes| == 1 then [Symbol(bytes[0] / 4), Symbol(bytes[0] % 4 * 16)]
    else if |bytes| == 2 then
      [Symbol(bytes[0] / 4), Symbol(bytes[0] % 4 * 16 + bytes[1] / 16), Symbol(bytes[1] % 16 * 4)]
    else
      [Symbol(bytes[0] / 4), Symbol(bytes[0] % 4 * 16 + bytes[1] / 16), Symbol(bytes[1] % 16 * 4 + bytes[2] / 64), Symbol(bytes[2] % 64)]
      + Encode(bytes[3..])
  }

  predicate AllSymbols(text: string) {
    forall i :: 0 <= i < |text| ==> IsSymbol(text[i])
  }

  /** What a lenient decoder makes of symbols: left-over bits and a lone last symbol are dropped. */
  function Loose(text: string): seq<Byte>
    requires AllSymbols(text)
  {
    if |text| <= 1 then []
    else
      var a, b := ValueOf(text[0]), ValueOf(text[1]);
      if |text| == 2 then [a * 4 + b / 16]
      else
        var c := ValueOf(text[2]);
        if |text| == 3 then [a * 4 + b / 16, b % 16 * 16 + c / 4]
        else [a * 4 + b / 16, b % 16 * 16 + c / 4, c % 4 * 64 + ValueOf(text[3])] + Loose(text[4..])
  }

  /** Accepted only if encoding the bytes again gives the text back. */
  function Decode(text: string): Option<seq<Byte>> {
    if AllSymbols(text) && Encode(Loose(text)) == text then Some(Loose(text)) else None
  }

  lemma Bits(a: Byte, b: Byte)
    ensures a / 4 * 4 + a % 4 == a && (a % 4 * 16 + b / 16) / 16 == a % 4 && (a % 4 * 16 + b / 16) % 16 == b / 16
    ensures b / 16 * 16 + b % 16 == b && (b % 16 * 4) / 4 == b % 16 && (a % 4 * 16) / 16 == a % 4
  {
  }

  lemma LowBits(b: Byte, c: Byte)
    ensures (b % 16 * 4 + c / 64) / 4 == b % 16 && (b % 16 * 4 + c / 64) % 4 == c / 64 && c / 64 * 64 + c % 64 == c
  {
  }

  lemma OneByte(a: Byte)
    ensures var text := Encode([a]); AllSymbols(text) && Loose(text) == [a]
  {
    SymbolValue(a / 4);
    SymbolValue(a % 4 * 16);
    Bits(a, 0);
    hide Symbol, ValueOf;
  }

  lemma TwoBytes(a: Byte, b: Byte)
    ensures var text := Encode([a, b]); AllSymbols(text) && Loose(text) == [a, b]
  {
    SymbolValue(a / 4);
    SymbolValue(a % 4 * 16 + b / 16);
    SymbolValue(b % 16 * 4);
    Bits(a, b);
    hide Symbol, ValueOf, IsSymbol;
  }

  lemma ThreeBytes(a: Byte, b: Byte, c: Byte, rest: string)
    requires AllSymbols(rest)
    ensures var text := [Symbol(a / 4), Symbol(a % 4 * 16 + b / 16), Symbol(b % 16 * 4 + c / 64), Symbol(c % 64)] + rest;
      AllSymbols(text) && Loose(text) == [a, b, c] + Loose(rest)
  {
    hide Symbol, ValueOf, IsSymbol;
    SymbolValue(a / 4);
    SymbolValue(a % 4 * 16 + b / 16);
    SymbolValue(b % 16 * 4 + c / 64);
    SymbolValue(c % 64);
    Bits(a, b);
    LowBits(b, c);
    var text := [Symbol(a / 4), Symbol(a % 4 * 16 + b / 16), Symbol(b % 16 * 4 + c / 64), Symbol(c % 64)] + rest;
    assert text[4..] == rest;
  }

  lemma {:induction false} LooseRoundTrip(bytes: seq<Byte>)
    ensures AllSymbols(Encode(bytes)) && Loose(Encode(bytes)) == bytes
  {
    if |bytes| == 1 {
      OneByte(bytes[0]);
      assert bytes == [bytes[0]];
    } else if |bytes| == 2 {
      TwoBytes(bytes[0], bytes[1]);
      assert bytes == [bytes[0], bytes[1]];
    } else if |bytes| > 2 {
      LooseRoundTrip(bytes[3..]);
      ThreeBytes(bytes[0], bytes[1], bytes[2], Encode(bytes[3..]));
      assert bytes == [bytes[0], bytes[1], bytes[2]] + bytes[3..];
    }
  }

  /** Decoding undoes encoding, for all bytes. */
  lemma RoundTrip(bytes: seq<Byte>)
    ensures Decode(Encode(bytes)) == Some(bytes)
  {
    LooseRoundTrip(bytes);
  }

  /** What is accepted is exactly what encoding some bytes gives: each byte sequence has one accepted text. */
  lemma AcceptsOnlyCanonical(text: string)
    ensures Decode(text).Some? <==> exists bytes :: Encode(bytes) == text
    ensures Decode(text).Some? ==> Encode(Decode(text).value) == text
  {
    if bytes :| Encode(bytes) == text { RoundTrip(bytes); }
  }

  // ---------- what is encoded, bit by bit ----------

  /** The alphabet of RFC 4648, section 5, table 2, in rows of eight. */
  const ALPHABET: seq<string> :=
    ["ABCDEFGH", "IJKLMNOP", "QRSTUVWX", "YZabcdef", "ghijklmn", "opqrstuv", "wxyz0123", "456789-_"]

  lemma SymbolIsInAlphabet(n: Sextet)
    ensures |ALPHABET| == 8 && |ALPHABET[n / 8]| == 8 && Symbol(n) == ALPHABET[n / 8][n % 8]
  {
    var row, column := n / 8, n % 8;
    assert n == 8 * row + column;
    assert row == 0 || row == 1 || row == 2 || row == 3 || row == 4 || row == 5 || row == 6 || row == 7;
    assert column == 0 || column == 1 || column == 2 || column == 3 || column == 4 || column == 5 || column == 6 || column == 7;
  }

  function Weight(position: nat): nat
    requires position < 8
  {
    [128, 64, 32, 16, 8, 4, 2, 1][position]
  }

  /** The bits of the bytes, the highest of each byte first, and zeros after them. */
  function Bit(bytes: seq<Byte>, i: nat): (b: nat)
    ensures b <= 1
  {
    if i / 8 < |bytes| then bytes[i / 8] / Weight(i % 8) % 2 else 0
  }

  /** The number six bits in a row write. */
  function SixBits(bytes: seq<Byte>, k: nat): Sextet {
    32 * Bit(bytes, 6 * k) + 16 * Bit(bytes, 6 * k + 1) + 8 * Bit(bytes, 6 * k + 2)
    + 4 * Bit(bytes, 6 * k + 3) + 2 * Bit(bytes, 6 * k + 4) + Bit(bytes, 6 * k + 5)
  }

  lemma BitOf(bytes: seq<Byte>, n: nat, position: nat)
    requires position < 8
    ensures Bit(bytes, 8 * n + position) == if n < |bytes| then bytes[n] / Weight(position) % 2 else 0
  {
    assert (8 * n + position) / 8 == n && (8 * n + position) % 8 == position;
  }

  /** Each bit is what halving once more leaves over. */
  lemma BitsByHalves(a: Byte)
    ensures a / 128 % 2 == a / 128 && a / 64 % 2 == a / 64 - 2 * (a / 128) && a / 32 % 2 == a / 32 - 2 * (a / 64)
    ensures a / 16 % 2 == a / 16 - 2 * (a / 32) && a / 8 % 2 == a / 8 - 2 * (a / 16) && a / 4 % 2 == a / 4 - 2 * (a / 8)
    ensures a / 2 % 2 == a / 2 - 2 * (a / 4) && a % 2 == a - 2 * (a / 2)
  {
    Half(a, 64);
    Half(a, 32);
    Half(a, 16);
    Half(a, 8);
    Half(a, 4);
    Half(a, 2);
  }

  lemma Half(a: Byte, k: nat)
    requires k == 2 || k == 4 || k == 8 || k == 16 || k == 32 || k == 64
    ensures a / k % 2 == a / k - 2 * (a / (2 * k))
  {
  }

  /** The parts a byte is cut into, from its bits. */
  lemma ByteInBits(a: Byte)
    ensures a / 4 == 32 * (a / 128 % 2) + 16 * (a / 64 % 2) + 8 * (a / 32 % 2) + 4 * (a / 16 % 2) + 2 * (a / 8 % 2) + a / 4 % 2
    ensures a % 4 == 2 * (a / 2 % 2) + a % 2
    ensures a / 16 == 8 * (a / 128 % 2) + 4 * (a / 64 % 2) + 2 * (a / 32 % 2) + a / 16 % 2
    ensures a % 16 == 8 * (a / 8 % 2) + 4 * (a / 4 % 2) + 2 * (a / 2 % 2) + a % 2
    ensures a / 64 == 2 * (a / 128 % 2) + a / 64 % 2
    ensures a % 64 == 32 * (a / 32 % 2) + 16 * (a / 16 % 2) + 8 * (a / 8 % 2) + 4 * (a / 4 % 2) + 2 * (a / 2 % 2) + a % 2
  {
    BitsByHalves(a);
  }

  function ByteAt(bytes: seq<Byte>, n: nat): Byte {
    if n < |bytes| then bytes[n] else 0
  }

  lemma BitAt(bytes: seq<Byte>, n: nat, position: nat)
    requires position < 8
    ensures Bit(bytes, 8 * n + position) == ByteAt(bytes, n) / Weight(position) % 2
  {
    BitOf(bytes, n, position);
  }

  lemma BitsOfByte(bytes: seq<Byte>, n: nat)
    ensures var a, at := ByteAt(bytes, n), 8 * n;
      && Bit(bytes, at) == a / 128 % 2 && Bit(bytes, at + 1) == a / 64 % 2 && Bit(bytes, at + 2) == a / 32 % 2
      && Bit(bytes, at + 3) == a / 16 % 2 && Bit(bytes, at + 4) == a / 8 % 2 && Bit(bytes, at + 5) == a / 4 % 2
      && Bit(bytes, at + 6) == a / 2 % 2 && Bit(bytes, at + 7) == a % 2
  {
    hide Bit, ByteAt;
    BitAt(bytes, n, 0);
    BitAt(bytes, n, 1);
    BitAt(bytes, n, 2);
    BitAt(bytes, n, 3);
    BitAt(bytes, n, 4);
    BitAt(bytes, n, 5);
    BitAt(bytes, n, 6);
    BitAt(bytes, n, 7);
  }

  /** Three bytes are four groups of six bits. */
  lemma FirstGroup(bytes: seq<Byte>)
    ensures var a, b, c := ByteAt(bytes, 0), ByteAt(bytes, 1), ByteAt(bytes, 2);
      && SixBits(bytes, 0) == a / 4 && SixBits(bytes, 1) == a % 4 * 16 + b / 16
      && SixBits(bytes, 2) == b % 16 * 4 + c / 64 && SixBits(bytes, 3) == c % 64
  {
    hide Bit, ByteAt;
    BitsOfByte(bytes, 0);
    BitsOfByte(bytes, 1);
    BitsOfByte(bytes, 2);
    ByteInBits(ByteAt(bytes, 0));
    ByteInBits(ByteAt(bytes, 1));
    ByteInBits(ByteAt(bytes, 2));
  }

  lemma LaterBits(bytes: seq<Byte>, i: nat)
    requires |bytes| > 2
    ensures Bit(bytes, i + 24) == Bit(bytes[3..], i)
  {
    assert (i + 24) / 8 == i / 8 + 3 && (i + 24) % 8 == i % 8;
  }

  lemma LaterGroups(bytes: seq<Byte>, k: nat)
    requires |bytes| > 2
    ensures SixBits(bytes, k + 4) == SixBits(bytes[3..], k)
  {
    hide Bit;
    LaterBits(bytes, 6 * k);
    LaterBits(bytes, 6 * k + 1);
    LaterBits(bytes, 6 * k + 2);
    LaterBits(bytes, 6 * k + 3);
    LaterBits(bytes, 6 * k + 4);
    LaterBits(bytes, 6 * k + 5);
  }

  /**
   * Encoding cuts the bits into sixes, zeros filling the last one up, and writes each as its symbol. There is no padding:
   * the text is as long as the bits need.
   */
  lemma {:induction false} EncodesSixBits(bytes: seq<Byte>)
    ensures 6 * |Encode(bytes)| >= 8 * |bytes| && 6 * (|Encode(bytes)| - 1) < 8 * |bytes|
    ensures forall k :: 0 <= k < |Encode(bytes)| ==> Encode(bytes)[k] == Symbol(SixBits(bytes, k))
  {
    hide Symbol, SixBits;
    FirstGroup(bytes);
    if |bytes| > 2 {
      EncodesSixBits(bytes[3..]);
      forall k | 4 <= k < |Encode(bytes)| ensures Encode(bytes)[k] == Symbol(SixBits(bytes, k)) {
        LaterGroups(bytes, k - 4);
        assert Encode(bytes)[k] == Encode(bytes[3..])[k - 4];
      }
    }
  }
}
