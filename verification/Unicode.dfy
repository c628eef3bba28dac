/** UTF-16 texts, as the analyzers hold them, and the scalar values their encoders see. */
module Unicode {

  /** A UTF-16 code unit. */
  type Unit = n: int | 0 <= n < 0x10000
  type Text = seq<Unit>

  predicate High(u: Unit) {
    0xD800 <= u < 0xDC00
  }

  predicate Low(u: Unit) {
    0xDC00 <= u < 0xE000
  }

  predicate Paired(text: Text) {
    |text| >= 2 && High(text[0]) && Low(text[1])
  }

  function Combined(high: Unit, low: Unit): char
    requires High(high) && Low(low)
  {
    (0x10000 + (high - 0xD800) * 0x400 + (low - 0xDC00)) as char
  }

  /** What an encoder sees of a text: a surrogate that is not half of a pair is replaced. */
  function Scalars(text: Text, replacement: char): string {
    if text == [] then ""
    else if Paired(text) then [Combined(text[0], text[1])] + Scalars(text[2..], replacement)
    else if High(text[0]) || Low(text[0]) then [replacement] + Scalars(text[1..], replacement)
    else [text[0] as char] + Scalars(text[1..], replacement)
  }

  /** `text.isWellFormed()`: every surrogate is half of a pair. */
  predicate IsWellFormed(text: Text) {
    text == [] ||
    if Paired(text) then IsWellFormed(text[2..])
    else !High(text[0]) && !Low(text[0]) && IsWellFormed(text[1..])
  }

  function UnitsOf(c: char): (r: Text)
    ensures 1 <= |r| <= 2
  {
    var n := c as int;
    if n < 0x10000 then [n] else [0xD800 + (n - 0x10000) / 0x400, 0xDC00 + (n - 0x10000) % 0x400]
  }

  function Units(scalars: string): Text {
    if scalars == "" then [] else UnitsOf(scalars[0]) + Units(scalars[1..])
  }

  /** Section 2.1 of RFC 2781: below 0x10000 a scalar is its unit; else two units carry ten bits each, under their marks. */
  lemma UnitsByBits(c: char)
    ensures var units, n := UnitsOf(c), c as int;
      && (n < 0x10000 ==> units == [n])
      && (n >= 0x10000 ==>
            && |units| == 2 && units[0] / 1024 == 54 && units[1] / 1024 == 55
            && (units[0] as int) % 1024 * 1024 + (units[1] as int) % 1024 == n - 0x10000)
  {
    assert 54 * 1024 == 0xD800 && 55 * 1024 == 0xDC00;
  }

  lemma UnitsOfFirst(c: char, rest: Text, replacement: char)
    ensures Scalars(UnitsOf(c) + rest, replacement) == [c] + Scalars(rest, replacement)
    ensures IsWellFormed(UnitsOf(c) + rest) <==> IsWellFormed(rest)
  {
    var text := UnitsOf(c) + rest;
    if c as int < 0x10000 {
      assert text[0] == c as int && text[1..] == rest;
    } else {
      assert text[0] == UnitsOf(c)[0] && text[1] == UnitsOf(c)[1] && text[2..] == rest;
    }
  }

  lemma {:induction false} UnitsWellFormed(scalars: string, replacement: char)
    ensures IsWellFormed(Units(scalars)) && Scalars(Units(scalars), replacement) == scalars
  {
    if scalars != "" {
      UnitsWellFormed(scalars[1..], replacement);
      UnitsOfFirst(scalars[0], Units(scalars[1..]), replacement);
    }
  }

  /** Only well-formed texts survive their encoding: an encoded text is well formed exactly when decoding gives it back. */
  lemma {:induction false} WellFormedRoundTrip(text: Text, replacement: char)
    ensures IsWellFormed(text) <==> Units(Scalars(text, replacement)) == text
  {
    UnitsWellFormed(Scalars(text, replacement), replacement);
    if IsWellFormed(text) { Restored(text, replacement); }
  }

  lemma {:induction false} Restored(text: Text, replacement: char)
    requires IsWellFormed(text)
    ensures Units(Scalars(text, replacement)) == text
  {
    if text != [] {
      if Paired(text) {
        Restored(text[2..], replacement);
        assert UnitsOf(Combined(text[0], text[1])) == [text[0], text[1]];
        assert Scalars(text, replacement)[1..] == Scalars(text[2..], replacement);
        assert text == [text[0], text[1]] + text[2..];
      } else {
        Restored(text[1..], replacement);
        assert Scalars(text, replacement)[1..] == Scalars(text[1..], replacement);
        assert text == [text[0]] + text[1..];
      }
    }
  }
}
