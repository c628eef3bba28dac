/** The canonical text of a JSON value: object keys sorted, everything else in order. Equal texts mean equal values. */
module CanonicalJson {
  import opened JsonValues
  import opened Strings

  // ---------- equality that ignores key order ----------

  function Keys(j: Json): set<string>
    requires j.Obj?
  {
    set k | 0 <= k < |j.fields| :: j.fields[k].key
  }

  lemma KeyIsPresent(j: Json, key: string)
    requires j.Obj?
    ensures key in Keys(j) <==> Has(j, key)
  {
    if key in Keys(j) {
      var k :| 0 <= k < |j.fields| && j.fields[k].key == key;
      FieldIsPresent(j, k);
    }
  }

  function Member(j: Json, key: string): (r: Json)
    requires j.Obj? && key in Keys(j)
    ensures r < j
  {
    KeyIsPresent(j, key);
    Get(j, key).value
  }

  ghost predicate SameJson(a: Json, b: Json) {
    match a
    case Arr(items) => b.Arr? && |items| == |b.items| && forall i :: 0 <= i < |items| ==> SameJson(items[i], b.items[i])
    case Obj(_) => b.Obj? && Keys(a) == Keys(b) && forall key :: key in Keys(a) ==> SameJson(Member(a, key), Member(b, key))
    case _ => a == b
  }

  // ---------- the text ----------

  /** `JSON.stringify` of a finite number: distinct numbers print distinctly, in number characters only. */
  ghost predicate NumberPrinter(show: Number -> string) {
    && (forall n :: show(n) != "" && forall i :: 0 <= i < |show(n)| ==> NumberChar(show(n)[i]))
    && (forall n, m :: show(n) == show(m) ==> n == m)
  }

  predicate NumberChar(c: char) {
    '0' <= c <= '9' || c == '-' || c == '+' || c == '.' || c == 'e'
  }

  /** A sign and that many ones. */
  function Tally(n: int): string {
    [if n < 0 then '-' else '+'] + seq(if n < 0 then -n else n, _ => '1')
  }

  lemma TallyUnique(n: int, m: int)
    requires Tally(n) == Tally(m)
    ensures n == m
  {
    assert |Tally(n)| == |Tally(m)| && Tally(n)[0] == Tally(m)[0];
  }

  /** There are such printers: one writes a coefficient and an exponent in ones. */
  lemma SomePrinter()
    ensures exists show :: NumberPrinter(show)
  {
    var show: Number -> string := (n: Number) => Tally(n.coefficient) + ['e'] + Tally(n.exponent);
    forall n: Number, m: Number | show(n) == show(m) ensures n == m {
      CutAt(Tally(n.coefficient), Tally(m.coefficient), Tally(n.exponent), Tally(m.exponent), 'e');
      TallyUnique(n.coefficient, m.coefficient);
      TallyUnique(n.exponent, m.exponent);
    }
    assert NumberPrinter(show);
  }

  function HexDigit(n: nat): char
    requires n < 16
  {
    if n < 10 then ('0' as int + n) as char else ('a' as int + n - 10) as char
  }

  /** Section 7 of RFC 8259, with the short escapes where there are any. */
  function EscapeChar(c: char): string {
    if c == '"' then "\\\""
    else if c == '\\' then "\\\\"
    else if c as int == 8 then "\\b"
    else if c as int == 12 then "\\f"
    else if c == '\n' then "\\n"
    else if c == '\r' then "\\r"
    else if c == '\t' then "\\t"
    else if (c as int) < 0x20 then ['\\', 'u', '0', '0', HexDigit(c as int / 16), HexDigit(c as int % 16)]
    else [c]
  }

  function Escaped(s: string): string {
    if s == "" then "" else EscapeChar(s[0]) + Escaped(s[1..])
  }

  function Quote(s: string): string {
    "\"" + Escaped(s) + "\""
  }

  ghost function Canon(j: Json, number: Number -> string): string
    decreases j
  {
    match j
    case Null => "null"
    case Bool(flag) => if flag then "true" else "false"
    case Num(n) => number(n)
    case Str(text) => Quote(text)
    case Arr(items) => "[" + Join(Texts(items, j, number), ',') + "]"
    case Obj(_) => "{" + Join(Entries(j, InOrder(Keys(j)), number), ',') + "}"
  }

  ghost function Texts(items: seq<Json>, parent: Json, number: Number -> string): (r: seq<string>)
    requires forall i :: 0 <= i < |items| ==> items[i] < parent
    ensures |r| == |items|
    decreases parent, |items|
  {
    if items == [] then [] else [Canon(items[0], number)] + Texts(items[1..], parent, number)
  }

  ghost function Entries(j: Json, keys: seq<string>, number: Number -> string): (r: seq<string>)
    requires j.Obj? && forall k :: 0 <= k < |keys| ==> keys[k] in Keys(j)
    ensures |r| == |keys|
    decreases j, |keys|
  {
    if keys == [] then []
    else [Entry(j, keys[0], number)] + Entries(j, keys[1..], number)
  }

  ghost function Entry(j: Json, key: string, number: Number -> string): string
    requires j.Obj? && key in Keys(j)
    decreases j, 0
  {
    Quote(key) + ":" + Canon(Member(j, key), number)
  }

  // ---------- what can follow, what comes first ----------

  /** A value in a canonical text is followed by a separator, a closing bracket, or nothing. */
  predicate Ends(rest: string) {
    rest == "" || rest[0] == ',' || rest[0] == ']' || rest[0] == '}'
  }

  /** The first character tells the kind of value. */
  predicate Starts(j: Json, c: char) {
    match j
    case Null => c == 'n'
    case Bool(flag) => c == if flag then 't' else 'f'
    case Num(_) => NumberChar(c)
    case Str(_) => c == '"'
    case Arr(_) => c == '['
    case Obj(_) => c == '{'
  }

  lemma FirstChar(j: Json, number: Number -> string)
    requires NumberPrinter(number)
    ensures Canon(j, number) != "" && Starts(j, Canon(j, number)[0])
  {
  }

  // ---------- reading a text back ----------

  lemma EscapeCharUnique(c: char, d: char, x: string, y: string)
    requires EscapeChar(c) + x == EscapeChar(d) + y
    ensures c == d && x == y
  {
    var s, t := EscapeChar(c), EscapeChar(d);
    assert s[0] == (s + x)[0] && t[0] == (t + y)[0];
    if |s| > 1 {
      assert s[1] == (s + x)[1] && t[1] == (t + y)[1];
      if |s| > 2 {
        assert s[4] == (s + x)[4] && t[4] == (t + y)[4];
        assert s[5] == (s + x)[5] && t[5] == (t + y)[5];
      }
    }
    assert |s| == |t|;
    assert x == (s + x)[|s|..] && y == (t + y)[|t|..];
  }

  lemma FirstIsQuote(s: string, x: string)
    ensures (Escaped(s) + "\"" + x)[0] == '"' <==> s == ""
  {
    if s != "" { assert (Escaped(s) + "\"" + x)[0] == EscapeChar(s[0])[0]; }
  }

  lemma EscapedStep(s: string, x: string)
    requires s != ""
    ensures Escaped(s) + "\"" + x == EscapeChar(s[0]) + (Escaped(s[1..]) + "\"" + x)
  {
    hide EscapeChar;
  }

  lemma {:induction false} QuoteUnique(s: string, t: string, x: string, y: string)
    requires Escaped(s) + "\"" + x == Escaped(t) + "\"" + y
    ensures s == t && x == y
  {
    FirstIsQuote(s, x);
    FirstIsQuote(t, y);
    if s == "" {
      assert Escaped(s) + "\"" + x == "\"" + x && Escaped(t) + "\"" + y == "\"" + y;
      Cut("\"", "\"", x, y);
    } else {
      EscapedStep(s, x);
      EscapedStep(t, y);
      hide Escaped, EscapeChar;
      EscapeCharUnique(s[0], t[0], Escaped(s[1..]) + "\"" + x, Escaped(t[1..]) + "\"" + y);
      QuoteUnique(s[1..], t[1..], x, y);
      assert s == [s[0]] + s[1..] && t == [t[0]] + t[1..];
    }
  }

  /** How many number characters a text starts with. */
  function NumberRun(s: string): nat {
    if s != "" && NumberChar(s[0]) then 1 + NumberRun(s[1..]) else 0
  }

  lemma {:induction false} NumberRunIs(a: string, x: string)
    requires (forall i :: 0 <= i < |a| ==> NumberChar(a[i])) && Ends(x)
    ensures NumberRun(a + x) == |a|
  {
    if a == "" {
      assert a + x == x;
    } else {
      assert (a + x)[1..] == a[1..] + x;
      NumberRunIs(a[1..], x);
    }
  }

  lemma NumberUnique(a: string, b: string, x: string, y: string)
    requires forall i :: 0 <= i < |a| ==> NumberChar(a[i])
    requires forall i :: 0 <= i < |b| ==> NumberChar(b[i])
    requires Ends(x) && Ends(y) && a + x == b + y
    ensures a == b && x == y
  {
    NumberRunIs(a, x);
    NumberRunIs(b, y);
    assert a == (a + x)[..|a|] && b == (b + y)[..|b|];
    assert x == (a + x)[|a|..] && y == (b + y)[|b|..];
  }

  lemma Cut(a: string, b: string, x: string, y: string)
    requires |a| == |b| && a + x == b + y
    ensures a == b && x == y
  {
    assert a == (a + x)[..|a|] && b == (b + y)[..|b|];
    assert x == (a + x)[|a|..] && y == (b + y)[|b|..];
  }

  /** Two canonical texts that agree up to what follows them are of the same value, and are followed by the same. */
  lemma {:induction false} CanonUnique(a: Json, b: Json, number: Number -> string, x: string, y: string)
    requires NumberPrinter(number) && Ends(x) && Ends(y)
    requires Canon(a, number) + x == Canon(b, number) + y
    ensures SameJson(a, b) && x == y
    decreases a
  {
    FirstChar(a, number);
    FirstChar(b, number);
    assert (Canon(a, number) + x)[0] == Canon(a, number)[0];
    assert (Canon(b, number) + y)[0] == Canon(b, number)[0];
    SameKind(a, b, Canon(a, number)[0]);
    match a
    case Null => Cut(Canon(a, number), Canon(b, number), x, y);
    case Bool(_) => Cut(Canon(a, number), Canon(b, number), x, y);
    case Num(n) => NumberUnique(number(n), number(b.number), x, y);
    case Str(text) => StringUnique(text, b.text, x, y);
    case Arr(_) => ArrayUnique(a, b, number, x, y);
    case Obj(_) => ObjectUnique(a, b, number, x, y);
  }

  lemma SameKind(a: Json, b: Json, c: char)
    requires Starts(a, c) && Starts(b, c)
    ensures a.Null? == b.Null? && a.Bool? == b.Bool? && a.Num? == b.Num? && a.Str? == b.Str? && a.Arr? == b.Arr? && a.Obj? == b.Obj?
    ensures a.Bool? ==> a == b
  {
  }

  lemma StringUnique(s: string, t: string, x: string, y: string)
    requires Quote(s) + x == Quote(t) + y
    ensures s == t && x == y
  {
    hide Escaped;
    assert (Quote(s) + x)[1..] == Escaped(s) + "\"" + x;
    assert (Quote(t) + y)[1..] == Escaped(t) + "\"" + y;
    QuoteUnique(s, t, x, y);
  }

  // ---------- lists of texts ----------

  /** What follows the first of some joined texts. */
  function Following(rest: seq<string>, close: char, x: string): string {
    if rest == [] then [close] + x else [','] + Join(rest, ',') + [close] + x
  }

  lemma Regroup(a: string, b: string, close: char, x: string)
    ensures a + [','] + b + [close] + x == a + ([','] + b + [close] + x)
  {
  }

  lemma JoinedFirst(texts: seq<string>, close: char, x: string)
    requires texts != []
    ensures Join(texts, ',') + [close] + x == texts[0] + Following(texts[1..], close, x)
  {
    var first, rest := texts[0], texts[1..];
    assert texts == [first] + rest;
    if rest == [] {
      JoinOne(first, ',');
      hide Join;
      assert first + [close] + x == first + ([close] + x);
    } else {
      JoinFirst(first, rest, ',');
      hide Join;
      Regroup(first, Join(rest, ','), close, x);
    }
  }

  lemma FollowingParts(rest: seq<string>, close: char, x: string)
    ensures var u := Following(rest, close, x);
      u[0] == (if rest == [] then close else ',') && u[1..] == if rest == [] then x else Join(rest, ',') + [close] + x
  {
    hide Join;
  }

  lemma FollowingSame(r: seq<string>, t: seq<string>, close: char, x: string, y: string)
    requires Following(r, close, x) == Following(t, close, y) && close != ','
    ensures (r == []) == (t == [])
    ensures r == [] ==> x == y
    ensures r != [] ==> Join(r, ',') + [close] + x == Join(t, ',') + [close] + y
  {
    FollowingParts(r, close, x);
    FollowingParts(t, close, y);
    hide Following, Join;
  }

  lemma {:induction false} TextsUnique(xs: seq<Json>, bs: seq<Json>, a: Json, b: Json, number: Number -> string, x: string, y: string)
    requires NumberPrinter(number)
    requires (forall i :: 0 <= i < |xs| ==> xs[i] < a) && (forall i :: 0 <= i < |bs| ==> bs[i] < b)
    requires xs != [] && bs != []
    requires Join(Texts(xs, a, number), ',') + [']'] + x == Join(Texts(bs, b, number), ',') + [']'] + y
    ensures |xs| == |bs| && x == y && forall i :: 0 <= i < |xs| ==> SameJson(xs[i], bs[i])
    decreases a, |xs|
  {
    var t, u := Texts(xs, a, number), Texts(bs, b, number);
    var t1, u1 := Texts(xs[1..], a, number), Texts(bs[1..], b, number);
    assert t[0] == Canon(xs[0], number) && t[1..] == t1;
    assert u[0] == Canon(bs[0], number) && u[1..] == u1;
    JoinedFirst(t, ']', x);
    JoinedFirst(u, ']', y);
    CanonUnique(xs[0], bs[0], number, Following(t1, ']', x), Following(u1, ']', y));
    FollowingSame(t1, u1, ']', x, y);
    if xs[1..] != [] {
      TextsUnique(xs[1..], bs[1..], a, b, number, x, y);
    }
    forall i | 0 <= i < |xs| ensures SameJson(xs[i], bs[i]) {
      if i > 0 { assert xs[i] == xs[1..][i - 1] && bs[i] == bs[1..][i - 1]; }
    }
  }

  lemma JoinedStart(texts: seq<string>, close: char, x: string)
    requires texts != [] && texts[0] != ""
    ensures (Join(texts, ',') + [close] + x)[0] == texts[0][0]
  {
    JoinedFirst(texts, close, x);
    assert (texts[0] + Following(texts[1..], close, x))[0] == texts[0][0];
  }

  lemma ClosedEmpty(close: char, x: string)
    ensures Join([], ',') + [close] + x == [close] + x
  {
  }

  lemma {:induction false} ArrayUnique(a: Json, b: Json, number: Number -> string, x: string, y: string)
    requires a.Arr? && b.Arr? && NumberPrinter(number) && Ends(x) && Ends(y)
    requires Canon(a, number) + x == Canon(b, number) + y
    ensures SameJson(a, b) && x == y
    decreases a, |a.items| + 1
  {
    var t, u := Texts(a.items, a, number), Texts(b.items, b, number);
    assert (Canon(a, number) + x)[1..] == Join(t, ',') + [']'] + x;
    assert (Canon(b, number) + y)[1..] == Join(u, ',') + [']'] + y;
    TextsEmpty(a.items, a, number, x);
    TextsEmpty(b.items, b, number, y);
    if a.items == [] {
      ClosedEmpty(']', x);
      ClosedEmpty(']', y);
      Cut("]", "]", x, y);
    } else {
      TextsUnique(a.items, b.items, a, b, number, x, y);
    }
  }

  /** An array's text closes at once exactly when the array is empty. */
  lemma TextsEmpty(items: seq<Json>, parent: Json, number: Number -> string, x: string)
    requires NumberPrinter(number) && forall i :: 0 <= i < |items| ==> items[i] < parent
    ensures (Join(Texts(items, parent, number), ',') + [']'] + x)[0] == ']' <==> items == []
  {
    if items != [] {
      FirstChar(items[0], number);
      JoinedStart(Texts(items, parent, number), ']', x);
    }
  }

  lemma EntryStart(j: Json, keys: seq<string>, number: Number -> string)
    requires j.Obj? && (forall k :: 0 <= k < |keys| ==> keys[k] in Keys(j)) && keys != []
    ensures Entries(j, keys, number)[0] != "" && Entries(j, keys, number)[0][0] == '"'
  {
  }

  lemma EntriesEmpty(j: Json, keys: seq<string>, number: Number -> string, x: string)
    requires j.Obj? && forall k :: 0 <= k < |keys| ==> keys[k] in Keys(j)
    ensures (Join(Entries(j, keys, number), ',') + ['}'] + x)[0] == '}' <==> keys == []
  {
    if keys != [] {
      EntryStart(j, keys, number);
      JoinedStart(Entries(j, keys, number), '}', x);
    }
  }

  lemma {:induction false} EntryUnique(a: Json, b: Json, key: string, other: string, number: Number -> string, f: string, g: string)
    requires NumberPrinter(number) && a.Obj? && b.Obj? && key in Keys(a) && other in Keys(b) && Ends(f) && Ends(g)
    requires Entry(a, key, number) + f == Entry(b, other, number) + g
    ensures key == other && f == g && SameJson(Member(a, key), Member(b, other))
    decreases a, 0
  {
    hide Quote, NumberPrinter, Ends;
    var p, q := Canon(Member(a, key), number), Canon(Member(b, other), number);
    assert Entry(a, key, number) + f == Quote(key) + ([':'] + (p + f));
    assert Entry(b, other, number) + g == Quote(other) + ([':'] + (q + g));
    StringUnique(key, other, [':'] + (p + f), [':'] + (q + g));
    Cut(":", ":", p + f, q + g);
    CanonUnique(Member(a, key), Member(b, other), number, f, g);
  }

  lemma {:induction false} EntriesUnique(a: Json, b: Json, ks: seq<string>, ls: seq<string>, number: Number -> string, x: string, y: string)
    requires NumberPrinter(number) && a.Obj? && b.Obj?
    requires (forall k :: 0 <= k < |ks| ==> ks[k] in Keys(a)) && (forall k :: 0 <= k < |ls| ==> ls[k] in Keys(b))
    requires ks != [] && ls != []
    requires Join(Entries(a, ks, number), ',') + ['}'] + x == Join(Entries(b, ls, number), ',') + ['}'] + y
    ensures ks == ls && x == y && forall k :: 0 <= k < |ks| ==> SameJson(Member(a, ks[k]), Member(b, ks[k]))
    decreases a, |ks|
  {
    var t, u := Entries(a, ks, number), Entries(b, ls, number);
    var t1, u1 := Entries(a, ks[1..], number), Entries(b, ls[1..], number);
    assert t[1..] == t1 && u[1..] == u1 && t[0] == Entry(a, ks[0], number) && u[0] == Entry(b, ls[0], number);
    hide Entry, Join, NumberPrinter, Entries, Keys;
    JoinedFirst(t, '}', x);
    JoinedFirst(u, '}', y);
    EntryUnique(a, b, ks[0], ls[0], number, Following(t1, '}', x), Following(u1, '}', y));
    FollowingSame(t1, u1, '}', x, y);
    if ks[1..] != [] {
      EntriesUnique(a, b, ks[1..], ls[1..], number, x, y);
    }
    assert ks == [ks[0]] + ks[1..] && ls == [ls[0]] + ls[1..];
    forall k | 0 <= k < |ks| ensures SameJson(Member(a, ks[k]), Member(b, ks[k])) {
      if k > 0 { assert ks[k] == ks[1..][k - 1]; }
    }
  }

  lemma ObjectText(j: Json, number: Number -> string, x: string)
    requires j.Obj?
    ensures forall k :: 0 <= k < |InOrder(Keys(j))| ==> InOrder(Keys(j))[k] in Keys(j)
    ensures Canon(j, number) + x == "{" + (Join(Entries(j, InOrder(Keys(j)), number), ',') + ['}'] + x)
  {
    KeysListed(j);
    hide Join, Entries, Keys;
  }

  lemma {:induction false} ObjectUnique(a: Json, b: Json, number: Number -> string, x: string, y: string)
    requires a.Obj? && b.Obj? && NumberPrinter(number) && Ends(x) && Ends(y)
    requires Canon(a, number) + x == Canon(b, number) + y
    ensures SameJson(a, b) && x == y
    decreases a, |InOrder(Keys(a))| + 1
  {
    var ks, ls := InOrder(Keys(a)), InOrder(Keys(b));
    ObjectText(a, number, x);
    ObjectText(b, number, y);
    hide Canon, Join, Entries, Keys, NumberPrinter, Ends, Member;
    Cut("{", "{", Join(Entries(a, ks, number), ',') + ['}'] + x, Join(Entries(b, ls, number), ',') + ['}'] + y);
    EntriesEmpty(a, ks, number, x);
    EntriesEmpty(b, ls, number, y);
    if ks == [] {
      ClosedEmpty('}', x);
      ClosedEmpty('}', y);
      NoEntries(a, number);
      NoEntries(b, number);
      Cut("}", "}", x, y);
    } else {
      EntriesUnique(a, b, ks, ls, number, x, y);
    }
    assert Keys(a) == Elements(ks) == Elements(ls) == Keys(b);
    forall key | key in Keys(a) ensures SameJson(Member(a, key), Member(b, key)) { assert key in Elements(ks); }
  }

  lemma NoEntries(j: Json, number: Number -> string)
    requires j.Obj?
    ensures Entries(j, [], number) == []
  {
  }

  lemma KeysListed(j: Json)
    requires j.Obj?
    ensures forall k :: 0 <= k < |InOrder(Keys(j))| ==> InOrder(Keys(j))[k] in Keys(j)
  {
    forall k | 0 <= k < |InOrder(Keys(j))| ensures InOrder(Keys(j))[k] in Keys(j) {
      assert InOrder(Keys(j))[k] in Elements(InOrder(Keys(j)));
    }
  }

  // ---------- and back: equal values have equal texts ----------

  lemma {:induction false} SameIsEqual(a: Json, b: Json, number: Number -> string)
    requires SameJson(a, b)
    ensures Canon(a, number) == Canon(b, number)
    decreases a
  {
    match a
    case Arr(items) => SameTexts(items, b.items, a, b, number);
    case Obj(_) =>
      var keys := InOrder(Keys(a));
      KeysListed(a);
      SameEntries(a, b, keys, number);
    case _ =>
  }

  lemma {:induction false} SameTexts(xs: seq<Json>, bs: seq<Json>, a: Json, b: Json, number: Number -> string)
    requires (forall i :: 0 <= i < |xs| ==> xs[i] < a) && (forall i :: 0 <= i < |bs| ==> bs[i] < b)
    requires |xs| == |bs| && forall i :: 0 <= i < |xs| ==> SameJson(xs[i], bs[i])
    ensures Texts(xs, a, number) == Texts(bs, b, number)
    decreases a, |xs|
  {
    if xs != [] {
      SameIsEqual(xs[0], bs[0], number);
      SameTexts(xs[1..], bs[1..], a, b, number);
    }
  }

  lemma {:induction false} SameEntries(a: Json, b: Json, keys: seq<string>, number: Number -> string)
    requires a.Obj? && b.Obj? && SameJson(a, b) && forall k :: 0 <= k < |keys| ==> keys[k] in Keys(a)
    ensures Entries(a, keys, number) == Entries(b, keys, number)
    decreases a, |keys|
  {
    if keys != [] {
      SameIsEqual(Member(a, keys[0]), Member(b, keys[0]), number);
      SameEntries(a, b, keys[1..], number);
    }
  }

  /** The canonical text decides equality up to key order. */
  lemma CanonDecidesEquality(a: Json, b: Json, number: Number -> string)
    requires NumberPrinter(number)
    ensures Canon(a, number) == Canon(b, number) <==> SameJson(a, b)
  {
    if Canon(a, number) == Canon(b, number) {
      CanonUnique(a, b, number, "", "");
    }
    if SameJson(a, b) {
      SameIsEqual(a, b, number);
    }
  }
}
