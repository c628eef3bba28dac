/** Strings as sequences of characters: ordering, sorting, replacement, splitting; and finite-set facts. */
module Strings {

  /** `<` on strings, by their scalar values; it agrees with the order of code units up to U+D7FF. */
  predicate Le(a: string, b: string) {
    a == [] || (b != [] && (a[0] < b[0] || (a[0] == b[0] && Le(a[1..], b[1..]))))
  }

  lemma {:induction false} LeTotal(a: string, b: string)
    ensures Le(a, b) || Le(b, a)
  {
    if a != [] && b != [] && a[0] == b[0] {
      LeTotal(a[1..], b[1..]);
    }
  }

  lemma {:induction false} LeAntisymmetric(a: string, b: string)
    requires Le(a, b) && Le(b, a)
    ensures a == b
  {
    if a != [] && b != [] {
      LeAntisymmetric(a[1..], b[1..]);
      assert a == [a[0]] + a[1..] && b == [b[0]] + b[1..];
    }
  }

  lemma {:induction false} LeTransitive(a: string, b: string, c: string)
    requires Le(a, b) && Le(b, c)
    ensures Le(a, c)
  {
    if a != [] && b != [] && c != [] && a[0] == b[0] == c[0] {
      LeTransitive(a[1..], b[1..], c[1..]);
    }
  }

  /** The order of dictionaries: a prefix comes first, and otherwise the first difference decides. */
  lemma {:induction false} LeExactly(a: string, b: string)
    ensures Le(a, b) <==>
      || a <= b
      || exists k :: 0 <= k < |a| && k < |b| && a[..k] == b[..k] && a[k] < b[k]
  {
    if a != [] && b != [] {
      LeExactly(a[1..], b[1..]);
      if a[0] == b[0] {
        assert a == [a[0]] + a[1..] && b == [b[0]] + b[1..];
        if a <= b { assert b[1..][..|a| - 1] == b[..|a|][1..] == a[1..]; }
        if k :| 0 <= k < |a| && k < |b| && a[..k] == b[..k] && a[k] < b[k] {
          assert k > 0 && a[1..][..k - 1] == a[..k][1..] && b[1..][..k - 1] == b[..k][1..];
          assert a[1..][k - 1] < b[1..][k - 1];
        }
        if k :| 0 <= k < |a| - 1 && k < |b| - 1 && a[1..][..k] == b[1..][..k] && a[1..][k] < b[1..][k] {
          assert a[..k + 1] == [a[0]] + a[1..][..k] && b[..k + 1] == [b[0]] + b[1..][..k];
        }
      } else if a[0] < b[0] {
        assert a[..0] == b[..0];
      } else {
        forall k: nat | k < |a| && k < |b| { SameStart(a, b, k); }
      }
    }
  }

  lemma SameStart(a: string, b: string, k: nat)
    requires k < |a| && k < |b|
    ensures a[..k] == b[..k] ==> k == 0 || a[0] == b[0]
  {
    if k > 0 { assert a[..k][0] == a[0] && b[..k][0] == b[0]; }
  }

  /** Strictly increasing: sorted and free of duplicates. */
  predicate Increasing(s: seq<string>) {
    forall i, j :: 0 <= i < j < |s| ==> Le(s[i], s[j]) && s[i] != s[j]
  }

  function Elements(s: seq<string>): set<string> {
    set x | x in s
  }

  lemma ListedElement(s: seq<string>)
    requires s != []
    ensures s[0] in Elements(s)
  {
  }

  /** There is only one increasing listing of a set. */
  lemma {:induction false} IncreasingUnique(s: seq<string>, t: seq<string>)
    requires Increasing(s) && Increasing(t)
    requires Elements(s) == Elements(t)
    ensures s == t
  {
    assert forall x :: x in t ==> x in Elements(t);
    assert forall x :: x in s ==> x in Elements(s);
    if s == [] {
      if t != [] {
        ListedElement(t);
        assert false;
      }
    } else {
      assert s[0] in Elements(t) && t != [];
      assert t[0] in Elements(s);
      var i :| 0 <= i < |t| && t[i] == s[0];
      var j :| 0 <= j < |s| && s[j] == t[0];
      if i != 0 && j != 0 { LeAntisymmetric(s[0], t[0]); }
      assert s[0] == t[0];
      forall x ensures x in Elements(s[1..]) <==> x in Elements(t[1..]) {
        assert x in Elements(s) <==> x == s[0] || x in Elements(s[1..]);
        assert x in Elements(t) <==> x == t[0] || x in Elements(t[1..]);
      }
      assert Elements(s[1..]) == Elements(t[1..]);
      IncreasingUnique(s[1..], t[1..]);
      assert s == [s[0]] + s[1..] && t == [t[0]] + t[1..];
    }
  }

  /** One element at its place in a sorted list. */
  function Inserted(listed: seq<string>, x: string): (next: seq<string>)
    ensures |next| == |listed| + 1
    ensures forall y :: y in next <==> y == x || y in listed
  {
    if listed == [] || !Le(listed[0], x) then [x] + listed else [listed[0]] + Inserted(listed[1..], x)
  }

  lemma {:induction false} InsertedIncreases(listed: seq<string>, x: string)
    requires Increasing(listed) && x !in listed
    ensures Increasing(Inserted(listed, x))
  {
    if listed != [] {
      LeTotal(listed[0], x);
      if Le(listed[0], x) {
        InsertedIncreases(listed[1..], x);
        var tail := Inserted(listed[1..], x);
        forall j | 0 <= j < |tail| ensures Le(listed[0], tail[j]) && listed[0] != tail[j] { assert tail[j] in tail; }
      } else {
        forall j | 0 <= j < |listed| ensures Le(x, listed[j]) {
          if j > 0 { LeTransitive(x, listed[0], listed[j]); }
        }
      }
    }
  }

  /** The increasing listing of a set. */
  ghost function InOrder(found: set<string>): (listed: seq<string>)
    ensures Increasing(listed) && Elements(listed) == found && |listed| == |found|
  {
    if found == {} then []
    else
      var x :| x in found;
      var rest := InOrder(found - {x});
      assert x !in Elements(rest);
      InsertedIncreases(rest, x);
      var listed := Inserted(rest, x);
      assert forall y :: y in Elements(listed) <==> y == x || y in Elements(rest);
      listed
  }

  method Insert(listed: seq<string>, x: string) returns (next: seq<string>)
    ensures next == Inserted(listed, x)
  {
    var k := 0;
    while k < |listed| && Le(listed[k], x)
      invariant 0 <= k <= |listed|
      invariant Inserted(listed, x) == listed[..k] + Inserted(listed[k..], x)
    {
      assert listed[..k + 1] == listed[..k] + [listed[k]];
      k := k + 1;
    }
    next := listed[..k] + [x] + listed[k..];
  }

  /** `[...set].sort()`. */
  method Sorted(found: set<string>) returns (listed: seq<string>)
    ensures Increasing(listed) && Elements(listed) == found && |listed| == |found|
  {
    listed := [];
    var rest := found;
    while rest != {}
      invariant rest <= found
      invariant Increasing(listed) && Elements(listed) == found - rest
      invariant |listed| + |rest| == |found|
      decreases rest
    {
      var x :| x in rest;
      assert x !in Elements(listed);
      InsertedIncreases(listed, x);
      var next := Insert(listed, x);
      assert forall y :: y in Elements(next) <==> y == x || y in Elements(listed);
      listed := next;
      rest := rest - {x};
    }
  }

  lemma {:induction false} CardinalityMonotone<T>(a: set<T>, b: set<T>)
    requires a <= b
    ensures |a| <= |b|
  {
    assert b == a + (b - a);
    assert |b| == |a| + |b - a|;
  }

  // ---------- splitting and joining ----------

  predicate Without(s: string, c: char) {
    forall i :: 0 <= i < |s| ==> s[i] != c
  }

  function IndexOf(s: string, c: char): (i: nat)
    ensures i <= |s|
    ensures i < |s| ==> s[i] == c
    ensures forall k :: 0 <= k < i ==> s[k] != c
  {
    if s == [] || s[0] == c then 0 else 1 + IndexOf(s[1..], c)
  }

  /** `text.split(c)` for a one-character separator. */
  function Split(s: string, c: char): (parts: seq<string>)
    ensures |parts| > 0
    ensures forall i :: 0 <= i < |parts| ==> Without(parts[i], c)
    decreases |s|
  {
    var i := IndexOf(s, c);
    if i == |s| then [s] else [s[..i]] + Split(s[i + 1..], c)
  }

  lemma SplitStep(s: string, c: char)
    ensures var i := IndexOf(s, c);
      Split(s, c) == if i == |s| then [s] else [s[..i]] + Split(s[i + 1..], c)
  {
    hide IndexOf, Without;
  }

  lemma SplitWhole(s: string, c: char)
    requires Without(s, c)
    ensures Split(s, c) == [s]
  {
    assert IndexOf(s, c) == |s|;
  }

  /** A stretch of the text between separators or its ends. */
  predicate IsPart(s: string, c: char, i: int, j: int) {
    0 <= i <= j <= |s| && Without(s[i..j], c) && (i == 0 || s[i - 1] == c) && (j == |s| || s[j] == c)
  }

  /** Splitting gives exactly these stretches. */
  lemma {:induction false} PartsExactly(s: string, c: char, part: string)
    ensures part in Split(s, c) <==> exists i, j :: IsPart(s, c, i, j) && s[i..j] == part
    decreases |s|
  {
    var k := IndexOf(s, c);
    SplitStep(s, c);
    hide Split;
    assert s[0..k] == s[..k] && s[..|s|] == s;
    if k < |s| {
      PartsExactly(s[k + 1..], c, part);
      if part in Split(s[k + 1..], c) {
        var i, j :| IsPart(s[k + 1..], c, i, j) && s[k + 1..][i..j] == part;
        LaterPart(s, c, k, i, j);
        assert s[k + 1 + i..k + 1 + j] == part;
      }
    }
    if part == s[..k] { assert IsPart(s, c, 0, k) && s[0..k] == part; }
    if i, j :| IsPart(s, c, i, j) && s[i..j] == part {
      if i == 0 {
        FirstPart(s, c, j);
      } else {
        assert k < i;
        EarlierPart(s, c, k, i, j);
        assert s[k + 1..][i - k - 1..j - k - 1] == part;
      }
    }
  }

  lemma LaterPart(s: string, c: char, k: nat, i: int, j: int)
    requires k < |s| && s[k] == c && IsPart(s[k + 1..], c, i, j)
    ensures IsPart(s, c, k + 1 + i, k + 1 + j) && s[k + 1 + i..k + 1 + j] == s[k + 1..][i..j]
  {
    assert s[k + 1 + i..k + 1 + j] == s[k + 1..][i..j];
  }

  lemma EarlierPart(s: string, c: char, k: nat, i: int, j: int)
    requires k < |s| && s[k] == c && IsPart(s, c, i, j) && k < i
    ensures IsPart(s[k + 1..], c, i - k - 1, j - k - 1) && s[k + 1..][i - k - 1..j - k - 1] == s[i..j]
  {
    assert s[k + 1..][i - k - 1..j - k - 1] == s[i..j];
  }

  lemma FirstPart(s: string, c: char, j: int)
    requires IsPart(s, c, 0, j)
    ensures j == IndexOf(s, c)
  {
    assert forall n :: 0 <= n < j ==> s[n] == s[0..j][n];
  }

  /** `parts.join(c)`. */
  function Join(parts: seq<string>, c: char): string {
    if parts == [] then ""
    else if |parts| == 1 then parts[0]
    else parts[0] + [c] + Join(parts[1..], c)
  }

  lemma JoinFirst(first: string, rest: seq<string>, c: char)
    requires rest != []
    ensures Join([first] + rest, c) == first + [c] + Join(rest, c)
  {
    assert ([first] + rest)[1..] == rest;
  }

  lemma JoinOne(part: string, c: char)
    ensures Join([part], c) == part
  {
  }

  lemma SplitFirst(first: string, tail: string, c: char)
    requires Without(first, c)
    ensures Split(first + [c] + tail, c) == [first] + Split(tail, c)
  {
    var s := first + [c] + tail;
    var n := |first|;
    assert s[n] == c;
    assert forall k :: 0 <= k < n ==> s[k] == first[k] && s[k] != c;
    assert IndexOf(s, c) == n;
    assert s[..n] == first && s[n + 1..] == tail;
  }

  lemma {:induction false} JoinSplit(s: string, c: char)
    ensures Join(Split(s, c), c) == s
    decreases |s|
  {
    hide Join, Without;
    var i := IndexOf(s, c);
    if i == |s| {
      JoinOne(s, c);
    } else {
      var tail := s[i + 1..];
      JoinSplit(tail, c);
      JoinFirst(s[..i], Split(tail, c), c);
      assert s == s[..i] + [c] + tail;
    }
  }

  lemma {:induction false} SplitJoin(parts: seq<string>, c: char)
    requires parts != []
    requires forall i :: 0 <= i < |parts| ==> Without(parts[i], c)
    ensures Split(Join(parts, c), c) == parts
  {
    if |parts| == 1 {
      assert IndexOf(parts[0], c) == |parts[0]|;
    } else {
      SplitJoin(parts[1..], c);
      assert parts == [parts[0]] + parts[1..];
      JoinFirst(parts[0], parts[1..], c);
      SplitFirst(parts[0], Join(parts[1..], c), c);
    }
  }

  /** Equal texts of which each is cut at its first such character have equal parts. */
  lemma CutAt(a: string, b: string, x: string, y: string, c: char)
    requires Without(a, c) && Without(b, c) && a + [c] + x == b + [c] + y
    ensures a == b && x == y
  {
    SplitFirst(a, x, c);
    SplitFirst(b, y, c);
    var u, v := a + [c] + x, b + [c] + y;
    assert Split(u, c)[0] == a && Split(v, c)[0] == b;
    assert u[|a| + 1..] == x && v[|b| + 1..] == y;
  }

  // ---------- parts and characters ----------

  predicate Begins(s: string, prefix: string) {
    |prefix| <= |s| && s[..|prefix|] == prefix
  }

  predicate HasSuffix(s: string, suffix: string) {
    |suffix| <= |s| && s[|s| - |suffix|..] == suffix
  }

  function Lower(c: char): char {
    if 'A' <= c <= 'Z' then (c as int + 32) as char else c
  }

  const NUL: char := 0 as char

  /** The byte order mark. */
  const BOM: char := 0xFEFF as char

  /** What a decoder of the kind that drops a leading byte order mark makes of a text. */
  function StripBom(s: string): string {
    if s != "" && s[0] == BOM then s[1..] else s
  }
}
