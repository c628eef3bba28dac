/** Controller globs: compiled to one regular expression, against a matcher that goes segment by segment. */
module ControllerGlobs {
  import opened JsonValues
  import opened Strings
  import opened GlobExpressions

  // ---------- segments ----------

  predicate NameChar(c: char) {
    'A' <= c <= 'Z' || 'a' <= c <= 'z' || '0' <= c <= '9' || c == '_' || c == '.' || c == '-'
  }

  predicate AcceptedOptions(options: seq<string>) {
    2 <= |options| <= 6 && forall i :: 0 <= i < |options| ==> IsOption(options[i])
  }

  /** The alternatives between a brace and the next closing one. */
  function OptionsOf(value: string): seq<string>
    requires value != "" && IndexOf(value, '}') < |value|
  {
    Split(if IndexOf(value, '}') == 0 then "" else value[1..IndexOf(value, '}')], ',')
  }

  predicate AcceptedSegment(value: string)
    decreases |value|
  {
    if value == "" then true
    else if value[0] == '*' then AcceptedSegment(value[1..])
    else if value[0] == '{' then
      var end := IndexOf(value, '}');
      end < |value| && AcceptedOptions(OptionsOf(value)) && AcceptedSegment(value[end + 1..])
    else NameChar(value[0]) && AcceptedSegment(value[1..])
  }

  function PiecesOf(value: string): seq<Piece>
    requires AcceptedSegment(value)
    decreases |value|
  {
    if value == "" then []
    else if value[0] == '*' then [AnyRun] + PiecesOf(value[1..])
    else if value[0] == '{' then [OneOf(OptionsOf(value))] + PiecesOf(value[IndexOf(value, '}') + 1..])
    else [Literal(value[0])] + PiecesOf(value[1..])
  }

  /** What a segment means for one name of a path: a star any run of characters, braces one of the alternatives. */
  ghost predicate SegmentMatches(value: string, name: string)
    requires AcceptedSegment(value)
    decreases |value|
  {
    if value == "" then name == ""
    else if value[0] == '*' then exists k :: 0 <= k <= |name| && SegmentMatches(value[1..], name[k..])
    else if value[0] == '{' then
      exists i :: 0 <= i < |OptionsOf(value)| && Begins(name, OptionsOf(value)[i])
                  && SegmentMatches(value[IndexOf(value, '}') + 1..], name[|OptionsOf(value)[i]|..])
    else name != "" && name[0] == value[0] && SegmentMatches(value[1..], name[1..])
  }

  lemma {:induction false} SegmentMeaning(value: string, name: string)
    requires AcceptedSegment(value) && Without(name, '/')
    ensures Matches(PiecesOf(value), name) <==> SegmentMatches(value, name)
    decreases |value|
  {
    if value == "" {
    } else if value[0] == '*' {
      assert PiecesOf(value)[1..] == PiecesOf(value[1..]);
      forall k | 0 <= k <= |name| ensures Matches(PiecesOf(value[1..]), name[k..]) <==> SegmentMatches(value[1..], name[k..]) {
        SegmentMeaning(value[1..], name[k..]);
      }
    } else if value[0] == '{' {
      var options, rest := OptionsOf(value), value[IndexOf(value, '}') + 1..];
      assert PiecesOf(value)[1..] == PiecesOf(rest);
      forall i | 0 <= i < |options| && Begins(name, options[i])
        ensures Matches(PiecesOf(rest), name[|options[i]|..]) <==> SegmentMatches(rest, name[|options[i]|..])
      {
        SegmentMeaning(rest, name[|options[i]|..]);
      }
    } else {
      assert PiecesOf(value)[1..] == PiecesOf(value[1..]);
      if name != "" { SegmentMeaning(value[1..], name[1..]); }
    }
  }

  /** Pieces that never match a slash. */
  ghost predicate Slashless(piece: Piece) {
    match piece
    case Literal(c) => c != '/'
    case AnyRun => true
    case OneOf(options) => forall i :: 0 <= i < |options| ==> Without(options[i], '/')
    case Directories => false
  }

  /** An alternation of accepted options is written, and matches no slash. */
  lemma OptionsFine(options: seq<string>)
    requires AcceptedOptions(options)
    ensures Slashless(OneOf(options)) && Written(OneOf(options))
  {
    hide IsOption;
    forall i | 0 <= i < |options| ensures Without(options[i], '/') { OptionShape(options[i]); }
  }

  lemma {:induction false} SegmentPieces(value: string)
    requires AcceptedSegment(value)
    ensures forall i :: 0 <= i < |PiecesOf(value)| ==> Slashless(PiecesOf(value)[i]) && Written(PiecesOf(value)[i])
    decreases |value|
  {
    if value == "" {
    } else if value[0] == '{' {
      OptionsFine(OptionsOf(value));
      hide OptionsOf, AcceptedOptions, Slashless, Written;
      SegmentPieces(value[IndexOf(value, '}') + 1..]);
    } else {
      SegmentPieces(value[1..]);
    }
  }

  lemma {:induction false} SlashlessMatch(pieces: seq<Piece>, s: string)
    requires (forall i :: 0 <= i < |pieces| ==> Slashless(pieces[i])) && Matches(pieces, s)
    ensures Without(s, '/')
    decreases |pieces|
  {
    if pieces != [] {
      match pieces[0]
      case Literal(_) => SlashlessMatch(pieces[1..], s[1..]); assert s == [s[0]] + s[1..];
      case AnyRun =>
        var k :| 0 <= k <= |s| && Without(s[..k], '/') && Matches(pieces[1..], s[k..]);
        SlashlessMatch(pieces[1..], s[k..]);
        assert s == s[..k] + s[k..];
      case OneOf(options) =>
        var i :| 0 <= i < |options| && Begins(s, options[i]) && Matches(pieces[1..], s[|options[i]|..]);
        SlashlessMatch(pieces[1..], s[|options[i]|..]);
        assert s == options[i] + s[|options[i]|..];
    }
  }

  /** What one atom takes of a text. */
  ghost predicate Takes(piece: Piece, s: string) {
    match piece
    case Literal(c) => s == [c]
    case AnyRun => Without(s, '/')
    case OneOf(options) => s in options
    case Directories => IsDirectories(s)
  }

  lemma FirstTakes(pieces: seq<Piece>, s: string) returns (n: nat)
    requires pieces != [] && Matches(pieces, s)
    ensures n <= |s| && Takes(pieces[0], s[..n]) && Matches(pieces[1..], s[n..])
  {
    match pieces[0]
    case Literal(_) => n := 1;
    case AnyRun => n :| n <= |s| && Without(s[..n], '/') && Matches(pieces[1..], s[n..]);
    case OneOf(options) =>
      var i :| 0 <= i < |options| && Begins(s, options[i]) && Matches(pieces[1..], s[|options[i]|..]);
      n := |options[i]|;
    case Directories => n :| n <= |s| && IsDirectories(s[..n]) && Matches(pieces[1..], s[n..]);
  }

  lemma TakenFirst(pieces: seq<Piece>, s: string, n: nat)
    requires pieces != [] && n <= |s| && Takes(pieces[0], s[..n]) && Matches(pieces[1..], s[n..])
    ensures Matches(pieces, s)
  {
    match pieces[0]
    case Literal(_) => assert s[..n][0] == s[0];
    case OneOf(options) =>
      var i :| 0 <= i < |options| && options[i] == s[..n];
      assert Begins(s, options[i]);
    case _ =>
  }

  /** Matching one list of atoms and then another: somewhere the text is cut. */
  lemma {:induction false} MatchesConcat(a: seq<Piece>, b: seq<Piece>, s: string)
    ensures Matches(a + b, s) <==> exists k :: 0 <= k <= |s| && Matches(a, s[..k]) && Matches(b, s[k..])
    decreases |a|
  {
    if a == [] {
      assert a + b == b;
      assert s[..0] == "" && s[0..] == s;
    } else {
      assert (a + b)[1..] == a[1..] + b && (a + b)[0] == a[0];
      if Matches(a + b, s) { ConcatCut(a, b, s); }
      if k :| 0 <= k <= |s| && Matches(a, s[..k]) && Matches(b, s[k..]) { CutConcat(a, b, s, k); }
    }
  }

  lemma {:induction false} ConcatCut(a: seq<Piece>, b: seq<Piece>, s: string)
    requires a != [] && Matches(a + b, s)
    ensures exists k :: 0 <= k <= |s| && Matches(a, s[..k]) && Matches(b, s[k..])
    decreases |a|, 0
  {
    hide Matches, Takes;
    assert (a + b)[1..] == a[1..] + b && (a + b)[0] == a[0];
    var n := FirstTakes(a + b, s);
    MatchesConcat(a[1..], b, s[n..]);
    var k :| 0 <= k <= |s[n..]| && Matches(a[1..], s[n..][..k]) && Matches(b, s[n..][k..]);
    assert s[n..][k..] == s[n + k..] && s[n..][..k] == s[..n + k][n..] && s[..n + k][..n] == s[..n];
    TakenFirst(a, s[..n + k], n);
  }

  lemma {:induction false} CutConcat(a: seq<Piece>, b: seq<Piece>, s: string, k: nat)
    requires a != [] && k <= |s| && Matches(a, s[..k]) && Matches(b, s[k..])
    ensures Matches(a + b, s)
    decreases |a|, 0
  {
    hide Matches, Takes;
    var t := s[..k];
    assert (a + b)[1..] == a[1..] + b && (a + b)[0] == a[0];
    var n := FirstTakes(a, t);
    assert s[..n] == t[..n] && s[n..][..k - n] == t[n..] && s[n..][k - n..] == s[k..];
    MatchesConcat(a[1..], b, s[n..]);
    TakenFirst(a + b, s, n);
  }

  // ---------- whole patterns ----------

  const STARS := "**"

  predicate HasStars(segment: string) {
    exists i :: 0 <= i < |segment| - 1 && segment[i] == '*' == segment[i + 1]
  }

  predicate NameSegment(segment: string) {
    segment != "" && segment != "." && segment != ".." && !HasStars(segment)
    && AcceptedSegment(segment)
  }

  predicate SegmentsAccepted(segments: seq<string>) {
    forall i :: 0 <= i < |segments| ==> segments[i] == STARS || NameSegment(segments[i])
  }

  function Compile(segments: seq<string>): seq<Piece>
    requires SegmentsAccepted(segments)
  {
    if segments == [] then []
    else if segments[0] == STARS then [Directories] + Compile(segments[1..])
    else PiecesOf(segments[0]) + (if |segments| > 1 then [Literal('/')] else []) + Compile(segments[1..])
  }

  ghost predicate NonEmpty(names: seq<string>) {
    forall i :: 0 <= i < |names| ==> names[i] != ""
  }

  /**
   * Segment by segment: a name segment matches one name; `**` matches any number of non-empty names, and at the end
   * of a pattern also wants the empty text that follows a final slash.
   */
  ghost predicate PathMatches(segments: seq<string>, names: seq<string>)
    requires SegmentsAccepted(segments)
    decreases |segments|
  {
    if segments == [] then names == []
    else if segments == [STARS] then names != [] && NonEmpty(names[..|names| - 1]) && names[|names| - 1] == ""
    else if segments[0] == STARS then
      exists m :: 0 <= m <= |names| && NonEmpty(names[..m]) && PathMatches(segments[1..], names[m..])
    else names != [] && SegmentMatches(segments[0], names[0]) && PathMatches(segments[1..], names[1..])
  }

  lemma {:induction false} NoNamesLeft(segments: seq<string>)
    requires SegmentsAccepted(segments) && segments != []
    ensures !PathMatches(segments, [])
  {
    if segments[0] == STARS && segments != [STARS] { NoNamesLeft(segments[1..]); }
  }

  lemma IndexAt(s: string, i: nat)
    requires i < |s| && s[i] == '/' && Without(s[..i], '/')
    ensures IndexOf(s, '/') == i
  {
    forall k | 0 <= k < i ensures s[k] != '/' { assert s[..i][k] == s[k]; }
  }

  lemma SplitAt(s: string, i: nat)
    requires i < |s| && s[i] == '/' && Without(s[..i], '/')
    ensures IndexOf(s, '/') == i && Split(s, '/') == [s[..i]] + Split(s[i + 1..], '/')
  {
    IndexAt(s, i);
    hide IndexOf, Without, Split;
    SplitStep(s, '/');
  }

  lemma SlashFirst(rest: seq<Piece>, s: string)
    ensures Matches([Literal('/')] + rest, s) <==> s != "" && s[0] == '/' && Matches(rest, s[1..])
  {
    assert ([Literal('/')] + rest)[1..] == rest;
  }

  /** Names end at the first slash. */
  lemma SlashFound(pieces: seq<Piece>, rest: seq<Piece>, s: string, k: nat)
    requires forall i :: 0 <= i < |pieces| ==> Slashless(pieces[i])
    requires k <= |s| && Matches(pieces, s[..k]) && Matches([Literal('/')] + rest, s[k..])
    ensures k < |s| && IndexOf(s, '/') == k && Matches(rest, s[k + 1..])
  {
    SlashlessMatch(pieces, s[..k]);
    SlashFirst(rest, s[k..]);
    hide Matches, Slashless;
    SplitAt(s, k);
    assert s[k..][1..] == s[k + 1..];
  }

  /** A name, a slash, and the rest. */
  lemma NameThenSlash(pieces: seq<Piece>, rest: seq<Piece>, s: string)
    requires forall i :: 0 <= i < |pieces| ==> Slashless(pieces[i])
    ensures Matches(pieces + [Literal('/')] + rest, s) <==>
      IndexOf(s, '/') < |s| && Matches(pieces, s[..IndexOf(s, '/')]) && Matches(rest, s[IndexOf(s, '/') + 1..])
  {
    hide Slashless, Matches, IndexOf;
    var tail, i := [Literal('/')] + rest, IndexOf(s, '/');
    assert pieces + [Literal('/')] + rest == pieces + tail;
    MatchesConcat(pieces, tail, s);
    if Matches(pieces + tail, s) {
      var k :| 0 <= k <= |s| && Matches(pieces, s[..k]) && Matches(tail, s[k..]);
      SlashFound(pieces, rest, s, k);
    }
    if i < |s| {
      SlashFirst(rest, s[i..]);
      assert s[i..][1..] == s[i + 1..];
    }
  }

  lemma DirectoriesGrow(s: string, i: nat)
    requires 0 < i < |s| && s[i] == '/' && Without(s[..i], '/') && IsDirectories(s[i + 1..])
    ensures IsDirectories(s)
  {
  }

  /** The only way to read `(?:[^/]+/)*` is by whole names. */
  lemma DirectoriesShrink(s: string)
    requires s != "" && IsDirectories(s)
    ensures 0 < IndexOf(s, '/') < |s| && IsDirectories(s[IndexOf(s, '/') + 1..])
  {
    var i :| 0 < i < |s| && s[i] == '/' && Without(s[..i], '/') && IsDirectories(s[i + 1..]);
    IndexAt(s, i);
    hide IsDirectories;
  }

  lemma NoDirectories()
    ensures IsDirectories("")
  {
  }

  lemma DirectoriesStep(s: string)
    ensures IsDirectories(s) <==> s == "" || (0 < IndexOf(s, '/') < |s| && IsDirectories(s[IndexOf(s, '/') + 1..]))
  {
    hide IsDirectories;
    var i := IndexOf(s, '/');
    NoDirectories();
    if s != "" && IsDirectories(s) { DirectoriesShrink(s); }
    if 0 < i < |s| && IsDirectories(s[i + 1..]) {
      assert Without(s[..i], '/');
      DirectoriesGrow(s, i);
    }
  }

  lemma FinalStep(first: string, rest: seq<string>)
    requires rest != []
    ensures PathMatches([STARS], [first] + rest) <==> first != "" && PathMatches([STARS], rest)
  {
    var names := [first] + rest;
    assert names[..|names| - 1] == [first] + rest[..|rest| - 1];
    assert names[|names| - 1] == rest[|rest| - 1];
    if NonEmpty([first] + rest[..|rest| - 1]) {
      assert ([first] + rest[..|rest| - 1])[0] != "";
      forall k | 0 <= k < |rest| - 1 ensures rest[k] != "" { assert ([first] + rest[..|rest| - 1])[k + 1] != ""; }
    }
  }

  lemma {:induction false} FinalStars(s: string)
    ensures IsDirectories(s) <==> PathMatches([STARS], Split(s, '/'))
    decreases |s|
  {
    DirectoriesStep(s);
    var i := IndexOf(s, '/');
    if i < |s| {
      FinalStars(s[i + 1..]);
      hide PathMatches, IsDirectories;
      FinalStep(s[..i], Split(s[i + 1..], '/'));
    } else {
      SplitWhole(s, '/');
    }
  }

  lemma StarsAt(segments: seq<string>, names: seq<string>, m: nat)
    requires SegmentsAccepted(segments) && |segments| > 1 && segments[0] == STARS
    requires m <= |names| && NonEmpty(names[..m]) && PathMatches(segments[1..], names[m..])
    ensures PathMatches(segments, names)
  {
  }

  lemma StarsCut(segments: seq<string>, names: seq<string>) returns (m: nat)
    requires SegmentsAccepted(segments) && |segments| > 1 && segments[0] == STARS && PathMatches(segments, names)
    ensures m <= |names| && NonEmpty(names[..m]) && PathMatches(segments[1..], names[m..])
  {
    hide NonEmpty, NameSegment;
    m :| 0 <= m <= |names| && NonEmpty(names[..m]) && PathMatches(segments[1..], names[m..]);
  }

  lemma NonEmptyFrom(first: string, names: seq<string>, m: nat)
    requires m <= |names|
    ensures NonEmpty(([first] + names)[..m + 1]) <==> first != "" && NonEmpty(names[..m])
    ensures ([first] + names)[m + 1..] == names[m..]
  {
    assert ([first] + names)[..m + 1] == [first] + names[..m];
    if NonEmpty([first] + names[..m]) {
      assert ([first] + names[..m])[0] != "";
      forall k | 0 <= k < m ensures names[..m][k] != "" { assert ([first] + names[..m])[k + 1] != ""; }
    }
  }

  lemma StarsMore(segments: seq<string>, first: string, names: seq<string>)
    requires SegmentsAccepted(segments) && |segments| > 1 && segments[0] == STARS
    requires first != "" && PathMatches(segments, names)
    ensures PathMatches(segments, [first] + names)
  {
    hide NameSegment, PathMatches, NonEmpty;
    var m := StarsCut(segments, names);
    NonEmptyFrom(first, names, m);
    StarsAt(segments, [first] + names, m + 1);
  }

  lemma StarsLess(segments: seq<string>, first: string, names: seq<string>)
    requires SegmentsAccepted(segments) && |segments| > 1 && segments[0] == STARS
    requires PathMatches(segments, [first] + names)
    ensures PathMatches(segments[1..], [first] + names) || (first != "" && PathMatches(segments, names))
  {
    hide NameSegment, PathMatches, NonEmpty;
    var all := [first] + names;
    var m := StarsCut(segments, all);
    if m == 0 {
      assert all[0..] == all;
    } else {
      NonEmptyFrom(first, names, m - 1);
      StarsAt(segments, names, m - 1);
    }
  }

  lemma StarsNone(segments: seq<string>, names: seq<string>)
    requires SegmentsAccepted(segments) && |segments| > 1 && segments[0] == STARS && PathMatches(segments[1..], names)
    ensures PathMatches(segments, names)
  {
    assert names[0..] == names && NonEmpty(names[..0]);
    hide NameSegment, PathMatches, NonEmpty;
    StarsAt(segments, names, 0);
  }

  /** `**` takes no name, or one more non-empty name. */
  lemma StarsStep(segments: seq<string>, first: string, names: seq<string>)
    requires SegmentsAccepted(segments) && |segments| > 1 && segments[0] == STARS
    ensures PathMatches(segments, [first] + names) <==>
      PathMatches(segments[1..], [first] + names) || (first != "" && PathMatches(segments, names))
  {
    hide NameSegment, PathMatches, NonEmpty;
    if PathMatches(segments[1..], [first] + names) { StarsNone(segments, [first] + names); }
    if first != "" && PathMatches(segments, names) { StarsMore(segments, first, names); }
    if PathMatches(segments, [first] + names) { StarsLess(segments, first, names); }
  }

  lemma DirectoriesMatch(rest: seq<Piece>, s: string, k: nat)
    requires k <= |s| && IsDirectories(s[..k]) && Matches(rest, s[k..])
    ensures Matches([Directories] + rest, s)
  {
    assert ([Directories] + rest)[1..] == rest;
  }

  lemma DirectoriesCut(rest: seq<Piece>, s: string) returns (k: nat)
    requires Matches([Directories] + rest, s)
    ensures k <= |s| && IsDirectories(s[..k]) && Matches(rest, s[k..])
  {
    assert ([Directories] + rest)[1..] == rest;
    k :| 0 <= k <= |s| && IsDirectories(s[..k]) && Matches(rest, s[k..]);
  }

  lemma Slices(s: string, i: nat, k: nat)
    requires i < k <= |s|
    ensures s[..k][i + 1..] == s[i + 1..][..k - i - 1] && s[i + 1..][k - i - 1..] == s[k..]
    ensures s[..k][..i] == s[..i] && s[..k][i] == s[i]
  {
  }

  /** `(?:[^/]+/)*` takes nothing, or one more name with its slash. */
  lemma DirectoriesThen(rest: seq<Piece>, s: string)
    ensures var i := IndexOf(s, '/');
      Matches([Directories] + rest, s) <==>
        Matches(rest, s) || (0 < i < |s| && Matches([Directories] + rest, s[i + 1..]))
  {
    hide Matches;
    var pieces, i := [Directories] + rest, IndexOf(s, '/');
    assert s[..0] == "" && s[0..] == s;
    if Matches(rest, s) { DirectoriesMatch(rest, s, 0); }
    if Matches(pieces, s) {
      var k := DirectoriesCut(rest, s);
      if k > 0 { OneDirectoryLess(rest, s, k); }
    }
    if 0 < i < |s| && Matches(pieces, s[i + 1..]) { OneDirectoryMore(rest, s); }
  }

  lemma OneDirectoryLess(rest: seq<Piece>, s: string, k: nat)
    requires 0 < k <= |s| && IsDirectories(s[..k]) && Matches(rest, s[k..])
    ensures 0 < IndexOf(s, '/') < |s| && Matches([Directories] + rest, s[IndexOf(s, '/') + 1..])
  {
    hide Matches, IsDirectories;
    DirectoriesShrink(s[..k]);
    var i := IndexOf(s[..k], '/');
    Slices(s, i, k);
    assert Without(s[..i], '/');
    IndexAt(s, i);
    DirectoriesMatch(rest, s[i + 1..], k - i - 1);
  }

  lemma OneDirectoryMore(rest: seq<Piece>, s: string)
    requires 0 < IndexOf(s, '/') < |s| && Matches([Directories] + rest, s[IndexOf(s, '/') + 1..])
    ensures Matches([Directories] + rest, s)
  {
    hide Matches, IsDirectories;
    var i := IndexOf(s, '/');
    var k := DirectoriesCut(rest, s[i + 1..]);
    var n := i + 1 + k;
    Slices(s, i, n);
    assert Without(s[..n][..i], '/');
    DirectoriesGrow(s[..n], i);
    DirectoriesMatch(rest, s, n);
  }

  /** `**` before other segments, given what the others mean. */
  lemma {:induction false} StarsMeaning(segments: seq<string>, s: string)
    requires SegmentsAccepted(segments) && |segments| > 1 && segments[0] == STARS
    requires Compile(segments) == [Directories] + Compile(segments[1..])
    requires forall t :: Matches(Compile(segments[1..]), t) <==> PathMatches(segments[1..], Split(t, '/'))
    ensures Matches(Compile(segments), s) <==> PathMatches(segments, Split(s, '/'))
    decreases |s|
  {
    hide NameSegment, Compile, PathMatches, Matches;
    var i := IndexOf(s, '/');
    DirectoriesThen(Compile(segments[1..]), s);
    if i < |s| {
      StarsMeaning(segments, s[i + 1..]);
      StarsStep(segments, s[..i], Split(s[i + 1..], '/'));
    } else {
      SplitWhole(s, '/');
      NoNamesLeft(segments);
      assert [s] + [] == [s];
      StarsStep(segments, s, []);
    }
  }

  lemma CompileName(segments: seq<string>)
    requires SegmentsAccepted(segments) && segments != [] && segments[0] != STARS
    ensures |segments| > 1 ==> Compile(segments) == PiecesOf(segments[0]) + [Literal('/')] + Compile(segments[1..])
    ensures |segments| == 1 ==> Compile(segments) == PiecesOf(segments[0])
  {
  }

  /** Compiling a glob to a regular expression preserves what it means. */
  lemma {:induction false} CompiledMeaning(segments: seq<string>, s: string)
    requires SegmentsAccepted(segments) && segments != []
    ensures Matches(Compile(segments), s) <==> PathMatches(segments, Split(s, '/'))
    decreases |segments|
  {
    var rest := segments[1..];
    if segments[0] == STARS {
      if |segments| == 1 {
        FinalStars(s);
        FinalCompiled(s);
        assert segments == [STARS];
      } else {
        forall t ensures Matches(Compile(rest), t) <==> PathMatches(rest, Split(t, '/')) { CompiledMeaning(rest, t); }
        StarsMeaning(segments, s);
      }
    } else {
      CompileName(segments);
      SegmentPieces(segments[0]);
      hide Compile, NameSegment;
      if |segments| == 1 { OneNameMeaning(segments, s); } else { NameMeaning(segments, s); }
    }
  }

  lemma FinalCompiled(s: string)
    ensures Matches(Compile([STARS]), s) <==> IsDirectories(s)
  {
    assert [STARS][1..] == [] && Compile([STARS]) == [Directories] + [];
    assert s[..|s|] == s;
    if Matches([Directories] + [], s) {
      var k := DirectoriesCut([], s);
      assert k == |s|;
    }
    if IsDirectories(s) { DirectoriesMatch([], s, |s|); }
  }

  lemma OneNameMeaning(segments: seq<string>, s: string)
    requires SegmentsAccepted(segments) && |segments| == 1 && segments[0] != STARS && Compile(segments) == PiecesOf(segments[0])
    requires forall i :: 0 <= i < |PiecesOf(segments[0])| ==> Slashless(PiecesOf(segments[0])[i])
    ensures Matches(Compile(segments), s) <==> PathMatches(segments, Split(s, '/'))
  {
    assert AcceptedSegment(segments[0]);
    hide NameSegment, PiecesOf, AcceptedSegment;
    if Without(s, '/') {
      SplitWhole(s, '/');
      SegmentMeaning(segments[0], s);
    } else {
      if Matches(Compile(segments), s) { SlashlessMatch(PiecesOf(segments[0]), s); }
      var i := IndexOf(s, '/');
      assert |Split(s, '/')| > 1;
    }
  }

  lemma {:induction false} NameMeaning(segments: seq<string>, s: string)
    requires SegmentsAccepted(segments) && |segments| > 1 && segments[0] != STARS
    requires Compile(segments) == PiecesOf(segments[0]) + [Literal('/')] + Compile(segments[1..])
    requires forall i :: 0 <= i < |PiecesOf(segments[0])| ==> Slashless(PiecesOf(segments[0])[i])
    ensures Matches(Compile(segments), s) <==> PathMatches(segments, Split(s, '/'))
    decreases |segments|, 0
  {
    var rest, i := segments[1..], IndexOf(s, '/');
    assert AcceptedSegment(segments[0]);
    hide NameSegment, PiecesOf, Compile, AcceptedSegment;
    NameThenSlash(PiecesOf(segments[0]), Compile(rest), s);
    if i < |s| {
      SegmentMeaning(segments[0], s[..i]);
      CompiledMeaning(rest, s[i + 1..]);
      assert Split(s, '/')[1..] == Split(s[i + 1..], '/');
    } else {
      SplitWhole(s, '/');
      NoNamesLeft(rest);
      assert Split(s, '/')[1..] == [];
    }
  }

  /** A pattern that ends in `**` selects no file: it only matches paths that end in a slash. */
  lemma {:induction false} FinalStarsSelectNothing(segments: seq<string>, names: seq<string>)
    requires SegmentsAccepted(segments) && segments != [] && segments[|segments| - 1] == STARS && PathMatches(segments, names)
    ensures names != [] && names[|names| - 1] == ""
    decreases |segments|
  {
    if segments != [STARS] {
      assert segments[1..][|segments[1..]| - 1] == STARS;
      if segments[0] == STARS {
        var m :| 0 <= m <= |names| && NonEmpty(names[..m]) && PathMatches(segments[1..], names[m..]);
        FinalStarsSelectNothing(segments[1..], names[m..]);
      } else {
        FinalStarsSelectNothing(segments[1..], names[1..]);
      }
    }
  }

  // ---------- the compiler ----------

  /** `globSegment`: the text of one segment, left to right. */
  method GlobSegment(value: string) returns (text: Option<string>)
    ensures text.Some? <==> AcceptedSegment(value)
    ensures text.Some? ==> text.value == PrintAll(PiecesOf(value))
  {
    var result := "";
    var index := 0;
    assert value[0..] == value;
    while index < |value|
      invariant 0 <= index <= |value|
      invariant AcceptedSegment(value) <==> AcceptedSegment(value[index..])
      invariant AcceptedSegment(value) ==> PrintAll(PiecesOf(value)) == result + PrintAll(PiecesOf(value[index..]))
      decreases |value| - index
    {
      var rest := value[index..];
      var next := GlobStep(rest);
      if next.None? { return None; }
      assert rest[next.value.1..] == value[index + next.value.1..];
      result := result + next.value.0;
      index := index + next.value.1;
    }
    assert value[index..] == "";
    return Some(result);
  }

  /** One turn of the loop: the text of the next atom and how many characters it takes. */
  method GlobStep(rest: string) returns (next: Option<(string, nat)>)
    requires rest != ""
    ensures next.None? ==> !AcceptedSegment(rest)
    ensures next.Some? ==> 0 < next.value.1 <= |rest| && (AcceptedSegment(rest) <==> AcceptedSegment(rest[next.value.1..]))
    ensures next.Some? && AcceptedSegment(rest) ==>
      PrintAll(PiecesOf(rest)) == next.value.0 + PrintAll(PiecesOf(rest[next.value.1..]))
  {
    if rest[0] == '*' {
      if AcceptedSegment(rest) { PrintFirst(AnyRun, PiecesOf(rest[1..])); }
      return Some(("[^/]*", 1));
    }
    if rest[0] == '{' {
      var end := IndexOf(rest, '}');
      if end == |rest| { return None; }
      var options := Split(rest[1..end], ',');
      assert options == OptionsOf(rest);
      if !AcceptedOptions(options) { return None; }
      if AcceptedSegment(rest) { PrintFirst(OneOf(options), PiecesOf(rest[end + 1..])); }
      return Some(("(?:" + Join(EscapeAll(options), '|') + ")", end + 1));
    }
    if !NameChar(rest[0]) { return None; }
    if AcceptedSegment(rest) { PrintFirst(Literal(rest[0]), PiecesOf(rest[1..])); }
    return Some((Escape([rest[0]]), 1));
  }

  lemma PrintFirst(piece: Piece, rest: seq<Piece>)
    ensures PrintAll([piece] + rest) == Print(piece) + PrintAll(rest)
  {
    assert ([piece] + rest)[1..] == rest;
  }

  function StarsCount(segments: seq<string>): nat {
    if segments == [] then 0 else (if segments[0] == STARS then 1 else 0) + StarsCount(segments[1..])
  }

  lemma PrintName(value: string, slash: bool, rest: seq<Piece>)
    requires AcceptedSegment(value)
    ensures PrintAll(PiecesOf(value) + (if slash then [Literal('/')] else []) + rest)
         == PrintAll(PiecesOf(value)) + (if slash then "/" else "") + PrintAll(rest)
  {
    var sep := if slash then [Literal('/')] else [];
    SlashPrinted();
    NothingPrinted();
    hide PrintAll, PiecesOf;
    assert PiecesOf(value) + sep + rest == PiecesOf(value) + (sep + rest);
    PrintConcat(PiecesOf(value), sep + rest);
    PrintConcat(sep, rest);
  }

  lemma SlashPrinted()
    ensures PrintAll([Literal('/')]) == "/"
  {
    EscapeOne('/');
    PrintFirst(Literal('/'), []);
  }

  lemma NothingPrinted()
    ensures PrintAll([]) == ""
  {
  }

  /** What one segment adds to the text. */
  function SegmentText(segment: string, last: bool): string
    requires segment == STARS || NameSegment(segment)
  {
    if segment == STARS then "(?:[^/]+/)*" else PrintAll(PiecesOf(segment)) + if last then "" else "/"
  }

  lemma CompileStep(segments: seq<string>, index: nat)
    requires SegmentsAccepted(segments) && index < |segments|
    ensures PrintAll(Compile(segments[index..]))
         == SegmentText(segments[index], index == |segments| - 1) + PrintAll(Compile(segments[index + 1..]))
  {
    var rest := segments[index..];
    assert rest[1..] == segments[index + 1..] && rest[0] == segments[index] && |rest| == |segments| - index;
    if rest[0] == STARS { PrintFirst(Directories, Compile(rest[1..])); }
    else { PrintName(rest[0], |rest| > 1, Compile(rest[1..])); }
    hide PrintAll, PiecesOf;
  }

  /** The loop over the segments: the text between the anchors. */
  method CompileSegments(segments: seq<string>) returns (text: Option<string>)
    ensures text.Some? <==> SegmentsAccepted(segments)
    ensures text.Some? ==> text.value == PrintAll(Compile(segments))
  {
    hide PrintAll, PiecesOf, Compile, HasStars, AcceptedSegment;
    var source := "";
    var index := 0;
    assert segments[0..] == segments;
    while index < |segments|
      invariant 0 <= index <= |segments|
      invariant SegmentsAccepted(segments[..index])
      invariant SegmentsAccepted(segments) ==> PrintAll(Compile(segments)) == source + PrintAll(Compile(segments[index..]))
    {
      var segment := segments[index];
      if SegmentsAccepted(segments) { CompileStep(segments, index); }
      assert segments[..index + 1] == segments[..index] + [segment];
      if segment == STARS {
        source := source + "(?:[^/]+/)*";
      } else {
        if segment == "" || segment == "." || segment == ".." || HasStars(segment) { return None; }
        var part := GlobSegment(segment);
        if part.None? { return None; }
        source := source + part.value;
        if index < |segments| - 1 { source := source + "/"; }
      }
      index := index + 1;
    }
    assert segments[..index] == segments && segments[index..] == [];
    NothingCompiled();
    return Some(source);
  }

  lemma NothingCompiled()
    ensures PrintAll(Compile([])) == ""
  {
  }

  // ---------- matching files ----------

  /** The parts of `node:path` and of the regular-expression engine the compiler relies on. */
  datatype Host = Host(isAbsolute: string -> bool, relative: string -> string, test: (string, string) -> bool)

  /** Outside the root, or not a path relative to it at all. */
  predicate Escapes(host: Host, relativePattern: string) {
    Begins(relativePattern, "../") || relativePattern == ".." || host.isAbsolute(relativePattern)
  }

  predicate AcceptedPattern(host: Host, pattern: string) {
    && host.isAbsolute(pattern) && |pattern| <= 512
    && !Escapes(host, host.relative(pattern))
    && var segments := Split(host.relative(pattern), '/');
       |segments| <= 32 && StarsCount(segments) <= 1 && SegmentsAccepted(segments)
  }

  ghost predicate Selects(host: Host, pattern: string, path: string)
    requires AcceptedPattern(host, pattern)
  {
    PathMatches(Split(host.relative(pattern), '/'), Split(host.relative(path), '/'))
  }

  /** The paths a pattern selects, in their order. */
  ghost function Selected(host: Host, pattern: string, paths: seq<string>): seq<string>
    requires AcceptedPattern(host, pattern)
  {
    if paths == [] then []
    else (if Selects(host, pattern, paths[0]) then [paths[0]] else []) + Selected(host, pattern, paths[1..])
  }

  /** The indices of the paths that are selected, in increasing order. */
  ghost predicate Picks(host: Host, pattern: string, paths: seq<string>, at: seq<int>)
    requires AcceptedPattern(host, pattern)
  {
    && (forall i :: 0 <= i < |at| ==> 0 <= at[i] < |paths|)
    && (forall i, j :: 0 <= i < j < |at| ==> at[i] < at[j])
    && forall k :: 0 <= k < |paths| ==> (k in at <==> Selects(host, pattern, paths[k]))
  }

  /** The paths at these indices. */
  ghost predicate AreAt(found: seq<string>, paths: seq<string>, at: seq<int>) {
    |found| == |at| && forall i :: 0 <= i < |at| ==> 0 <= at[i] < |paths| && found[i] == paths[at[i]]
  }

  function Moved(rest: seq<int>): (moved: seq<int>)
    ensures |moved| == |rest| && forall i :: 0 <= i < |rest| ==> moved[i] == rest[i] + 1
  {
    seq(|rest|, i requires 0 <= i < |rest| => rest[i] + 1)
  }

  lemma MovedHolds(rest: seq<int>, k: int)
    ensures k in Moved(rest) <==> k - 1 in rest
  {
    if k - 1 in rest {
      var i :| 0 <= i < |rest| && rest[i] == k - 1;
      assert Moved(rest)[i] == k;
    }
  }

  lemma PicksMoved(host: Host, pattern: string, paths: seq<string>, rest: seq<int>)
    requires AcceptedPattern(host, pattern) && paths != [] && Picks(host, pattern, paths[1..], rest)
    ensures Picks(host, pattern, paths, if Selects(host, pattern, paths[0]) then [0] + Moved(rest) else Moved(rest))
  {
    hide Selects, AcceptedPattern, Moved;
    var at := if Selects(host, pattern, paths[0]) then [0] + Moved(rest) else Moved(rest);
    forall k | 0 <= k < |paths| ensures k in at <==> Selects(host, pattern, paths[k]) {
      MovedHolds(rest, k);
      if k > 0 { assert paths[1..][k - 1] == paths[k]; }
    }
  }

  lemma AreAtMoved(found: seq<string>, paths: seq<string>, rest: seq<int>)
    requires paths != [] && AreAt(found, paths[1..], rest)
    ensures AreAt(found, paths, Moved(rest)) && AreAt([paths[0]] + found, paths, [0] + Moved(rest))
  {
    hide Moved;
    forall i | 0 <= i < |rest| ensures 0 <= Moved(rest)[i] < |paths| && found[i] == paths[Moved(rest)[i]] {
      assert paths[1..][rest[i]] == paths[rest[i] + 1];
    }
  }

  /** Exactly the selected paths are returned, each as often as it is listed, in the order of the list. */
  lemma {:induction false} SelectedExactly(host: Host, pattern: string, paths: seq<string>) returns (at: seq<int>)
    requires AcceptedPattern(host, pattern)
    ensures Picks(host, pattern, paths, at) && AreAt(Selected(host, pattern, paths), paths, at)
  {
    hide Selects, AcceptedPattern, Moved;
    if paths == [] {
      at := [];
    } else {
      var rest := SelectedExactly(host, pattern, paths[1..]);
      hide Picks, AreAt;
      PicksMoved(host, pattern, paths, rest);
      AreAtMoved(Selected(host, pattern, paths[1..]), paths, rest);
      at := if Selects(host, pattern, paths[0]) then [0] + Moved(rest) else Moved(rest);
      assert [] + Selected(host, pattern, paths[1..]) == Selected(host, pattern, paths[1..]);
    }
  }

  /** What leaves the root: the parent itself, something below it, or no path relative to the root. */
  lemma EscapesExactly(host: Host, relativePattern: string)
    ensures Escapes(host, relativePattern) <==>
      || relativePattern == ".." || host.isAbsolute(relativePattern)
      || (|relativePattern| >= 3 && relativePattern[0] == '.' && relativePattern[1] == '.' && relativePattern[2] == '/')
  {
    assert |relativePattern| >= 3 ==> relativePattern[..3] == [relativePattern[0], relativePattern[1], relativePattern[2]];
  }

  /** The stars counted are the segments that are two stars. */
  lemma {:induction false} StarsAreCounted(segments: seq<string>)
    ensures StarsCount(segments) == multiset(segments)["**"]
  {
    if segments != [] {
      StarsAreCounted(segments[1..]);
      assert segments == [segments[0]] + segments[1..];
    }
  }

  lemma {:induction false} CompiledIsWritten(segments: seq<string>)
    requires SegmentsAccepted(segments)
    ensures AllWritten(Compile(segments))
  {
    if segments != [] {
      CompiledIsWritten(segments[1..]);
      if segments[0] != STARS { SegmentPieces(segments[0]); }
    }
  }

  /** Running the compiled text is matching the glob. */
  lemma TestedMeaning(host: Host, segments: seq<string>, s: string)
    requires RunsWritten(host.test) && SegmentsAccepted(segments) && segments != []
    ensures host.test(Anchored(Compile(segments)), s) <==> PathMatches(segments, Split(s, '/'))
  {
    CompiledIsWritten(segments);
    CompiledMeaning(segments, s);
  }

  /** Refuses exactly the patterns that are not accepted; otherwise selects, in order, exactly the paths the glob matches. */
  method MatchControllerGlob(host: Host, pattern: string, paths: seq<string>) returns (matches: Option<seq<string>>)
    requires RunsWritten(host.test)
    ensures matches.Some? <==> AcceptedPattern(host, pattern)
    ensures matches.Some? ==> exists at :: Picks(host, pattern, paths, at) && AreAt(matches.value, paths, at)
  {
    hide SegmentsAccepted, Split, Compile, PathMatches, RunsWritten;
    if !host.isAbsolute(pattern) || |pattern| > 512 { return None; }
    var relativePattern := host.relative(pattern);
    if Escapes(host, relativePattern) { return None; }
    var segments := Split(relativePattern, '/');
    if |segments| > 32 || StarsCount(segments) > 1 { return None; }
    var source := CompileSegments(segments);
    if source.None? { return None; }
    var text := "^" + source.value + "$";
    var found: seq<string> := [];
    var k := |paths|;
    while k > 0
      invariant 0 <= k <= |paths| && found == Selected(host, pattern, paths[k..])
    {
      k := k - 1;
      assert paths[k..] == [paths[k]] + paths[k + 1..];
      TestedMeaning(host, segments, host.relative(paths[k]));
      if host.test(text, host.relative(paths[k])) { found := [paths[k]] + found; }
    }
    assert paths[0..] == paths;
    ghost var at := SelectedExactly(host, pattern, paths);
    return Some(found);
  }
}
