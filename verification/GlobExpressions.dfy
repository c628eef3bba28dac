/** Regular expressions as the glob compiler writes them: their text, how the text reads, and what it matches. */
module GlobExpressions {
  import opened JsonValues
  import opened Strings

  /** One atom of an expression: a literal, `[^/]*`, `(?:a|b)` over literals, or `(?:[^/]+/)*`. */
  datatype Piece = Literal(c: char) | AnyRun | OneOf(options: seq<string>) | Directories

  // ---------- text ----------

  /** The characters `escape` puts a backslash before. */
  predicate Special(c: char) {
    c in "\\^$+?.()|[]{}"
  }

  function Escape(value: string): string {
    if value == "" then "" else (if Special(value[0]) then ['\\', value[0]] else [value[0]]) + Escape(value[1..])
  }

  function EscapeAll(options: seq<string>): (r: seq<string>)
    ensures |r| == |options|
  {
    if options == [] then [] else [Escape(options[0])] + EscapeAll(options[1..])
  }

  const ANY_RUN := "[^/]*"
  const DIRECTORIES := "(?:[^/]+/)*"

  function Print(piece: Piece): string {
    match piece
    case Literal(c) => Escape([c])
    case AnyRun => ANY_RUN
    case OneOf(options) => "(?:" + Join(EscapeAll(options), '|') + ")"
    case Directories => DIRECTORIES
  }

  function PrintAll(pieces: seq<Piece>): string {
    if pieces == [] then "" else Print(pieces[0]) + PrintAll(pieces[1..])
  }

  lemma {:induction false} PrintConcat(a: seq<Piece>, b: seq<Piece>)
    ensures PrintAll(a + b) == PrintAll(a) + PrintAll(b)
  {
    if a == [] {
      assert a + b == b;
    } else {
      assert (a + b)[1..] == a[1..] + b;
      PrintConcat(a[1..], b);
    }
  }

  // ---------- meaning ----------

  /** `(?:[^/]+/)*`: non-empty names, each closed by a slash. */
  ghost predicate IsDirectories(s: string)
    decreases |s|
  {
    s == "" || exists i :: 0 < i < |s| && s[i] == '/' && Without(s[..i], '/') && IsDirectories(s[i + 1..])
  }

  /** The whole of a text is matched by the atoms in turn. */
  ghost predicate Matches(pieces: seq<Piece>, s: string)
    decreases |pieces|
  {
    if pieces == [] then s == ""
    else
      match pieces[0]
      case Literal(c) => s != "" && s[0] == c && Matches(pieces[1..], s[1..])
      case AnyRun => exists k :: 0 <= k <= |s| && Without(s[..k], '/') && Matches(pieces[1..], s[k..])
      case OneOf(options) => exists i :: 0 <= i < |options| && Begins(s, options[i]) && Matches(pieces[1..], s[|options[i]|..])
      case Directories => exists k :: 0 <= k <= |s| && IsDirectories(s[..k]) && Matches(pieces[1..], s[k..])
  }

  // ---------- reading a text ----------

  predicate Plain(c: char) {
    !Special(c) && c != '*' && c != '/'
  }

  /** An alternation, up to its closing parenthesis. */
  function ReadGroup(text: string): (r: Option<(Piece, string)>)
    ensures r.Some? ==> |r.value.1| < |text|
  {
    var end := IndexOf(text, ')');
    if 3 <= end < |text| then
      var options := ReadOptions(Split(text[3..end], '|'));
      if options.Some? then Some((OneOf(options.value), text[end + 1..])) else None
    else None
  }

  /** The first atom of a text in this subset of the RegExp syntax, and the text after it. */
  function ReadOne(text: string): (r: Option<(Piece, string)>)
    ensures r.Some? ==> |r.value.1| < |text|
  {
    if Begins(text, ANY_RUN) then Some((AnyRun, text[|ANY_RUN|..]))
    else if Begins(text, DIRECTORIES) then Some((Directories, text[|DIRECTORIES|..]))
    else if Begins(text, "(?:") then ReadGroup(text)
    else if |text| >= 2 && text[0] == '\\' && Special(text[1]) then Some((Literal(text[1]), text[2..]))
    else if text != "" && (Plain(text[0]) || text[0] == '/') then Some((Literal(text[0]), text[1..]))
    else None
  }

  function ReadLiteral(text: string): Option<string> {
    if text == "" then Some("")
    else if |text| >= 2 && text[0] == '\\' && Special(text[1]) then
      var rest := ReadLiteral(text[2..]);
      if rest.Some? then Some([text[1]] + rest.value) else None
    else if Plain(text[0]) then
      var rest := ReadLiteral(text[1..]);
      if rest.Some? then Some([text[0]] + rest.value) else None
    else None
  }

  function ReadOptions(parts: seq<string>): (r: Option<seq<string>>) {
    if parts == [] then Some([])
    else
      var first := ReadLiteral(parts[0]);
      var rest := ReadOptions(parts[1..]);
      if first.Some? && rest.Some? then Some([first.value] + rest.value) else None
  }

  function ReadAll(text: string): Option<seq<Piece>>
    decreases |text|
  {
    if text == "" then Some([])
    else
      var first := ReadOne(text);
      if first.None? then None
      else
        var rest := ReadAll(first.value.1);
        if rest.Some? then Some([first.value.0] + rest.value) else None
  }

  /** What an anchored text of this subset of the RegExp syntax accepts; nothing is said about other texts. */
  ghost predicate Tests(text: string, s: string) {
    && |text| >= 2 && text[0] == '^' && text[|text| - 1] == '$'
    && ReadAll(text[1..|text| - 1]).Some?
    && Matches(ReadAll(text[1..|text| - 1]).value, s)
  }

  /** The atoms the compiler writes. */
  ghost predicate Written(piece: Piece) {
    match piece
    case Literal(c) => c != '*'
    case OneOf(options) => |options| > 0 && forall i :: 0 <= i < |options| ==> IsOption(options[i])
    case _ => true
  }

  ghost predicate AllWritten(pieces: seq<Piece>) {
    forall i :: 0 <= i < |pieces| ==> Written(pieces[i])
  }

  function Anchored(pieces: seq<Piece>): string {
    "^" + PrintAll(pieces) + "$"
  }

  /** An engine that gives the texts the compiler writes their meaning; on other texts it may do as it likes. */
  ghost predicate RunsWritten(test: (string, string) -> bool) {
    forall pieces, s :: AllWritten(pieces) ==> (test(Anchored(pieces), s) <==> Matches(pieces, s))
  }

  predicate IsScript(s: string) {
    2 <= |s| <= 3 && (s[0] == 'j' || s[0] == 't') && s[1] == 's' && (|s| == 3 ==> s[2] == 'x')
  }

  /** `/^\.[cm]?[jt]sx?$/`. */
  predicate IsOption(s: string) {
    |s| >= 2 && s[0] == '.' && IsScript(if s[1] == 'c' || s[1] == 'm' then s[2..] else s[1..])
  }

  lemma OptionShape(s: string)
    requires IsOption(s)
    ensures s != "" && s[0] == '.' && forall i :: 1 <= i < |s| ==> 'a' <= s[i] <= 'z'
  {
    var tail := if s[1] == 'c' || s[1] == 'm' then s[2..] else s[1..];
    assert forall i :: 0 <= i < |tail| ==> 'a' <= tail[i] <= 'z';
    forall i | 1 <= i < |s| ensures 'a' <= s[i] <= 'z' {
      if i >= |s| - |tail| { assert s[i] == tail[i - (|s| - |tail|)]; }
    }
  }

  lemma EscapeOne(c: char)
    ensures Escape([c]) == if Special(c) then ['\\', c] else [c]
  {
    assert [c][1..] == "";
  }

  lemma {:induction false} PlainEscape(s: string)
    requires forall i :: 0 <= i < |s| ==> Plain(s[i]) && s[i] != '\\'
    ensures Escape(s) == s && ReadLiteral(s) == Some(s)
  {
    if s != "" {
      PlainEscape(s[1..]);
      assert s == [s[0]] + s[1..];
    }
  }

  lemma LettersArePlain(s: string)
    requires forall i :: 0 <= i < |s| ==> 'a' <= s[i] <= 'z'
    ensures forall i :: 0 <= i < |s| ==> Plain(s[i]) && s[i] != '\\'
    ensures Without(s, ')') && Without(s, '|')
  {
  }

  lemma OptionText(s: string)
    requires IsOption(s)
    ensures Escape(s) == "\\" + s && ReadLiteral(Escape(s)) == Some(s)
    ensures Without(Escape(s), ')') && Without(Escape(s), '|')
  {
    OptionShape(s);
    LettersArePlain(s[1..]);
    PlainEscape(s[1..]);
    assert s == [s[0]] + s[1..];
    hide IsOption;
    assert Escape(s) == ['\\', '.'] + s[1..];
    assert Escape(s)[2..] == s[1..];
  }

  lemma {:induction false} OptionTexts(options: seq<string>)
    requires forall i :: 0 <= i < |options| ==> IsOption(options[i])
    ensures ReadOptions(EscapeAll(options)) == Some(options)
    ensures forall i :: 0 <= i < |options| ==> Without(EscapeAll(options)[i], '|') && Without(EscapeAll(options)[i], ')')
  {
    hide IsOption, Escape, ReadLiteral;
    if options != [] {
      OptionText(options[0]);
      OptionTexts(options[1..]);
      assert options == [options[0]] + options[1..];
    }
  }

  lemma {:induction false} JoinWithout(parts: seq<string>, c: char, d: char)
    requires c != d && forall i :: 0 <= i < |parts| ==> Without(parts[i], d)
    ensures Without(Join(parts, c), d)
  {
    if |parts| > 1 { JoinWithout(parts[1..], c, d); }
  }

  lemma NotBegins(text: string, prefix: string, k: nat)
    requires k < |text| && k < |prefix| && text[k] != prefix[k]
    ensures !Begins(text, prefix)
  {
  }

  lemma ReadRun(rest: string)
    ensures ReadOne(ANY_RUN + rest) == Some((AnyRun, rest))
  {
    assert (ANY_RUN + rest)[..|ANY_RUN|] == ANY_RUN && (ANY_RUN + rest)[|ANY_RUN|..] == rest;
  }

  lemma ReadDirectories(rest: string)
    ensures ReadOne(DIRECTORIES + rest) == Some((Directories, rest))
  {
    var text := DIRECTORIES + rest;
    assert text[..|DIRECTORIES|] == DIRECTORIES && text[|DIRECTORIES|..] == rest;
    NotBegins(text, ANY_RUN, 0);
  }

  lemma ReadChar(c: char, rest: string)
    requires c != '*'
    ensures ReadOne(Escape([c]) + rest) == Some((Literal(c), rest))
  {
    EscapeOne(c);
    var text := Escape([c]) + rest;
    assert text[0] == if Special(c) then '\\' else c;
    NotBegins(text, ANY_RUN, 0);
    NotBegins(text, DIRECTORIES, 0);
    NotBegins(text, "(?:", 0);
    hide Escape, Begins;
  }

  lemma ReadPiece(piece: Piece, rest: string)
    requires Written(piece)
    ensures ReadOne(Print(piece) + rest) == Some((piece, rest))
  {
    match piece
    case Literal(c) => ReadChar(c, rest);
    case AnyRun => ReadRun(rest);
    case Directories => ReadDirectories(rest);
    case OneOf(options) => ReadOneOf(options, rest);
  }

  lemma GroupEnd(joined: string, rest: string)
    requires Without(joined, ')')
    ensures var text := "(?:" + joined + ")" + rest; var end := 3 + |joined|;
      IndexOf(text, ')') == end && text[3..end] == joined && text[end + 1..] == rest
  {
    var text, end := "(?:" + joined + ")" + rest, 3 + |joined|;
    assert text[end] == ')';
    forall k | 0 <= k < end ensures text[k] != ')' {
      if k >= 3 { assert text[k] == joined[k - 3]; }
    }
  }

  lemma GroupStart(joined: string, rest: string)
    requires joined != "" && joined[0] == '\\'
    ensures var text := "(?:" + joined + ")" + rest;
      Begins(text, "(?:") && !Begins(text, ANY_RUN) && !Begins(text, DIRECTORIES)
  {
    var text := "(?:" + joined + ")" + rest;
    assert text[0] == '(' && text[3] == '\\';
    NotBegins(text, ANY_RUN, 0);
    NotBegins(text, DIRECTORIES, 3);
  }

  lemma ReadOneOf(options: seq<string>, rest: string)
    requires Written(OneOf(options))
    ensures ReadOne(Print(OneOf(options)) + rest) == Some((OneOf(options), rest))
  {
    var parts := EscapeAll(options);
    var joined := Join(parts, '|');
    OptionTexts(options);
    JoinWithout(parts, '|', ')');
    SplitJoin(parts, '|');
    OptionText(options[0]);
    JoinStart(parts, '|');
    hide Join, Split, EscapeAll, Escape, ReadOptions, IsOption, ReadLiteral, Special, Begins, IndexOf;
    GroupEnd(joined, rest);
    GroupStart(joined, rest);
  }

  lemma JoinStart(parts: seq<string>, c: char)
    requires parts != [] && parts[0] != ""
    ensures Join(parts, c) != "" && Join(parts, c)[0] == parts[0][0]
  {
  }

  /** What the compiler writes reads back as what it meant. */
  lemma {:induction false} ReadPrinted(pieces: seq<Piece>)
    requires AllWritten(pieces)
    ensures ReadAll(PrintAll(pieces)) == Some(pieces)
  {
    hide Written, Print, ReadOne;
    if pieces != [] {
      ReadPiece(pieces[0], PrintAll(pieces[1..]));
      ReadPrinted(pieces[1..]);
      assert pieces == [pieces[0]] + pieces[1..];
      PrintedSomething(pieces[0], PrintAll(pieces[1..]));
    }
  }

  lemma PrintedSomething(piece: Piece, rest: string)
    requires Written(piece)
    ensures Print(piece) + rest != ""
  {
    if piece.Literal? { EscapeOne(piece.c); }
  }

  /** Reading the anchored text back gives the atoms it was written from. */
  lemma TestsWritten(pieces: seq<Piece>, s: string)
    requires AllWritten(pieces)
    ensures Tests(Anchored(pieces), s) <==> Matches(pieces, s)
  {
    var text := Anchored(pieces);
    assert text[1..|text| - 1] == PrintAll(pieces);
    ReadPrinted(pieces);
  }

  /** No two lists of atoms with different meanings are written alike, so there is such an engine: one that reads the text. */
  lemma SomeEngineRunsWritten()
    ensures exists test :: RunsWritten(test)
  {
    var reading: (string, string) -> bool := (text, s) => Tests(text, s);
    forall pieces, s | AllWritten(pieces) ensures reading(Anchored(pieces), s) <==> Matches(pieces, s) {
      TestsWritten(pieces, s);
    }
    assert RunsWritten(reading);
  }
}
