/** JSON Pointer tokens (RFC 6901, sections 3 and 4) and the two replacement passes that implement them. */
module JsonPointer {
  import opened JsonValues

  /** `text.replaceAll(pattern, replacement)`. */
  function ReplaceAll(text: string, pattern: string, replacement: string): string
    requires pattern != []
    decreases |text|
  {
    if |text| < |pattern| then text
    else if pattern == text[..|pattern|] then replacement + ReplaceAll(text[|pattern|..], pattern, replacement)
    else [text[0]] + ReplaceAll(text[1..], pattern, replacement)
  }

  /** Section 3: a key as a reference token. */
  function Escape(key: string): string {
    ReplaceAll(ReplaceAll(key, "~", "~0"), "/", "~1")
  }

  /** Section 4: a reference token as a key. */
  function Unescape(token: string): string {
    ReplaceAll(ReplaceAll(token, "~1", "/"), "~0", "~")
  }

  /** No stray tilde: `/~(?![01])/` finds nothing. */
  predicate TildesEscaped(token: string) {
    forall i :: 0 <= i < |token| && token[i] == '~' ==>
      i + 1 < |token| && (token[i + 1] == '0' || token[i + 1] == '1')
  }

  /** The reference tokens the resolvers follow. */
  predicate AcceptedToken(token: string) {
    && token != []
    && '/' !in token
    && '%' !in token
    && TildesEscaped(token)
  }

  // Character-wise definitions.

  function EscapeEach(key: string): (token: string)
    ensures '/' !in token
    ensures TildesEscaped(token)
    ensures token == [] <==> key == []
  {
    if key == [] then ""
    else (if key[0] == '~' then "~0" else if key[0] == '/' then "~1" else [key[0]]) + EscapeEach(key[1..])
  }

  function UnescapeEach(token: string): string
    requires TildesEscaped(token)
    decreases |token|
  {
    if token == [] then ""
    else if token[0] == '~' then
      assert |token| >= 2;
      [if token[1] == '0' then '~' else '/'] + UnescapeEach(token[2..])
    else [token[0]] + UnescapeEach(token[1..])
  }

  lemma {:induction false} EscapeIsEach(key: string)
    ensures Escape(key) == EscapeEach(key)
  {
    if key != [] {
      EscapeIsEach(key[1..]);
      var first := ReplaceAll(key, "~", "~0");
      var rest := ReplaceAll(key[1..], "~", "~0");
      if key[0] == '~' {
        assert key[..1] == "~";
        assert first == "~0" + rest;
        ReplaceStep(first, "/", "~1");
        assert first[1..] == "0" + rest;
        ReplaceStep(first[1..], "/", "~1");
        assert first[1..][1..] == rest;
      } else {
        assert key[..1] == [key[0]] && key[..1] != "~";
        assert first == [key[0]] + rest;
        assert first[1..] == rest && first[..1] == [key[0]];
      }
    }
  }

  /** Character by character: a tilde becomes `~0`, a slash `~1`, and everything else stays. */
  lemma EscapeCharacters(c: char, key: string)
    ensures Escape("") == ""
    ensures Escape([c] + key) == (if c == '~' then "~0" else if c == '/' then "~1" else [c]) + Escape(key)
  {
    EscapeIsEach([c] + key);
    EscapeIsEach(key);
    assert ([c] + key)[1..] == key;
  }

  lemma ReplaceStep(text: string, pattern: string, replacement: string)
    requires |pattern| == 1 && text != [] && text[0] != pattern[0]
    ensures ReplaceAll(text, pattern, replacement) == [text[0]] + ReplaceAll(text[1..], pattern, replacement)
  {
    assert text[..1] == [text[0]];
  }

  /** `~1` at the front. */
  lemma SlashFirst(token: string)
    requires |token| >= 2 && token[0] == '~' && token[1] == '1'
    ensures Unescape(token) == "/" + Unescape(token[2..])
  {
    var rest := ReplaceAll(token[2..], "~1", "/");
    assert token[..2] == "~1";
    assert ReplaceAll(token, "~1", "/") == ['/'] + rest;
    SecondPassKeeps('/', rest);
  }

  /** `~0` at the front. */
  lemma TildeFirst(token: string)
    requires |token| >= 2 && token[0] == '~' && token[1] == '0'
    ensures Unescape(token) == "~" + Unescape(token[2..])
  {
    var rest := ReplaceAll(token[2..], "~1", "/");
    assert token[..2] == "~0" && token[..2] != "~1" by { assert token[..2][1] == '0'; }
    assert ReplaceAll(token, "~1", "/") == ['~'] + ReplaceAll(token[1..], "~1", "/");
    assert token[1..][0] == '0' && token[1..][1..] == token[2..];
    FirstPassKeeps(token[1..]);
    var first := ReplaceAll(token, "~1", "/");
    assert first == "~0" + rest;
    assert first[..2] == "~0" && first[2..] == rest;
  }

  lemma {:induction false} UnescapeIsEach(token: string)
    requires TildesEscaped(token)
    ensures Unescape(token) == UnescapeEach(token)
    decreases |token|
  {
    if token == [] {
    } else if token[0] == '~' {
      var tail := token[2..];
      assert forall i :: 0 <= i < |tail| ==> tail[i] == token[i + 2];
      UnescapeIsEach(tail);
      hide Unescape;
      if token[1] == '1' { SlashFirst(token); } else { TildeFirst(token); }
    } else {
      var tail := token[1..];
      assert forall i :: 0 <= i < |tail| ==> tail[i] == token[i + 1];
      UnescapeIsEach(tail);
      FirstPassKeeps(token);
      SecondPassKeeps(token[0], ReplaceAll(tail, "~1", "/"));
    }
  }

  lemma FirstPassKeeps(token: string)
    requires token != [] && token[0] != '~'
    ensures ReplaceAll(token, "~1", "/") == [token[0]] + ReplaceAll(token[1..], "~1", "/")
  {
    if |token| >= 2 { assert token[..2][0] != "~1"[0]; }
    else { assert token == [token[0]] && token[1..] == []; }
  }

  lemma SecondPassKeeps(c: char, rest: string)
    requires c != '~'
    ensures ReplaceAll([c] + rest, "~0", "~") == [c] + ReplaceAll(rest, "~0", "~")
  {
    var text := [c] + rest;
    assert text[1..] == rest;
    if |text| >= 2 { assert text[..2][0] != "~0"[0]; }
  }

  /** Reading a written token gives the key back. */
  lemma {:induction false} UnescapeEscape(key: string)
    ensures Unescape(Escape(key)) == key
  {
    EscapeIsEach(key);
    UnescapeIsEach(EscapeEach(key));
    EachRoundTrip(key);
  }

  lemma {:induction false} EachRoundTrip(key: string)
    ensures UnescapeEach(EscapeEach(key)) == key
  {
    if key != [] {
      EachRoundTrip(key[1..]);
      var token := EscapeEach(key);
      if key[0] == '~' || key[0] == '/' {
        assert token[2..] == EscapeEach(key[1..]);
      } else {
        assert token[1..] == EscapeEach(key[1..]);
      }
      assert key == [key[0]] + key[1..];
    }
  }

  /** Writing the key of an accepted token gives the token back, so a token is determined by its key. */
  lemma {:induction false} EscapeUnescape(token: string)
    requires '/' !in token && TildesEscaped(token)
    ensures Escape(Unescape(token)) == token
  {
    UnescapeIsEach(token);
    EscapeIsEach(UnescapeEach(token));
    EachInverse(token);
  }

  lemma {:induction false} EachInverse(token: string)
    requires '/' !in token && TildesEscaped(token)
    ensures EscapeEach(UnescapeEach(token)) == token
    decreases |token|
  {
    if token != [] {
      var step := if token[0] == '~' then 2 else 1;
      var tail := token[step..];
      assert forall i :: 0 <= i < |tail| ==> tail[i] == token[i + step];
      EachInverse(tail);
      var key := UnescapeEach(token);
      assert key[1..] == UnescapeEach(tail);
      assert token == token[..step] + tail;
    }
  }
}
