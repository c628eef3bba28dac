/** The fields of the AST protocol: texts in base64url, lists joined with NUL, positive decimals. */
module JavaFields {
  import opened JsonValues
  import opened Strings
  import opened Unicode
  import Utf8
  import Base64Url

  // ---------- texts ----------

  /** The printer: Java encodes a stray surrogate as a question mark. */
  function EncodeField(text: Text): string {
    Base64Url.Encode(Utf8.Encode(Scalars(text, '?')))
  }

  /** The parser: canonical base64url of valid UTF-8. */
  function DecodeField(value: string): Option<string> {
    var bytes := Base64Url.Decode(value);
    if bytes.None? then None
    else
      var decoded := Utf8.Decode(bytes.value);
      if decoded.None? then None else Some(StripBom(decoded.value))
  }

  /** A text as it arrives. */
  function Seen(text: Text): Text {
    Units(StripBom(Scalars(text, '?')))
  }

  /** A text that arrives as it was sent: no stray surrogate, and not starting with a byte order mark. */
  predicate Faithful(text: Text) {
    IsWellFormed(text) && !(text != [] && text[0] == 0xFEFF)
  }

  lemma FieldArrives(text: Text)
    ensures DecodeField(EncodeField(text)) == Some(StripBom(Scalars(text, '?')))
  {
    Base64Url.RoundTrip(Utf8.Encode(Scalars(text, '?')));
    Utf8.RoundTrip(Scalars(text, '?'));
  }

  /** Every field the parser accepts is the one canonical form of some bytes, and these are the UTF-8 of a text. */
  lemma OnlyCanonicalFields(value: string)
    requires DecodeField(value).Some?
    ensures exists s :: value == Base64Url.Encode(Utf8.Encode(s)) && DecodeField(value) == Some(StripBom(s))
  {
    Base64Url.AcceptsOnlyCanonical(value);
    var bytes := Base64Url.Decode(value).value;
    Utf8.Canonical(bytes);
    assert value == Base64Url.Encode(Utf8.Encode(Utf8.Decode(bytes).value));
  }

  lemma FirstScalar(text: Text)
    requires IsWellFormed(text) && text != []
    ensures Scalars(text, '?') != "" && (Scalars(text, '?')[0] == BOM <==> text[0] == 0xFEFF)
    ensures text[0] == 0xFEFF ==> Scalars(text, '?')[1..] == Scalars(text[1..], '?') && IsWellFormed(text[1..])
  {
  }

  /** The field round trip holds exactly for faithful texts. */
  lemma SeenExactly(text: Text)
    ensures Seen(text) == text <==> Faithful(text)
  {
    WellFormedRoundTrip(text, '?');
    UnitsWellFormed(StripBom(Scalars(text, '?')), '?');
    if IsWellFormed(text) && text != [] {
      FirstScalar(text);
      if text[0] == 0xFEFF { WellFormedRoundTrip(text[1..], '?'); }
    }
  }

  // ---------- lists ----------

  /** `String.join("\0", values)`. */
  function Joined(values: seq<Text>): Text {
    if values == [] then []
    else if |values| == 1 then values[0]
    else values[0] + [0] + Joined(values[1..])
  }

  function ScalarsOf(values: seq<Text>): (r: seq<string>)
    ensures |r| == |values|
    ensures forall i :: 0 <= i < |r| ==> r[i] == Scalars(values[i], '?')
  {
    if values == [] then [] else [Scalars(values[0], '?')] + ScalarsOf(values[1..])
  }

  function TextsOf(values: seq<string>): (r: seq<Text>)
    ensures |r| == |values|
    ensures forall i :: 0 <= i < |r| ==> r[i] == Units(values[i])
  {
    if values == [] then [] else [Units(values[0])] + TextsOf(values[1..])
  }

  /** `null` prints like an empty list. */
  function EncodeList(values: Option<seq<Text>>): string {
    EncodeField(if values.None? then [] else Joined(values.value))
  }

  function ReadList(s: string): seq<Text> {
    if s == "" then [] else TextsOf(Split(s, NUL))
  }

  lemma {:induction false} ScalarsAround(a: Text, b: Text)
    ensures Scalars(a + [0] + b, '?') == Scalars(a, '?') + [NUL] + Scalars(b, '?')
  {
    var all := a + [0] + b;
    if a == [] {
      assert all[0] == 0 && all[1..] == b;
    } else if Paired(a) {
      assert all[2..] == a[2..] + [0] + b && all[0] == a[0] && all[1] == a[1];
      ScalarsAround(a[2..], b);
    } else {
      assert all[1..] == a[1..] + [0] + b && all[0] == a[0];
      assert |a| >= 2 ==> all[1] == a[1];
      assert !Paired(all);
      ScalarsAround(a[1..], b);
    }
  }

  lemma {:induction false} JoinedScalars(values: seq<Text>)
    ensures Scalars(Joined(values), '?') == Join(ScalarsOf(values), NUL)
  {
    if |values| > 1 {
      JoinedScalars(values[1..]);
      ScalarsAround(values[0], Joined(values[1..]));
      assert ScalarsOf(values)[1..] == ScalarsOf(values[1..]);
    }
  }

  predicate NulFree(values: seq<Text>) {
    forall i :: 0 <= i < |values| ==> forall k :: 0 <= k < |values[i]| ==> values[i][k] != 0
  }

  lemma {:induction false} ScalarsNulFree(text: Text)
    requires forall k :: 0 <= k < |text| ==> text[k] != 0
    ensures Without(Scalars(text, '?'), NUL)
  {
    if text != [] {
      if Paired(text) { ScalarsNulFree(text[2..]); } else { ScalarsNulFree(text[1..]); }
    }
  }

  lemma JoinedSplit(values: seq<Text>)
    requires values != [] && NulFree(values)
    ensures Split(Scalars(Joined(values), '?'), NUL) == ScalarsOf(values)
  {
    JoinedScalars(values);
    forall i | 0 <= i < |values| ensures Without(ScalarsOf(values)[i], NUL) { ScalarsNulFree(values[i]); }
    SplitJoin(ScalarsOf(values), NUL);
  }

  function SeenList(values: Option<seq<Text>>): seq<Text> {
    ReadList(StripBom(Scalars(if values.None? then [] else Joined(values.value), '?')))
  }

  function Expected(values: Option<seq<Text>>): seq<Text> {
    if values.None? then [] else values.value
  }

  /** A list that arrives as it was sent: well-formed texts, the first not starting with a mark, and not just one empty text. */
  ghost predicate FaithfulList(values: Option<seq<Text>>) {
    values.None? ||
    ((forall i :: 0 <= i < |values.value| ==> IsWellFormed(values.value[i]))
     && values.value != [[]]
     && (values.value != [] && values.value[0] != [] ==> values.value[0][0] != 0xFEFF))
  }

  lemma ListArrives(values: Option<seq<Text>>)
    ensures DecodeField(EncodeList(values)).Some? && ReadList(DecodeField(EncodeList(values)).value) == SeenList(values)
  {
    FieldArrives(if values.None? then [] else Joined(values.value));
  }

  lemma ReadWellFormed(s: string)
    ensures forall i :: 0 <= i < |ReadList(s)| ==> IsWellFormed(ReadList(s)[i])
  {
    forall i | 0 <= i < |ReadList(s)| ensures IsWellFormed(ReadList(s)[i]) { UnitsWellFormed(Split(s, NUL)[i], '?'); }
  }

  lemma AllRestored(values: seq<Text>)
    requires forall i :: 0 <= i < |values| ==> IsWellFormed(values[i])
    ensures TextsOf(ScalarsOf(values)) == values
  {
    forall i | 0 <= i < |values| ensures TextsOf(ScalarsOf(values))[i] == values[i] { WellFormedRoundTrip(values[i], '?'); }
  }

  lemma SplitHead(s: string, c: char)
    requires s != "" && s[0] != c
    ensures Split(s, c)[0] != "" && Split(s, c)[0][0] == s[0]
    ensures Split(s[1..], c) == [Split(s, c)[0][1..]] + Split(s, c)[1..]
  {
    var i := IndexOf(s, c);
    assert IndexOf(s[1..], c) == i - 1 by {
      if i < |s| { assert s[1..][i - 1] == c; }
      assert forall k :: 0 <= k < i - 1 ==> s[1..][k] == s[k + 1];
    }
    if i < |s| {
      assert s[1..][..i - 1] == s[..i][1..] && s[1..][i..] == s[i + 1..];
    }
  }

  lemma StartsSame(values: seq<Text>)
    requires values != [] && NulFree(values) && IsWellFormed(values[0]) && values != [[]]
    ensures Scalars(Joined(values), '?') != ""
    ensures Scalars(Joined(values), '?')[0] == BOM <==> values[0] != [] && values[0][0] == 0xFEFF
  {
    JoinedScalars(values);
    var joined := Join(ScalarsOf(values), NUL);
    if values[0] != [] { FirstScalar(values[0]); }
    if |values| > 1 { assert joined == Scalars(values[0], '?') + [NUL] + Join(ScalarsOf(values)[1..], NUL); }
  }

  /** The list round trip holds exactly for faithful lists. */
  lemma ListSeenExactly(values: seq<Text>)
    requires values != [] && NulFree(values)
    ensures SeenList(Some(values)) == values <==> FaithfulList(Some(values))
  {
    var s := Scalars(Joined(values), '?');
    ReadWellFormed(StripBom(s));
    if values == [[]] {
      assert s == "";
    } else if forall i :: 0 <= i < |values| ==> IsWellFormed(values[i]) {
      StartsSame(values);
      JoinedSplit(values);
      AllRestored(values);
      if s[0] == BOM { MarkIsLost(values); }
    }
  }

  lemma MarkIsLost(values: seq<Text>)
    requires values != [] && NulFree(values) && Split(Scalars(Joined(values), '?'), NUL) == ScalarsOf(values)
    requires Scalars(Joined(values), '?') != "" && Scalars(Joined(values), '?')[0] == BOM
    requires TextsOf(ScalarsOf(values)) == values
    ensures ReadList(Scalars(Joined(values), '?')[1..]) != values
  {
    var s := Scalars(Joined(values), '?');
    SplitHead(s, NUL);
    var first := ScalarsOf(values)[0];
    if s[1..] != "" {
      assert ReadList(s[1..])[0] == Units(first[1..]);
      UnitsStep(first);
    }
  }

  lemma UnitsStep(s: string)
    requires s != "" && s[0] == BOM
    ensures |Units(s)| == |Units(s[1..])| + 1
  {
  }
}
