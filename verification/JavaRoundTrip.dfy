/** The parser undoes the printer, exactly for the records whose texts survive the trip. */
module JavaRoundTrip {
  import opened JsonValues
  import opened Strings
  import opened Unicode
  import opened JavaFields
  import opened Decimals
  import opened JavaProtocol
  import Utf8
  import Base64Url

  /** Characters that need no care in a line. */
  predicate Inline(c: char) {
    c != '\t' && c != '\n' && c != '\r'
  }

  predicate InlineText(s: string) {
    forall i :: 0 <= i < |s| ==> Inline(s[i])
  }

  lemma SymbolsAreInline(s: string)
    requires Base64Url.AllSymbols(s)
    ensures InlineText(s)
  {
  }

  lemma FieldIsInline(text: Text)
    ensures InlineText(EncodeField(text))
  {
    Base64Url.LooseRoundTrip(Utf8.Encode(Scalars(text, '?')));
    SymbolsAreInline(EncodeField(text));
  }

  lemma VerbIsInline(verb: string)
    requires verb in METHODS
    ensures InlineText(verb)
  {
  }

  lemma {:induction false} DecimalIsInline(n: nat)
    ensures InlineText(DecimalText(n))
  {
  }

  lemma FieldsAreInline(r: JavaRecord, sources: nat)
    requires Printable(r, sources)
    ensures forall i :: 0 <= i < |FieldsOf(r)| ==> InlineText(FieldsOf(r)[i])
  {
    match r
    case JavaDiagnostic(index, line, code) =>
      DecimalIsInline(index);
      DecimalIsInline(line);
      hide DecimalText;
    case JavaRoute(index, numbers, verb, prefix, suffix, headers, consumes, produces, handler) =>
      DecimalIsInline(index);
      VerbIsInline(verb);
      FieldIsInline(prefix);
      FieldIsInline(suffix);
      FieldIsInline(if headers.None? then [] else Joined(headers.value));
      FieldIsInline(if consumes.None? then [] else Joined(consumes.value));
      FieldIsInline(if produces.None? then [] else Joined(produces.value));
      FieldIsInline(handler);
      forall i | 0 <= i < |numbers| ensures InlineText(DecimalTexts(numbers)[i]) { DecimalIsInline(numbers[i]); }
      RouteFields(r);
      hide DecimalText, DecimalTexts, EncodeField, InlineText, FieldsOf;
      var parts := FieldsOf(r);
      forall i | 0 <= i < |parts| ensures InlineText(parts[i]) {
        if 2 <= i < 8 { assert parts[i] == DecimalTexts(numbers)[i - 2]; }
      }
      assert InlineText(parts[0]) by { assert InlineText("R") by { ShortIsInline(); } }
  }

  lemma ShortIsInline()
    ensures InlineText("R") && InlineText("D")
  {
  }

  // ---------- one line ----------

  lemma {:induction false} JoinInline(parts: seq<string>, c: char)
    requires c != '\n' && c != '\r' && parts != [] && forall i :: 0 <= i < |parts| ==> InlineText(parts[i])
    ensures forall i :: 0 <= i < |Join(parts, c)| ==> Join(parts, c)[i] != '\n' && Join(parts, c)[i] != '\r'
  {
    if |parts| > 1 { JoinInline(parts[1..], c); }
  }

  lemma FieldsNotEmpty(r: JavaRecord, sources: nat)
    requires Printable(r, sources)
    ensures |FieldsOf(r)| > 1 && FieldsOf(r)[0] == if r.JavaDiagnostic? then "D" else "R"
    ensures |FieldsOf(r)| == if r.JavaDiagnostic? then 4 else 15
  {
    if r.JavaRoute? { RouteFields(r); }
  }

  lemma LineFacts(r: JavaRecord, sources: nat)
    requires Printable(r, sources)
    ensures PrintRecord(r) != "" && Split(PrintRecord(r), '\t') == FieldsOf(r)
    ensures Without(PrintRecord(r), '\n') && Without(PrintRecord(r), '\r')
  {
    FieldsAreInline(r, sources);
    FieldsNotEmpty(r, sources);
    JoinInline(FieldsOf(r), '\t');
    forall i | 0 <= i < |FieldsOf(r)| ensures Without(FieldsOf(r)[i], '\t') { assert InlineText(FieldsOf(r)[i]); }
    SplitJoin(FieldsOf(r), '\t');
    hide Printable, Split;
  }

  lemma ReturnRemoved(line: string, cr: string)
    requires Without(line, '\r') && line != "" && (cr == "" || cr == "\r")
    ensures WithoutReturn(line + cr) == line && line + cr != ""
  {
    if cr == "" {
      assert line + cr == line;
    } else {
      assert (line + cr)[..|line + cr| - 1] == line;
    }
  }

  lemma LineArrives(r: JavaRecord, paths: seq<string>, cr: string)
    requires Printable(r, |paths|) && (cr == "" || cr == "\r")
    ensures PrintRecord(r) + cr != "" && ParseLine(PrintRecord(r) + cr, paths) == Some(SeenRecord(r, paths))
  {
    LineFacts(r, |paths|);
    ReturnRemoved(PrintRecord(r), cr);
    FieldsNotEmpty(r, |paths|);
    if r.JavaDiagnostic? { DiagnosticArrives(r, paths); } else { RouteArrives(r, paths); }
    hide Printable, FieldsOf, PrintRecord, ReadDiagnostic, ReadRoute, SeenRecord, Split;
  }

  // ---------- the whole output ----------

  ghost predicate AllPrintable(records: seq<JavaRecord>, sources: nat) {
    forall i :: 0 <= i < |records| ==> Printable(records[i], sources)
  }

  function LinesOf(records: seq<JavaRecord>, cr: string): seq<string> {
    if records == [] then [""] else [PrintRecord(records[0]) + cr] + LinesOf(records[1..], cr)
  }

  lemma {:induction false} OutputLines(records: seq<JavaRecord>, sources: nat, cr: string)
    requires AllPrintable(records, sources) && (cr == "" || cr == "\r")
    ensures Split(PrintAll(records, cr), '\n') == LinesOf(records, cr)
  {
    if records != [] {
      hide Printable, PrintRecord;
      LineFacts(records[0], sources);
      OutputLines(records[1..], sources, cr);
      var line := PrintRecord(records[0]) + cr;
      assert Without(line, '\n');
      SplitFirst(line, PrintAll(records[1..], cr), '\n');
      assert PrintAll(records, cr) == line + ['\n'] + PrintAll(records[1..], cr);
    }
  }

  function SeenAll(records: seq<JavaRecord>, paths: seq<string>): (r: seq<AstRecord>)
    requires forall i :: 0 <= i < |records| ==> records[i].index < |paths|
    ensures |r| == |records| && forall i :: 0 <= i < |r| ==> r[i] == SeenRecord(records[i], paths)
  {
    if records == [] then [] else [SeenRecord(records[0], paths)] + SeenAll(records[1..], paths)
  }

  function SentAll(records: seq<JavaRecord>, paths: seq<string>): (r: seq<AstRecord>)
    requires forall i :: 0 <= i < |records| ==> records[i].index < |paths|
    ensures |r| == |records| && forall i :: 0 <= i < |r| ==> r[i] == SentRecord(records[i], paths)
  {
    if records == [] then [] else [SentRecord(records[0], paths)] + SentAll(records[1..], paths)
  }

  lemma {:induction false} LinesArrive(records: seq<JavaRecord>, paths: seq<string>, cr: string, count: nat)
    requires AllPrintable(records, |paths|) && (cr == "" || cr == "\r")
    ensures ParseLines(LinesOf(records, cr), paths, count) ==
      if count + |records| <= MAX_RECORDS + 1 || records == [] then Some(SeenAll(records, paths)) else None
  {
    hide ParseLine, PrintRecord, SeenRecord;
    if records == [] {
      assert [""][1..] == [];
    } else {
      LineArrives(records[0], paths, cr);
      LinesArrive(records[1..], paths, cr, count + 1);
      assert LinesOf(records, cr)[1..] == LinesOf(records[1..], cr);
    }
  }

  /** Printing and then parsing gives the records as they are seen, unless there are more than 4001 of them. */
  lemma OutputArrives(records: seq<JavaRecord>, paths: seq<string>, cr: string)
    requires AllPrintable(records, |paths|) && (cr == "" || cr == "\r") && |PrintAll(records, cr)| <= MAX_OUTPUT
    ensures Parse(PrintAll(records, cr), paths) == if |records| <= 4001 then Some(SeenAll(records, paths)) else None
  {
    hide Printable, ParseLine;
    OutputLines(records, |paths|, cr);
    LinesArrive(records, paths, cr, 0);
  }

  lemma ListSeen(values: Option<seq<Text>>)
    requires ListPrintable(values)
    ensures SeenList(values) == Expected(values) <==> FaithfulList(values)
  {
    if values == Some([]) {
      assert Joined([]) == [] && ReadList("") == [];
    } else if values.Some? {
      ListSeenExactly(values.value);
      hide SeenList, FaithfulList;
      assert values == Some(values.value);
    }
  }

  lemma RecordSeen(r: JavaRecord, paths: seq<string>)
    requires Printable(r, |paths|)
    ensures SeenRecord(r, paths) == SentRecord(r, paths) <==> FaithfulRecord(r)
  {
    if r.JavaRoute? {
      SeenExactly(r.prefix);
      SeenExactly(r.suffix);
      ListSeen(r.headers);
      ListSeen(r.consumes);
      ListSeen(r.produces);
      hide Faithful, FaithfulList, Seen, SeenList, Bounded, IsIdentifier, NumbersInRange;
    }
  }

  /** The round trip holds exactly when every text is well formed and none that starts a field starts with a mark. */
  lemma RoundTripExactly(records: seq<JavaRecord>, paths: seq<string>, cr: string)
    requires AllPrintable(records, |paths|) && (cr == "" || cr == "\r")
    requires |PrintAll(records, cr)| <= MAX_OUTPUT && |records| <= 4001
    ensures Parse(PrintAll(records, cr), paths) == Some(SentAll(records, paths))
      <==> forall i :: 0 <= i < |records| ==> FaithfulRecord(records[i])
  {
    assert forall i :: 0 <= i < |records| ==> records[i].index < |paths|;
    hide Printable, Parse, PrintAll, FaithfulRecord, SeenAll, SentAll;
    OutputArrives(records, paths, cr);
    SeenAllExactly(records, paths);
  }

  lemma SeenAllExactly(records: seq<JavaRecord>, paths: seq<string>)
    requires AllPrintable(records, |paths|)
    ensures (forall i :: 0 <= i < |records| ==> records[i].index < |paths|)
      && (SeenAll(records, paths) == SentAll(records, paths) <==> forall i :: 0 <= i < |records| ==> FaithfulRecord(records[i]))
  {
    assert forall i :: 0 <= i < |records| ==> records[i].index < |paths|;
    var seen, sent := SeenAll(records, paths), SentAll(records, paths);
    hide FaithfulRecord, SeenRecord, SentRecord, SeenAll, SentAll;
    forall i | 0 <= i < |records| ensures seen[i] == sent[i] <==> FaithfulRecord(records[i]) {
      RecordSeen(records[i], paths);
    }
    hide Printable;
  }
}
