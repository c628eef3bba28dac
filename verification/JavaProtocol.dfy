/** The AST protocol between the Java printer and the TypeScript parser: one record a line, fields between tabs. */
module JavaProtocol {
  import opened JsonValues
  import opened Strings
  import opened Unicode
  import opened JavaFields
  import opened Decimals

  // ---------- numbers ----------

  /** `/^[1-9][0-9]{0,6}$/`. */
  predicate IsPositive(s: string) {
    1 <= |s| <= 7 && s[0] != '0' && forall i :: 0 <= i < |s| ==> Digit(s[i])
  }

  /** `/^(0|[1-9][0-9]{0,2})$/`. */
  predicate IsIndex(s: string) {
    s == "0" || (1 <= |s| <= 3 && s[0] != '0' && forall i :: 0 <= i < |s| ==> Digit(s[i]))
  }

  /** The positive numbers of at most seven digits are printed in the form the parser accepts, and read back. */
  lemma PositiveDecimals(n: nat)
    requires 0 < n < 10000000
    ensures IsPositive(DecimalText(n)) && NumberOf(DecimalText(n)) == n
  {
    SevenDigits();
    DecimalFacts(n, 7);
  }

  lemma SevenDigits()
    ensures Power(7) == 10000000
  {
    assert Power(3) == 1000;
    assert Power(5) == 100000;
  }

  /** No other text is accepted: an accepted one is how its number is printed. */
  lemma OnlyPositiveDecimals(s: string)
    requires IsPositive(s)
    ensures 0 < NumberOf(s) < 10000000 && DecimalText(NumberOf(s)) == s
  {
    SevenDigits();
    LeadingDigit(s);
    PowerGrows(|s|, 7);
    DecimalOf(s);
  }

  lemma IndexDecimals(n: nat)
    requires n < 1000
    ensures IsIndex(DecimalText(n)) && NumberOf(DecimalText(n)) == n
  {
    assert Power(3) == 1000;
    DecimalFacts(n, 3);
  }

  // ---------- records ----------

  const METHODS := ["GET", "POST", "PUT", "PATCH", "DELETE"]

  datatype JavaRecord =
    | JavaDiagnostic(index: nat, line: nat, code: string)
    | JavaRoute(index: nat, numbers: seq<nat>, verb: string, prefix: Text, suffix: Text,
                headers: Option<seq<Text>>, consumes: Option<seq<Text>>, produces: Option<seq<Text>>, handler: Text)

  /** A route's numbers are line, column, end line, end column, class line and method line. */
  datatype AstRecord =
    | Diagnostic(path: string, line: nat, code: string)
    | Route(path: string, numbers: seq<nat>, verb: string, prefix: Text, suffix: Text,
            headers: seq<Text>, consumes: seq<Text>, produces: seq<Text>, handler: Text)

  /** `/^[a-z][a-z0-9_]{1,80}$/`. */
  predicate IsCode(s: string) {
    2 <= |s| <= 81 && 'a' <= s[0] <= 'z' && forall i :: 0 <= i < |s| ==> 'a' <= s[i] <= 'z' || Digit(s[i]) || s[i] == '_'
  }

  predicate Control(u: Unit) {
    u < 32 || u == 127
  }

  predicate Bounded(text: Text, max: nat) {
    |text| <= max && forall i :: 0 <= i < |text| ==> !Control(text[i])
  }

  predicate NameStart(u: Unit) {
    65 <= u <= 90 || 97 <= u <= 122 || u == 95 || u == 36
  }

  /** `/^[A-Za-z_$][A-Za-z0-9_$]*$/`. */
  predicate IsIdentifier(text: Text) {
    text != [] && NameStart(text[0]) && forall i :: 0 <= i < |text| ==> NameStart(text[i]) || 48 <= text[i] <= 57
  }

  // ---------- the printer ----------

  function DecimalTexts(numbers: seq<nat>): (r: seq<string>)
    ensures |r| == |numbers|
    ensures forall i :: 0 <= i < |r| ==> r[i] == DecimalText(numbers[i])
  {
    if numbers == [] then [] else [DecimalText(numbers[0])] + DecimalTexts(numbers[1..])
  }

  function Encoded(r: JavaRecord): seq<string>
    requires r.JavaRoute?
  {
    [EncodeField(r.prefix), EncodeField(r.suffix), EncodeList(r.headers), EncodeList(r.consumes), EncodeList(r.produces),
     EncodeField(r.handler)]
  }

  function FieldsOf(r: JavaRecord): seq<string> {
    match r
    case JavaDiagnostic(index, line, code) => ["D", DecimalText(index), DecimalText(line), code]
    case JavaRoute(index, numbers, verb, _, _, _, _, _, _) => ["R", DecimalText(index)] + DecimalTexts(numbers) + [verb] + Encoded(r)
  }

  function PrintRecord(r: JavaRecord): string {
    Join(FieldsOf(r), '\t')
  }

  /** A diagnostic's line, field by field. */
  lemma PrintedDiagnostic(index: nat, line: nat, code: string)
    ensures PrintRecord(JavaDiagnostic(index, line, code)) == "D\t" + DecimalText(index) + "\t" + DecimalText(line) + "\t" + code
  {
    hide DecimalText, Join;
    var a, b := DecimalText(index), DecimalText(line);
    JoinOne(code, '\t');
    JoinFirst("D", [a, b, code], '\t');
    JoinFirst(a, [b, code], '\t');
    JoinFirst(b, [code], '\t');
    assert ["D"] + [a, b, code] == ["D", a, b, code] && [a] + [b, code] == [a, b, code] && [b] + [code] == [b, code];
  }

  /** A route's fields, in the order of the line. */
  lemma PrintedRoute(r: JavaRecord)
    requires r.JavaRoute? && |r.numbers| == 6
    ensures PrintRecord(r) == Join(
      ["R", DecimalText(r.index), DecimalText(r.numbers[0]), DecimalText(r.numbers[1]), DecimalText(r.numbers[2]),
       DecimalText(r.numbers[3]), DecimalText(r.numbers[4]), DecimalText(r.numbers[5]), r.verb, EncodeField(r.prefix),
       EncodeField(r.suffix), EncodeList(r.headers), EncodeList(r.consumes), EncodeList(r.produces), EncodeField(r.handler)], '\t')
  {
    hide DecimalText, Join, EncodeField, EncodeList;
    var texts := DecimalTexts(r.numbers);
    assert texts == [texts[0], texts[1], texts[2], texts[3], texts[4], texts[5]];
    assert FieldsOf(r) ==
      ["R", DecimalText(r.index), DecimalText(r.numbers[0]), DecimalText(r.numbers[1]), DecimalText(r.numbers[2]),
       DecimalText(r.numbers[3]), DecimalText(r.numbers[4]), DecimalText(r.numbers[5]), r.verb, EncodeField(r.prefix),
       EncodeField(r.suffix), EncodeList(r.headers), EncodeList(r.consumes), EncodeList(r.produces), EncodeField(r.handler)];
  }

  /** Each record on a line; the line end is that of the platform. */
  function PrintAll(records: seq<JavaRecord>, cr: string): string {
    if records == [] then "" else PrintRecord(records[0]) + cr + "\n" + PrintAll(records[1..], cr)
  }

  // ---------- the parser ----------

  function ReadNumbers(parts: seq<string>): Option<seq<nat>> {
    if parts == [] then Some([])
    else if !IsPositive(parts[0]) then None
    else
      var rest := ReadNumbers(parts[1..]);
      if rest.Some? then Some([NumberOf(parts[0])] + rest.value) else None
  }

  function ReadPath(part: string, paths: seq<string>): Option<string> {
    if IsIndex(part) && NumberOf(part) < |paths| then Some(paths[NumberOf(part)]) else None
  }

  function ReadDiagnostic(parts: seq<string>, paths: seq<string>): Option<AstRecord>
    requires |parts| == 4
  {
    var path := ReadPath(parts[1], paths);
    if path.Some? && IsCode(parts[3]) && IsPositive(parts[2])
    then Some(Diagnostic(path.value, NumberOf(parts[2]), parts[3]))
    else None
  }

  function ReadRoute(parts: seq<string>, paths: seq<string>): Option<AstRecord>
    requires |parts| == 15
  {
    var path := ReadPath(parts[1], paths);
    var numbers := ReadNumbers(parts[2..8]);
    var prefix, suffix, handler := DecodeField(parts[9]), DecodeField(parts[10]), DecodeField(parts[14]);
    var headers, consumes, produces := DecodeField(parts[11]), DecodeField(parts[12]), DecodeField(parts[13]);
    if path.None? || numbers.None? || prefix.None? || suffix.None? || handler.None?
       || headers.None? || consumes.None? || produces.None? then None
    else if !Bounded(Units(prefix.value), 1024) || !Bounded(Units(suffix.value), 1024) || !Bounded(Units(handler.value), 128)
            || !IsIdentifier(Units(handler.value)) || parts[8] !in METHODS then None
    else
      Some(Route(path.value, numbers.value, parts[8], Units(prefix.value), Units(suffix.value),
                 ReadList(headers.value), ReadList(consumes.value), ReadList(produces.value), Units(handler.value)))
  }

  /** `line.replace(/\r$/, "")`. */
  function WithoutReturn(line: string): string {
    if line != "" && line[|line| - 1] == '\r' then line[..|line| - 1] else line
  }

  function ParseLine(line: string, paths: seq<string>): Option<AstRecord> {
    var parts := Split(WithoutReturn(line), '\t');
    if parts[0] == "D" && |parts| == 4 then ReadDiagnostic(parts, paths)
    else if parts[0] == "R" && |parts| == 15 then ReadRoute(parts, paths)
    else None
  }

  /** Visible characters only, at most so many. */
  ghost predicate Legible(text: Text, max: nat) {
    |text| <= max && forall i :: 0 <= i < |text| ==> 32 <= text[i] && text[i] != 127
  }

  predicate LetterLike(u: Unit) {
    65 <= u <= 90 || 97 <= u <= 122 || u == 95 || u == 36
  }

  lemma NumbersRead(parts: seq<string>)
    requires ReadNumbers(parts).Some?
    ensures |ReadNumbers(parts).value| == |parts|
    ensures forall i :: 0 <= i < |parts| ==>
      0 < ReadNumbers(parts).value[i] < 10000000 && parts[i] == DecimalText(ReadNumbers(parts).value[i])
  {
    if parts != [] { OnlyPositiveDecimals(parts[0]); }
  }

  lemma PathRead(part: string, paths: seq<string>)
    requires ReadPath(part, paths).Some?
    ensures exists index: nat :: index < |paths| && index < 1000 && part == DecimalText(index) && ReadPath(part, paths) == Some(paths[index])
  {
    if part == "0" {
      assert DecimalText(0) == "0" && NumberOf("0") == 0;
    } else {
      OnlyPositiveDecimals(part);
      LeadingDigit(part);
      PowerGrows(|part|, 3);
      assert Power(3) == 1000;
    }
  }

  /** Which of the two readers an accepted line went through. */
  lemma ReadAs(line: string, paths: seq<string>)
    requires ParseLine(line, paths).Some?
    ensures var parts := Split(WithoutReturn(line), '\t');
      if ParseLine(line, paths).value.Diagnostic? then
        parts[0] == "D" && |parts| == 4 && ParseLine(line, paths) == ReadDiagnostic(parts, paths)
      else parts[0] == "R" && |parts| == 15 && ParseLine(line, paths) == ReadRoute(parts, paths)
  {
    hide Split, DecodeField, ReadList, NumberOf, Units, Bounded, IsIdentifier, ReadNumbers, ReadPath;
  }

  /**
   * A diagnostic is accepted only as one printed line: an index into the paths, a positive number of at most seven digits
   * and a code of two to 81 characters.
   */
  lemma AcceptedDiagnostic(line: string, paths: seq<string>)
    requires ParseLine(line, paths).Some? && ParseLine(line, paths).value.Diagnostic?
    ensures var d := ParseLine(line, paths).value;
      && 0 < d.line < 10000000
      && 2 <= |d.code| <= 81 && 'a' <= d.code[0] <= 'z'
      && (forall i :: 0 <= i < |d.code| ==> 'a' <= d.code[i] <= 'z' || '0' <= d.code[i] <= '9' || d.code[i] == '_')
      && exists index: nat :: index < |paths| && index < 1000 && d.path == paths[index]
           && WithoutReturn(line) == PrintRecord(JavaDiagnostic(index, d.line, d.code))
  {
    var parts := Split(WithoutReturn(line), '\t');
    hide ParseLine, Split, Join, DecimalText, NumberOf;
    ReadAs(line, paths);
    JoinSplit(WithoutReturn(line), '\t');
    PathRead(parts[1], paths);
    OnlyPositiveDecimals(parts[2]);
    var d := ParseLine(line, paths).value;
    var index: nat :| index < |paths| && index < 1000 && parts[1] == DecimalText(index) && ReadPath(parts[1], paths) == Some(paths[index]);
    assert parts == ["D", DecimalText(index), DecimalText(d.line), d.code];
  }

  /** What an accepted route holds. */
  lemma AcceptedRoute(line: string, paths: seq<string>)
    requires ParseLine(line, paths).Some? && ParseLine(line, paths).value.Route?
    ensures var r := ParseLine(line, paths).value;
      && r.path in paths
      && |r.numbers| == 6 && (forall i :: 0 <= i < 6 ==> 0 < r.numbers[i] < 10000000)
      && (r.verb == "GET" || r.verb == "POST" || r.verb == "PUT" || r.verb == "PATCH" || r.verb == "DELETE")
      && Legible(r.prefix, 1024) && Legible(r.suffix, 1024) && Legible(r.handler, 128)
      && r.handler != [] && LetterLike(r.handler[0])
      && (forall i :: 0 <= i < |r.handler| ==> LetterLike(r.handler[i]) || 48 <= r.handler[i] <= 57)
  {
    var parts := Split(WithoutReturn(line), '\t');
    hide ParseLine, Split, DecodeField, ReadList, NumberOf;
    ReadAs(line, paths);
    PathRead(parts[1], paths);
    NumbersRead(parts[2..8]);
  }

  /** The texts of a route come from the fields in their places. */
  lemma AcceptedFields(line: string, paths: seq<string>)
    requires ParseLine(line, paths).Some? && ParseLine(line, paths).value.Route?
    ensures var parts, r := Split(WithoutReturn(line), '\t'), ParseLine(line, paths).value;
      && |parts| == 15 && parts[0] == "R" && parts[8] == r.verb
      && DecimalTexts(r.numbers) == parts[2..8]
      && DecodeField(parts[9]).Some? && r.prefix == Units(DecodeField(parts[9]).value)
      && DecodeField(parts[10]).Some? && r.suffix == Units(DecodeField(parts[10]).value)
      && DecodeField(parts[11]).Some? && r.headers == ReadList(DecodeField(parts[11]).value)
      && DecodeField(parts[12]).Some? && r.consumes == ReadList(DecodeField(parts[12]).value)
      && DecodeField(parts[13]).Some? && r.produces == ReadList(DecodeField(parts[13]).value)
      && DecodeField(parts[14]).Some? && r.handler == Units(DecodeField(parts[14]).value)
  {
    var parts := Split(WithoutReturn(line), '\t');
    hide ParseLine, Split, DecodeField, ReadList, NumberOf, DecimalText;
    ReadAs(line, paths);
    NumbersRead(parts[2..8]);
  }

  const MAX_OUTPUT := 1000000
  const MAX_RECORDS := 4000

  /** The lines from here on, after so many records: the count is looked at before a record is added. */
  function ParseLines(lines: seq<string>, paths: seq<string>, count: nat): Option<seq<AstRecord>> {
    if lines == [] then Some([])
    else if lines[0] == "" then ParseLines(lines[1..], paths, count)
    else if count > MAX_RECORDS then None
    else
      var record := ParseLine(lines[0], paths);
      if record.None? then None
      else
        var rest := ParseLines(lines[1..], paths, count + 1);
        if rest.Some? then Some([record.value] + rest.value) else None
  }

  function Parse(output: string, paths: seq<string>): Option<seq<AstRecord>> {
    if |output| > MAX_OUTPUT then None else ParseLines(Split(output, '\n'), paths, 0)
  }

  function Prepended(found: seq<AstRecord>, rest: Option<seq<AstRecord>>): Option<seq<AstRecord>> {
    if rest.Some? then Some(found + rest.value) else None
  }

  lemma PrependedNothing(rest: Option<seq<AstRecord>>)
    ensures Prepended([], rest) == rest
  {
    if rest.Some? { assert [] + rest.value == rest.value; }
  }

  lemma ParseStep(lines: seq<string>, k: nat, paths: seq<string>, found: seq<AstRecord>)
    requires k < |lines|
    ensures Prepended(found, ParseLines(lines[k..], paths, |found|)) ==
      if lines[k] == "" then Prepended(found, ParseLines(lines[k + 1..], paths, |found|))
      else if |found| > MAX_RECORDS || ParseLine(lines[k], paths).None? then None
      else
        var longer := found + [ParseLine(lines[k], paths).value];
        Prepended(longer, ParseLines(lines[k + 1..], paths, |longer|))
  {
    hide ParseLine;
    assert lines[k..][1..] == lines[k + 1..];
    if lines[k] != "" && |found| <= MAX_RECORDS && ParseLine(lines[k], paths).Some? {
      var record, rest := ParseLine(lines[k], paths).value, ParseLines(lines[k + 1..], paths, |found| + 1);
      if rest.Some? { assert found + [record] + rest.value == found + ([record] + rest.value); }
    }
  }

  method ParseProtocol(output: string, paths: seq<string>) returns (records: Option<seq<AstRecord>>)
    ensures records == Parse(output, paths)
  {
    hide ParseLine, Prepended, Split, ParseLines;
    if |output| > MAX_OUTPUT { return None; }
    var lines := Split(output, '\n');
    var found: seq<AstRecord> := [];
    var k := 0;
    assert lines[0..] == lines;
    PrependedNothing(ParseLines(lines, paths, 0));
    while k < |lines|
      invariant 0 <= k <= |lines|
      invariant ParseLines(lines, paths, 0) == Prepended(found, ParseLines(lines[k..], paths, |found|))
    {
      ParseStep(lines, k, paths, found);
      var line := lines[k];
      k := k + 1;
      if line == "" { continue; }
      if |found| > MAX_RECORDS { return None; }
      var record := ParseLine(line, paths);
      if record.None? { return None; }
      found := found + [record.value];
    }
    assert lines[k..] == [];
    NothingParsed(found, paths);
    return Some(found);
  }

  lemma NothingParsed(found: seq<AstRecord>, paths: seq<string>)
    ensures Prepended(found, ParseLines([], paths, |found|)) == Some(found)
  {
    assert found + [] == found;
  }

  // ---------- printing, then parsing ----------

  predicate NumbersInRange(numbers: seq<nat>) {
    forall i :: 0 <= i < |numbers| ==> 0 < numbers[i] < 10000000
  }

  predicate ListPrintable(values: Option<seq<Text>>) {
    values.Some? ==> NulFree(values.value)
  }

  /** What the printer can write and the parser accepts: known source, numbers of seven digits, bounded texts. */
  ghost predicate Printable(r: JavaRecord, sources: nat) {
    r.index < sources && r.index < 1000 &&
    match r
    case JavaDiagnostic(_, line, code) => 0 < line < 10000000 && IsCode(code)
    case JavaRoute(_, numbers, verb, prefix, suffix, headers, consumes, produces, handler) =>
      && |numbers| == 6 && NumbersInRange(numbers) && verb in METHODS
      && Bounded(prefix, 1024) && Bounded(suffix, 1024) && Bounded(handler, 128) && IsIdentifier(handler)
      && ListPrintable(headers) && ListPrintable(consumes) && ListPrintable(produces)
  }

  /** The record as it arrives. */
  function SeenRecord(r: JavaRecord, paths: seq<string>): AstRecord
    requires r.index < |paths|
  {
    match r
    case JavaDiagnostic(index, line, code) => Diagnostic(paths[index], line, code)
    case JavaRoute(index, numbers, verb, prefix, suffix, headers, consumes, produces, handler) =>
      Route(paths[index], numbers, verb, Seen(prefix), Seen(suffix), SeenList(headers), SeenList(consumes), SeenList(produces), handler)
  }

  /** The record as it was sent, an absent list counting as empty. */
  function SentRecord(r: JavaRecord, paths: seq<string>): AstRecord
    requires r.index < |paths|
  {
    match r
    case JavaDiagnostic(index, line, code) => Diagnostic(paths[index], line, code)
    case JavaRoute(index, numbers, verb, prefix, suffix, headers, consumes, produces, handler) =>
      Route(paths[index], numbers, verb, prefix, suffix, Expected(headers), Expected(consumes), Expected(produces), handler)
  }

  ghost predicate FaithfulRecord(r: JavaRecord) {
    r.JavaRoute? ==>
      && Faithful(r.prefix) && Faithful(r.suffix)
      && FaithfulList(r.headers) && FaithfulList(r.consumes) && FaithfulList(r.produces)
  }

  lemma {:induction false} NumbersArrive(numbers: seq<nat>)
    requires NumbersInRange(numbers)
    ensures ReadNumbers(DecimalTexts(numbers)) == Some(numbers)
  {
    if numbers != [] {
      PositiveDecimals(numbers[0]);
      NumbersArrive(numbers[1..]);
      assert numbers == [numbers[0]] + numbers[1..];
    }
  }

  lemma PathArrives(index: nat, paths: seq<string>)
    requires index < |paths| && index < 1000
    ensures ReadPath(DecimalText(index), paths) == Some(paths[index])
  {
    IndexDecimals(index);
  }

  lemma {:induction false} SeenBounded(text: Text)
    requires forall i :: 0 <= i < |text| ==> !Control(text[i])
    ensures var units := Units(Scalars(text, '?')); |units| == |text| && forall i :: 0 <= i < |units| ==> !Control(units[i])
  {
    if text != [] {
      if Paired(text) {
        SeenBounded(text[2..]);
        assert UnitsOf(Combined(text[0], text[1])) == [text[0], text[1]];
      } else {
        SeenBounded(text[1..]);
      }
    }
  }

  lemma StillBounded(text: Text, max: nat)
    requires Bounded(text, max)
    ensures Bounded(Seen(text), max)
  {
    SeenBounded(text);
    var s := Scalars(text, '?');
    if s != "" && s[0] == BOM {
      assert Units(s) == UnitsOf(BOM) + Units(s[1..]);
      var units, rest := Units(s), Units(s[1..]);
      assert forall i :: 0 <= i < |rest| ==> rest[i] == units[i + 1];
    }
  }

  lemma IdentifierArrives(text: Text)
    requires IsIdentifier(text)
    ensures Seen(text) == text
  {
    PlainWellFormed(text);
    SeenExactly(text);
  }

  lemma {:induction false} PlainWellFormed(text: Text)
    requires forall i :: 0 <= i < |text| ==> !High(text[i]) && !Low(text[i])
    ensures IsWellFormed(text)
  {
    if text != [] { PlainWellFormed(text[1..]); }
  }

  lemma DiagnosticArrives(r: JavaRecord, paths: seq<string>)
    requires r.JavaDiagnostic? && Printable(r, |paths|)
    ensures ReadDiagnostic(FieldsOf(r), paths) == Some(SeenRecord(r, paths))
  {
    PathArrives(r.index, paths);
    PositiveDecimals(r.line);
  }

  lemma RouteFields(r: JavaRecord)
    requires r.JavaRoute? && |r.numbers| == 6
    ensures var parts := FieldsOf(r);
      && |parts| == 15 && parts[0] == "R" && parts[1] == DecimalText(r.index) && parts[2..8] == DecimalTexts(r.numbers) && parts[8] == r.verb
      && parts[9] == EncodeField(r.prefix) && parts[10] == EncodeField(r.suffix) && parts[11] == EncodeList(r.headers)
      && parts[12] == EncodeList(r.consumes) && parts[13] == EncodeList(r.produces) && parts[14] == EncodeField(r.handler)
  {
    hide DecimalText, DecimalTexts, EncodeField, EncodeList;
  }

  lemma RouteArrives(r: JavaRecord, paths: seq<string>)
    requires r.JavaRoute? && Printable(r, |paths|)
    ensures |FieldsOf(r)| == 15 && ReadRoute(FieldsOf(r), paths) == Some(SeenRecord(r, paths))
  {
    RouteFields(r);
    PathArrives(r.index, paths);
    NumbersArrive(r.numbers);
    FieldArrives(r.prefix);
    FieldArrives(r.suffix);
    FieldArrives(r.handler);
    ListArrives(r.headers);
    ListArrives(r.consumes);
    ListArrives(r.produces);
    StillBounded(r.prefix, 1024);
    StillBounded(r.suffix, 1024);
    IdentifierArrives(r.handler);
    hide FieldsOf, DecodeField, EncodeField, EncodeList, ReadList, ReadPath, ReadNumbers, Bounded, IsIdentifier, Scalars;
  }
}
