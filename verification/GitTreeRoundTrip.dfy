/** Printing a listing and parsing it again, and the framing whose digest identifies a materialized tree. */
module GitTreeRoundTrip {
  import opened JsonValues
  import opened Strings
  import opened Utf8
  import opened GitTrees

  // ---------- printing ----------

  function AsciiBytes(s: string): (r: seq<Byte>)
    requires forall i :: 0 <= i < |s| ==> (s[i] as int) < 128
    ensures |r| == |s| && forall i :: 0 <= i < |r| ==> r[i] == s[i] as int
  {
    if s == "" then [] else [s[0] as int] + AsciiBytes(s[1..])
  }

  /** Visible ASCII: what the columns before the tab are made of. */
  predicate Visible(s: string) {
    forall i :: 0 <= i < |s| ==> 33 <= s[i] as int <= 126
  }

  predicate Marked(path: string) {
    path != "" && path[0] == BOM
  }

  predicate Printable(e: Entry) {
    Acceptable(e) && Visible(e.mode) && Visible(e.kind)
  }

  function Columns(e: Entry): string {
    Join([e.mode, e.kind, e.objectId], ' ')
  }

  lemma ColumnsFacts(e: Entry)
    requires Printable(e)
    ensures Split(Columns(e), ' ') == [e.mode, e.kind, e.objectId]
    ensures forall i :: 0 <= i < |Columns(e)| ==> 32 <= Columns(e)[i] as int <= 126
  {
    VisibleHasNoSpace(e.mode);
    VisibleHasNoSpace(e.kind);
    VisibleHasNoSpace(e.objectId);
    hide Without, IsObjectId;
    SplitJoin([e.mode, e.kind, e.objectId], ' ');
    var tail := [e.kind, e.objectId];
    assert [e.mode, e.kind, e.objectId] == [e.mode] + tail && tail == [e.kind] + [e.objectId];
    JoinFirst(e.mode, tail, ' ');
    JoinFirst(e.kind, [e.objectId], ' ');
    JoinOne(e.objectId, ' ');
    hide Join, Split;
  }

  lemma VisibleHasNoSpace(s: string)
    requires Visible(s)
    ensures Without(s, ' ')
  {
  }

  /** One record without its closing NUL. */
  function Record(e: Entry): seq<Byte>
    requires Printable(e)
  {
    ColumnsFacts(e);
    AsciiBytes(Columns(e)) + [9] + Utf8.Encode(e.path)
  }

  function PrintListing(entries: seq<Entry>): seq<Byte>
    requires forall i :: 0 <= i < |entries| ==> Printable(entries[i])
  {
    if entries == [] then [] else Record(entries[0]) + [0] + PrintListing(entries[1..])
  }

  // ---------- reading it back ----------

  lemma IndexByteAt(a: seq<Byte>, b: Byte, rest: seq<Byte>)
    requires forall i :: 0 <= i < |a| ==> a[i] != b
    ensures IndexByte(a + [b] + rest, b) == |a|
  {
    var all := a + [b] + rest;
    assert all[|a|] == b;
    forall k | 0 <= k < |a| ensures all[k] != b { assert all[k] == a[k]; }
  }

  lemma {:induction false} AsciiRoundTrip(s: string)
    requires forall i :: 0 <= i < |s| ==> (s[i] as int) < 128
    ensures Ascii(AsciiBytes(s)) == s
  {
    if s != "" {
      AsciiRoundTrip(s[1..]);
      assert s == [s[0]] + s[1..];
      assert AsciiBytes(s)[1..] == AsciiBytes(s[1..]);
    }
  }

  lemma {:induction false} NoNulBytes(s: string)
    requires Without(s, NUL)
    ensures forall i :: 0 <= i < |Utf8.Encode(s)| ==> Utf8.Encode(s)[i] != 0
  {
    if s != "" {
      NoNulBytes(s[1..]);
      assert forall i :: 0 <= i < |EncodeChar(s[0])| ==> EncodeChar(s[0])[i] != 0;
    }
  }

  lemma SafePathHasNoNul(path: string)
    requires SafePath(path)
    ensures Without(path, NUL)
  {
    SafeSplit(path);
  }

  lemma SafeNameHasNoNul(name: string)
    requires SafeName(name)
    ensures Without(name, NUL)
  {
  }

  lemma {:induction false} SafeSplit(path: string)
    requires forall i :: 0 <= i < |Split(path, '/')| ==> SafeName(Split(path, '/')[i])
    ensures Without(path, NUL)
    decreases |path|
  {
    SafeNameHasNoNul(Split(path, '/')[0]);
    hide SafeName;
    SplitStep(path, '/');
    var i := IndexOf(path, '/');
    if i < |path| {
      var tail := Split(path[i + 1..], '/');
      forall k | 0 <= k < |tail| ensures SafeName(tail[k]) { assert tail[k] == Split(path, '/')[k + 1]; }
      SafeSplit(path[i + 1..]);
      hide Split;
      forall k | 0 <= k < |path| ensures path[k] != NUL {
        if k < i { assert path[k] == path[..i][k]; } else if k > i { assert path[k] == path[i + 1..][k - i - 1]; }
      }
    }
  }

  /** The pieces a record is read into. */
  lemma RecordPieces(columns: string, path: string)
    requires forall i :: 0 <= i < |columns| ==> 32 <= columns[i] as int <= 126
    ensures var record := AsciiBytes(columns) + [9] + Utf8.Encode(path);
      && IndexByte(record, 9) == |columns|
      && Ascii(record[..|columns|]) == columns && Utf8.Decode(record[|columns| + 1..]) == Some(path)
  {
    hide Utf8.Encode, Utf8.Decode, IndexByte, Ascii, AsciiBytes;
    var left, right := AsciiBytes(columns), Utf8.Encode(path);
    IndexByteAt(left, 9, right);
    assert (left + [9] + right)[..|columns|] == left && (left + [9] + right)[|columns| + 1..] == right;
    AsciiRoundTrip(columns);
    Utf8.RoundTrip(path);
  }

  lemma RecordHasNoNul(e: Entry)
    requires Printable(e)
    ensures Record(e) != [] && forall i :: 0 <= i < |Record(e)| ==> Record(e)[i] != 0
  {
    ColumnsFacts(e);
    SafePathHasNoNul(e.path);
    NoNulBytes(e.path);
    hide SafePath, Columns, Utf8.Encode;
  }

  /** A record arrives as it was printed exactly when its path does not start with a byte order mark. */
  lemma RecordArrives(e: Entry)
    requires Printable(e)
    ensures ReadRecord(Record(e)) == Some(e) <==> !Marked(e.path)
  {
    ColumnsFacts(e);
    RecordPieces(Columns(e), e.path);
    hide SafePath, Split, Columns, IsObjectId, Utf8.Encode, Utf8.Decode, IndexByte, Ascii, AsciiBytes;
  }

  lemma ReadPrinted(e: Entry, rest: seq<Byte>)
    requires Printable(e)
    ensures var text := Record(e) + [0] + rest;
      ReadAll(text) ==
        var entry, entries := ReadRecord(Record(e)), ReadAll(rest);
        if entry.Some? && entries.Some? then Some([entry.value] + entries.value) else None
  {
    var text := Record(e) + [0] + rest;
    RecordHasNoNul(e);
    hide Record, ReadRecord, Printable;
    IndexByteAt(Record(e), 0, rest);
    var end := |Record(e)|;
    assert text[..end] == Record(e) && text[end + 1..] == rest;
    ReadStep(text);
  }

  /** Reading a printed listing gives its entries exactly when no path starts with a byte order mark. */
  lemma {:induction false} ListingRoundTrip(entries: seq<Entry>)
    requires forall i :: 0 <= i < |entries| ==> Printable(entries[i])
    ensures ReadAll(PrintListing(entries)) == Some(entries)
      <==> forall i :: 0 <= i < |entries| ==> !Marked(entries[i].path)
  {
    if entries != [] {
      var rest := entries[1..];
      ListingRoundTrip(rest);
      ReadPrinted(entries[0], PrintListing(rest));
      RecordArrives(entries[0]);
      hide Printable, Record, ReadRecord;
      assert entries == [entries[0]] + rest;
    }
  }

  lemma {:induction false} OnceEach<T>(xs: seq<T>)
    requires forall i, j :: 0 <= i < j < |xs| ==> xs[i] != xs[j]
    ensures forall x :: multiset(xs)[x] == if x in xs then 1 else 0
  {
    if xs != [] {
      var last := |xs| - 1;
      OnceEach(xs[..last]);
      assert xs == xs[..last] + [xs[last]];
    }
  }

  lemma SameOnceEach<T>(xs: seq<T>, ys: seq<T>)
    requires (forall i, j :: 0 <= i < j < |xs| ==> xs[i] != xs[j]) && (forall i, j :: 0 <= i < j < |ys| ==> ys[i] != ys[j])
    requires forall x :: x in xs <==> x in ys
    ensures multiset(xs) == multiset(ys)
  {
    OnceEach(xs);
    OnceEach(ys);
    forall x ensures multiset(xs)[x] == multiset(ys)[x] { }
  }

  lemma SortedOnceEach(entries: seq<Entry>)
    requires Increasing(Paths(entries))
    ensures forall i, j :: 0 <= i < j < |entries| ==> entries[i] != entries[j]
  {
    hide Paths;
    forall i, j | 0 <= i < j < |entries| ensures entries[i] != entries[j] {
      assert Paths(entries)[i] != Paths(entries)[j];
    }
  }

  /**
   * The printed listing of valid entries without a mark parses exactly when the entries form a tree and are not too
   * many, and then into just these entries, sorted by path.
   */
  lemma PrintedListingParses(entries: seq<Entry>, maxFiles: nat, r: Option<seq<Entry>>)
    requires forall i :: 0 <= i < |entries| ==> Printable(entries[i]) && !Marked(entries[i].path)
    requires Listing(PrintListing(entries), maxFiles, r)
    ensures r.Some? <==> IsTree(entries) && |entries| <= maxFiles
    ensures r.Some? ==> multiset(r.value) == multiset(entries) && Increasing(Paths(r.value))
  {
    ListingRoundTrip(entries);
    hide Printable, Marked, PrintListing, ReadAll, Increasing, Paths, IsAbove;
    if r.Some? {
      SortedOnceEach(r.value);
      SameOnceEach(r.value, entries);
    }
  }

  // ---------- the digest ----------

  datatype File = File(path: string, mode: string, digest: string)

  /** What is fed to the tree digest, file by file: path, mode and content digest, each closed by a NUL. */
  function Frame(files: seq<File>): string {
    if files == [] then ""
    else files[0].path + [NUL] + files[0].mode + [NUL] + files[0].digest + [NUL] + Frame(files[1..])
  }

  predicate Framable(f: File) {
    Without(f.path, NUL) && Without(f.mode, NUL) && Without(f.digest, NUL)
  }

  lemma FrameStep(f: File, rest: string)
    ensures f.path + [NUL] + f.mode + [NUL] + f.digest + [NUL] + rest
         == f.path + [NUL] + (f.mode + [NUL] + (f.digest + [NUL] + rest))
  {
  }

  /** The framing is injective: equal digests, under an injective hash, mean equal trees. */
  lemma {:induction false} FrameInjective(a: seq<File>, b: seq<File>)
    requires (forall i :: 0 <= i < |a| ==> Framable(a[i])) && (forall i :: 0 <= i < |b| ==> Framable(b[i]))
    requires Frame(a) == Frame(b)
    ensures a == b
  {
    if a != [] && b != [] {
      var f, g, x, y := a[0], b[0], Frame(a[1..]), Frame(b[1..]);
      FrameStep(f, x);
      FrameStep(g, y);
      CutAt(f.path, g.path, f.mode + [NUL] + (f.digest + [NUL] + x), g.mode + [NUL] + (g.digest + [NUL] + y), NUL);
      CutAt(f.mode, g.mode, f.digest + [NUL] + x, g.digest + [NUL] + y, NUL);
      CutAt(f.digest, g.digest, x, y, NUL);
      FrameInjective(a[1..], b[1..]);
      assert a == [a[0]] + a[1..] && b == [b[0]] + b[1..];
    }
  }

  /** Two trees of entries of accepted listings have the same digest exactly when their files are the same. */
  lemma EqualDigestsMeanEqualTrees(a: seq<File>, b: seq<File>, sha256: string -> string)
    requires forall s, t :: sha256(s) == sha256(t) ==> s == t
    requires forall i :: 0 <= i < |a| ==> SafePath(a[i].path) && Without(a[i].mode, NUL) && Without(a[i].digest, NUL)
    requires forall i :: 0 <= i < |b| ==> SafePath(b[i].path) && Without(b[i].mode, NUL) && Without(b[i].digest, NUL)
    ensures sha256(Frame(a)) == sha256(Frame(b)) <==> a == b
  {
    forall i | 0 <= i < |a| ensures Framable(a[i]) { SafePathHasNoNul(a[i].path); }
    forall i | 0 <= i < |b| ensures Framable(b[i]) { SafePathHasNoNul(b[i].path); }
    hide SafePath, Frame, Without;
    if sha256(Frame(a)) == sha256(Frame(b)) { FrameInjective(a, b); }
  }
}
