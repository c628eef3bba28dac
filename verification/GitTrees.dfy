/** Git tree listings: a parser of NUL-separated records, and the framing whose digest identifies a tree. */
module GitTrees {
  import opened JsonValues
  import opened Strings
  import opened Utf8

  datatype Entry = Entry(path: string, mode: string, kind: string, objectId: string)

  // ---------- accepted entries ----------

  predicate IsGitDirectory(name: string) {
    |name| == 4 && name[0] == '.' && Lower(name[1]) == 'g' && Lower(name[2]) == 'i' && Lower(name[3]) == 't'
  }

  predicate SafeName(name: string) {
    && name != "" && name != "." && name != ".." && !IsGitDirectory(name)
    && forall i :: 0 <= i < |name| ==> name[i] as int >= 32 && name[i] as int != 127
  }

  predicate SafePath(path: string) {
    && Without(path, '\\') && Without(path, ':')
    && forall i :: 0 <= i < |Split(path, '/')| ==> SafeName(Split(path, '/')[i])
  }

  predicate IsObjectId(s: string) {
    |s| == 40 && forall i :: 0 <= i < 40 ==> '0' <= s[i] <= '9' || 'a' <= s[i] <= 'f' || 'A' <= s[i] <= 'F'
  }

  predicate Acceptable(e: Entry) {
    e.mode != "" && e.kind != "" && IsObjectId(e.objectId) && SafePath(e.path)
  }

  /** What may stand between two slashes: no dots alone, no `.git` in any case, no control character. */
  predicate NameAllowed(name: string) {
    && name != "" && name != "." && name != ".."
    && !(|name| == 4 && name[0] == '.' && (name[1] == 'g' || name[1] == 'G') && (name[2] == 'i' || name[2] == 'I')
         && (name[3] == 't' || name[3] == 'T'))
    && forall i :: 0 <= i < |name| ==> !(0 <= name[i] as int <= 31) && name[i] as int != 127
  }

  lemma SafeNameExactly(name: string)
    ensures SafeName(name) <==> NameAllowed(name)
  {
  }

  /** Which entries are accepted, said on the stretches of the path between its slashes. */
  lemma AcceptableExactly(e: Entry)
    ensures Acceptable(e) <==>
      && e.mode != "" && e.kind != ""
      && |e.objectId| == 40
      && (forall i :: 0 <= i < 40 ==>
            var c := e.objectId[i]; '0' <= c <= '9' || 'a' <= c <= 'f' || 'A' <= c <= 'F')
      && '\\' !in e.path && ':' !in e.path
      && forall i, j :: IsPart(e.path, '/', i, j) ==> NameAllowed(e.path[i..j])
  {
    hide SafeName, NameAllowed, Split;
    var parts := Split(e.path, '/');
    forall part { PartsExactly(e.path, '/', part); }
    forall name { SafeNameExactly(name); }
    if SafePath(e.path) {
      forall i, j | IsPart(e.path, '/', i, j) ensures NameAllowed(e.path[i..j]) { assert e.path[i..j] in parts; }
    } else if '\\' !in e.path && ':' !in e.path {
      var n :| 0 <= n < |parts| && !SafeName(parts[n]);
      assert parts[n] in parts;
    }
  }

  // ---------- reading ----------

  function IndexByte(bytes: seq<Byte>, b: Byte): (i: nat)
    ensures i <= |bytes|
    ensures i < |bytes| ==> bytes[i] == b
    ensures forall k :: 0 <= k < i ==> bytes[k] != b
  {
    if bytes == [] || bytes[0] == b then 0 else 1 + IndexByte(bytes[1..], b)
  }

  /** `toString("ascii")`, which drops the top bit. */
  function Ascii(bytes: seq<Byte>): (s: string)
    ensures |s| == |bytes| && forall i :: 0 <= i < |s| ==> s[i] as int == bytes[i] % 128
  {
    if bytes == [] then "" else [(bytes[0] % 128) as char] + Ascii(bytes[1..])
  }

  function ReadRecord(record: seq<Byte>): Option<Entry> {
    var tab := IndexByte(record, 9);
    if tab == |record| then None
    else
      var metadata := Split(Ascii(record[..tab]), ' ');
      var path := Utf8.Decode(record[tab + 1..]);
      if |metadata| != 3 || path.None? then None
      else
        var entry := Entry(StripBom(path.value), metadata[0], metadata[1], metadata[2]);
        if Acceptable(entry) then Some(entry) else None
  }

  /** The entries of a listing, in its order; empty records are skipped. */
  function ReadAll(output: seq<Byte>): Option<seq<Entry>>
    decreases |output|
  {
    if output == [] then Some([])
    else
      var end := IndexByte(output, 0);
      if end == |output| then None
      else
        var rest := output[end + 1..];
        if end == 0 then ReadAll(rest)
        else
          var entry, entries := ReadRecord(output[..end]), ReadAll(rest);
          if entry.Some? && entries.Some? then Some([entry.value] + entries.value) else None
  }

  function Paths(entries: seq<Entry>): (r: seq<string>)
    ensures |r| == |entries| && forall i :: 0 <= i < |r| ==> r[i] == entries[i].path
  {
    if entries == [] then [] else [entries[0].path] + Paths(entries[1..])
  }

  /** The path is a directory above the other one. */
  predicate IsAbove(directory: string, path: string) {
    |directory| < |path| && path[..|directory|] == directory && path[|directory|] == '/'
  }

  ghost predicate IsTree(entries: seq<Entry>) {
    && (forall i, j :: 0 <= i < j < |entries| ==> entries[i].path != entries[j].path)
    && (forall i, j :: 0 <= i < |entries| && 0 <= j < |entries| ==> !IsAbove(entries[i].path, entries[j].path))
  }

  // ---------- the directories above a path ----------

  lemma JoinedStep(first: string, rest: seq<string>, k: nat)
    requires 0 < k <= |rest|
    ensures Join(([first] + rest)[..1], '/') == first
    ensures Join(([first] + rest)[..k + 1], '/') == first + ['/'] + Join(rest[..k], '/')
  {
    assert ([first] + rest)[..1] == [first];
    assert ([first] + rest)[..k + 1] == [first] + rest[..k];
    JoinFirst(first, rest[..k], '/');
  }

  /** Joining the first so many segments gives exactly the directories above a path. */
  lemma {:induction false} JoinedSegments(path: string, k: nat)
    requires 0 < k < |Split(path, '/')|
    ensures IsAbove(Join(Split(path, '/')[..k], '/'), path)
    decreases |path|
  {
    SplitStep(path, '/');
    var i := IndexOf(path, '/');
    var rest := path[i + 1..];
    var tail := Split(rest, '/');
    hide Split, Join, IsAbove;
    if k == 1 {
      JoinedStep(path[..i], tail, 1);
      FirstAbove(path, i);
    } else {
      JoinedSegments(rest, k - 1);
      JoinedStep(path[..i], tail, k - 1);
      AboveLonger(path, i, Join(tail[..k - 1], '/'));
    }
  }

  lemma FirstAbove(path: string, i: nat)
    requires i < |path| && path[i] == '/'
    ensures IsAbove(path[..i], path)
  {
  }

  lemma AboveLonger(path: string, i: nat, directory: string)
    requires i < |path| && path[i] == '/' && IsAbove(directory, path[i + 1..])
    ensures IsAbove(path[..i] + ['/'] + directory, path)
  {
    var longer := path[..i] + ['/'] + directory;
    forall k | 0 <= k < |longer| ensures path[k] == longer[k] {
      if k > i { assert path[i + 1..][..|directory|][k - i - 1] == directory[k - i - 1]; }
    }
    assert path[..|longer|] == longer;
  }

  lemma AboveShorter(path: string, i: nat, directory: string)
    requires IsAbove(directory, path) && i < |directory| && path[i] == '/'
    ensures directory == path[..i] + ['/'] + directory[i + 1..] && IsAbove(directory[i + 1..], path[i + 1..])
  {
    var tail := directory[i + 1..];
    forall k | 0 <= k < |directory| ensures directory[k] == path[k] { assert path[..|directory|][k] == directory[k]; }
    assert path[i + 1..][..|tail|] == tail;
  }

  lemma {:induction false} AboveIsJoined(path: string, directory: string) returns (k: nat)
    requires IsAbove(directory, path)
    ensures 0 < k < |Split(path, '/')| && directory == Join(Split(path, '/')[..k], '/')
    decreases |path|
  {
    hide Split, Join;
    SplitStep(path, '/');
    var i := IndexOf(path, '/');
    assert path[|directory|] == '/' && path[..|directory|] == directory;
    assert i <= |directory|;
    var rest := path[i + 1..];
    var tail := Split(rest, '/');
    if i == |directory| {
      k := 1;
      JoinedStep(path[..i], tail, 1);
    } else {
      AboveShorter(path, i, directory);
      hide IsAbove;
      k := AboveIsJoined(rest, directory[i + 1..]);
      JoinedStep(path[..i], tail, k);
      k := k + 1;
    }
  }

  /** The joined prefixes of a path's segments are exactly the directories above it. */
  lemma AboveExactly(path: string, directory: string)
    ensures IsAbove(directory, path) <==>
      exists k :: 0 < k < |Split(path, '/')| && directory == Join(Split(path, '/')[..k], '/')
  {
    if IsAbove(directory, path) {
      var k := AboveIsJoined(path, directory);
    }
    forall k | 0 < k < |Split(path, '/')| && directory == Join(Split(path, '/')[..k], '/') ensures IsAbove(directory, path) {
      JoinedSegments(path, k);
    }
  }

  // ---------- the parser ----------

  /** Whether a path has a directory above it that is itself an entry. */
  method IsUnderEntry(path: string, paths: set<string>) returns (under: bool)
    ensures under <==> exists directory :: directory in paths && IsAbove(directory, path)
  {
    hide Split, Join, IsAbove;
    var segments := Split(path, '/');
    var index := 1;
    while index < |segments|
      invariant 1 <= index
      invariant forall k :: 0 < k < index && k < |segments| ==> Join(segments[..k], '/') !in paths
    {
      if Join(segments[..index], '/') in paths {
        JoinedSegments(path, index);
        return true;
      }
      index := index + 1;
    }
    forall directory | directory in paths ensures !IsAbove(directory, path) {
      if IsAbove(directory, path) { var k := AboveIsJoined(path, directory); }
    }
    return false;
  }

  function InsertEntry(sorted: seq<Entry>, e: Entry): (r: seq<Entry>)
    ensures forall x :: x in r <==> x == e || x in sorted
    ensures |r| == |sorted| + 1
  {
    if sorted == [] || !Le(sorted[0].path, e.path) then [e] + sorted else [sorted[0]] + InsertEntry(sorted[1..], e)
  }

  lemma {:induction false} InsertedPaths(sorted: seq<Entry>, e: Entry)
    ensures Paths(InsertEntry(sorted, e)) == Inserted(Paths(sorted), e.path)
  {
    if sorted != [] {
      InsertedPaths(sorted[1..], e);
      assert Paths(sorted)[1..] == Paths(sorted[1..]);
    }
  }

  /** `entries.sort(...)` by path. */
  method SortEntries(entries: seq<Entry>) returns (sorted: seq<Entry>)
    requires forall i, j :: 0 <= i < j < |entries| ==> entries[i].path != entries[j].path
    ensures Increasing(Paths(sorted)) && |sorted| == |entries|
    ensures forall e :: e in sorted <==> e in entries
  {
    sorted := [];
    var k := 0;
    while k < |entries|
      invariant 0 <= k <= |entries| && |sorted| == k && Increasing(Paths(sorted))
      invariant forall e :: e in sorted <==> e in entries[..k]
    {
      var e := entries[k];
      assert e.path !in Paths(sorted) by {
        if e.path in Paths(sorted) { OtherPath(entries, sorted, k); }
      }
      InsertedPaths(sorted, e);
      InsertedIncreases(Paths(sorted), e.path);
      sorted := InsertEntry(sorted, e);
      assert entries[..k + 1] == entries[..k] + [e];
      k := k + 1;
    }
    assert entries[..k] == entries;
  }

  lemma OtherPath(entries: seq<Entry>, sorted: seq<Entry>, k: nat)
    requires forall i, j :: 0 <= i < j < |entries| ==> entries[i].path != entries[j].path
    requires k < |entries| && (forall e :: e in sorted ==> e in entries[..k])
    ensures entries[k].path !in Paths(sorted)
  {
    forall i | 0 <= i < |sorted| ensures sorted[i].path != entries[k].path {
      assert sorted[i] in entries[..k];
    }
  }

  /** What a listing of at most so many files is turned into: its entries by path, or nothing. */
  ghost predicate Listing(output: seq<Byte>, maxFiles: nat, result: Option<seq<Entry>>) {
    && (result.Some? <==> ReadAll(output).Some? && |ReadAll(output).value| <= maxFiles && IsTree(ReadAll(output).value))
    && (result.Some? ==>
          && Increasing(Paths(result.value)) && |result.value| == |ReadAll(output).value|
          && forall e :: e in result.value <==> e in ReadAll(output).value)
  }

  lemma ReadStep(rest: seq<Byte>)
    requires rest != []
    ensures var end := IndexByte(rest, 0);
      ReadAll(rest) ==
        if end == |rest| then None
        else if end == 0 then ReadAll(rest[1..])
        else
          var entry, entries := ReadRecord(rest[..end]), ReadAll(rest[end + 1..]);
          if entry.Some? && entries.Some? then Some([entry.value] + entries.value) else None
  {
    hide ReadRecord, IndexByte;
  }

  function After(entries: seq<Entry>, rest: Option<seq<Entry>>): Option<seq<Entry>> {
    if rest.Some? then Some(entries + rest.value) else None
  }

  lemma AfterOne(entries: seq<Entry>, e: Entry, rest: Option<seq<Entry>>)
    ensures After(entries, if rest.Some? then Some([e] + rest.value) else None) == After(entries + [e], rest)
  {
    if rest.Some? { assert entries + ([e] + rest.value) == entries + [e] + rest.value; }
  }

  lemma AfterNothing(entries: seq<Entry>, rest: Option<seq<Entry>>)
    ensures After([], rest) == rest && After(entries, Some([])) == Some(entries)
  {
    if rest.Some? { assert [] + rest.value == rest.value; }
    assert entries + [] == entries;
  }

  /** The first loop: every record read, no path twice, no more entries than allowed. */
  method ReadEntries(output: seq<Byte>, maxFiles: nat) returns (entries: Option<seq<Entry>>)
    ensures entries.Some? ==> ReadAll(output) == entries && |entries.value| <= maxFiles
    ensures entries.Some? ==> forall i, j :: 0 <= i < j < |entries.value| ==> entries.value[i].path != entries.value[j].path
    ensures entries.None? && ReadAll(output).Some? && |ReadAll(output).value| <= maxFiles ==>
      exists i, j :: 0 <= i < j < |ReadAll(output).value| && ReadAll(output).value[i].path == ReadAll(output).value[j].path
  {
    hide ReadAll, ReadRecord, After, Split;
    var found: seq<Entry> := [];
    var seen: set<string> := {};
    var offset := 0;
    assert output[0..] == output;
    AfterNothing([], ReadAll(output));
    while offset < |output|
      invariant 0 <= offset <= |output| && |found| <= maxFiles
      invariant ReadAll(output) == After(found, ReadAll(output[offset..]))
      invariant forall p :: p in seen <==> p in Paths(found)
      invariant forall i, j :: 0 <= i < j < |found| ==> found[i].path != found[j].path
      decreases |output| - offset
    {
      var rest := output[offset..];
      ReadStep(rest);
      var end := IndexByte(rest, 0);
      if end == |rest| { NothingAfter(found); return None; }
      assert rest[end + 1..] == output[offset + end + 1..];
      offset := offset + end + 1;
      if end == 0 { continue; }
      var record := ReadRecord(rest[..end]);
      if record.None? { NothingAfter(found); return None; }
      AfterOne(found, record.value, ReadAll(output[offset..]));
      if record.value.path in seen {
        Repeated(found, record.value, ReadAll(output[offset..]));
        return None;
      }
      if |found| >= maxFiles {
        LongerAfter(found + [record.value], ReadAll(output[offset..]));
        return None;
      }
      seen := seen + {record.value.path};
      AppendedPaths(found, record.value);
      found := found + [record.value];
    }
    assert output[offset..] == [];
    NothingRead();
    AfterNothing(found, None);
    return Some(found);
  }

  lemma NothingAfter(found: seq<Entry>)
    ensures After(found, None).None?
  {
  }

  lemma NothingRead()
    ensures ReadAll([]) == Some([])
  {
  }

  lemma {:induction false} AppendedPaths(entries: seq<Entry>, e: Entry)
    ensures Paths(entries + [e]) == Paths(entries) + [e.path]
    ensures forall i :: 0 <= i < |entries| ==> entries[i].path in Paths(entries)
  {
    forall i | 0 <= i < |entries| ensures entries[i].path in Paths(entries) { assert Paths(entries)[i] == entries[i].path; }
  }

  lemma LongerAfter(entries: seq<Entry>, rest: Option<seq<Entry>>)
    ensures After(entries, rest).Some? ==> |After(entries, rest).value| >= |entries|
  {
  }

  lemma Repeated(found: seq<Entry>, e: Entry, rest: Option<seq<Entry>>)
    requires e.path in Paths(found)
    ensures var all := After(found + [e], rest);
      all.Some? ==> exists i, j :: 0 <= i < j < |all.value| && all.value[i].path == all.value[j].path
  {
    var i :| 0 <= i < |found| && Paths(found)[i] == e.path;
    if rest.Some? {
      var all := found + [e] + rest.value;
      assert all[i].path == all[|found|].path;
    }
  }

  /** Accepts exactly the listings whose entries all read, repeat no path and put no path under another, within the limit. */
  method ParseTreeEntries(output: seq<Byte>, maxFiles: nat) returns (r: Option<seq<Entry>>)
    ensures Listing(output, maxFiles, r)
  {
    hide ReadAll, Split, IsAbove;
    var entries := ReadEntries(output, maxFiles);
    if entries.None? { return None; }
    var paths := set p | p in Paths(entries.value);
    var k := 0;
    while k < |entries.value|
      invariant 0 <= k <= |entries.value|
      invariant forall i, j :: 0 <= i < |entries.value| && 0 <= j < k ==> !IsAbove(entries.value[i].path, entries.value[j].path)
    {
      var under := IsUnderEntry(entries.value[k].path, paths);
      if under {
        var directory :| directory in paths && IsAbove(directory, entries.value[k].path);
        var i :| 0 <= i < |entries.value| && Paths(entries.value)[i] == directory;
        return None;
      }
      forall i | 0 <= i < |entries.value| ensures !IsAbove(entries.value[i].path, entries.value[k].path) {
        assert Paths(entries.value)[i] in paths;
      }
      k := k + 1;
    }
    var sorted := SortEntries(entries.value);
    return Some(sorted);
  }
}
