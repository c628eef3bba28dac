/** The modules a controller loads: a memoised search over local `require` calls with limits. */
module RequireGraph {
  import opened JsonValues
  import opened Graphs
  import Strings

  type Path = string

  const MAX_DEPTH := 8
  const MAX_MODULES := 32
  const MAX_BYTES := 1000000

  datatype Outcome = Module | Unresolved(code: string)

  /** A top-level statement: harmless, a constant bound to a `require` call, or unsupported. */
  datatype Statement = Inert | Require(target: Option<Path>) | Unsupported

  /** A scanned source: what inspecting it finds, and in which order. */
  datatype File = File(bytes: nat, scopeError: Option<string>, earlyError: Option<string>, body: seq<Statement>, lateError: Option<string>)
  type Files = map<Path, File>

  predicate Supported(statement: Statement) {
    statement.Inert? || (statement.Require? && statement.target.Some?)
  }

  /** Passes inspection as far as the file itself goes. */
  predicate Passes(file: File) {
    && file.scopeError.None? && file.earlyError.None? && file.lateError.None?
    && forall k :: 0 <= k < |file.body| ==> Supported(file.body[k])
  }

  function Targets(body: seq<Statement>): (r: seq<Path>)
    ensures forall k :: 0 <= k < |body| && body[k].Require? && body[k].target.Some? ==> body[k].target.value in r
  {
    if body == [] then []
    else
      var last := body[|body| - 1];
      Targets(body[..|body| - 1]) + if last.Require? && last.target.Some? then [last.target.value] else []
  }

  function Requires(files: Files): Graph<Path> {
    map p | p in files :: Targets(files[p].body)
  }

  // ---------- bytes ----------

  ghost function Bytes(files: Files, paths: set<Path>): nat
    requires paths <= files.Keys
  {
    if paths == {} then 0
    else
      var p :| p in paths;
      files[p].bytes + Bytes(files, paths - {p})
  }

  lemma {:induction false} BytesWith(files: Files, paths: set<Path>, p: Path)
    requires paths <= files.Keys && p in files && p !in paths
    ensures Bytes(files, paths + {p}) == Bytes(files, paths) + files[p].bytes
    decreases paths
  {
    var all := paths + {p};
    var q :| q in all && Bytes(files, all) == files[q].bytes + Bytes(files, all - {q});
    if q == p {
      assert all - {q} == paths;
    } else {
      assert all - {q} == (paths - {q}) + {p};
      BytesWith(files, paths - {q}, p);
      BytesWith(files, paths - {q}, q);
      assert (paths - {q}) + {q} == paths;
    }
  }

  lemma {:induction false} BytesMonotone(files: Files, a: set<Path>, b: set<Path>)
    requires a <= b <= files.Keys
    ensures Bytes(files, a) <= Bytes(files, b)
    decreases b
  {
    if a != b {
      assert exists p :: p in b && p !in a;
      var p :| p in b && p !in a;
      BytesWith(files, b - {p}, p);
      assert (b - {p}) + {p} == b;
      BytesMonotone(files, a, b - {p});
    }
  }

  // ---------- when the search must succeed ----------

  /** A closure whose chains have at most so many steps: ranks fall along every require. */
  ghost predicate Fitting(files: Files, closure: set<Path>, rank: map<Path, nat>) {
    && closure <= files.Keys && closure <= rank.Keys
    && |closure| <= MAX_MODULES && Bytes(files, closure) <= MAX_BYTES
    && forall p :: p in closure ==>
         && Passes(files[p])
         && forall k :: 0 <= k < |files[p].body| && files[p].body[k].Require? ==>
              files[p].body[k].target.value in closure && rank[files[p].body[k].target.value] < rank[p]
  }

  ghost predicate Roomy(files: Files, closure: set<Path>, rank: map<Path, nat>, known: set<Path>, open: set<Path>, p: Path, depth: nat) {
    && Fitting(files, closure, rank)
    && p in closure && rank[p] + depth <= MAX_DEPTH
    && known <= closure && open <= closure
    && forall v :: v in open ==> rank[v] > rank[p]
  }

  // ---------- why a controller is refused ----------

  /** Each path on the way is a file that requires the next one. */
  ghost predicate Route(files: Files, way: seq<Path>) {
    way != [] && forall i :: 0 <= i < |way| - 1 ==> RequiresNext(files, way[i], way[i + 1])
  }

  predicate RequiresNext(files: Files, p: Path, q: Path) {
    p in files && Require(Some(q)) in files[p].body
  }

  ghost predicate Routed(files: Files, start: Path, p: Path) {
    exists way :: Route(files, way) && way[0] == start && way[|way| - 1] == p
  }

  ghost predicate AllRouted(files: Files, start: Path, paths: set<Path>) {
    forall p :: p in paths ==> Routed(files, start, p)
  }

  /** A module on some way from the controller is missing, says something unsupported, or comes again. */
  ghost predicate Unverified(files: Files, start: Path) {
    || (exists p :: Routed(files, start, p) && p !in files)
    || (exists p, k :: Routed(files, start, p) && p in files && 0 <= k < |files[p].body| && !Supported(files[p].body[k]))
    || (exists way :: Route(files, way) && way[0] == start && way[|way| - 1] in way[..|way| - 1])
  }

  /** A way of more than eight steps, more than 32 modules, or more than a million bytes. */
  ghost predicate TooMuch(files: Files, start: Path) {
    || (exists way :: Route(files, way) && way[0] == start && |way| > 9)
    || (exists paths: set<Path> :: AllRouted(files, start, paths) && |paths| > 32)
    || (exists paths: set<Path> :: AllRouted(files, start, paths) && paths <= files.Keys && Bytes(files, paths) > 1000000)
  }

  /** A code refuses the controller: of what is unverified, of what is too much, or of an error a module has. */
  ghost predicate Blames(files: Files, start: Path, code: string) {
    || (code == "handler_initialization_unverified" && Unverified(files, start))
    || (code == "handler_source_limit_exceeded" && TooMuch(files, start))
    || exists p :: Routed(files, start, p) && p in files && HasError(files[p], code)
  }

  predicate HasError(file: File, code: string) {
    file.scopeError == Some(code) || file.earlyError == Some(code) || file.lateError == Some(code)
  }

  /** The way the search came: the modules being visited, and then this one. */
  ghost predicate Came(files: Files, way: seq<Path>, visiting: set<Path>, p: Path, depth: nat) {
    && Route(files, way) && |way| == depth + 1 && way[depth] == p
    && forall q :: q in visiting <==> q in way[..depth]
  }

  lemma {:induction false} CameRouted(files: Files, way: seq<Path>, visiting: set<Path>, p: Path, depth: nat)
    requires Came(files, way, visiting, p, depth)
    ensures AllRouted(files, way[0], visiting + {p})
  {
    forall q | q in visiting + {p} ensures Routed(files, way[0], q) {
      if q in visiting {
        var i :| 0 <= i < depth && way[i] == q;
        assert Route(files, way[..i + 1]) && way[..i + 1][0] == way[0];
      }
    }
  }

  lemma CameFurther(files: Files, way: seq<Path>, visiting: set<Path>, p: Path, depth: nat, q: Path)
    requires Came(files, way, visiting, p, depth) && RequiresNext(files, p, q)
    ensures Came(files, way + [q], visiting + {p}, q, depth + 1)
  {
    assert (way + [q])[..depth + 1] == way;
    assert way == way[..depth] + [p];
  }

  lemma CameAgain(files: Files, way: seq<Path>, visiting: set<Path>, p: Path, depth: nat)
    requires Came(files, way, visiting, p, depth) && p in visiting
    ensures Blames(files, way[0], "handler_initialization_unverified")
  {
    assert |way| - 1 == depth;
  }

  lemma CameTooFar(files: Files, way: seq<Path>, visiting: set<Path>, p: Path, depth: nat, known: set<Path>)
    requires Came(files, way, visiting, p, depth) && AllRouted(files, way[0], known)
    requires depth > MAX_DEPTH || |known + visiting + {p}| > MAX_MODULES
    ensures Blames(files, way[0], "handler_source_limit_exceeded")
  {
    hide Route, Routed, Unverified;
    if depth <= MAX_DEPTH {
      CameRouted(files, way, visiting, p, depth);
      RoutedTogether(files, way[0], known, visiting, p);
      hide AllRouted;
      assert TooMuch(files, way[0]);
    } else {
      assert |way| > 9;
    }
  }

  lemma RoutedTogether(files: Files, start: Path, known: set<Path>, visiting: set<Path>, p: Path)
    requires AllRouted(files, start, known) && AllRouted(files, start, visiting + {p})
    ensures AllRouted(files, start, known + visiting + {p})
  {
    hide Routed;
  }

  lemma CameTooHeavy(files: Files, way: seq<Path>, visiting: set<Path>, p: Path, depth: nat, known: set<Path>)
    requires Came(files, way, visiting, p, depth) && AllRouted(files, way[0], known)
    requires known + visiting + {p} <= files.Keys && Bytes(files, known + visiting + {p}) > MAX_BYTES
    ensures Blames(files, way[0], "handler_source_limit_exceeded")
  {
    CameRouted(files, way, visiting, p, depth);
    assert AllRouted(files, way[0], known + visiting + {p});
  }

  lemma CameToMissing(files: Files, way: seq<Path>, visiting: set<Path>, p: Path, depth: nat)
    requires Came(files, way, visiting, p, depth) && p !in files
    ensures Blames(files, way[0], "handler_initialization_unverified")
  {
    CameRouted(files, way, visiting, p, depth);
    assert p in visiting + {p};
  }

  lemma CameToError(files: Files, way: seq<Path>, visiting: set<Path>, p: Path, depth: nat)
    requires Came(files, way, visiting, p, depth) && p in files
    ensures forall code :: HasError(files[p], code) ==> Blames(files, way[0], code)
    ensures (exists k :: 0 <= k < |files[p].body| && !Supported(files[p].body[k])) ==>
      Blames(files, way[0], "handler_initialization_unverified")
  {
    CameRouted(files, way, visiting, p, depth);
    assert p in visiting + {p};
  }

  lemma NowRouted(files: Files, way: seq<Path>, visiting: set<Path>, p: Path, depth: nat, known: set<Path>)
    requires Came(files, way, visiting, p, depth) && AllRouted(files, way[0], known)
    ensures AllRouted(files, way[0], known + {p})
  {
    CameRouted(files, way, visiting, p, depth);
  }

  // ---------- the search ----------

  /** Every loaded module passed, after the modules it requires. */
  ghost predicate LoadedClean(files: Files, loaded: map<Path, Outcome>, order: seq<Path>) {
    && loaded.Keys <= files.Keys
    && (forall p :: p in loaded ==> loaded[p].Module? && Passes(files[p]))
    && (forall p :: p in loaded <==> p in order)
    && Ordered(Requires(files), order)
  }

  ghost predicate Counted(files: Files, paths: set<Path>, bytes: nat) {
    paths <= files.Keys && |paths| <= MAX_MODULES && bytes == Bytes(files, paths) <= MAX_BYTES
  }

  /** Nothing has failed so far. */
  ghost predicate CleanAt(files: Files, loaded: map<Path, Outcome>, visiting: set<Path>, bytes: nat, order: seq<Path>) {
    LoadedClean(files, loaded, order) && visiting !! loaded.Keys && Counted(files, loaded.Keys + visiting, bytes)
  }

  lemma CountOne(files: Files, paths: set<Path>, bytes: nat, p: Path)
    requires Counted(files, paths, bytes) && p in files && p !in paths && |paths| < MAX_MODULES && bytes + files[p].bytes <= MAX_BYTES
    ensures Counted(files, paths + {p}, bytes + files[p].bytes)
  {
    BytesWith(files, paths, p);
    hide Bytes;
  }

  lemma OpenOne(files: Files, loaded: map<Path, Outcome>, visiting: set<Path>, bytes: nat, order: seq<Path>, p: Path)
    requires CleanAt(files, loaded, visiting, bytes, order)
    requires p in files && p !in visiting && p !in loaded && |loaded.Keys + visiting| < MAX_MODULES
    requires bytes + files[p].bytes <= MAX_BYTES
    ensures CleanAt(files, loaded, visiting + {p}, bytes + files[p].bytes, order)
  {
    hide LoadedClean, Counted;
    assert loaded.Keys + (visiting + {p}) == loaded.Keys + visiting + {p};
    CountOne(files, loaded.Keys + visiting, bytes, p);
  }

  ghost predicate AllLoaded(files: Files, loaded: map<Path, Outcome>, targets: seq<Path>) {
    forall k :: 0 <= k < |targets| ==> targets[k] in loaded
  }

  lemma LoadOne(files: Files, loaded: map<Path, Outcome>, order: seq<Path>, p: Path)
    requires LoadedClean(files, loaded, order) && p in files
    requires Passes(files[p]) && AllLoaded(files, loaded, Targets(files[p].body))
    ensures LoadedClean(files, loaded[p := Module], order + [p])
  {
    hide Passes, Targets;
    forall k | 0 <= k < |Requires(files)[p]| ensures Requires(files)[p][k] in order {
      assert Targets(files[p].body)[k] in loaded;
    }
    OrderedAppend(Requires(files), order, p);
    hide Ordered, Requires;
  }

  lemma CloseOne(files: Files, loaded: map<Path, Outcome>, visiting: set<Path>, bytes: nat, order: seq<Path>, p: Path)
    requires CleanAt(files, loaded, visiting, bytes, order) && p in visiting && p in files
    requires Passes(files[p]) && AllLoaded(files, loaded, Targets(files[p].body))
    ensures CleanAt(files, loaded[p := Module], visiting - {p}, bytes, order + [p])
  {
    hide Passes, Targets, Counted, AllLoaded, LoadedClean;
    LoadOne(files, loaded, order, p);
    assert loaded[p := Module].Keys + (visiting - {p}) == loaded.Keys + visiting;
  }

  /** Newly loaded modules are reached from here, and nothing already loaded is lost. */
  ghost predicate GrewFrom(files: Files, before: map<Path, Outcome>, after: map<Path, Outcome>, from: seq<Path>) {
    && (forall p :: p in before ==> p in after)
    && forall p :: p in after ==> p in before || exists k :: 0 <= k < |from| && Reaches(Requires(files), from[k], p)
  }

  lemma GrewNothing(files: Files, loaded: map<Path, Outcome>, from: seq<Path>)
    ensures GrewFrom(files, loaded, loaded, from)
  {
  }

  lemma GrewThen(files: Files, a: map<Path, Outcome>, b: map<Path, Outcome>, c: map<Path, Outcome>, one: seq<Path>, p: Path)
    requires GrewFrom(files, a, b, one) && GrewFrom(files, b, c, [p])
    ensures GrewFrom(files, a, c, one + [p])
  {
    hide Reaches;
    forall q | q in c && q !in a ensures exists k :: 0 <= k < |one + [p]| && Reaches(Requires(files), (one + [p])[k], q) {
      if q in b {
        var k :| 0 <= k < |one| && Reaches(Requires(files), one[k], q);
        assert (one + [p])[k] == one[k];
      } else {
        var k :| 0 <= k < 1 && Reaches(Requires(files), [p][k], q);
        assert (one + [p])[|one|] == p;
      }
    }
  }

  /** What a module's targets reach, the module reaches. */
  lemma GrewFromModule(files: Files, a: map<Path, Outcome>, b: map<Path, Outcome>, p: Path)
    requires p in files && GrewFrom(files, a, b, Targets(files[p].body))
    ensures GrewFrom(files, a, b[p := Module], [p])
  {
    var g := Requires(files);
    assert g[p] == Targets(files[p].body);
    hide Targets, Requires;
    assert Goes(g, [p], p, p);
    forall q | q in b[p := Module] && q !in a ensures Reaches(g, [p][0], q) {
      if q != p {
        var k :| 0 <= k < |g[p]| && Reaches(g, g[p][k], q);
        var path: seq<Path> :| Goes(g, path, g[p][k], q);
        PathFrom(g, path, p, g[p][k], q);
      }
    }
  }

  class RequireSearch {
    const files: Files
    var loaded: map<Path, Outcome>
    var visiting: set<Path>
    var bytes: nat
    ghost var order: seq<Path>

    constructor (files: Files)
      ensures this.files == files && Clean() && loaded == map[] && visiting == {}
    {
      this.files := files;
      loaded, visiting, bytes, order := map[], {}, 0, [];
    }

    ghost predicate Clean()
      reads this
    {
      CleanAt(files, loaded, visiting, bytes, order)
    }

    /** The guards of the search: an answer, or room for one more module whose bytes are then counted. */
    method Enter(absolute: Path, depth: nat, ghost way: seq<Path>, ghost roomy: bool, ghost closure: set<Path>, ghost rank: map<Path, nat>)
      returns (answer: Option<Outcome>)
      requires Clean() && Came(files, way, visiting, absolute, depth) && way != [] && AllRouted(files, way[0], loaded.Keys)
      requires roomy ==> Roomy(files, closure, rank, loaded.Keys, visiting, absolute, depth)
      modifies `bytes
      ensures answer.Some? && answer.value.Module? ==> Clean() && absolute in loaded
      ensures answer.None? ==>
        && absolute in files && absolute !in visiting && files[absolute].scopeError.None?
        && CleanAt(files, loaded, visiting + {absolute}, bytes, order)
      ensures roomy ==> answer.None? || answer.value.Module?
      ensures answer.Some? && answer.value.Unresolved? ==> Blames(files, way[0], answer.value.code)
    {
      hide Blames, Came, AllRouted, CleanAt, Roomy, Fitting, Bytes;
      if roomy { RoomyIsNew(files, closure, rank, loaded.Keys, visiting, absolute, depth); }
      if absolute in visiting {
        CameAgain(files, way, visiting, absolute, depth);
        return Some(Unresolved("handler_initialization_unverified"));
      }
      if absolute in loaded {
        CleanIsModule(files, loaded, visiting, bytes, order, absolute);
        return Some(loaded[absolute]);
      }
      if roomy { RoomyForOne(files, closure, rank, loaded, visiting, bytes, order, absolute, depth); }
      answer := Admit(absolute, depth, way);
    }

    /** Refuses a module that is too deep, too many, missing, too heavy or out of scope; else counts its bytes. */
    method Admit(absolute: Path, depth: nat, ghost way: seq<Path>) returns (answer: Option<Outcome>)
      requires Clean() && Came(files, way, visiting, absolute, depth) && way != [] && AllRouted(files, way[0], loaded.Keys)
      requires absolute !in visiting && absolute !in loaded
      modifies `bytes
      ensures answer.None? <==> old(
        && absolute in files && depth <= MAX_DEPTH && |loaded.Keys| + |visiting| < MAX_MODULES
        && files[absolute].scopeError.None? && bytes + files[absolute].bytes <= MAX_BYTES)
      ensures answer.None? ==> CleanAt(files, loaded, visiting + {absolute}, bytes, order)
      ensures answer.Some? ==> answer.value.Unresolved? && Blames(files, way[0], answer.value.code)
    {
      hide Blames, Came, AllRouted, CleanAt;
      Refusals(files, loaded, visiting, bytes, order, way, absolute, depth);
      if depth > MAX_DEPTH || |loaded.Keys| + |visiting| >= MAX_MODULES {
        return Some(Unresolved("handler_source_limit_exceeded"));
      }
      if absolute !in files { return Some(Unresolved("handler_initialization_unverified")); }
      OpenRoom(files, loaded, visiting, bytes, order, absolute);
      bytes := bytes + files[absolute].bytes;
      if bytes > MAX_BYTES { return Some(Unresolved("handler_source_limit_exceeded")); }
      if files[absolute].scopeError.Some? { return Some(Unresolved(files[absolute].scopeError.value)); }
      return None;
    }

    method InspectGraph(absolute: Path, depth: nat, ghost way: seq<Path>, ghost roomy: bool, ghost closure: set<Path>, ghost rank: map<Path, nat>)
      returns (r: Outcome)
      requires Clean() && Came(files, way, visiting, absolute, depth) && way != [] && AllRouted(files, way[0], loaded.Keys)
      requires roomy ==> Roomy(files, closure, rank, loaded.Keys, visiting, absolute, depth)
      modifies this
      ensures r.Module? ==> Clean() && visiting == old(visiting) && GrewFrom(files, old(loaded), loaded, [absolute]) && absolute in loaded
      ensures roomy ==> r.Module? && loaded.Keys <= closure
      ensures if r.Module? then AllRouted(files, way[0], loaded.Keys) else Blames(files, way[0], r.code)
      decreases files.Keys - visiting, 1
    {
      hide CleanAt, GrewFrom, Roomy, AllLoaded, Passes, Targets, Came, AllRouted, Blames;
      GrewNothing(files, loaded, [absolute]);
      InsideRoom(files, closure, rank, loaded.Keys, visiting, absolute, depth);
      var answer := Enter(absolute, depth, way, roomy, closure, rank);
      if answer.Some? { return answer.value; }
      r := Load(absolute, depth, way, roomy, closure, rank);
    }

    /** A module that is not loaded yet and whose bytes are counted. */
    method Load(absolute: Path, depth: nat, ghost way: seq<Path>, ghost roomy: bool, ghost closure: set<Path>, ghost rank: map<Path, nat>)
      returns (r: Outcome)
      requires Came(files, way, visiting, absolute, depth) && way != [] && AllRouted(files, way[0], loaded.Keys)
      requires CleanAt(files, loaded, visiting + {absolute}, bytes, order)
      requires absolute in files && absolute !in visiting && files[absolute].scopeError.None?
      requires roomy ==> Roomy(files, closure, rank, loaded.Keys, visiting, absolute, depth)
      modifies this
      ensures r.Module? ==> Clean() && visiting == old(visiting) && GrewFrom(files, old(loaded), loaded, [absolute]) && absolute in loaded
      ensures roomy ==> r.Module? && loaded.Keys <= closure
      ensures if r.Module? then AllRouted(files, way[0], loaded.Keys) else Blames(files, way[0], r.code)
      decreases files.Keys - visiting, 0
    {
      hide CleanAt, GrewFrom, Roomy, AllLoaded, Passes, Targets, Came, AllRouted, Blames;
      ghost var loaded0, visiting0 := loaded, visiting;
      InsideRoom(files, closure, rank, loaded.Keys, visiting, absolute, depth);
      visiting := visiting + {absolute};
      r := InspectModule(absolute, depth, way, roomy, closure, rank, visiting0);
      if r.Module? {
        NowRouted(files, way, visiting0, absolute, depth, loaded.Keys);
        CloseOne(files, loaded, visiting, bytes, order, absolute);
        GrewFromModule(files, loaded0, loaded, absolute);
      }
      visiting := visiting - {absolute};
      assert loaded[absolute := r].Keys == loaded.Keys + {absolute};
      loaded := loaded[absolute := r];
      order := order + [absolute];
    }

    /** The module's own checks, and the search from each module it requires, in order, up to the first failure. */
    method InspectModule(absolute: Path, depth: nat, ghost way: seq<Path>, ghost roomy: bool, ghost closure: set<Path>,
                         ghost rank: map<Path, nat>, ghost above: set<Path>)
      returns (r: Outcome)
      requires Came(files, way, above, absolute, depth) && way != [] && AllRouted(files, way[0], loaded.Keys)
      requires Clean() && visiting == above + {absolute} && absolute in files && files[absolute].scopeError.None?
      requires roomy ==> Roomy(files, closure, rank, loaded.Keys, above, absolute, depth)
      modifies this
      ensures r.Module? ==>
        && Clean() && visiting == old(visiting) && GrewFrom(files, old(loaded), loaded, Targets(files[absolute].body))
        && Passes(files[absolute]) && AllLoaded(files, loaded, Targets(files[absolute].body))
      ensures roomy ==> r.Module? && loaded.Keys <= closure
      ensures if r.Module? then AllRouted(files, way[0], loaded.Keys) else Blames(files, way[0], r.code)
      decreases files.Keys - visiting, 2
    {
      hide CleanAt, GrewFrom, Targets, Came, AllRouted, Blames;
      CameToError(files, way, above, absolute, depth);
      var file := files[absolute];
      if roomy { FileIsFit(files, closure, rank, absolute); }
      if file.earlyError.Some? { return Unresolved(file.earlyError.value); }
      var k := 0;
      assert file.body[..0] == [];
      NoTargets();
      GrewNothing(files, loaded, []);
      while k < |file.body|
        invariant 0 <= k <= |file.body| && Clean() && visiting == old(visiting)
        invariant GrewFrom(files, old(loaded), loaded, Targets(file.body[..k]))
        invariant AllLoaded(files, loaded, Targets(file.body[..k]))
        invariant forall i :: 0 <= i < k ==> Supported(file.body[i])
        invariant AllRouted(files, way[0], loaded.Keys)
        invariant roomy ==> Roomy(files, closure, rank, loaded.Keys, above, absolute, depth)
      {
        TargetsStep(file.body, k);
        if !Supported(file.body[k]) { return Unresolved("handler_initialization_unverified"); }
        if file.body[k].Require? {
          var target := file.body[k].target.value;
          ghost var before := loaded;
          if roomy { RoomBelow(files, closure, rank, loaded.Keys, above, absolute, depth, k); }
          assert RequiresNext(files, absolute, target);
          CameFurther(files, way, above, absolute, depth, target);
          assert (way + [target])[0] == way[0];
          var child := InspectGraph(target, depth + 1, way + [target], roomy, closure, rank);
          if child.Unresolved? { return child; }
          GrewThen(files, old(loaded), before, loaded, Targets(file.body[..k]), target);
          StillLoaded(files, before, loaded, Targets(file.body[..k]), target);
        }
        k := k + 1;
      }
      assert file.body[..k] == file.body;
      if file.lateError.Some? { return Unresolved(file.lateError.value); }
      return Module;
    }
  }

  lemma CleanIsModule(files: Files, loaded: map<Path, Outcome>, visiting: set<Path>, bytes: nat, order: seq<Path>, p: Path)
    requires CleanAt(files, loaded, visiting, bytes, order) && p in loaded
    ensures loaded[p].Module?
  {
  }

  lemma CleanCounts(files: Files, loaded: map<Path, Outcome>, visiting: set<Path>, bytes: nat, order: seq<Path>)
    requires CleanAt(files, loaded, visiting, bytes, order)
    ensures loaded.Keys + visiting <= files.Keys && visiting !! loaded.Keys && bytes == Bytes(files, loaded.Keys + visiting)
    ensures |loaded.Keys + visiting| == |loaded.Keys| + |visiting|
    ensures forall p :: p !in loaded && p !in visiting ==> |loaded.Keys + visiting + {p}| == |loaded.Keys| + |visiting| + 1
  {
    UnionSize(loaded.Keys, visiting);
  }

  lemma Refusals(files: Files, loaded: map<Path, Outcome>, visiting: set<Path>, bytes: nat, order: seq<Path>, way: seq<Path>,
                 p: Path, depth: nat)
    requires CleanAt(files, loaded, visiting, bytes, order) && p !in loaded && p !in visiting
    requires Came(files, way, visiting, p, depth) && way != [] && AllRouted(files, way[0], loaded.Keys)
    ensures depth > MAX_DEPTH || |loaded.Keys| + |visiting| >= MAX_MODULES ==> Blames(files, way[0], "handler_source_limit_exceeded")
    ensures p !in files ==> Blames(files, way[0], "handler_initialization_unverified")
    ensures p in files && bytes + files[p].bytes > MAX_BYTES ==> Blames(files, way[0], "handler_source_limit_exceeded")
    ensures p in files && files[p].scopeError.Some? ==> Blames(files, way[0], files[p].scopeError.value)
  {
    hide Blames, Came, AllRouted, CleanAt, Bytes;
    CleanCounts(files, loaded, visiting, bytes, order);
    if depth > MAX_DEPTH || |loaded.Keys| + |visiting| >= MAX_MODULES {
      CameTooFar(files, way, visiting, p, depth, loaded.Keys);
    }
    if p !in files {
      CameToMissing(files, way, visiting, p, depth);
    } else {
      CameToError(files, way, visiting, p, depth);
      BytesWith(files, loaded.Keys + visiting, p);
      if bytes + files[p].bytes > MAX_BYTES { CameTooHeavy(files, way, visiting, p, depth, loaded.Keys); }
    }
  }

  lemma OpenRoom(files: Files, loaded: map<Path, Outcome>, visiting: set<Path>, bytes: nat, order: seq<Path>, p: Path)
    requires CleanAt(files, loaded, visiting, bytes, order)
    requires p in files && p !in visiting && p !in loaded && |loaded.Keys| + |visiting| < MAX_MODULES
    ensures bytes + files[p].bytes <= MAX_BYTES ==> CleanAt(files, loaded, visiting + {p}, bytes + files[p].bytes, order)
  {
    hide CleanAt;
    CleanCounts(files, loaded, visiting, bytes, order);
    if bytes + files[p].bytes <= MAX_BYTES { OpenOne(files, loaded, visiting, bytes, order, p); }
  }

  lemma RoomyIsNew(files: Files, closure: set<Path>, rank: map<Path, nat>, known: set<Path>, open: set<Path>, p: Path, depth: nat)
    requires Roomy(files, closure, rank, known, open, p, depth)
    ensures p !in open
  {
  }

  lemma RoomyForOne(files: Files, closure: set<Path>, rank: map<Path, nat>, loaded: map<Path, Outcome>, open: set<Path>,
                    bytes: nat, order: seq<Path>, p: Path, depth: nat)
    requires Roomy(files, closure, rank, loaded.Keys, open, p, depth) && CleanAt(files, loaded, open, bytes, order) && p !in loaded
    ensures p in files && depth <= MAX_DEPTH && |loaded.Keys| + |open| < MAX_MODULES && files[p].scopeError.None?
    ensures bytes + files[p].bytes <= MAX_BYTES
  {
    hide Bytes, Roomy, Fitting;
    CleanCounts(files, loaded, open, bytes, order);
    RoomForOne(files, closure, rank, loaded.Keys, open, p, depth);
    BytesWith(files, loaded.Keys + open, p);
  }

  lemma NoTargets()
    ensures Targets([]) == []
  {
  }

  lemma TargetsStep(body: seq<Statement>, k: nat)
    requires k < |body|
    ensures Targets(body[..k + 1]) == if body[k].Require? && body[k].target.Some? then Targets(body[..k]) + [body[k].target.value] else Targets(body[..k])
  {
    assert body[..k + 1][..k] == body[..k];
  }

  lemma StillLoaded(files: Files, before: map<Path, Outcome>, after: map<Path, Outcome>, targets: seq<Path>, p: Path)
    requires AllLoaded(files, before, targets) && GrewFrom(files, before, after, [p]) && p in after
    ensures AllLoaded(files, after, targets + [p])
  {
  }

  lemma InsideRoom(files: Files, closure: set<Path>, rank: map<Path, nat>, known: set<Path>, open: set<Path>, p: Path, depth: nat)
    ensures Roomy(files, closure, rank, known, open, p, depth) ==> known <= closure && p in closure
  {
  }

  lemma FileIsFit(files: Files, closure: set<Path>, rank: map<Path, nat>, p: Path)
    requires Fitting(files, closure, rank) && p in closure
    ensures p in files && Passes(files[p])
  {
  }

  /** The room left for a required module, one step deeper. */
  lemma RoomBelow(files: Files, closure: set<Path>, rank: map<Path, nat>, known: set<Path>, open: set<Path>, p: Path, depth: nat, k: nat)
    requires Roomy(files, closure, rank, known, open, p, depth)
    requires k < |files[p].body| && files[p].body[k].Require?
    ensures Roomy(files, closure, rank, known, open + {p}, files[p].body[k].target.value, depth + 1)
  {
  }

  lemma UnionSize(a: set<Path>, b: set<Path>)
    requires a !! b
    ensures |a + b| == |a| + |b|
  {
  }

  lemma RoomForOne(files: Files, closure: set<Path>, rank: map<Path, nat>, known: set<Path>, open: set<Path>, p: Path, depth: nat)
    requires Roomy(files, closure, rank, known, open, p, depth) && p !in known && known !! open
    ensures p in files && p !in open && depth <= MAX_DEPTH && |known + open| < MAX_MODULES && files[p].scopeError.None?
    ensures known + open + {p} <= files.Keys && Bytes(files, known + open + {p}) <= MAX_BYTES
  {
    var more := known + open + {p};
    assert more <= closure;
    Strings.CardinalityMonotone(more, closure);
    assert |more| == |known + open| + 1;
    BytesMonotone(files, more, closure);
  }

  // ---------- a controller ----------

  /** Everything a controller loads: inspected with success, nothing missing, within the limits, and free of cycles. */
  ghost predicate Loads(files: Files, controller: Path, loaded: set<Path>) {
    && loaded <= files.Keys && |loaded| <= MAX_MODULES && Bytes(files, loaded) <= MAX_BYTES
    && (forall p :: p in loaded <==> Reaches(Requires(files), controller, p))
    && (forall p :: p in loaded ==> Passes(files[p]) && forall k :: 0 <= k < |Targets(files[p].body)| ==> Targets(files[p].body)[k] in loaded)
    && forall path: seq<Path> :: IsCycle(Requires(files), path) ==> path[0] !in loaded
  }

  lemma CleanLoads(files: Files, loaded: map<Path, Outcome>, bytes: nat, order: seq<Path>, controller: Path)
    requires CleanAt(files, loaded, {}, bytes, order) && controller in loaded
    requires GrewFrom(files, map[], loaded, [controller])
    ensures Loads(files, controller, loaded.Keys)
  {
    var g := Requires(files);
    assert loaded.Keys + {} == loaded.Keys;
    forall p ensures p in loaded <==> Reaches(g, controller, p) {
      if p in loaded {
        var k :| 0 <= k < 1 && Reaches(g, [controller][k], p);
      }
      if Reaches(g, controller, p) {
        var path: seq<Path> :| Goes(g, path, controller, p);
        PathDescends(g, order, path);
      }
    }
    forall p, k | p in loaded && 0 <= k < |Targets(files[p].body)| ensures Targets(files[p].body)[k] in loaded {
      var i :| 0 <= i < |order| && order[i] == p;
      assert g[order[i]][k] in order[..i];
    }
    forall path: seq<Path> | IsCycle(g, path) ensures path[0] !in loaded {
      if path[0] in order { PathDescends(g, order, path); }
    }
  }

  ghost predicate Ranked(files: Files, controller: Path, closure: set<Path>, rank: map<Path, nat>) {
    Fitting(files, closure, rank) && controller in closure && rank[controller] <= MAX_DEPTH
  }

  /** Everything fits, and no chain of requires from the controller has more than eight steps. */
  ghost predicate ShortChains(files: Files, controller: Path) {
    exists closure, rank :: Ranked(files, controller, closure, rank)
  }

  /**
   * Succeeds only on controllers that load, and then lists exactly what they load besides themselves;
   * always succeeds when everything fits and no chain of requires has more than eight steps.
   */
  method InspectController(files: Files, controller: Path) returns (r: Outcome, sources: set<Path>)
    ensures r.Module? ==> controller !in sources && Loads(files, controller, sources + {controller})
    ensures ShortChains(files, controller) ==> r.Module?
    ensures r.Unresolved? ==> Blames(files, controller, r.code)
  {
    hide Loads, CleanAt, GrewFrom, Fitting, Blames;
    var search := new RequireSearch(files);
    ghost var closure: set<Path>, rank: map<Path, nat> := {}, map[];
    ghost var roomy := ShortChains(files, controller);
    if roomy {
      closure, rank :| Ranked(files, controller, closure, rank);
      assert Roomy(files, closure, rank, {}, {}, controller, 0);
    }
    GrewNothing(files, search.loaded, []);
    r := search.InspectGraph(controller, 0, [controller], roomy, closure, rank);
    if r.Module? {
      CleanLoads(files, search.loaded, search.bytes, search.order, controller);
      assert search.loaded.Keys == (search.loaded.Keys - {controller}) + {controller};
    }
    sources := search.loaded.Keys - {controller};
  }
}
