/** Mounted routers: the cycle check over every mount, and the traversal over mounts with a static prefix. */
module MountGraph {
  import opened Graphs

  type Node = nat

  /** An argument of `use`, as far as mounting is concerned. */
  datatype Argument = Literal | Mounted(receiver: Node) | Handler | Other
  type Use = seq<Argument>
  datatype Receiver = Receiver(app: bool, uses: seq<Use>)
  datatype Program = Program(order: seq<Node>, receivers: map<Node, Receiver>)

  predicate IsMount(uses: seq<Use>, u: int, a: int) {
    0 <= u < |uses| && 0 <= a < |uses[u]| && uses[u][a].Mounted?
  }

  /** Receivers are listed once each, and only receivers are mounted. */
  ghost predicate WellFormed(p: Program) {
    && (forall n :: n in p.order <==> n in p.receivers)
    && (forall i, j :: 0 <= i < j < |p.order| ==> p.order[i] != p.order[j])
    && (forall n, u, a :: n in p.receivers && IsMount(p.receivers[n].uses, u, a) ==> p.receivers[n].uses[u][a].receiver in p.receivers)
  }

  /** The first of several arguments is neither a literal, nor a receiver, nor a function. */
  predicate HasDynamicPrefix(use: Use) {
    |use| > 1 && use[0].Other?
  }

  function MountsOf(use: Use): (r: seq<Node>) {
    if use == [] then []
    else MountsOf(use[..|use| - 1]) + if use[|use| - 1].Mounted? then [use[|use| - 1].receiver] else []
  }

  function Mounts(uses: seq<Use>): seq<Node> {
    if uses == [] then [] else Mounts(uses[..|uses| - 1]) + MountsOf(uses[|uses| - 1])
  }

  function StaticMounts(uses: seq<Use>): seq<Node> {
    if uses == [] then []
    else StaticMounts(uses[..|uses| - 1]) + if HasDynamicPrefix(uses[|uses| - 1]) then [] else MountsOf(uses[|uses| - 1])
  }

  function Full(p: Program): Graph<Node> {
    map n | n in p.receivers :: Mounts(p.receivers[n].uses)
  }

  /** Without the mounts whose prefix is computed. */
  function Static(p: Program): Graph<Node> {
    map n | n in p.receivers :: StaticMounts(p.receivers[n].uses)
  }

  lemma {:induction false} MountsOfMember(use: Use, n: Node)
    requires n in MountsOf(use)
    ensures exists a :: 0 <= a < |use| && use[a] == Mounted(n)
  {
    if n in MountsOf(use[..|use| - 1]) {
      MountsOfMember(use[..|use| - 1], n);
      var a :| 0 <= a < |use| - 1 && use[..|use| - 1][a] == Mounted(n);
      assert use[a] == Mounted(n);
    } else {
      assert use[|use| - 1] == Mounted(n);
    }
  }

  lemma {:induction false} MountsMember(uses: seq<Use>, n: Node)
    requires n in Mounts(uses)
    ensures exists u, a :: 0 <= u < |uses| && 0 <= a < |uses[u]| && uses[u][a] == Mounted(n)
  {
    var last := |uses| - 1;
    if n in Mounts(uses[..last]) {
      MountsMember(uses[..last], n);
      var u, a :| 0 <= u < last && 0 <= a < |uses[..last][u]| && uses[..last][u][a] == Mounted(n);
      assert uses[u][a] == Mounted(n);
    } else {
      MountsOfMember(uses[last], n);
      var a :| 0 <= a < |uses[last]| && uses[last][a] == Mounted(n);
      assert uses[last][a] == Mounted(n);
    }
  }

  lemma {:induction false} MountsPrefix(uses: seq<Use>, k: nat, n: Node)
    requires k <= |uses| && n in Mounts(uses[..k])
    ensures n in Mounts(uses)
    decreases |uses| - k
  {
    if k < |uses| {
      assert uses[..k + 1][..k] == uses[..k];
      MountsPrefix(uses, k + 1, n);
    } else {
      assert uses[..k] == uses;
    }
  }

  lemma {:induction false} MountsOfPrefix(use: Use, k: nat, n: Node)
    requires k <= |use| && n in MountsOf(use[..k])
    ensures n in MountsOf(use)
    decreases |use| - k
  {
    if k < |use| {
      assert use[..k + 1][..k] == use[..k];
      MountsOfPrefix(use, k + 1, n);
    } else {
      assert use[..k] == use;
    }
  }

  lemma MountedIsChild(uses: seq<Use>, u: nat, a: nat)
    requires IsMount(uses, u, a)
    ensures uses[u][a].receiver in Mounts(uses)
  {
    var n := uses[u][a].receiver;
    assert n in MountsOf(uses[u][..a + 1]);
    MountsOfPrefix(uses[u], a + 1, n);
    assert uses[..u + 1][u] == uses[u];
    MountsPrefix(uses, u + 1, n);
  }

  lemma NoMounts()
    ensures MountsOf([]) == [] && Mounts([]) == [] && StaticMounts([]) == []
  {
  }

  lemma MountsOfStep(use: Use, a: nat)
    requires a < |use|
    ensures MountsOf(use[..a + 1]) == MountsOf(use[..a]) + if use[a].Mounted? then [use[a].receiver] else []
  {
    assert use[..a + 1][..a] == use[..a];
  }

  lemma MountsStep(uses: seq<Use>, u: nat)
    requires u < |uses|
    ensures Mounts(uses[..u + 1]) == Mounts(uses[..u]) + MountsOf(uses[u])
    ensures StaticMounts(uses[..u + 1]) == StaticMounts(uses[..u]) + if HasDynamicPrefix(uses[u]) then [] else MountsOf(uses[u])
  {
    assert uses[..u + 1][..u] == uses[..u];
  }

  lemma {:induction false} StaticIsMounted(uses: seq<Use>, n: Node)
    requires n in StaticMounts(uses)
    ensures n in Mounts(uses)
  {
    if n in StaticMounts(uses[..|uses| - 1]) { StaticIsMounted(uses[..|uses| - 1], n); }
  }

  // ---------- what the mounts are, said on the uses ----------

  /** Some argument of some use is the node. */
  ghost predicate MountedBy(uses: seq<Use>, n: Node) {
    exists u, a :: 0 <= u < |uses| && 0 <= a < |uses[u]| && uses[u][a] == Mounted(n)
  }

  /** Such a use has no computed prefix: it has one argument, or starts with a literal, a receiver or a function. */
  ghost predicate MountedStatically(uses: seq<Use>, n: Node) {
    exists u, a :: 0 <= u < |uses| && 0 <= a < |uses[u]| && uses[u][a] == Mounted(n) && KnownStart(uses[u])
  }

  predicate KnownStart(use: Use)
    requires |use| > 0
  {
    |use| == 1 || use[0].Literal? || use[0].Mounted? || use[0].Handler?
  }

  lemma MountsExactly(uses: seq<Use>, n: Node)
    ensures n in Mounts(uses) <==> MountedBy(uses, n)
  {
    if n in Mounts(uses) { MountsMember(uses, n); }
    if MountedBy(uses, n) {
      var u, a :| 0 <= u < |uses| && 0 <= a < |uses[u]| && uses[u][a] == Mounted(n);
      assert IsMount(uses, u, a);
      MountedIsChild(uses, u, a);
    }
  }

  lemma {:induction false} StaticMountsMember(uses: seq<Use>, n: Node)
    requires n in StaticMounts(uses)
    ensures MountedStatically(uses, n)
  {
    var last := |uses| - 1;
    if n in StaticMounts(uses[..last]) {
      StaticMountsMember(uses[..last], n);
      var u, a :| 0 <= u < last && 0 <= a < |uses[..last][u]| && uses[..last][u][a] == Mounted(n) && KnownStart(uses[..last][u]);
      assert uses[u][a] == Mounted(n) && KnownStart(uses[u]);
    } else {
      MountsOfMember(uses[last], n);
      var a :| 0 <= a < |uses[last]| && uses[last][a] == Mounted(n);
      assert uses[last][a] == Mounted(n) && KnownStart(uses[last]);
    }
  }

  lemma {:induction false} StaticMountsPrefix(uses: seq<Use>, k: nat, n: Node)
    requires k <= |uses| && n in StaticMounts(uses[..k])
    ensures n in StaticMounts(uses)
    decreases |uses| - k
  {
    if k < |uses| {
      assert uses[..k + 1][..k] == uses[..k];
      StaticMountsPrefix(uses, k + 1, n);
    } else {
      assert uses[..k] == uses;
    }
  }

  /** The traversal follows exactly the mounts whose use has one argument or starts with a literal, a receiver or a function. */
  lemma StaticMountsExactly(uses: seq<Use>, n: Node)
    ensures n in StaticMounts(uses) <==> MountedStatically(uses, n)
  {
    if n in StaticMounts(uses) { StaticMountsMember(uses, n); }
    if MountedStatically(uses, n) {
      var u, a :| 0 <= u < |uses| && 0 <= a < |uses[u]| && uses[u][a] == Mounted(n) && KnownStart(uses[u]);
      KnownStartIsFollowed(uses, u, a);
    }
  }

  lemma KnownStartIsFollowed(uses: seq<Use>, u: nat, a: nat)
    requires IsMount(uses, u, a) && KnownStart(uses[u])
    ensures uses[u][a].receiver in StaticMounts(uses)
  {
    var n := uses[u][a].receiver;
    assert n in MountsOf(uses[u][..a + 1]);
    MountsOfPrefix(uses[u], a + 1, n);
    hide MountsOf;
    MountsStep(uses, u);
    StaticMountsPrefix(uses, u + 1, n);
  }

  lemma GraphsAreClosed(p: Program)
    requires WellFormed(p)
    ensures Closed(Full(p)) && Closed(Static(p))
    ensures forall n, c :: n in p.receivers && c in Static(p)[n] ==> c in Full(p)[n]
  {
    forall n, c | n in p.receivers && c in Full(p)[n] ensures c in Full(p) {
      MountsMember(p.receivers[n].uses, c);
    }
    forall n, c | n in p.receivers && c in Static(p)[n] ensures c in Full(p)[n] {
      StaticIsMounted(p.receivers[n].uses, c);
    }
  }

  /** A path of at least one edge. */
  ghost predicate Leads(g: Graph<Node>, from: Node, to: Node) {
    exists p: seq<Node> :: |p| >= 2 && Goes(g, p, from, to)
  }

  lemma LeadsOn(g: Graph<Node>, from: Node, to: Node, next: Node)
    requires (from == to && from in g) || Leads(g, from, to)
    requires to in g && next in g && next in g[to]
    ensures Leads(g, from, next)
  {
    if Leads(g, from, to) {
      var p: seq<Node> :| |p| >= 2 && Goes(g, p, from, to);
      PathStep(g, p, from, to, next);
      assert |p + [next]| >= 2;
    } else {
      assert Goes(g, [from], from, to);
      PathStep(g, [from], from, to, next);
      assert |[from] + [next]| >= 2;
    }
  }

  lemma LeadsBack(g: Graph<Node>, n: Node)
    requires Leads(g, n, n)
    ensures HasCycle(g)
  {
    var p: seq<Node> :| |p| >= 2 && Goes(g, p, n, n);
    assert IsCycle(g, p);
  }

  ghost predicate AllLead(g: Graph<Node>, ancestors: set<Node>, to: Node) {
    forall a :: a in ancestors ==> Leads(g, a, to)
  }

  lemma AllLeadOn(g: Graph<Node>, ancestors: set<Node>, to: Node, next: Node)
    requires AllLead(g, ancestors, to) && to in g && next in g && next in g[to]
    ensures AllLead(g, ancestors + {to}, next)
  {
    forall a | a in ancestors + {to} ensures Leads(g, a, next) { LeadsOn(g, a, to, next); }
  }

  // ---------- the two searches ----------

  class MountSearch {
    const program: Program
    var cycleChecked: set<Node>
    var visited: set<Node>
    var cycles: seq<Node>
    ghost var finished: seq<Node>

    constructor (program: Program)
      requires WellFormed(program)
      ensures this.program == program && cycleChecked == {} && visited == {} && cycles == [] && finished == []
    {
      this.program := program;
      cycleChecked, visited, cycles, finished := {}, {}, [], [];
    }

    /** What has been entered is either still open, above in the recursion, or finished. */
    ghost predicate Entered(open: set<Node>)
      reads this
    {
      && WellFormed(program) && cycleChecked <= program.receivers.Keys
      && (forall n :: n in cycleChecked <==> n in open || n in finished)
      && (forall n :: n in open ==> n !in finished)
      && (cycles == [] ==> Ordered(Full(program), finished))
      && Looping()
    }

    /** Every reported receiver mounts itself. */
    ghost predicate Looping()
      reads this
    {
      forall c :: c in cycles ==> Leads(Full(program), c, c)
    }

    /** Unless a cycle has been reported, these receivers are finished. */
    ghost predicate Done(children: seq<Node>)
      reads this
    {
      cycles == [] ==> forall n :: n in children ==> n in finished
    }

    twostate predicate Further()
      reads this
    {
      && old(cycleChecked) <= cycleChecked
      && (cycles == [] ==> old(cycles) == [] && forall n :: n in old(finished) ==> n in finished)
    }

    method CheckCycles(receiver: Node, ancestors: set<Node>)
      requires Entered(ancestors) && receiver in program.receivers && AllLead(Full(program), ancestors, receiver)
      modifies `cycleChecked, `cycles, `finished
      ensures Entered(ancestors) && Further() && Done([receiver])
      decreases program.receivers.Keys - cycleChecked, 0
    {
      hide HasCycle, Leads, Ordered, Mounts, MountsOf;
      NoMounts();
      if receiver in ancestors {
        assert Leads(Full(program), receiver, receiver);
        cycles := cycles + [receiver];
        return;
      }
      if receiver in cycleChecked { return; }
      cycleChecked := cycleChecked + {receiver};
      var uses := program.receivers[receiver].uses;
      var u := 0;
      assert program.receivers[receiver].uses[..0] == [];
      while u < |uses|
        invariant 0 <= u <= |uses|
        invariant Entered(ancestors + {receiver}) && Further() && receiver in cycleChecked && Done(Mounts(uses[..u]))
      {
        CheckUse(receiver, ancestors, u);
        MountsStep(uses, u);
        u := u + 1;
      }
      assert uses[..u] == uses;
      if cycles == [] { OrderedAppend(Full(program), finished, receiver); }
      finished := finished + [receiver];
    }

    method CheckUse(receiver: Node, ancestors: set<Node>, u: nat)
      requires Entered(ancestors + {receiver}) && receiver in program.receivers && AllLead(Full(program), ancestors, receiver)
      requires receiver in cycleChecked && u < |program.receivers[receiver].uses|
      modifies `cycleChecked, `cycles, `finished
      ensures Entered(ancestors + {receiver}) && Further() && Done(MountsOf(program.receivers[receiver].uses[u]))
      decreases program.receivers.Keys - cycleChecked, 1
    {
      hide HasCycle, Leads, Ordered, MountsOf;
      NoMounts();
      var uses := program.receivers[receiver].uses;
      var use := uses[u];
      var a := 0;
      assert use[..0] == [];
      while a < |use|
        invariant 0 <= a <= |use|
        invariant Entered(ancestors + {receiver}) && Further() && Done(MountsOf(use[..a]))
      {
        MountsOfStep(use, a);
        if use[a].Mounted? {
          MountedIsChild(uses, u, a);
          AllLeadOn(Full(program), ancestors, receiver, use[a].receiver);
          CheckCycles(use[a].receiver, ancestors + {receiver});
        }
        a := a + 1;
      }
      assert use[..a] == use;
    }

    // ---------- traversal ----------

    ghost predicate Sound()
      reads this
    {
      WellFormed(program) && Looping()
    }

    /** Visits every receiver it can reach around its ancestors; every route that repeats a receiver ends there. */
    method Traverse(receiver: Node, ancestors: set<Node>)
      requires Sound() && receiver in program.receivers && ancestors <= program.receivers.Keys
      requires AllLead(Full(program), ancestors, receiver)
      modifies `visited, `cycles
      ensures Sound() && |old(cycles)| <= |cycles| && Grown(Static(program), old(visited), visited, [receiver], ancestors)
      decreases program.receivers.Keys - ancestors, 0
    {
      hide HasCycle, Leads, StaticMounts, MountsOf, Grown;
      ghost var g := Static(program);
      if receiver in ancestors {
        assert Leads(Full(program), receiver, receiver);
        cycles := cycles + [receiver];
        GrownByClosed(g, visited, receiver, ancestors);
        return;
      }
      visited := visited + {receiver};
      ghost var start, next := visited, ancestors + {receiver};
      var uses := program.receivers[receiver].uses;
      var u := 0;
      NoMounts();
      assert uses[..0] == [];
      GrownByNothing(g, start, next);
      while u < |uses|
        invariant 0 <= u <= |uses|
        invariant Sound() && |old(cycles)| <= |cycles| && Grown(g, start, visited, StaticMounts(uses[..u]), next)
      {
        MountsStep(uses, u);
        ghost var before := visited;
        if HasDynamicPrefix(uses[u]) {
          assert StaticMounts(uses[..u + 1]) == StaticMounts(uses[..u]);
        } else {
          TraverseUse(receiver, ancestors, u);
          GrownThen(g, start, before, visited, StaticMounts(uses[..u]), MountsOf(uses[u]), next);
        }
        u := u + 1;
      }
      assert uses[..u] == uses;
      GraphsAreClosed(program);
      GrownByNode(g, old(visited), visited, receiver, ancestors);
    }

    method TraverseUse(receiver: Node, ancestors: set<Node>, u: nat)
      requires Sound() && receiver in program.receivers && receiver !in ancestors && ancestors <= program.receivers.Keys
      requires AllLead(Full(program), ancestors, receiver) && u < |program.receivers[receiver].uses|
      modifies `visited, `cycles
      ensures Sound() && |old(cycles)| <= |cycles|
      ensures Grown(Static(program), old(visited), visited, MountsOf(program.receivers[receiver].uses[u]), ancestors + {receiver})
      decreases program.receivers.Keys - ancestors - {receiver}, 1
    {
      hide HasCycle, Leads, MountsOf, Grown;
      ghost var g, next := Static(program), ancestors + {receiver};
      var uses := program.receivers[receiver].uses;
      var use := uses[u];
      var a := 0;
      NoMounts();
      assert use[..0] == [];
      GrownByNothing(g, visited, next);
      while a < |use|
        invariant 0 <= a <= |use|
        invariant Sound() && |old(cycles)| <= |cycles| && Grown(g, old(visited), visited, MountsOf(use[..a]), next)
      {
        MountsOfStep(use, a);
        ghost var before := visited;
        if use[a].Mounted? {
          MountedIsChild(uses, u, a);
          AllLeadOn(Full(program), ancestors, receiver, use[a].receiver);
          Traverse(use[a].receiver, ancestors + {receiver});
          GrownThen(g, old(visited), before, visited, MountsOf(use[..a]), [use[a].receiver], next);
        } else {
          assert MountsOf(use[..a + 1]) == MountsOf(use[..a]);
        }
        a := a + 1;
      }
      assert use[..a] == use;
    }
  }

  // ---------- the whole analysis ----------

  method CheckAllCycles(search: MountSearch)
    requires search.Entered({}) && search.cycles == []
    modifies search`cycleChecked, search`cycles, search`finished
    ensures search.Sound()
    ensures search.cycles != [] <==> HasCycle(Full(search.program))
  {
    var p := search.program;
    hide HasCycle, Ordered;
    var k := 0;
    while k < |p.order|
      invariant 0 <= k <= |p.order|
      invariant search.Entered({}) && search.Done(p.order[..k])
    {
      search.CheckCycles(p.order[k], {});
      k := k + 1;
    }
    if search.cycles == [] {
      assert p.order[..k] == p.order;
      OrderedHasNoCycle(Full(p), search.finished);
    } else {
      LeadsBack(Full(p), search.cycles[0]);
    }
  }

  /** Receivers no application exposes, in order. */
  function Unexposed(order: seq<Node>, visited: set<Node>): seq<Node> {
    if order == [] then []
    else Unexposed(order[..|order| - 1], visited) + if order[|order| - 1] in visited then [] else [order[|order| - 1]]
  }

  /** The one stands somewhere before the other in the list. */
  ghost predicate Precedes(order: seq<Node>, a: Node, b: Node) {
    exists x, y :: 0 <= x < y < |order| && order[x] == a && order[y] == b
  }

  predicate IsApp(p: Program, n: Node) {
    n in p.receivers && p.receivers[n].app
  }

  function Apps(p: Program, order: seq<Node>): (r: seq<Node>)
    ensures forall n :: n in r <==> n in order && IsApp(p, n)
  {
    if order == [] then []
    else Apps(p, order[..|order| - 1]) + if IsApp(p, order[|order| - 1]) then [order[|order| - 1]] else []
  }

  lemma NoApps(p: Program)
    ensures p.order[..0] == [] && Apps(p, []) == []
  {
  }

  lemma AppsStep(p: Program, k: nat)
    requires k < |p.order|
    ensures Apps(p, p.order[..k + 1]) == if IsApp(p, p.order[k]) then Apps(p, p.order[..k]) + [p.order[k]] else Apps(p, p.order[..k])
  {
    assert p.order[..k + 1][..k] == p.order[..k];
  }

  method TraverseApps(search: MountSearch)
    requires search.Sound() && search.visited == {}
    modifies search`visited, search`cycles
    ensures search.Sound() && |old(search.cycles)| <= |search.cycles|
    ensures Grown(Static(search.program), {}, search.visited, Apps(search.program, search.program.order), {})
  {
    var p := search.program;
    hide HasCycle, Leads, Static, Full, Grown, Apps;
    var k := 0;
    GrownByNothing(Static(p), {}, {});
    assert Apps(p, p.order[..0]) == [] by { NoApps(p); }
    while k < |p.order|
      invariant 0 <= k <= |p.order| && search.Sound() && |old(search.cycles)| <= |search.cycles|
      invariant Grown(Static(p), {}, search.visited, Apps(p, p.order[..k]), {})
    {
      ghost var before := search.visited;
      AppsStep(p, k);
      if IsApp(p, p.order[k]) {
        search.Traverse(p.order[k], {});
        GrownThen(Static(p), {}, before, search.visited, Apps(p, p.order[..k]), [p.order[k]], {});
      }
      k := k + 1;
    }
    assert p.order[..k] == p.order;
  }

  /** A way through receivers, each mounting the next. */
  ghost predicate MountRoute(p: Program, route: seq<Node>, known: bool) {
    && route != []
    && (forall i :: 0 <= i < |route| ==> route[i] in p.receivers)
    && forall i :: 0 <= i < |route| - 1 ==> MountsNext(p, route, i, known)
  }

  ghost predicate MountsNext(p: Program, route: seq<Node>, i: nat, known: bool)
    requires i < |route| - 1 && route[i] in p.receivers
  {
    if known then MountedStatically(p.receivers[route[i]].uses, route[i + 1])
    else MountedBy(p.receivers[route[i]].uses, route[i + 1])
  }

  /** A receiver that mounts itself, over any number of mounts. */
  ghost predicate MountCycle(p: Program, route: seq<Node>) {
    MountRoute(p, route, false) && |route| >= 2 && route[0] == route[|route| - 1]
  }

  /** Starts at an application, ends at the node, and every mount has a known start. */
  ghost predicate Exposes(p: Program, route: seq<Node>, n: Node) {
    MountRoute(p, route, true) && p.receivers[route[0]].app && route[|route| - 1] == n
  }

  lemma RouteIsPath(p: Program, route: seq<Node>)
    ensures MountRoute(p, route, false) <==> IsPath(Full(p), route)
    ensures MountRoute(p, route, true) <==> IsPath(Static(p), route)
  {
    hide Mounts, StaticMounts, MountedBy, MountedStatically;
    forall i | 0 <= i < |route| - 1 && route[i] in p.receivers
      ensures route[i + 1] in Full(p)[route[i]] <==> MountsNext(p, route, i, false)
      ensures route[i + 1] in Static(p)[route[i]] <==> MountsNext(p, route, i, true)
    {
      MountsExactly(p.receivers[route[i]].uses, route[i + 1]);
      StaticMountsExactly(p.receivers[route[i]].uses, route[i + 1]);
    }
  }

  lemma CyclesExactly(p: Program)
    ensures HasCycle(Full(p)) <==> exists route :: MountCycle(p, route)
  {
    hide Full, MountRoute, IsPath;
    forall route ensures MountCycle(p, route) <==> IsCycle(Full(p), route) { RouteIsPath(p, route); }
    if HasCycle(Full(p)) {
      var route :| IsCycle(Full(p), route);
      assert MountCycle(p, route);
    }
    if route :| MountCycle(p, route) { assert IsCycle(Full(p), route); }
  }

  lemma LoopIsCycle(p: Program, n: Node)
    requires Leads(Full(p), n, n)
    ensures exists route :: MountCycle(p, route) && route[0] == n
  {
    var route: seq<Node> :| |route| >= 2 && Goes(Full(p), route, n, n);
    RouteIsPath(p, route);
    assert MountCycle(p, route) && route[0] == n;
  }

  lemma ExposedExactly(p: Program, n: Node)
    ensures (exists app :: IsApp(p, app) && Reaches(Static(p), app, n)) <==> exists route :: Exposes(p, route, n)
  {
    if app :| IsApp(p, app) && Reaches(Static(p), app, n) {
      var route: seq<Node> :| Goes(Static(p), route, app, n);
      RouteIsPath(p, route);
      assert Exposes(p, route, n);
    }
    if route :| Exposes(p, route, n) {
      RouteIsPath(p, route);
      assert Goes(Static(p), route, route[0], n);
      assert IsApp(p, route[0]) && Reaches(Static(p), route[0], n);
    }
  }

  /** Reports a mount cycle exactly when there is one, and as unexposed exactly what no application reaches statically. */
  method SearchMounts(p: Program) returns (cycles: seq<Node>, unexposed: seq<Node>)
    requires WellFormed(p)
    ensures cycles != [] <==> exists route :: MountCycle(p, route)
    ensures forall c :: c in cycles ==> exists route :: MountCycle(p, route) && route[0] == c
    ensures forall n :: n in unexposed <==> n in p.receivers && !exists route :: Exposes(p, route, n)
    ensures forall i, j :: 0 <= i < j < |unexposed| ==> Precedes(p.order, unexposed[i], unexposed[j])
  {
    hide HasCycle, Static, Full, Grown, MountRoute, Exposes, IsApp, Reaches, Leads;
    var search := new MountSearch(p);
    CheckAllCycles(search);
    TraverseApps(search);
    VisitedIsExposed(p, search.visited);
    cycles := search.cycles;
    unexposed := ListUnexposed(p.order, search.visited);
    UnexposedFacts(p.order, search.visited);
    CyclesExactly(p);
    assert cycles != [] ==> cycles[0] in cycles;
    forall c | c in cycles ensures exists route :: MountCycle(p, route) && route[0] == c { LoopIsCycle(p, c); }
    forall n ensures n in unexposed <==> n in p.receivers && !exists route :: Exposes(p, route, n) { ExposedExactly(p, n); }
  }

  method ListUnexposed(order: seq<Node>, visited: set<Node>) returns (unexposed: seq<Node>)
    ensures unexposed == Unexposed(order, visited)
  {
    unexposed := [];
    var k := 0;
    while k < |order|
      invariant 0 <= k <= |order| && unexposed == Unexposed(order[..k], visited)
    {
      assert order[..k + 1][..k] == order[..k];
      if order[k] !in visited { unexposed := unexposed + [order[k]]; }
      k := k + 1;
    }
    assert order[..k] == order;
  }

  lemma VisitedIsExposed(p: Program, visited: set<Node>)
    requires WellFormed(p) && Grown(Static(p), {}, visited, Apps(p, p.order), {})
    ensures forall n :: n in visited <==> exists app :: IsApp(p, app) && Reaches(Static(p), app, n)
  {
    hide Static, Reaches, ReachesAround;
    forall n ensures n in visited <==> exists app :: IsApp(p, app) && Reaches(Static(p), app, n) {
      forall app { AroundNothing(Static(p), app, n); }
      if app :| IsApp(p, app) && Reaches(Static(p), app, n) {
        var k :| 0 <= k < |Apps(p, p.order)| && Apps(p, p.order)[k] == app;
        assert ReachesAround(Static(p), Apps(p, p.order)[k], n, {});
      }
      if k :| 0 <= k < |Apps(p, p.order)| && ReachesAround(Static(p), Apps(p, p.order)[k], n, {}) {
        assert Reaches(Static(p), Apps(p, p.order)[k], n);
      }
    }
  }

  lemma {:induction false} UnexposedFacts(order: seq<Node>, visited: set<Node>)
    ensures forall n :: n in Unexposed(order, visited) <==> n in order && n !in visited
    ensures forall i, j :: 0 <= i < j < |Unexposed(order, visited)| ==>
      Precedes(order, Unexposed(order, visited)[i], Unexposed(order, visited)[j])
  {
    if order != [] {
      var last := |order| - 1;
      var before, all := Unexposed(order[..last], visited), Unexposed(order, visited);
      UnexposedFacts(order[..last], visited);
      assert order == order[..last] + [order[last]];
      forall i, j | 0 <= i < j < |all| ensures Precedes(order, all[i], all[j]) {
        if j < |before| {
          assert Precedes(order[..last], all[i], all[j]);
          var x, y :| 0 <= x < y < last && order[..last][x] == all[i] && order[..last][y] == all[j];
          assert order[x] == all[i] && order[y] == all[j];
        } else {
          assert before[i] in order[..last];
          var x :| 0 <= x < last && order[x] == all[i];
          assert order[last] == all[j];
        }
      }
    }
  }
}
