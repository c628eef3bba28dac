/** What every interleaving of the session protocol keeps. */
module GitSessionInvariants {
  import opened JsonValues
  import opened GitSessions
  import Strings

  // ---------- one id ----------

  function Lookup<T>(m: map<Id, T>, id: Id): Option<T> {
    if id in m then Some(m[id]) else None
  }

  /** Everything the bookkeeping says about one id. */
  datatype View = View(
    inProgress: bool,
    active: bool,
    resolving: Option<Resolving>,
    session: Option<Session>,
    analyzing: Option<Analyzing>,
    releasing: Option<Releasing>,
    pending: Option<Tree>,
    pendingSession: Option<string>)

  function ViewOf(s: State, id: Id): View {
    View(id in s.inProgress, id in s.active, Lookup(s.resolving, id), Lookup(s.sessions, id), Lookup(s.analyzing, id),
         Lookup(s.releasing, id), Lookup(s.pendingCleanup, id), Lookup(s.pendingSessionCleanup, id))
  }

  /** An id is being resolved, registered, analyzed, released or left over, never two of these at once. */
  predicate Legal(v: View, disposed: bool) {
    && v.inProgress == v.resolving.Some?
    && v.active == v.analyzing.Some?
    && (v.pendingSession.Some? ==> v.pending.Some?)
    && (v.resolving.Some? ==>
          && v.session.None? && v.analyzing.None? && v.releasing.None? && v.pendingSession.None?
          && v.pending == if v.resolving.value.Discarding? then Some(v.resolving.value.tree) else None)
    && (v.session.Some? ==>
          && v.analyzing.None? && v.releasing.None? && v.pendingSession.None?
          && (v.pending.Some? ==> disposed && v.pending == Some(v.session.value.tree)))
    && (v.analyzing.Some? ==>
          v.releasing.None? &&
          match v.analyzing.value
          case Running(_, canonical, submitted) => v.pending.None? && submitted == canonical
          case Finishing(tree, canonical) => v.pending == Some(tree) && v.pendingSession == Some(canonical))
    && (v.releasing.Some? ==>
          v.pending == Some(v.releasing.value.tree) && v.pendingSession == Some(v.releasing.value.canonical))
  }

  /** The tree an id holds. */
  function Held(v: View): Option<Tree> {
    if v.resolving.Some? then
      (match v.resolving.value
       case Materializing => None
       case Probing(tree) => Some(tree)
       case Discarding(tree) => Some(tree))
    else if v.session.Some? then Some(v.session.value.tree)
    else if v.analyzing.Some? then Some(v.analyzing.value.tree)
    else v.pending
  }

  /** The registration a session, an analysis, a release or a retry of the id is about. */
  function Registration(v: View): Option<Session> {
    if v.session.Some? then v.session
    else if v.analyzing.Some? then Some(Session(v.analyzing.value.tree, v.analyzing.value.canonical))
    else if v.pendingSession.Some? && v.pending.Some? then Some(Session(v.pending.value, v.pendingSession.value))
    else None
  }

  predicate GoodAt(s: State, id: Id) {
    var v := ViewOf(s, id);
    && Legal(v, s.disposed)
    && (Held(v).Some? ==>
          && Held(v).value in s.owner && s.owner[Held(v).value] == id
          && Held(v).value !in s.disposedTrees)
    && (Registration(v).Some? ==> Lookup(s.latest, id) == Registration(v))
    && (v.resolving.Some? && Held(v).Some? ==> Held(v).value !in s.taker)
    && (v.session.Some? && v.session.value.tree in s.taker ==> s.disposed && s.taker[v.session.value.tree] == ByDisposal)
  }

  ghost predicate Good(s: State) {
    forall id {:trigger GoodAt(s, id)} :: GoodAt(s, id)
  }

  predicate OwnedAt(s: State, tree: Tree) {
    && (tree in s.owner <==> tree < s.nextTree)
    && (tree in s.disposedTrees ==> tree in s.owner)
    && (tree in s.taker ==> tree in s.owner)
    && (tree in s.owner && tree !in s.disposedTrees ==> Held(ViewOf(s, s.owner[tree])) == Some(tree))
  }

  /** A tree is undisposed exactly while the id it was materialized for holds it. */
  ghost predicate Trees(s: State) {
    forall tree: Tree {:trigger OwnedAt(s, tree)} :: OwnedAt(s, tree)
  }

  /** What a tree's history may gain when only this id moved. */
  predicate TreeLocal(s: State, t: State, id: Id, tree: Tree) {
    && (tree in s.owner ==> tree in t.owner && t.owner[tree] == s.owner[tree])
    && (tree in t.owner && tree !in s.owner ==> t.owner[tree] == id)
    && (tree in s.disposedTrees ==> tree in t.disposedTrees)
    && (tree in t.disposedTrees && tree !in s.disposedTrees ==> tree in s.owner && s.owner[tree] == id)
    && (tree in s.owner && s.owner[tree] != id ==>
          (tree in t.taker <==> tree in s.taker) && (tree in s.taker ==> t.taker[tree] == s.taker[tree]))
  }

  /** Between the two states only this id and its trees changed. */
  ghost predicate Local(s: State, t: State, id: Id) {
    && (forall x {:trigger ViewOf(t, x)} :: x != id ==> ViewOf(t, x) == ViewOf(s, x))
    && (s.disposed ==> t.disposed)
    && (forall x {:trigger Lookup(t.latest, x)} :: x != id ==> Lookup(t.latest, x) == Lookup(s.latest, x))
    && s.nextTree <= t.nextTree
    && (forall tree: Tree {:trigger OwnedAt(t, tree)} :: TreeLocal(s, t, id, tree))
  }

  lemma SameTrees(s: State, t: State, id: Id)
    requires t.owner == s.owner && t.disposedTrees == s.disposedTrees && t.taker == s.taker
    ensures forall tree: Tree :: TreeLocal(s, t, id, tree)
  {
  }

  /** What the changed id owes: its own view, and every tree of its own it still has to dispose. */
  ghost predicate Settled(s: State, t: State, id: Id) {
    && GoodAt(t, id)
    && forall tree: Tree {:trigger OwnedAt(t, tree)} :: TreeSettled(t, id, tree)
  }

  predicate TreeSettled(t: State, id: Id, tree: Tree) {
    && (tree in t.owner <==> tree < t.nextTree)
    && (tree in t.taker ==> tree in t.owner)
    && (tree in t.owner && t.owner[tree] == id && tree !in t.disposedTrees ==> Held(ViewOf(t, id)) == Some(tree))
  }

  lemma LocalKeeps(s: State, t: State, id: Id)
    requires Good(s) && Trees(s) && Local(s, t, id) && Settled(s, t, id)
    ensures Good(t) && Trees(t)
  {
    hide ViewOf, Legal;
    forall x ensures GoodAt(t, x) {
      assert GoodAt(s, x);
      var held := Held(ViewOf(s, x));
      assert ViewOf(t, x) == ViewOf(t, x);
      assert Lookup(t.latest, x) == Lookup(t.latest, x);
      if x != id {
        LegalStays(ViewOf(s, x), s.disposed, t.disposed);
        if held.Some? { assert OwnedAt(t, held.value) || !OwnedAt(t, held.value); }
        SessionIsHeld(ViewOf(s, x), s.disposed);
      }
    }
    forall tree: Tree ensures OwnedAt(t, tree) {
      assert OwnedAt(s, tree);
      assert OwnedAt(t, tree) || !OwnedAt(t, tree);
      if tree in t.owner && t.owner[tree] != id { assert ViewOf(t, t.owner[tree]) == ViewOf(s, t.owner[tree]); }
    }
  }

  lemma LegalStays(v: View, before: bool, after: bool)
    requires Legal(v, before) && (before ==> after)
    ensures Legal(v, after)
  {
  }

  lemma SessionIsHeld(v: View, disposed: bool)
    requires Legal(v, disposed)
    ensures v.session.Some? ==> Held(v) == Some(v.session.value.tree)
  {
  }

  /** An id that keeps its tree, its registration and its history owes nothing new. */
  lemma SameTreesSettled(s: State, t: State, id: Id)
    requires Good(s) && Trees(s) && GoodAt(t, id)
    requires t.owner == s.owner && t.disposedTrees == s.disposedTrees && t.nextTree == s.nextTree
    requires forall tree :: tree in t.taker ==> tree in s.taker || tree in s.owner
    requires Held(ViewOf(t, id)) == Held(ViewOf(s, id))
    ensures Settled(s, t, id)
  {
    hide ViewOf, Legal, GoodAt;
    forall tree: Tree ensures TreeSettled(t, id, tree) { assert OwnedAt(s, tree); }
  }

  /** An id that disposed the tree it held owes nothing more. */
  lemma DisposedSettled(s: State, t: State, id: Id, tree: Tree)
    requires Good(s) && Trees(s) && GoodAt(t, id)
    requires t.owner == s.owner && t.taker == s.taker && t.nextTree == s.nextTree
    requires Held(ViewOf(s, id)) == Some(tree) && t.disposedTrees == s.disposedTrees + {tree}
    ensures Settled(s, t, id)
  {
    hide ViewOf, Legal, GoodAt;
    forall other: Tree ensures TreeSettled(t, id, other) { assert OwnedAt(s, other); }
  }

  lemma DisposedLocal(s: State, t: State, id: Id, tree: Tree)
    requires t.owner == s.owner && t.taker == s.taker && t.disposedTrees == s.disposedTrees + {tree}
    requires tree in s.owner && s.owner[tree] == id
    ensures forall other: Tree :: TreeLocal(s, t, id, other)
  {
  }

  // ---------- what each step does to its id ----------

  /** Admitted: past every guard of the reserving segment. */
  predicate Accepts(s: State, id: Id) {
    && !s.disposed && Admitted(s) < s.maxSessions
    && id !in s.sessions && id !in s.pendingCleanup && id !in s.inProgress && id !in s.active
  }

  lemma ResolveEffect(s: State, id: Id)
    requires Accepts(s, id)
    ensures var t := Resolve(s, id);
      && ViewOf(t, id) == ViewOf(s, id).(inProgress := true, resolving := Some(Materializing)) && Local(s, t, id)
      && t.owner == s.owner && t.disposedTrees == s.disposedTrees && t.nextTree == s.nextTree && t.taker == s.taker
      && t.latest == s.latest && t.disposed == s.disposed
  {
    SameTrees(s, Resolve(s, id), id);
  }

  lemma ResolveKeepsTrees(s: State, id: Id)
    requires Good(s) && Trees(s)
    ensures Good(Resolve(s, id)) && Trees(Resolve(s, id))
  {
    if Accepts(s, id) {
      ResolveEffect(s, id);
      FreshView(s, id);
      hide Resolve, ViewOf, Local;
      SameTreesSettled(s, Resolve(s, id), id);
      LocalKeeps(s, Resolve(s, id), id);
    }
  }

  /** An id that passes the guards holds nothing at all. */
  lemma FreshView(s: State, id: Id)
    requires Good(s) && Accepts(s, id)
    ensures ViewOf(s, id) == View(false, false, None, None, None, None, None, None)
  {
    assert GoodAt(s, id);
  }

  lemma MaterializedEffect(s: State, id: Id)
    requires Trees(s) && IsMaterializing(s, id)
    ensures var t := Materialize(s, id, true);
      && ViewOf(t, id) == ViewOf(s, id).(resolving := Some(Probing(s.nextTree)))
      && t.owner == s.owner[s.nextTree := id] && t.nextTree == s.nextTree + 1
      && t.disposedTrees == s.disposedTrees && t.taker == s.taker && t.latest == s.latest && t.disposed == s.disposed
      && Local(s, t, id)
  {
    assert OwnedAt(s, s.nextTree);
    hide Held, EndReservation;
    forall tree: Tree ensures TreeLocal(s, Materialize(s, id, true), id, tree) { assert OwnedAt(s, tree); }
  }

  lemma NotMaterializedEffect(s: State, id: Id)
    requires IsMaterializing(s, id)
    ensures var t := Materialize(s, id, false);
      && ViewOf(t, id) == ViewOf(s, id).(inProgress := false, resolving := None)
      && t.owner == s.owner && t.nextTree == s.nextTree
      && t.disposedTrees == s.disposedTrees && t.taker == s.taker && t.latest == s.latest && t.disposed == s.disposed
      && Local(s, t, id)
  {
    SameTrees(s, Materialize(s, id, false), id);
  }

  lemma MaterializeKeepsTrees(s: State, id: Id, ok: bool)
    requires Good(s) && Trees(s) && IsMaterializing(s, id)
    ensures Good(Materialize(s, id, ok)) && Trees(Materialize(s, id, ok))
  {
    assert GoodAt(s, id) && ViewOf(s, id).resolving == Some(Materializing);
    var t := Materialize(s, id, ok);
    if ok {
      MaterializedEffect(s, id);
      hide Materialize, ViewOf, Local;
      assert OwnedAt(s, s.nextTree);
      forall tree: Tree ensures TreeSettled(t, id, tree) { assert OwnedAt(s, tree); }
    } else {
      NotMaterializedEffect(s, id);
      hide Materialize, ViewOf, Local;
      SameTreesSettled(s, t, id);
    }
    LocalKeeps(s, t, id);
  }

  lemma DiscardEffect(s: State, id: Id)
    requires IsProbing(s, id)
    ensures var t := Discard(s, id);
      && ViewOf(s, id).resolving == Some(Probing(s.resolving[id].tree))
      && ViewOf(t, id) == ViewOf(s, id).(resolving := Some(Discarding(s.resolving[id].tree)), pending := Some(s.resolving[id].tree))
      && t.owner == s.owner && t.disposedTrees == s.disposedTrees && t.nextTree == s.nextTree && t.taker == s.taker
      && t.latest == s.latest && t.disposed == s.disposed
      && Local(s, t, id)
  {
    SameTrees(s, Discard(s, id), id);
  }

  lemma DiscardKeepsTrees(s: State, id: Id)
    requires Good(s) && Trees(s) && IsProbing(s, id)
    ensures Good(Discard(s, id)) && Trees(Discard(s, id))
  {
    DiscardEffect(s, id);
    assert GoodAt(s, id);
    hide Discard, ViewOf, Local;
    SameTreesSettled(s, Discard(s, id), id);
    LocalKeeps(s, Discard(s, id), id);
  }

  lemma RegisterEffect(s: State, id: Id, canonical: string)
    requires IsProbing(s, id) && !s.disposed && id !in s.sessions
    ensures var t := Register(s, id, canonical); var session := Session(s.resolving[id].tree, canonical);
      && ViewOf(s, id).resolving == Some(Probing(s.resolving[id].tree))
      && ViewOf(t, id) == ViewOf(s, id).(inProgress := false, resolving := None, session := Some(session))
      && t.owner == s.owner && t.disposedTrees == s.disposedTrees && t.nextTree == s.nextTree && t.taker == s.taker
      && Lookup(t.latest, id) == Some(session) && t.disposed == s.disposed
      && Local(s, t, id)
  {
    hide WithoutEntry;
    SameTrees(s, Register(s, id, canonical), id);
  }

  lemma RegisterKeepsTrees(s: State, id: Id, canonical: string)
    requires Good(s) && Trees(s) && IsProbing(s, id)
    ensures Good(Register(s, id, canonical)) && Trees(Register(s, id, canonical))
  {
    if s.disposed || id in s.sessions {
      DiscardKeepsTrees(s, id);
    } else {
      RegisterEffect(s, id, canonical);
      assert GoodAt(s, id);
      hide Register, ViewOf, Local;
      SameTreesSettled(s, Register(s, id, canonical), id);
      LocalKeeps(s, Register(s, id, canonical), id);
    }
  }

  lemma DiscardedEffect(s: State, id: Id, ok: bool)
    requires Good(s) && IsDiscarding(s, id)
    ensures var t := Discarded(s, id, ok); var tree := s.resolving[id].tree; var v := ViewOf(s, id);
      && v.resolving == Some(Discarding(tree))
      && ViewOf(t, id) == v.(inProgress := false, resolving := None, pending := if ok then None else v.pending)
      && t.owner == s.owner && t.nextTree == s.nextTree && t.taker == s.taker
      && t.disposedTrees == (if ok then s.disposedTrees + {tree} else s.disposedTrees)
      && t.latest == s.latest && t.disposed == s.disposed
      && Local(s, t, id)
  {
    var tree := s.resolving[id].tree;
    var t := Discarded(s, id, ok);
    assert GoodAt(s, id);
    if ok { DisposedLocal(s, t, id, tree); } else { SameTrees(s, t, id); }
  }

  lemma DiscardedKeepsTrees(s: State, id: Id, ok: bool)
    requires Good(s) && Trees(s) && IsDiscarding(s, id)
    ensures Good(Discarded(s, id, ok)) && Trees(Discarded(s, id, ok))
  {
    DiscardedEffect(s, id, ok);
    assert GoodAt(s, id);
    hide Discarded, ViewOf, Local;
    var t := Discarded(s, id, ok);
    if ok { DisposedSettled(s, t, id, s.resolving[id].tree); } else { SameTreesSettled(s, t, id); }
    LocalKeeps(s, t, id);
  }

  lemma TakenByAnalysisEffect(s: State, id: Id)
    requires id in s.sessions
    ensures var t := TakenByAnalysis(s, id); var session := s.sessions[id]; var v := ViewOf(s, id);
      && v.session == Some(session)
      && ViewOf(t, id) == v.(active := true, session := None)
      && t.owner == s.owner && t.nextTree == s.nextTree && t.taker == s.taker[session.tree := ByAnalysis]
      && t.disposedTrees == s.disposedTrees && t.latest == s.latest && t.disposed == s.disposed
      && (forall x {:trigger ViewOf(t, x)} :: x != id ==> ViewOf(t, x) == ViewOf(s, x))
  {
  }

  lemma RunEffect(s: State, id: Id, session: Session, submitted: string)
    ensures var t := Run(s, id, session, submitted);
      && ViewOf(t, id) == ViewOf(s, id).(analyzing := Some(Running(session.tree, session.canonical, submitted)))
      && t.owner == s.owner && t.nextTree == s.nextTree && t.taker == s.taker
      && t.disposedTrees == s.disposedTrees && t.latest == s.latest && t.disposed == s.disposed
      && (forall x {:trigger ViewOf(t, x)} :: x != id ==> ViewOf(t, x) == ViewOf(s, x))
  {
  }

  lemma FinishEffect(s: State, id: Id, tree: Tree, canonical: string)
    ensures var t := Finish(s, id, tree, canonical);
      && ViewOf(t, id) == ViewOf(s, id).(analyzing := Some(Finishing(tree, canonical)),
                                         pending := Some(tree), pendingSession := Some(canonical))
      && t.owner == s.owner && t.nextTree == s.nextTree && t.taker == s.taker
      && t.disposedTrees == s.disposedTrees && t.latest == s.latest && t.disposed == s.disposed
      && (forall x {:trigger ViewOf(t, x)} :: x != id ==> ViewOf(t, x) == ViewOf(s, x))
  {
  }

  lemma TakenLocal(s: State, t: State, id: Id, tree: Tree, how: Taker)
    requires t.owner == s.owner && t.disposedTrees == s.disposedTrees && t.taker == s.taker[tree := how]
    requires tree in s.owner && s.owner[tree] == id
    ensures forall other: Tree :: TreeLocal(s, t, id, other)
  {
  }

  lemma AnalyzeKeepsTrees(s: State, id: Id, submitted: string)
    requires Good(s) && Trees(s)
    ensures Good(Analyze(s, id, submitted)) && Trees(Analyze(s, id, submitted))
  {
    if !s.disposed && id in s.sessions {
      var session := s.sessions[id];
      var m, t := TakenByAnalysis(s, id), Analyze(s, id, submitted);
      TakenByAnalysisEffect(s, id);
      RunEffect(m, id, session, submitted);
      FinishEffect(m, id, session.tree, session.canonical);
      assert GoodAt(s, id);
      hide TakenByAnalysis, Run, Finish, ViewOf;
      TakenLocal(s, t, id, session.tree, ByAnalysis);
      SameTreesSettled(s, t, id);
      LocalKeeps(s, t, id);
    }
  }

  lemma AnalyzerDoneKeepsTrees(s: State, id: Id)
    requires Good(s) && Trees(s) && IsRunning(s, id)
    ensures Good(AnalyzerDone(s, id)) && Trees(AnalyzerDone(s, id))
  {
    var work, t := s.analyzing[id], AnalyzerDone(s, id);
    FinishEffect(s, id, work.tree, work.canonical);
    assert GoodAt(s, id) && ViewOf(s, id).analyzing == Some(work);
    hide Finish, ViewOf;
    SameTrees(s, t, id);
    SameTreesSettled(s, t, id);
    LocalKeeps(s, t, id);
  }

  lemma FinishedEffect(s: State, id: Id, ok: bool)
    requires Good(s) && IsFinishing(s, id)
    ensures var t := Finished(s, id, ok); var tree := s.analyzing[id].tree; var v := ViewOf(s, id);
      && v.analyzing == Some(s.analyzing[id])
      && ViewOf(t, id) == (if ok then v.(active := false, analyzing := None, pending := None, pendingSession := None)
                           else v.(active := false, analyzing := None))
      && t.owner == s.owner && t.nextTree == s.nextTree && t.taker == s.taker
      && t.disposedTrees == (if ok then s.disposedTrees + {tree} else s.disposedTrees)
      && t.latest == s.latest && t.disposed == s.disposed
      && Local(s, t, id)
  {
    var t := Finished(s, id, ok);
    assert GoodAt(s, id);
    hide Remembered;
    if ok { DisposedLocal(s, t, id, s.analyzing[id].tree); } else { SameTrees(s, t, id); }
  }

  lemma FinishedKeepsTrees(s: State, id: Id, ok: bool)
    requires Good(s) && Trees(s) && IsFinishing(s, id)
    ensures Good(Finished(s, id, ok)) && Trees(Finished(s, id, ok))
  {
    FinishedEffect(s, id, ok);
    assert GoodAt(s, id);
    hide Finished, ViewOf, Local;
    var t := Finished(s, id, ok);
    if ok { DisposedSettled(s, t, id, s.analyzing[id].tree); } else { SameTreesSettled(s, t, id); }
    LocalKeeps(s, t, id);
  }

  lemma ReleaseOutcomes(s: State, id: Id, submitted: string)
    requires StartsRelease(s, id, submitted)
    ensures !s.disposed && id !in s.active && id !in s.releasing && (id in s.sessions || id in s.pendingCleanup)
    ensures var v := ViewOf(s, id); var tree := ReleasedTree(s, id);
      if id in s.sessions then v.session == Some(Session(tree, submitted))
      else v.session.None? && v.pending == Some(tree) && v.pendingSession == Some(submitted)
  {
    hide InLedger;
  }

  lemma ReleaseEffect(s: State, id: Id, submitted: string)
    requires StartsRelease(s, id, submitted)
    ensures var t := Release(s, id, submitted); var tree := ReleasedTree(s, id);
      && ViewOf(t, id) == ViewOf(s, id).(session := None, pending := Some(tree), pendingSession := Some(submitted),
                                         releasing := Some(Releasing(tree, submitted, s.nextPromise)))
      && t.owner == s.owner && t.nextTree == s.nextTree
      && t.taker == (if id in s.sessions then s.taker[tree := ByRelease] else s.taker)
      && t.disposedTrees == s.disposedTrees && t.latest == s.latest && t.disposed == s.disposed
      && (forall x {:trigger ViewOf(t, x)} :: x != id ==> ViewOf(t, x) == ViewOf(s, x))
  {
    hide OutcomeOfRelease, ReleasedTree;
  }

  lemma ReleaseKeepsTrees(s: State, id: Id, submitted: string)
    requires Good(s) && Trees(s)
    ensures Good(Release(s, id, submitted)) && Trees(Release(s, id, submitted))
  {
    if StartsRelease(s, id, submitted) {
      ReleaseOutcomes(s, id, submitted);
      ReleaseEffect(s, id, submitted);
      var t, tree := Release(s, id, submitted), ReleasedTree(s, id);
      assert GoodAt(s, id) && ViewOf(s, id).releasing.None? && !ViewOf(s, id).active;
      hide Release, ViewOf, OutcomeOfRelease, ReleasedTree, StartsRelease;
      if id in s.sessions { TakenLocal(s, t, id, tree, ByRelease); } else { SameTrees(s, t, id); }
      SameTreesSettled(s, t, id);
      LocalKeeps(s, t, id);
    }
  }

  lemma ReleasedEffect(s: State, id: Id, ok: bool)
    requires Good(s) && id in s.releasing
    ensures var t := Released(s, id, ok); var work := s.releasing[id]; var v := ViewOf(s, id);
      && v.releasing == Some(work)
      && ViewOf(t, id) == (if ok then v.(releasing := None, pending := None, pendingSession := None)
                           else v.(releasing := None))
      && t.owner == s.owner && t.nextTree == s.nextTree && t.taker == s.taker
      && t.disposedTrees == (if ok then s.disposedTrees + {work.tree} else s.disposedTrees)
      && t.latest == s.latest && t.disposed == s.disposed
      && Local(s, t, id)
  {
    var t := Released(s, id, ok);
    assert GoodAt(s, id);
    hide Remembered;
    if ok { DisposedLocal(s, t, id, s.releasing[id].tree); } else { SameTrees(s, t, id); }
  }

  lemma ReleasedKeepsTrees(s: State, id: Id, ok: bool)
    requires Good(s) && Trees(s) && id in s.releasing
    ensures Good(Released(s, id, ok)) && Trees(Released(s, id, ok))
  {
    ReleasedEffect(s, id, ok);
    assert GoodAt(s, id);
    hide Released, ViewOf, Local;
    var t := Released(s, id, ok);
    if ok { DisposedSettled(s, t, id, s.releasing[id].tree); } else { SameTreesSettled(s, t, id); }
    LocalKeeps(s, t, id);
  }
}
