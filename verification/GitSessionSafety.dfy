/** What the session protocol guarantees in every reachable state, whatever the environment does. */
module GitSessionSafety {
  import opened JsonValues
  import opened GitSessions
  import opened GitSessionInvariants
  import opened GitSessionDisposal
  import opened GitSessionSteps
  import Strings

  ghost predicate Reachable(s: State) {
    exists maxSessions, steps :: IsRun(Start(maxSessions), steps) && After(Start(maxSessions), steps) == s
  }

  lemma ReachableInv(s: State)
    requires Reachable(s)
    ensures Inv(s)
  {
    var maxSessions, steps :| IsRun(Start(maxSessions), steps) && After(Start(maxSessions), steps) == s;
    StartInv(maxSessions);
    RunKeepsInv(Start(maxSessions), steps);
  }

  // ---------- bookkeeping ----------

  lemma BookkeepingAgrees(s: State)
    requires Reachable(s)
    ensures s.inProgress !! s.sessions.Keys && s.inProgress !! s.active && s.active !! s.sessions.Keys
    ensures s.reservations == |s.inProgress| && s.activeAnalyses == |s.active|
  {
    ReachableInv(s);
    forall id ensures !(id in s.inProgress && id in s.sessions) && !(id in s.inProgress && id in s.active) && !(id in s.active && id in s.sessions) {
      assert GoodAt(s, id);
    }
  }

  /** Every tree not yet disposed is held by exactly one id, and that id takes room. */
  lemma UndisposedTreeHasOneHolder(s: State, tree: Tree)
    requires Reachable(s) && tree < s.nextTree
    ensures tree !in s.disposedTrees ==> tree in s.owner && s.owner[tree] in Occupied(s)
    ensures tree !in s.disposedTrees ==> forall id :: Held(ViewOf(s, id)) == Some(tree) <==> id == s.owner[tree]
    ensures tree in s.disposedTrees ==> forall id :: Held(ViewOf(s, id)) != Some(tree)
  {
    ReachableInv(s);
    assert OwnedAt(s, tree);
    forall id ensures Held(ViewOf(s, id)) == Some(tree) ==> tree !in s.disposedTrees && id == s.owner[tree] {
      assert GoodAt(s, id);
    }
    if tree !in s.disposedTrees {
      assert GoodAt(s, s.owner[tree]);
      HolderOccupies(ViewOf(s, s.owner[tree]), s.disposed);
      OccupiedIsOccupies(s, s.owner[tree]);
    }
  }

  lemma HolderOccupies(v: View, disposed: bool)
    requires Legal(v, disposed) && Held(v).Some?
    ensures Occupies(v)
  {
  }

  lemma RoomIsNeverExceeded(s: State)
    requires Reachable(s)
    ensures |s.inProgress + s.sessions.Keys + s.active + s.pendingCleanup.Keys| <= s.maxSessions
  {
    ReachableInv(s);
  }

  /** The ids that take room and are pending at once: the admission sum counts these twice. */
  function CountedTwice(s: State): set<Id> {
    (s.inProgress + s.sessions.Keys + s.active) * s.pendingCleanup.Keys
  }

  lemma UnionSize<T>(a: set<T>, b: set<T>)
    ensures |a + b| + |a * b| == |a| + |b|
  {
    assert (a + b) - b == a - a * b && |a + b| == |(a + b) - b| + |b|;
  }

  /** The admission sum is the room taken, and again the ids counted twice. */
  lemma AdmissionSumIs(s: State)
    requires Reachable(s)
    ensures Admitted(s) == |Occupied(s)| + |CountedTwice(s)|
  {
    BookkeepingAgrees(s);
    var held := s.inProgress + s.sessions.Keys + s.active;
    UnionSize(s.inProgress, s.sessions.Keys);
    UnionSize(s.inProgress + s.sessions.Keys, s.active);
    UnionSize(held, s.pendingCleanup.Keys);
    assert s.inProgress * s.sessions.Keys == {} && (s.inProgress + s.sessions.Keys) * s.active == {};
    assert |s.sessions| == |s.sessions.Keys| && |s.pendingCleanup| == |s.pendingCleanup.Keys|;
  }

  /** Counted twice are exactly: a failing resolve, an analysis that cleans up, and a session a disposer took to clean. */
  lemma CountedTwiceAre(s: State, id: Id)
    requires Reachable(s)
    ensures id in CountedTwice(s) <==> IsDiscarding(s, id) || IsFinishing(s, id) || (id in s.sessions && id in s.pendingCleanup)
    ensures id in s.sessions && id in s.pendingCleanup ==> s.disposed
  {
    ReachableInv(s);
    assert GoodAt(s, id);
  }

  /**
   * The admission sum stays within the limit exactly when the ids counted twice fit into the room that is left; so it
   * does when nothing is counted twice, and it never passes twice the limit.
   */
  lemma AdmissionSumExactly(s: State)
    requires Reachable(s)
    ensures Admitted(s) <= s.maxSessions <==> |CountedTwice(s)| <= s.maxSessions - |Occupied(s)|
    ensures CountedTwice(s) == {} ==> Admitted(s) <= s.maxSessions
    ensures Admitted(s) <= 2 * s.maxSessions
  {
    AdmissionSumIs(s);
    RoomIsNeverExceeded(s);
    Strings.CardinalityMonotone(CountedTwice(s), Occupied(s));
  }

  /** Twice the limit is reached: a failing resolve is counted twice. */
  lemma AdmissionSumCanExceed()
    ensures exists s :: Reachable(s) && s.maxSessions == 1 && Admitted(s) == 2
  {
    hide Register, Discarded, Analyze, AnalyzerDone, Finished, Release, Released, Dispose, Wake, DisposerDone, Cleaned, Awake, Choosable, MayEnd;
    var s0 := Start(1);
    var s1 := Next(s0, ResolveCall("a"));
    var s2 := Next(s1, MaterializeDone("a", true));
    var s3 := Next(s2, ProbeFailed("a"));
    assert s1.resolving["a"] == Materializing && s1.reservations == 1;
    assert s2.resolving["a"] == Probing(0) && s2.reservations == 1;
    assert s3.reservations == 1 && s3.pendingCleanup == map["a" := 0] && s3.sessions == map[] && s3.activeAnalyses == 0;
    var steps := [ResolveCall("a"), MaterializeDone("a", true), ProbeFailed("a")];
    RunOfThree(s0, steps[0], steps[1], steps[2]);
    assert IsRun(Start(1), steps) && After(Start(1), steps) == s3;
    assert Admitted(s3) == 2;
  }

  lemma RunOfThree(s: State, a: Step, b: Step, c: Step)
    requires Enabled(s, a) && Enabled(Next(s, a), b) && Enabled(Next(Next(s, a), b), c)
    ensures IsRun(s, [a, b, c]) && After(s, [a, b, c]) == Next(Next(Next(s, a), b), c)
  {
    hide Enabled, Next;
    var t := Next(s, a);
    var u := Next(t, b);
    assert [a, b, c][1..] == [b, c] && [b, c][1..] == [c] && [c][1..] == [];
    assert IsRun(Next(u, c), []);
    assert IsRun(u, [c]) && After(u, [c]) == Next(u, c);
    assert IsRun(t, [b, c]) && After(t, [b, c]) == Next(u, c);
  }

  // ---------- disposal ----------

  /** A disposer passes each drain wait only at count zero, and starts to clean only when nothing is in flight. */
  lemma WaitsEndAtZero(s: State, d: nat)
    requires Reachable(s) && Awake(s, d)
    ensures s.reservations == 0
    ensures s.disposers[d].AwaitAnalyses? || s.disposers[d].AwaitReleases? ==> s.activeAnalyses == 0
    ensures s.disposers[d].AwaitReleases? ==> s.releasing == map[]
  {
    ReachableInv(s);
    AwakeAtZero(s, d);
  }

  /** Once a dispose returned, no id holds anything and every tree ever materialized is disposed. */
  lemma ReturnedMeansAllDisposed(s: State, d: nat)
    requires Reachable(s) && d in s.disposers && s.disposers[d].Returned?
    ensures Occupied(s) == {} && s.releasing == map[]
    ensures forall tree: Tree :: tree < s.nextTree ==> tree in s.disposedTrees
  {
    ReachableInv(s);
    assert DisposerAt(s, Returned);
    assert s.inProgress == {} && s.active == {};
    forall tree: Tree | tree < s.nextTree ensures tree in s.disposedTrees {
      UndisposedTreeHasOneHolder(s, tree);
    }
  }

  // ---------- what no step ever takes back ----------

  /** Who took a session stays the only one; once disposed no session appears; a dispose that returned has returned. */
  ghost predicate Onward(s: State, t: State) {
    && (forall tree: Tree :: tree in s.taker ==> tree in t.taker && t.taker[tree] == s.taker[tree])
    && (s.disposed ==> t.disposed && t.sessions.Keys <= s.sessions.Keys)
    && (forall d :: d in s.disposers && s.disposers[d].Returned? ==> d in t.disposers && t.disposers[d].Returned?)
  }

  lemma OnwardThen(s: State, m: State, t: State)
    requires Onward(s, m) && Onward(m, t)
    ensures Onward(s, t)
  {
  }

  lemma SameOnward(s: State, t: State)
    requires t.taker == s.taker && t.disposers == s.disposers && (s.disposed ==> t.disposed && t.sessions.Keys <= s.sessions.Keys)
    ensures Onward(s, t)
  {
  }

  lemma ResolveOnward(s: State, id: Id)
    ensures Onward(s, Resolve(s, id))
  {
    var t := Resolve(s, id);
    assert t.taker == s.taker && t.disposers == s.disposers && t.disposed == s.disposed && t.sessions == s.sessions;
    hide Resolve;
    SameOnward(s, t);
  }

  lemma MaterializeOnward(s: State, id: Id, ok: bool)
    requires IsMaterializing(s, id)
    ensures Onward(s, Materialize(s, id, ok))
  {
    var t := Materialize(s, id, ok);
    assert t.taker == s.taker && t.disposers == s.disposers && t.disposed == s.disposed && t.sessions == s.sessions;
    hide Materialize;
    SameOnward(s, t);
  }

  lemma DiscardOnward(s: State, id: Id)
    requires IsProbing(s, id)
    ensures Onward(s, Discard(s, id))
  {
    SameOnward(s, Discard(s, id));
  }

  lemma RegisterOnward(s: State, id: Id, canonical: string)
    requires IsProbing(s, id)
    ensures Onward(s, Register(s, id, canonical))
  {
    DiscardOnward(s, id);
    hide WithoutEntry, Discard;
    if !s.disposed && id !in s.sessions {
      var m := Enrolled(s, id, Session(s.resolving[id].tree, canonical));
      assert m.taker == s.taker && m.disposers == s.disposers && m.disposed == s.disposed;
      hide Enrolled;
      SameOnward(s, Register(s, id, canonical));
    }
  }

  lemma DiscardedOnward(s: State, id: Id, ok: bool)
    requires IsDiscarding(s, id)
    ensures Onward(s, Discarded(s, id, ok))
  {
    var t := Discarded(s, id, ok);
    assert t.taker == s.taker && t.disposers == s.disposers && t.disposed == s.disposed && t.sessions == s.sessions;
    hide Discarded;
    SameOnward(s, t);
  }

  lemma TakenOnward(s: State, id: Id)
    requires Inv(s) && id in s.sessions && !s.disposed
    ensures Onward(s, TakenByAnalysis(s, id))
  {
    assert GoodAt(s, id);
    assert s.sessions[id].tree !in s.taker;
    hide Inv, GoodAt, ViewOf, Onward;
    TakeOnward(s, TakenByAnalysis(s, id), s.sessions[id].tree, ByAnalysis);
  }

  lemma RunOnward(s: State, id: Id, session: Session, submitted: string)
    ensures Onward(s, Run(s, id, session, submitted))
  {
  }

  lemma FinishOnward(s: State, id: Id, tree: Tree, canonical: string)
    ensures Onward(s, Finish(s, id, tree, canonical))
  {
  }

  lemma AnalyzeOnward(s: State, id: Id, submitted: string)
    requires Inv(s)
    ensures Onward(s, Analyze(s, id, submitted))
  {
    if !s.disposed && id in s.sessions {
      var m, session := TakenByAnalysis(s, id), s.sessions[id];
      TakenOnward(s, id);
      hide Inv, Run, Finish, Onward, TakenByAnalysis;
      RunOnward(m, id, session, submitted);
      FinishOnward(m, id, session.tree, session.canonical);
      OnwardThen(s, m, Analyze(s, id, submitted));
    } else {
      SameOnward(s, s);
    }
  }

  lemma TreeReleasedOnward(s: State, id: Id, tree: Tree, canonical: string, ok: bool)
    ensures Onward(s, TreeReleased(s, id, tree, canonical, ok))
  {
    hide Remembered;
  }

  lemma EndAnalysisOnward(s: State, id: Id)
    ensures Onward(s, EndAnalysis(s, id))
  {
  }

  lemma FinishedOnward(s: State, id: Id, ok: bool)
    requires IsFinishing(s, id)
    ensures Onward(s, Finished(s, id, ok))
  {
    var work := s.analyzing[id];
    hide TreeReleased, EndAnalysis, Onward;
    var m := TreeReleased(s, id, work.tree, work.canonical, ok);
    TreeReleasedOnward(s, id, work.tree, work.canonical, ok);
    EndAnalysisOnward(m, id);
    OnwardThen(s, m, Finished(s, id, ok));
  }

  /** Taking a tree nobody took before goes onward. */
  lemma TakeOnward(s: State, t: State, tree: Tree, how: Taker)
    requires tree !in s.taker && t.taker == s.taker[tree := how] && t.disposers == s.disposers
    requires s.disposed ==> t.disposed && t.sessions.Keys <= s.sessions.Keys
    ensures Onward(s, t)
  {
  }

  lemma ReleaseTakes(s: State, id: Id, submitted: string)
    requires StartsRelease(s, id, submitted) && (id in s.sessions || id in s.pendingCleanup)
    ensures var t := Release(s, id, submitted);
      && t.disposers == s.disposers && t.disposed == s.disposed && t.sessions == s.sessions - {id}
      && t.taker == if id in s.sessions then s.taker[s.sessions[id].tree := ByRelease] else s.taker
  {
    hide OutcomeOfRelease;
  }

  lemma ReleaseOnward(s: State, id: Id, submitted: string)
    requires Inv(s)
    ensures Onward(s, Release(s, id, submitted))
  {
    var t := Release(s, id, submitted);
    if StartsRelease(s, id, submitted) {
      ReleaseOutcomes(s, id, submitted);
      ReleaseTakes(s, id, submitted);
      assert GoodAt(s, id);
      assert id in s.sessions ==> s.sessions[id].tree !in s.taker;
      hide Inv, OutcomeOfRelease, ViewOf, Good, GoodAt, ReleasedTree, StartsRelease, Release, Onward;
      if id in s.sessions { TakeOnward(s, t, s.sessions[id].tree, ByRelease); } else { SameOnward(s, t); }
    } else {
      SameOnward(s, t);
    }
  }

  lemma ReleasedOnward(s: State, id: Id, ok: bool)
    requires id in s.releasing
    ensures Onward(s, Released(s, id, ok))
  {
    var work := s.releasing[id];
    TreeReleasedOnward(s, id, work.tree, work.canonical, ok);
    hide TreeReleased;
  }

  lemma DisposeOnward(s: State, d: nat)
    requires d !in s.disposers
    ensures Onward(s, Dispose(s, d))
  {
    hide PastReservations;
  }

  lemma SweptSessionTaker(s: State, next: Id)
    requires Inv(s) && next in s.sessions && s.sessions[next].tree in s.taker
    ensures s.taker[s.sessions[next].tree] == ByDisposal
  {
    assert GoodAt(s, next);
  }

  lemma SweepOnward(s: State, d: nat, next: Id)
    requires Inv(s) && Choosable(s, next) && d in s.disposers && !s.disposers[d].Returned?
    ensures Onward(s, Sweep(s, d, next))
  {
    hide Inv;
    if s.sessions != map[] && s.sessions[next].tree in s.taker { SweptSessionTaker(s, next); }
  }

  lemma WakeOnward(s: State, d: nat, next: Id)
    requires Inv(s) && Awake(s, d) && (s.disposers[d].AwaitReleases? ==> Choosable(s, next))
    ensures Onward(s, Wake(s, d, next))
  {
    hide PastReservations, ReleasePromises, Sweep, Inv;
    if s.disposers[d].AwaitReleases? { SweepOnward(s, d, next); }
  }

  lemma CleanedOnward(s: State, d: nat)
    requires IsCleaning(s, d)
    ensures Onward(s, Cleaned(s, d))
  {
  }

  lemma DisposerDoneOnward(s: State, d: nat, ok: bool, next: Id)
    requires Inv(s) && IsCleaning(s, d) && (ok ==> Choosable(Cleaned(s, d), next))
    ensures Onward(s, DisposerDone(s, d, ok, next))
  {
    if ok {
      var m := Cleaned(s, d);
      CleanedInv(s, d);
      CleanedOnward(s, d);
      assert m.disposers == s.disposers;
      hide Sweep, Inv, Onward, Cleaned;
      SweepOnward(m, d, next);
      OnwardThen(s, m, DisposerDone(s, d, ok, next));
    }
  }

  lemma StepIsOnward(s: State, step: Step)
    requires Inv(s) && Enabled(s, step)
    ensures Onward(s, Next(s, step))
  {
    hide Inv, Onward, Resolve, Materialize, Discard, Register, Discarded, Analyze, AnalyzerDone, Finished, Release, Released,
      Dispose, Wake, DisposerDone, Awake, Cleaned, Choosable, MayEnd;
    match step
    case ResolveCall(id) => ResolveOnward(s, id);
    case MaterializeDone(id, ok) => MaterializeOnward(s, id, ok);
    case ProbeFailed(id) => DiscardOnward(s, id);
    case ProbeDone(id, canonical) => RegisterOnward(s, id, canonical);
    case DiscardDone(id, ok) => DiscardedOnward(s, id, ok);
    case AnalyzeCall(id, submitted) => AnalyzeOnward(s, id, submitted);
    case AnalyzerReturned(id) =>
      FinishOnward(s, id, s.analyzing[id].tree, s.analyzing[id].canonical);
      AnalyzerDoneFinishes(s, id);
    case FinishDone(id, ok) => FinishedOnward(s, id, ok);
    case ReleaseCall(id, submitted) => ReleaseOnward(s, id, submitted);
    case ReleaseDone(id, ok) => ReleasedOnward(s, id, ok);
    case DisposeCall(d) => DisposeOnward(s, d);
    case DisposerWoken(d, next) => WakeOnward(s, d, next);
    case DisposerCleaned(d, ok, next) => DisposerDoneOnward(s, d, ok, next);
  }

  lemma AnalyzerDoneFinishes(s: State, id: Id)
    requires IsRunning(s, id)
    ensures AnalyzerDone(s, id) == Finish(s, id, s.analyzing[id].tree, s.analyzing[id].canonical)
  {
  }

  lemma {:induction false} RunIsOnward(s: State, steps: seq<Step>)
    requires Inv(s) && IsRun(s, steps)
    ensures Onward(s, After(s, steps))
    decreases |steps|
  {
    if steps == [] {
      SameOnward(s, s);
    } else {
      StepIsOnward(s, steps[0]);
      StepKeepsInv(s, steps[0]);
      hide Inv, Next, Enabled, Onward;
      RunIsOnward(Next(s, steps[0]), steps[1..]);
      OnwardThen(s, Next(s, steps[0]), After(s, steps));
    }
  }

  lemma {:induction false} RunStaysReachable(s: State, steps: seq<Step>)
    requires Reachable(s) && IsRun(s, steps)
    ensures Reachable(After(s, steps))
  {
    var maxSessions, before :| IsRun(Start(maxSessions), before) && After(Start(maxSessions), before) == s;
    RunsJoin(Start(maxSessions), before, steps);
    hide IsRun, After;
    assert IsRun(Start(maxSessions), before + steps);
  }

  lemma {:induction false} RunsJoin(s: State, before: seq<Step>, steps: seq<Step>)
    requires IsRun(s, before) && IsRun(After(s, before), steps)
    ensures IsRun(s, before + steps) && After(s, before + steps) == After(After(s, before), steps)
    decreases |before|
  {
    hide Enabled, Next;
    if before == [] {
      assert before + steps == steps;
    } else {
      RunsJoin(Next(s, before[0]), before[1..], steps);
      assert (before + steps)[1..] == before[1..] + steps;
    }
  }

  /** A registered session is taken by one of analyze, release and dispose, for good. */
  lemma TakenOnce(s: State, steps: seq<Step>, tree: Tree)
    requires Reachable(s) && IsRun(s, steps) && tree in s.taker
    ensures tree in After(s, steps).taker && After(s, steps).taker[tree] == s.taker[tree]
  {
    ReachableInv(s);
    RunIsOnward(s, steps);
  }

  /** A taken session is not found again, except by the disposers that are emptying the map. */
  lemma TakenIsGone(s: State, id: Id)
    requires Reachable(s) && id in s.sessions && s.sessions[id].tree in s.taker
    ensures s.disposed && s.taker[s.sessions[id].tree] == ByDisposal
  {
    ReachableInv(s);
    assert GoodAt(s, id);
  }

  lemma NoSessionAppearsAfterDispose(s: State, steps: seq<Step>)
    requires Reachable(s) && IsRun(s, steps) && s.disposed
    ensures After(s, steps).disposed && After(s, steps).sessions.Keys <= s.sessions.Keys
  {
    ReachableInv(s);
    RunIsOnward(s, steps);
  }

  /** What a returned dispose guarantees, it guarantees for ever. */
  lemma AllDisposedForEver(s: State, d: nat, steps: seq<Step>)
    requires Reachable(s) && d in s.disposers && s.disposers[d].Returned? && IsRun(s, steps)
    ensures Occupied(After(s, steps)) == {}
    ensures forall tree: Tree :: tree < After(s, steps).nextTree ==> tree in After(s, steps).disposedTrees
  {
    ReachableInv(s);
    RunIsOnward(s, steps);
    RunStaysReachable(s, steps);
    ReturnedMeansAllDisposed(After(s, steps), d);
  }

  /** The analyzer runs only on exactly the request that was registered last for the id. */
  lemma AnalyzerRunsTheRegisteredRequest(s: State, id: Id)
    requires Reachable(s) && IsRunning(s, id)
    ensures id in s.latest && s.analyzing[id].submitted == s.latest[id].canonical
    ensures s.analyzing[id].tree == s.latest[id].tree && s.analyzing[id].tree !in s.disposedTrees
  {
    ReachableInv(s);
    assert GoodAt(s, id);
  }

  // ---------- release ----------

  /** A release that returns at once was of the latest registration, whose tree is disposed already. */
  lemma ReturningAtOnceMeansDisposed(s: State, id: Id, submitted: string)
    requires Reachable(s) && OutcomeOfRelease(s, id, submitted).ReturnsAtOnce?
    ensures id in s.latest && s.latest[id].canonical == submitted && s.latest[id].tree in s.disposedTrees
  {
    ReachableInv(s);
    var k :| 0 <= k < |s.released| && s.released[k] == LedgerEntry(id, Sha256(submitted));
    assert LedgerAt(s, s.released[k]);
  }

  /** A release whose cleanup succeeded, for its caller and for all who joined it, disposed the latest registration's tree. */
  lemma ReleasedMeansDisposed(s: State, id: Id)
    requires Reachable(s) && id in s.releasing
    ensures id in s.latest && s.latest[id].canonical == s.releasing[id].canonical
    ensures var t := Released(s, id, true); t.latest == s.latest && t.latest[id].tree in t.disposedTrees
    ensures OutcomeOfRelease(Released(s, id, true), id, s.releasing[id].canonical).ReturnsAtOnce?
  {
    ReachableInv(s);
    ReleasedRegistration(s, id);
    assert GoodAt(s, id);
    RememberedHas(s.released, id, s.releasing[id].canonical);
    hide Remembered, Inv;
  }

  lemma RememberedHas(ledger: seq<LedgerEntry>, id: Id, canonical: string)
    ensures InLedger(Remembered(ledger, id, canonical), id, canonical)
  {
    var grown := WithoutEntry(ledger, id) + [LedgerEntry(id, Sha256(canonical))];
    assert |grown| > 1 ==> grown[1..][|grown| - 2] == LedgerEntry(id, Sha256(canonical));
  }

  /** A failed cleanup, of a release or of an analysis, can be retried by releasing the same request again. */
  lemma FailedReleaseIsRetried(s: State, id: Id)
    requires Reachable(s) && id in s.releasing && !s.disposed
    ensures var t := Released(s, id, false);
      && OutcomeOfRelease(t, id, s.releasing[id].canonical).Retries?
      && Release(t, id, s.releasing[id].canonical).releasing[id].tree == s.releasing[id].tree
  {
    ReachableInv(s);
    assert GoodAt(s, id);
    hide Remembered, Inv, InLedger, Good, Held, Registration;
  }

  lemma FailedAnalysisCleanupIsRetried(s: State, id: Id)
    requires Reachable(s) && IsFinishing(s, id) && !s.disposed
    ensures var t := Finished(s, id, false);
      && OutcomeOfRelease(t, id, s.analyzing[id].canonical).Retries?
      && Release(t, id, s.analyzing[id].canonical).releasing[id].tree == s.analyzing[id].tree
  {
    ReachableInv(s);
    assert GoodAt(s, id);
    hide Remembered, Inv, InLedger, Good, Held, Registration;
  }

  lemma LedgerIsBounded(s: State)
    requires Reachable(s)
    ensures |s.released| <= 1024
    ensures forall i, j :: 0 <= i < j < |s.released| ==> s.released[i].id != s.released[j].id
  {
    ReachableInv(s);
  }
}
