/** Counting what is in flight, and what a disposer knows once a promise wakes it. */
module GitSessionDisposal {
  import opened JsonValues
  import opened GitSessions
  import opened GitSessionInvariants

  // ---------- counters ----------

  predicate Counts(s: State) {
    s.reservations == |s.inProgress| && s.activeAnalyses == |s.active|
  }

  lemma ResolveCounts(s: State, id: Id)
    requires Counts(s)
    ensures Counts(Resolve(s, id))
  {
  }

  lemma EndReservationCounts(s: State, t: State, id: Id)
    requires Counts(s) && id in s.inProgress
    requires t.inProgress == s.inProgress && t.active == s.active && t.reservations == s.reservations && t.activeAnalyses == s.activeAnalyses
    ensures Counts(EndReservation(t, id))
  {
  }

  lemma EndAnalysisCounts(s: State, t: State, id: Id)
    requires Counts(s) && id in s.active
    requires t.inProgress == s.inProgress && t.active == s.active && t.reservations == s.reservations && t.activeAnalyses == s.activeAnalyses
    ensures Counts(EndAnalysis(t, id))
  {
  }

  lemma TakenCounts(s: State, id: Id)
    requires Counts(s) && id in s.sessions && id !in s.active
    ensures Counts(TakenByAnalysis(s, id))
  {
  }

  /** Nothing that is counted or promised changed. */
  predicate SameFlow(s: State, t: State) {
    && t.inProgress == s.inProgress && t.active == s.active
    && t.reservations == s.reservations && t.reservationsDrained == s.reservationsDrained
    && t.activeAnalyses == s.activeAnalyses && t.analysesDrained == s.analysesDrained
    && t.releasing == s.releasing && t.signalled == s.signalled && t.nextPromise == s.nextPromise
  }

  lemma RunFlow(s: State, id: Id, session: Session, submitted: string)
    ensures SameFlow(s, Run(s, id, session, submitted))
  {
  }

  lemma FinishFlow(s: State, id: Id, tree: Tree, canonical: string)
    ensures SameFlow(s, Finish(s, id, tree, canonical))
  {
  }

  /** After taking the session, the rest of the segment leaves counters and promises alone. */
  lemma AnalyzeFlow(s: State, id: Id, submitted: string)
    requires !s.disposed && id in s.sessions
    ensures SameFlow(TakenByAnalysis(s, id), Analyze(s, id, submitted))
  {
    hide TakenByAnalysis, Run, Finish, SameFlow;
    RunFlow(TakenByAnalysis(s, id), id, s.sessions[id], submitted);
    FinishFlow(TakenByAnalysis(s, id), id, s.sessions[id].tree, s.sessions[id].canonical);
  }

  lemma AnalyzeCounts(s: State, id: Id, submitted: string)
    requires Counts(s) && Good(s)
    ensures Counts(Analyze(s, id, submitted))
  {
    if !s.disposed && id in s.sessions {
      assert GoodAt(s, id);
      assert id !in s.active;
      TakenCounts(s, id);
      AnalyzeFlow(s, id, submitted);
      hide TakenByAnalysis, Analyze, Good;
    }
  }

  // ---------- promises ----------

  predicate Fresh(s: State, promise: Promise) {
    promise < s.nextPromise && promise !in s.signalled
  }

  /** A drain promise exists exactly while something is in flight, and no promise anyone still waits for is signalled. */
  ghost predicate Promises(s: State) {
    && (s.reservationsDrained.Some? <==> s.reservations > 0)
    && (s.analysesDrained.Some? <==> s.activeAnalyses > 0)
    && (s.reservationsDrained.Some? ==> Fresh(s, s.reservationsDrained.value))
    && (s.analysesDrained.Some? ==> Fresh(s, s.analysesDrained.value) && s.analysesDrained != s.reservationsDrained)
    && (forall x {:trigger s.releasing[x]} :: x in s.releasing ==>
          && Fresh(s, s.releasing[x].promise)
          && Some(s.releasing[x].promise) != s.reservationsDrained && Some(s.releasing[x].promise) != s.analysesDrained)
    && (forall x, y :: x in s.releasing && y in s.releasing && x != y ==> s.releasing[x].promise != s.releasing[y].promise)
    && (forall promise :: promise in s.signalled ==> promise < s.nextPromise)
  }

  lemma ResolvePromises(s: State, id: Id)
    requires Promises(s)
    ensures Promises(Resolve(s, id))
  {
  }

  lemma SamePromises(s: State, t: State)
    requires Promises(s) && SameFlow(s, t)
    ensures Promises(t)
  {
  }

  lemma EndReservationPromises(s: State, id: Id)
    requires Promises(s)
    ensures Promises(EndReservation(s, id))
  {
  }

  lemma EndAnalysisPromises(s: State, id: Id)
    requires Promises(s)
    ensures Promises(EndAnalysis(s, id))
  {
  }

  lemma TakenPromises(s: State, id: Id)
    requires Promises(s) && id in s.sessions
    ensures Promises(TakenByAnalysis(s, id))
  {
  }

  lemma AnalyzePromises(s: State, id: Id, submitted: string)
    requires Promises(s)
    ensures Promises(Analyze(s, id, submitted))
  {
    if !s.disposed && id in s.sessions {
      TakenPromises(s, id);
      AnalyzeFlow(s, id, submitted);
      hide TakenByAnalysis, Analyze, Promises, SameFlow;
      SamePromises(TakenByAnalysis(s, id), Analyze(s, id, submitted));
    }
  }

  lemma ReleasePromisesKept(s: State, id: Id, submitted: string)
    requires Promises(s)
    ensures Promises(Release(s, id, submitted))
  {
    hide InLedger, OutcomeOfRelease, ReleasedTree;
  }

  lemma ReleasedPromises(s: State, id: Id, ok: bool)
    requires Promises(s) && id in s.releasing
    ensures Promises(Released(s, id, ok))
  {
    hide Remembered;
  }

  // ---------- disposers ----------

  /** Nothing is in flight. */
  predicate Quiet(s: State) {
    s.reservations == 0 && s.activeAnalyses == 0 && s.releasing == map[]
  }

  /** The tree a disposer cleans is what the id still holds, unless another disposer was faster. */
  predicate CleaningAt(s: State, id: Id, tree: Tree) {
    && (id in s.sessions ==> s.sessions[id].tree == tree && id in s.pendingCleanup)
    && (id in s.pendingCleanup ==> s.pendingCleanup[id] == tree)
    && (id !in s.pendingCleanup ==> tree in s.disposedTrees)
  }

  predicate DisposerAt(s: State, disposer: Disposer) {
    match disposer
    case AwaitReservations(promise) =>
      if s.reservations > 0 then s.reservationsDrained == Some(promise) else promise in s.signalled
    case AwaitAnalyses(promise) =>
      && s.reservations == 0
      && if s.activeAnalyses > 0 then s.analysesDrained == Some(promise) else promise in s.signalled
    case AwaitReleases(promises) =>
      && s.reservations == 0 && s.activeAnalyses == 0
      && ReleasePromises(s) <= promises <= ReleasePromises(s) + s.signalled
    case CleaningSession(id, tree) => Quiet(s) && CleaningAt(s, id, tree) && id !in s.pendingSessionCleanup
    case CleaningPending(id, tree) => Quiet(s) && s.sessions == map[] && CleaningAt(s, id, tree)
    case Returned => Quiet(s) && s.sessions == map[] && s.pendingCleanup == map[]
    case Rejected => true
  }

  ghost predicate Disposal(s: State) {
    && (s.disposers != map[] ==> s.disposed)
    && forall d {:trigger s.disposers[d]} :: d in s.disposers ==> DisposerAt(s, s.disposers[d])
  }

  lemma NoDisposers(s: State, t: State)
    requires Disposal(s) && !s.disposed && t.disposers == s.disposers
    ensures Disposal(t)
  {
  }

  /** While reservations are open every disposer waits for them. */
  lemma ReservationStep(s: State, t: State)
    requires Disposal(s) && Promises(s) && t.disposers == s.disposers && t.disposed == s.disposed && s.reservations > 0
    requires s.signalled <= t.signalled
    requires if t.reservations > 0 then t.reservationsDrained == s.reservationsDrained
             else s.reservationsDrained.value in t.signalled
    ensures Disposal(t)
  {
    forall d | d in t.disposers ensures DisposerAt(t, t.disposers[d]) { assert DisposerAt(s, s.disposers[d]); }
  }

  lemma AnalysisStep(s: State, t: State)
    requires Disposal(s) && Promises(s) && t.disposers == s.disposers && t.disposed == s.disposed && s.activeAnalyses > 0
    requires s.signalled <= t.signalled && t.reservations == s.reservations && t.reservationsDrained == s.reservationsDrained
    requires if t.activeAnalyses > 0 then t.analysesDrained == s.analysesDrained else s.analysesDrained.value in t.signalled
    ensures Disposal(t)
  {
    forall d | d in t.disposers ensures DisposerAt(t, t.disposers[d]) { assert DisposerAt(s, s.disposers[d]); }
  }

  lemma ReleasePromisesShrink(s: State, t: State, id: Id)
    requires id in s.releasing && t.releasing == s.releasing - {id}
    ensures ReleasePromises(t) <= ReleasePromises(s) <= ReleasePromises(t) + {s.releasing[id].promise}
  {
    forall promise | promise in ReleasePromises(s) ensures promise in ReleasePromises(t) + {s.releasing[id].promise} {
      var x :| x in s.releasing && s.releasing[x].promise == promise;
      assert x != id ==> x in t.releasing && t.releasing[x].promise in ReleasePromises(t);
    }
  }

  lemma ReleaseStep(s: State, t: State, id: Id)
    requires Disposal(s) && Promises(s) && t.disposers == s.disposers && t.disposed == s.disposed && id in s.releasing
    requires s.signalled <= t.signalled && t.reservations == s.reservations && t.reservationsDrained == s.reservationsDrained
    requires t.activeAnalyses == s.activeAnalyses && t.analysesDrained == s.analysesDrained
    requires t.releasing == s.releasing - {id} && s.releasing[id].promise in t.signalled
    ensures Disposal(t)
  {
    ReleasePromisesShrink(s, t, id);
    hide ReleasePromises;
    forall d | d in t.disposers ensures DisposerAt(t, t.disposers[d]) { assert DisposerAt(s, s.disposers[d]); }
  }

  lemma SameDisposer(s: State, t: State, disposer: Disposer)
    requires DisposerAt(s, disposer)
    requires t.reservations == s.reservations && t.reservationsDrained == s.reservationsDrained
    requires t.activeAnalyses == s.activeAnalyses && t.analysesDrained == s.analysesDrained
    requires t.releasing == s.releasing && t.signalled == s.signalled
    requires t.sessions == s.sessions && t.pendingCleanup == s.pendingCleanup
    requires t.pendingSessionCleanup == s.pendingSessionCleanup && t.disposedTrees == s.disposedTrees
    ensures DisposerAt(t, disposer)
  {
    assert ReleasePromises(t) == ReleasePromises(s);
  }

  lemma DisposeDisposal(s: State, d: nat)
    requires Disposal(s) && Promises(s) && d !in s.disposers
    ensures Disposal(Dispose(s, d))
  {
    var t := Dispose(s, d);
    assert DisposerAt(s, t.disposers[d]);
    hide DisposerAt, Promises;
    forall x | x in t.disposers ensures DisposerAt(t, t.disposers[x]) { SameDisposer(s, t, t.disposers[x]); }
  }

  lemma NobodySignalled(s: State, id: Id)
    requires Promises(s) && id in s.releasing
    ensures !(ReleasePromises(s) <= s.signalled)
  {
    assert s.releasing[id].promise in ReleasePromises(s);
  }

  /** A drain promise wakes its disposers only at count zero. */
  lemma AwakeAtZero(s: State, d: nat)
    requires Disposal(s) && Promises(s) && Awake(s, d)
    ensures s.reservations == 0
    ensures s.disposers[d].AwaitAnalyses? || s.disposers[d].AwaitReleases? ==> s.activeAnalyses == 0
    ensures s.disposers[d].AwaitReleases? ==> Quiet(s)
  {
    assert DisposerAt(s, s.disposers[d]);
    if s.disposers[d].AwaitReleases? {
      forall x ensures x !in s.releasing {
        if x in s.releasing { NobodySignalled(s, x); }
      }
      assert s.releasing == map[];
    }
  }

  lemma WokenDisposal(s: State, d: nat, next: Id)
    requires Disposal(s) && Promises(s) && Awake(s, d) && !s.disposers[d].AwaitReleases?
    ensures Disposal(Wake(s, d, next))
  {
    var t := Wake(s, d, next);
    assert DisposerAt(s, t.disposers[d]);
    hide DisposerAt, Promises, PastReservations, Awake, ReleasePromises, Sweep;
    forall x | x in t.disposers ensures DisposerAt(t, t.disposers[x]) { SameDisposer(s, t, t.disposers[x]); }
  }

  /** In a quiet state an id is registered or left over, nothing else. */
  lemma QuietView(s: State, id: Id)
    requires Good(s) && Counts(s) && Quiet(s)
    ensures var v := ViewOf(s, id);
      !v.inProgress && !v.active && v.resolving.None? && v.analyzing.None? && v.releasing.None?
  {
    assert GoodAt(s, id);
  }

  lemma SweepDisposal(s: State, d: nat, next: Id)
    requires Disposal(s) && Good(s) && Quiet(s) && Choosable(s, next) && d in s.disposers
    ensures Disposal(Sweep(s, d, next))
  {
    var t := Sweep(s, d, next);
    SweptOthers(s, d, next);
    hide Sweep, Good, DisposerAt, Quiet, Choosable;
    forall x | x in t.disposers ensures DisposerAt(t, t.disposers[x]) {
      if x == d { SweptInto(s, d, next); } else { SweptDisposer(s, d, next, x); }
    }
  }

  lemma SweptOthers(s: State, d: nat, next: Id)
    requires Choosable(s, next)
    ensures var t := Sweep(s, d, next);
      t.disposed == s.disposed && forall x :: x in t.disposers && x != d ==> x in s.disposers && t.disposers[x] == s.disposers[x]
  {
  }

  lemma SweptInto(s: State, d: nat, next: Id)
    requires Good(s) && Quiet(s) && Choosable(s, next) && d in s.disposers
    ensures d in Sweep(s, d, next).disposers && DisposerAt(Sweep(s, d, next), Sweep(s, d, next).disposers[d])
  {
    assert GoodAt(s, next);
    hide Held, Registration, Good, ReleasePromises;
  }

  lemma SweptDisposer(s: State, d: nat, next: Id, x: nat)
    requires Disposal(s) && Good(s) && Quiet(s) && Choosable(s, next) && x in s.disposers && x != d
    ensures DisposerAt(Sweep(s, d, next), s.disposers[x])
  {
    var t := Sweep(s, d, next);
    assert DisposerAt(s, s.disposers[x]);
    hide Disposal, Good, Sweep, ReleasePromises;
    if s.sessions == map[] {
      SweptNoSession(s, d, next);
      SameDisposer(s, t, s.disposers[x]);
    } else {
      SweptSession(s, d, next);
      assert ReleasePromises(t) == ReleasePromises(s) by { SameReleasing(s, t); }
    }
  }

  lemma SweptNoSession(s: State, d: nat, next: Id)
    requires s.sessions == map[] && Choosable(s, next)
    ensures var t := Sweep(s, d, next);
      && t.reservations == s.reservations && t.reservationsDrained == s.reservationsDrained
      && t.activeAnalyses == s.activeAnalyses && t.analysesDrained == s.analysesDrained
      && t.releasing == s.releasing && t.signalled == s.signalled && t.sessions == s.sessions
      && t.pendingSessionCleanup == s.pendingSessionCleanup && t.disposedTrees == s.disposedTrees
      && t.pendingCleanup == s.pendingCleanup
  {
  }

  lemma SameReleasing(s: State, t: State)
    requires t.releasing == s.releasing
    ensures ReleasePromises(t) == ReleasePromises(s)
  {
  }

  /** Sweeping a session marks its tree pending and changes nothing else a disposer looks at. */
  lemma SweptSession(s: State, d: nat, next: Id)
    requires Good(s) && s.sessions != map[] && next in s.sessions
    ensures var t := Sweep(s, d, next);
      && t.reservations == s.reservations && t.reservationsDrained == s.reservationsDrained
      && t.activeAnalyses == s.activeAnalyses && t.analysesDrained == s.analysesDrained
      && t.releasing == s.releasing && t.signalled == s.signalled && t.sessions == s.sessions
      && t.pendingSessionCleanup == s.pendingSessionCleanup && t.disposedTrees == s.disposedTrees
      && t.pendingCleanup == s.pendingCleanup[next := s.sessions[next].tree]
      && (next in s.pendingCleanup ==> s.pendingCleanup[next] == s.sessions[next].tree)
      && s.sessions[next].tree !in s.disposedTrees
  {
    assert GoodAt(s, next);
  }

  lemma CleanedDisposal(s: State, d: nat)
    requires Disposal(s) && Good(s) && IsCleaning(s, d)
    ensures Disposal(Cleaned(s, d)) && Quiet(Cleaned(s, d))
  {
    var t := Cleaned(s, d);
    assert DisposerAt(s, s.disposers[d]);
    hide Good;
    forall x | x in t.disposers ensures DisposerAt(t, t.disposers[x]) { CleanedDisposer(s, d, x); }
  }

  lemma CleanedDisposer(s: State, d: nat, x: nat)
    requires Disposal(s) && Good(s) && IsCleaning(s, d) && x in s.disposers
    ensures DisposerAt(Cleaned(s, d), s.disposers[x])
  {
    var t := Cleaned(s, d);
    var id := s.disposers[d].id;
    assert DisposerAt(s, s.disposers[x]) && DisposerAt(s, s.disposers[d]);
    assert ReleasePromises(t) == ReleasePromises(s);
    hide Good, Disposal, ReleasePromises;
  }
}
