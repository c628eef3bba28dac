/** The session ports as an object: one method per segment of code between two awaits, updating the shared fields in place. */
module GitSessionPorts {
  import opened JsonValues
  import opened GitSessions
  import opened GitSessionInvariants
  import opened GitSessionDisposal
  import opened GitSessionSteps

  class Ports {
    const maxSessions: nat
    var disposed: bool
    var sessions: map<Id, Session>
    var pendingCleanup: map<Id, Tree>
    var pendingSessionCleanup: map<Id, string>
    var releasing: map<Id, Releasing>
    var released: seq<LedgerEntry>
    var inProgress: set<Id>
    var active: set<Id>
    var reservations: nat
    var reservationsDrained: Option<Promise>
    var activeAnalyses: nat
    var analysesDrained: Option<Promise>
    var resolving: map<Id, Resolving>
    var analyzing: map<Id, Analyzing>
    var disposers: map<nat, Disposer>
    var signalled: set<Promise>
    var nextPromise: Promise
    var nextTree: Tree
    var disposedTrees: set<Tree>
    ghost var owner: map<Tree, Id>
    ghost var latest: map<Id, Session>
    ghost var taker: map<Tree, Taker>

    ghost function Now(): State
      reads this
    {
      State(maxSessions, disposed, sessions, pendingCleanup, pendingSessionCleanup, releasing, released, inProgress, active,
            reservations, reservationsDrained, activeAnalyses, analysesDrained, resolving, analyzing, disposers, signalled,
            nextPromise, nextTree, disposedTrees, owner, latest, taker)
    }

    ghost predicate Valid()
      reads this
    {
      Inv(Now())
    }

    constructor (maxSessions: nat)
      ensures Valid() && Now() == Start(maxSessions)
    {
      this.maxSessions := maxSessions;
      disposed, reservations, activeAnalyses, nextPromise, nextTree := false, 0, 0, 0, 0;
      sessions, pendingCleanup, pendingSessionCleanup, releasing, released := map[], map[], map[], map[], [];
      inProgress, active, reservationsDrained, analysesDrained := {}, {}, None, None;
      resolving, analyzing, disposers, signalled, disposedTrees := map[], map[], map[], {}, {};
      owner, latest, taker := map[], map[], map[];
      new;
      StartInv(maxSessions);
    }

    // ---------- what happens to the counters ----------

    /** One reservation less; the last one signals the drain promise and withdraws it. */
    twostate predicate ReservationEnded(id: Id)
      reads this
    {
      && inProgress == old(inProgress) - {id} && resolving == old(resolving) - {id}
      && reservations == old(reservations) - 1
      && reservationsDrained == (if reservations == 0 then None else old(reservationsDrained))
      && signalled == if reservations == 0 && old(reservationsDrained).Some? then old(signalled) + {old(reservationsDrained).value}
                      else old(signalled)
    }

    /** One analysis less, likewise. */
    twostate predicate AnalysisEnded(id: Id)
      reads this
    {
      && active == old(active) - {id} && analyzing == old(analyzing) - {id}
      && activeAnalyses == old(activeAnalyses) - 1
      && analysesDrained == (if activeAnalyses == 0 then None else old(analysesDrained))
      && signalled == if activeAnalyses == 0 && old(analysesDrained).Some? then old(signalled) + {old(analysesDrained).value}
                      else old(signalled)
    }

    /** A cleaned tree is disposed, no longer pending and remembered as released; a failed cleanup leaves everything for a retry. */
    twostate predicate CleanupEnded(id: Id, tree: Tree, canonical: string, ok: bool)
      reads this
    {
      if ok then
        && disposedTrees == old(disposedTrees) + {tree}
        && pendingCleanup == old(pendingCleanup) - {id} && pendingSessionCleanup == old(pendingSessionCleanup) - {id}
        && released == Remembered(old(released), id, canonical)
      else
        && disposedTrees == old(disposedTrees)
        && pendingCleanup == old(pendingCleanup) && pendingSessionCleanup == old(pendingSessionCleanup)
        && released == old(released)
    }

    // ---------- resolve ----------

    /** Up to the first await: refuse, or reserve. */
    method BeginResolve(id: Id) returns (reserved: bool)
      modifies `inProgress, `reservationsDrained, `nextPromise, `reservations, `resolving
      ensures reserved <==>
        && !old(disposed)
        && old(reservations) + |old(sessions)| + old(activeAnalyses) + |old(pendingCleanup)| < maxSessions
        && id !in old(sessions) && id !in old(pendingCleanup) && id !in old(inProgress) && id !in old(active)
      ensures !reserved ==> unchanged(this)
      ensures reserved ==>
        && inProgress == old(inProgress) + {id} && resolving == old(resolving)[id := Materializing]
        && reservations == old(reservations) + 1
        && reservationsDrained == (if old(reservations) == 0 then Some(old(nextPromise)) else old(reservationsDrained))
        && nextPromise == old(nextPromise) + if old(reservations) == 0 then 1 else 0
    {
      if disposed || reservations + |sessions| + activeAnalyses + |pendingCleanup| >= maxSessions { return false; }
      if id in sessions || id in pendingCleanup || id in inProgress || id in active { return false; }
      inProgress := inProgress + {id};
      if reservations == 0 {
        reservationsDrained := Some(nextPromise);
        nextPromise := nextPromise + 1;
      }
      reservations := reservations + 1;
      resolving := resolving[id := Materializing];
      return true;
    }

    /** The inner finally of a resolve. */
    method FinishReservation(id: Id)
      requires reservations > 0
      modifies `inProgress, `resolving, `reservations, `signalled, `reservationsDrained
      ensures ReservationEnded(id)
    {
      inProgress := inProgress - {id};
      resolving := resolving - {id};
      reservations := reservations - 1;
      if reservations == 0 {
        if reservationsDrained.Some? { signalled := signalled + {reservationsDrained.value}; }
        reservationsDrained := None;
      }
    }

    method MaterializeEnds(id: Id, ok: bool)
      requires IsMaterializing(Now(), id) && reservations > 0
      modifies `inProgress, `resolving, `reservations, `signalled, `reservationsDrained, `nextTree, `owner
      ensures ok ==>
        && resolving == old(resolving)[id := Probing(old(nextTree))]
        && owner == old(owner)[old(nextTree) := id] && nextTree == old(nextTree) + 1
        && unchanged(`inProgress, `reservations, `signalled, `reservationsDrained)
      ensures !ok ==> ReservationEnded(id) && unchanged(`nextTree, `owner)
    {
      if ok {
        resolving := resolving[id := Probing(nextTree)];
        owner := owner[nextTree := id];
        nextTree := nextTree + 1;
      } else {
        FinishReservation(id);
      }
    }

    /** The outer finally of a resolve that still has its tree: start cleaning it up. */
    method ProbeFails(id: Id)
      requires IsProbing(Now(), id)
      modifies `pendingCleanup, `resolving
      ensures pendingCleanup == old(pendingCleanup)[id := old(resolving)[id].tree]
      ensures resolving == old(resolving)[id := Discarding(old(resolving)[id].tree)]
    {
      var tree := resolving[id].tree;
      pendingCleanup := pendingCleanup[id := tree];
      resolving := resolving[id := Discarding(tree)];
    }

    method Forget(id: Id)
      modifies `released
      ensures released == WithoutEntry(old(released), id)
    {
      var kept: seq<LedgerEntry> := [];
      var k := |released|;
      while k > 0
        invariant 0 <= k <= |released| && released == old(released)
        invariant kept == WithoutEntry(released[k..], id)
      {
        k := k - 1;
        assert released[k..] == [released[k]] + released[k + 1..];
        if released[k].id != id { kept := [released[k]] + kept; }
      }
      assert released[0..] == released;
      released := kept;
    }

    /** The last segment of a good probe: register the tree, unless it came too late and has to be cleaned up. */
    method ProbeEnds(id: Id, canonical: string)
      requires IsProbing(Now(), id) && reservations > 0
      modifies `sessions, `released, `latest, `pendingCleanup, `inProgress, `resolving, `reservations, `signalled, `reservationsDrained
      ensures old(disposed) || id in old(sessions) ==>
        && pendingCleanup == old(pendingCleanup)[id := old(resolving)[id].tree]
        && resolving == old(resolving)[id := Discarding(old(resolving)[id].tree)]
        && unchanged(`sessions, `released, `latest, `inProgress, `reservations, `signalled, `reservationsDrained)
      ensures !old(disposed) && id !in old(sessions) ==>
        && sessions == old(sessions)[id := Session(old(resolving)[id].tree, canonical)]
        && latest == old(latest)[id := Session(old(resolving)[id].tree, canonical)]
        && released == WithoutEntry(old(released), id) && unchanged(`pendingCleanup)
        && ReservationEnded(id)
    {
      if disposed || id in sessions {
        ProbeFails(id);
      } else {
        var session := Session(resolving[id].tree, canonical);
        sessions := sessions[id := session];
        Forget(id);
        latest := latest[id := session];
        FinishReservation(id);
      }
    }

    method DiscardEnds(id: Id, ok: bool)
      requires IsDiscarding(Now(), id) && reservations > 0
      modifies `disposedTrees, `pendingCleanup, `inProgress, `resolving, `reservations, `signalled, `reservationsDrained
      ensures disposedTrees == old(disposedTrees) + if ok then {old(resolving)[id].tree} else {}
      ensures pendingCleanup == old(pendingCleanup) - if ok then {id} else {}
      ensures ReservationEnded(id)
    {
      if ok {
        disposedTrees := disposedTrees + {resolving[id].tree};
        pendingCleanup := pendingCleanup - {id};
      }
      FinishReservation(id);
    }

    // ---------- analyze ----------

    /** The session is gone and its id is active; the first analysis opens the drain promise. */
    twostate predicate Taken(id: Id)
      requires id in old(sessions)
      reads this
    {
      && sessions == old(sessions) - {id} && active == old(active) + {id}
      && taker == old(taker)[old(sessions)[id].tree := ByAnalysis]
      && activeAnalyses == old(activeAnalyses) + 1
      && analysesDrained == (if old(activeAnalyses) == 0 then Some(old(nextPromise)) else old(analysesDrained))
      && nextPromise == old(nextPromise) + if old(activeAnalyses) == 0 then 1 else 0
    }

    /** Takes the session; a request that is not the registered one goes straight to the cleanup. */
    method BeginAnalyze(id: Id, submitted: string)
      modifies `sessions, `active, `analysesDrained, `nextPromise, `activeAnalyses, `analyzing, `taker, `pendingCleanup, `pendingSessionCleanup
      ensures old(disposed) || id !in old(sessions) ==> unchanged(this)
      ensures !old(disposed) && id in old(sessions) ==>
        var session := old(sessions)[id];
        && Taken(id)
        && (submitted == session.canonical ==>
              && analyzing == old(analyzing)[id := Running(session.tree, session.canonical, submitted)]
              && unchanged(`pendingCleanup, `pendingSessionCleanup))
        && (submitted != session.canonical ==>
              && analyzing == old(analyzing)[id := Finishing(session.tree, session.canonical)]
              && pendingCleanup == old(pendingCleanup)[id := session.tree]
              && pendingSessionCleanup == old(pendingSessionCleanup)[id := session.canonical])
    {
      if disposed || id !in sessions { return; }
      var session := sessions[id];
      TakeForAnalysis(id);
      if submitted != session.canonical {
        BeginFinish(id, session.tree, session.canonical);
        return;
      }
      analyzing := analyzing[id := Running(session.tree, session.canonical, submitted)];
    }

    method TakeForAnalysis(id: Id)
      requires id in sessions
      modifies `sessions, `active, `analysesDrained, `nextPromise, `activeAnalyses, `taker
      ensures Taken(id)
    {
      taker := taker[sessions[id].tree := ByAnalysis];
      sessions := sessions - {id};
      active := active + {id};
      if activeAnalyses == 0 {
        analysesDrained := Some(nextPromise);
        nextPromise := nextPromise + 1;
      }
      activeAnalyses := activeAnalyses + 1;
    }

    /** The inner finally of an analysis, up to its await. */
    method BeginFinish(id: Id, tree: Tree, canonical: string)
      modifies `pendingSessionCleanup, `pendingCleanup, `analyzing
      ensures pendingSessionCleanup == old(pendingSessionCleanup)[id := canonical]
      ensures pendingCleanup == old(pendingCleanup)[id := tree]
      ensures analyzing == old(analyzing)[id := Finishing(tree, canonical)]
    {
      pendingSessionCleanup := pendingSessionCleanup[id := canonical];
      pendingCleanup := pendingCleanup[id := tree];
      analyzing := analyzing[id := Finishing(tree, canonical)];
    }

    method Remember(id: Id, canonical: string)
      modifies `released
      ensures released == Remembered(old(released), id, canonical)
    {
      Forget(id);
      released := released + [LedgerEntry(id, Sha256(canonical))];
      if |released| > 1024 { released := released[1..]; }
    }

    /** The continuation of a session's cleanup. */
    method CleanupEnds(id: Id, tree: Tree, canonical: string, ok: bool)
      modifies `disposedTrees, `pendingCleanup, `pendingSessionCleanup, `released
      ensures CleanupEnded(id, tree, canonical, ok)
    {
      if ok {
        disposedTrees := disposedTrees + {tree};
        pendingCleanup := pendingCleanup - {id};
        pendingSessionCleanup := pendingSessionCleanup - {id};
        Remember(id, canonical);
      }
    }

    method FinishEnds(id: Id, ok: bool)
      requires IsFinishing(Now(), id) && activeAnalyses > 0
      modifies `disposedTrees, `pendingCleanup, `pendingSessionCleanup, `released, `active, `analyzing, `activeAnalyses, `signalled, `analysesDrained
      ensures CleanupEnded(id, old(analyzing)[id].tree, old(analyzing)[id].canonical, ok)
      ensures AnalysisEnded(id)
    {
      hide Remembered;
      CleanupEnds(id, analyzing[id].tree, analyzing[id].canonical, ok);
      active := active - {id};
      analyzing := analyzing - {id};
      activeAnalyses := activeAnalyses - 1;
      if activeAnalyses == 0 {
        if analysesDrained.Some? { signalled := signalled + {analysesDrained.value}; }
        analysesDrained := None;
      }
    }

    // ---------- release ----------

    /** The tree is pending, and a release of it is in flight that others can join. */
    twostate predicate ReleaseStarted(id: Id, canonical: string, tree: Tree)
      reads this
    {
      && pendingSessionCleanup == old(pendingSessionCleanup)[id := canonical]
      && pendingCleanup == old(pendingCleanup)[id := tree]
      && releasing == old(releasing)[id := Releasing(tree, canonical, old(nextPromise))]
      && nextPromise == old(nextPromise) + 1
    }

    /** Refuse, join, return at once, or start a release from the session or from a tree left over by a failed cleanup. */
    method OnRelease(id: Id, submitted: string) returns (outcome: ReleaseOutcome)
      modifies `sessions, `taker, `pendingSessionCleanup, `pendingCleanup, `releasing, `nextPromise
      ensures outcome == OutcomeOfRelease(old(Now()), id, submitted)
      ensures Now() == Release(old(Now()), id, submitted)
      ensures outcome.Refused? || outcome.ReturnsAtOnce? || outcome.Joins? ==> unchanged(this)
      ensures outcome.Joins? <==> id !in old(active) && id in old(releasing) && old(releasing)[id].canonical == submitted
      ensures outcome.ReturnsAtOnce? <==>
        && id !in old(active) && id !in old(releasing) && id !in old(sessions) && id !in old(pendingSessionCleanup)
        && LedgerEntry(id, Sha256(submitted)) in old(released)
      ensures outcome.FromSession? <==>
        && id !in old(active) && id !in old(releasing) && !old(disposed)
        && id in old(sessions) && old(sessions)[id].canonical == submitted
      ensures outcome.Retries? <==>
        && id !in old(active) && id !in old(releasing) && id !in old(sessions) && !old(disposed)
        && id in old(pendingSessionCleanup) && old(pendingSessionCleanup)[id] == submitted && id in old(pendingCleanup)
      ensures outcome.FromSession? ==>
        && sessions == old(sessions) - {id} && taker == old(taker)[old(sessions)[id].tree := ByRelease]
        && ReleaseStarted(id, submitted, old(sessions)[id].tree)
      ensures outcome.Retries? ==>
        && unchanged(`sessions, `taker)
        && ReleaseStarted(id, submitted, old(pendingCleanup)[id])
    {
      OutcomesOfRelease(Now(), id, submitted);
      hide OutcomeOfRelease, Release, ReleasedTree;
      if id in active { return Refused; }
      if id in releasing { return if releasing[id].canonical == submitted then Joins else Refused; }
      if id !in sessions {
        if id in pendingSessionCleanup {
          if disposed || pendingSessionCleanup[id] != submitted || id !in pendingCleanup { return Refused; }
          ReleaseLeftover(id, submitted);
          return Retries;
        }
        return if LedgerEntry(id, Sha256(submitted)) in released then ReturnsAtOnce else Refused;
      }
      if disposed || sessions[id].canonical != submitted { return Refused; }
      ReleaseSession(id, submitted);
      return FromSession;
    }

    method ReleaseSession(id: Id, submitted: string)
      requires OutcomeOfRelease(Now(), id, submitted).FromSession? && id in sessions
      modifies `sessions, `taker, `pendingSessionCleanup, `pendingCleanup, `releasing, `nextPromise
      ensures Now() == Release(old(Now()), id, submitted)
      ensures sessions == old(sessions) - {id} && taker == old(taker)[old(sessions)[id].tree := ByRelease]
      ensures ReleaseStarted(id, submitted, old(sessions)[id].tree)
    {
      ghost var before := Now();
      hide OutcomeOfRelease, Release, ReleasedTree;
      StartFromSession(id, submitted);
      assert Now() == before.(sessions := sessions, taker := taker, pendingSessionCleanup := pendingSessionCleanup,
                              pendingCleanup := pendingCleanup, releasing := releasing, nextPromise := nextPromise);
      ReleaseFromSession(before, id, submitted);
    }

    method StartFromSession(id: Id, submitted: string)
      requires id in sessions
      modifies `sessions, `taker, `pendingSessionCleanup, `pendingCleanup, `releasing, `nextPromise
      ensures sessions == old(sessions) - {id} && taker == old(taker)[old(sessions)[id].tree := ByRelease]
      ensures ReleaseStarted(id, submitted, old(sessions)[id].tree)
    {
      var tree := sessions[id].tree;
      sessions := sessions - {id};
      taker := taker[tree := ByRelease];
      ReleaseTree(id, submitted, tree);
    }

    method ReleaseLeftover(id: Id, submitted: string)
      requires OutcomeOfRelease(Now(), id, submitted).Retries? && id in pendingCleanup
      modifies `pendingSessionCleanup, `pendingCleanup, `releasing, `nextPromise
      ensures Now() == Release(old(Now()), id, submitted)
      ensures ReleaseStarted(id, submitted, old(pendingCleanup)[id])
    {
      ghost var before := Now();
      ReleaseRetry(before, id, submitted);
      ReleaseTree(id, submitted, pendingCleanup[id]);
      hide OutcomeOfRelease, Release, ReleasedTree;
      assert Now() == before.(pendingSessionCleanup := pendingSessionCleanup, pendingCleanup := pendingCleanup,
                              releasing := releasing, nextPromise := nextPromise);
    }

    method ReleaseTree(id: Id, canonical: string, tree: Tree)
      modifies `pendingSessionCleanup, `pendingCleanup, `releasing, `nextPromise
      ensures ReleaseStarted(id, canonical, tree)
    {
      pendingSessionCleanup := pendingSessionCleanup[id := canonical];
      pendingCleanup := pendingCleanup[id := tree];
      releasing := releasing[id := Releasing(tree, canonical, nextPromise)];
      nextPromise := nextPromise + 1;
    }

    method ReleaseEnds(id: Id, ok: bool)
      requires id in releasing
      modifies `disposedTrees, `pendingCleanup, `pendingSessionCleanup, `released, `releasing, `signalled
      ensures CleanupEnded(id, old(releasing)[id].tree, old(releasing)[id].canonical, ok)
      ensures releasing == old(releasing) - {id} && signalled == old(signalled) + {old(releasing)[id].promise}
    {
      hide Remembered;
      var work := releasing[id];
      CleanupEnds(id, work.tree, work.canonical, ok);
      releasing := releasing - {id};
      signalled := signalled + {work.promise};
    }

    // ---------- dispose ----------

    /** The promises of the releases in flight, as collected by a disposer. */
    method Snapshot() returns (promises: set<Promise>)
      ensures promises == ReleasePromises(Now())
    {
      promises := set id | id in releasing :: releasing[id].promise;
    }

    /** From the drain of the reservations to the next await. */
    method PassReservations(d: nat)
      modifies `disposers
      ensures activeAnalyses > 0 && analysesDrained.Some? ==> disposers == old(disposers)[d := AwaitAnalyses(analysesDrained.value)]
      ensures !(activeAnalyses > 0 && analysesDrained.Some?) ==> disposers == old(disposers)[d := AwaitReleases(ReleasePromises(Now()))]
    {
      if activeAnalyses > 0 && analysesDrained.Some? {
        disposers := disposers[d := AwaitAnalyses(analysesDrained.value)];
      } else {
        var promises := Snapshot();
        disposers := disposers[d := AwaitReleases(promises)];
      }
    }

    method BeginDispose(d: nat)
      requires d !in disposers
      modifies `disposed, `disposers
      ensures disposed
      ensures reservations > 0 && reservationsDrained.Some? ==>
        disposers == old(disposers)[d := AwaitReservations(reservationsDrained.value)]
      ensures !(reservations > 0 && reservationsDrained.Some?) ==> disposers == old(disposers)[d := PastReservations(Now())]
    {
      disposed := true;
      if reservations > 0 && reservationsDrained.Some? {
        disposers := disposers[d := AwaitReservations(reservationsDrained.value)];
      } else {
        PassReservations(d);
      }
    }

    /** A disposer starts on a session, which it marks pending, else on a pending tree; with nothing left it returns. */
    twostate predicate Swept(d: nat, next: Id)
      requires old(Choosable(Now(), next))
      reads this
    {
      if old(sessions) != map[] then
        var tree := old(sessions)[next].tree;
        && disposers == old(disposers)[d := CleaningSession(next, tree)]
        && pendingCleanup == old(pendingCleanup)[next := tree] && taker == old(taker)[tree := ByDisposal]
      else
        && unchanged(`pendingCleanup, `taker)
        && disposers == old(disposers)[d := if old(pendingCleanup) == map[] then Returned
                                            else CleaningPending(next, old(pendingCleanup)[next])]
    }

    /** The next turn of the two cleaning loops, over whatever entry comes next. */
    method SweepOn(d: nat, next: Id)
      requires Choosable(Now(), next)
      modifies `disposers, `pendingCleanup, `taker
      ensures Swept(d, next)
    {
      if sessions != map[] {
        var tree := sessions[next].tree;
        taker := taker[tree := ByDisposal];
        pendingCleanup := pendingCleanup[next := tree];
        disposers := disposers[d := CleaningSession(next, tree)];
      } else if pendingCleanup != map[] {
        disposers := disposers[d := CleaningPending(next, pendingCleanup[next])];
      } else {
        disposers := disposers[d := Returned];
      }
    }

    /** A disposer that wakes before the last wait goes on to the next: the analyses if any run, then the releases. */
    method PassOn(d: nat)
      requires d in disposers && (disposers[d].AwaitReservations? || disposers[d].AwaitAnalyses?)
      modifies `disposers
      ensures old(disposers)[d].AwaitReservations? && activeAnalyses > 0 && analysesDrained.Some? ==>
        disposers == old(disposers)[d := AwaitAnalyses(analysesDrained.value)]
      ensures old(disposers)[d].AwaitAnalyses? || !(activeAnalyses > 0 && analysesDrained.Some?) ==>
        disposers == old(disposers)[d := AwaitReleases(ReleasePromises(Now()))]
    {
      if disposers[d].AwaitReservations? {
        PassReservations(d);
      } else {
        var promises := Snapshot();
        disposers := disposers[d := AwaitReleases(promises)];
      }
    }

    method CleanEnds(d: nat)
      requires IsCleaning(Now(), d)
      modifies `disposedTrees, `pendingCleanup, `sessions, `pendingSessionCleanup
      ensures var work := old(disposers)[d];
        && disposedTrees == old(disposedTrees) + {work.tree} && pendingCleanup == old(pendingCleanup) - {work.id}
        && (work.CleaningSession? ==> sessions == old(sessions) - {work.id} && unchanged(`pendingSessionCleanup))
        && (work.CleaningPending? ==> unchanged(`sessions) && pendingSessionCleanup == old(pendingSessionCleanup) - {work.id})
    {
      var work := disposers[d];
      disposedTrees := disposedTrees + {work.tree};
      pendingCleanup := pendingCleanup - {work.id};
      if work.CleaningSession? {
        sessions := sessions - {work.id};
      } else {
        pendingSessionCleanup := pendingSessionCleanup - {work.id};
      }
    }

    // ---------- the steps: each segment makes exactly its step of the protocol ----------

    method OnResolve(id: Id) returns (reserved: bool)
      modifies `inProgress, `reservationsDrained, `nextPromise, `reservations, `resolving
      ensures Now() == Resolve(old(Now()), id)
      ensures reserved == Accepts(old(Now()), id)
    {
      ghost var before := Now();
      reserved := BeginResolve(id);
      assert Now() == before.(inProgress := inProgress, reservationsDrained := reservationsDrained,
                              nextPromise := nextPromise, reservations := reservations, resolving := resolving);
    }

    method OnMaterialized(id: Id, ok: bool)
      requires IsMaterializing(Now(), id) && reservations > 0
      modifies `inProgress, `resolving, `reservations, `signalled, `reservationsDrained, `nextTree, `owner
      ensures Now() == Materialize(old(Now()), id, ok)
    {
      ghost var before := Now();
      if ok {
        MaterializeEnds(id, ok);
        assert Now() == before.(resolving := resolving, owner := owner, nextTree := nextTree);
      } else {
        hide Materialize, EndReservation;
        MaterializeEnds(id, ok);
        assert Now() == before.(inProgress := inProgress, resolving := resolving, reservations := reservations,
                                signalled := signalled, reservationsDrained := reservationsDrained);
        MaterializeFailed(before, id);
      }
    }

    method OnProbeFailed(id: Id)
      requires IsProbing(Now(), id)
      modifies `pendingCleanup, `resolving
      ensures Now() == Discard(old(Now()), id)
    {
      ghost var before := Now();
      ProbeFails(id);
      assert Now() == before.(pendingCleanup := pendingCleanup, resolving := resolving);
    }

    method OnProbed(id: Id, canonical: string)
      requires IsProbing(Now(), id) && reservations > 0
      modifies `sessions, `released, `latest, `pendingCleanup, `inProgress, `resolving, `reservations, `signalled, `reservationsDrained
      ensures Now() == Register(old(Now()), id, canonical)
    {
      ghost var before := Now();
      hide Register, Discard, EndReservation, Enrolled;
      if disposed || id in sessions {
        ProbeEnds(id, canonical);
        assert Now() == before.(pendingCleanup := pendingCleanup, resolving := resolving);
        RegisterTooLate(before, id, canonical);
      } else {
        ProbeEnds(id, canonical);
        assert Now() == before.(sessions := sessions, released := released, latest := latest,
                                inProgress := inProgress, resolving := resolving, reservations := reservations,
                                signalled := signalled, reservationsDrained := reservationsDrained);
        RegisterInTime(before, id, canonical);
      }
    }

    method OnDiscarded(id: Id, ok: bool)
      requires IsDiscarding(Now(), id) && reservations > 0
      modifies `disposedTrees, `pendingCleanup, `inProgress, `resolving, `reservations, `signalled, `reservationsDrained
      ensures Now() == Discarded(old(Now()), id, ok)
    {
      ghost var before := Now();
      DiscardEnds(id, ok);
      assert Now() == before.(disposedTrees := disposedTrees, pendingCleanup := pendingCleanup,
                              inProgress := inProgress, resolving := resolving, reservations := reservations,
                              signalled := signalled, reservationsDrained := reservationsDrained);
    }

    method OnAnalyze(id: Id, submitted: string)
      modifies `sessions, `active, `analysesDrained, `nextPromise, `activeAnalyses, `analyzing, `taker, `pendingCleanup, `pendingSessionCleanup
      ensures Now() == Analyze(old(Now()), id, submitted)
    {
      ghost var before := Now();
      if disposed || id !in sessions {
        BeginAnalyze(id, submitted);
      } else {
        AnalyzeFields(before, id, submitted);
        BeginAnalyze(id, submitted);
        hide Analyze;
        assert Now() == before.(sessions := sessions, active := active, analysesDrained := analysesDrained,
                                nextPromise := nextPromise, activeAnalyses := activeAnalyses, analyzing := analyzing,
                                taker := taker, pendingCleanup := pendingCleanup,
                                pendingSessionCleanup := pendingSessionCleanup);
      }
    }

    method OnAnalyzed(id: Id)
      requires IsRunning(Now(), id)
      modifies `pendingSessionCleanup, `pendingCleanup, `analyzing
      ensures Now() == AnalyzerDone(old(Now()), id)
    {
      ghost var before := Now();
      BeginFinish(id, analyzing[id].tree, analyzing[id].canonical);
      assert Now() == before.(pendingSessionCleanup := pendingSessionCleanup, pendingCleanup := pendingCleanup,
                              analyzing := analyzing);
    }

    method OnFinished(id: Id, ok: bool)
      requires IsFinishing(Now(), id) && activeAnalyses > 0
      modifies `disposedTrees, `pendingCleanup, `pendingSessionCleanup, `released, `active, `analyzing, `activeAnalyses, `signalled, `analysesDrained
      ensures Now() == Finished(old(Now()), id, ok)
    {
      ghost var before := Now();
      FinishEnds(id, ok);
      FinishedFields(before, id, ok);
      hide Finished, Remembered;
      assert Now() == Finished(before, id, ok);
    }

    method OnReleased(id: Id, ok: bool)
      requires id in releasing
      modifies `disposedTrees, `pendingCleanup, `pendingSessionCleanup, `released, `releasing, `signalled
      ensures Now() == Released(old(Now()), id, ok)
    {
      ghost var before := Now();
      hide Remembered;
      ReleaseEnds(id, ok);
      assert Now() == before.(disposedTrees := disposedTrees, pendingCleanup := pendingCleanup,
                              pendingSessionCleanup := pendingSessionCleanup, released := released,
                              releasing := releasing, signalled := signalled);
    }

    method OnDispose(d: nat)
      requires d !in disposers
      modifies `disposed, `disposers
      ensures Now() == Dispose(old(Now()), d)
    {
      ghost var before := Now();
      BeginDispose(d);
      PastReservationsOf(before, Now());
      hide PastReservations;
      assert Now() == before.(disposed := disposed, disposers := disposers);
    }

    method OnWoken(d: nat, next: Id)
      requires Awake(Now(), d) && (disposers[d].AwaitReleases? ==> Choosable(Now(), next))
      modifies `disposers, `pendingCleanup, `taker
      ensures Now() == Wake(old(Now()), d, next)
    {
      if disposers[d].AwaitReleases? {
        OnSwept(d, next);
      } else {
        ghost var before := Now();
        PassOn(d);
        PastReservationsOf(before, Now());
        hide ReleasePromises;
        assert Now() == before.(disposers := disposers);
      }
    }

    method OnCleaned(d: nat, ok: bool, next: Id)
      requires IsCleaning(Now(), d) && (ok ==> Choosable(Cleaned(Now(), d), next))
      modifies `disposers, `disposedTrees, `pendingCleanup, `sessions, `pendingSessionCleanup, `taker
      ensures Now() == DisposerDone(old(Now()), d, ok, next)
    {
      hide Cleaned, Sweep, Choosable;
      if ok { CleanAndSweep(d, next); } else { disposers := disposers[d := Rejected]; }
    }

    method OnTreeCleaned(d: nat)
      requires IsCleaning(Now(), d)
      modifies `disposedTrees, `pendingCleanup, `sessions, `pendingSessionCleanup
      ensures Now() == Cleaned(old(Now()), d)
    {
      ghost var before := Now();
      CleanEnds(d);
      assert Now() == before.(disposedTrees := disposedTrees, pendingCleanup := pendingCleanup, sessions := sessions,
                              pendingSessionCleanup := pendingSessionCleanup);
    }

    method OnSwept(d: nat, next: Id)
      requires Choosable(Now(), next)
      modifies `disposers, `pendingCleanup, `taker
      ensures Now() == Sweep(old(Now()), d, next)
    {
      ghost var before := Now();
      SweepOn(d, next);
      SweepFields(before, d, next);
      hide Sweep;
      assert Now() == before.(disposers := disposers, pendingCleanup := pendingCleanup, taker := taker);
    }

    method CleanAndSweep(d: nat, next: Id)
      requires IsCleaning(Now(), d) && Choosable(Cleaned(Now(), d), next)
      modifies `disposers, `disposedTrees, `pendingCleanup, `sessions, `pendingSessionCleanup, `taker
      ensures Now() == Sweep(Cleaned(old(Now()), d), d, next)
    {
      hide Cleaned, Sweep, Choosable, Now;
      OnTreeCleaned(d);
      OnSwept(d, next);
    }

    /** Any step the environment may choose next: the object makes it and keeps the invariant. */
    method Perform(step: Step)
      requires Valid() && Enabled(Now(), step)
      modifies this
      ensures Valid() && Now() == Next(old(Now()), step)
    {
      ghost var before := Now();
      StepKeepsInv(before, step);
      hide Inv, Now, Next, Enabled;
      if step.ResolveCall? || step.MaterializeDone? || step.ProbeFailed? || step.ProbeDone? || step.DiscardDone? {
        PerformResolving(step);
      } else {
        PerformOther(step);
      }
    }

    method PerformResolving(step: Step)
      requires Valid() && Enabled(Now(), step)
      requires step.ResolveCall? || step.MaterializeDone? || step.ProbeFailed? || step.ProbeDone? || step.DiscardDone?
      modifies this
      ensures Now() == Next(old(Now()), step)
    {
      InFlightCounts(Now());
      EnabledHere();
      hide Inv, Now, Resolve, Materialize, Discard, Register, Discarded;
      match step
      case ResolveCall(id) => var _ := OnResolve(id);
      case MaterializeDone(id, ok) => OnMaterialized(id, ok);
      case ProbeFailed(id) => OnProbeFailed(id);
      case ProbeDone(id, canonical) => OnProbed(id, canonical);
      case DiscardDone(id, ok) => OnDiscarded(id, ok);
    }

    method PerformOther(step: Step)
      requires Valid() && Enabled(Now(), step)
      requires !step.ResolveCall? && !step.MaterializeDone? && !step.ProbeFailed? && !step.ProbeDone? && !step.DiscardDone?
      modifies this
      ensures Now() == Next(old(Now()), step)
    {
      InFlightCounts(Now());
      EnabledHere();
      hide Inv, Now, Analyze, AnalyzerDone, Finished, Release, Released, Dispose, Wake, DisposerDone, Awake, Cleaned, Choosable,
        MayEnd, IsCleaning;
      match step
      case AnalyzeCall(id, submitted) => OnAnalyze(id, submitted);
      case AnalyzerReturned(id) => OnAnalyzed(id);
      case FinishDone(id, ok) => OnFinished(id, ok);
      case ReleaseCall(id, submitted) => var _ := OnRelease(id, submitted);
      case ReleaseDone(id, ok) => OnReleased(id, ok);
      case DisposeCall(d) => OnDispose(d);
      case DisposerWoken(d, next) => OnWoken(d, next);
      case DisposerCleaned(d, ok, next) => OnCleaned(d, ok, next);
    }

    lemma EnabledHere()
      ensures reservations == Now().reservations && activeAnalyses == Now().activeAnalyses
      ensures releasing == Now().releasing && disposers == Now().disposers
    {
    }
  }

  lemma InFlightCounts(s: State)
    requires Inv(s)
    ensures forall id :: id in s.resolving ==> s.reservations > 0
    ensures forall id :: id in s.analyzing ==> s.activeAnalyses > 0
  {
    forall id ensures (id in s.resolving ==> s.reservations > 0) && (id in s.analyzing ==> s.activeAnalyses > 0) {
      InFlight(s, id);
    }
  }

  // ---------- what each step does, field by field ----------

  lemma EndReservationFields(s: State, id: Id)
    requires s.reservations > 0
    ensures var left := s.reservations - 1;
      EndReservation(s, id) == s.(
        inProgress := s.inProgress - {id}, resolving := s.resolving - {id}, reservations := left,
        signalled := if left == 0 && s.reservationsDrained.Some? then s.signalled + {s.reservationsDrained.value} else s.signalled,
        reservationsDrained := if left == 0 then None else s.reservationsDrained)
  {
  }

  lemma MaterializeFailed(s: State, id: Id)
    requires IsMaterializing(s, id) && s.reservations > 0
    ensures var left := s.reservations - 1;
      Materialize(s, id, false) == s.(
        inProgress := s.inProgress - {id}, resolving := s.resolving - {id}, reservations := left,
        signalled := if left == 0 && s.reservationsDrained.Some? then s.signalled + {s.reservationsDrained.value} else s.signalled,
        reservationsDrained := if left == 0 then None else s.reservationsDrained)
  {
    EndReservationFields(s, id);
    hide EndReservation;
  }

  lemma RegisterTooLate(s: State, id: Id, canonical: string)
    requires IsProbing(s, id) && (s.disposed || id in s.sessions)
    ensures Register(s, id, canonical) == s.(pendingCleanup := s.pendingCleanup[id := s.resolving[id].tree],
                                             resolving := s.resolving[id := Discarding(s.resolving[id].tree)])
  {
  }

  lemma RegisterInTime(s: State, id: Id, canonical: string)
    requires IsProbing(s, id) && !s.disposed && id !in s.sessions && s.reservations > 0
    ensures var session, left := Session(s.resolving[id].tree, canonical), s.reservations - 1;
      Register(s, id, canonical) == s.(
        sessions := s.sessions[id := session], latest := s.latest[id := session], released := WithoutEntry(s.released, id),
        inProgress := s.inProgress - {id}, resolving := s.resolving - {id}, reservations := left,
        signalled := if left == 0 && s.reservationsDrained.Some? then s.signalled + {s.reservationsDrained.value} else s.signalled,
        reservationsDrained := if left == 0 then None else s.reservationsDrained)
  {
    EndReservationFields(Enrolled(s, id, Session(s.resolving[id].tree, canonical)), id);
    hide EndReservation, WithoutEntry;
  }

  lemma AnalyzeFields(s: State, id: Id, submitted: string)
    requires !s.disposed && id in s.sessions
    ensures var session, first, matched := s.sessions[id], s.activeAnalyses == 0, submitted == s.sessions[id].canonical;
      Analyze(s, id, submitted) == s.(
        sessions := s.sessions - {id}, active := s.active + {id}, taker := s.taker[session.tree := ByAnalysis],
        activeAnalyses := s.activeAnalyses + 1,
        analysesDrained := if first then Some(s.nextPromise) else s.analysesDrained,
        nextPromise := if first then s.nextPromise + 1 else s.nextPromise,
        analyzing := s.analyzing[id := if matched then Running(session.tree, session.canonical, submitted)
                                       else Finishing(session.tree, session.canonical)],
        pendingCleanup := if matched then s.pendingCleanup else s.pendingCleanup[id := session.tree],
        pendingSessionCleanup := if matched then s.pendingSessionCleanup else s.pendingSessionCleanup[id := session.canonical])
  {
  }

  lemma TreeReleasedFields(s: State, id: Id, tree: Tree, canonical: string, ok: bool)
    ensures TreeReleased(s, id, tree, canonical, ok) == if !ok then s else
      s.(disposedTrees := s.disposedTrees + {tree}, pendingCleanup := s.pendingCleanup - {id},
         pendingSessionCleanup := s.pendingSessionCleanup - {id}, released := Remembered(s.released, id, canonical))
  {
    hide Remembered;
  }

  lemma EndAnalysisFields(s: State, id: Id)
    requires s.activeAnalyses > 0
    ensures var left := s.activeAnalyses - 1;
      EndAnalysis(s, id) == s.(
        active := s.active - {id}, analyzing := s.analyzing - {id}, activeAnalyses := left,
        signalled := if left == 0 && s.analysesDrained.Some? then s.signalled + {s.analysesDrained.value} else s.signalled,
        analysesDrained := if left == 0 then None else s.analysesDrained)
  {
  }

  lemma FinishedFields(s: State, id: Id, ok: bool)
    requires IsFinishing(s, id) && s.activeAnalyses > 0
    ensures var work, left := s.analyzing[id], s.activeAnalyses - 1;
      Finished(s, id, ok) == s.(
        disposedTrees := if ok then s.disposedTrees + {work.tree} else s.disposedTrees,
        pendingCleanup := if ok then s.pendingCleanup - {id} else s.pendingCleanup,
        pendingSessionCleanup := if ok then s.pendingSessionCleanup - {id} else s.pendingSessionCleanup,
        released := if ok then Remembered(s.released, id, work.canonical) else s.released,
        active := s.active - {id}, analyzing := s.analyzing - {id}, activeAnalyses := left,
        signalled := if left == 0 && s.analysesDrained.Some? then s.signalled + {s.analysesDrained.value} else s.signalled,
        analysesDrained := if left == 0 then None else s.analysesDrained)
  {
    var cleaned := TreeReleased(s, id, s.analyzing[id].tree, s.analyzing[id].canonical, ok);
    TreeReleasedFields(s, id, s.analyzing[id].tree, s.analyzing[id].canonical, ok);
    EndAnalysisFields(cleaned, id);
    hide TreeReleased, EndAnalysis, Remembered;
  }

  lemma OutcomesOfRelease(s: State, id: Id, submitted: string)
    ensures !OutcomeOfRelease(s, id, submitted).FromSession? && !OutcomeOfRelease(s, id, submitted).Retries? ==>
      Release(s, id, submitted) == s
    ensures OutcomeOfRelease(s, id, submitted) ==
      if id in s.active then Refused
      else if id in s.releasing then (if s.releasing[id].canonical == submitted then Joins else Refused)
      else if id in s.sessions then (if s.disposed || s.sessions[id].canonical != submitted then Refused else FromSession)
      else if id in s.pendingSessionCleanup then
        (if s.disposed || s.pendingSessionCleanup[id] != submitted || id !in s.pendingCleanup then Refused else Retries)
      else if InLedger(s.released, id, submitted) then ReturnsAtOnce
      else Refused
  {
    hide ReleasedTree;
  }

  lemma ReleaseFromSession(s: State, id: Id, submitted: string)
    requires OutcomeOfRelease(s, id, submitted).FromSession?
    ensures id in s.sessions
    ensures var tree := s.sessions[id].tree;
      Release(s, id, submitted) == s.(
        sessions := s.sessions - {id}, taker := s.taker[tree := ByRelease],
        pendingSessionCleanup := s.pendingSessionCleanup[id := submitted], pendingCleanup := s.pendingCleanup[id := tree],
        releasing := s.releasing[id := Releasing(tree, submitted, s.nextPromise)], nextPromise := s.nextPromise + 1)
  {
  }

  lemma ReleaseRetry(s: State, id: Id, submitted: string)
    requires OutcomeOfRelease(s, id, submitted).Retries?
    ensures id !in s.sessions && id in s.pendingCleanup
    ensures var tree := s.pendingCleanup[id];
      Release(s, id, submitted) == s.(
        pendingSessionCleanup := s.pendingSessionCleanup[id := submitted], pendingCleanup := s.pendingCleanup[id := tree],
        releasing := s.releasing[id := Releasing(tree, submitted, s.nextPromise)], nextPromise := s.nextPromise + 1)
  {
    assert id !in s.sessions ==> s.sessions - {id} == s.sessions;
  }

  lemma PastReservationsOf(s: State, t: State)
    requires t.activeAnalyses == s.activeAnalyses && t.analysesDrained == s.analysesDrained && t.releasing == s.releasing
    ensures ReleasePromises(t) == ReleasePromises(s) && PastReservations(t) == PastReservations(s)
  {
  }

  lemma SweepFields(s: State, d: nat, next: Id)
    requires Choosable(s, next)
    ensures var phase := if s.sessions != map[] then CleaningSession(next, s.sessions[next].tree)
                         else if s.pendingCleanup != map[] then CleaningPending(next, s.pendingCleanup[next]) else Returned;
      Sweep(s, d, next) == s.(
        disposers := s.disposers[d := phase],
        pendingCleanup := if s.sessions != map[] then s.pendingCleanup[next := s.sessions[next].tree] else s.pendingCleanup,
        taker := if s.sessions != map[] then s.taker[s.sessions[next].tree := ByDisposal] else s.taker)
  {
  }
}
