/** Waiting disposers make progress: what they wait for can end, and after finitely many ends they wake. */
module GitSessionProgress {
  import opened JsonValues
  import opened GitSessions
  import opened GitSessionInvariants
  import opened GitSessionDisposal
  import opened GitSessionSteps
  import opened GitSessionSafety
  import Strings

  predicate Waits(disposer: Disposer) {
    disposer.AwaitReservations? || disposer.AwaitAnalyses? || disposer.AwaitReleases?
  }

  /** A step of one of the resolves, analyses or releases this disposer waits for. */
  predicate Awaits(s: State, disposer: Disposer, step: Step) {
    match disposer
    case AwaitReservations(_) =>
      (step.MaterializeDone? || step.ProbeFailed? || step.ProbeDone? || step.DiscardDone?) && step.id in s.inProgress
    case AwaitAnalyses(_) => (step.AnalyzerReturned? || step.FinishDone?) && step.id in s.active
    case AwaitReleases(promises) =>
      step.ReleaseDone? && step.id in s.releasing && s.releasing[step.id].promise in promises
    case _ => false
  }

  // ---------- what is left to do ----------

  function Unmaterialized(s: State): set<Id> {
    set id | id in s.resolving && s.resolving[id].Materializing?
  }

  function Undiscarded(s: State): set<Id> {
    set id | id in s.resolving && !s.resolving[id].Discarding?
  }

  function Unfinished(s: State): set<Id> {
    set id | id in s.analyzing && s.analyzing[id].Running?
  }

  /** At most three more operations for a resolve, two for an analysis, one for a release. */
  function Work(s: State, disposer: Disposer): nat {
    match disposer
    case AwaitReservations(_) => |s.resolving.Keys| + |Undiscarded(s)| + |Unmaterialized(s)|
    case AwaitAnalyses(_) => |s.analyzing.Keys| + |Unfinished(s)|
    case AwaitReleases(promises) => |promises - s.signalled|
    case _ => 0
  }

  lemma NoneOf(s: State)
    requires Inv(s)
    ensures s.resolving.Keys == s.inProgress && s.analyzing.Keys == s.active
    ensures s.reservations == |s.inProgress| && s.activeAnalyses == |s.active|
  {
    forall id ensures (id in s.resolving <==> id in s.inProgress) && (id in s.analyzing <==> id in s.active) {
      assert GoodAt(s, id);
    }
  }

  /** A waiting disposer sleeps exactly while there is work left. */
  lemma SleepsWhileWork(s: State, d: nat)
    requires Reachable(s) && d in s.disposers && Waits(s.disposers[d])
    ensures Awake(s, d) <==> Work(s, s.disposers[d]) == 0
  {
    ReachableInv(s);
    NoneOf(s);
    assert DisposerAt(s, s.disposers[d]);
    NoWork(s, s.disposers[d]);
    hide Good, Trees, Ledger, Capacity, Work, Unfinished, Undiscarded, Unmaterialized;
  }

  lemma NoWork(s: State, disposer: Disposer)
    ensures disposer.AwaitReservations? ==> (Work(s, disposer) == 0 <==> s.resolving.Keys == {})
    ensures disposer.AwaitAnalyses? ==> (Work(s, disposer) == 0 <==> s.analyzing.Keys == {})
    ensures disposer.AwaitReleases? ==> (Work(s, disposer) == 0 <==> disposer.promises <= s.signalled)
  {
    if disposer.AwaitReservations? && s.resolving.Keys == {} {
      assert Undiscarded(s) == {} && Unmaterialized(s) == {};
    }
    if disposer.AwaitAnalyses? && s.analyzing.Keys == {} { assert Unfinished(s) == {}; }
    if disposer.AwaitReleases? {
      if disposer.promises - s.signalled == {} {
        forall promise | promise in disposer.promises ensures promise in s.signalled {
          assert promise !in disposer.promises - s.signalled;
        }
      }
      assert disposer.promises <= s.signalled ==> disposer.promises - s.signalled == {};
    }
  }

  // ---------- something can end ----------

  lemma SomeMember<T>(xs: set<T>) returns (x: T)
    requires |xs| > 0
    ensures x in xs
  {
    x :| x in xs;
  }

  lemma ResolvingStep(s: State, id: Id) returns (step: Step)
    requires id in s.resolving && id in s.inProgress
    ensures Enabled(s, step) && (step.MaterializeDone? || step.ProbeFailed? || step.DiscardDone?) && step.id == id
  {
    hide Awake, Choosable, Cleaned;
    if IsMaterializing(s, id) {
      step := MaterializeDone(id, true);
    } else if IsProbing(s, id) {
      step := ProbeFailed(id);
    } else {
      step := DiscardDone(id, true);
    }
  }

  lemma AnalyzingStep(s: State, id: Id) returns (step: Step)
    requires id in s.analyzing && id in s.active
    ensures Enabled(s, step) && (step.AnalyzerReturned? || step.FinishDone?) && step.id == id
  {
    hide Awake, Choosable, Cleaned;
    if IsRunning(s, id) {
      step := AnalyzerReturned(id);
    } else {
      step := FinishDone(id, true);
    }
  }

  lemma WaitedRelease(s: State, disposer: Disposer) returns (id: Id)
    requires DisposerAt(s, disposer) && disposer.AwaitReleases? && Work(s, disposer) > 0
    ensures id in s.releasing && s.releasing[id].promise in disposer.promises
  {
    var promise := SomeMember(disposer.promises - s.signalled);
    assert promise in ReleasePromises(s);
    id :| id in s.releasing && s.releasing[id].promise == promise;
  }

  /** No disposer is ever stuck: while it sleeps, one of the operations it waits for can end. */
  lemma SleepingDisposerHasWork(s: State, d: nat) returns (step: Step)
    requires Reachable(s) && d in s.disposers && Waits(s.disposers[d]) && !Awake(s, d)
    ensures Enabled(s, step) && Awaits(s, s.disposers[d], step)
  {
    var disposer := s.disposers[d];
    ReachableInv(s);
    NoneOf(s);
    SleepsWhileWork(s, d);
    NoWork(s, disposer);
    assert DisposerAt(s, disposer);
    hide Inv, Awake, Enabled, Reachable, Work, DisposerAt;
    if disposer.AwaitReservations? {
      var id :| id in s.resolving.Keys;
      step := ResolvingStep(s, id);
    } else if disposer.AwaitAnalyses? {
      var id :| id in s.analyzing.Keys;
      step := AnalyzingStep(s, id);
    } else {
      var id := WaitedRelease(s, disposer);
      step := ReleaseDone(id, true);
      ReleaseEnabled(s, id);
    }
  }

  lemma ReleaseEnabled(s: State, id: Id)
    requires id in s.releasing
    ensures Enabled(s, ReleaseDone(id, true))
  {
  }

  // ---------- every step leaves at most the same work ----------

  /** Nothing new to resolve or analyze, and no signal withdrawn. */
  predicate Onto(s: State, t: State) {
    && t.resolving.Keys <= s.resolving.Keys && Undiscarded(t) <= Undiscarded(s) && Unmaterialized(t) <= Unmaterialized(s)
    && t.analyzing.Keys <= s.analyzing.Keys && Unfinished(t) <= Unfinished(s)
    && s.signalled <= t.signalled
  }

  lemma OntoSame(s: State, t: State)
    requires t.resolving == s.resolving && t.analyzing == s.analyzing && s.signalled <= t.signalled
    ensures Onto(s, t)
  {
  }

  /** Only one id's resolve moved, and it moved on. */
  predicate MovedOn(before: Resolving, after: Option<Resolving>) {
    match after
    case None => true
    case Some(Materializing) => false
    case Some(Probing(_)) => before.Materializing?
    case Some(Discarding(_)) => !before.Discarding?
  }

  lemma OntoResolving(s: State, t: State, id: Id)
    requires id in s.resolving && t.analyzing == s.analyzing && s.signalled <= t.signalled
    requires t.resolving - {id} == s.resolving - {id} && MovedOn(s.resolving[id], Lookup(t.resolving, id))
    ensures Onto(s, t)
    ensures forall promise :: Work(t, AwaitReservations(promise)) < Work(s, AwaitReservations(promise))
  {
    forall x | x in t.resolving ensures x in s.resolving && (x != id ==> t.resolving[x] == s.resolving[x]) {
      if x != id { assert x in t.resolving - {id}; }
    }
    assert t.resolving.Keys <= s.resolving.Keys && Undiscarded(t) <= Undiscarded(s) && Unmaterialized(t) <= Unmaterialized(s);
    Shrinks(t.resolving.Keys, s.resolving.Keys, id);
    Shrinks(Undiscarded(t), Undiscarded(s), id);
    Shrinks(Unmaterialized(t), Unmaterialized(s), id);
  }

  lemma OntoAnalyzing(s: State, t: State, id: Id)
    requires id in s.analyzing && t.resolving == s.resolving && s.signalled <= t.signalled
    requires t.analyzing - {id} == s.analyzing - {id}
    requires id in t.analyzing ==> s.analyzing[id].Running? && t.analyzing[id].Finishing?
    ensures Onto(s, t)
    ensures forall promise :: Work(t, AwaitAnalyses(promise)) < Work(s, AwaitAnalyses(promise))
  {
    forall x | x in t.analyzing ensures x in s.analyzing && (x != id ==> t.analyzing[x] == s.analyzing[x]) {
      if x != id { assert x in t.analyzing - {id}; }
    }
    assert t.analyzing.Keys <= s.analyzing.Keys && Unfinished(t) <= Unfinished(s);
    Shrinks(t.analyzing.Keys, s.analyzing.Keys, id);
    Shrinks(Unfinished(t), Unfinished(s), id);
  }

  lemma Shrinks<T>(a: set<T>, b: set<T>, x: T)
    requires a <= b
    ensures |a| <= |b| && (x in b && x !in a ==> |a| < |b|)
  {
    Strings.CardinalityMonotone(a, b);
    if x in b && x !in a { Strings.CardinalityMonotone(a + {x}, b); }
  }

  lemma OntoWork(s: State, t: State, disposer: Disposer)
    requires Onto(s, t)
    ensures Work(t, disposer) <= Work(s, disposer)
  {
    Strings.CardinalityMonotone(t.resolving.Keys, s.resolving.Keys);
    Strings.CardinalityMonotone(Undiscarded(t), Undiscarded(s));
    Strings.CardinalityMonotone(Unmaterialized(t), Unmaterialized(s));
    Strings.CardinalityMonotone(t.analyzing.Keys, s.analyzing.Keys);
    Strings.CardinalityMonotone(Unfinished(t), Unfinished(s));
    if disposer.AwaitReleases? { Strings.CardinalityMonotone(disposer.promises - t.signalled, disposer.promises - s.signalled); }
  }

  lemma ResolvingWork(s: State, step: Step)
    requires Inv(s) && s.disposed && Enabled(s, step)
    requires step.MaterializeDone? || step.ProbeFailed? || step.ProbeDone? || step.DiscardDone?
    ensures Onto(s, Next(s, step)) && Next(s, step).disposers == s.disposers
    ensures forall promise :: Work(Next(s, step), AwaitReservations(promise)) < Work(s, AwaitReservations(promise))
  {
    ResolvingFields(s, step);
    hide Inv, Next, Onto, Work;
    OntoResolving(s, Next(s, step), step.id);
  }

  /** What a resolve's step does to its place, and to nothing else that matters here. */
  predicate Resolved(s: State, t: State, id: Id) {
    && id in s.resolving && t.analyzing == s.analyzing && s.signalled <= t.signalled && t.disposers == s.disposers
    && t.resolving - {id} == s.resolving - {id} && MovedOn(s.resolving[id], Lookup(t.resolving, id))
  }

  lemma ReservationGone(s: State, m: State, id: Id)
    requires id in s.resolving && m.resolving == s.resolving && m.analyzing == s.analyzing && m.signalled == s.signalled
    requires m.disposers == s.disposers
    ensures Resolved(s, EndReservation(m, id), id)
  {
  }

  lemma MaterializeResolves(s: State, id: Id, ok: bool)
    requires IsMaterializing(s, id)
    ensures Resolved(s, Materialize(s, id, ok), id)
  {
    if !ok { ReservationGone(s, s, id); }
  }

  lemma DiscardResolves(s: State, id: Id)
    requires IsProbing(s, id)
    ensures Resolved(s, Discard(s, id), id)
  {
  }

  lemma DiscardedResolves(s: State, id: Id, ok: bool)
    requires IsDiscarding(s, id)
    ensures Resolved(s, Discarded(s, id, ok), id)
  {
    var m := s.(disposedTrees := if ok then s.disposedTrees + {s.resolving[id].tree} else s.disposedTrees,
                pendingCleanup := if ok then s.pendingCleanup - {id} else s.pendingCleanup);
    ReservationGone(s, m, id);
    hide EndReservation, Resolved;
  }

  lemma RegisterDiscards(s: State, id: Id, canonical: string)
    requires s.disposed && IsProbing(s, id)
    ensures Register(s, id, canonical) == Discard(s, id)
  {
    hide Discard, Enrolled, EndReservation;
  }

  lemma ResolvingFields(s: State, step: Step)
    requires s.disposed && Enabled(s, step)
    requires step.MaterializeDone? || step.ProbeFailed? || step.ProbeDone? || step.DiscardDone?
    ensures Resolved(s, Next(s, step), step.id)
  {
    hide Awake, Choosable, Cleaned, MayEnd, Resolved, Materialize, Discard, Register, Discarded;
    match step
    case MaterializeDone(id, ok) => MaterializeResolves(s, id, ok);
    case ProbeFailed(id) => DiscardResolves(s, id);
    case ProbeDone(id, canonical) =>
      RegisterDiscards(s, id, canonical);
      DiscardResolves(s, id);
    case DiscardDone(id, ok) => DiscardedResolves(s, id, ok);
  }

  lemma AnalyzingWork(s: State, step: Step)
    requires Enabled(s, step) && (step.AnalyzerReturned? || step.FinishDone?)
    ensures Onto(s, Next(s, step)) && Next(s, step).disposers == s.disposers
    ensures forall promise :: Work(Next(s, step), AwaitAnalyses(promise)) < Work(s, AwaitAnalyses(promise))
  {
    AnalyzingFields(s, step);
    hide Next, Onto, Work;
    OntoAnalyzing(s, Next(s, step), step.id);
  }

  lemma AnalyzingFields(s: State, step: Step)
    requires Enabled(s, step) && (step.AnalyzerReturned? || step.FinishDone?)
    ensures var t := Next(s, step);
      && step.id in s.analyzing && t.resolving == s.resolving && s.signalled <= t.signalled && t.disposers == s.disposers
      && t.analyzing - {step.id} == s.analyzing - {step.id}
      && (step.id in t.analyzing ==> s.analyzing[step.id].Running? && t.analyzing[step.id].Finishing?)
  {
    hide Awake, Choosable, Cleaned, MayEnd, Remembered;
  }

  lemma ReleaseWork(s: State, step: Step, promises: set<Promise>)
    requires Inv(s) && Enabled(s, step) && step.ReleaseDone?
    ensures Onto(s, Next(s, step)) && Next(s, step).disposers == s.disposers
    ensures s.releasing[step.id].promise in promises ==>
      Work(Next(s, step), AwaitReleases(promises)) < Work(s, AwaitReleases(promises))
  {
    var t, promise := Next(s, step), s.releasing[step.id].promise;
    assert Promises(s) && promise !in s.signalled;
    ReleaseDoneFields(s, step.id, step.ok);
    hide Inv, Next, Promises, Enabled;
    OntoSame(s, t);
    if promise in promises { Shrinks(promises - t.signalled, promises - s.signalled, promise); }
  }

  lemma ReleaseDoneFields(s: State, id: Id, ok: bool)
    requires id in s.releasing
    ensures var t := Released(s, id, ok);
      && t.resolving == s.resolving && t.analyzing == s.analyzing && t.disposers == s.disposers
      && t.signalled == s.signalled + {s.releasing[id].promise}
  {
    hide Remembered;
  }

  predicate Completes(step: Step) {
    || step.MaterializeDone? || step.ProbeFailed? || step.ProbeDone? || step.DiscardDone?
    || step.AnalyzerReturned? || step.FinishDone? || step.ReleaseDone?
  }

  /** Nothing that counts as work changed, and this disposer sleeps on. */
  predicate LeftAlone(s: State, t: State, d: nat) {
    && t.resolving == s.resolving && t.analyzing == s.analyzing && t.signalled == s.signalled
    && d in s.disposers && d in t.disposers && t.disposers[d] == s.disposers[d]
  }

  lemma ReleaseLeaves(s: State, id: Id, submitted: string, d: nat)
    requires d in s.disposers
    ensures LeftAlone(s, Release(s, id, submitted), d)
  {
    hide StartsRelease, ReleasedTree;
    if StartsRelease(s, id, submitted) { ReleaseCallOutcome(s, id, submitted); }
  }

  lemma ReleaseCallOutcome(s: State, id: Id, submitted: string)
    requires StartsRelease(s, id, submitted)
    ensures id in s.sessions || id in s.pendingCleanup
  {
  }

  lemma SweepLeaves(s: State, other: nat, next: Id, d: nat)
    requires Choosable(s, next) && d in s.disposers && other != d
    ensures LeftAlone(s, Sweep(s, other, next), d)
  {
  }

  lemma WakeLeaves(s: State, other: nat, next: Id, d: nat)
    requires Awake(s, other) && (s.disposers[other].AwaitReleases? ==> Choosable(s, next))
    requires d in s.disposers && !Awake(s, d)
    ensures LeftAlone(s, Wake(s, other, next), d)
  {
    hide Sweep, Choosable, PastReservations, ReleasePromises;
    if s.disposers[other].AwaitReleases? { SweepLeaves(s, other, next, d); }
  }

  lemma CleanedLeaves(s: State, other: nat, d: nat)
    requires IsCleaning(s, other) && d in s.disposers
    ensures LeftAlone(s, Cleaned(s, other), d)
  {
  }

  lemma DisposerDoneLeaves(s: State, other: nat, ok: bool, next: Id, d: nat)
    requires IsCleaning(s, other) && (ok ==> Choosable(Cleaned(s, other), next))
    requires d in s.disposers && Waits(s.disposers[d])
    ensures LeftAlone(s, DisposerDone(s, other, ok, next), d)
  {
    assert other != d;
    if ok {
      CleanedLeaves(s, other, d);
      hide Cleaned, Sweep, Choosable;
      SweepLeaves(Cleaned(s, other), other, next, d);
    }
  }

  lemma DisposeLeaves(s: State, other: nat, d: nat)
    requires other !in s.disposers && d in s.disposers
    ensures LeftAlone(s, Dispose(s, other), d)
  {
    hide PastReservations;
  }

  /** Calls, and the steps of other disposers, leave the work alone. */
  lemma OtherFields(s: State, step: Step, d: nat)
    requires s.disposed && Enabled(s, step) && !Completes(step)
    requires d in s.disposers && Waits(s.disposers[d]) && !Awake(s, d)
    ensures LeftAlone(s, Next(s, step), d)
  {
    hide Awake, Choosable, MayEnd, Cleaned, LeftAlone, Release, Dispose, Wake, DisposerDone, IsCleaning;
    match step
    case ResolveCall(_) => Unchanged(s, d);
    case AnalyzeCall(_, _) => Unchanged(s, d);
    case ReleaseCall(id, submitted) => ReleaseLeaves(s, id, submitted, d);
    case DisposeCall(other) => DisposeLeaves(s, other, d);
    case DisposerWoken(other, next) => WakeLeaves(s, other, next, d);
    case DisposerCleaned(other, ok, next) => DisposerDoneLeaves(s, other, ok, next, d);
    case _ =>
  }

  lemma Unchanged(s: State, d: nat)
    requires d in s.disposers
    ensures LeftAlone(s, s, d)
  {
  }

  lemma DisposersMeanDisposed(s: State)
    requires Inv(s) && s.disposers != map[]
    ensures s.disposed
  {
  }

  lemma StepsGoOnto(s: State, step: Step, d: nat)
    requires Inv(s) && s.disposed && d in s.disposers && Waits(s.disposers[d]) && !Awake(s, d) && Enabled(s, step)
    ensures Onto(s, Next(s, step)) && d in Next(s, step).disposers && Next(s, step).disposers[d] == s.disposers[d]
  {
    hide Inv, Next, Enabled, Awake, Work, Onto;
    if step.MaterializeDone? || step.ProbeFailed? || step.ProbeDone? || step.DiscardDone? {
      ResolvingWork(s, step);
    } else if step.AnalyzerReturned? || step.FinishDone? {
      AnalyzingWork(s, step);
    } else if step.ReleaseDone? {
      ReleaseWork(s, step, {});
    } else {
      OtherFields(s, step, d);
      OntoSame(s, Next(s, step));
    }
  }

  lemma AwaitedStepWorks(s: State, step: Step, disposer: Disposer)
    requires Inv(s) && s.disposed && Enabled(s, step) && Awaits(s, disposer, step)
    ensures Work(Next(s, step), disposer) < Work(s, disposer)
  {
    hide Inv, Next, Enabled, Work, Onto;
    match disposer
    case AwaitReservations(_) => ResolvingWork(s, step);
    case AwaitAnalyses(_) => AnalyzingWork(s, step);
    case AwaitReleases(promises) => ReleaseWork(s, step, promises);
  }

  /** While a disposer sleeps, no step adds to its work, and each step it waits for takes some away. */
  lemma StepsDoWork(s: State, step: Step, d: nat)
    requires Reachable(s) && d in s.disposers && Waits(s.disposers[d]) && !Awake(s, d) && Enabled(s, step)
    ensures var t, disposer := Next(s, step), s.disposers[d];
      && d in t.disposers && t.disposers[d] == disposer
      && Work(t, disposer) <= Work(s, disposer)
      && (Awaits(s, disposer, step) ==> Work(t, disposer) < Work(s, disposer))
  {
    ReachableInv(s);
    DisposersMeanDisposed(s);
    hide Reachable, Inv, Next, Enabled, Awake, Work, Onto, Awaits;
    StepsGoOnto(s, step, d);
    OntoWork(s, Next(s, step), s.disposers[d]);
    if Awaits(s, s.disposers[d], step) { AwaitedStepWorks(s, step, s.disposers[d]); }
  }

  /** How many steps of a run one disposer waits for. */
  ghost function AwaitedSteps(s: State, disposer: Disposer, steps: seq<Step>): nat
    requires IsRun(s, steps)
    decreases |steps|
  {
    if steps == [] then 0
    else (if Awaits(s, disposer, steps[0]) then 1 else 0) + AwaitedSteps(Next(s, steps[0]), disposer, steps[1..])
  }

  /** The disposer sleeps in every state of the run but, perhaps, the last. */
  ghost predicate SleepsThrough(s: State, d: nat, steps: seq<Step>)
    requires IsRun(s, steps)
    decreases |steps|
  {
    steps != [] ==> !Awake(s, d) && SleepsThrough(Next(s, steps[0]), d, steps[1..])
  }

  /**
   * However the others interleave, a disposer sleeps through at most as many of the steps it waits for as there is work
   * to do, and it is awake once the work is done.
   */
  lemma {:induction false} EnoughStepsWake(s: State, d: nat, steps: seq<Step>)
    requires Reachable(s) && d in s.disposers && Waits(s.disposers[d])
    requires IsRun(s, steps) && SleepsThrough(s, d, steps)
    ensures var t, disposer := After(s, steps), s.disposers[d];
      && d in t.disposers && t.disposers[d] == disposer
      && AwaitedSteps(s, disposer, steps) + Work(t, disposer) <= Work(s, disposer)
      && (Awake(t, d) <==> Work(t, disposer) == 0)
    decreases |steps|
  {
    if steps == [] {
      SleepsWhileWork(s, d);
    } else {
      var t := Next(s, steps[0]);
      StepsDoWork(s, steps[0], d);
      StepStaysReachable(s, steps[0]);
      hide Reachable, Work, Awake, Enabled, Next, Awaits;
      EnoughStepsWake(t, d, steps[1..]);
    }
  }

  lemma StepStaysReachable(s: State, step: Step)
    requires Reachable(s) && Enabled(s, step)
    ensures Reachable(Next(s, step))
  {
    hide Reachable, Enabled, Next;
    assert [step][1..] == [];
    assert IsRun(Next(s, step), []);
    RunStaysReachable(s, [step]);
    assert After(s, [step]) == Next(s, step);
  }
}
