/** The invariant of the session protocol, kept by every step and hence by every run. */
module GitSessionSteps {
  import opened JsonValues
  import opened GitSessions
  import opened GitSessionInvariants
  import opened GitSessionDisposal
  import Strings

  // ---------- disposing keeps the trees ----------

  lemma DisposersOnly(s: State, t: State)
    requires Good(s) && Trees(s)
    requires t == s.(disposed := t.disposed, disposers := t.disposers) && (s.disposed ==> t.disposed)
    ensures Good(t) && Trees(t)
  {
    var id := "";
    assert GoodAt(s, id);
    assert forall x :: ViewOf(t, x) == ViewOf(s, x);
    hide ViewOf;
    LegalStays(ViewOf(s, id), s.disposed, t.disposed);
    hide Legal;
    SameTrees(s, t, id);
    SameTreesSettled(s, t, id);
    LocalKeeps(s, t, id);
  }

  lemma SweptEffect(s: State, d: nat, next: Id)
    requires next in s.sessions && s.sessions != map[]
    ensures var t := Sweep(s, d, next); var session := s.sessions[next];
      && ViewOf(s, next).session == Some(session)
      && ViewOf(t, next) == ViewOf(s, next).(pending := Some(session.tree))
      && t.owner == s.owner && t.nextTree == s.nextTree && t.taker == s.taker[session.tree := ByDisposal]
      && t.disposedTrees == s.disposedTrees && t.latest == s.latest && t.disposed == s.disposed
      && (forall x {:trigger ViewOf(t, x)} :: x != next ==> ViewOf(t, x) == ViewOf(s, x))
  {
  }

  lemma SweepKeepsTrees(s: State, d: nat, next: Id)
    requires Good(s) && Trees(s) && Choosable(s, next) && s.disposed
    ensures Good(Sweep(s, d, next)) && Trees(Sweep(s, d, next))
  {
    var t := Sweep(s, d, next);
    if s.sessions != map[] {
      SweptEffect(s, d, next);
      assert GoodAt(s, next);
      hide Sweep, ViewOf;
      TakenLocal(s, t, next, s.sessions[next].tree, ByDisposal);
      SameTreesSettled(s, t, next);
      LocalKeeps(s, t, next);
    } else {
      DisposersOnly(s, t);
    }
  }

  lemma CleanedEffect(s: State, d: nat)
    requires IsCleaning(s, d)
    ensures var t := Cleaned(s, d); var work := s.disposers[d]; var v := ViewOf(s, work.id);
      && ViewOf(t, work.id) == (if work.CleaningSession? then v.(session := None, pending := None)
                                else v.(pending := None, pendingSession := None))
      && t.owner == s.owner && t.nextTree == s.nextTree && t.taker == s.taker
      && t.disposedTrees == s.disposedTrees + {work.tree} && t.latest == s.latest && t.disposed == s.disposed
      && (forall x {:trigger ViewOf(t, x)} :: x != work.id ==> ViewOf(t, x) == ViewOf(s, x))
  {
  }

  /** What a disposer that is cleaning knows about its id, in terms of the id's view. */
  lemma CleaningView(s: State, d: nat)
    requires Good(s) && Counts(s) && Disposal(s) && IsCleaning(s, d)
    ensures var work := s.disposers[d]; var v := ViewOf(s, work.id);
      && !v.inProgress && !v.active && v.resolving.None? && v.analyzing.None? && v.releasing.None?
      && (work.CleaningSession? ==> v.pendingSession.None?)
      && (work.CleaningPending? ==> v.session.None?)
      && (v.pending.None? ==> v.session.None? && work.tree in s.disposedTrees)
      && (v.pending.Some? ==> Held(v) == Some(work.tree))
  {
    var work := s.disposers[d];
    assert DisposerAt(s, work);
    hide Good, Disposal, ReleasePromises, Registration;
    QuietView(s, work.id);
  }

  lemma CleanedKeepsTrees(s: State, d: nat)
    requires Good(s) && Trees(s) && Counts(s) && Disposal(s) && IsCleaning(s, d)
    ensures Good(Cleaned(s, d)) && Trees(Cleaned(s, d))
  {
    var t, work := Cleaned(s, d), s.disposers[d];
    CleanedEffect(s, d);
    CleaningView(s, d);
    assert GoodAt(s, work.id);
    hide Cleaned, ViewOf, Disposal;
    if ViewOf(s, work.id).pending.Some? {
      DisposedLocal(s, t, work.id, work.tree);
      DisposedSettled(s, t, work.id, work.tree);
    } else {
      assert t.disposedTrees == s.disposedTrees;
      SameTrees(s, t, work.id);
      SameTreesSettled(s, t, work.id);
    }
    LocalKeeps(s, t, work.id);
  }

  // ---------- capacity ----------

  /** The ids that take room. */
  function Occupied(s: State): set<Id> {
    s.inProgress + s.sessions.Keys + s.active + s.pendingCleanup.Keys
  }

  predicate Occupies(v: View) {
    v.inProgress || v.session.Some? || v.active || v.pending.Some?
  }

  predicate Capacity(s: State) {
    |Occupied(s)| <= s.maxSessions
  }

  lemma OccupiedSum(s: State)
    ensures |Occupied(s)| <= |s.inProgress| + |s.sessions| + |s.active| + |s.pendingCleanup|
  {
    assert |s.sessions| == |s.sessions.Keys| && |s.pendingCleanup| == |s.pendingCleanup.Keys|;
    assert |s.inProgress + s.sessions.Keys| <= |s.inProgress| + |s.sessions.Keys|;
    assert |s.inProgress + s.sessions.Keys + s.active| <= |s.inProgress + s.sessions.Keys| + |s.active|;
  }

  lemma ResolvedOccupied(s: State, id: Id)
    requires Accepts(s, id)
    ensures var t := Resolve(s, id);
      && t.inProgress == s.inProgress + {id} && t.sessions == s.sessions && t.active == s.active
      && t.pendingCleanup == s.pendingCleanup && t.maxSessions == s.maxSessions
  {
  }

  lemma GrownCapacity(s: State, t: State, id: Id)
    requires Counts(s) && Admitted(s) < s.maxSessions && t.maxSessions == s.maxSessions
    requires t.inProgress == s.inProgress + {id} && t.sessions == s.sessions && t.active == s.active
    requires t.pendingCleanup == s.pendingCleanup
    ensures Capacity(t)
  {
    OccupiedSum(s);
    assert Occupied(t) == Occupied(s) + {id};
    hide Occupied;
    assert |Occupied(s) + {id}| <= |Occupied(s)| + 1;
  }

  lemma ResolveCapacity(s: State, id: Id)
    requires Capacity(s) && Counts(s)
    ensures Capacity(Resolve(s, id))
  {
    hide Capacity, Counts, Admitted;
    if Accepts(s, id) {
      ResolvedOccupied(s, id);
      hide Resolve;
      GrownCapacity(s, Resolve(s, id), id);
    }
  }

  lemma OccupiedIsOccupies(s: State, id: Id)
    ensures id in Occupied(s) <==> Occupies(ViewOf(s, id))
  {
  }

  /** A step at one id that was occupied before it takes no more room. */
  lemma CapacityKept(s: State, t: State, id: Id)
    requires Capacity(s) && t.maxSessions == s.maxSessions
    requires forall x {:trigger ViewOf(t, x)} :: x != id ==> ViewOf(t, x) == ViewOf(s, x)
    requires Occupies(ViewOf(t, id)) ==> Occupies(ViewOf(s, id))
    ensures Capacity(t)
  {
    hide Occupied, Occupies, ViewOf;
    forall x | x in Occupied(t) ensures x in Occupied(s) {
      OccupiedIsOccupies(s, x);
      OccupiedIsOccupies(t, x);
      assert x != id ==> ViewOf(t, x) == ViewOf(s, x);
    }
    Strings.CardinalityMonotone(Occupied(t), Occupied(s));
  }

  // ---------- the released ledger ----------

  ghost predicate DistinctIds(ledger: seq<LedgerEntry>) {
    forall i, j :: 0 <= i < j < |ledger| ==> ledger[i].id != ledger[j].id
  }

  /** An entry names the latest registration of its id, whose tree is gone. */
  predicate LedgerAt(s: State, entry: LedgerEntry) {
    && entry.id in s.latest
    && entry.digest == Sha256(s.latest[entry.id].canonical)
    && s.latest[entry.id].tree in s.disposedTrees
  }

  ghost predicate Ledger(s: State) {
    && |s.released| <= LEDGER_LIMIT
    && DistinctIds(s.released)
    && forall k {:trigger s.released[k]} :: 0 <= k < |s.released| ==> LedgerAt(s, s.released[k])
  }

  lemma {:induction false} WithoutEntryFacts(ledger: seq<LedgerEntry>, id: Id)
    requires DistinctIds(ledger)
    ensures var kept := WithoutEntry(ledger, id);
      && |kept| <= |ledger| && DistinctIds(kept)
      && (forall entry :: entry in kept <==> entry in ledger && entry.id != id)
  {
    if ledger != [] {
      WithoutEntryFacts(ledger[1..], id);
      var rest := WithoutEntry(ledger[1..], id);
      forall entry | entry in ledger[1..] ensures entry.id != ledger[0].id {
        var i :| 0 <= i < |ledger[1..]| && ledger[1..][i] == entry;
        assert ledger[i + 1] == entry;
      }
      assert ledger == [ledger[0]] + ledger[1..];
      forall k | 0 <= k < |rest| ensures rest[k].id != ledger[0].id { assert rest[k] in rest; }
    }
  }

  lemma RememberedFacts(ledger: seq<LedgerEntry>, id: Id, canonical: string)
    requires DistinctIds(ledger) && |ledger| <= LEDGER_LIMIT
    ensures var next := Remembered(ledger, id, canonical);
      && |next| <= LEDGER_LIMIT && DistinctIds(next)
      && forall k :: 0 <= k < |next| ==> next[k] in ledger || next[k] == LedgerEntry(id, Sha256(canonical))
  {
    WithoutEntryFacts(ledger, id);
  }

  lemma SameLedger(s: State, t: State)
    requires Ledger(s) && t.released == s.released && t.latest == s.latest && s.disposedTrees <= t.disposedTrees
    ensures Ledger(t)
  {
    forall k | 0 <= k < |t.released| ensures LedgerAt(t, t.released[k]) { assert LedgerAt(s, s.released[k]); }
  }

  lemma RememberedLedger(s: State, t: State, id: Id, canonical: string)
    requires Ledger(s) && t.released == Remembered(s.released, id, canonical)
    requires t.latest == s.latest && s.disposedTrees <= t.disposedTrees
    requires id in t.latest && t.latest[id].canonical == canonical && t.latest[id].tree in t.disposedTrees
    ensures Ledger(t)
  {
    RememberedFacts(s.released, id, canonical);
    hide Remembered;
    forall k | 0 <= k < |t.released| ensures LedgerAt(t, t.released[k]) {
      if t.released[k] in s.released {
        var i :| 0 <= i < |s.released| && s.released[i] == t.released[k];
        assert LedgerAt(s, s.released[i]);
      }
    }
  }

  lemma RegisteredLedger(s: State, t: State, id: Id)
    requires Ledger(s) && t.released == WithoutEntry(s.released, id) && t.disposedTrees == s.disposedTrees
    requires forall x :: x != id && x in s.latest ==> x in t.latest && t.latest[x] == s.latest[x]
    ensures Ledger(t)
  {
    WithoutEntryFacts(s.released, id);
    hide WithoutEntry;
    forall k | 0 <= k < |t.released| ensures LedgerAt(t, t.released[k]) {
      var i :| 0 <= i < |s.released| && s.released[i] == t.released[k];
      assert LedgerAt(s, s.released[i]);
    }
  }

  // ---------- the invariant ----------

  ghost predicate Inv(s: State) {
    && Good(s) && Trees(s) && Counts(s) && Promises(s) && Disposal(s) && Capacity(s) && Ledger(s)
  }

  lemma StartInv(maxSessions: nat)
    ensures Inv(Start(maxSessions))
  {
    var s := Start(maxSessions);
    forall id ensures GoodAt(s, id) { }
    forall tree: Tree ensures OwnedAt(s, tree) { }
  }

  lemma ResolveInv(s: State, id: Id)
    requires Inv(s)
    ensures Inv(Resolve(s, id))
  {
    var t := Resolve(s, id);
    ResolveKeepsTrees(s, id);
    ResolveCounts(s, id);
    ResolvePromises(s, id);
    ResolveCapacity(s, id);
    hide Good, Trees, Counts, Promises, Capacity, Ledger, Disposal;
    if Accepts(s, id) { NoDisposers(s, t); SameLedger(s, t); }
  }

  lemma InFlight(s: State, id: Id)
    requires Good(s) && Counts(s)
    ensures id in s.resolving ==> id in s.inProgress && s.reservations > 0
    ensures id in s.analyzing ==> id in s.active && s.activeAnalyses > 0
  {
    assert GoodAt(s, id);
    assert id in s.inProgress ==> |s.inProgress| > 0;
    assert id in s.active ==> |s.active| > 0;
  }

  /** Ending a reservation: the drained promise is signalled exactly by the last one. */
  lemma EndReservationInv(s: State, m: State, id: Id)
    requires Counts(s) && Promises(s) && Disposal(s) && id in s.inProgress
    requires SameFlow(s, m) && m.disposers == s.disposers && m.disposed == s.disposed
    ensures var t := EndReservation(m, id); Counts(t) && Promises(t) && Disposal(t)
  {
    assert s.reservations > 0;
    EndReservationCounts(s, m, id);
    SamePromises(s, m);
    EndReservationPromises(m, id);
    hide Counts, Disposal;
    ReservationStep(s, EndReservation(m, id));
  }

  lemma EndAnalysisInv(s: State, m: State, id: Id)
    requires Counts(s) && Promises(s) && Disposal(s) && id in s.active
    requires SameFlow(s, m) && m.disposers == s.disposers && m.disposed == s.disposed
    ensures var t := EndAnalysis(m, id); Counts(t) && Promises(t) && Disposal(t)
  {
    assert s.activeAnalyses > 0;
    EndAnalysisCounts(s, m, id);
    SamePromises(s, m);
    EndAnalysisPromises(m, id);
    hide Counts, Disposal;
    AnalysisStep(s, EndAnalysis(m, id));
  }

  lemma MaterializedInv(s: State, id: Id)
    requires Inv(s) && IsMaterializing(s, id)
    ensures Inv(Materialize(s, id, true))
  {
    var t := Materialize(s, id, true);
    MaterializeKeepsTrees(s, id, true);
    InFlight(s, id);
    MaterializedEffect(s, id);
    SamePromises(s, t);
    hide Good, Trees, Promises, Capacity, Ledger, Disposal, ViewOf;
    ReservationStep(s, t);
    SameLedger(s, t);
    CapacityKept(s, t, id);
  }

  lemma NotMaterializedInv(s: State, id: Id)
    requires Inv(s) && IsMaterializing(s, id)
    ensures Inv(Materialize(s, id, false))
  {
    var t := Materialize(s, id, false);
    MaterializeKeepsTrees(s, id, false);
    InFlight(s, id);
    NotMaterializedEffect(s, id);
    hide Good, Trees, Promises, Capacity, Ledger, Disposal, Counts, ViewOf;
    EndReservationInv(s, s, id);
    SameLedger(s, t);
    CapacityKept(s, t, id);
  }

  lemma DiscardInv(s: State, id: Id)
    requires Inv(s) && IsProbing(s, id)
    ensures Inv(Discard(s, id))
  {
    var t := Discard(s, id);
    DiscardKeepsTrees(s, id);
    InFlight(s, id);
    DiscardEffect(s, id);
    SamePromises(s, t);
    assert GoodAt(s, id);
    hide Good, Trees, Promises, Capacity, Ledger, Disposal, ViewOf;
    ReservationStep(s, t);
    SameLedger(s, t);
    CapacityKept(s, t, id);
  }

  lemma EnrolledFlow(s: State, id: Id, session: Session)
    ensures var t := Enrolled(s, id, session);
      && SameFlow(s, t) && t.disposers == s.disposers && t.disposed == s.disposed && t.maxSessions == s.maxSessions
      && t.released == WithoutEntry(s.released, id) && t.latest == s.latest[id := session]
      && t.disposedTrees == s.disposedTrees
  {
    hide WithoutEntry;
  }

  lemma RegisteredInv(s: State, id: Id, canonical: string)
    requires Inv(s) && IsProbing(s, id) && !s.disposed && id !in s.sessions
    ensures Inv(Register(s, id, canonical))
  {
    var t, session := Register(s, id, canonical), Session(s.resolving[id].tree, canonical);
    RegisterKeepsTrees(s, id, canonical);
    InFlight(s, id);
    RegisterEffect(s, id, canonical);
    assert GoodAt(s, id);
    hide Good, Trees, Promises, Capacity, Ledger, Disposal, Counts, ViewOf, WithoutEntry, SameFlow, Enrolled;
    EnrolledFlow(s, id, session);
    EndReservationInv(s, Enrolled(s, id, session), id);
    RegisteredLedger(s, t, id);
    CapacityKept(s, t, id);
  }

  lemma RegisterInv(s: State, id: Id, canonical: string)
    requires Inv(s) && IsProbing(s, id)
    ensures Inv(Register(s, id, canonical))
  {
    if s.disposed || id in s.sessions {
      DiscardInv(s, id);
    } else {
      RegisteredInv(s, id, canonical);
    }
  }

  lemma DiscardedInv(s: State, id: Id, ok: bool)
    requires Inv(s) && IsDiscarding(s, id)
    ensures Inv(Discarded(s, id, ok))
  {
    var t := Discarded(s, id, ok);
    DiscardedKeepsTrees(s, id, ok);
    InFlight(s, id);
    DiscardedEffect(s, id, ok);
    hide Good, Trees, Promises, Capacity, Ledger, Disposal, Counts, ViewOf;
    var m := s.(disposedTrees := if ok then s.disposedTrees + {s.resolving[id].tree} else s.disposedTrees,
                pendingCleanup := if ok then s.pendingCleanup - {id} else s.pendingCleanup);
    EndReservationInv(s, m, id);
    SameLedger(s, t);
    CapacityKept(s, t, id);
  }

  lemma AnalyzeFrame(s: State, id: Id, submitted: string)
    requires !s.disposed && id in s.sessions
    ensures var t := Analyze(s, id, submitted);
      && t.latest == s.latest && t.released == s.released && t.disposedTrees == s.disposedTrees
      && t.disposers == s.disposers && t.maxSessions == s.maxSessions
      && (forall x {:trigger ViewOf(t, x)} :: x != id ==> ViewOf(t, x) == ViewOf(s, x))
      && Occupies(ViewOf(s, id))
  {
    var session := s.sessions[id];
    TakenByAnalysisEffect(s, id);
    RunEffect(TakenByAnalysis(s, id), id, session, submitted);
    FinishEffect(TakenByAnalysis(s, id), id, session.tree, session.canonical);
    hide ViewOf;
  }

  lemma AnalyzeInv(s: State, id: Id, submitted: string)
    requires Inv(s)
    ensures Inv(Analyze(s, id, submitted))
  {
    if !s.disposed && id in s.sessions {
      var t := Analyze(s, id, submitted);
      AnalyzeKeepsTrees(s, id, submitted);
      AnalyzeCounts(s, id, submitted);
      AnalyzePromises(s, id, submitted);
      AnalyzeFrame(s, id, submitted);
      hide Good, Trees, Promises, Capacity, Ledger, Disposal, Counts, ViewOf, Analyze, Occupies;
      NoDisposers(s, t);
      SameLedger(s, t);
      CapacityKept(s, t, id);
    }
  }

  lemma AnalyzerDoneInv(s: State, id: Id)
    requires Inv(s) && IsRunning(s, id)
    ensures Inv(AnalyzerDone(s, id))
  {
    var t, work := AnalyzerDone(s, id), s.analyzing[id];
    AnalyzerDoneKeepsTrees(s, id);
    InFlight(s, id);
    FinishEffect(s, id, work.tree, work.canonical);
    FinishFlow(s, id, work.tree, work.canonical);
    SamePromises(s, t);
    assert GoodAt(s, id);
    hide Good, Trees, Promises, Capacity, Ledger, Disposal, ViewOf;
    AnalysisStep(s, t);
    SameLedger(s, t);
    CapacityKept(s, t, id);
  }

  lemma FinishedInv(s: State, id: Id, ok: bool)
    requires Inv(s) && IsFinishing(s, id)
    ensures Inv(Finished(s, id, ok))
  {
    var t, work := Finished(s, id, ok), s.analyzing[id];
    FinishedKeepsTrees(s, id, ok);
    InFlight(s, id);
    FinishedEffect(s, id, ok);
    FinishedFlow(s, id, ok);
    assert GoodAt(s, id);
    FinishedRegistration(s, id);
    hide Good, Trees, Promises, Capacity, Ledger, Disposal, Counts, ViewOf, Remembered, Finished;
    if ok { RememberedLedger(s, t, id, work.canonical); } else { SameLedger(s, t); }
    CapacityKept(s, t, id);
  }

  lemma FinishedRegistration(s: State, id: Id)
    requires Good(s) && IsFinishing(s, id)
    ensures id in s.latest && s.latest[id] == Session(s.analyzing[id].tree, s.analyzing[id].canonical)
  {
    assert GoodAt(s, id);
  }

  lemma TreeReleasedFlow(s: State, id: Id, tree: Tree, canonical: string, ok: bool)
    ensures var t := TreeReleased(s, id, tree, canonical, ok);
      && SameFlow(s, t) && t.disposers == s.disposers && t.disposed == s.disposed && t.maxSessions == s.maxSessions
      && t.released == if ok then Remembered(s.released, id, canonical) else s.released
  {
    hide Remembered;
  }

  lemma FinishedFlow(s: State, id: Id, ok: bool)
    requires Counts(s) && Promises(s) && Disposal(s) && IsFinishing(s, id) && id in s.active
    ensures var t := Finished(s, id, ok); Counts(t) && Promises(t) && Disposal(t) && t.maxSessions == s.maxSessions
    ensures Finished(s, id, ok).released == if ok then Remembered(s.released, id, s.analyzing[id].canonical) else s.released
  {
    var work := s.analyzing[id];
    hide Remembered, Counts, Promises, Disposal, TreeReleased, SameFlow;
    TreeReleasedFlow(s, id, work.tree, work.canonical, ok);
    EndAnalysisInv(s, TreeReleased(s, id, work.tree, work.canonical, ok), id);
  }

  lemma ReleaseInv(s: State, id: Id, submitted: string)
    requires Inv(s)
    ensures Inv(Release(s, id, submitted))
  {
    var t := Release(s, id, submitted);
    ReleaseKeepsTrees(s, id, submitted);
    ReleasePromisesKept(s, id, submitted);
    if StartsRelease(s, id, submitted) {
      ReleaseOutcomes(s, id, submitted);
      ReleaseEffect(s, id, submitted);
      ReleaseFrame(s, id, submitted);
      hide Good, Trees, Promises, Capacity, Ledger, Disposal, Counts, ViewOf, Release, OutcomeOfRelease, StartsRelease;
      SameCounted(s, t);
      NoDisposers(s, t);
      SameLedger(s, t);
      CapacityKept(s, t, id);
    }
  }

  lemma SameCounted(s: State, t: State)
    requires Counts(s) && t.inProgress == s.inProgress && t.active == s.active
    requires t.reservations == s.reservations && t.activeAnalyses == s.activeAnalyses
    ensures Counts(t)
  {
  }

  lemma ReleaseFrame(s: State, id: Id, submitted: string)
    ensures var t := Release(s, id, submitted);
      && t.inProgress == s.inProgress && t.active == s.active
      && t.reservations == s.reservations && t.activeAnalyses == s.activeAnalyses
      && t.released == s.released && t.disposers == s.disposers && t.maxSessions == s.maxSessions
  {
    hide OutcomeOfRelease, ReleasedTree;
  }

  lemma ReleasedInv(s: State, id: Id, ok: bool)
    requires Inv(s) && id in s.releasing
    ensures Inv(Released(s, id, ok))
  {
    var t, work := Released(s, id, ok), s.releasing[id];
    ReleasedKeepsTrees(s, id, ok);
    ReleasedEffect(s, id, ok);
    ReleasedPromises(s, id, ok);
    ReleasedFrame(s, id, ok);
    ReleasedRegistration(s, id);
    assert GoodAt(s, id);
    hide Good, Trees, Promises, Capacity, Ledger, Disposal, Counts, ViewOf, Remembered, Released;
    SameCounted(s, t);
    ReleaseStep(s, t, id);
    if ok { RememberedLedger(s, t, id, work.canonical); } else { SameLedger(s, t); }
    CapacityKept(s, t, id);
  }

  lemma ReleasedRegistration(s: State, id: Id)
    requires Good(s) && id in s.releasing
    ensures id in s.latest && s.latest[id] == Session(s.releasing[id].tree, s.releasing[id].canonical)
  {
    assert GoodAt(s, id);
  }

  lemma ReleasedFrame(s: State, id: Id, ok: bool)
    requires id in s.releasing
    ensures var t := Released(s, id, ok);
      && t.inProgress == s.inProgress && t.active == s.active
      && t.reservations == s.reservations && t.reservationsDrained == s.reservationsDrained
      && t.activeAnalyses == s.activeAnalyses && t.analysesDrained == s.analysesDrained
      && t.releasing == s.releasing - {id} && t.signalled == s.signalled + {s.releasing[id].promise}
      && t.disposers == s.disposers && t.maxSessions == s.maxSessions
      && t.released == if ok then Remembered(s.released, id, s.releasing[id].canonical) else s.released
  {
    hide Remembered;
  }

  lemma DisposeInv(s: State, d: nat)
    requires Inv(s) && d !in s.disposers
    ensures Inv(Dispose(s, d))
  {
    var t := Dispose(s, d);
    DisposeDisposal(s, d);
    hide Good, Trees, Promises, Capacity, Ledger, Disposal, PastReservations;
    DisposersOnly(s, t);
    SamePromises(s, t);
    SameLedger(s, t);
    DisposersCapacity(s, t);
  }

  lemma DisposersCapacity(s: State, t: State)
    requires Capacity(s) && t == s.(disposed := t.disposed, disposers := t.disposers)
    ensures Capacity(t)
  {
  }

  lemma WokenInv(s: State, d: nat, next: Id)
    requires Inv(s) && Awake(s, d) && !s.disposers[d].AwaitReleases?
    ensures Inv(Wake(s, d, next))
  {
    var t := Wake(s, d, next);
    WokenDisposal(s, d, next);
    hide Good, Trees, Promises, Capacity, Ledger, Disposal, PastReservations, Sweep, Awake, ReleasePromises;
    DisposersOnly(s, t);
    SamePromises(s, t);
    SameLedger(s, t);
    DisposersCapacity(s, t);
  }

  lemma SweepInv(s: State, d: nat, next: Id)
    requires Inv(s) && Quiet(s) && Choosable(s, next) && d in s.disposers
    ensures Inv(Sweep(s, d, next))
  {
    var t := Sweep(s, d, next);
    assert s.disposed;
    SweepKeepsTrees(s, d, next);
    SweepDisposal(s, d, next);
    hide Good, Trees, Promises, Ledger, Disposal, Capacity;
    SamePromises(s, t);
    SameLedger(s, t);
    SweepCapacity(s, d, next);
  }

  lemma SweepCapacity(s: State, d: nat, next: Id)
    requires Capacity(s) && Choosable(s, next)
    ensures Capacity(Sweep(s, d, next))
  {
    var t := Sweep(s, d, next);
    if s.sessions != map[] {
      SweptEffect(s, d, next);
      assert t.maxSessions == s.maxSessions;
      hide Sweep, ViewOf, Capacity;
      CapacityKept(s, t, next);
    }
  }

  lemma CleanedInv(s: State, d: nat)
    requires Inv(s) && IsCleaning(s, d)
    ensures Inv(Cleaned(s, d)) && Quiet(Cleaned(s, d))
  {
    var t := Cleaned(s, d);
    CleanedKeepsTrees(s, d);
    CleanedDisposal(s, d);
    CleanedEffect(s, d);
    hide Good, Trees, Promises, Ledger, Disposal, Capacity, ViewOf;
    SamePromises(s, t);
    SameLedger(s, t);
    CapacityKept(s, t, s.disposers[d].id);
  }

  lemma DisposerDoneInv(s: State, d: nat, ok: bool, next: Id)
    requires Inv(s) && IsCleaning(s, d) && (ok ==> Choosable(Cleaned(s, d), next))
    ensures Inv(DisposerDone(s, d, ok, next))
  {
    if ok {
      CleanedInv(s, d);
      assert d in Cleaned(s, d).disposers;
      hide Inv, Sweep, Cleaned, Quiet;
      SweepInv(Cleaned(s, d), d, next);
    } else {
      RejectedInv(s, d);
    }
  }

  lemma RejectedInv(s: State, d: nat)
    requires Inv(s) && d in s.disposers
    ensures Inv(s.(disposers := s.disposers[d := Rejected]))
  {
    var t := s.(disposers := s.disposers[d := Rejected]);
    hide Good, Trees, Promises, Capacity, Ledger, DisposerAt;
    forall x | x in t.disposers ensures DisposerAt(t, t.disposers[x]) {
      if x != d { SameDisposer(s, t, s.disposers[x]); } else { RejectedAt(t); }
    }
    DisposersOnly(s, t);
    SamePromises(s, t);
    SameLedger(s, t);
    DisposersCapacity(s, t);
  }

  lemma RejectedAt(s: State)
    ensures DisposerAt(s, Rejected)
  {
  }

  lemma WakeInv(s: State, d: nat, next: Id)
    requires Inv(s) && Awake(s, d) && (s.disposers[d].AwaitReleases? ==> Choosable(s, next))
    ensures Inv(Wake(s, d, next))
  {
    AwakeAtZero(s, d);
    hide Inv, Sweep, Quiet, PastReservations, ReleasePromises;
    if s.disposers[d].AwaitReleases? { SweepInv(s, d, next); } else { WokenInv(s, d, next); }
  }

  /** Every step of every interleaving keeps the invariant. */
  lemma StepKeepsInv(s: State, step: Step)
    requires Inv(s) && Enabled(s, step)
    ensures Inv(Next(s, step))
  {
    hide Inv, Resolve, Materialize, Discard, Register, Discarded, Analyze, AnalyzerDone, Finished, Release, Released,
      Dispose, Wake, DisposerDone, Awake, Cleaned, Choosable, MayEnd;
    match step
    case ResolveCall(id) => ResolveInv(s, id);
    case MaterializeDone(id, ok) => if ok { MaterializedInv(s, id); } else { NotMaterializedInv(s, id); }
    case ProbeFailed(id) => DiscardInv(s, id);
    case ProbeDone(id, canonical) => RegisterInv(s, id, canonical);
    case DiscardDone(id, ok) => DiscardedInv(s, id, ok);
    case AnalyzeCall(id, submitted) => AnalyzeInv(s, id, submitted);
    case AnalyzerReturned(id) => AnalyzerDoneInv(s, id);
    case FinishDone(id, ok) => FinishedInv(s, id, ok);
    case ReleaseCall(id, submitted) => ReleaseInv(s, id, submitted);
    case ReleaseDone(id, ok) => ReleasedInv(s, id, ok);
    case DisposeCall(d) => DisposeInv(s, d);
    case DisposerWoken(d, next) => WakeInv(s, d, next);
    case DisposerCleaned(d, ok, next) => DisposerDoneInv(s, d, ok, next);
  }

  lemma {:induction false} RunKeepsInv(s: State, steps: seq<Step>)
    requires Inv(s) && IsRun(s, steps)
    ensures Inv(After(s, steps))
    decreases |steps|
  {
    if steps != [] {
      StepKeepsInv(s, steps[0]);
      hide Inv, Next, Enabled;
      RunKeepsInv(Next(s, steps[0]), steps[1..]);
    }
  }
}
