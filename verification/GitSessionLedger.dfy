/** The ledger of released requests: which entries a cleanup keeps, and how long a finished request stays releasable. */
module GitSessionLedger {
  import opened JsonValues
  import opened GitSessions
  import opened GitSessionInvariants
  import opened GitSessionDisposal
  import opened GitSessionSteps
  import opened GitSessionSafety
  import Strings

  // ---------- one insertion ----------

  /** The one entry stands somewhere before the other. */
  ghost predicate Before(ledger: seq<LedgerEntry>, a: LedgerEntry, b: LedgerEntry) {
    exists i, j :: 0 <= i < j < |ledger| && ledger[i] == a && ledger[j] == b
  }

  ghost predicate Names(ledger: seq<LedgerEntry>, id: Id) {
    exists k :: 0 <= k < |ledger| && ledger[k].id == id
  }

  lemma {:induction false} WithoutKeepsOrder(ledger: seq<LedgerEntry>, id: Id, i: nat, j: nat) returns (a: nat, b: nat)
    requires i < j < |WithoutEntry(ledger, id)|
    ensures a < b < |ledger|
    ensures ledger[a] == WithoutEntry(ledger, id)[i] && ledger[b] == WithoutEntry(ledger, id)[j]
  {
    if ledger[0].id == id {
      a, b := WithoutKeepsOrder(ledger[1..], id, i, j);
      a, b := a + 1, b + 1;
    } else if i > 0 {
      a, b := WithoutKeepsOrder(ledger[1..], id, i - 1, j - 1);
      a, b := a + 1, b + 1;
    } else {
      b := WithoutFrom(ledger[1..], id, j - 1);
      a, b := 0, b + 1;
    }
  }

  lemma {:induction false} WithoutFrom(ledger: seq<LedgerEntry>, id: Id, j: nat) returns (b: nat)
    requires j < |WithoutEntry(ledger, id)|
    ensures b < |ledger| && ledger[b] == WithoutEntry(ledger, id)[j]
  {
    if ledger[0].id == id {
      b := WithoutFrom(ledger[1..], id, j);
      b := b + 1;
    } else if j > 0 {
      b := WithoutFrom(ledger[1..], id, j - 1);
      b := b + 1;
    } else {
      b := 0;
    }
  }

  lemma {:induction false} WithoutSize(ledger: seq<LedgerEntry>, id: Id)
    requires DistinctIds(ledger)
    ensures |WithoutEntry(ledger, id)| == if Names(ledger, id) then |ledger| - 1 else |ledger|
    ensures !Names(ledger, id) ==> WithoutEntry(ledger, id) == ledger
  {
    if ledger != [] {
      var rest := ledger[1..];
      WithoutSize(rest, id);
      assert ledger == [ledger[0]] + rest;
      if Names(rest, id) {
        var k :| 0 <= k < |rest| && rest[k].id == id;
        assert ledger[k + 1].id == id;
      }
      if Names(ledger, id) {
        var k :| 0 <= k < |ledger| && ledger[k].id == id;
        if k > 0 { assert rest[k - 1].id == id; }
      }
    }
  }

  /**
   * A cleanup puts its entry last. Every entry of another id stays, in its order, except that a ledger of 1024 entries
   * without the new id gives up its oldest one.
   */
  lemma RememberedExactly(ledger: seq<LedgerEntry>, id: Id, canonical: string)
    requires DistinctIds(ledger) && |ledger| <= 1024
    ensures var next := Remembered(ledger, id, canonical);
      && next != [] && next[|next| - 1] == LedgerEntry(id, Sha256(canonical))
      && (forall entry :: entry in next && entry.id == id ==> entry == LedgerEntry(id, Sha256(canonical)))
      && (forall entry: LedgerEntry :: entry.id != id ==>
            (entry in next <==> entry in ledger && !(|ledger| == 1024 && !Names(ledger, id) && entry == ledger[0])))
      && (forall a, b: LedgerEntry :: b.id != id && Before(next, a, b) ==> Before(ledger, a, b))
  {
    var kept, added := WithoutEntry(ledger, id), LedgerEntry(id, Sha256(canonical));
    var grown, next := kept + [added], Remembered(ledger, id, canonical);
    WithoutEntryFacts(ledger, id);
    WithoutSize(ledger, id);
    forall a, b: LedgerEntry | b.id != id && Before(next, a, b) ensures Before(ledger, a, b) {
      RememberedOrder(ledger, id, canonical, a, b);
    }
    forall entry: LedgerEntry | entry.id != id
      ensures entry in next <==> entry in ledger && !(|ledger| == 1024 && !Names(ledger, id) && entry == ledger[0])
    {
      RememberedOther(ledger, id, canonical, entry);
    }
    forall entry | entry in next && entry.id == id ensures entry == added {
      assert entry in grown;
    }
  }

  lemma RememberedOrder(ledger: seq<LedgerEntry>, id: Id, canonical: string, a: LedgerEntry, b: LedgerEntry)
    requires DistinctIds(ledger) && |ledger| <= 1024 && b.id != id && Before(Remembered(ledger, id, canonical), a, b)
    ensures Before(ledger, a, b)
  {
    var kept, next := WithoutEntry(ledger, id), Remembered(ledger, id, canonical);
    var i, j :| 0 <= i < j < |next| && next[i] == a && next[j] == b;
    var grown := kept + [LedgerEntry(id, Sha256(canonical))];
    var shift := if |grown| > 1024 then 1 else 0;
    assert grown[i + shift] == a && grown[j + shift] == b && j + shift < |kept|;
    var x, y := WithoutKeepsOrder(ledger, id, i + shift, j + shift);
  }

  lemma RememberedOther(ledger: seq<LedgerEntry>, id: Id, canonical: string, entry: LedgerEntry)
    requires DistinctIds(ledger) && |ledger| <= 1024 && entry.id != id
    ensures entry in Remembered(ledger, id, canonical) <==>
              entry in ledger && !(|ledger| == 1024 && !Names(ledger, id) && entry == ledger[0])
  {
    var kept, next := WithoutEntry(ledger, id), Remembered(ledger, id, canonical);
    WithoutEntryFacts(ledger, id);
    WithoutSize(ledger, id);
    hide WithoutEntry;
    if |kept| + 1 > 1024 {
      assert kept == ledger && !Names(ledger, id) && next == ledger[1..] + [LedgerEntry(id, Sha256(canonical))];
      assert ledger == [ledger[0]] + ledger[1..];
      if entry in ledger[1..] {
        var k :| 0 <= k < |ledger[1..]| && ledger[1..][k] == entry;
        assert ledger[k + 1] == entry;
      }
    } else {
      assert next == kept + [LedgerEntry(id, Sha256(canonical))];
    }
  }

  // ---------- how long an entry stays ----------

  /** The entry is there, and only these ids were remembered after it. */
  ghost predicate Stands(ledger: seq<LedgerEntry>, entry: LedgerEntry, since: set<Id>) {
    exists k :: StandsAt(ledger, entry, since, k)
  }

  ghost predicate StandsAt(ledger: seq<LedgerEntry>, entry: LedgerEntry, since: set<Id>, k: int) {
    0 <= k < |ledger| && ledger[k] == entry && forall j :: k < j < |ledger| ==> ledger[j].id in since
  }

  lemma {:induction false} StandsWithout(ledger: seq<LedgerEntry>, entry: LedgerEntry, since: set<Id>, id: Id)
    requires DistinctIds(ledger) && Stands(ledger, entry, since) && id != entry.id
    ensures Stands(WithoutEntry(ledger, id), entry, since)
  {
    var k :| StandsAt(ledger, entry, since, k);
    var kept := WithoutEntry(ledger, id);
    WithoutEntryFacts(ledger, id);
    assert entry in kept;
    var at :| 0 <= at < |kept| && kept[at] == entry;
    forall j | at < j < |kept| ensures kept[j].id in since {
      var a, b := WithoutKeepsOrder(ledger, id, at, j);
      assert a == k;
    }
    assert StandsAt(kept, entry, since, at);
  }

  /** Different ids in a list are at most as many as the set they come from. */
  lemma {:induction false} DistinctAreFew(ledger: seq<LedgerEntry>, ids: set<Id>)
    requires DistinctIds(ledger) && forall k :: 0 <= k < |ledger| ==> ledger[k].id in ids
    ensures |ledger| <= |ids|
  {
    if ledger != [] {
      DistinctAreFew(ledger[1..], ids - {ledger[0].id});
    }
  }

  /** An insertion of another id cannot push the entry out while few ids were remembered after it. */
  lemma StandsRemembered(ledger: seq<LedgerEntry>, entry: LedgerEntry, since: set<Id>, id: Id, canonical: string)
    requires DistinctIds(ledger) && Stands(ledger, entry, since) && id != entry.id && |since + {id}| < 1024
    ensures Stands(Remembered(ledger, id, canonical), entry, since + {id})
  {
    var kept, added := WithoutEntry(ledger, id), LedgerEntry(id, Sha256(canonical));
    StandsWithout(ledger, entry, since, id);
    WithoutEntryFacts(ledger, id);
    var k :| StandsAt(kept, entry, since, k);
    var grown := kept + [added];
    hide WithoutEntry;
    assert StandsAt(grown, entry, since + {id}, k);
    if |grown| > 1024 {
      var later := kept[k + 1..];
      forall j | 0 <= j < |later| ensures later[j].id in since - {id} { assert later[j] in kept; }
      DistinctAreFew(later, since - {id});
      assert since + {id} == (since - {id}) + {id};
      assert k > 0;
      assert StandsAt(grown[1..], entry, since + {id}, k - 1);
    }
  }

  // ---------- runs ----------

  /** Nothing is registered, analyzed, released or left over for the id. */
  predicate Over(s: State, id: Id) {
    && id !in s.sessions && id !in s.active && id !in s.analyzing && id !in s.releasing && id !in s.pendingSessionCleanup
  }

  /** The step registers a new session for the id. */
  predicate Registers(s: State, step: Step, id: Id) {
    step.ProbeDone? && step.id == id && !s.disposed && id !in s.sessions
  }

  ghost predicate RegistersNoMore(s: State, steps: seq<Step>, id: Id)
    requires IsRun(s, steps)
    decreases |steps|
  {
    steps == [] || (!Registers(s, steps[0], id) && RegistersNoMore(Next(s, steps[0]), steps[1..], id))
  }

  /** The ids whose session cleanup one of these steps completes, besides the given one. */
  function OthersCleaned(steps: seq<Step>, id: Id): set<Id> {
    set step | step in steps && (step.FinishDone? || step.ReleaseDone?) && step.ok && step.id != id :: step.id
  }

  lemma OverReturns(s: State, id: Id, canonical: string, since: set<Id>)
    requires Over(s, id) && Stands(s.released, LedgerEntry(id, Sha256(canonical)), since)
    ensures OutcomeOfRelease(s, id, canonical).ReturnsAtOnce?
  {
    var k :| StandsAt(s.released, LedgerEntry(id, Sha256(canonical)), since, k);
  }

  /** These fields decide whether an id is over; none of them gained it. */
  predicate NothingNew(s: State, t: State, id: Id) {
    && (id in t.sessions ==> id in s.sessions) && (id in t.active ==> id in s.active)
    && (id in t.analyzing ==> id in s.analyzing) && (id in t.releasing ==> id in s.releasing)
    && (id in t.pendingSessionCleanup ==> id in s.pendingSessionCleanup)
  }

  lemma ResolveNothingNew(s: State, x: Id, id: Id)
    ensures NothingNew(s, Resolve(s, x), id) && Resolve(s, x).released == s.released
  {
    hide Admitted;
    if Accepts(s, x) {
      var t := Resolve(s, x);
      assert t.sessions == s.sessions && t.active == s.active && t.analyzing == s.analyzing;
      assert t.releasing == s.releasing && t.pendingSessionCleanup == s.pendingSessionCleanup && t.released == s.released;
      hide Resolve;
    }
  }

  lemma EndReservationNothingNew(s: State, x: Id, id: Id)
    ensures NothingNew(s, EndReservation(s, x), id) && EndReservation(s, x).released == s.released
  {
  }

  lemma MaterializeNothingNew(s: State, x: Id, ok: bool, id: Id)
    requires IsMaterializing(s, x)
    ensures NothingNew(s, Materialize(s, x, ok), id) && Materialize(s, x, ok).released == s.released
  {
    EndReservationNothingNew(s, x, id);
    hide EndReservation;
  }

  lemma DiscardNothingNew(s: State, x: Id, id: Id)
    requires IsProbing(s, x)
    ensures NothingNew(s, Discard(s, x), id) && Discard(s, x).released == s.released
  {
  }

  lemma EnrolledNothingNew(s: State, x: Id, session: Session, id: Id)
    ensures x != id ==> NothingNew(s, Enrolled(s, x, session), id)
    ensures Enrolled(s, x, session).released == WithoutEntry(s.released, x)
  {
    hide WithoutEntry;
  }

  lemma RegisterNothingNew(s: State, x: Id, canonical: string, id: Id)
    requires IsProbing(s, x)
    ensures x != id || s.disposed || id in s.sessions ==> NothingNew(s, Register(s, x, canonical), id)
    ensures Register(s, x, canonical).released ==
              if !s.disposed && x !in s.sessions then WithoutEntry(s.released, x) else s.released
  {
    var session := Session(s.resolving[x].tree, canonical);
    DiscardNothingNew(s, x, id);
    EnrolledNothingNew(s, x, session, id);
    EndReservationNothingNew(Enrolled(s, x, session), x, id);
    hide EndReservation, Enrolled, Discard, WithoutEntry;
  }

  lemma DiscardedNothingNew(s: State, x: Id, ok: bool, id: Id)
    requires IsDiscarding(s, x)
    ensures NothingNew(s, Discarded(s, x, ok), id) && Discarded(s, x, ok).released == s.released
  {
    var m := s.(disposedTrees := if ok then s.disposedTrees + {s.resolving[x].tree} else s.disposedTrees,
                pendingCleanup := if ok then s.pendingCleanup - {x} else s.pendingCleanup);
    EndReservationNothingNew(m, x, id);
    hide EndReservation;
  }

  lemma TakenNothingNew(s: State, x: Id, id: Id)
    requires x in s.sessions
    ensures x != id ==> NothingNew(s, TakenByAnalysis(s, x), id)
    ensures TakenByAnalysis(s, x).released == s.released
  {
  }

  lemma RunOrFinishNothingNew(s: State, x: Id, session: Session, submitted: string, id: Id)
    ensures x != id ==> NothingNew(s, Run(s, x, session, submitted), id)
    ensures x != id ==> NothingNew(s, Finish(s, x, session.tree, session.canonical), id)
    ensures Run(s, x, session, submitted).released == s.released
    ensures Finish(s, x, session.tree, session.canonical).released == s.released
  {
  }

  lemma AnalyzeOver(s: State, x: Id, submitted: string, id: Id)
    requires Over(s, id)
    ensures Over(Analyze(s, x, submitted), id) && Analyze(s, x, submitted).released == s.released
  {
    if !s.disposed && x in s.sessions {
      TakenNothingNew(s, x, id);
      RunOrFinishNothingNew(TakenByAnalysis(s, x), x, s.sessions[x], submitted, id);
      hide TakenByAnalysis, Run, Finish;
    }
  }

  lemma AnalyzerDoneOver(s: State, x: Id, id: Id)
    requires Over(s, id) && IsRunning(s, x)
    ensures Over(AnalyzerDone(s, x), id) && AnalyzerDone(s, x).released == s.released
  {
  }

  lemma TreeReleasedNothingNew(s: State, x: Id, tree: Tree, canonical: string, ok: bool, id: Id)
    ensures NothingNew(s, TreeReleased(s, x, tree, canonical, ok), id)
    ensures TreeReleased(s, x, tree, canonical, ok).released == if ok then Remembered(s.released, x, canonical) else s.released
  {
    hide Remembered;
  }

  lemma EndAnalysisNothingNew(s: State, x: Id, id: Id)
    ensures NothingNew(s, EndAnalysis(s, x), id) && EndAnalysis(s, x).released == s.released
  {
  }

  lemma FinishedNothingNew(s: State, x: Id, ok: bool, id: Id)
    requires IsFinishing(s, x)
    ensures NothingNew(s, Finished(s, x, ok), id)
    ensures Finished(s, x, ok).released == if ok then Remembered(s.released, x, s.analyzing[x].canonical) else s.released
  {
    var work := s.analyzing[x];
    TreeReleasedNothingNew(s, x, work.tree, work.canonical, ok, id);
    EndAnalysisNothingNew(TreeReleased(s, x, work.tree, work.canonical, ok), x, id);
    hide TreeReleased, EndAnalysis, Remembered;
  }

  lemma ReleaseOver(s: State, x: Id, submitted: string, id: Id)
    requires Over(s, id)
    ensures Over(Release(s, x, submitted), id) && Release(s, x, submitted).released == s.released
  {
    hide InLedger;
  }

  lemma ReleasedNothingNew(s: State, x: Id, ok: bool, id: Id)
    requires x in s.releasing
    ensures NothingNew(s, Released(s, x, ok), id)
    ensures Released(s, x, ok).released == if ok then Remembered(s.released, x, s.releasing[x].canonical) else s.released
  {
    var work := s.releasing[x];
    TreeReleasedNothingNew(s, x, work.tree, work.canonical, ok, id);
    hide TreeReleased, Remembered;
  }

  lemma SweepKeepsOver(s: State, d: nat, next: Id, id: Id)
    requires Choosable(s, next) && Over(s, id)
    ensures Over(Sweep(s, d, next), id) && Sweep(s, d, next).released == s.released
  {
  }

  lemma CleanedKeepsOver(s: State, d: nat, id: Id)
    requires IsCleaning(s, d) && Over(s, id)
    ensures Over(Cleaned(s, d), id) && Cleaned(s, d).released == s.released
  {
  }

  lemma DisposingKeepsOver(s: State, step: Step, id: Id)
    requires Enabled(s, step) && Over(s, id) && (step.DisposeCall? || step.DisposerWoken? || step.DisposerCleaned?)
    ensures Over(Next(s, step), id) && Next(s, step).released == s.released
  {
    hide Sweep, Cleaned, PastReservations, ReleasePromises, Choosable;
    if step.DisposerCleaned? && step.ok {
      CleanedKeepsOver(s, step.d, id);
      SweepKeepsOver(Cleaned(s, step.d), step.d, step.next, id);
    } else if step.DisposerWoken? && s.disposers[step.d].AwaitReleases? {
      SweepKeepsOver(s, step.d, step.next, id);
    }
  }

  /**
   * What a step does to a request that is over and to the ledger: the request stays over unless it is registered again;
   * a registration forgets its id, a completed cleanup remembers its id, and nothing else touches the ledger.
   */
  lemma StepKeepsOver(s: State, step: Step, id: Id)
    requires Enabled(s, step) && Over(s, id) && !Registers(s, step, id)
    ensures Over(Next(s, step), id)
    ensures Next(s, step).released ==
      if step.FinishDone? && step.ok then Remembered(s.released, step.id, s.analyzing[step.id].canonical)
      else if step.ReleaseDone? && step.ok then Remembered(s.released, step.id, s.releasing[step.id].canonical)
      else if step.ProbeDone? && Registers(s, step, step.id) then WithoutEntry(s.released, step.id)
      else s.released
  {
    hide Resolve, Materialize, Discard, Register, Discarded, Analyze, AnalyzerDone, Finished, Release, Released,
      Dispose, Wake, DisposerDone, Awake, Cleaned, Choosable, MayEnd, Remembered, WithoutEntry;
    match step
    case ResolveCall(x) => ResolveNothingNew(s, x, id);
    case MaterializeDone(x, ok) => MaterializeNothingNew(s, x, ok, id);
    case ProbeFailed(x) => DiscardNothingNew(s, x, id);
    case ProbeDone(x, canonical) => RegisterNothingNew(s, x, canonical, id);
    case DiscardDone(x, ok) => DiscardedNothingNew(s, x, ok, id);
    case AnalyzeCall(x, submitted) => AnalyzeOver(s, x, submitted, id);
    case AnalyzerReturned(x) => AnalyzerDoneOver(s, x, id);
    case FinishDone(x, ok) => FinishedNothingNew(s, x, ok, id);
    case ReleaseCall(x, submitted) => ReleaseOver(s, x, submitted, id);
    case ReleaseDone(x, ok) => ReleasedNothingNew(s, x, ok, id);
    case DisposeCall(_) => DisposingKeepsOver(s, step, id);
    case DisposerWoken(_, _) => DisposingKeepsOver(s, step, id);
    case DisposerCleaned(_, _, _) => DisposingKeepsOver(s, step, id);
  }

  lemma StepKeepsEntry(s: State, step: Step, id: Id, canonical: string, since: set<Id>)
    requires Inv(s) && Enabled(s, step) && Over(s, id) && !Registers(s, step, id)
    requires Stands(s.released, LedgerEntry(id, Sha256(canonical)), since) && |since + OthersCleaned([step], id)| < 1024
    ensures Stands(Next(s, step).released, LedgerEntry(id, Sha256(canonical)), since + OthersCleaned([step], id))
  {
    var entry := LedgerEntry(id, Sha256(canonical));
    hide Next, Stands, Remembered, WithoutEntry;
    StepKeepsOver(s, step, id);
    if (step.FinishDone? || step.ReleaseDone?) && step.ok {
      assert step in [step];
      assert OthersCleaned([step], id) == {step.id};
      var work := if step.FinishDone? then s.analyzing[step.id].canonical else s.releasing[step.id].canonical;
      StandsRemembered(s.released, entry, since, step.id, work);
    } else {
      if step.ProbeDone? && Registers(s, step, step.id) { StandsWithout(s.released, entry, since, step.id); }
      StandsLonger(Next(s, step).released, entry, since, since + OthersCleaned([step], id));
    }
  }

  lemma StandsLonger(ledger: seq<LedgerEntry>, entry: LedgerEntry, since: set<Id>, more: set<Id>)
    requires Stands(ledger, entry, since) && since <= more
    ensures Stands(ledger, entry, more)
  {
    var k :| StandsAt(ledger, entry, since, k);
    assert StandsAt(ledger, entry, more, k);
  }

  lemma CleanedFirst(steps: seq<Step>, id: Id)
    requires steps != []
    ensures OthersCleaned(steps, id) == OthersCleaned([steps[0]], id) + OthersCleaned(steps[1..], id)
  {
    assert steps == [steps[0]] + steps[1..];
  }

  lemma {:induction false} RunKeepsEntry(s: State, steps: seq<Step>, id: Id, canonical: string, since: set<Id>)
    requires Inv(s) && IsRun(s, steps) && RegistersNoMore(s, steps, id) && Over(s, id)
    requires Stands(s.released, LedgerEntry(id, Sha256(canonical)), since) && |since + OthersCleaned(steps, id)| < 1024
    ensures OutcomeOfRelease(After(s, steps), id, canonical).ReturnsAtOnce?
    decreases |steps|
  {
    hide Inv, Next, Enabled, Over, Stands, OthersCleaned, Registers, OutcomeOfRelease;
    if steps == [] {
      OverReturns(s, id, canonical, since);
    } else {
      var t, first := Next(s, steps[0]), OthersCleaned([steps[0]], id);
      CleanedFirst(steps, id);
      Strings.CardinalityMonotone(since + first, since + OthersCleaned(steps, id));
      assert since + OthersCleaned(steps, id) == since + first + OthersCleaned(steps[1..], id);
      StepKeepsEntry(s, steps[0], id, canonical, since);
      StepKeepsOver(s, steps[0], id);
      StepKeepsInv(s, steps[0]);
      RunKeepsEntry(t, steps[1..], id, canonical, since + first);
    }
  }

  lemma NewestStands(ledger: seq<LedgerEntry>, id: Id, canonical: string)
    requires DistinctIds(ledger) && |ledger| <= 1024
    ensures Stands(Remembered(ledger, id, canonical), LedgerEntry(id, Sha256(canonical)), {})
  {
    var next := Remembered(ledger, id, canonical);
    RememberedExactly(ledger, id, canonical);
    hide Remembered, WithoutEntry;
    assert StandsAt(next, LedgerEntry(id, Sha256(canonical)), {}, |next| - 1);
  }

  /**
   * After a release that cleaned up, releasing the same request returns at once in every continuation that registers the
   * id no more and cleans up fewer than 1024 other ids.
   */
  lemma ReleasedStaysReleasable(s: State, id: Id, steps: seq<Step>)
    requires Reachable(s) && id in s.releasing && IsRun(Released(s, id, true), steps)
    requires RegistersNoMore(Released(s, id, true), steps, id) && |OthersCleaned(steps, id)| < 1024
    ensures OutcomeOfRelease(After(Released(s, id, true), steps), id, s.releasing[id].canonical).ReturnsAtOnce?
  {
    var canonical := s.releasing[id].canonical;
    ReachableInv(s);
    ReleasedInv(s, id, true);
    ReleasedIsOver(s, id);
    InvLedger(s);
    NewestStands(s.released, id, canonical);
    hide Inv, Released, OthersCleaned, Over, Stands, IsRun, After, OutcomeOfRelease, RegistersNoMore, Remembered;
    assert {} + OthersCleaned(steps, id) == OthersCleaned(steps, id);
    RunKeepsEntry(Released(s, id, true), steps, id, canonical, {});
  }

  lemma InvLedger(s: State)
    requires Inv(s)
    ensures DistinctIds(s.released) && |s.released| <= 1024
  {
  }

  lemma ReleasedIsOver(s: State, id: Id)
    requires Inv(s) && id in s.releasing
    ensures Over(Released(s, id, true), id)
    ensures Released(s, id, true).released == Remembered(s.released, id, s.releasing[id].canonical)
  {
    assert GoodAt(s, id);
    hide Remembered;
  }

  lemma FinishedIsOver(s: State, id: Id)
    requires Inv(s) && IsFinishing(s, id)
    ensures Over(Finished(s, id, true), id)
    ensures Finished(s, id, true).released == Remembered(s.released, id, s.analyzing[id].canonical)
  {
    assert GoodAt(s, id);
    hide Remembered;
  }

  /** The same after an analysis that cleaned up. */
  lemma AnalyzedStaysReleasable(s: State, id: Id, steps: seq<Step>)
    requires Reachable(s) && IsFinishing(s, id) && IsRun(Finished(s, id, true), steps)
    requires RegistersNoMore(Finished(s, id, true), steps, id) && |OthersCleaned(steps, id)| < 1024
    ensures OutcomeOfRelease(After(Finished(s, id, true), steps), id, s.analyzing[id].canonical).ReturnsAtOnce?
  {
    var canonical := s.analyzing[id].canonical;
    ReachableInv(s);
    FinishedInv(s, id, true);
    FinishedIsOver(s, id);
    InvLedger(s);
    NewestStands(s.released, id, canonical);
    hide Inv, Finished, OthersCleaned, Over, Stands, IsRun, After, OutcomeOfRelease, RegistersNoMore, Remembered;
    assert {} + OthersCleaned(steps, id) == OthersCleaned(steps, id);
    RunKeepsEntry(Finished(s, id, true), steps, id, canonical, {});
  }
}
