/**
 * One-shot Git analysis sessions as a step machine. A step is the code between two awaits; which pending operation
 * completes next, and whether it succeeds, is up to the environment.
 */
module GitSessions {
  import opened JsonValues

  type Id = string
  type Tree = nat
  type Promise = nat

  const LEDGER_LIMIT := 1024

  /** SHA-256 as an injective function of the canonical request. */
  datatype Digest = Sha256(text: string)

  datatype Session = Session(tree: Tree, canonical: string)
  datatype LedgerEntry = LedgerEntry(id: Id, digest: Digest)

  /** Where a call waits. */
  datatype Resolving = Materializing | Probing(tree: Tree) | Discarding(tree: Tree)
  datatype Analyzing =
    | Running(tree: Tree, canonical: string, submitted: string)
    | Finishing(tree: Tree, canonical: string)
  datatype Releasing = Releasing(tree: Tree, canonical: string, promise: Promise)
  datatype Disposer =
    | AwaitReservations(promise: Promise)
    | AwaitAnalyses(promise: Promise)
    | AwaitReleases(promises: set<Promise>)
    | CleaningSession(id: Id, tree: Tree)
    | CleaningPending(id: Id, tree: Tree)
    | Returned
    | Rejected

  datatype Taker = ByAnalysis | ByRelease | ByDisposal

  datatype State = State(
    maxSessions: nat,
    // the shared bookkeeping
    disposed: bool,
    sessions: map<Id, Session>,
    pendingCleanup: map<Id, Tree>,
    pendingSessionCleanup: map<Id, string>,
    releasing: map<Id, Releasing>,
    released: seq<LedgerEntry>,
    inProgress: set<Id>,
    active: set<Id>,
    reservations: nat,
    reservationsDrained: Option<Promise>,
    activeAnalyses: nat,
    analysesDrained: Option<Promise>,
    // calls waiting for an operation, and promises
    resolving: map<Id, Resolving>,
    analyzing: map<Id, Analyzing>,
    disposers: map<nat, Disposer>,
    signalled: set<Promise>,
    nextPromise: Promise,
    // trees: numbered as they are materialized
    nextTree: Tree,
    disposedTrees: set<Tree>,
    // history
    owner: map<Tree, Id>,
    latest: map<Id, Session>,
    taker: map<Tree, Taker>)

  function Start(maxSessions: nat): State {
    State(maxSessions, false, map[], map[], map[], map[], [], {}, {}, 0, None, 0, None,
          map[], map[], map[], {}, 0, 0, {}, map[], map[], map[])
  }

  // ---------- shared pieces ----------

  function WithoutEntry(ledger: seq<LedgerEntry>, id: Id): seq<LedgerEntry> {
    if ledger == [] then []
    else if ledger[0].id == id then WithoutEntry(ledger[1..], id)
    else [ledger[0]] + WithoutEntry(ledger[1..], id)
  }

  /** Insertion moves an id to the end; beyond the limit the oldest entry goes. */
  function Remembered(ledger: seq<LedgerEntry>, id: Id, canonical: string): seq<LedgerEntry> {
    var grown := WithoutEntry(ledger, id) + [LedgerEntry(id, Sha256(canonical))];
    if |grown| > LEDGER_LIMIT then grown[1..] else grown
  }

  predicate InLedger(ledger: seq<LedgerEntry>, id: Id, canonical: string) {
    LedgerEntry(id, Sha256(canonical)) in ledger
  }

  function EndReservation(s: State, id: Id): State {
    var left := if s.reservations > 0 then s.reservations - 1 else 0;
    var drained := left == 0 && s.reservationsDrained.Some?;
    s.(inProgress := s.inProgress - {id}, resolving := s.resolving - {id}, reservations := left,
       signalled := if drained then s.signalled + {s.reservationsDrained.value} else s.signalled,
       reservationsDrained := if drained then None else s.reservationsDrained)
  }

  function EndAnalysis(s: State, id: Id): State {
    var left := if s.activeAnalyses > 0 then s.activeAnalyses - 1 else 0;
    var drained := left == 0 && s.analysesDrained.Some?;
    s.(active := s.active - {id}, analyzing := s.analyzing - {id}, activeAnalyses := left,
       signalled := if drained then s.signalled + {s.analysesDrained.value} else s.signalled,
       analysesDrained := if drained then None else s.analysesDrained)
  }

  /** The admission sum; an id whose tree is being cleaned counts twice. */
  function Admitted(s: State): nat {
    s.reservations + |s.sessions| + s.activeAnalyses + |s.pendingCleanup|
  }

  // ---------- resolve ----------

  function Resolve(s: State, id: Id): State {
    if s.disposed || Admitted(s) >= s.maxSessions then s
    else if id in s.sessions || id in s.pendingCleanup || id in s.inProgress || id in s.active then s
    else
      var first := s.reservations == 0;
      s.(inProgress := s.inProgress + {id},
         reservationsDrained := if first then Some(s.nextPromise) else s.reservationsDrained,
         nextPromise := if first then s.nextPromise + 1 else s.nextPromise,
         reservations := s.reservations + 1,
         resolving := s.resolving[id := Materializing])
  }

  predicate IsMaterializing(s: State, id: Id) {
    id in s.resolving && s.resolving[id].Materializing?
  }

  predicate IsProbing(s: State, id: Id) {
    id in s.resolving && s.resolving[id].Probing?
  }

  predicate IsDiscarding(s: State, id: Id) {
    id in s.resolving && s.resolving[id].Discarding?
  }

  function Materialize(s: State, id: Id, ok: bool): State
    requires IsMaterializing(s, id)
  {
    if ok then
      s.(resolving := s.resolving[id := Probing(s.nextTree)], owner := s.owner[s.nextTree := id], nextTree := s.nextTree + 1)
    else EndReservation(s, id)
  }

  /** A probe step failed: clean the new tree up. */
  function Discard(s: State, id: Id): State
    requires IsProbing(s, id)
  {
    var tree := s.resolving[id].tree;
    s.(pendingCleanup := s.pendingCleanup[id := tree], resolving := s.resolving[id := Discarding(tree)])
  }

  function Enrolled(s: State, id: Id, session: Session): State {
    s.(sessions := s.sessions[id := session], released := WithoutEntry(s.released, id), latest := s.latest[id := session])
  }

  /** The last segment of a successful probe: register the session unless disposed meanwhile. */
  function Register(s: State, id: Id, canonical: string): State
    requires IsProbing(s, id)
  {
    if s.disposed || id in s.sessions then Discard(s, id)
    else EndReservation(Enrolled(s, id, Session(s.resolving[id].tree, canonical)), id)
  }

  function Discarded(s: State, id: Id, ok: bool): State
    requires IsDiscarding(s, id)
  {
    var after := s.(disposedTrees := if ok then s.disposedTrees + {s.resolving[id].tree} else s.disposedTrees,
                    pendingCleanup := if ok then s.pendingCleanup - {id} else s.pendingCleanup);
    EndReservation(after, id)
  }

  /** The outcome of cleaning a session's tree up: remembered as released, or left for a retry. */
  function TreeReleased(s: State, id: Id, tree: Tree, canonical: string, ok: bool): State {
    s.(disposedTrees := if ok then s.disposedTrees + {tree} else s.disposedTrees,
       pendingCleanup := if ok then s.pendingCleanup - {id} else s.pendingCleanup,
       pendingSessionCleanup := if ok then s.pendingSessionCleanup - {id} else s.pendingSessionCleanup,
       released := if ok then Remembered(s.released, id, canonical) else s.released)
  }

  // ---------- analyze ----------

  predicate IsRunning(s: State, id: Id) {
    id in s.analyzing && s.analyzing[id].Running?
  }

  predicate IsFinishing(s: State, id: Id) {
    id in s.analyzing && s.analyzing[id].Finishing?
  }

  function Finish(s: State, id: Id, tree: Tree, canonical: string): State {
    s.(pendingSessionCleanup := s.pendingSessionCleanup[id := canonical],
       pendingCleanup := s.pendingCleanup[id := tree],
       analyzing := s.analyzing[id := Finishing(tree, canonical)])
  }

  /** An analysis takes the session: nobody else can find it from here on. */
  function TakenByAnalysis(s: State, id: Id): State
    requires id in s.sessions
  {
    var first := s.activeAnalyses == 0;
    s.(sessions := s.sessions - {id},
       active := s.active + {id},
       analysesDrained := if first then Some(s.nextPromise) else s.analysesDrained,
       nextPromise := if first then s.nextPromise + 1 else s.nextPromise,
       activeAnalyses := s.activeAnalyses + 1,
       taker := s.taker[s.sessions[id].tree := ByAnalysis])
  }

  function Run(s: State, id: Id, session: Session, submitted: string): State {
    s.(analyzing := s.analyzing[id := Running(session.tree, session.canonical, submitted)])
  }

  function Analyze(s: State, id: Id, submitted: string): State {
    if s.disposed || id !in s.sessions then s
    else
      var session := s.sessions[id];
      if submitted == session.canonical then Run(TakenByAnalysis(s, id), id, session, submitted)
      else Finish(TakenByAnalysis(s, id), id, session.tree, session.canonical)
  }

  /** The analyzer returned or threw. */
  function AnalyzerDone(s: State, id: Id): State
    requires IsRunning(s, id)
  {
    Finish(s, id, s.analyzing[id].tree, s.analyzing[id].canonical)
  }

  function Finished(s: State, id: Id, ok: bool): State
    requires IsFinishing(s, id)
  {
    var work := s.analyzing[id];
    EndAnalysis(TreeReleased(s, id, work.tree, work.canonical, ok), id)
  }

  // ---------- release ----------

  datatype ReleaseOutcome = Refused | ReturnsAtOnce | Joins | FromSession | Retries

  function OutcomeOfRelease(s: State, id: Id, submitted: string): ReleaseOutcome {
    if id in s.active then Refused
    else if id in s.releasing then
      if s.releasing[id].canonical == submitted then Joins else Refused
    else if id !in s.sessions then
      if id in s.pendingSessionCleanup then
        if s.disposed || s.pendingSessionCleanup[id] != submitted || id !in s.pendingCleanup then Refused else Retries
      else if InLedger(s.released, id, submitted) then ReturnsAtOnce
      else Refused
    else if s.disposed || s.sessions[id].canonical != submitted then Refused
    else FromSession
  }

  predicate StartsRelease(s: State, id: Id, submitted: string) {
    OutcomeOfRelease(s, id, submitted).FromSession? || OutcomeOfRelease(s, id, submitted).Retries?
  }

  function ReleasedTree(s: State, id: Id): Tree
    requires id in s.sessions || id in s.pendingCleanup
  {
    if id in s.sessions then s.sessions[id].tree else s.pendingCleanup[id]
  }

  function Release(s: State, id: Id, submitted: string): State {
    if !StartsRelease(s, id, submitted) then s
    else
      var tree := ReleasedTree(s, id);
      s.(sessions := s.sessions - {id},
         taker := if id in s.sessions then s.taker[tree := ByRelease] else s.taker,
         pendingSessionCleanup := s.pendingSessionCleanup[id := submitted],
         pendingCleanup := s.pendingCleanup[id := tree],
         releasing := s.releasing[id := Releasing(tree, submitted, s.nextPromise)],
         nextPromise := s.nextPromise + 1)
  }

  function Released(s: State, id: Id, ok: bool): State
    requires id in s.releasing
  {
    var work := s.releasing[id];
    var after := TreeReleased(s, id, work.tree, work.canonical, ok);
    after.(releasing := s.releasing - {id}, signalled := s.signalled + {work.promise})
  }

  // ---------- dispose ----------

  function ReleasePromises(s: State): set<Promise> {
    set id | id in s.releasing :: s.releasing[id].promise
  }

  /** What a disposer waits for once no reservation is open. */
  function PastReservations(s: State): Disposer {
    if s.activeAnalyses > 0 && s.analysesDrained.Some? then AwaitAnalyses(s.analysesDrained.value)
    else AwaitReleases(ReleasePromises(s))
  }

  function Dispose(s: State, d: nat): State
    requires d !in s.disposers
  {
    var first := if s.reservations > 0 && s.reservationsDrained.Some? then AwaitReservations(s.reservationsDrained.value)
                 else PastReservations(s);
    s.(disposed := true, disposers := s.disposers[d := first])
  }

  predicate Awake(s: State, d: nat) {
    d in s.disposers &&
    match s.disposers[d]
    case AwaitReservations(promise) => promise in s.signalled
    case AwaitAnalyses(promise) => promise in s.signalled
    case AwaitReleases(promises) => promises <= s.signalled
    case _ => false
  }

  /** The entry the sweep takes next: a session while there is one, else a pending tree. */
  predicate Choosable(s: State, next: Id) {
    if s.sessions != map[] then next in s.sessions
    else if s.pendingCleanup != map[] then next in s.pendingCleanup
    else true
  }

  function SweepPhase(s: State, next: Id): Disposer
    requires Choosable(s, next)
  {
    if s.sessions != map[] then CleaningSession(next, s.sessions[next].tree)
    else if s.pendingCleanup != map[] then CleaningPending(next, s.pendingCleanup[next])
    else Returned
  }

  function Sweep(s: State, d: nat, next: Id): State
    requires Choosable(s, next)
  {
    var phase := SweepPhase(s, next);
    s.(disposers := s.disposers[d := phase],
       pendingCleanup := if phase.CleaningSession? then s.pendingCleanup[next := phase.tree] else s.pendingCleanup,
       taker := if phase.CleaningSession? then s.taker[phase.tree := ByDisposal] else s.taker)
  }

  function Wake(s: State, d: nat, next: Id): State
    requires Awake(s, d) && (s.disposers[d].AwaitReleases? ==> Choosable(s, next))
  {
    if s.disposers[d].AwaitReleases? then Sweep(s, d, next)
    else
      var further := if s.disposers[d].AwaitReservations? then PastReservations(s) else AwaitReleases(ReleasePromises(s));
      s.(disposers := s.disposers[d := further])
  }

  predicate IsCleaning(s: State, d: nat) {
    d in s.disposers && (s.disposers[d].CleaningSession? || s.disposers[d].CleaningPending?)
  }

  /** The bookkeeping after a disposer's cleanup succeeded. */
  function Cleaned(s: State, d: nat): State
    requires IsCleaning(s, d)
  {
    var work := s.disposers[d];
    s.(disposedTrees := s.disposedTrees + {work.tree},
       pendingCleanup := s.pendingCleanup - {work.id},
       sessions := if work.CleaningSession? then s.sessions - {work.id} else s.sessions,
       pendingSessionCleanup := if work.CleaningPending? then s.pendingSessionCleanup - {work.id} else s.pendingSessionCleanup)
  }

  function DisposerDone(s: State, d: nat, ok: bool, next: Id): State
    requires IsCleaning(s, d) && (ok ==> Choosable(Cleaned(s, d), next))
  {
    if ok then Sweep(Cleaned(s, d), d, next) else s.(disposers := s.disposers[d := Rejected])
  }

  // ---------- steps and runs ----------

  datatype Step =
    | ResolveCall(id: Id)
    | MaterializeDone(id: Id, ok: bool)
    | ProbeFailed(id: Id)
    | ProbeDone(id: Id, canonical: string)
    | DiscardDone(id: Id, ok: bool)
    | AnalyzeCall(id: Id, submitted: string)
    | AnalyzerReturned(id: Id)
    | FinishDone(id: Id, ok: bool)
    | ReleaseCall(id: Id, submitted: string)
    | ReleaseDone(id: Id, ok: bool)
    | DisposeCall(d: nat)
    | DisposerWoken(d: nat, next: Id)
    | DisposerCleaned(d: nat, ok: bool, next: Id)

  /** A tree that is already disposed cannot fail to be disposed. */
  predicate MayEnd(s: State, tree: Tree, ok: bool) {
    ok || tree !in s.disposedTrees
  }

  predicate Enabled(s: State, step: Step) {
    match step
    case ResolveCall(_) => true
    case MaterializeDone(id, _) => IsMaterializing(s, id)
    case ProbeFailed(id) => IsProbing(s, id)
    case ProbeDone(id, _) => IsProbing(s, id)
    case DiscardDone(id, ok) => IsDiscarding(s, id) && MayEnd(s, s.resolving[id].tree, ok)
    case AnalyzeCall(_, _) => true
    case AnalyzerReturned(id) => IsRunning(s, id)
    case FinishDone(id, ok) => IsFinishing(s, id) && MayEnd(s, s.analyzing[id].tree, ok)
    case ReleaseCall(_, _) => true
    case ReleaseDone(id, ok) => id in s.releasing && MayEnd(s, s.releasing[id].tree, ok)
    case DisposeCall(d) => d !in s.disposers
    case DisposerWoken(d, next) => Awake(s, d) && (s.disposers[d].AwaitReleases? ==> Choosable(s, next))
    case DisposerCleaned(d, ok, next) =>
      IsCleaning(s, d) && MayEnd(s, s.disposers[d].tree, ok) && (ok ==> Choosable(Cleaned(s, d), next))
  }

  function Next(s: State, step: Step): State
    requires Enabled(s, step)
  {
    match step
    case ResolveCall(id) => Resolve(s, id)
    case MaterializeDone(id, ok) => Materialize(s, id, ok)
    case ProbeFailed(id) => Discard(s, id)
    case ProbeDone(id, canonical) => Register(s, id, canonical)
    case DiscardDone(id, ok) => Discarded(s, id, ok)
    case AnalyzeCall(id, submitted) => Analyze(s, id, submitted)
    case AnalyzerReturned(id) => AnalyzerDone(s, id)
    case FinishDone(id, ok) => Finished(s, id, ok)
    case ReleaseCall(id, submitted) => Release(s, id, submitted)
    case ReleaseDone(id, ok) => Released(s, id, ok)
    case DisposeCall(d) => Dispose(s, d)
    case DisposerWoken(d, next) => Wake(s, d, next)
    case DisposerCleaned(d, ok, next) => DisposerDone(s, d, ok, next)
  }

  /** A run: every step enabled in the state the earlier ones reach. */
  ghost predicate IsRun(s: State, steps: seq<Step>)
    decreases |steps|
  {
    steps == [] || (Enabled(s, steps[0]) && IsRun(Next(s, steps[0]), steps[1..]))
  }

  ghost function After(s: State, steps: seq<Step>): State
    requires IsRun(s, steps)
    decreases |steps|
  {
    if steps == [] then s else After(Next(s, steps[0]), steps[1..])
  }
}
