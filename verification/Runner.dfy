/** The workflow executor: levels one after another, steps of a level in any interleaving. */
module Runner {
  import opened Wrappers
  import opened Ordering
  import opened Graphs
  import opened Dags

  datatype EvidenceItem = EvidenceItem(file: nat, excerpt: nat)

  datatype WorkflowEvidence = WorkflowEvidence(producedBy: Id, items: seq<EvidenceItem>, summary: nat)

  datatype Status = Succeeded | Failed | Skipped | TimedOut

  /** Times are left out. `error` is the message, `None` on success. */
  datatype Artifact = Artifact(stepId: Id, uses: nat, status: Status, inputDigest: nat,
                               evidence: Option<WorkflowEvidence>, error: Option<nat>)

  datatype Report = Report(evidence: seq<EvidenceItem>, summary: nat, skippedReason: Option<nat>)

  /** How awaiting a plugin can end. */
  datatype Outcome = Reported(report: Report) | Overran(message: nat) | Raised(message: nat)

  type Options = map<nat, nat>

  const EXECUTION_PROFILE := 0
  const STATIC_READONLY := 0
  const DEPENDENCY_MESSAGE := 0

  datatype Step = Step(id: Id, uses: nat, needs: seq<Id>, continueOnError: bool, options: Options)

  /**
   The plugins: which steps have none (with the resolver's message), and how a
   plugin answers given its merged options and the evidence passed to it.
   */
  datatype Plugins = Plugins(missing: Step -> Option<nat>, analyze: (Step, Options, seq<EvidenceItem>) -> Outcome)

  /** Everything a run depends on. */
  datatype Workflow = Workflow(dag: Dag, steps: map<Id, Step>, plugins: Plugins, contextOptions: Options,
                               inputDigest: nat, maxParallelism: nat)

  ghost predicate Valid(w: Workflow) {
    && ValidDag(w.dag)
    && w.steps.Keys == w.dag.nodes.Keys
    && (forall s | s in w.steps :: w.steps[s].id == s && w.steps[s].needs == w.dag.nodes[s].needs)
    && w.maxParallelism >= 1
  }

  ghost function Needs(w: Workflow): Graph {
    NeedsGraph(w.dag.nodes)
  }

  // ---------------------------------------------------------------- one step

  /** Step options, then the read-only profile, then the run's own options on top. */
  function StepOptions(step: Step, context: Options): (merged: Options)
    ensures EXECUTION_PROFILE in merged
    ensures merged[EXECUTION_PROFILE] ==
      if EXECUTION_PROFILE in context then context[EXECUTION_PROFILE] else STATIC_READONLY
  {
    step.options + map[EXECUTION_PROFILE := STATIC_READONLY] + context
  }

  function SkippedArtifact(w: Workflow, step: Step): Artifact {
    Artifact(step.id, step.uses, Skipped, w.inputDigest, None, Some(DEPENDENCY_MESSAGE))
  }

  function Finish(w: Workflow, step: Step, status: Status, report: Option<Report>, error: Option<nat>): Artifact {
    var evidence := if report.Some?
                    then Some(WorkflowEvidence(step.id, report.value.evidence, report.value.summary))
                    else None;
    Artifact(step.id, step.uses, status, w.inputDigest, evidence, error)
  }

  /** The artifact recorded once the plugin has answered. */
  function Settle(w: Workflow, step: Step, outcome: Outcome): Artifact {
    match outcome
    case Overran(message) => Finish(w, step, TimedOut, None, Some(message))
    case Raised(message) => Finish(w, step, Failed, None, Some(message))
    case Reported(report) =>
      if report.skippedReason.Some?
      then Finish(w, step, Skipped, Some(report), report.skippedReason)
      else Finish(w, step, Succeeded, Some(report), None)
  }

  /** What executing `step` on the given upstream evidence records. */
  function Execute(w: Workflow, step: Step, upstream: seq<EvidenceItem>): Artifact {
    var missing := w.plugins.missing(step);
    if missing.Some? then Finish(w, step, Failed, None, missing)
    else Settle(w, step, w.plugins.analyze(step, StepOptions(step, w.contextOptions), upstream))
  }

  function ItemsOf(artifacts: map<Id, Artifact>, s: Id): seq<EvidenceItem> {
    if s in artifacts && artifacts[s].evidence.Some? then artifacts[s].evidence.value.items else []
  }

  /** Evidence of the needed steps, concatenated in `needs` order, repeats included. */
  function Upstream(artifacts: map<Id, Artifact>, needs: seq<Id>): seq<EvidenceItem> {
    if needs == [] then []
    else Upstream(artifacts, needs[..|needs| - 1]) + ItemsOf(artifacts, needs[|needs| - 1])
  }

  /** The outcome stops everything downstream. */
  predicate Blocks(w: Workflow, a: Artifact) {
    a.status != Succeeded && (a.stepId in w.steps ==> !w.steps[a.stepId].continueOnError)
  }

  // ---------------------------------------------------------------- the transition system
  //
  // `Action`s are the points where the event loop can switch, `Apply` is the effect
  // of each, and a run is any list of actions each of which was enabled when taken.

  /**
   Where one step of the current level stands: waiting for the semaphore, holding
   it with the evidence it was started on, or returned.
   */
  datatype Progress = Waiting | InFlight(upstream: seq<EvidenceItem>) | Returned(artifact: Artifact)

  /** `open` while a level is being executed; `current` holds its runnable steps. */
  datatype State = State(level: nat, open: bool, artifacts: map<Id, Artifact>, blocked: set<Id>, current: map<Id, Progress>)

  const INITIAL := State(0, false, map[], {}, map[])

  datatype Action = BeginLevel | Start(id: Id) | Return(id: Id) | EndLevel

  /** The steps holding the semaphore. */
  function Holders(current: map<Id, Progress>): set<Id> {
    set id | id in current && current[id].InFlight?
  }

  predicate AllReturned(current: map<Id, Progress>) {
    forall id | id in current :: current[id].Returned?
  }

  ghost predicate Enabled(w: Workflow, s: State, a: Action) {
    match a
    case BeginLevel => !s.open && s.level < |w.dag.levels|
    case Start(id) =>
      s.open && id in s.current && s.current[id].Waiting? && id in w.steps && |Holders(s.current)| < w.maxParallelism
    case Return(id) => s.open && id in s.current && s.current[id].InFlight? && id in w.steps
    case EndLevel => s.open && AllReturned(s.current)
  }

  /** Blocked steps of the level are recorded as skipped, the others start waiting. */
  ghost function Began(w: Workflow, s: State): State
    requires Enabled(w, s, BeginLevel)
  {
    var level := w.dag.levels[s.level];
    s.(open := true,
       artifacts := s.artifacts + SkippedIn(w, level, s.blocked),
       current := WaitingIn(level, s.blocked))
  }

  ghost function SkippedIn(w: Workflow, ids: seq<Id>, blocked: set<Id>): map<Id, Artifact> {
    map id | id in ids && id in blocked && id in w.steps :: SkippedArtifact(w, w.steps[id])
  }

  ghost function WaitingIn(ids: seq<Id>, blocked: set<Id>): map<Id, Progress> {
    map id | id in ids && id !in blocked :: Waiting
  }

  /** Resolving and starting a step: without a plugin it returns at once. */
  function StartOf(w: Workflow, artifacts: map<Id, Artifact>, step: Step): Progress {
    var missing := w.plugins.missing(step);
    if missing.Some? then Returned(Finish(w, step, Failed, None, missing))
    else InFlight(Upstream(artifacts, step.needs))
  }

  function ReturnOf(w: Workflow, step: Step, upstream: seq<EvidenceItem>): Progress {
    Returned(Settle(w, step, w.plugins.analyze(step, StepOptions(step, w.contextOptions), upstream)))
  }

  ghost function Results(current: map<Id, Progress>): map<Id, Artifact> {
    map id | id in current && current[id].Returned? :: current[id].artifact
  }

  /** Everything downstream of a blocking result. */
  ghost function NewlyBlocked(w: Workflow, results: map<Id, Artifact>): set<Id> {
    set s | s in w.dag.nodes && exists t :: t in results && Blocks(w, results[t]) && Reaches(Needs(w), s, t)
  }

  ghost function Ended(w: Workflow, s: State): State {
    var results := Results(s.current);
    State(s.level + 1, false, s.artifacts + results, s.blocked + NewlyBlocked(w, results), map[])
  }

  ghost function Apply(w: Workflow, s: State, a: Action): State
    requires Enabled(w, s, a)
  {
    match a
    case BeginLevel => Began(w, s)
    case Start(id) => s.(current := s.current[id := StartOf(w, s.artifacts, w.steps[id])])
    case Return(id) => s.(current := s.current[id := ReturnOf(w, w.steps[id], s.current[id].upstream)])
    case EndLevel => Ended(w, s)
  }

  ghost predicate Feasible(w: Workflow, run: seq<Action>)
    decreases |run|, 0
  {
    run == [] || (Feasible(w, run[..|run| - 1]) && Enabled(w, After(w, run[..|run| - 1]), run[|run| - 1]))
  }

  /** The state a run leads to. */
  ghost function After(w: Workflow, run: seq<Action>): State
    requires Feasible(w, run)
    decreases |run|, 1
  {
    if run == [] then INITIAL else Apply(w, After(w, run[..|run| - 1]), run[|run| - 1])
  }

  ghost predicate Terminal(w: Workflow, s: State) {
    !s.open && s.level == |w.dag.levels|
  }

  // ---------------------------------------------------------------- the specification

  /**
   The equations a finished run must satisfy: a step is blocked exactly when some
   direct need is blocked or failed without `continueOnError`; a blocked step is
   recorded as skipped; any other step is executed on its needs' evidence.
   */
  ghost predicate IsOutcome(w: Workflow, artifacts: map<Id, Artifact>, blocked: set<Id>) {
    && artifacts.Keys == w.dag.nodes.Keys == w.steps.Keys
    && blocked <= w.dag.nodes.Keys
    && (forall s {:trigger BlockedByNeed(w, artifacts, blocked, s)} | s in w.steps ::
          s in blocked <==> BlockedByNeed(w, artifacts, blocked, s))
    && (forall s | s in w.steps :: artifacts[s] == Prescribed(w, artifacts, blocked, s))
  }

  ghost predicate StopsDependents(w: Workflow, artifacts: map<Id, Artifact>, blocked: set<Id>, n: Id) {
    n in blocked || (n in artifacts && Blocks(w, artifacts[n]))
  }

  ghost predicate BlockedByNeed(w: Workflow, artifacts: map<Id, Artifact>, blocked: set<Id>, s: Id) {
    s in w.steps && exists n :: n in w.steps[s].needs && StopsDependents(w, artifacts, blocked, n)
  }

  ghost function Prescribed(w: Workflow, artifacts: map<Id, Artifact>, blocked: set<Id>, s: Id): Artifact
    requires s in w.steps
  {
    if s in blocked then SkippedArtifact(w, w.steps[s])
    else Execute(w, w.steps[s], Upstream(artifacts, w.steps[s].needs))
  }

  /** A transitive dependency of `s` was executed, did not succeed, and lacks `continueOnError`. */
  ghost predicate FailedUpstream(w: Workflow, artifacts: map<Id, Artifact>, blocked: set<Id>, s: Id) {
    exists t :: t in artifacts && t !in blocked && Blocks(w, artifacts[t]) && Reaches(Needs(w), s, t)
  }

  // ---------------------------------------------------------------- levels and reachability

  lemma EdgeLowersLevel(w: Workflow, s: Id, n: Id, j: nat, k: nat)
    requires Valid(w) && Edge(Needs(w), s, n) && AtLevel(w.dag, s, k) && AtLevel(w.dag, n, j)
    ensures j < k
  {
    var i := NeedsComeEarlier(w.dag, s, k, n);
    LevelsPartitionSteps(w.dag, n);
  }

  lemma {:induction false} WalkLowersLevel(w: Workflow, p: seq<Id>, j: nat, k: nat)
    requires Valid(w) && IsWalk(Needs(w), p) && |p| >= 2
    requires AtLevel(w.dag, p[0], k) && AtLevel(w.dag, p[|p| - 1], j)
    ensures j < k
  {
    assert Edge(Needs(w), p[0], p[1]);
    if |p| == 2 {
      EdgeLowersLevel(w, p[0], p[1], j, k);
    } else {
      var i := NeedsComeEarlier(w.dag, p[0], k, p[1]);
      TailIsWalk(Needs(w), p);
      WalkLowersLevel(w, p[1..], j, i);
    }
  }

  /** A step reached from another lies in a strictly earlier level. */
  lemma ReachesLowersLevel(w: Workflow, s: Id, t: Id, j: nat, k: nat)
    requires Valid(w) && Reaches(Needs(w), s, t) && AtLevel(w.dag, s, k) && AtLevel(w.dag, t, j)
    ensures j < k
  {
    var p :| WalkBetween(Needs(w), p, s, t) && |p| >= 2;
    WalkLowersLevel(w, p, j, k);
  }

  /** The steps of the first `k` levels. */
  ghost function Done(w: Workflow, k: nat): set<Id> {
    set s | s in w.dag.nodes && exists j: nat :: j < k && AtLevel(w.dag, s, j)
  }

  lemma LevelIsFresh(w: Workflow, k: nat, s: Id)
    requires Valid(w) && k < |w.dag.levels| && s in w.dag.levels[k]
    ensures s in w.dag.nodes && s !in Done(w, k) && s in Done(w, k + 1)
  {
    assert AtLevel(w.dag, s, k);
    LevelsPartitionSteps(w.dag, s);
  }

  lemma DoneSplits(w: Workflow, k: nat, s: Id)
    requires s in Done(w, k + 1)
    ensures s in Done(w, k) || (k < |w.dag.levels| && s in w.dag.levels[k])
  {
    var j: nat :| j < k + 1 && AtLevel(w.dag, s, j);
    if j < k { assert s in Done(w, k); }
  }

  lemma DoneStep(w: Workflow, k: nat)
    requires Valid(w) && k < |w.dag.levels|
    ensures Done(w, k + 1) == Done(w, k) + Elements(w.dag.levels[k])
    ensures Done(w, k) !! Elements(w.dag.levels[k])
    ensures Elements(w.dag.levels[k]) <= w.dag.nodes.Keys
  {
    forall s ensures s in Done(w, k + 1) <==> s in Done(w, k) || s in w.dag.levels[k] {
      if s in w.dag.levels[k] { LevelIsFresh(w, k, s); }
      if s in Done(w, k + 1) { DoneSplits(w, k, s); }
    }
    forall s | s in w.dag.levels[k] ensures s in w.dag.nodes && s !in Done(w, k) { LevelIsFresh(w, k, s); }
  }

  lemma DoneAll(w: Workflow)
    requires Valid(w)
    ensures Done(w, |w.dag.levels|) == w.dag.nodes.Keys
  {
    forall s | s in w.dag.nodes ensures s in Done(w, |w.dag.levels|) {
      var k := ScheduledSomewhere(w.dag, s);
    }
  }

  /** All needs of a step in level `k` belong to earlier levels. */
  lemma NeedsAreDone(w: Workflow, s: Id, k: nat)
    requires Valid(w) && AtLevel(w.dag, s, k) && s in w.dag.nodes
    ensures forall n | n in w.steps[s].needs :: n in Done(w, k)
  {
    forall n | n in w.steps[s].needs ensures n in Done(w, k) {
      var j := NeedsComeEarlier(w.dag, s, k, n);
      LevelsPartitionSteps(w.dag, n);
    }
  }

  // ---------------------------------------------------------------- the invariant

  /** Where every step of the finished and the current levels is kept. */
  ghost predicate Placed(w: Workflow, s: State) {
    && s.level <= |w.dag.levels|
    && s.blocked <= w.dag.nodes.Keys
    && if !s.open then
         s.artifacts.Keys == Done(w, s.level) && s.current == map[]
       else
         && s.level < |w.dag.levels|
         && s.artifacts.Keys == Done(w, s.level) + Elements(w.dag.levels[s.level]) * s.blocked
         && s.current.Keys == Elements(w.dag.levels[s.level]) - s.blocked
  }

  /** At most `maxParallelism` steps hold the semaphore. */
  ghost predicate Bounded(w: Workflow, s: State) {
    |Holders(s.current)| <= w.maxParallelism
  }

  /** Every recorded artifact is the prescribed one, on evidence that was already there. */
  ghost predicate Recorded(w: Workflow, artifacts: map<Id, Artifact>, blocked: set<Id>) {
    forall s | s in artifacts ::
      && s in w.steps
      && (forall n | n in w.steps[s].needs :: n in artifacts)
      && artifacts[s] == Prescribed(w, artifacts, blocked, s)
  }

  /** The blocked steps are exactly those downstream of a recorded blocking failure. */
  ghost predicate BlockedExactly(w: Workflow, artifacts: map<Id, Artifact>, blocked: set<Id>) {
    forall s {:trigger FailedUpstream(w, artifacts, blocked, s)} | s in w.dag.nodes ::
      s in blocked <==> FailedUpstream(w, artifacts, blocked, s)
  }

  /** A step in flight holds its needs' evidence; a returned one what executing on it gives. */
  ghost predicate RightlyAt(w: Workflow, artifacts: map<Id, Artifact>, id: Id, p: Progress) {
    && id in w.steps
    && (forall n | n in w.steps[id].needs :: n in artifacts)
    && match p
       case Waiting => true
       case InFlight(upstream) =>
         w.plugins.missing(w.steps[id]).None? && upstream == Upstream(artifacts, w.steps[id].needs)
       case Returned(artifact) =>
         artifact == Execute(w, w.steps[id], Upstream(artifacts, w.steps[id].needs))
  }

  ghost predicate RightlyRunning(w: Workflow, s: State) {
    forall id | id in s.current :: RightlyAt(w, s.artifacts, id, s.current[id])
  }

  ghost predicate Invariant(w: Workflow, s: State) {
    && Placed(w, s)
    && Bounded(w, s)
    && Recorded(w, s.artifacts, s.blocked)
    && BlockedExactly(w, s.artifacts, s.blocked)
    && RightlyRunning(w, s)
  }

  /** `Upstream` only looks at the artifacts of the listed needs. */
  lemma {:induction false} UpstreamFrame(a: map<Id, Artifact>, b: map<Id, Artifact>, needs: seq<Id>)
    requires forall n | n in needs :: n in a && n in b && a[n] == b[n]
    ensures Upstream(a, needs) == Upstream(b, needs)
  {
    if needs != [] {
      assert forall n | n in needs[..|needs| - 1] :: n in needs;
      UpstreamFrame(a, b, needs[..|needs| - 1]);
      assert needs[|needs| - 1] in needs;
    }
  }

  lemma ExecuteStampsId(w: Workflow, step: Step, upstream: seq<EvidenceItem>)
    ensures Execute(w, step, upstream).stepId == step.id
  {
  }

  /** Adding prescribed artifacts and blocking only unrecorded steps keeps the record right. */
  lemma RecordedGrows(w: Workflow, a: map<Id, Artifact>, b: map<Id, Artifact>, blocked: set<Id>, blocked': set<Id>)
    requires Recorded(w, a, blocked)
    requires a.Keys <= b.Keys && forall s | s in a :: b[s] == a[s]
    requires forall s | s in b :: s in blocked <==> s in blocked'
    requires forall s | s in b && s !in a ::
      s in w.steps && (forall n | n in w.steps[s].needs :: n in a) && b[s] == Prescribed(w, a, blocked, s)
    ensures Recorded(w, b, blocked')
  {
    forall s | s in b
      ensures s in w.steps && (forall n | n in w.steps[s].needs :: n in b) && b[s] == Prescribed(w, b, blocked', s)
    {
      UpstreamFrame(a, b, w.steps[s].needs);
    }
  }

  // ---------------------------------------------------------------- every action keeps it

  lemma BeginKeepsInvariant(w: Workflow, s: State)
    requires Valid(w) && Invariant(w, s) && Enabled(w, s, BeginLevel)
    ensures Invariant(w, Began(w, s))
  {
    var t := Began(w, s);
    DoneStep(w, s.level);
    BeginPlaces(w, s);
    NeedsAreRecorded(w, s);
    BeginRecords(w, s, t);
    SkippedDoNotBlock(w, s.artifacts, t.artifacts, s.blocked);
    assert Holders(t.current) == {};
  }

  lemma NeedsAreRecorded(w: Workflow, s: State)
    requires Valid(w) && Placed(w, s) && Enabled(w, s, BeginLevel)
    ensures forall id, n | id in w.dag.levels[s.level] && id in w.steps && n in w.steps[id].needs :: n in s.artifacts
  {
    forall id, n | id in w.dag.levels[s.level] && id in w.steps && n in w.steps[id].needs ensures n in s.artifacts {
      NeedsAreDone(w, id, s.level);
    }
  }

  lemma BeginRecords(w: Workflow, s: State, t: State)
    requires Recorded(w, s.artifacts, s.blocked) && s.level < |w.dag.levels|
    requires forall id, n | id in w.dag.levels[s.level] && id in w.steps && n in w.steps[id].needs :: n in s.artifacts
    requires s.artifacts.Keys <= t.artifacts.Keys && forall id | id in s.artifacts :: t.artifacts[id] == s.artifacts[id]
    requires forall id | id in t.artifacts && id !in s.artifacts ::
      && id in s.blocked && id in w.dag.levels[s.level] && id in w.steps
      && t.artifacts[id] == SkippedArtifact(w, w.steps[id])
    ensures Recorded(w, t.artifacts, s.blocked)
  {
    RecordedGrows(w, s.artifacts, t.artifacts, s.blocked, s.blocked);
  }

  lemma BeginPlaces(w: Workflow, s: State)
    requires w.steps.Keys == w.dag.nodes.Keys
    requires Placed(w, s) && Enabled(w, s, BeginLevel)
    requires Elements(w.dag.levels[s.level]) <= w.dag.nodes.Keys
    requires Elements(w.dag.levels[s.level]) !! Done(w, s.level)
    ensures Placed(w, Began(w, s))
    ensures forall id | id in s.artifacts :: id in Began(w, s).artifacts && Began(w, s).artifacts[id] == s.artifacts[id]
    ensures forall id | id in Began(w, s).artifacts && id !in s.artifacts ::
      && id in s.blocked && id in w.dag.levels[s.level] && id in w.steps
      && Began(w, s).artifacts[id] == SkippedArtifact(w, w.steps[id])
    ensures forall id | id in Began(w, s).current :: id in w.dag.levels[s.level] && Began(w, s).current[id].Waiting?
  {
    var level := Elements(w.dag.levels[s.level]);
    assert Began(w, s).artifacts.Keys == s.artifacts.Keys + level * s.blocked;
    assert Began(w, s).current.Keys == level - s.blocked;
  }

  /** Artifacts of blocked steps never block anything further. */
  lemma SkippedDoNotBlock(w: Workflow, a: map<Id, Artifact>, b: map<Id, Artifact>, blocked: set<Id>)
    requires BlockedExactly(w, a, blocked)
    requires a.Keys <= b.Keys && forall s | s in a :: b[s] == a[s]
    requires forall s | s in b && s !in a :: s in blocked
    ensures BlockedExactly(w, b, blocked)
  {
    forall s ensures FailedUpstream(w, a, blocked, s) <==> FailedUpstream(w, b, blocked, s) {
      if FailedUpstream(w, a, blocked, s) {
        var t :| t in a && t !in blocked && Blocks(w, a[t]) && Reaches(Needs(w), s, t);
        assert t in b && Blocks(w, b[t]);
      }
      if FailedUpstream(w, b, blocked, s) {
        var t :| t in b && t !in blocked && Blocks(w, b[t]) && Reaches(Needs(w), s, t);
        assert t in a && Blocks(w, a[t]);
      }
    }
  }

  lemma StartKeepsInvariant(w: Workflow, s: State, id: Id)
    requires Invariant(w, s) && Enabled(w, s, Start(id))
    ensures Invariant(w, Apply(w, s, Start(id)))
  {
    var t := Apply(w, s, Start(id));
    var p := StartOf(w, s.artifacts, w.steps[id]);
    assert RightlyAt(w, s.artifacts, id, s.current[id]);
    assert RightlyAt(w, s.artifacts, id, p);
    HoldersStep(s.current, id, p);
    assert t.current.Keys == s.current.Keys;
  }

  lemma ReturnKeepsInvariant(w: Workflow, s: State, id: Id)
    requires Invariant(w, s) && Enabled(w, s, Return(id))
    ensures Invariant(w, Apply(w, s, Return(id)))
  {
    var t := Apply(w, s, Return(id));
    var p := ReturnOf(w, w.steps[id], s.current[id].upstream);
    assert RightlyAt(w, s.artifacts, id, s.current[id]);
    assert RightlyAt(w, s.artifacts, id, p);
    HoldersStep(s.current, id, p);
    assert t.current.Keys == s.current.Keys;
  }

  /** How one step's change of progress changes the set of semaphore holders. */
  lemma HoldersStep(current: map<Id, Progress>, id: Id, p: Progress)
    requires id in current
    ensures Holders(current[id := p]) ==
      if p.InFlight? then Holders(current) + {id} else Holders(current) - {id}
    ensures |Holders(current[id := p])| <= |Holders(current)| + if p.InFlight? then 1 else 0
    ensures !current[id].InFlight? && p.InFlight? ==> |Holders(current[id := p])| == |Holders(current)| + 1
    ensures current[id].InFlight? && !p.InFlight? ==> |Holders(current[id := p])| == |Holders(current)| - 1
    ensures !current[id].InFlight? && !p.InFlight? ==> |Holders(current[id := p])| == |Holders(current)|
  {
    if p.InFlight? {
      assert Holders(current[id := p]) == Holders(current) + {id};
    } else {
      assert Holders(current[id := p]) == Holders(current) - {id};
      SubsetSize(Holders(current) - {id}, Holders(current));
      if !current[id].InFlight? { assert Holders(current) - {id} == Holders(current); }
    }
  }

  /** Failures of the current level only block steps of later levels. */
  lemma NewlyBlockedIsLater(w: Workflow, k: nat, results: map<Id, Artifact>, s: Id)
    requires Valid(w) && k < |w.dag.levels|
    requires forall t | t in results :: t in w.dag.levels[k]
    ensures s in NewlyBlocked(w, results) ==> s !in Done(w, k + 1)
  {
    if s in NewlyBlocked(w, results) && s in Done(w, k + 1) {
      var t :| t in results && Blocks(w, results[t]) && Reaches(Needs(w), s, t);
      var j: nat :| j < k + 1 && AtLevel(w.dag, s, j);
      assert AtLevel(w.dag, t, k);
      ReachesLowersLevel(w, s, t, k, j);
    }
  }

  lemma EndPlaces(w: Workflow, s: State)
    requires Placed(w, s) && Enabled(w, s, EndLevel)
    requires Done(w, s.level + 1) == Done(w, s.level) + Elements(w.dag.levels[s.level])
    requires Done(w, s.level) !! Elements(w.dag.levels[s.level])
    ensures Placed(w, Ended(w, s))
    ensures Results(s.current).Keys == s.current.Keys == Elements(w.dag.levels[s.level]) - s.blocked
    ensures s.artifacts.Keys !! s.current.Keys
  {
    var level := Elements(w.dag.levels[s.level]);
    assert Results(s.current).Keys == s.current.Keys;
    assert (s.artifacts + Results(s.current)).Keys == s.artifacts.Keys + s.current.Keys;
    assert level == level * s.blocked + (level - s.blocked);
    assert NewlyBlocked(w, Results(s.current)) <= w.dag.nodes.Keys;
  }

  lemma EndKeepsInvariant(w: Workflow, s: State)
    requires Valid(w) && Invariant(w, s) && Enabled(w, s, EndLevel)
    ensures Invariant(w, Ended(w, s))
  {
    var t, results := Ended(w, s), Results(s.current);
    DoneStep(w, s.level);
    EndPlaces(w, s);
    forall id | id in results ensures id in w.dag.levels[s.level] && id !in s.blocked && id !in s.artifacts {
      assert id in Elements(w.dag.levels[s.level]);
    }
    forall id | id in t.artifacts ensures id in t.blocked <==> id in s.blocked {
      NewlyBlockedIsLater(w, s.level, results, id);
    }
    EndRecords(w, s, results, t.blocked);
    EndBlocksExactly(w, s.artifacts, results, s.blocked);
    assert Holders(t.current) == {};
  }

  lemma EndRecords(w: Workflow, s: State, results: map<Id, Artifact>, blocked': set<Id>)
    requires Recorded(w, s.artifacts, s.blocked) && RightlyRunning(w, s)
    requires results == Results(s.current)
    requires forall id | id in results :: id !in s.blocked && id !in s.artifacts
    requires forall id | id in s.artifacts + results :: id in blocked' <==> id in s.blocked
    ensures Recorded(w, s.artifacts + results, blocked')
  {
    forall id | id in results
      ensures id in w.steps && (forall n | n in w.steps[id].needs :: n in s.artifacts)
      ensures results[id] == Prescribed(w, s.artifacts, s.blocked, id)
    {
      assert RightlyAt(w, s.artifacts, id, s.current[id]);
    }
    RecordedGrows(w, s.artifacts, s.artifacts + results, s.blocked, blocked');
  }

  lemma EndBlocksExactly(w: Workflow, a: map<Id, Artifact>, results: map<Id, Artifact>, blocked: set<Id>)
    requires BlockedExactly(w, a, blocked) && blocked <= w.dag.nodes.Keys
    requires a.Keys !! results.Keys && forall id | id in results :: id !in blocked
    requires forall id | id in a + results :: id !in NewlyBlocked(w, results) || id in blocked
    ensures BlockedExactly(w, a + results, blocked + NewlyBlocked(w, results))
  {
    forall x | x in w.dag.nodes
      ensures x in blocked + NewlyBlocked(w, results) <==>
              FailedUpstream(w, a + results, blocked + NewlyBlocked(w, results), x)
    {
      if x in blocked + NewlyBlocked(w, results) {
        BlockedHasFailure(w, a, results, blocked, x);
      }
      if FailedUpstream(w, a + results, blocked + NewlyBlocked(w, results), x) {
        FailureBlocks(w, a, results, blocked, x);
      }
    }
  }

  lemma BlockedHasFailure(w: Workflow, a: map<Id, Artifact>, results: map<Id, Artifact>, blocked: set<Id>, x: Id)
    requires BlockedExactly(w, a, blocked) && x in w.dag.nodes
    requires a.Keys !! results.Keys && forall id | id in results :: id !in blocked
    requires forall id | id in a + results :: id !in NewlyBlocked(w, results) || id in blocked
    requires x in blocked || x in NewlyBlocked(w, results)
    ensures FailedUpstream(w, a + results, blocked + NewlyBlocked(w, results), x)
  {
    var b := a + results;
    if x in blocked {
      assert FailedUpstream(w, a, blocked, x);
      var t :| t in a && t !in blocked && Blocks(w, a[t]) && Reaches(Needs(w), x, t);
      assert t in b && b[t] == a[t];
    } else {
      var t :| t in results && Blocks(w, results[t]) && Reaches(Needs(w), x, t);
      assert t in b && b[t] == results[t];
    }
  }

  lemma FailureBlocks(w: Workflow, a: map<Id, Artifact>, results: map<Id, Artifact>, blocked: set<Id>, x: Id)
    requires BlockedExactly(w, a, blocked) && x in w.dag.nodes
    requires FailedUpstream(w, a + results, blocked + NewlyBlocked(w, results), x)
    ensures x in blocked || x in NewlyBlocked(w, results)
  {
    var b := a + results;
    var t :| t in b && t !in blocked + NewlyBlocked(w, results) && Blocks(w, b[t]) && Reaches(Needs(w), x, t);
    if t in results {
      assert b[t] == results[t];
    } else {
      assert b[t] == a[t];
      assert FailedUpstream(w, a, blocked, x);
    }
  }

  lemma StartsInvariant(w: Workflow)
    requires Valid(w)
    ensures Invariant(w, INITIAL)
  {
    assert Done(w, 0) == {};
    assert Holders(INITIAL.current) == {};
  }

  /** Every state of every run satisfies the invariant. */
  lemma {:induction false} ReachableInvariant(w: Workflow, run: seq<Action>)
    requires Valid(w) && Feasible(w, run)
    ensures Invariant(w, After(w, run))
  {
    if run == [] {
      StartsInvariant(w);
    } else {
      var front := run[..|run| - 1];
      ReachableInvariant(w, front);
      var s := After(w, front);
      match run[|run| - 1]
      case BeginLevel => BeginKeepsInvariant(w, s);
      case Start(id) => StartKeepsInvariant(w, s, id);
      case Return(id) => ReturnKeepsInvariant(w, s, id);
      case EndLevel => EndKeepsInvariant(w, s);
    }
  }

  // ---------------------------------------------------------------- what runs guarantee

  /** A finished run satisfies the specification, whatever the interleaving. */
  lemma FinishedRunIsOutcome(w: Workflow, run: seq<Action>)
    requires Valid(w) && Feasible(w, run) && Terminal(w, After(w, run))
    ensures IsOutcome(w, After(w, run).artifacts, After(w, run).blocked)
  {
    var s := After(w, run);
    ReachableInvariant(w, run);
    DoneAll(w);
    forall x | x in w.steps ensures x in s.blocked <==> BlockedByNeed(w, s.artifacts, s.blocked, x) {
      BlockingIsLocal(w, s.artifacts, s.blocked, x);
    }
  }

  /** Downstream of a failure: the transitive and the one-step definitions agree. */
  lemma BlockingIsLocal(w: Workflow, artifacts: map<Id, Artifact>, blocked: set<Id>, x: Id)
    requires Valid(w) && artifacts.Keys == w.dag.nodes.Keys && blocked <= w.dag.nodes.Keys && x in w.steps
    requires BlockedExactly(w, artifacts, blocked)
    ensures x in blocked <==> BlockedByNeed(w, artifacts, blocked, x)
  {
    var g := Needs(w);
    if x in blocked {
      assert FailedUpstream(w, artifacts, blocked, x);
      var t :| t in artifacts && t !in blocked && Blocks(w, artifacts[t]) && Reaches(g, x, t);
      var n := FirstEdge(g, x, t);
      assert n in w.steps[x].needs;
      assert GoodReference(w.dag.nodes, x, n);
      assert n != t ==> FailedUpstream(w, artifacts, blocked, n);
      assert StopsDependents(w, artifacts, blocked, n);
    }
    if BlockedByNeed(w, artifacts, blocked, x) {
      var n :| n in w.steps[x].needs && StopsDependents(w, artifacts, blocked, n);
      assert Edge(g, x, n) && GoodReference(w.dag.nodes, x, n);
      EdgeReaches(g, x, n);
      if n in blocked {
        assert FailedUpstream(w, artifacts, blocked, n);
        var t :| t in artifacts && t !in blocked && Blocks(w, artifacts[t]) && Reaches(g, n, t);
        ReachesIsTransitive(g, x, n, t);
      }
      assert FailedUpstream(w, artifacts, blocked, x);
    }
  }

  /**
   Failure propagation is exact in every finished run: a step is skipped by the
   runner exactly when a transitive dependency was executed, did not succeed and
   lacks `continueOnError`; every other step holds what executing it gives.
   */
  lemma SkippedIffFailedUpstream(w: Workflow, run: seq<Action>, x: Id)
    requires Valid(w) && Feasible(w, run) && Terminal(w, After(w, run)) && x in w.steps
    ensures var s := After(w, run);
      && s.artifacts.Keys == w.steps.Keys
      && (x in s.blocked <==> FailedUpstream(w, s.artifacts, s.blocked, x))
      && s.artifacts[x] == if FailedUpstream(w, s.artifacts, s.blocked, x)
                           then SkippedArtifact(w, w.steps[x])
                           else Execute(w, w.steps[x], Upstream(s.artifacts, w.steps[x].needs))
  {
    ReachableInvariant(w, run);
    DoneAll(w);
    assert x in After(w, run).artifacts;
  }

  /** The equations have one solution, so it is a function of the workflow alone. */
  lemma {:induction false} OutcomesAgree(w: Workflow, a: map<Id, Artifact>, blocked: set<Id>,
                                         a': map<Id, Artifact>, blocked': set<Id>, k: nat, s: Id)
    requires Valid(w) && IsOutcome(w, a, blocked) && IsOutcome(w, a', blocked')
    requires AtLevel(w.dag, s, k) && s in w.steps
    ensures a[s] == a'[s] && (s in blocked <==> s in blocked')
    decreases k
  {
    var needs := w.steps[s].needs;
    forall n | n in needs ensures n in w.steps && a[n] == a'[n] && (n in blocked <==> n in blocked') {
      var j := NeedsComeEarlier(w.dag, s, k, n);
      assert GoodReference(w.dag.nodes, s, n);
      OutcomesAgree(w, a, blocked, a', blocked', j, n);
    }
    SameNeedsSameOutcome(w, a, blocked, a', blocked', s);
  }

  lemma SameNeedsSameOutcome(w: Workflow, a: map<Id, Artifact>, blocked: set<Id>,
                             a': map<Id, Artifact>, blocked': set<Id>, s: Id)
    requires IsOutcome(w, a, blocked) && IsOutcome(w, a', blocked') && s in w.steps
    requires forall n | n in w.steps[s].needs ::
      n in w.steps && a[n] == a'[n] && (n in blocked <==> n in blocked')
    ensures a[s] == a'[s] && (s in blocked <==> s in blocked')
  {
    UpstreamFrame(a, a', w.steps[s].needs);
    assert forall n | n in w.steps[s].needs ::
      StopsDependents(w, a, blocked, n) <==> StopsDependents(w, a', blocked', n);
    assert BlockedByNeed(w, a, blocked, s) <==> BlockedByNeed(w, a', blocked', s);
  }

  /**
   Confluence: any two finished runs of the same workflow, under any two
   parallelism limits, record the same artifacts and block the same steps.
   */
  lemma RunsAreConfluent(w: Workflow, limit: nat, run: seq<Action>, run': seq<Action>)
    requires Valid(w) && limit >= 1
    requires Feasible(w, run) && Terminal(w, After(w, run))
    requires Feasible(w.(maxParallelism := limit), run')
    requires Terminal(w.(maxParallelism := limit), After(w.(maxParallelism := limit), run'))
    ensures After(w, run) == After(w.(maxParallelism := limit), run')
  {
    var v := w.(maxParallelism := limit);
    var s, t := After(w, run), After(v, run');
    FinishedRunIsOutcome(w, run);
    FinishedRunIsOutcome(v, run');
    OutcomeIgnoresLimit(w, limit, t.artifacts, t.blocked);
    forall x | x in w.steps ensures s.artifacts[x] == t.artifacts[x] && (x in s.blocked <==> x in t.blocked) {
      var k := ScheduledSomewhere(w.dag, x);
      OutcomesAgree(w, s.artifacts, s.blocked, t.artifacts, t.blocked, k, x);
    }
    assert s.blocked == t.blocked;
    assert s.artifacts == t.artifacts;
    ReachableInvariant(w, run);
    ReachableInvariant(v, run');
  }

  lemma OutcomeIgnoresLimit(w: Workflow, limit: nat, artifacts: map<Id, Artifact>, blocked: set<Id>)
    requires IsOutcome(w.(maxParallelism := limit), artifacts, blocked)
    ensures IsOutcome(w, artifacts, blocked)
  {
    var v := w.(maxParallelism := limit);
    forall s | s in w.steps ensures BlockedByNeed(v, artifacts, blocked, s) <==> BlockedByNeed(w, artifacts, blocked, s) {
      assert forall n :: StopsDependents(v, artifacts, blocked, n) <==> StopsDependents(w, artifacts, blocked, n);
    }
    forall s | s in w.steps ensures artifacts[s] == Prescribed(w, artifacts, blocked, s) {
      PrescribedIgnoresLimit(w, limit, artifacts, blocked, s);
    }
  }

  lemma PrescribedIgnoresLimit(w: Workflow, limit: nat, artifacts: map<Id, Artifact>, blocked: set<Id>, s: Id)
    requires s in w.steps
    ensures Prescribed(w.(maxParallelism := limit), artifacts, blocked, s) == Prescribed(w, artifacts, blocked, s)
  {
  }

  /** At every point of every run the semaphore is respected and started steps hold all their evidence. */
  lemma RunsAreBoundedAndInformed(w: Workflow, run: seq<Action>, id: Id)
    requires Valid(w) && Feasible(w, run)
    ensures var s := After(w, run);
      |set x | x in s.current && s.current[x].InFlight?| <= w.maxParallelism
    ensures var s := After(w, run);
      id in s.current && s.current[id].InFlight? ==>
        && id in w.steps
        && (forall n | n in w.steps[id].needs :: n in s.artifacts)
        && s.current[id].upstream == Upstream(s.artifacts, w.steps[id].needs)
  {
    ReachableInvariant(w, run);
    var s := After(w, run);
    if id in s.current { assert RightlyAt(w, s.artifacts, id, s.current[id]); }
  }

  /** No run gets stuck: until the last level has ended, some action is enabled. */
  lemma RunsNeverStall(w: Workflow, run: seq<Action>)
    requires Valid(w) && Feasible(w, run)
    ensures Terminal(w, After(w, run)) <==> !exists a :: Enabled(w, After(w, run), a)
  {
    ReachableInvariant(w, run);
    var s := After(w, run);
    if !s.open {
      assert s.level < |w.dag.levels| ==> Enabled(w, s, BeginLevel);
    } else if AllReturned(s.current) {
      assert Enabled(w, s, EndLevel);
    } else {
      var id := SomeoneCanMove(w, s);
    }
  }

  /** In an unfinished level some step can start or return. */
  lemma SomeoneCanMove(w: Workflow, s: State) returns (id: Id)
    requires RightlyRunning(w, s) && s.open && !AllReturned(s.current) && w.maxParallelism >= 1
    ensures id in s.current && (Enabled(w, s, Start(id)) || Enabled(w, s, Return(id)))
  {
    if Holders(s.current) != {} {
      id :| id in Holders(s.current);
    } else {
      id :| id in s.current && !s.current[id].Returned?;
      assert id !in Holders(s.current);
    }
    assert RightlyAt(w, s.artifacts, id, s.current[id]);
  }

  // ---------------------------------------------------------------- runs are finite

  ghost function Arrived(current: map<Id, Progress>): set<Id> {
    set id | id in current && current[id].Returned?
  }

  /** Work done so far: two units per finished step, one per step in flight, two per level. */
  ghost function Spent(s: State): nat {
    2 * s.level + (if s.open then 1 else 0) + 2 * |s.artifacts.Keys| + 2 * |Arrived(s.current)| + |Holders(s.current)|
  }

  lemma ArrivedStep(current: map<Id, Progress>, id: Id, p: Progress)
    requires id in current && !current[id].Returned?
    ensures |Arrived(current[id := p])| == |Arrived(current)| + if p.Returned? then 1 else 0
  {
    if p.Returned? {
      assert Arrived(current[id := p]) == Arrived(current) + {id};
    } else {
      assert Arrived(current[id := p]) == Arrived(current);
    }
  }

  lemma MoveSpends(w: Workflow, s: State, id: Id, p: Progress)
    requires id in s.current && !s.current[id].Returned?
    requires if s.current[id].Waiting? then !p.Waiting? else p.Returned?
    ensures Spent(s.(current := s.current[id := p])) > Spent(s)
  {
    HoldersStep(s.current, id, p);
    ArrivedStep(s.current, id, p);
  }

  lemma BeginSpends(w: Workflow, s: State)
    requires Placed(w, s) && Enabled(w, s, BeginLevel)
    ensures Spent(Began(w, s)) > Spent(s)
  {
    assert Arrived(s.current) == {} && Holders(s.current) == {};
    SubsetSize(s.artifacts.Keys, Began(w, s).artifacts.Keys);
  }

  lemma EndSpends(w: Workflow, s: State)
    requires Valid(w) && Placed(w, s) && Enabled(w, s, EndLevel)
    ensures Spent(Ended(w, s)) > Spent(s)
  {
    DoneStep(w, s.level);
    EndPlaces(w, s);
    assert Arrived(s.current) == s.current.Keys && Holders(s.current) == {};
    assert Ended(w, s).artifacts.Keys == s.artifacts.Keys + s.current.Keys;
    assert Arrived(map[]) == {} && Holders(map[]) == {};
  }

  lemma {:induction false} EveryActionSpends(w: Workflow, run: seq<Action>)
    requires Valid(w) && Feasible(w, run)
    ensures |run| <= Spent(After(w, run))
  {
    if run != [] {
      var front := run[..|run| - 1];
      EveryActionSpends(w, front);
      ReachableInvariant(w, front);
      var s := After(w, front);
      match run[|run| - 1]
      case BeginLevel => BeginSpends(w, s);
      case Start(id) => MoveSpends(w, s, id, StartOf(w, s.artifacts, w.steps[id]));
      case Return(id) => MoveSpends(w, s, id, ReturnOf(w, w.steps[id], s.current[id].upstream));
      case EndLevel => EndSpends(w, s);
    }
  }

  /** Every run, finished or not, has at most two actions per level and two per step. */
  lemma RunsAreFinite(w: Workflow, run: seq<Action>)
    requires Valid(w) && Feasible(w, run)
    ensures |run| <= 2 * |w.dag.levels| + 2 * |w.dag.nodes|
  {
    EveryActionSpends(w, run);
    ReachableInvariant(w, run);
    SpentIsLimited(w, After(w, run));
  }

  lemma SpentIsLimited(w: Workflow, s: State)
    requires Valid(w) && Placed(w, s)
    ensures Spent(s) <= 2 * |w.dag.levels| + 2 * |w.dag.nodes|
  {
    if s.open { DoneStep(w, s.level); }
    StepsFit(w, s);
    PairFits(Arrived(s.current), Holders(s.current), s.current.Keys);
    PairFits(s.artifacts.Keys, s.current.Keys, w.dag.nodes.Keys);
  }

  lemma StepsFit(w: Workflow, s: State)
    requires Placed(w, s)
    requires s.open ==> Done(w, s.level) !! Elements(w.dag.levels[s.level])
    requires s.open ==> Elements(w.dag.levels[s.level]) <= w.dag.nodes.Keys
    ensures s.artifacts.Keys !! s.current.Keys
    ensures s.artifacts.Keys <= w.dag.nodes.Keys && s.current.Keys <= w.dag.nodes.Keys
  {
  }

  lemma PairFits(a: set<Id>, b: set<Id>, c: set<Id>)
    requires a !! b && a <= c && b <= c
    ensures |a| + |b| <= |c|
  {
    SubsetSize(a + b, c);
  }

  // ---------------------------------------------------------------- the result of a run

  /** The blocking failures are listed sorted; there are some exactly if the run fails. */
  datatype RunResult = RunResult(failed: bool, artifacts: seq<Artifact>, blockingFailures: seq<Id>)

  predicate IsBlockingFailure(w: Workflow, artifacts: map<Id, Artifact>, s: Id) {
    && s in artifacts && s in w.steps
    && (artifacts[s].status == Failed || artifacts[s].status == TimedOut)
    && !w.steps[s].continueOnError
  }

  /** One artifact per step in declaration order, and the failures that fail the run. */
  ghost predicate IsResult(w: Workflow, artifacts: map<Id, Artifact>, r: RunResult) {
    && |r.artifacts| == |w.dag.order|
    && (forall i | 0 <= i < |r.artifacts| :: w.dag.order[i] in artifacts && r.artifacts[i] == artifacts[w.dag.order[i]])
    && r.blockingFailures == Sorted(set s | s in w.steps && IsBlockingFailure(w, artifacts, s))
    && (r.failed <==> exists s :: IsBlockingFailure(w, artifacts, s))
  }

  lemma ResultIgnoresLimit(w: Workflow, limit: nat, artifacts: map<Id, Artifact>, r: RunResult)
    requires IsResult(w.(maxParallelism := limit), artifacts, r)
    ensures IsResult(w, artifacts, r)
  {
    var v := w.(maxParallelism := limit);
    forall s ensures IsBlockingFailure(w, artifacts, s) <==> IsBlockingFailure(v, artifacts, s) { }
    assert (set s | s in w.steps && IsBlockingFailure(w, artifacts, s)) == set s | s in v.steps && IsBlockingFailure(v, artifacts, s);
  }

  /** What a run reports, its status included, is a function of the workflow: neither schedule nor limit shows in it. */
  lemma ReportsAgree(w: Workflow, limit: nat, a: map<Id, Artifact>, blocked: set<Id>, r: RunResult,
                     a': map<Id, Artifact>, blocked': set<Id>, r': RunResult)
    requires Valid(w) && IsOutcome(w, a, blocked) && IsResult(w, a, r)
    requires IsOutcome(w.(maxParallelism := limit), a', blocked') && IsResult(w.(maxParallelism := limit), a', r')
    ensures r == r'
  {
    OutcomeIgnoresLimit(w, limit, a', blocked');
    forall x | x in w.steps ensures a[x] == a'[x] {
      var k := ScheduledSomewhere(w.dag, x);
      OutcomesAgree(w, a, blocked, a', blocked', k, x);
    }
    assert a == a';
    ResultIgnoresLimit(w, limit, a', r');
    assert r.artifacts == r'.artifacts;
  }

  // ---------------------------------------------------------------- the executor

  /** Sorting one more step of the level into skipped and waiting. */
  lemma SortStep(w: Workflow, ids: seq<Id>, i: nat, blocked: set<Id>)
    requires i < |ids| && ids[i] in w.steps
    ensures SkippedIn(w, ids[..i + 1], blocked) ==
      if ids[i] in blocked then SkippedIn(w, ids[..i], blocked)[ids[i] := SkippedArtifact(w, w.steps[ids[i]])]
      else SkippedIn(w, ids[..i], blocked)
    ensures WaitingIn(ids[..i + 1], blocked) ==
      if ids[i] in blocked then WaitingIn(ids[..i], blocked) else WaitingIn(ids[..i], blocked)[ids[i] := Waiting]
  {
    assert ids[..i + 1] == ids[..i] + [ids[i]];
  }

  /** The results of the steps listed so far. */
  ghost function ResultsIn(ids: seq<Id>, results: map<Id, Artifact>): map<Id, Artifact> {
    map id | id in ids && id in results :: results[id]
  }

  lemma ResultsStep(ids: seq<Id>, i: nat, results: map<Id, Artifact>)
    requires i < |ids|
    ensures ResultsIn(ids[..i + 1], results) ==
      if ids[i] in results then ResultsIn(ids[..i], results)[ids[i] := results[ids[i]]] else ResultsIn(ids[..i], results)
  {
    assert ids[..i + 1] == ids[..i] + [ids[i]];
  }

  class RunState {
    var level: nat
    var open: bool
    var artifacts: map<Id, Artifact>
    var blocked: set<Id>
    var current: map<Id, Progress>

    ghost function View(): State
      reads this
    {
      State(level, open, artifacts, blocked, current)
    }

    constructor ()
      ensures View() == INITIAL
    {
      level, open, artifacts, blocked, current := 0, false, map[], {}, map[];
    }

    /** Opens the next level: blocked steps are skipped at once, the others queue up. */
    method Begin(w: Workflow)
      requires Enabled(w, View(), BeginLevel)
      requires forall id | id in w.dag.levels[level] :: id in w.steps
      modifies this
      ensures View() == Apply(w, old(View()), BeginLevel)
    {
      artifacts, current := OpenLevel(w, w.dag.levels[level], artifacts, blocked);
      open := true;
    }

    /** A waiting step takes the semaphore. */
    method StartStep(w: Workflow, id: Id)
      requires Enabled(w, View(), Start(id))
      modifies this
      ensures View() == Apply(w, old(View()), Start(id))
    {
      current := current[id := StartOf(w, artifacts, w.steps[id])];
    }

    /** A plugin answers and its step releases the semaphore. */
    method ReturnStep(w: Workflow, id: Id)
      requires Enabled(w, View(), Return(id))
      modifies this
      ensures View() == Apply(w, old(View()), Return(id))
    {
      current := current[id := ReturnOf(w, w.steps[id], current[id].upstream)];
    }

    /** Closes the level: records the results and blocks everything downstream of a blocking one. */
    method End(w: Workflow)
      requires Enabled(w, View(), EndLevel) && Closable(w, View())
      modifies this
      ensures View() == Apply(w, old(View()), EndLevel)
    {
      artifacts, blocked := CloseLevel(w, w.dag.levels[level], current, artifacts, blocked);
      level, open, current := level + 1, false, map[];
    }
  }

  /** The loop over a level that skips blocked steps and lists the runnable ones. */
  method OpenLevel(w: Workflow, ids: seq<Id>, artifacts: map<Id, Artifact>, blocked: set<Id>)
    returns (artifacts': map<Id, Artifact>, current: map<Id, Progress>)
    requires forall id | id in ids :: id in w.steps
    ensures artifacts' == artifacts + SkippedIn(w, ids, blocked)
    ensures current == WaitingIn(ids, blocked)
  {
    artifacts', current := artifacts, map[];
    for i := 0 to |ids|
      invariant artifacts' == artifacts + SkippedIn(w, ids[..i], blocked)
      invariant current == WaitingIn(ids[..i], blocked)
    {
      SortStep(w, ids, i, blocked);
      if ids[i] in blocked {
        artifacts' := artifacts'[ids[i] := SkippedArtifact(w, w.steps[ids[i]])];
      } else {
        current := current[ids[i] := Waiting];
      }
    }
    assert ids[..|ids|] == ids;
  }

  /** The current steps are steps of the level, and each result is stamped with its step's id. */
  ghost predicate Closable(w: Workflow, s: State) {
    && Indexed(w.dag.order, w.dag.nodes)
    && s.level < |w.dag.levels|
    && forall id | id in s.current ::
         && id in w.dag.levels[s.level] && id in w.dag.nodes
         && s.current[id].Returned? && s.current[id].artifact.stepId == id
  }

  lemma FinishedLevelIsClosable(w: Workflow, s: State)
    requires Valid(w) && Invariant(w, s) && Enabled(w, s, EndLevel)
    ensures Closable(w, s)
  {
    forall id | id in s.current
      ensures id in w.dag.levels[s.level] && id in w.dag.nodes && s.current[id].artifact.stepId == id
    {
      assert id in Elements(w.dag.levels[s.level]);
      assert RightlyAt(w, s.artifacts, id, s.current[id]);
      ExecuteStampsId(w, w.steps[id], Upstream(s.artifacts, w.steps[id].needs));
    }
  }

  /** Folds the returned artifacts, in level order, into the record and the blocked set. */
  method CloseLevel(w: Workflow, ids: seq<Id>, current: map<Id, Progress>, artifacts: map<Id, Artifact>, blocked: set<Id>)
    returns (artifacts': map<Id, Artifact>, blocked': set<Id>)
    requires Indexed(w.dag.order, w.dag.nodes)
    requires forall id | id in current ::
      id in ids && id in w.dag.nodes && current[id].Returned? && current[id].artifact.stepId == id
    ensures artifacts' == artifacts + Results(current)
    ensures blocked' == blocked + NewlyBlocked(w, Results(current))
  {
    ghost var results := Results(current);
    artifacts', blocked' := artifacts, blocked;
    assert NewlyBlocked(w, ResultsIn(ids[..0], results)) == {};
    for i := 0 to |ids|
      invariant artifacts' == artifacts + ResultsIn(ids[..i], results)
      invariant blocked' == blocked + NewlyBlocked(w, ResultsIn(ids[..i], results))
    {
      CloseStep(w, ids, i, results);
      if ids[i] in current {
        var artifact := current[ids[i]].artifact;
        AddThenUpdate(artifacts, ResultsIn(ids[..i], results), ids[i], artifact);
        artifacts' := artifacts'[artifact.stepId := artifact];
        blocked' := BlockDownstream(w, artifact, blocked');
      }
    }
    AllResults(ids, results);
  }

  lemma AllResults(ids: seq<Id>, results: map<Id, Artifact>)
    requires forall id | id in results :: id in ids
    ensures ResultsIn(ids[..|ids|], results) == results
  {
    assert ids[..|ids|] == ids;
  }

  lemma AddThenUpdate(a: map<Id, Artifact>, b: map<Id, Artifact>, id: Id, artifact: Artifact)
    ensures (a + b)[id := artifact] == a + b[id := artifact]
  {
  }

  lemma CloseStep(w: Workflow, ids: seq<Id>, i: nat, results: map<Id, Artifact>)
    requires i < |ids|
    ensures ResultsIn(ids[..i + 1], results) ==
      if ids[i] in results then ResultsIn(ids[..i], results)[ids[i] := results[ids[i]]] else ResultsIn(ids[..i], results)
    ensures NewlyBlocked(w, ResultsIn(ids[..i + 1], results)) == NewlyBlocked(w, ResultsIn(ids[..i], results)) +
      if ids[i] in results && Blocks(w, results[ids[i]]) then Dependents(w.dag.nodes, ids[i]) else {}
  {
    ResultsStep(ids, i, results);
    if ids[i] in results {
      RecordResult(w, ResultsIn(ids[..i], results), ids[i], results[ids[i]]);
    }
  }

  method BlockDownstream(w: Workflow, artifact: Artifact, blocked: set<Id>) returns (blocked': set<Id>)
    requires Indexed(w.dag.order, w.dag.nodes) && artifact.stepId in w.dag.nodes
    ensures blocked' == blocked + if Blocks(w, artifact) then Dependents(w.dag.nodes, artifact.stepId) else {}
  {
    blocked' := blocked;
    if Blocks(w, artifact) {
      var downstream := TransitiveDependents(w.dag, artifact.stepId);
      SortedIsSorted(Dependents(w.dag.nodes, artifact.stepId));
      blocked' := blocked + Elements(downstream.value);
    }
  }

  lemma RecordResult(w: Workflow, seen: map<Id, Artifact>, id: Id, artifact: Artifact)
    requires id !in seen || seen[id] == artifact
    ensures NewlyBlocked(w, seen[id := artifact]) ==
      NewlyBlocked(w, seen) + if Blocks(w, artifact) then Dependents(w.dag.nodes, id) else {}
  {
    var more := seen[id := artifact];
    forall s | s in NewlyBlocked(w, seen) ensures s in NewlyBlocked(w, more) {
      var t :| t in seen && Blocks(w, seen[t]) && Reaches(Needs(w), s, t);
      assert t in more && more[t] == seen[t];
    }
    forall s | s in NewlyBlocked(w, more)
      ensures s in NewlyBlocked(w, seen) || (Blocks(w, artifact) && s in Dependents(w.dag.nodes, id))
    {
      var t :| t in more && Blocks(w, more[t]) && Reaches(Needs(w), s, t);
      if t != id { assert t in seen && more[t] == seen[t]; }
    }
    forall s | Blocks(w, artifact) && s in Dependents(w.dag.nodes, id) ensures s in NewlyBlocked(w, more) {
      assert id in more && more[id] == artifact;
    }
  }

  /**
   Executes a workflow. Inside a level the next step to move is any one that can,
   so the method stands for every interleaving; its result satisfies the
   specification, which by confluence has a single solution.
   */
  method Run(w: Workflow) returns (r: RunResult)
    requires Valid(w)
    ensures exists artifacts, blocked :: IsOutcome(w, artifacts, blocked) && IsResult(w, artifacts, r)
  {
    var state := new RunState();
    ghost var run: seq<Action> := [];
    while state.level < |w.dag.levels|
      invariant Feasible(w, run) && state.View() == After(w, run) && !state.open
      decreases 2 * |w.dag.levels| + 2 * |w.dag.nodes| - |run|
    {
      LevelStepsKnown(w, state.level);
      state.Begin(w);
      run := Extend(w, run, BeginLevel);
      run := ExecuteLevel(w, state, run);
      ReachableInvariant(w, run);
      FinishedLevelIsClosable(w, state.View());
      state.End(w);
      run := Extend(w, run, EndLevel);
    }
    ReachableInvariant(w, run);
    FinishedRunIsOutcome(w, run);
    r := Summarize(w, state.artifacts);
  }

  lemma LevelStepsKnown(w: Workflow, k: nat)
    requires Valid(w) && k < |w.dag.levels|
    ensures forall id | id in w.dag.levels[k] :: id in w.steps
  {
    forall id | id in w.dag.levels[k] ensures id in w.steps { LevelIsFresh(w, k, id); }
  }

  lemma Extend(w: Workflow, run: seq<Action>, a: Action) returns (run': seq<Action>)
    requires Valid(w) && Feasible(w, run) && Enabled(w, After(w, run), a)
    ensures Feasible(w, run') && After(w, run') == Apply(w, After(w, run), a)
    ensures |run'| == |run| + 1 <= 2 * |w.dag.levels| + 2 * |w.dag.nodes|
  {
    run' := run + [a];
    assert run'[..|run|] == run;
    RunsAreFinite(w, run');
  }

  /** Moves steps in arbitrary order until all of the level have returned. */
  method ExecuteLevel(w: Workflow, state: RunState, ghost run: seq<Action>) returns (ghost run': seq<Action>)
    requires Valid(w) && Feasible(w, run) && state.View() == After(w, run) && state.open
    modifies state
    ensures Feasible(w, run') && state.View() == After(w, run') && |run'| >= |run|
    ensures state.open && AllReturned(state.current)
  {
    run' := run;
    while !AllReturned(state.current)
      invariant Feasible(w, run') && state.View() == After(w, run') && |run'| >= |run|
      invariant state.open
      decreases 2 * |w.dag.levels| + 2 * |w.dag.nodes| - |run'|
    {
      run' := MoveOne(w, state, run');
    }
  }

  /** One step, any that can, starts or returns. */
  method MoveOne(w: Workflow, state: RunState, ghost run: seq<Action>) returns (ghost run': seq<Action>)
    requires Valid(w) && Feasible(w, run) && state.View() == After(w, run) && state.open
    requires !AllReturned(state.current)
    modifies state
    ensures Feasible(w, run') && state.View() == After(w, run') && state.open
    ensures |run'| == |run| + 1 <= 2 * |w.dag.levels| + 2 * |w.dag.nodes|
  {
    ReachableInvariant(w, run);
    ghost var mover := SomeoneCanMove(w, state.View());
    var room := |Holders(state.current)| < w.maxParallelism;
    assert CanMove(state.current, room, mover);
    var id :| id in state.current && CanMove(state.current, room, id);
    MoverIsEnabled(w, run, id);
    if state.current[id].Waiting? {
      state.StartStep(w, id);
      run' := Extend(w, run, Start(id));
    } else {
      state.ReturnStep(w, id);
      run' := Extend(w, run, Return(id));
    }
  }

  lemma MoverIsEnabled(w: Workflow, run: seq<Action>, id: Id)
    requires Valid(w) && Feasible(w, run) && After(w, run).open
    requires CanMove(After(w, run).current, |Holders(After(w, run).current)| < w.maxParallelism, id)
    ensures Enabled(w, After(w, run), if After(w, run).current[id].Waiting? then Start(id) else Return(id))
  {
    ReachableInvariant(w, run);
    var s := After(w, run);
    assert RightlyAt(w, s.artifacts, id, s.current[id]);
  }

  predicate CanMove(current: map<Id, Progress>, room: bool, id: Id) {
    id in current && (current[id].InFlight? || (current[id].Waiting? && room))
  }

  method Summarize(w: Workflow, artifacts: map<Id, Artifact>) returns (r: RunResult)
    requires Elements(w.dag.order) == w.steps.Keys == artifacts.Keys
    ensures IsResult(w, artifacts, r)
  {
    assert forall id | id in w.dag.order :: id in Elements(w.dag.order);
    var ordered := Collect(w.dag.order, artifacts);
    var failures := BlockingFailures(w, w.dag.order, artifacts);
    AllFailuresListed(w, artifacts);
    r := RunResult(failures != {}, ordered, Sorted(failures));
  }

  lemma AllFailuresListed(w: Workflow, artifacts: map<Id, Artifact>)
    requires Elements(w.dag.order) == w.steps.Keys
    ensures (set s | s in w.dag.order && IsBlockingFailure(w, artifacts, s)) ==
            (set s | s in w.steps && IsBlockingFailure(w, artifacts, s))
    ensures (set s | s in w.dag.order && IsBlockingFailure(w, artifacts, s)) != {} <==>
            exists s :: IsBlockingFailure(w, artifacts, s)
  {
    forall s | IsBlockingFailure(w, artifacts, s) ensures s in w.dag.order {
      assert s in Elements(w.dag.order);
    }
    assert forall s | s in w.dag.order :: s in Elements(w.dag.order);
    var failures := set s | s in w.dag.order && IsBlockingFailure(w, artifacts, s);
    if failures != {} {
      var s :| s in failures;
      assert IsBlockingFailure(w, artifacts, s);
    } else {
      forall s ensures !IsBlockingFailure(w, artifacts, s) { assert s !in failures; }
    }
  }

  method Collect(order: seq<Id>, artifacts: map<Id, Artifact>) returns (ordered: seq<Artifact>)
    requires forall id | id in order :: id in artifacts
    ensures |ordered| == |order| && forall j | 0 <= j < |order| :: ordered[j] == artifacts[order[j]]
  {
    ordered := [];
    for i := 0 to |order|
      invariant |ordered| == i
      invariant forall j | 0 <= j < i :: ordered[j] == artifacts[order[j]]
    {
      ordered := ordered + [artifacts[order[i]]];
    }
  }

  method BlockingFailures(w: Workflow, order: seq<Id>, artifacts: map<Id, Artifact>) returns (failures: set<Id>)
    ensures failures == set s | s in order && IsBlockingFailure(w, artifacts, s)
  {
    failures := {};
    for i := 0 to |order|
      invariant failures == set s | s in order[..i] && IsBlockingFailure(w, artifacts, s)
    {
      assert order[..i + 1] == order[..i] + [order[i]];
      if IsBlockingFailure(w, artifacts, order[i]) {
        failures := failures + {order[i]};
      }
    }
    assert order[..|order|] == order;
  }

  // ---------------------------------------------------------------- entry point

  function StepMap(steps: seq<Step>): map<Id, Step> {
    if steps == [] then map[]
    else StepMap(steps[..|steps| - 1])[steps[|steps| - 1].id := steps[|steps| - 1]]
  }

  function StepNodes(steps: seq<Step>): (nodes: seq<DagNode>)
    ensures |nodes| == |steps|
    ensures forall i | 0 <= i < |nodes| :: nodes[i] == DagNode(steps[i].id, steps[i].needs)
  {
    seq(|steps|, i requires 0 <= i < |steps| => DagNode(steps[i].id, steps[i].needs))
  }

  lemma {:induction false} StepMapMatchesNodes(steps: seq<Step>)
    ensures StepMap(steps).Keys == NodeMap(StepNodes(steps)).Keys
    ensures forall s | s in StepMap(steps) :: StepMap(steps)[s].id == s
    ensures forall s | s in StepMap(steps) :: StepMap(steps)[s].needs == NodeMap(StepNodes(steps))[s].needs
  {
    if steps != [] {
      var front := steps[..|steps| - 1];
      StepMapMatchesNodes(front);
      assert StepNodes(steps)[..|steps| - 1] == StepNodes(front);
    }
  }

  datatype RunError = BadParallelism | BadGraph(error: GraphError)

  /**
   Builds the graph and runs it. A limit below one and a graph that fails its
   checks are the only errors.
   */
  method RunWorkflow(steps: seq<Step>, plugins: Plugins, contextOptions: Options, inputDigest: nat, maxParallelism: int)
    returns (r: Result<RunResult, RunError>)
    ensures r.Err? && r.error.BadParallelism? <==> maxParallelism < 1
    ensures r.Ok? <==>
      && maxParallelism >= 1
      && Distinct(Ids(StepNodes(steps)))
      && GoodReferences(NodeMap(StepNodes(steps)))
      && Acyclic(NeedsGraph(NodeMap(StepNodes(steps))))
    ensures r.Err? && r.error.BadGraph? ==> IsGraphError(StepNodes(steps), r.error.error)
    ensures r.Ok? ==> exists w: Workflow, artifacts, blocked ::
      && Valid(w) && w.steps == StepMap(steps) && w.dag.order == Ids(StepNodes(steps)) && w.plugins == plugins
      && w.contextOptions == contextOptions && w.inputDigest == inputDigest
      && IsOutcome(w, artifacts, blocked) && IsResult(w, artifacts, r.value)
  {
    if maxParallelism < 1 { return Err(BadParallelism); }
    var built := Build(StepNodes(steps));
    if built.Err? { return Err(BadGraph(built.error)); }
    StepMapMatchesNodes(steps);
    var w := Workflow(built.value, StepMap(steps), plugins, contextOptions, inputDigest, maxParallelism);
    var result := Run(w);
    r := Ok(result);
  }
}
