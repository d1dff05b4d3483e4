/**
 What a finished workflow run says about each step, in terms of what the step's
 plugin did: the artifacts, who is blocked, and when the run fails.
 */
module StepRecords {
  import opened Wrappers
  import opened Ordering
  import opened Graphs
  import opened Dags
  import opened Runner

  /** What the plugin of `s` answers on the evidence that its needs left behind. */
  ghost function AnswerOf(w: Workflow, artifacts: map<Id, Artifact>, s: Id): Outcome
    requires s in w.steps
  {
    var step := w.steps[s];
    w.plugins.analyze(step, StepOptions(step, w.contextOptions), Upstream(artifacts, step.needs))
  }

  /** The step was executed and did not get as far as a report. */
  ghost predicate Broke(w: Workflow, artifacts: map<Id, Artifact>, blocked: set<Id>, s: Id) {
    && s in w.steps && s !in blocked
    && (w.plugins.missing(w.steps[s]).Some? || AnswerOf(w, artifacts, s).Overran? || AnswerOf(w, artifacts, s).Raised?)
  }

  /** The step was executed and reported that it skipped itself. */
  ghost predicate SkippedItself(w: Workflow, artifacts: map<Id, Artifact>, blocked: set<Id>, s: Id) {
    && s in w.steps && s !in blocked && w.plugins.missing(w.steps[s]).None?
    && AnswerOf(w, artifacts, s).Reported? && AnswerOf(w, artifacts, s).report.skippedReason.Some?
  }

  /** The run's options win over the read-only profile, and that over the step's own options. */
  lemma OptionsPrecedence(step: Step, context: Options, key: nat)
    ensures var merged := StepOptions(step, context);
      if key in context then key in merged && merged[key] == context[key]
      else if key == EXECUTION_PROFILE then key in merged && merged[key] == STATIC_READONLY
      else (key in merged <==> key in step.options) && (key in merged ==> merged[key] == step.options[key])
  {
  }

  /** What an executed step leaves behind, case by case. */
  ghost predicate IsRecord(w: Workflow, step: Step, answer: Outcome, record: Artifact) {
    && record.stepId == step.id && record.uses == step.uses && record.inputDigest == w.inputDigest
    && if w.plugins.missing(step).Some? then
         record.status == Failed && record.error == w.plugins.missing(step) && record.evidence == None
       else match answer
         case Overran(message) =>
           record.status == TimedOut && record.error == Some(message) && record.evidence == None
         case Raised(message) =>
           record.status == Failed && record.error == Some(message) && record.evidence == None
         case Reported(report) =>
           && record.status == (if report.skippedReason.Some? then Skipped else Succeeded)
           && record.error == report.skippedReason
           && record.evidence == Some(WorkflowEvidence(step.id, report.evidence, report.summary))
  }

  lemma ExecutionRecord(w: Workflow, step: Step, upstream: seq<EvidenceItem>)
    ensures IsRecord(w, step, w.plugins.analyze(step, StepOptions(step, w.contextOptions), upstream), Execute(w, step, upstream))
  {
  }

  /** The artifact of a step that was not blocked is the record of what its plugin did. */
  lemma ExecutedStepRecord(w: Workflow, artifacts: map<Id, Artifact>, blocked: set<Id>, s: Id)
    requires Valid(w) && IsOutcome(w, artifacts, blocked) && s in w.steps && s !in blocked
    ensures w.steps[s].id == s && IsRecord(w, w.steps[s], AnswerOf(w, artifacts, s), artifacts[s])
  {
    ExecutionRecord(w, w.steps[s], Upstream(artifacts, w.steps[s].needs));
    assert artifacts[s] == Prescribed(w, artifacts, blocked, s);
  }

  lemma BlockedStepRecord(w: Workflow, artifacts: map<Id, Artifact>, blocked: set<Id>, s: Id)
    requires Valid(w) && IsOutcome(w, artifacts, blocked) && s in blocked
    ensures artifacts[s] == Artifact(s, w.steps[s].uses, Skipped, w.inputDigest, None, Some(DEPENDENCY_MESSAGE))
  {
    assert artifacts[s] == Prescribed(w, artifacts, blocked, s);
  }

  lemma {:induction false} UpstreamOfBoth(artifacts: map<Id, Artifact>, needs: seq<Id>, more: seq<Id>)
    ensures Upstream(artifacts, needs + more) == Upstream(artifacts, needs) + Upstream(artifacts, more)
  {
    if more == [] {
      assert needs + more == needs;
    } else {
      var front, last := more[..|more| - 1], more[|more| - 1];
      UpstreamOfBoth(artifacts, needs, front);
      assert (needs + more)[..|needs + more| - 1] == needs + front;
      assert Upstream(artifacts, needs + more) == Upstream(artifacts, needs + front) + ItemsOf(artifacts, last);
      assert Upstream(artifacts, more) == Upstream(artifacts, front) + ItemsOf(artifacts, last);
    }
  }

  /** A step's plugin is handed, need by need and in that order, exactly what the plugins of its needs reported. */
  lemma UpstreamIsReportedEvidence(w: Workflow, artifacts: map<Id, Artifact>, blocked: set<Id>, needs: seq<Id>, n: Id)
    requires Valid(w) && IsOutcome(w, artifacts, blocked) && n in w.steps
    ensures Upstream(artifacts, []) == []
    ensures Upstream(artifacts, needs + [n]) == Upstream(artifacts, needs) +
      if n !in blocked && w.plugins.missing(w.steps[n]).None? && AnswerOf(w, artifacts, n).Reported?
      then AnswerOf(w, artifacts, n).report.evidence else []
  {
    UpstreamOfBoth(artifacts, needs, [n]);
    assert Upstream(artifacts, [n]) == Upstream(artifacts, []) + ItemsOf(artifacts, n);
    if n in blocked {
      BlockedStepRecord(w, artifacts, blocked, n);
    } else {
      ExecutedStepRecord(w, artifacts, blocked, n);
    }
  }

  // ---------------------------------------------------------------- who is blocked

  lemma BlockedIffNeedStops(w: Workflow, artifacts: map<Id, Artifact>, blocked: set<Id>, x: Id)
    requires Valid(w) && IsOutcome(w, artifacts, blocked) && x in w.steps
    ensures x in blocked <==> exists n :: n in w.steps[x].needs && n in w.steps && (n in blocked || Stops(w, artifacts, blocked, n))
  {
    assert x in blocked <==> BlockedByNeed(w, artifacts, blocked, x);
    forall n | n in w.steps[x].needs
      ensures n in w.steps
      ensures StopsDependents(w, artifacts, blocked, n) <==> n in blocked || Stops(w, artifacts, blocked, n)
    {
      assert GoodReference(w.dag.nodes, x, n);
      if n !in blocked { ExecutedStepRecord(w, artifacts, blocked, n); }
    }
  }

  /** The step broke or skipped itself, and was not to be continued after. */
  ghost predicate Stops(w: Workflow, artifacts: map<Id, Artifact>, blocked: set<Id>, s: Id) {
    && s in w.steps && !w.steps[s].continueOnError
    && (Broke(w, artifacts, blocked, s) || SkippedItself(w, artifacts, blocked, s))
  }

  ghost predicate StoppedUpstream(w: Workflow, artifacts: map<Id, Artifact>, blocked: set<Id>, x: Id) {
    exists t :: Stops(w, artifacts, blocked, t) && Reaches(Needs(w), x, t)
  }

  /**
   The runner skips a step exactly if some transitive dependency without
   `continueOnError` had no plugin, overran, raised, or skipped itself.
   */
  lemma BlockedIffUpstreamStopped(w: Workflow, artifacts: map<Id, Artifact>, blocked: set<Id>, x: Id)
    requires Valid(w) && IsOutcome(w, artifacts, blocked) && x in w.steps
    ensures x in blocked <==> StoppedUpstream(w, artifacts, blocked, x)
  {
    var k := ScheduledSomewhere(w.dag, x);
    BlockedAtLevel(w, artifacts, blocked, k, x);
  }

  lemma {:induction false} BlockedAtLevel(w: Workflow, artifacts: map<Id, Artifact>, blocked: set<Id>, k: nat, x: Id)
    requires Valid(w) && IsOutcome(w, artifacts, blocked) && x in w.steps && AtLevel(w.dag, x, k)
    ensures x in blocked <==> StoppedUpstream(w, artifacts, blocked, x)
    decreases k
  {
    var g := Needs(w);
    BlockedIffNeedStops(w, artifacts, blocked, x);
    if x in blocked {
      var n :| n in w.steps[x].needs && n in w.steps && (n in blocked || Stops(w, artifacts, blocked, n));
      assert Edge(g, x, n);
      EdgeReaches(g, x, n);
      if n in blocked {
        var j := NeedsComeEarlier(w.dag, x, k, n);
        BlockedAtLevel(w, artifacts, blocked, j, n);
        var t :| Stops(w, artifacts, blocked, t) && Reaches(g, n, t);
        ReachesIsTransitive(g, x, n, t);
      }
    }
    if t :| Stops(w, artifacts, blocked, t) && Reaches(g, x, t) {
      var n := FirstEdge(g, x, t);
      assert n in w.steps[x].needs && GoodReference(w.dag.nodes, x, n);
      if n != t {
        var j := NeedsComeEarlier(w.dag, x, k, n);
        BlockedAtLevel(w, artifacts, blocked, j, n);
        assert StoppedUpstream(w, artifacts, blocked, n);
      }
    }
  }

  // ---------------------------------------------------------------- when the run fails

  /** The steps that fail the run. */
  ghost function Failures(w: Workflow, artifacts: map<Id, Artifact>, blocked: set<Id>): set<Id> {
    set s | s in w.steps && !w.steps[s].continueOnError && Broke(w, artifacts, blocked, s)
  }

  lemma FailureIsBreakage(w: Workflow, artifacts: map<Id, Artifact>, blocked: set<Id>, s: Id)
    requires Valid(w) && IsOutcome(w, artifacts, blocked) && s in w.steps
    ensures IsBlockingFailure(w, artifacts, s) <==> !w.steps[s].continueOnError && Broke(w, artifacts, blocked, s)
  {
    if s in blocked {
      BlockedStepRecord(w, artifacts, blocked, s);
    } else {
      ExecutedStepRecord(w, artifacts, blocked, s);
    }
  }

  /**
   A run fails exactly if some executed step without `continueOnError` had no
   plugin, overran or raised, and it lists those steps, sorted.
   */
  lemma RunFailsIffSomeStepBroke(w: Workflow, artifacts: map<Id, Artifact>, blocked: set<Id>, r: RunResult)
    requires Valid(w) && IsOutcome(w, artifacts, blocked) && IsResult(w, artifacts, r)
    ensures r.failed <==> Failures(w, artifacts, blocked) != {}
    ensures StrictlySorted(r.blockingFailures) && Elements(r.blockingFailures) == Failures(w, artifacts, blocked)
  {
    forall s | s in w.steps
      ensures IsBlockingFailure(w, artifacts, s) <==> s in Failures(w, artifacts, blocked)
    {
      FailureIsBreakage(w, artifacts, blocked, s);
    }
    assert (set s | s in w.steps && IsBlockingFailure(w, artifacts, s)) == Failures(w, artifacts, blocked);
    SortedIsSorted(Failures(w, artifacts, blocked));
    if s :| s in Failures(w, artifacts, blocked) { assert IsBlockingFailure(w, artifacts, s); }
  }

  /** A plugin that skips itself blocks everything downstream, but does not make the run fail. */
  lemma OwnSkipBlocksWithoutFailing(w: Workflow, artifacts: map<Id, Artifact>, blocked: set<Id>, r: RunResult, t: Id, x: Id)
    requires Valid(w) && IsOutcome(w, artifacts, blocked) && IsResult(w, artifacts, r)
    requires SkippedItself(w, artifacts, blocked, t) && !w.steps[t].continueOnError
    ensures x in w.steps && Reaches(Needs(w), x, t) ==> x in blocked && artifacts[x].status == Skipped
    ensures t !in r.blockingFailures
    ensures (forall s :: !Broke(w, artifacts, blocked, s)) ==> !r.failed
  {
    if x in w.steps && Reaches(Needs(w), x, t) {
      assert Stops(w, artifacts, blocked, t);
      BlockedIffUpstreamStopped(w, artifacts, blocked, x);
      BlockedStepRecord(w, artifacts, blocked, x);
    }
    RunFailsIffSomeStepBroke(w, artifacts, blocked, r);
    assert t !in Elements(r.blockingFailures);
  }
}
