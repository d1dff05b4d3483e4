/**
 Over whole runs of the job queue: every field of a job, its comment state and its
 outbox item is explained by the last call that wrote it.
 */
module JobHistories {
  import opened Wrappers
  import opened Ordering
  import opened JobStore
  import opened JobTraces

  // ---------------------------------------------------------------- which calls write what

  /** The call persists a report of a job that waits for one or may have it replaced. */
  ghost predicate Persists(st: Store, e: Event, j: Id) {
    && e.op.OpPersist? && e.op.id == j && e.op.valid && j in st.jobs
    && (st.jobs[j].status == Running || st.jobs[j].status == AwaitingPublish)
  }

  /** The call starts a queued job. */
  ghost predicate Starts(st: Store, e: Event, j: Id) {
    && j in st.jobs && st.jobs[j].status == Queued
    && ((e.op.OpMarkRunning? && e.op.id == j) || (e.op.OpUpdateStatus? && e.op.id == j && e.op.status == Running))
  }

  /** The call hands out the job's item. */
  ghost predicate HandsOut(st: Store, e: Event, j: Id) {
    e.op.OpClaim? && OneItem(st, j) && j in Apply(st, e).outbox && Apply(st, e).outbox[j] != st.outbox[j]
  }

  /** The call is a mark by the holder of the lease on the job's item. */
  ghost predicate Marks(st: Store, e: Event, j: Id) {
    && e.op.OpSettle? && OneItem(st, j)
    && var item := TheItem(st, j);
    && item.id == e.op.item && item.status == Leased && item.leaseOwner == Some(e.op.owner)
    && item.leaseGeneration == e.op.generation && st.jobs[j].status == Publishing
  }

  /** The call fails a running job because it was interrupted or ran too long. */
  ghost predicate Recovers(st: Store, e: Event, j: Id) {
    e.op.OpFailRunning? && j in e.op.stale && j in st.jobs && st.jobs[j].status == Running
  }

  ghost function ReportWritten(st: Store, e: Event, j: Id): Option<nat> {
    if Persists(st, e, j) then Some(e.op.report)
    else if e.op.OpMarkSucceeded? && e.op.id == j && e.op.valid && j in st.jobs then Some(e.op.report)
    else None
  }

  ghost function StatusWritten(st: Store, e: Event, j: Id): Option<JobStatus> {
    if Starts(st, e, j) then Some(Running)
    else if Persists(st, e, j) then Some(if st.jobs[j].policy == Disabled then JobSucceeded else AwaitingPublish)
    else if HandsOut(st, e, j) then Some(Publishing)
    else if Marks(st, e, j) then
      Some(if e.op.how.Success? then JobSucceeded else if e.op.how.Retry? then AwaitingPublish else PublishFailed)
    else if Recovers(st, e, j) then Some(JobFailed)
    else if j in st.jobs && Overwrites(st, e).Some? && Overwrites(st, e).value.0 == j then Some(Overwrites(st, e).value.1)
    else None
  }

  ghost function StartWritten(st: Store, e: Event, j: Id): Option<int> {
    if Starts(st, e, j) then Some(e.now) else None
  }

  /** A job finishes when it succeeds, fails, or its publication ends for good. */
  ghost function FinishWritten(st: Store, e: Event, j: Id): Option<int> {
    var status := StatusWritten(st, e, j);
    if status == Some(JobSucceeded) && !e.op.OpUpdateStatus? then Some(e.now)
    else if status == Some(JobFailed) then Some(e.now)
    else if Marks(st, e, j) && e.op.how.Failure? then Some(e.now)
    else None
  }

  ghost function ErrorWritten(st: Store, e: Event, j: Id): Option<Option<string>> {
    if j !in st.jobs then None
    else match e.op
      case OpMarkFailed(id, error) => if id == j then Some(Some(error)) else None
      case OpUpdateStatus(id, status, reason) =>
        if id != j || status == Running then None
        else if status == JobFailed && reason.None? then Some(Some("Job failed"))
        else Some(reason)
      case OpFailRunning(_, error) => if Recovers(st, e, j) then Some(Some(error)) else None
      case OpSettle(_, _, _, how) => if Marks(st, e, j) && how.Failure? then Some(Some(Clip(how.error))) else None
      case _ => None
  }

  ghost function CommentWritten(st: Store, e: Event, j: Id): Option<Comment> {
    if Persists(st, e, j) then Some(Comment(if st.jobs[j].policy == Disabled then CommentSkipped else CommentPending, None))
    else if !Marks(st, e, j) then None
    else match e.op.how
      case Success(skipped, _) => Some(Comment(if skipped then CommentSkipped else CommentPublished, None))
      case Retry(error, _) => Some(Comment(CommentPending, Some(Clip(error))))
      case Failure(error) => Some(Comment(CommentFailed, Some(Clip(error))))
  }

  /** Messages are cut to their first 500 characters. */
  lemma ClipKeepsFront(error: string)
    ensures Clip(error) <= error && |Clip(error)| == if |error| < 500 then |error| else 500
  {
  }

  // ---------------------------------------------------------------- one call

  /** `b` is `a` with what the call writes. */
  ghost predicate JobFollows(st: Store, e: Event, j: Id, a: Job, b: Job) {
    && b.status == Or(StatusWritten(st, e, j), a.status)
    && b.result == (if ReportWritten(st, e, j).Some? then ReportWritten(st, e, j) else a.result)
    && b.startedAt == (if StartWritten(st, e, j).Some? then StartWritten(st, e, j) else a.startedAt)
    && b.finishedAt == (if FinishWritten(st, e, j).Some? then FinishWritten(st, e, j) else a.finishedAt)
    && b.error == Or(ErrorWritten(st, e, j), a.error)
    && b.accessMode == a.accessMode && b.policy == a.policy && b.installation == a.installation && b.createdAt == a.createdAt
    && (b != a ==> b.updatedAt == e.now)
  }

  ghost predicate CommentFollows(st: Store, e: Event, j: Id, t: Store) {
    if CommentWritten(st, e, j).Some? then j in t.comments && t.comments[j] == CommentWritten(st, e, j).value
    else (j in t.comments <==> j in st.comments) && (j in st.comments ==> t.comments[j] == st.comments[j])
  }

  lemma JobStep(st: Store, e: Event, j: Id)
    requires WellFormed(st) && Allowed(st, e) && j in st.jobs
    ensures j in Apply(st, e).jobs && JobFollows(st, e, j, st.jobs[j], Apply(st, e).jobs[j])
    ensures CommentFollows(st, e, j, Apply(st, e))
  {
    match e.op
    case OpClaim(_, _, _) => ClaimStep(st, e, j);
    case OpSettle(_, _, _, _) => MarkStep(st, e, j);
    case OpPersist(_, _, _, _) => PersistStep(st, e, j);
    case OpUpdateStatus(_, _, _) => UpdateStep(st, e, j);
    case OpFailRunning(_, _) => RecoveryStep(st, e, j);
    case OpMarkRunning(_) => StartStep(st, e, j);
    case OpMarkSucceeded(_, _, _) => SucceedStep(st, e, j);
    case OpMarkFailed(_, _) => FailStep(st, e, j);
    case OpEnqueue(_, _) => EnqueueStep(st, e, j);
  }

  lemma EnqueueStep(st: Store, e: Event, j: Id)
    requires Allowed(st, e) && e.op.OpEnqueue? && j in st.jobs
    ensures j in Apply(st, e).jobs && JobFollows(st, e, j, st.jobs[j], Apply(st, e).jobs[j])
    ensures CommentFollows(st, e, j, Apply(st, e))
  {
  }

  lemma StartStep(st: Store, e: Event, j: Id)
    requires e.op.OpMarkRunning? && j in st.jobs
    ensures j in Apply(st, e).jobs && JobFollows(st, e, j, st.jobs[j], Apply(st, e).jobs[j])
    ensures CommentFollows(st, e, j, Apply(st, e))
  {
  }

  lemma SucceedStep(st: Store, e: Event, j: Id)
    requires e.op.OpMarkSucceeded? && j in st.jobs
    ensures j in Apply(st, e).jobs && JobFollows(st, e, j, st.jobs[j], Apply(st, e).jobs[j])
    ensures CommentFollows(st, e, j, Apply(st, e))
  {
  }

  lemma FailStep(st: Store, e: Event, j: Id)
    requires e.op.OpMarkFailed? && j in st.jobs
    ensures j in Apply(st, e).jobs && JobFollows(st, e, j, st.jobs[j], Apply(st, e).jobs[j])
    ensures CommentFollows(st, e, j, Apply(st, e))
  {
  }

  lemma RecoveryStep(st: Store, e: Event, j: Id)
    requires e.op.OpFailRunning? && j in st.jobs
    ensures j in Apply(st, e).jobs && JobFollows(st, e, j, st.jobs[j], Apply(st, e).jobs[j])
    ensures CommentFollows(st, e, j, Apply(st, e))
  {
  }

  lemma UpdateStep(st: Store, e: Event, j: Id)
    requires e.op.OpUpdateStatus? && j in st.jobs
    ensures j in Apply(st, e).jobs && JobFollows(st, e, j, st.jobs[j], Apply(st, e).jobs[j])
    ensures CommentFollows(st, e, j, Apply(st, e))
  {
    if e.op.status == Running {
      UpdateToRunning(st, e, j);
    } else if e.op.status == JobFailed {
      UpdateToFailed(st, e, j);
    }
  }

  lemma UpdateToRunning(st: Store, e: Event, j: Id)
    requires e.op.OpUpdateStatus? && e.op.status == Running && j in st.jobs
    ensures j in Apply(st, e).jobs && JobFollows(st, e, j, st.jobs[j], Apply(st, e).jobs[j])
  {
  }

  lemma UpdateToFailed(st: Store, e: Event, j: Id)
    requires e.op.OpUpdateStatus? && e.op.status == JobFailed && j in st.jobs
    ensures j in Apply(st, e).jobs && JobFollows(st, e, j, st.jobs[j], Apply(st, e).jobs[j])
  {
  }

  lemma PersistStep(st: Store, e: Event, j: Id)
    requires e.op.OpPersist? && j in st.jobs
    ensures j in Apply(st, e).jobs && JobFollows(st, e, j, st.jobs[j], Apply(st, e).jobs[j])
    ensures CommentFollows(st, e, j, Apply(st, e))
  {
    if Persists(st, e, j) {
      AcceptedPersistStep(st, e, j);
    } else {
      OtherPersistStep(st, e, j);
    }
  }

  lemma AcceptedPersistStep(st: Store, e: Event, j: Id)
    requires e.op.OpPersist? && Persists(st, e, j) && j in st.jobs
    ensures j in Apply(st, e).jobs && JobFollows(st, e, j, st.jobs[j], Apply(st, e).jobs[j])
    ensures CommentFollows(st, e, j, Apply(st, e))
  {
  }

  lemma OtherPersistStep(st: Store, e: Event, j: Id)
    requires e.op.OpPersist? && !Persists(st, e, j) && j in st.jobs
    ensures j in Apply(st, e).jobs && JobFollows(st, e, j, st.jobs[j], Apply(st, e).jobs[j])
    ensures CommentFollows(st, e, j, Apply(st, e))
  {
  }

  lemma ClaimStep(st: Store, e: Event, j: Id)
    requires WellFormed(st) && e.op.OpClaim? && j in st.jobs
    ensures j in Apply(st, e).jobs && JobFollows(st, e, j, st.jobs[j], Apply(st, e).jobs[j])
    ensures CommentFollows(st, e, j, Apply(st, e))
  {
    ClaimAt(st, e, j);
    ClaimKeepsComments(st, e);
  }

  lemma ClaimKeepsComments(st: Store, e: Event)
    requires WellFormed(st) && e.op.OpClaim?
    ensures Apply(st, e).comments == st.comments
  {
    ClaimAllLeases(st, e.op.owner, e.op.duration, e.op.limit, e.now);
  }

  lemma OneJobMarked(st: Store, e: Event, i: Id, j: Id)
    requires WellFormed(st) && Marks(st, e, i) && Marks(st, e, j)
    ensures i == j
  {
    assert st.outbox[i][0].id == st.outbox[j][0].id;
  }

  lemma MarkedJobFollows(st: Store, e: Event, j: Id, t: Store)
    requires e.op.OpSettle? && OneItem(st, j) && SettledAt(st, t, j, e)
    ensures Marks(st, e, j) && JobFollows(st, e, j, st.jobs[j], t.jobs[j]) && CommentFollows(st, e, j, t)
  {
  }

  lemma MarkStep(st: Store, e: Event, j: Id)
    requires WellFormed(st) && e.op.OpSettle? && j in st.jobs
    ensures j in Apply(st, e).jobs && JobFollows(st, e, j, st.jobs[j], Apply(st, e).jobs[j])
    ensures CommentFollows(st, e, j, Apply(st, e))
  {
    if Accepts(st, e.op.item, e.op.owner, e.op.generation) {
      var i := AcceptedMarkSettles(st, e);
      MarkedJobFollows(st, e, i, Apply(st, e));
      if i != j { UnmarkedJobStays(st, e, i, j, Apply(st, e)); }
    } else if Marks(st, e, j) {
      AcceptsIffHoldsLease(st, j, e.op.owner, e.op.generation);
    }
  }

  lemma UnmarkedJobStays(st: Store, e: Event, i: Id, j: Id, t: Store)
    requires WellFormed(st) && e.op.OpSettle? && OneItem(st, i) && SettledAt(st, t, i, e) && Marks(st, e, i)
    requires j in st.jobs && i != j
    ensures JobFollows(st, e, j, st.jobs[j], t.jobs[j]) && CommentFollows(st, e, j, t)
  {
    if Marks(st, e, j) { OneJobMarked(st, e, i, j); }
  }

  // ---------------------------------------------------------------- whole runs

  /** What the first `i` calls wrote to one field, call by call; `None` where they wrote nothing. */
  ghost function Reports(run: Run, i: nat, j: Id): (writes: seq<Option<nat>>)
    requires i <= |run.events| <= |run.states|
    ensures |writes| == i && forall k | 0 <= k < i :: writes[k] == ReportWritten(run.states[k], run.events[k], j)
  {
    seq(i, k requires 0 <= k < i => ReportWritten(run.states[k], run.events[k], j))
  }

  ghost function Statuses(run: Run, i: nat, j: Id): (writes: seq<Option<JobStatus>>)
    requires i <= |run.events| <= |run.states|
    ensures |writes| == i && forall k | 0 <= k < i :: writes[k] == StatusWritten(run.states[k], run.events[k], j)
  {
    seq(i, k requires 0 <= k < i => StatusWritten(run.states[k], run.events[k], j))
  }

  ghost function StartTimes(run: Run, i: nat, j: Id): (writes: seq<Option<int>>)
    requires i <= |run.events| <= |run.states|
    ensures |writes| == i && forall k | 0 <= k < i :: writes[k] == StartWritten(run.states[k], run.events[k], j)
  {
    seq(i, k requires 0 <= k < i => StartWritten(run.states[k], run.events[k], j))
  }

  ghost function FinishTimes(run: Run, i: nat, j: Id): (writes: seq<Option<int>>)
    requires i <= |run.events| <= |run.states|
    ensures |writes| == i && forall k | 0 <= k < i :: writes[k] == FinishWritten(run.states[k], run.events[k], j)
  {
    seq(i, k requires 0 <= k < i => FinishWritten(run.states[k], run.events[k], j))
  }

  ghost function Errors(run: Run, i: nat, j: Id): (writes: seq<Option<Option<string>>>)
    requires i <= |run.events| <= |run.states|
    ensures |writes| == i && forall k | 0 <= k < i :: writes[k] == ErrorWritten(run.states[k], run.events[k], j)
  {
    seq(i, k requires 0 <= k < i => ErrorWritten(run.states[k], run.events[k], j))
  }

  ghost function Comments(run: Run, i: nat, j: Id): (writes: seq<Option<Comment>>)
    requires i <= |run.events| <= |run.states|
    ensures |writes| == i && forall k | 0 <= k < i :: writes[k] == CommentWritten(run.states[k], run.events[k], j)
  {
    seq(i, k requires 0 <= k < i => CommentWritten(run.states[k], run.events[k], j))
  }

  /**
   In every run the status, report, start, finish and error of a job are those that
   the last call to write them wrote, and so is the state of its comment.
   */
  ghost predicate IsExplained(run: Run, i: nat, j: Id)
    requires i <= |run.events| <= |run.states| && i < |run.states|
  {
    var st := run.states[i];
    && (j in st.jobs ==>
        && st.jobs[j].status == Or(Last(Statuses(run, i, j)), Queued)
        && st.jobs[j].result == Last(Reports(run, i, j))
        && st.jobs[j].startedAt == Last(StartTimes(run, i, j))
        && st.jobs[j].finishedAt == Last(FinishTimes(run, i, j))
        && st.jobs[j].error == Or(Last(Errors(run, i, j)), None))
    && (j !in st.jobs ==> IsBlank(run, i, j))
    && (if Last(Comments(run, i, j)).Some? then j in st.comments && st.comments[j] == Last(Comments(run, i, j)).value
        else j !in st.comments)
  }

  /** Nothing has been written to the job. */
  ghost predicate IsBlank(run: Run, i: nat, j: Id)
    requires i <= |run.events| <= |run.states|
  {
    && Last(Statuses(run, i, j)).None? && Last(Reports(run, i, j)).None? && Last(StartTimes(run, i, j)).None?
    && Last(FinishTimes(run, i, j)).None? && Last(Errors(run, i, j)).None? && Last(Comments(run, i, j)).None?
  }

  lemma {:induction false} JobIsExplained(run: Run, i: nat, j: Id)
    requires IsRun(run) && i < |run.states|
    ensures IsExplained(run, i, j)
  {
    if i > 0 {
      JobIsExplained(run, i - 1, j);
      AlwaysWellFormed(run, i - 1);
      var st, e := run.states[i - 1], run.events[i - 1];
      assert Step(st, e, run.states[i]);
      LastStep(Statuses(run, i - 1, j), Statuses(run, i, j));
      LastStep(Reports(run, i - 1, j), Reports(run, i, j));
      LastStep(StartTimes(run, i - 1, j), StartTimes(run, i, j));
      LastStep(FinishTimes(run, i - 1, j), FinishTimes(run, i, j));
      LastStep(Errors(run, i - 1, j), Errors(run, i, j));
      LastStep(Comments(run, i - 1, j), Comments(run, i, j));
      if j in st.jobs {
        JobStep(st, e, j);
      } else {
        UnknownJobStep(st, e, j);
      }
    }
  }

  /** A job that is not there yet can only be enqueued, with nothing written to it. */
  lemma UnknownJobStep(st: Store, e: Event, j: Id)
    requires WellFormed(st) && Allowed(st, e) && j !in st.jobs
    ensures StatusWritten(st, e, j).None? && ReportWritten(st, e, j).None? && StartWritten(st, e, j).None?
    ensures FinishWritten(st, e, j).None? && ErrorWritten(st, e, j).None? && CommentWritten(st, e, j).None?
    ensures (j in Apply(st, e).comments <==> j in st.comments)
    ensures j in st.comments ==> Apply(st, e).comments[j] == st.comments[j]
    ensures j in Apply(st, e).jobs ==> e.op.OpEnqueue? && e.op.id == j && IsEnqueued(Apply(st, e).jobs[j], e.op.input, e.now)
  {
    match e.op
    case OpClaim(_, _, _) =>
      ClaimAt(st, e, j);
      ClaimKeepsComments(st, e);
    case OpSettle(_, _, _, _) =>
      if Accepts(st, e.op.item, e.op.owner, e.op.generation) {
        var i := AcceptedMarkSettles(st, e);
        assert i in st.jobs;
      }
    case _ =>
  }

  /** A new job as its creator asked for it; only app jobs keep the installation and may publish. */
  ghost predicate IsEnqueued(job: Job, input: JobInput, now: int) {
    && job.status == Queued && job.createdAt == now && job.updatedAt == now
    && job.startedAt == None && job.finishedAt == None && job.result == None && job.error == None
    && IsAsAsked(job, input)
  }

  ghost predicate IsAsAsked(job: Job, input: JobInput) {
    && job.accessMode == Or(input.accessMode, GithubApp)
    && (job.accessMode == GithubApp ==> job.policy == Or(input.policy, GithubComment) && job.installation == input.installation)
    && (job.accessMode != GithubApp ==> job.policy == Disabled && job.installation == None)
  }

  /** A job keeps for ever the mode, policy, installation and creation time that it was enqueued with. */
  lemma {:induction false} JobKeepsItsTerms(run: Run, i: nat, j: Id) returns (k: nat)
    requires IsRun(run) && i < |run.states| && j in run.states[i].jobs
    ensures k < i && run.events[k].op.OpEnqueue? && run.events[k].op.id == j
    ensures IsAsAsked(run.states[i].jobs[j], run.events[k].op.input)
    ensures run.states[i].jobs[j].createdAt == run.events[k].now
  {
    var st, e := run.states[i - 1], run.events[i - 1];
    AlwaysWellFormed(run, i - 1);
    assert Step(st, e, run.states[i]);
    if j in st.jobs {
      k := JobKeepsItsTerms(run, i - 1, j);
      JobStep(st, e, j);
    } else {
      k := i - 1;
      UnknownJobStep(st, e, j);
    }
  }

  // ---------------------------------------------------------------- reports

  /** Persisting for a running or waiting job stores exactly that report, whatever the policy. */
  lemma AcceptedPersistStoresReport(st: Store, e: Event, j: Id)
    requires WellFormed(st) && Allowed(st, e) && Persists(st, e, j)
    ensures var job := Apply(st, e).jobs[j];
      && job.result == Some(e.op.report)
      && job.status == (if job.policy == Disabled then JobSucceeded else AwaitingPublish)
    ensures st.jobs[j].policy == GithubComment ==> OneItem(Apply(st, e), j)
    ensures PersistOutcome(st, j, e.op.valid) == Ok(())
  {
    JobStep(st, e, j);
    if j in st.outbox { assert OneItem(st, j); }
  }

  /** Any other call to persist changes nothing, and says which of the reasons it was. */
  lemma RefusedPersistSaysWhy(st: Store, e: Event, j: Id)
    requires e.op.OpPersist? && e.op.id == j && !Persists(st, e, j)
    ensures Apply(st, e) == st
    ensures var answer := PersistOutcome(st, j, e.op.valid);
      && (answer == Err(JobNotFound) <==> j !in st.jobs)
      && (answer == Err(InvalidReport) <==>
            j in st.jobs && (st.jobs[j].status == Running || st.jobs[j].status == AwaitingPublish))
      && (answer == Ok(()) <==>
            j in st.jobs && (st.jobs[j].status == Publishing || st.jobs[j].status == JobSucceeded || st.jobs[j].status == PublishFailed))
      && (answer.Err? && answer.error.InvalidStatus? ==> j in st.jobs && answer.error.status == st.jobs[j].status)
  {
  }

  lemma ReportStays(st: Store, e: Event, j: Id)
    requires WellFormed(st) && Allowed(st, e) && j in Apply(st, e).outbox
    requires j in st.outbox ==> j in st.jobs && st.jobs[j].result.Some?
    ensures j in Apply(st, e).jobs && Apply(st, e).jobs[j].result.Some?
  {
    if j !in st.outbox {
      NewItemIsPending(st, e, j);
      ItemWasPersisted(st, e, j);
    }
    JobStep(st, e, j);
  }

  lemma ItemWasPersisted(st: Store, e: Event, j: Id)
    requires e.op.OpPersist? && e.op.id == j && j in Apply(st, e).outbox && j !in st.outbox
    ensures Persists(st, e, j)
  {
  }

  /** A job that has something to publish has its report: the one last persisted or recorded as its result. */
  lemma {:induction false} ItemHasReport(run: Run, i: nat, j: Id)
    requires IsRun(run) && i < |run.states| && j in run.states[i].outbox
    ensures j in run.states[i].jobs && run.states[i].jobs[j].result.Some?
    ensures run.states[i].jobs[j].result == Last(Reports(run, i, j))
  {
    ReportIsThere(run, i, j);
    JobIsExplained(run, i, j);
  }

  lemma {:induction false} ReportIsThere(run: Run, i: nat, j: Id)
    requires IsRun(run) && i < |run.states| && j in run.states[i].outbox
    ensures j in run.states[i].jobs && run.states[i].jobs[j].result.Some?
  {
    if j in run.states[i - 1].outbox { ReportIsThere(run, i - 1, j); }
    AlwaysWellFormed(run, i - 1);
    assert Step(run.states[i - 1], run.events[i - 1], run.states[i]);
    ReportStays(run.states[i - 1], run.events[i - 1], j);
  }

  // ---------------------------------------------------------------- recovery

  lemma StartStays(st: Store, e: Event, j: Id)
    requires WellFormed(st) && Allowed(st, e) && j in Apply(st, e).jobs && Apply(st, e).jobs[j].status == Running
    requires j in st.jobs && st.jobs[j].status == Running ==> st.jobs[j].startedAt.Some?
    ensures Apply(st, e).jobs[j].startedAt.Some?
  {
    if j in st.jobs { JobStep(st, e, j); } else { UnknownJobStep(st, e, j); }
  }

  /** A job runs only after a call has started it. */
  lemma {:induction false} RunningJobsWereStarted(run: Run, i: nat, j: Id)
    requires IsRun(run) && i < |run.states| && j in run.states[i].jobs && run.states[i].jobs[j].status == Running
    ensures run.states[i].jobs[j].startedAt.Some?
  {
    var st := run.states[i - 1];
    if j in st.jobs && st.jobs[j].status == Running { RunningJobsWereStarted(run, i - 1, j); }
    AlwaysWellFormed(run, i - 1);
    assert Step(st, run.events[i - 1], run.states[i]);
    StartStays(st, run.events[i - 1], j);
  }

  /** Recovery picks exactly the running jobs whose last start was before the cutoff. */
  lemma StaleIffStartedBefore(run: Run, i: nat, j: Id, cutoff: int)
    requires IsRun(run) && i < |run.states|
    ensures j in StaleJobs(run.states[i], cutoff) <==>
      && j in run.states[i].jobs && run.states[i].jobs[j].status == Running
      && Last(StartTimes(run, i, j)).Some? && Last(StartTimes(run, i, j)).value < cutoff
  {
    JobIsExplained(run, i, j);
    if j in run.states[i].jobs && run.states[i].jobs[j].status == Running { RunningJobsWereStarted(run, i, j); }
  }

  // ---------------------------------------------------------------- items

  /** The calls that made or changed the job's item, among the first `i`. */
  ghost function Touches(run: Run, i: nat, j: Id): (writes: seq<Option<Event>>)
    requires i <= |run.events| && |run.events| + 1 == |run.states|
    ensures |writes| == i
    ensures forall k | 0 <= k < i :: writes[k] == Touched(run.states[k], run.events[k], run.states[k + 1], j)
  {
    seq(i, k requires 0 <= k < i => Touched(run.states[k], run.events[k], run.states[k + 1], j))
  }

  function Touched(st: Store, e: Event, t: Store, j: Id): Option<Event> {
    if Items(st, j) != Items(t, j) then Some(e) else None
  }

  /** The item is just what this call left. */
  ghost predicate Tells(item: Item, j: Id, e: Event) {
    && item.updatedAt == e.now && item.jobId == j
    && match item.status
      case Pending =>
        && e.op.OpPersist? && e.op.id == j && item.id == e.op.newItem
        && item.attemptCount == 0 && item.leaseGeneration == 0
        && item.nextAttemptAt == None && item.lastError == None && item.externalId == None
      case Leased =>
        && e.op.OpClaim? && item.leaseOwner == Some(e.op.owner) && item.leaseExpiresAt == Some(e.now + e.op.duration)
        && item.externalId == None
      case Retrying =>
        && e.op.OpSettle? && e.op.item == item.id && e.op.how.Retry?
        && item.nextAttemptAt == Some(e.now + e.op.how.backoff) && item.lastError == Some(Clip(e.op.how.error))
        && item.externalId == None
      case ItemFailed =>
        && e.op.OpSettle? && e.op.item == item.id && e.op.how.Failure? && item.lastError == Some(Clip(e.op.how.error))
        && item.externalId == None
      case _ =>
        && e.op.OpSettle? && e.op.item == item.id && e.op.how.Success?
        && (item.status == ItemSkipped <==> e.op.how.skipped) && item.externalId == e.op.how.externalId
  }

  lemma TouchTells(st: Store, e: Event, t: Store, j: Id, before: Event)
    requires OneItem(st, j) && OneItem(t, j) && ItemStep(st, e, j, TheItem(st, j), TheItem(t, j))
    requires Tells(TheItem(st, j), j, before)
    ensures Tells(TheItem(t, j), j, Or(Touched(st, e, t, j), before))
  {
    ItemStepTells(st, e, j, before, TheItem(st, j), TheItem(t, j));
    assert st.outbox[j] == [TheItem(st, j)] && t.outbox[j] == [TheItem(t, j)];
  }

  lemma ItemStepTells(st: Store, e: Event, j: Id, before: Event, a: Item, b: Item)
    requires j in st.jobs && ItemStep(st, e, j, a, b) && Tells(a, j, before)
    ensures Tells(b, j, if b != a then e else before)
  {
  }

  lemma NewItemTells(st: Store, e: Event, j: Id)
    requires WellFormed(st) && Allowed(st, e) && j in Apply(st, e).outbox && j !in st.outbox
    ensures OneItem(Apply(st, e), j) && Tells(TheItem(Apply(st, e), j), j, e)
    ensures Touched(st, e, Apply(st, e), j) == Some(e)
  {
    NewItemIsPending(st, e, j);
    KeepsOneItem(st, e, j);
  }

  /** In every run an item tells who touched it last, when and how: its maker, its lease holder, or the mark that settled it. */
  lemma {:induction false} ItemTellsLastTouch(run: Run, i: nat, j: Id)
    requires IsRun(run) && i < |run.states| && j in run.states[i].outbox
    ensures OneItem(run.states[i], j)
    ensures Last(Touches(run, i, j)).Some? && Tells(TheItem(run.states[i], j), j, Last(Touches(run, i, j)).value)
  {
    var st, e, t := run.states[i - 1], run.events[i - 1], run.states[i];
    LastStep(Touches(run, i - 1, j), Touches(run, i, j));
    if j in st.outbox {
      ItemTellsLastTouch(run, i - 1, j);
      ItemSurvives(run, i - 1, j);
      TouchTells(st, e, t, j, Last(Touches(run, i - 1, j)).value);
    } else {
      AlwaysWellFormed(run, i - 1);
      assert Step(st, e, t);
      NewItemTells(st, e, j);
    }
  }

  /**
   An item is due exactly if its job is at the stage for it and the time has come:
   at once if it is new, after the backoff of its last retry, or when the lease of
   its last claim has run out.
   */
  lemma DueIffTimeHasCome(run: Run, i: nat, j: Id, now: int)
    requires IsRun(run) && i < |run.states| && j in run.states[i].outbox
    ensures OneItem(run.states[i], j) && Last(Touches(run, i, j)).Some?
    ensures var e, status := Last(Touches(run, i, j)).value, run.states[i].jobs[j].status;
      Claimable(TheItem(run.states[i], j), status, now) <==>
        || (e.op.OpPersist? && status == AwaitingPublish)
        || (e.op.OpSettle? && e.op.how.Retry? && e.now + e.op.how.backoff <= now && status == AwaitingPublish)
        || (e.op.OpClaim? && e.now + e.op.duration <= now && status == Publishing)
  {
    ItemTellsLastTouch(run, i, j);
  }

  // ---------------------------------------------------------------- comments

  /** The comment shown for the job is at the stage of its item, and the job is past queueing. */
  ghost predicate CommentFits(st: Store, j: Id) {
    j in st.outbox ==>
      && OneItem(st, j) && j in st.comments
      && st.comments[j].status == StageOf(TheItem(st, j).status)
      && st.jobs[j].status != Queued && st.jobs[j].status != Running
      && (st.jobs[j].status == AwaitingPublish ==> StageOf(TheItem(st, j).status) == CommentPending)
  }

  function StageOf(status: ItemStatus): CommentStatus {
    match status
    case Published => CommentPublished
    case ItemSkipped => CommentSkipped
    case ItemFailed => CommentFailed
    case _ => CommentPending
  }

  /** Under the callers' own guards the comment state follows the item in every run, late failures included. */
  lemma {:induction false} CommentFollowsItem(run: Run, i: nat, j: Id)
    requires IsRun(run) && i < |run.states| && IsProtocol(run, i)
    ensures CommentFits(run.states[i], j)
  {
    if i > 0 {
      CommentFollowsItem(run, i - 1, j);
      AlwaysWellFormed(run, i - 1);
      assert Step(run.states[i - 1], run.events[i - 1], run.states[i]) && ProtocolStep(run.states[i - 1], run.events[i - 1]);
      CommentStep(run.states[i - 1], run.events[i - 1], j);
    }
  }

  lemma CommentStep(st: Store, e: Event, j: Id)
    requires WellFormed(st) && Allowed(st, e) && ProtocolStep(st, e) && CommentFits(st, j)
    ensures CommentFits(Apply(st, e), j)
  {
    var t := Apply(st, e);
    if j in st.outbox {
      ItemsStep(st, e, j);
      KeepsOneItem(st, e, j);
      JobStep(st, e, j);
      if Marks(st, e, j) {
        AcceptsIffHoldsLease(st, j, e.op.owner, e.op.generation);
        AcceptedMarkEndsLease(st, e, j);
      }
      CommentKeepsUp(st, e, j, t);
    } else if j in t.outbox {
      NewItemIsPending(st, e, j);
      KeepsOneItem(st, e, j);
      ItemWasPersisted(st, e, j);
      JobStep(st, e, j);
    }
  }

  lemma CommentKeepsUp(st: Store, e: Event, j: Id, t: Store)
    requires OneItem(st, j) && OneItem(t, j) && CommentFits(st, j) && ProtocolStep(st, e)
    requires t == Apply(st, e) && ItemStep(st, e, j, TheItem(st, j), TheItem(t, j))
    requires JobFollows(st, e, j, st.jobs[j], t.jobs[j]) && CommentFollows(st, e, j, t)
    requires Marks(st, e, j) ==> TheItem(t, j) == SettledItem(TheItem(st, j), e.op.how, e.now)
    ensures CommentFits(t, j)
  {
  }
}
