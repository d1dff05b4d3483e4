/**
 Review jobs and their publish outbox: the values, and what each queue operation
 does to them. Times are integer milliseconds; identifiers that the code draws at
 random are passed in and required to be new.
 */
module JobStore {
  import opened Wrappers
  import opened Ordering

  datatype JobStatus =
    | Queued | Running | AwaitingPublish | Publishing
    | JobSucceeded | JobFailed | PublishFailed | Cancelled

  datatype ItemStatus = Pending | Leased | Retrying | Published | ItemFailed | ItemSkipped

  datatype Policy = GithubComment | Disabled

  datatype AccessMode = GithubApp | PublicRead | LocalGit

  datatype Job = Job(status: JobStatus, accessMode: AccessMode, installation: Option<nat>, policy: Policy,
                     createdAt: int, updatedAt: int, startedAt: Option<int>, finishedAt: Option<int>,
                     result: Option<nat>, error: Option<string>)

  datatype Item = Item(id: Id, jobId: Id, status: ItemStatus, attemptCount: nat, nextAttemptAt: Option<int>,
                       leaseOwner: Option<nat>, leaseExpiresAt: Option<int>, leaseGeneration: nat,
                       lastError: Option<string>, externalId: Option<nat>, updatedAt: int)

  datatype CommentStatus = CommentPending | CommentPublished | CommentFailed | CommentSkipped

  datatype Comment = Comment(status: CommentStatus, error: Option<string>)

  /** `order` is the insertion order of the JavaScript map `outbox`. */
  datatype Store = Store(jobs: map<Id, Job>, order: seq<Id>, outbox: map<Id, seq<Item>>, comments: map<Id, Comment>)

  const EMPTY := Store(map[], [], map[], map[])

  datatype JobInput = JobInput(accessMode: Option<AccessMode>, installation: Option<nat>, policy: Option<Policy>)

  function Clip(error: string): string {
    if |error| <= 500 then error else error[..500]
  }

  // ---------------------------------------------------------------- jobs

  function NewJob(input: JobInput, now: int): Job {
    var accessMode := if input.accessMode.Some? then input.accessMode.value else GithubApp;
    var policy := if accessMode == PublicRead || accessMode == LocalGit then Disabled
                  else if input.policy.Some? then input.policy.value else GithubComment;
    Job(Queued, accessMode, if accessMode == GithubApp then input.installation else None, policy,
        now, now, None, None, None, None)
  }

  function Enqueue(st: Store, id: Id, input: JobInput, now: int): Store {
    st.(jobs := st.jobs[id := NewJob(input, now)])
  }

  function MarkRunning(st: Store, id: Id, now: int): Store {
    if id !in st.jobs || st.jobs[id].status != Queued then st
    else st.(jobs := st.jobs[id := st.jobs[id].(status := Running, startedAt := Some(now), updatedAt := now)])
  }

  /** `valid` says whether the report passes its schema; if not the call throws. */
  function MarkSucceeded(st: Store, id: Id, report: nat, valid: bool, now: int): Store {
    if id !in st.jobs || !valid then st
    else st.(jobs := st.jobs[id := st.jobs[id].(status := JobSucceeded, result := Some(report),
                                                finishedAt := Some(now), updatedAt := now)])
  }

  function MarkFailed(st: Store, id: Id, error: string, now: int): Store {
    if id !in st.jobs then st
    else st.(jobs := st.jobs[id := st.jobs[id].(status := JobFailed, error := Some(error),
                                                finishedAt := Some(now), updatedAt := now)])
  }

  function UpdateStatus(st: Store, id: Id, status: JobStatus, error: Option<string>, now: int): Store {
    if status == Running then MarkRunning(st, id, now)
    else if status == JobFailed then MarkFailed(st, id, if error.Some? then error.value else "Job failed", now)
    else if id !in st.jobs then st
    else st.(jobs := st.jobs[id := st.jobs[id].(status := status, error := error, updatedAt := now)])
  }

  /** Every running job that `stale` selects is failed with the given message. */
  function FailRunning(st: Store, stale: set<Id>, error: string, now: int): Store {
    st.(jobs := map id | id in st.jobs :: if id in stale then FailIfRunning(st.jobs[id], error, now) else st.jobs[id])
  }

  function FailIfRunning(job: Job, error: string, now: int): Job {
    if job.status == Running
    then job.(status := JobFailed, error := Some(error), finishedAt := Some(now), updatedAt := now)
    else job
  }

  /** The running jobs started before the cutoff. */
  function StaleJobs(st: Store, cutoff: int): set<Id> {
    set id | id in st.jobs && st.jobs[id].status == Running && st.jobs[id].startedAt.Some? && st.jobs[id].startedAt.value < cutoff
  }

  // ---------------------------------------------------------------- entering the outbox

  datatype PersistError = JobNotFound | InvalidStatus(status: JobStatus) | InvalidReport

  function NewItem(id: Id, jobId: Id, now: int): Item {
    Item(id, jobId, Pending, 0, None, None, None, 0, None, None, now)
  }

  function Items(st: Store, jobId: Id): seq<Item> {
    if jobId in st.outbox then st.outbox[jobId] else []
  }

  /** The outcome of persisting a report, as returned to the caller. */
  function PersistOutcome(st: Store, id: Id, valid: bool): Result<(), PersistError> {
    if id !in st.jobs then Err(JobNotFound)
    else var status := st.jobs[id].status;
      if status == Publishing || status == JobSucceeded || status == PublishFailed then Ok(())
      else if status != Running && status != AwaitingPublish then Err(InvalidStatus(status))
      else if !valid then Err(InvalidReport)
      else Ok(())
  }

  /** An accepted report either ends the job or queues one item for publication. */
  function Persist(st: Store, id: Id, report: nat, valid: bool, newItem: Id, now: int): Store {
    if id !in st.jobs || !valid then st
    else var job := st.jobs[id];
      if job.status != Running && job.status != AwaitingPublish then st
      else if job.policy == Disabled then
        st.(jobs := st.jobs[id := job.(status := JobSucceeded, result := Some(report), finishedAt := Some(now), updatedAt := now)],
            comments := st.comments[id := Comment(CommentSkipped, None)])
      else
        var queued := st.(jobs := st.jobs[id := job.(status := AwaitingPublish, result := Some(report), updatedAt := now)],
                          comments := st.comments[id := Comment(CommentPending, None)]);
        if Items(st, id) != [] then queued
        else queued.(outbox := st.outbox[id := [NewItem(newItem, id, now)]],
                     order := if id in st.outbox then st.order else st.order + [id])
  }

  // ---------------------------------------------------------------- leasing

  /** A waiting item that is due, or a lease that has run out. */
  predicate Claimable(item: Item, status: JobStatus, now: int) {
    || ((item.status == Pending || item.status == Retrying)
        && (item.nextAttemptAt.None? || item.nextAttemptAt.value <= now)
        && status == AwaitingPublish)
    || (item.status == Leased
        && item.leaseExpiresAt.Some? && item.leaseExpiresAt.value <= now
        && status == Publishing)
  }

  function Lease(item: Item, owner: nat, expires: int, now: int): Item {
    item.(status := Leased, leaseOwner := Some(owner), leaseExpiresAt := Some(expires),
          leaseGeneration := item.leaseGeneration + 1, updatedAt := now)
  }

  /** A claim in progress: the store so far and the items handed out. */
  datatype Claim = Claim(store: Store, claimed: seq<Item>)

  /** Looks at item `k` of `jobId`; `job` is the row read before the loop over its items. */
  function ClaimItem(c: Claim, jobId: Id, job: Job, k: nat, owner: nat, expires: int, limit: int, now: int): Claim {
    if jobId !in c.store.outbox || k >= |c.store.outbox[jobId]| || |c.claimed| >= limit
       || !Claimable(c.store.outbox[jobId][k], job.status, now) then c
    else
      var item := c.store.outbox[jobId][k];
      var leased := Lease(item, owner, expires, now);
      var st := c.store.(outbox := c.store.outbox[jobId := c.store.outbox[jobId][k := leased]]);
      var st' := if job.status == AwaitingPublish
                 then st.(jobs := st.jobs[jobId := job.(status := Publishing, updatedAt := now)])
                 else st;
      Claim(st', c.claimed + [leased])
  }

  /** After the first `k` items of `jobId`. */
  function ClaimItems(c: Claim, jobId: Id, job: Job, k: nat, owner: nat, expires: int, limit: int, now: int): Claim {
    if k == 0 then c
    else ClaimItem(ClaimItems(c, jobId, job, k - 1, owner, expires, limit, now), jobId, job, k - 1, owner, expires, limit, now)
  }

  /** After the first `n` jobs of the outbox. */
  function ClaimJobs(st: Store, n: nat, owner: nat, expires: int, limit: int, now: int): Claim
    requires n <= |st.order|
  {
    if n == 0 then Claim(st, [])
    else
      var c := ClaimJobs(st, n - 1, owner, expires, limit, now);
      var jobId := st.order[n - 1];
      if |c.claimed| >= limit || jobId !in c.store.jobs || jobId !in c.store.outbox then c
      else ClaimItems(c, jobId, c.store.jobs[jobId], |c.store.outbox[jobId]|, owner, expires, limit, now)
  }

  // ---------------------------------------------------------------- settling a lease

  function IndexOfItem(items: seq<Item>, id: Id): (r: Option<nat>)
    ensures r.Some? ==> r.value < |items| && items[r.value].id == id
    ensures r.None? <==> forall i | 0 <= i < |items| :: items[i].id != id
  {
    if items == [] then None
    else if items[0].id == id then Some(0)
    else var r := IndexOfItem(items[1..], id);
      if r.None? then None else Some(r.value + 1)
  }

  /** The first place, in map order, that holds the item. */
  function Locate(st: Store, order: seq<Id>, id: Id): (r: Option<(Id, nat)>)
    ensures r.Some? ==> r.value.0 in order && r.value.0 in st.outbox && r.value.1 < |st.outbox[r.value.0]|
                        && st.outbox[r.value.0][r.value.1].id == id
    ensures r.None? ==> forall j, i | j in order && j in st.outbox && 0 <= i < |st.outbox[j]| :: st.outbox[j][i].id != id
  {
    if order == [] then None
    else
      var here := if order[0] in st.outbox then IndexOfItem(st.outbox[order[0]], id) else None;
      if here.Some? then Some((order[0], here.value)) else Locate(st, order[1..], id)
  }

  /** The fencing check: the caller still holds this very lease and the job is being published. */
  predicate HoldsLease(st: Store, jobId: Id, item: Item, owner: nat, generation: nat) {
    && item.status == Leased
    && item.leaseOwner == Some(owner)
    && item.leaseGeneration == generation
    && jobId in st.jobs && st.jobs[jobId].status == Publishing
  }

  datatype Settlement =
    | Success(skipped: bool, externalId: Option<nat>)
    | Retry(error: string, backoff: int)
    | Failure(error: string)

  function SettledItem(item: Item, how: Settlement, now: int): Item {
    match how
    case Success(skipped, externalId) =>
      item.(status := if skipped then ItemSkipped else Published,
            externalId := if externalId.Some? then externalId else item.externalId,
            leaseOwner := None, leaseExpiresAt := None, updatedAt := now)
    case Retry(error, backoff) =>
      item.(attemptCount := item.attemptCount + 1, status := Retrying, nextAttemptAt := Some(now + backoff),
            lastError := Some(Clip(error)), leaseOwner := None, leaseExpiresAt := None, updatedAt := now)
    case Failure(error) =>
      item.(attemptCount := item.attemptCount + 1, status := ItemFailed, lastError := Some(Clip(error)),
            leaseOwner := None, leaseExpiresAt := None, updatedAt := now)
  }

  function SettledJob(job: Job, how: Settlement, now: int): Job {
    match how
    case Success(_, _) => job.(status := JobSucceeded, finishedAt := Some(now), updatedAt := now)
    case Retry(_, _) => job.(status := AwaitingPublish, updatedAt := now)
    case Failure(error) =>
      job.(status := PublishFailed, error := Some(Clip(error)), finishedAt := Some(now), updatedAt := now)
  }

  function SettledComment(how: Settlement): Comment {
    match how
    case Success(skipped, _) => Comment(if skipped then CommentSkipped else CommentPublished, None)
    case Retry(error, _) => Comment(CommentPending, Some(Clip(error)))
    case Failure(error) => Comment(CommentFailed, Some(Clip(error)))
  }

  /** Whether a mark is accepted. */
  predicate Accepts(st: Store, id: Id, owner: nat, generation: nat) {
    var at := Locate(st, st.order, id);
    at.Some? && HoldsLease(st, at.value.0, st.outbox[at.value.0][at.value.1], owner, generation)
  }

  function Settle(st: Store, id: Id, owner: nat, generation: nat, how: Settlement, now: int): Store {
    if !Accepts(st, id, owner, generation) then st
    else
      var (jobId, k) := Locate(st, st.order, id).value;
      var items := st.outbox[jobId];
      st.(outbox := st.outbox[jobId := items[k := SettledItem(items[k], how, now)]],
          jobs := st.jobs[jobId := SettledJob(st.jobs[jobId], how, now)],
          comments := st.comments[jobId := SettledComment(how)])
  }
}
