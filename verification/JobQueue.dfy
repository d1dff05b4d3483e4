/** The in-memory job queue: maps overwritten in place, with loops over the outbox. */
module JobQueue {
  import opened Wrappers
  import opened Ordering
  import opened JobStore

  class InMemoryJobQueue {
    var jobs: map<Id, Job>
    var order: seq<Id>
    var outbox: map<Id, seq<Item>>
    var comments: map<Id, Comment>

    ghost function View(): Store
      reads this
    {
      Store(jobs, order, outbox, comments)
    }

    constructor ()
      ensures View() == EMPTY
    {
      jobs, order, outbox, comments := map[], [], map[], map[];
    }

    method Enqueue(id: Id, input: JobInput, now: int) returns (job: Job)
      modifies this
      ensures View() == JobStore.Enqueue(old(View()), id, input, now) && job == jobs[id]
    {
      job := NewJob(input, now);
      jobs := jobs[id := job];
    }

    method MarkRunning(id: Id, now: int) returns (updated: Option<Job>)
      modifies this
      ensures View() == JobStore.MarkRunning(old(View()), id, now)
      ensures updated.Some? <==> id in old(jobs) && old(jobs)[id].status == Queued
      ensures updated.Some? ==> updated.value == jobs[id]
    {
      if id !in jobs || jobs[id].status != Queued { return None; }
      var job := jobs[id].(status := Running, startedAt := Some(now), updatedAt := now);
      jobs := jobs[id := job];
      updated := Some(job);
    }

    method MarkSucceeded(id: Id, report: nat, valid: bool, now: int) returns (r: Result<Option<Job>, PersistError>)
      modifies this
      ensures View() == JobStore.MarkSucceeded(old(View()), id, report, valid, now)
      ensures r.Err? <==> id in old(jobs) && !valid
      ensures r.Ok? ==> (r.value.Some? <==> id in old(jobs)) && (r.value.Some? ==> r.value.value == jobs[id])
    {
      if id !in jobs { return Ok(None); }
      if !valid { return Err(InvalidReport); }
      var job := jobs[id].(status := JobSucceeded, result := Some(report), finishedAt := Some(now), updatedAt := now);
      jobs := jobs[id := job];
      r := Ok(Some(job));
    }

    method MarkFailed(id: Id, error: string, now: int) returns (updated: Option<Job>)
      modifies this
      ensures View() == JobStore.MarkFailed(old(View()), id, error, now)
      ensures updated.Some? <==> id in old(jobs)
      ensures updated.Some? ==> updated.value == jobs[id]
    {
      if id !in jobs { return None; }
      var job := jobs[id].(status := JobFailed, error := Some(error), finishedAt := Some(now), updatedAt := now);
      jobs := jobs[id := job];
      updated := Some(job);
    }

    method UpdateStatus(id: Id, status: JobStatus, error: Option<string>, now: int) returns (updated: Option<Job>)
      modifies this
      ensures View() == JobStore.UpdateStatus(old(View()), id, status, error, now)
      ensures updated.Some? <==> id in old(jobs) && (status == Running ==> old(jobs)[id].status == Queued)
      ensures updated.Some? ==> id in jobs && updated.value == jobs[id]
    {
      if status == Running {
        updated := MarkRunning(id, now);
      } else if status == JobFailed {
        updated := MarkFailed(id, if error.Some? then error.value else "Job failed", now);
      } else if id !in jobs {
        updated := None;
      } else {
        var job := jobs[id].(status := status, error := error, updatedAt := now);
        jobs := jobs[id := job];
        updated := Some(job);
      }
    }

    /** Fails each running job of `stale` and counts them; the map may be walked in any order. */
    method FailRunning(stale: set<Id>, error: string, now: int) returns (recovered: nat)
      modifies this
      ensures View() == JobStore.FailRunning(old(View()), stale, error, now)
      ensures recovered == |set id | id in old(jobs) && old(jobs)[id].status == Running && id in stale|
    {
      jobs, recovered := FailAll(jobs, stale, error, now);
    }

    /** Fails the running jobs started before the cutoff. */
    method RecoverStaleRunningJobs(cutoff: int, now: int) returns (recovered: nat)
      modifies this
      ensures View() == JobStore.FailRunning(old(View()), StaleJobs(old(View()), cutoff), "Job execution timed out while running", now)
      ensures recovered == |StaleJobs(old(View()), cutoff)|
    {
      var stale := set id | id in jobs && jobs[id].status == Running && jobs[id].startedAt.Some? && jobs[id].startedAt.value < cutoff;
      assert stale == StaleJobs(View(), cutoff);
      assert stale == set id | id in jobs && jobs[id].status == Running && id in stale;
      recovered := FailRunning(stale, "Job execution timed out while running", now);
    }

    /** Fails every running job: none survives a restart. */
    method FailInterruptedRunningJobs(now: int) returns (recovered: nat)
      modifies this
      ensures View() == JobStore.FailRunning(old(View()), old(jobs).Keys, "Job interrupted by API restart", now)
      ensures forall id | id in jobs :: jobs[id].status != Running
      ensures recovered == |set id | id in old(jobs) && old(jobs)[id].status == Running|
    {
      assert (set id | id in jobs && jobs[id].status == Running)
        == set id | id in jobs && jobs[id].status == Running && id in jobs.Keys;
      recovered := FailRunning(jobs.Keys, "Job interrupted by API restart", now);
    }

    method PersistReportAndEnqueuePublish(id: Id, report: nat, valid: bool, newItem: Id, now: int)
      returns (r: Result<(), PersistError>)
      modifies this
      ensures View() == Persist(old(View()), id, report, valid, newItem, now)
      ensures r == PersistOutcome(old(View()), id, valid)
    {
      if id !in jobs { return Err(JobNotFound); }
      var job := jobs[id];
      if job.status == Publishing || job.status == JobSucceeded || job.status == PublishFailed { return Ok(()); }
      if job.status != Running && job.status != AwaitingPublish { return Err(InvalidStatus(job.status)); }
      if !valid { return Err(InvalidReport); }
      if job.policy == Disabled {
        jobs := jobs[id := job.(status := JobSucceeded, result := Some(report), finishedAt := Some(now), updatedAt := now)];
        comments := comments[id := Comment(CommentSkipped, None)];
        return Ok(());
      }
      jobs := jobs[id := job.(status := AwaitingPublish, result := Some(report), updatedAt := now)];
      comments := comments[id := Comment(CommentPending, None)];
      var existing := if id in outbox then outbox[id] else [];
      if existing == [] {
        assert existing + [NewItem(newItem, id, now)] == [NewItem(newItem, id, now)];
        order := if id in outbox then order else order + [id];
        outbox := outbox[id := existing + [NewItem(newItem, id, now)]];
      }
      r := Ok(());
    }

    /** Leases up to `limit` due items for `owner`, walking the outbox in insertion order. */
    method ClaimPublishOutboxItem(owner: nat, duration: int, limit: int, now: int) returns (claimed: seq<Item>)
      modifies this
      ensures limit <= 0 ==> View() == old(View()) && claimed == []
      ensures limit > 0 ==> Claim(View(), claimed) == ClaimJobs(old(View()), |old(order)|, owner, now + duration, limit, now)
    {
      claimed := [];
      if limit <= 0 { return; }
      ghost var before := View();
      for n := 0 to |order|
        invariant order == before.order
        invariant Claim(View(), claimed) == ClaimJobs(before, n, owner, now + duration, limit, now)
      {
        if |claimed| < limit && order[n] in jobs && order[n] in outbox {
          claimed := ClaimFromJob(order[n], jobs[order[n]], claimed, owner, now + duration, limit, now);
          ClaimKeepsOrder(before, n + 1, owner, now + duration, limit, now);
        }
      }
    }

    /** The inner loop over one job's items; `job` is the row read before it. */
    method ClaimFromJob(jobId: Id, job: Job, soFar: seq<Item>, owner: nat, expires: int, limit: int, now: int)
      returns (claimed: seq<Item>)
      requires jobId in outbox && jobId in jobs
      modifies this
      ensures Claim(View(), claimed) ==
        ClaimItems(Claim(old(View()), soFar), jobId, job, |old(outbox)[jobId]|, owner, expires, limit, now)
    {
      claimed := soFar;
      ghost var c := Claim(View(), soFar);
      var size := |outbox[jobId]|;
      for k := 0 to size
        invariant jobId in outbox && |outbox[jobId]| == size
        invariant Claim(View(), claimed) == ClaimItems(c, jobId, job, k, owner, expires, limit, now)
      {
        var item := outbox[jobId][k];
        if |claimed| < limit && Claimable(item, job.status, now) {
          var leased := Lease(item, owner, expires, now);
          outbox := outbox[jobId := outbox[jobId][k := leased]];
          claimed := claimed + [leased];
          if job.status == AwaitingPublish {
            jobs := jobs[jobId := job.(status := Publishing, updatedAt := now)];
          }
        }
      }
    }

    /** The three marks share the search for the item and the fencing check. */
    method MarkPublishOutbox(id: Id, owner: nat, generation: nat, how: Settlement, now: int) returns (accepted: bool)
      modifies this
      ensures View() == Settle(old(View()), id, owner, generation, how, now)
      ensures accepted == Accepts(old(View()), id, owner, generation)
    {
      var at := Find(id);
      if at.None? { return false; }
      var (jobId, k) := at.value;
      var item := outbox[jobId][k];
      if item.status != Leased || item.leaseOwner != Some(owner) || item.leaseGeneration != generation
         || jobId !in jobs || jobs[jobId].status != Publishing {
        return false;
      }
      outbox := outbox[jobId := outbox[jobId][k := SettledItem(item, how, now)]];
      jobs := jobs[jobId := SettledJob(jobs[jobId], how, now)];
      comments := comments[jobId := SettledComment(how)];
      accepted := true;
    }

    /** The loop over the outbox entries that looks for an item by id. */
    method Find(id: Id) returns (at: Option<(Id, nat)>)
      ensures at == Locate(View(), order, id)
    {
      for n := 0 to |order|
        invariant Locate(View(), order, id) == Locate(View(), order[n..], id)
      {
        if order[n] in outbox {
          var k := IndexOfItem(outbox[order[n]], id);
          if k.Some? { return Some((order[n], k.value)); }
        }
      }
      at := None;
    }
  }

  /** The rows outside `rest` have been dealt with, and `failed` are those of them that were failed. */
  ghost predicate FailedOutside(jobs: map<Id, Job>, jobs': map<Id, Job>, rest: set<Id>, failed: set<Id>,
                                stale: set<Id>, error: string, now: int) {
    && jobs'.Keys == jobs.Keys
    && (forall id | id in jobs ::
        jobs'[id] == if id !in rest && id in stale then FailIfRunning(jobs[id], error, now) else jobs[id])
    && (forall id :: id in failed <==> id in jobs && id !in rest && jobs[id].status == Running && id in stale)
  }

  lemma FailOneMore(jobs: map<Id, Job>, jobs': map<Id, Job>, rest: set<Id>, failed: set<Id>, id: Id,
                    stale: set<Id>, error: string, now: int)
    requires FailedOutside(jobs, jobs', rest, failed, stale, error, now) && id in rest && id in jobs
    ensures jobs'[id] == jobs[id] && id !in failed
    ensures if jobs[id].status == Running && id in stale
      then FailedOutside(jobs, jobs'[id := FailIfRunning(jobs[id], error, now)], rest - {id}, failed + {id}, stale, error, now)
      else FailedOutside(jobs, jobs', rest - {id}, failed, stale, error, now)
  {
  }

  /** The loop over the job rows; the map may be walked in any order. */
  method FailAll(jobs: map<Id, Job>, stale: set<Id>, error: string, now: int) returns (jobs': map<Id, Job>, recovered: nat)
    ensures jobs' == map id | id in jobs :: if id in stale then FailIfRunning(jobs[id], error, now) else jobs[id]
    ensures recovered == |set id | id in jobs && jobs[id].status == Running && id in stale|
  {
    jobs', recovered := jobs, 0;
    var rest := jobs.Keys;
    ghost var failed: set<Id> := {};
    while rest != {}
      invariant rest <= jobs.Keys && FailedOutside(jobs, jobs', rest, failed, stale, error, now)
      invariant recovered == |failed|
      decreases |rest|
    {
      var id :| id in rest;
      FailOneMore(jobs, jobs', rest, failed, id, stale, error, now);
      rest := rest - {id};
      if jobs'[id].status == Running && id in stale {
        jobs' := jobs'[id := FailIfRunning(jobs'[id], error, now)];
        failed := failed + {id};
        recovered := recovered + 1;
      }
    }
    assert failed == set id | id in jobs && jobs[id].status == Running && id in stale;
  }

  lemma {:induction false} ClaimKeepsOrder(st: Store, n: nat, owner: nat, expires: int, limit: int, now: int)
    requires n <= |st.order|
    ensures ClaimJobs(st, n, owner, expires, limit, now).store.order == st.order
  {
    if n > 0 {
      ClaimKeepsOrder(st, n - 1, owner, expires, limit, now);
      var c := ClaimJobs(st, n - 1, owner, expires, limit, now);
      var jobId := st.order[n - 1];
      if |c.claimed| < limit && jobId in c.store.jobs && jobId in c.store.outbox {
        ItemsKeepOrder(c, jobId, c.store.jobs[jobId], |c.store.outbox[jobId]|, owner, expires, limit, now);
      }
    }
  }

  lemma {:induction false} ItemsKeepOrder(c: Claim, jobId: Id, job: Job, k: nat, owner: nat, expires: int, limit: int, now: int)
    ensures ClaimItems(c, jobId, job, k, owner, expires, limit, now).store.order == c.store.order
  {
    if k > 0 {
      ItemsKeepOrder(c, jobId, job, k - 1, owner, expires, limit, now);
    }
  }
}
