/**
 What the job queue keeps over whole runs: one outbox item per job, fencing by
 lease generation, conservation of attempts, and the coupling of job and item status.
 */
module JobTraces {
  import opened Wrappers
  import opened Ordering
  import opened JobStore

  datatype Op =
    | OpEnqueue(id: Id, input: JobInput)
    | OpMarkRunning(id: Id)
    | OpMarkSucceeded(id: Id, report: nat, valid: bool)
    | OpMarkFailed(id: Id, error: string)
    | OpUpdateStatus(id: Id, status: JobStatus, reason: Option<string>)
    | OpFailRunning(stale: set<Id>, error: string)
    | OpPersist(id: Id, report: nat, valid: bool, newItem: Id)
    | OpClaim(owner: nat, duration: int, limit: int)
    | OpSettle(item: Id, owner: nat, generation: nat, how: Settlement)

  /** One call, at one reading of the clock; readings need not be ordered. */
  datatype Event = Event(op: Op, now: int)

  // ---------------------------------------------------------------- structure

  ghost predicate OneItem(st: Store, j: Id) {
    && j in st.outbox && |st.outbox[j]| == 1
    && var item := st.outbox[j][0];
    && item.jobId == j
    && (item.leaseOwner.Some? <==> item.status == Leased)
    && (item.leaseExpiresAt.Some? <==> item.status == Leased)
    && j in st.jobs && st.jobs[j].policy == GithubComment
  }

  ghost predicate UniqueItemIds(st: Store) {
    forall i, j | i in st.outbox && j in st.outbox && |st.outbox[i]| == 1 && |st.outbox[j]| == 1
      && st.outbox[i][0].id == st.outbox[j][0].id :: i == j
  }

  /** Jobs without write access never publish. */
  ghost predicate PrivateStaysPrivate(st: Store) {
    forall j | j in st.jobs && st.jobs[j].accessMode != GithubApp :: st.jobs[j].policy == Disabled
  }

  ghost predicate WellFormed(st: Store) {
    && (forall j :: j in st.order <==> j in st.outbox)
    && Distinct(st.order)
    && (forall j | j in st.outbox :: OneItem(st, j))
    && UniqueItemIds(st)
    && PrivateStaysPrivate(st)
  }

  function TheItem(st: Store, j: Id): Item
    requires j in st.outbox && |st.outbox[j]| == 1
  {
    st.outbox[j][0]
  }

  // ---------------------------------------------------------------- runs

  ghost predicate FreshItem(st: Store, id: Id) {
    forall j | j in st.outbox && |st.outbox[j]| == 1 :: st.outbox[j][0].id != id
  }

  /** Ids drawn at random have not been used before. */
  ghost predicate Allowed(st: Store, e: Event) {
    match e.op
    case OpEnqueue(id, _) => id !in st.jobs
    case OpPersist(_, _, _, newItem) => FreshItem(st, newItem)
    case _ => true
  }

  ghost function ClaimAll(st: Store, owner: nat, duration: int, limit: int, now: int): Claim {
    if limit <= 0 then Claim(st, [])
    else ClaimJobs(st, |st.order|, owner, now + duration, limit, now)
  }

  ghost function Apply(st: Store, e: Event): Store {
    match e.op
    case OpEnqueue(id, input) => Enqueue(st, id, input, e.now)
    case OpMarkRunning(id) => MarkRunning(st, id, e.now)
    case OpMarkSucceeded(id, report, valid) => MarkSucceeded(st, id, report, valid, e.now)
    case OpMarkFailed(id, error) => MarkFailed(st, id, error, e.now)
    case OpUpdateStatus(id, status, reason) => UpdateStatus(st, id, status, reason, e.now)
    case OpFailRunning(stale, error) => FailRunning(st, stale, error, e.now)
    case OpPersist(id, report, valid, newItem) => Persist(st, id, report, valid, newItem, e.now)
    case OpClaim(owner, duration, limit) => ClaimAll(st, owner, duration, limit, e.now).store
    case OpSettle(item, owner, generation, how) => JobStore.Settle(st, item, owner, generation, how, e.now)
  }

  /** A run: the events and the store before and after each of them. */
  datatype Run = Run(events: seq<Event>, states: seq<Store>)

  ghost predicate Step(st: Store, e: Event, t: Store) {
    Allowed(st, e) && t == Apply(st, e)
  }

  ghost predicate IsRun(run: Run) {
    && |run.states| == |run.events| + 1
    && run.states[0] == EMPTY
    && forall i | 0 <= i < |run.events| :: Step(run.states[i], run.events[i], run.states[i + 1])
  }

  // ---------------------------------------------------------------- what a claim does

  /** The job's item was leased, and a job that was waiting is now being published. */
  ghost predicate LeasedAt(st: Store, t: Store, j: Id, owner: nat, expires: int, now: int) {
    && OneItem(st, j)
    && Claimable(TheItem(st, j), st.jobs[j].status, now)
    && j in t.outbox && t.outbox[j] == [Lease(TheItem(st, j), owner, expires, now)]
    && j in t.jobs
    && t.jobs[j] == if st.jobs[j].status == AwaitingPublish
                    then st.jobs[j].(status := Publishing, updatedAt := now)
                    else st.jobs[j]
  }

  ghost predicate UntouchedAt(st: Store, t: Store, j: Id) {
    && (j in t.outbox <==> j in st.outbox) && (j in st.outbox ==> t.outbox[j] == st.outbox[j])
    && (j in t.jobs <==> j in st.jobs) && (j in st.jobs ==> t.jobs[j] == st.jobs[j])
  }

  /** The first `n` jobs may have been leased; nothing else changed. */
  ghost predicate LeasedUpTo(st: Store, t: Store, n: nat, owner: nat, expires: int, now: int)
    requires n <= |st.order|
  {
    && t.order == st.order && t.comments == st.comments
    && forall j :: UntouchedAt(st, t, j) || (j in st.order[..n] && LeasedAt(st, t, j, owner, expires, now))
  }

  /** The loop over one job's items: its item is leased if it is due and there is room. */
  ghost predicate OneJobClaimed(c: Claim, r: Claim, j: Id, owner: nat, expires: int, limit: int, now: int) {
    && OneItem(c.store, j)
    && r.store.order == c.store.order && r.store.comments == c.store.comments
    && (forall i | i != j :: UntouchedAt(c.store, r.store, i))
    && (if |c.claimed| < limit && Claimable(TheItem(c.store, j), c.store.jobs[j].status, now)
        then LeasedAt(c.store, r.store, j, owner, expires, now)
             && r.claimed == c.claimed + [Lease(TheItem(c.store, j), owner, expires, now)]
        else r == c)
  }

  lemma ClaimOneJob(c: Claim, j: Id, owner: nat, expires: int, limit: int, now: int)
    requires OneItem(c.store, j)
    ensures OneJobClaimed(c, ClaimItems(c, j, c.store.jobs[j], |c.store.outbox[j]|, owner, expires, limit, now),
                          j, owner, expires, limit, now)
  {
    assert ClaimItems(c, j, c.store.jobs[j], 0, owner, expires, limit, now) == c;
    assert ClaimItems(c, j, c.store.jobs[j], 1, owner, expires, limit, now) ==
           ClaimItem(c, j, c.store.jobs[j], 0, owner, expires, limit, now);
  }

  lemma {:induction false} ClaimLeases(st: Store, n: nat, owner: nat, expires: int, limit: int, now: int)
    requires WellFormed(st) && n <= |st.order|
    ensures LeasedUpTo(st, ClaimJobs(st, n, owner, expires, limit, now).store, n, owner, expires, now)
  {
    if n > 0 {
      ClaimLeases(st, n - 1, owner, expires, limit, now);
      var c := ClaimJobs(st, n - 1, owner, expires, limit, now);
      var j := st.order[n - 1];
      assert OneItem(st, j);
      NotYetLeased(st, c.store, n, owner, expires, now);
      assert OneItem(c.store, j);
      var t := ClaimJobs(st, n, owner, expires, limit, now).store;
      ClaimNextJob(st, n, owner, expires, limit, now);
      LeaseOneMore(st, c.store, t, n, owner, expires, now);
    }
  }

  lemma ClaimNextJob(st: Store, n: nat, owner: nat, expires: int, limit: int, now: int)
    requires 0 < n <= |st.order|
    requires OneItem(ClaimJobs(st, n - 1, owner, expires, limit, now).store, st.order[n - 1])
    ensures OneJobClaimed(ClaimJobs(st, n - 1, owner, expires, limit, now), ClaimJobs(st, n, owner, expires, limit, now),
                          st.order[n - 1], owner, expires, limit, now)
  {
    ClaimOneJob(ClaimJobs(st, n - 1, owner, expires, limit, now), st.order[n - 1], owner, expires, limit, now);
  }

  lemma NotYetLeased(st: Store, s: Store, n: nat, owner: nat, expires: int, now: int)
    requires 0 < n <= |st.order| && Distinct(st.order) && LeasedUpTo(st, s, n - 1, owner, expires, now)
    ensures UntouchedAt(st, s, st.order[n - 1])
  {
    assert st.order[n - 1] !in st.order[..n - 1];
  }

  lemma LeaseOneMore(st: Store, s: Store, t: Store, n: nat, owner: nat, expires: int, now: int)
    requires 0 < n <= |st.order| && LeasedUpTo(st, s, n - 1, owner, expires, now)
    requires var j := st.order[n - 1];
      && UntouchedAt(st, s, j) && OneItem(st, j)
      && t.order == s.order && t.comments == s.comments
      && (forall i | i != j :: UntouchedAt(s, t, i))
      && (t == s || LeasedAt(s, t, j, owner, expires, now))
    ensures LeasedUpTo(st, t, n, owner, expires, now)
  {
    var j := st.order[n - 1];
    assert st.order[..n] == st.order[..n - 1] + [j];
    forall i ensures UntouchedAt(st, t, i) || (i in st.order[..n] && LeasedAt(st, t, i, owner, expires, now)) {
      if i != j {
        assert UntouchedAt(s, t, i);
        assert UntouchedAt(st, s, i) || (i in st.order[..n - 1] && LeasedAt(st, s, i, owner, expires, now));
      }
    }
  }

  /** A claim leaves each job alone or leases its item. */
  lemma ClaimAllLeases(st: Store, owner: nat, duration: int, limit: int, now: int)
    requires WellFormed(st)
    ensures LeasedUpTo(st, ClaimAll(st, owner, duration, limit, now).store, |st.order|, owner, now + duration, now)
  {
    if limit > 0 {
      ClaimLeases(st, |st.order|, owner, now + duration, limit, now);
    }
  }

  lemma ClaimAt(st: Store, e: Event, j: Id)
    requires WellFormed(st) && e.op.OpClaim?
    ensures UntouchedAt(st, Apply(st, e), j) || LeasedAt(st, Apply(st, e), j, e.op.owner, e.now + e.op.duration, e.now)
    ensures Apply(st, e).order == st.order
  {
    ClaimAllLeases(st, e.op.owner, e.op.duration, e.op.limit, e.now);
  }

  // ---------------------------------------------------------------- what a mark does

  /** An accepted mark settles the one job whose item it names. */
  ghost predicate SettledAt(st: Store, t: Store, j: Id, e: Event)
    requires e.op.OpSettle? && OneItem(st, j)
  {
    && TheItem(st, j).id == e.op.item
    && HoldsLease(st, j, TheItem(st, j), e.op.owner, e.op.generation)
    && t == Store(st.jobs[j := SettledJob(st.jobs[j], e.op.how, e.now)], st.order,
                  st.outbox[j := [SettledItem(TheItem(st, j), e.op.how, e.now)]],
                  st.comments[j := SettledComment(e.op.how)])
  }

  lemma AcceptedMarkSettles(st: Store, e: Event) returns (j: Id)
    requires WellFormed(st) && e.op.OpSettle? && Accepts(st, e.op.item, e.op.owner, e.op.generation)
    ensures OneItem(st, j) && SettledAt(st, Apply(st, e), j, e)
  {
    j := Locate(st, st.order, e.op.item).value.0;
    assert OneItem(st, j);
    assert st.outbox[j][0 := SettledItem(TheItem(st, j), e.op.how, e.now)] == [SettledItem(TheItem(st, j), e.op.how, e.now)];
  }

  /** A mark is accepted exactly when it names the current lease of an item under publication. */
  lemma AcceptsIffHoldsLease(st: Store, j: Id, owner: nat, generation: nat)
    requires WellFormed(st) && j in st.outbox && |st.outbox[j]| == 1
    ensures Accepts(st, TheItem(st, j).id, owner, generation) <==> HoldsLease(st, j, TheItem(st, j), owner, generation)
  {
    var id := TheItem(st, j).id;
    var at := Locate(st, st.order, id);
    assert st.outbox[j][0].id == id && j in st.order;
    assert at.Some?;
    var i := at.value.0;
    assert OneItem(st, i) && OneItem(st, j);
    assert st.outbox[i][0].id == st.outbox[j][0].id;
  }

  // ---------------------------------------------------------------- how one event changes one item

  /** The three ways an item can come out of an event. */
  ghost predicate ItemStep(st: Store, e: Event, j: Id, before: Item, after: Item)
    requires j in st.jobs
  {
    || after == before
    || (e.op.OpClaim? && Claimable(before, st.jobs[j].status, e.now)
        && after == Lease(before, e.op.owner, e.now + e.op.duration, e.now))
    || (e.op.OpSettle? && e.op.item == before.id && HoldsLease(st, j, before, e.op.owner, e.op.generation)
        && after == SettledItem(before, e.op.how, e.now))
  }

  /** Jobs keep their access mode and policy; only enqueueing adds one. */
  ghost predicate JobsPersist(st: Store, t: Store) {
    && (forall j | j in st.jobs :: j in t.jobs && t.jobs[j].policy == st.jobs[j].policy
                                  && t.jobs[j].accessMode == st.jobs[j].accessMode)
    && (forall j | j in t.jobs && j !in st.jobs :: t.jobs[j].accessMode != GithubApp ==> t.jobs[j].policy == Disabled)
  }

  lemma JobsAlwaysPersist(st: Store, e: Event)
    requires WellFormed(st) && Allowed(st, e)
    ensures JobsPersist(st, Apply(st, e))
  {
    var t := Apply(st, e);
    if e.op.OpClaim? {
      forall j ensures (j in t.jobs <==> j in st.jobs)
        && (j in st.jobs ==> t.jobs[j].policy == st.jobs[j].policy && t.jobs[j].accessMode == st.jobs[j].accessMode)
      {
        ClaimAt(st, e, j);
      }
    } else if e.op.OpSettle? {
      if Accepts(st, e.op.item, e.op.owner, e.op.generation) {
        var j := AcceptedMarkSettles(st, e);
      }
    } else {
      OtherJobsPersist(st, e);
    }
  }

  lemma OtherJobsPersist(st: Store, e: Event)
    requires Allowed(st, e) && !e.op.OpClaim? && !e.op.OpSettle?
    ensures JobsPersist(st, Apply(st, e))
  {
    match e.op
    case OpFailRunning(stale, error) => FailingKeepsJobs(st, stale, error, e.now);
    case OpPersist(id, report, valid, newItem) => PersistKeepsJobs(st, id, report, valid, newItem, e.now);
    case OpUpdateStatus(id, status, reason) => UpdateKeepsJobs(st, id, status, reason, e.now);
    case _ =>
  }

  lemma FailingKeepsJobs(st: Store, stale: set<Id>, error: string, now: int)
    ensures JobsPersist(st, FailRunning(st, stale, error, now))
  {
  }

  lemma PersistKeepsJobs(st: Store, id: Id, report: nat, valid: bool, newItem: Id, now: int)
    ensures JobsPersist(st, Persist(st, id, report, valid, newItem, now))
  {
  }

  lemma UpdateKeepsJobs(st: Store, id: Id, status: JobStatus, reason: Option<string>, now: int)
    ensures JobsPersist(st, UpdateStatus(st, id, status, reason, now))
  {
  }

  /** Every item survives every event, changed in one of the three ways. */
  lemma ItemsStep(st: Store, e: Event, j: Id)
    requires WellFormed(st) && Allowed(st, e) && j in st.outbox
    ensures OneItem(st, j)
    ensures j in Apply(st, e).outbox && |Apply(st, e).outbox[j]| == 1
    ensures ItemStep(st, e, j, TheItem(st, j), TheItem(Apply(st, e), j))
  {
    assert OneItem(st, j);
    if e.op.OpClaim? {
      ClaimAt(st, e, j);
    } else if e.op.OpSettle? {
      if Accepts(st, e.op.item, e.op.owner, e.op.generation) {
        var i := AcceptedMarkSettles(st, e);
      }
    } else {
      OtherItemsStay(st, e, j);
    }
  }

  lemma OtherItemsStay(st: Store, e: Event, j: Id)
    requires !e.op.OpClaim? && !e.op.OpSettle? && j in st.outbox && |st.outbox[j]| == 1
    ensures j in Apply(st, e).outbox && Apply(st, e).outbox[j] == st.outbox[j]
  {
    match e.op
    case OpPersist(id, report, valid, newItem) =>
    case _ =>
  }

  /** Items are only ever added one at a time, by persisting a report. */
  lemma OnlyPersistAdds(st: Store, e: Event)
    requires WellFormed(st) && Allowed(st, e)
    ensures var t := Apply(st, e);
      || (t.order == st.order && t.outbox.Keys == st.outbox.Keys)
      || (&& e.op.OpPersist? && e.op.id !in st.outbox && e.op.id in st.jobs && st.jobs[e.op.id].policy == GithubComment
          && FreshItem(st, e.op.newItem)
          && t.order == st.order + [e.op.id]
          && t.outbox == st.outbox[e.op.id := [NewItem(e.op.newItem, e.op.id, e.now)]])
  {
    if e.op.OpClaim? {
      forall j ensures j in Apply(st, e).outbox <==> j in st.outbox { ClaimAt(st, e, j); }
      ClaimAt(st, e, Id(0));
    } else if e.op.OpSettle? {
      if Accepts(st, e.op.item, e.op.owner, e.op.generation) {
        var j := AcceptedMarkSettles(st, e);
      }
    } else if e.op.OpPersist? && e.op.id in st.outbox {
      assert OneItem(st, e.op.id);
    }
  }

  /** An item that appears during an event is a fresh pending one. */
  lemma NewItemIsPending(st: Store, e: Event, j: Id)
    requires WellFormed(st) && Allowed(st, e) && j in Apply(st, e).outbox && j !in st.outbox
    ensures e.op.OpPersist? && e.op.id == j && j in st.jobs && st.jobs[j].policy == GithubComment
    ensures Apply(st, e).outbox[j] == [NewItem(e.op.newItem, j, e.now)]
    ensures FreshItem(st, e.op.newItem)
  {
    OnlyPersistAdds(st, e);
  }

  // ---------------------------------------------------------------- the structure is kept

  lemma KeepsOneItem(st: Store, e: Event, j: Id)
    requires WellFormed(st) && Allowed(st, e) && j in Apply(st, e).outbox
    ensures OneItem(Apply(st, e), j)
  {
    JobsAlwaysPersist(st, e);
    if j in st.outbox {
      ItemsStep(st, e, j);
      StaysOneItem(st, e, Apply(st, e), j);
    } else {
      NewItemIsPending(st, e, j);
      assert TheItem(Apply(st, e), j) == NewItem(e.op.newItem, j, e.now);
    }
  }

  lemma StaysOneItem(st: Store, e: Event, t: Store, j: Id)
    requires OneItem(st, j) && JobsPersist(st, t) && j in t.outbox && |t.outbox[j]| == 1
    requires ItemStep(st, e, j, TheItem(st, j), TheItem(t, j))
    ensures OneItem(t, j)
  {
  }

  lemma KeepsItemId(st: Store, e: Event, j: Id)
    requires WellFormed(st) && Allowed(st, e) && j in Apply(st, e).outbox
    ensures |Apply(st, e).outbox[j]| == 1
    ensures j in st.outbox ==> |st.outbox[j]| == 1 && TheItem(Apply(st, e), j).id == TheItem(st, j).id
    ensures j !in st.outbox ==> e.op.OpPersist? && j == e.op.id && FreshItem(st, e.op.newItem)
    ensures j !in st.outbox ==> TheItem(Apply(st, e), j).id == e.op.newItem
  {
    if j in st.outbox {
      ItemsStep(st, e, j);
    } else {
      NewItemIsPending(st, e, j);
    }
  }

  lemma KeepsUniqueIds(st: Store, e: Event)
    requires WellFormed(st) && Allowed(st, e)
    ensures UniqueItemIds(Apply(st, e))
  {
    var t := Apply(st, e);
    forall i, j | i in t.outbox && j in t.outbox && |t.outbox[i]| == 1 && |t.outbox[j]| == 1
      && t.outbox[i][0].id == t.outbox[j][0].id ensures i == j
    {
      KeepsItemId(st, e, i);
      KeepsItemId(st, e, j);
    }
  }

  lemma KeepsWellFormed(st: Store, e: Event)
    requires WellFormed(st) && Allowed(st, e)
    ensures WellFormed(Apply(st, e))
  {
    var t := Apply(st, e);
    OnlyPersistAdds(st, e);
    JobsAlwaysPersist(st, e);
    KeepsUniqueIds(st, e);
    forall j | j in t.outbox ensures OneItem(t, j) { KeepsOneItem(st, e, j); }
    assert forall j :: j in t.order <==> j in t.outbox.Keys;
  }

  /** In every run the structure holds at every point. */
  lemma {:induction false} AlwaysWellFormed(run: Run, i: nat)
    requires IsRun(run) && i < |run.states|
    ensures WellFormed(run.states[i])
  {
    if i > 0 {
      AlwaysWellFormed(run, i - 1);
      assert Step(run.states[i - 1], run.events[i - 1], run.states[i]);
      KeepsWellFormed(run.states[i - 1], run.events[i - 1]);
    }
  }

  /** Each job has at most one item, and jobs without write access never get one. */
  lemma OneItemAndNoPrivateOnes(run: Run, i: nat, j: Id)
    requires IsRun(run) && i < |run.states| && j in run.states[i].outbox
    ensures |run.states[i].outbox[j]| == 1
    ensures j in run.states[i].jobs && run.states[i].jobs[j].accessMode == GithubApp
  {
    AlwaysWellFormed(run, i);
    assert OneItem(run.states[i], j);
  }

  // ---------------------------------------------------------------- fencing

  predicate Finished(item: Item) {
    item.status == Published || item.status == ItemSkipped || item.status == ItemFailed
  }

  /**
   How an item relates to a later state of itself: generations and attempts only
   grow, a finished item is frozen, an unleased one only changes when it is claimed,
   and a lease seen later under an unchanged generation is the very same lease.
   */
  ghost predicate Lineage(a: Item, b: Item) {
    && a.id == b.id && a.jobId == b.jobId
    && a.leaseGeneration <= b.leaseGeneration
    && a.attemptCount <= b.attemptCount
    && (Finished(a) ==> b == a)
    && (b.leaseGeneration == a.leaseGeneration && (a.status != Leased || b.status == Leased) ==> b == a)
  }

  lemma ItemStepIsLineage(st: Store, e: Event, j: Id, a: Item, b: Item)
    requires j in st.jobs && ItemStep(st, e, j, a, b)
    ensures Lineage(a, b)
    ensures b.leaseGeneration != a.leaseGeneration ==> e.op.OpClaim? && b.leaseGeneration == a.leaseGeneration + 1
  {
  }

  lemma AcceptedMarkEndsLease(st: Store, e: Event, j: Id)
    requires WellFormed(st) && OneItem(st, j) && e.op.OpSettle? && e.op.item == TheItem(st, j).id
    requires Accepts(st, e.op.item, e.op.owner, e.op.generation)
    ensures OneItem(Apply(st, e), j)
    ensures TheItem(Apply(st, e), j) == SettledItem(TheItem(st, j), e.op.how, e.now)
    ensures TheItem(st, j).leaseGeneration == e.op.generation
  {
    var i := AcceptedMarkSettles(st, e);
    assert st.outbox[i][0].id == st.outbox[j][0].id;
    AcceptsIffHoldsLease(st, j, e.op.owner, e.op.generation);
    KeepsOneItem(st, e, j);
  }

  lemma ItemSurvives(run: Run, i: nat, j: Id)
    requires IsRun(run) && i < |run.events| && j in run.states[i].outbox
    ensures OneItem(run.states[i], j) && OneItem(run.states[i + 1], j)
    ensures ItemStep(run.states[i], run.events[i], j, TheItem(run.states[i], j), TheItem(run.states[i + 1], j))
  {
    AlwaysWellFormed(run, i);
    assert Step(run.states[i], run.events[i], run.states[i + 1]);
    ItemsStep(run.states[i], run.events[i], j);
    KeepsOneItem(run.states[i], run.events[i], j);
  }

  /** Over any stretch of any run every item keeps its lineage. */
  lemma {:induction false} ItemsKeepLineage(run: Run, i: nat, k: nat, j: Id)
    requires IsRun(run) && i <= k < |run.states| && j in run.states[i].outbox
    ensures OneItem(run.states[i], j) && OneItem(run.states[k], j)
    ensures Lineage(TheItem(run.states[i], j), TheItem(run.states[k], j))
    decreases k
  {
    AlwaysWellFormed(run, i);
    assert OneItem(run.states[i], j);
    if i < k {
      ItemsKeepLineage(run, i, k - 1, j);
      ItemSurvives(run, k - 1, j);
      ItemStepIsLineage(run.states[k - 1], run.events[k - 1], j, TheItem(run.states[k - 1], j), TheItem(run.states[k], j));
    }
  }

  /** Event `i` changes the generation of the item of job `j`. */
  ghost predicate ClaimsAt(run: Run, i: nat, j: Id) {
    && i + 1 < |run.states|
    && OneItem(run.states[i], j) && OneItem(run.states[i + 1], j)
    && TheItem(run.states[i + 1], j).leaseGeneration != TheItem(run.states[i], j).leaseGeneration
  }

  /** Event `i` is a mark, naming the item of job `j`, that was accepted. */
  ghost predicate MarksAt(run: Run, i: nat, j: Id) {
    && i < |run.events| && i < |run.states|
    && OneItem(run.states[i], j)
    && IsMark(run.events[i], TheItem(run.states[i], j))
    && Accepts(run.states[i], run.events[i].op.item, run.events[i].op.owner, run.events[i].op.generation)
  }

  ghost predicate IsMark(e: Event, item: Item) {
    e.op.OpSettle? && e.op.item == item.id
  }

  /**
   A generation changes only on a claim and then by one; a leased item is claimed
   again only at a clock reading at or after its expiry.
   */
  lemma GenerationChangesOnClaim(run: Run, i: nat, j: Id)
    requires IsRun(run) && ClaimsAt(run, i, j)
    ensures run.events[i].op.OpClaim?
    ensures var a, b := TheItem(run.states[i], j), TheItem(run.states[i + 1], j);
      && b.leaseGeneration == a.leaseGeneration + 1
      && b.status == Leased && b.leaseExpiresAt == Some(run.events[i].now + run.events[i].op.duration)
      && (a.status == Leased ==> a.leaseExpiresAt.Some? && a.leaseExpiresAt.value <= run.events[i].now)
  {
    ItemSurvives(run, i, j);
  }

  /**
   A lease runs its full time: when the next claim takes over a lease, its clock
   reading is at or after the granting claim's reading plus the lease duration.
   */
  lemma TakeoverWaitsForExpiry(run: Run, i: nat, k: nat, j: Id)
    requires IsRun(run) && i < k && ClaimsAt(run, i, j) && ClaimsAt(run, k, j)
    requires TheItem(run.states[k], j).leaseGeneration == TheItem(run.states[i + 1], j).leaseGeneration
    requires TheItem(run.states[k], j).status == Leased
    ensures run.events[i].op.OpClaim? && run.events[k].now >= run.events[i].now + run.events[i].op.duration
  {
    GenerationChangesOnClaim(run, i, j);
    GenerationChangesOnClaim(run, k, j);
    ItemsKeepLineage(run, i + 1, k, j);
  }

  /** A retry is honoured: the next claim of the item reads the clock at or after the retry's reading plus its backoff. */
  lemma RetryWaitsForBackoff(run: Run, i: nat, k: nat, j: Id)
    requires IsRun(run) && i < k && MarksAt(run, i, j) && run.events[i].op.how.Retry? && ClaimsAt(run, k, j)
    requires OneItem(run.states[i + 1], j)
    requires TheItem(run.states[k], j).leaseGeneration == TheItem(run.states[i + 1], j).leaseGeneration
    ensures run.events[k].now >= run.events[i].now + run.events[i].op.how.backoff
  {
    AlwaysWellFormed(run, i);
    assert Step(run.states[i], run.events[i], run.states[i + 1]);
    AcceptedMarkEndsLease(run.states[i], run.events[i], j);
    ItemsKeepLineage(run, i + 1, k, j);
    ItemSurvives(run, k, j);
  }

  /** An accepted mark carries the current generation, and the lease it names was never interrupted. */
  lemma AcceptedMarkHoldsTheLease(run: Run, i: nat, k: nat, j: Id)
    requires IsRun(run) && i <= k && MarksAt(run, k, j) && OneItem(run.states[i], j)
    requires TheItem(run.states[i], j).leaseGeneration == run.events[k].op.generation
    ensures TheItem(run.states[k], j) == TheItem(run.states[i], j)
    ensures TheItem(run.states[i], j).leaseOwner == Some(run.events[k].op.owner)
  {
    ItemsKeepLineage(run, i, k, j);
    AlwaysWellFormed(run, k);
    AcceptsIffHoldsLease(run.states[k], j, run.events[k].op.owner, run.events[k].op.generation);
  }

  lemma ClaimRaisesGeneration(run: Run, i: nat, c: nat, k: nat, j: Id)
    requires IsRun(run) && i <= c < k < |run.states| && ClaimsAt(run, c, j) && OneItem(run.states[i], j)
    ensures OneItem(run.states[k], j) && TheItem(run.states[k], j).id == TheItem(run.states[i], j).id
    ensures TheItem(run.states[i], j).leaseGeneration < TheItem(run.states[k], j).leaseGeneration
  {
    ItemsKeepLineage(run, i, k, j);
    ItemsKeepLineage(run, i, c, j);
    GenerationChangesOnClaim(run, c, j);
    ItemsKeepLineage(run, c + 1, k, j);
  }

  /** Once an item has been claimed again, marks under the old generation are refused and change nothing. */
  lemma StaleMarkIsFenced(run: Run, i: nat, c: nat, k: nat, j: Id)
    requires IsRun(run) && i <= c < k < |run.events| && OneItem(run.states[i], j) && ClaimsAt(run, c, j)
    requires IsMark(run.events[k], TheItem(run.states[i], j))
    requires run.events[k].op.generation == TheItem(run.states[i], j).leaseGeneration
    ensures !Accepts(run.states[k], run.events[k].op.item, run.events[k].op.owner, run.events[k].op.generation)
    ensures run.states[k + 1] == run.states[k]
  {
    ClaimRaisesGeneration(run, i, c, k, j);
    AlwaysWellFormed(run, k);
    assert Step(run.states[k], run.events[k], run.states[k + 1]);
    AcceptsIffHoldsLease(run.states[k], j, run.events[k].op.owner, run.events[k].op.generation);
  }

  /** At most one mark is ever accepted under one generation of one item. */
  lemma OneMarkPerGeneration(run: Run, i: nat, k: nat, j: Id)
    requires IsRun(run) && i < k && MarksAt(run, i, j) && MarksAt(run, k, j)
    ensures run.events[i].op.generation < run.events[k].op.generation
  {
    AlwaysWellFormed(run, i);
    AlwaysWellFormed(run, k);
    assert Step(run.states[i], run.events[i], run.states[i + 1]);
    AcceptedMarkEndsLease(run.states[i], run.events[i], j);
    ItemsKeepLineage(run, i + 1, k, j);
    AcceptsIffHoldsLease(run.states[k], j, run.events[k].op.owner, run.events[k].op.generation);
  }

  /** Published, skipped and failed items are never altered again. */
  lemma FinishedItemsAreFrozen(run: Run, i: nat, k: nat, j: Id)
    requires IsRun(run) && i <= k < |run.states| && OneItem(run.states[i], j) && Finished(TheItem(run.states[i], j))
    ensures j in run.states[k].outbox && run.states[k].outbox[j] == run.states[i].outbox[j]
  {
    ItemsKeepLineage(run, i, k, j);
  }

  // ---------------------------------------------------------------- conservation

  /** The item of `j` was claimed while still leased. */
  ghost predicate TakesOver(st: Store, t: Store, j: Id) {
    && OneItem(st, j) && OneItem(t, j)
    && TheItem(st, j).status == Leased
    && TheItem(t, j).leaseGeneration != TheItem(st, j).leaseGeneration
  }

  /** How many of the first `i` events took over a lease of the item of `j`. */
  ghost function Takeovers(run: Run, i: nat, j: Id): nat
    requires i < |run.states|
  {
    if i == 0 then 0
    else Takeovers(run, i - 1, j) + if TakesOver(run.states[i - 1], run.states[i], j) then 1 else 0
  }

  ghost predicate Balanced(item: Item, takeovers: nat) {
    item.leaseGeneration ==
      item.attemptCount + takeovers
      + (if item.status == Leased then 1 else 0)
      + (if item.status == Published || item.status == ItemSkipped then 1 else 0)
  }

  /**
   Every lease ever granted is accounted for: it ended in a counted attempt, was
   taken over, is still held, or ended in publication.
   */
  lemma {:induction false} LeasesAreConserved(run: Run, i: nat, j: Id)
    requires IsRun(run) && i < |run.states|
    ensures j in run.states[i].outbox ==>
      OneItem(run.states[i], j) && Balanced(TheItem(run.states[i], j), Takeovers(run, i, j))
    ensures j !in run.states[i].outbox ==> Takeovers(run, i, j) == 0
  {
    if i > 0 {
      LeasesAreConserved(run, i - 1, j);
      if j in run.states[i - 1].outbox {
        ItemSurvives(run, i - 1, j);
        BalanceStep(run.states[i - 1], run.events[i - 1], j, TheItem(run.states[i - 1], j), TheItem(run.states[i], j),
                    Takeovers(run, i - 1, j));
      } else if j in run.states[i].outbox {
        AlwaysWellFormed(run, i - 1);
        assert Step(run.states[i - 1], run.events[i - 1], run.states[i]);
        NewItemIsPending(run.states[i - 1], run.events[i - 1], j);
        KeepsOneItem(run.states[i - 1], run.events[i - 1], j);
      }
    }
  }

  lemma BalanceStep(st: Store, e: Event, j: Id, a: Item, b: Item, takeovers: nat)
    requires j in st.jobs && ItemStep(st, e, j, a, b) && Balanced(a, takeovers)
    ensures Balanced(b, takeovers + if a.status == Leased && b.leaseGeneration != a.leaseGeneration then 1 else 0)
  {
  }

  // ---------------------------------------------------------------- which items a claim hands out

  /** The leases for every due item among the first `n` jobs, in map order. */
  ghost function Due(st: Store, n: nat, owner: nat, expires: int, now: int): seq<Item>
    requires n <= |st.order|
  {
    if n == 0 then []
    else
      var j := st.order[n - 1];
      var earlier := Due(st, n - 1, owner, expires, now);
      if OneItem(st, j) && Claimable(TheItem(st, j), st.jobs[j].status, now)
      then earlier + [Lease(TheItem(st, j), owner, expires, now)]
      else earlier
  }

  function Take(q: seq<Item>, limit: int): seq<Item> {
    if limit <= 0 then [] else if |q| <= limit then q else q[..limit]
  }

  /** Every due item among the first `n` jobs got its lease. */
  ghost predicate AllDueLeased(st: Store, t: Store, n: nat, owner: nat, expires: int, now: int)
    requires n <= |st.order|
  {
    forall j | j in st.order[..n] && OneItem(st, j) && Claimable(TheItem(st, j), st.jobs[j].status, now) ::
      LeasedAt(st, t, j, owner, expires, now)
  }

  /** The claim got the first `limit` due items, all of them if there were fewer. */
  ghost predicate TakesFirstDue(st: Store, c: Claim, n: nat, owner: nat, expires: int, limit: int, now: int)
    requires n <= |st.order|
  {
    && c.claimed == Take(Due(st, n, owner, expires, now), limit)
    && (|c.claimed| < limit ==> AllDueLeased(st, c.store, n, owner, expires, now))
  }

  /** A claim hands out the first `limit` due items in map order. */
  lemma {:induction false} ClaimTakesFirstDue(st: Store, n: nat, owner: nat, expires: int, limit: int, now: int)
    requires WellFormed(st) && n <= |st.order| && limit > 0
    ensures TakesFirstDue(st, ClaimJobs(st, n, owner, expires, limit, now), n, owner, expires, limit, now)
  {
    if n > 0 {
      ClaimTakesFirstDue(st, n - 1, owner, expires, limit, now);
      ClaimReachesJob(st, n, owner, expires, limit, now);
      TakeOneMore(st, ClaimJobs(st, n - 1, owner, expires, limit, now), ClaimJobs(st, n, owner, expires, limit, now),
                  n, owner, expires, limit, now);
    }
  }

  lemma ClaimReachesJob(st: Store, n: nat, owner: nat, expires: int, limit: int, now: int)
    requires WellFormed(st) && 0 < n <= |st.order|
    ensures UntouchedAt(st, ClaimJobs(st, n - 1, owner, expires, limit, now).store, st.order[n - 1])
    ensures st.order[n - 1] !in st.order[..n - 1]
    ensures OneJobClaimed(ClaimJobs(st, n - 1, owner, expires, limit, now), ClaimJobs(st, n, owner, expires, limit, now),
                          st.order[n - 1], owner, expires, limit, now)
  {
    var s := ClaimJobs(st, n - 1, owner, expires, limit, now).store;
    ClaimLeases(st, n - 1, owner, expires, limit, now);
    NotYetLeased(st, s, n, owner, expires, now);
    assert OneItem(st, st.order[n - 1]);
    assert OneItem(s, st.order[n - 1]);
    ClaimNextJob(st, n, owner, expires, limit, now);
  }

  lemma TakeOneMore(st: Store, c: Claim, r: Claim, n: nat, owner: nat, expires: int, limit: int, now: int)
    requires 0 < n <= |st.order| && limit > 0
    requires TakesFirstDue(st, c, n - 1, owner, expires, limit, now)
    requires UntouchedAt(st, c.store, st.order[n - 1]) && st.order[n - 1] !in st.order[..n - 1]
    requires OneJobClaimed(c, r, st.order[n - 1], owner, expires, limit, now)
    ensures TakesFirstDue(st, r, n, owner, expires, limit, now)
  {
    var last := st.order[n - 1];
    assert st.order[..n] == st.order[..n - 1] + [last];
    if |r.claimed| < limit {
      forall j | j in st.order[..n] && OneItem(st, j) && Claimable(TheItem(st, j), st.jobs[j].status, now)
        ensures LeasedAt(st, r.store, j, owner, expires, now)
      {
        if j != last {
          assert LeasedAt(st, c.store, j, owner, expires, now);
          assert UntouchedAt(c.store, r.store, j);
        }
      }
    }
  }

  /** The job's item was leased if it was handed out, and the job left alone if not. */
  ghost predicate LeasedIffHandedOut(st: Store, c: Claim, j: Id, owner: nat, expires: int, now: int)
    requires OneItem(st, j)
  {
    if Lease(TheItem(st, j), owner, expires, now) in c.claimed then LeasedAt(st, c.store, j, owner, expires, now)
    else UntouchedAt(st, c.store, j)
  }

  /** Only leases of the first `n` jobs' items were handed out, and to no other effect. */
  ghost predicate LeasesHandedOut(st: Store, c: Claim, n: nat, owner: nat, expires: int, now: int)
    requires WellFormed(st) && n <= |st.order|
  {
    && (forall x | x in c.claimed :: exists j :: j in st.order[..n] && x == Lease(TheItem(st, j), owner, expires, now))
    && (forall j | j in st.order[..n] :: LeasedIffHandedOut(st, c, j, owner, expires, now))
  }

  /** A claim leases exactly the items it hands out; a due item beyond the limit stays as it was. */
  lemma {:induction false} ClaimLeasesHandedOut(st: Store, n: nat, owner: nat, expires: int, limit: int, now: int)
    requires WellFormed(st) && n <= |st.order|
    ensures LeasesHandedOut(st, ClaimJobs(st, n, owner, expires, limit, now), n, owner, expires, now)
  {
    if n > 0 {
      ClaimLeasesHandedOut(st, n - 1, owner, expires, limit, now);
      ClaimReachesJob(st, n, owner, expires, limit, now);
      HandOutOneMore(st, ClaimJobs(st, n - 1, owner, expires, limit, now), ClaimJobs(st, n, owner, expires, limit, now),
                     n, owner, expires, limit, now);
    }
  }

  lemma HandOutOneMore(st: Store, c: Claim, r: Claim, n: nat, owner: nat, expires: int, limit: int, now: int)
    requires WellFormed(st) && 0 < n <= |st.order| && LeasesHandedOut(st, c, n - 1, owner, expires, now)
    requires UntouchedAt(st, c.store, st.order[n - 1]) && st.order[n - 1] !in st.order[..n - 1]
    requires OneJobClaimed(c, r, st.order[n - 1], owner, expires, limit, now)
    ensures LeasesHandedOut(st, r, n, owner, expires, now)
  {
    var last := st.order[n - 1];
    assert st.order[..n] == st.order[..n - 1] + [last];
    assert TheItem(c.store, last) == TheItem(st, last);
    forall j | j in st.order[..n - 1] ensures LeasedIffHandedOut(st, r, j, owner, expires, now) {
      assert LeasedIffHandedOut(st, c, j, owner, expires, now);
      DifferentLeases(st, j, last, owner, expires, now);
      assert UntouchedAt(c.store, r.store, j);
    }
    forall x | x in c.claimed ensures x != Lease(TheItem(st, last), owner, expires, now) {
      var j :| j in st.order[..n - 1] && x == Lease(TheItem(st, j), owner, expires, now);
      DifferentLeases(st, j, last, owner, expires, now);
    }
    assert LeasedIffHandedOut(st, r, last, owner, expires, now);
  }

  lemma DifferentLeases(st: Store, i: Id, j: Id, owner: nat, expires: int, now: int)
    requires WellFormed(st) && i in st.outbox && j in st.outbox && i != j
    ensures Lease(TheItem(st, i), owner, expires, now) != Lease(TheItem(st, j), owner, expires, now)
  {
    assert TheItem(st, i).id != TheItem(st, j).id;
  }

  // ---------------------------------------------------------------- coupling of job and item

  function StatusFor(item: Item): JobStatus {
    match item.status
    case Pending => AwaitingPublish
    case Retrying => AwaitingPublish
    case Leased => Publishing
    case Published => JobSucceeded
    case ItemSkipped => JobSucceeded
    case ItemFailed => PublishFailed
  }

  predicate PublishPhase(status: JobStatus) {
    status == AwaitingPublish || status == Publishing || status == PublishFailed
  }

  /** The status a job may have, given its outbox. */
  ghost predicate Fits(st: Store, j: Id, status: JobStatus) {
    if j in st.outbox then |st.outbox[j]| == 1 && status == StatusFor(TheItem(st, j)) else !PublishPhase(status)
  }

  /** Every job's status agrees with its outbox item, or with having none. */
  ghost predicate Coupled(st: Store) {
    forall j | j in st.jobs :: Fits(st, j, st.jobs[j].status)
  }

  /** The status an unguarded write sets, and on which job. */
  function Overwrites(st: Store, e: Event): Option<(Id, JobStatus)> {
    match e.op
    case OpMarkSucceeded(id, _, valid) => if valid then Some((id, JobSucceeded)) else None
    case OpMarkFailed(id, _) => Some((id, JobFailed))
    case OpUpdateStatus(id, status, _) => if status == Running then None else Some((id, status))
    case _ => None
  }

  /** The new store differs from the old in one job, which has the written status. */
  ghost predicate Overwritten(st: Store, t: Store, id: Id, status: JobStatus) {
    if id !in st.jobs then t == st
    else
      && t.outbox == st.outbox && t.jobs.Keys == st.jobs.Keys
      && t.jobs[id].status == status
      && forall j | j in st.jobs && j != id :: t.jobs[j] == st.jobs[j]
  }

  lemma OverwriteSetsStatus(st: Store, e: Event)
    requires Overwrites(st, e).Some?
    ensures Overwritten(st, Apply(st, e), Overwrites(st, e).value.0, Overwrites(st, e).value.1)
  {
  }

  lemma OverwriteAt(st: Store, t: Store, id: Id, status: JobStatus)
    requires Coupled(st) && Overwritten(st, t, id, status)
    ensures Coupled(t) <==> id !in st.jobs || Fits(st, id, status)
  {
    if id in st.jobs {
      if Fits(st, id, status) {
        forall j | j in t.jobs ensures Fits(t, j, t.jobs[j].status) {
          assert j != id ==> Fits(st, j, st.jobs[j].status);
        }
      }
      if Coupled(t) {
        assert Fits(t, id, t.jobs[id].status);
      }
    }
  }

  /**
   The write changes the status of a job that has an outbox item, or puts a job
   that has none into a publication phase. A caller can see both beforehand.
   */
  predicate Uncouples(st: Store, e: Event) {
    Overwrites(st, e).Some? &&
    var (id, status) := Overwrites(st, e).value;
    id in st.jobs && if id in st.outbox then status != st.jobs[id].status else PublishPhase(status)
  }

  /** An unguarded status write keeps the coupling unless it is one of those. */
  lemma UnguardedWriteKeepsCoupling(st: Store, e: Event)
    requires WellFormed(st) && Coupled(st) && Overwrites(st, e).Some?
    ensures Coupled(Apply(st, e)) <==> !Uncouples(st, e)
  {
    var (id, status) := Overwrites(st, e).value;
    OverwriteSetsStatus(st, e);
    OverwriteAt(st, Apply(st, e), id, status);
    if id in st.outbox { assert OneItem(st, id); }
    if id in st.jobs { assert Fits(st, id, st.jobs[id].status); }
  }

  lemma ClaimKeepsCoupling(st: Store, e: Event)
    requires WellFormed(st) && Coupled(st) && e.op.OpClaim?
    ensures Coupled(Apply(st, e))
  {
    var t := Apply(st, e);
    forall j | j in t.jobs ensures Fits(t, j, t.jobs[j].status) {
      ClaimAt(st, e, j);
      assert Fits(st, j, st.jobs[j].status);
    }
  }

  lemma MarkKeepsCoupling(st: Store, e: Event)
    requires WellFormed(st) && Coupled(st) && e.op.OpSettle?
    ensures Coupled(Apply(st, e))
  {
    if Accepts(st, e.op.item, e.op.owner, e.op.generation) {
      var i := AcceptedMarkSettles(st, e);
      SettledFits(st, Apply(st, e), i, e);
    }
  }

  lemma SettledFits(st: Store, t: Store, i: Id, e: Event)
    requires Coupled(st) && e.op.OpSettle? && OneItem(st, i) && SettledAt(st, t, i, e)
    ensures Coupled(t)
  {
    forall j | j in t.jobs ensures Fits(t, j, t.jobs[j].status) {
      assert j != i ==> Fits(st, j, st.jobs[j].status);
    }
  }

  lemma PersistKeepsCoupling(st: Store, e: Event)
    requires WellFormed(st) && Coupled(st) && e.op.OpPersist?
    ensures Coupled(Apply(st, e))
  {
    var t, id := Apply(st, e), e.op.id;
    if id in st.jobs { assert Fits(st, id, st.jobs[id].status); }
    if id in st.outbox { assert OneItem(st, id); }
    forall j | j in t.jobs ensures Fits(t, j, t.jobs[j].status) {
      assert j != id ==> Fits(st, j, st.jobs[j].status);
    }
  }

  lemma QueueStepKeepsCoupling(st: Store, e: Event)
    requires WellFormed(st) && Allowed(st, e) && Coupled(st)
    requires e.op.OpEnqueue? || e.op.OpMarkRunning? || e.op.OpFailRunning?
             || (e.op.OpUpdateStatus? && e.op.status == Running) || (e.op.OpMarkSucceeded? && !e.op.valid)
    ensures Coupled(Apply(st, e))
  {
    var t := Apply(st, e);
    assert forall j | j in st.outbox :: OneItem(st, j);
    forall j | j in t.jobs ensures Fits(t, j, t.jobs[j].status) {
      assert j in st.jobs ==> Fits(st, j, st.jobs[j].status);
    }
  }

  /** Of all the calls there are, exactly those writes break the coupling. */
  lemma StepKeepsCouplingIff(st: Store, e: Event)
    requires WellFormed(st) && Allowed(st, e) && Coupled(st)
    ensures Coupled(Apply(st, e)) <==> !Uncouples(st, e)
  {
    if Overwrites(st, e).Some? {
      UnguardedWriteKeepsCoupling(st, e);
    } else if e.op.OpClaim? {
      ClaimKeepsCoupling(st, e);
    } else if e.op.OpSettle? {
      MarkKeepsCoupling(st, e);
    } else if e.op.OpPersist? {
      PersistKeepsCoupling(st, e);
    } else {
      QueueStepKeepsCoupling(st, e);
    }
  }

  // ---------------------------------------------------------------- coupling under the callers' own guards

  /** The review worker's guard before it fails the job of a run that threw. */
  predicate WorkerMayFail(status: JobStatus) {
    status != Cancelled && status != JobSucceeded && status != AwaitingPublish && status != Publishing
  }

  /** The guard of a cancel request: none of the terminal and publication statuses. */
  predicate Cancellable(status: JobStatus) {
    && status != JobSucceeded && status != JobFailed && status != Cancelled
    && status != PublishFailed && status != AwaitingPublish && status != Publishing
  }

  /**
   The calls that the review worker, the publish worker, the recovery code and the
   cancel request make, each under the guard of its caller. Nobody calls
   `markSucceeded`, and `updateStatus` serves cancellation only.
   */
  ghost predicate ProtocolStep(st: Store, e: Event) {
    match e.op
    case OpMarkSucceeded(_, _, _) => false
    case OpMarkFailed(id, _) => id in st.jobs ==> WorkerMayFail(st.jobs[id].status)
    case OpUpdateStatus(id, status, _) => status == Cancelled && id in st.jobs && Cancellable(st.jobs[id].status)
    case _ => true
  }

  /** The worker fails a job whose publication has already failed. */
  predicate FailsPublishFailed(st: Store, e: Event) {
    e.op.OpMarkFailed? && e.op.id in st.jobs && st.jobs[e.op.id].status == PublishFailed
  }

  /** The worker's guard lets exactly one breaking case through. */
  lemma WorkerFailureKeepsCouplingIff(st: Store, id: Id, error: string, now: int)
    requires WellFormed(st) && Coupled(st) && id in st.jobs && WorkerMayFail(st.jobs[id].status)
    ensures Coupled(JobStore.MarkFailed(st, id, error, now)) <==> st.jobs[id].status != PublishFailed
  {
    UnguardedWriteKeepsCoupling(st, Event(OpMarkFailed(id, error), now));
    assert Fits(st, id, st.jobs[id].status);
  }

  /** The cancel request's guard lets none through. */
  lemma CancelKeepsCoupling(st: Store, id: Id, reason: Option<string>, now: int)
    requires WellFormed(st) && Coupled(st) && id in st.jobs && Cancellable(st.jobs[id].status)
    ensures Coupled(JobStore.UpdateStatus(st, id, Cancelled, reason, now))
  {
    UnguardedWriteKeepsCoupling(st, Event(OpUpdateStatus(id, Cancelled, reason), now));
    assert Fits(st, id, st.jobs[id].status);
  }

  lemma ProtocolStepKeepsCouplingIff(st: Store, e: Event)
    requires WellFormed(st) && Allowed(st, e) && Coupled(st) && ProtocolStep(st, e)
    ensures Coupled(Apply(st, e)) <==> !FailsPublishFailed(st, e)
  {
    StepKeepsCouplingIff(st, e);
    if e.op.OpMarkFailed? && e.op.id in st.jobs {
      WorkerFailureKeepsCouplingIff(st, e.op.id, e.op.error, e.now);
    }
    if e.op.OpUpdateStatus? {
      CancelKeepsCoupling(st, e.op.id, e.op.reason, e.now);
    }
  }

  /** A failed job that has an outbox item; no later call of the protocol repairs it. */
  ghost predicate Torn(st: Store, j: Id) {
    j in st.jobs && st.jobs[j].status == JobFailed && j in st.outbox
  }

  lemma StaysTorn(st: Store, e: Event, j: Id)
    requires WellFormed(st) && Allowed(st, e) && ProtocolStep(st, e) && Torn(st, j)
    ensures Torn(Apply(st, e), j)
  {
    ItemsStep(st, e, j);
    if e.op.OpClaim? {
      ClaimAt(st, e, j);
    } else if e.op.OpSettle? {
      if Accepts(st, e.op.item, e.op.owner, e.op.generation) { var i := AcceptedMarkSettles(st, e); }
    }
  }

  lemma TornIsUncoupled(st: Store, j: Id)
    requires Torn(st, j)
    ensures !Coupled(st)
  {
    assert !Fits(st, j, st.jobs[j].status);
  }

  lemma FirstLateFailureTears(st: Store, e: Event)
    requires WellFormed(st) && Allowed(st, e) && ProtocolStep(st, e) && Coupled(st) && FailsPublishFailed(st, e)
    ensures Torn(Apply(st, e), e.op.id)
  {
    assert Fits(st, e.op.id, st.jobs[e.op.id].status);
  }

  /** The first `i` calls of the run are calls of the protocol. */
  ghost predicate IsProtocol(run: Run, i: nat) {
    i <= |run.events| && i <= |run.states| && forall k | 0 <= k < i :: ProtocolStep(run.states[k], run.events[k])
  }

  /** Among the first `i` calls the worker fails no job whose publication has already failed. */
  ghost predicate NoLateFailure(run: Run, i: nat) {
    i <= |run.events| && i <= |run.states| && forall k | 0 <= k < i :: !FailsPublishFailed(run.states[k], run.events[k])
  }

  /** Until the first late failure the coupling holds; from then on some job is torn. */
  lemma {:induction false} CoupledOrTorn(run: Run, i: nat)
    requires IsRun(run) && i < |run.states| && IsProtocol(run, i)
    ensures if NoLateFailure(run, i) then Coupled(run.states[i]) else exists j :: Torn(run.states[i], j)
  {
    if i > 0 {
      var st, e := run.states[i - 1], run.events[i - 1];
      CoupledOrTorn(run, i - 1);
      AlwaysWellFormed(run, i - 1);
      assert Step(st, e, run.states[i]) && ProtocolStep(st, e);
      if !NoLateFailure(run, i - 1) {
        var j :| Torn(st, j);
        StaysTorn(st, e, j);
      } else if FailsPublishFailed(st, e) {
        FirstLateFailureTears(st, e);
      } else {
        ProtocolStepKeepsCouplingIff(st, e);
      }
    }
  }

  /**
   In every run of the protocol, job status and outbox item correspond at a point
   exactly if the worker has not failed a publish_failed job before.
   */
  lemma AlwaysCoupled(run: Run, i: nat)
    requires IsRun(run) && i < |run.states| && IsProtocol(run, i)
    ensures Coupled(run.states[i]) <==> NoLateFailure(run, i)
  {
    CoupledOrTorn(run, i);
    if j :| Torn(run.states[i], j) { TornIsUncoupled(run.states[i], j); }
  }

  /** What coupling says about one job, in both directions. */
  lemma CouplingInWords(run: Run, i: nat, j: Id)
    requires IsRun(run) && i < |run.states| && j in run.states[i].jobs
    requires IsProtocol(run, i) && NoLateFailure(run, i)
    ensures var st := run.states[i];
      var item := if j in st.outbox && |st.outbox[j]| == 1 then Some(TheItem(st, j)) else None;
      && (st.jobs[j].status == AwaitingPublish <==> item.Some? && (item.value.status == Pending || item.value.status == Retrying))
      && (st.jobs[j].status == Publishing <==> item.Some? && item.value.status == Leased)
      && (st.jobs[j].status == PublishFailed <==> item.Some? && item.value.status == ItemFailed)
      && (st.jobs[j].status == JobSucceeded && item.Some? ==> item.value.status == Published || item.value.status == ItemSkipped)
  {
    AlwaysCoupled(run, i);
    AlwaysWellFormed(run, i);
    assert Fits(run.states[i], j, run.states[i].jobs[j].status);
  }

  /** One job with its report persisted: enqueued, started, persisted. */
  lemma PersistedSample() returns (run: Run)
    ensures IsRun(run) && |run.events| == 3
    ensures IsProtocol(run, 3) && NoLateFailure(run, 3)
    ensures var st := run.states[3];
      && Id(1) in st.jobs && st.jobs[Id(1)].status == AwaitingPublish
      && st.order == [Id(1)] && st.outbox == map[Id(1) := [NewItem(Id(2), Id(1), 2)]]
  {
    var e0 := Event(OpEnqueue(Id(1), JobInput(None, None, None)), 0);
    var e1 := Event(OpMarkRunning(Id(1)), 1);
    var e2 := Event(OpPersist(Id(1), 0, true, Id(2)), 2);
    var s1 := Apply(EMPTY, e0);
    var s2 := Apply(s1, e1);
    var s3 := Apply(s2, e2);
    assert s2.jobs[Id(1)].status == Running && s2.jobs[Id(1)].policy == GithubComment;
    run := Run([e0, e1, e2], [EMPTY, s1, s2, s3]);
  }

  /** The publish worker then leases the item. */
  lemma LeasedSample() returns (run: Run)
    ensures IsRun(run) && |run.events| == 4
    ensures IsProtocol(run, 4) && NoLateFailure(run, 4)
    ensures var st := run.states[4];
      && Id(1) in st.jobs && st.jobs[Id(1)].status == Publishing
      && OneItem(st, Id(1)) && TheItem(st, Id(1)).id == Id(2) && TheItem(st, Id(1)).status == Leased
      && TheItem(st, Id(1)).leaseGeneration == 1 && TheItem(st, Id(1)).leaseOwner == Some(7)
      && TheItem(st, Id(1)).leaseExpiresAt == Some(13)
  {
    var persisted := PersistedSample();
    var st, e := persisted.states[3], Event(OpClaim(7, 10, 2), 3);
    run := Run(persisted.events + [e], persisted.states + [Apply(st, e)]);
    AlwaysWellFormed(persisted, 3);
    assert IsRun(run);
    AlwaysWellFormed(run, 4);
    ClaimsOnlyItem(st, e);
  }

  lemma ClaimsOnlyItem(st: Store, e: Event)
    requires WellFormed(st) && st.order == [Id(1)] && e.op.OpClaim? && e.op.limit == 2
    requires OneItem(st, Id(1)) && Claimable(TheItem(st, Id(1)), st.jobs[Id(1)].status, e.now)
    ensures LeasedAt(st, Apply(st, e), Id(1), e.op.owner, e.now + e.op.duration, e.now)
  {
    var owner, expires := e.op.owner, e.now + e.op.duration;
    ClaimTakesFirstDue(st, 1, owner, expires, 2, e.now);
    assert |Due(st, 0, owner, expires, e.now)| == 0;
    assert |Due(st, 1, owner, expires, e.now)| <= 1;
    assert st.order[..1] == [Id(1)];
  }

  function Extended(run: Run, e: Event, t: Store): Run {
    Run(run.events + [e], run.states + [t])
  }

  lemma ExtendsProtocolRun(run: Run, e: Event)
    requires IsRun(run) && IsProtocol(run, |run.events|)
    requires Allowed(run.states[|run.events|], e) && ProtocolStep(run.states[|run.events|], e)
    ensures var longer := Extended(run, e, Apply(run.states[|run.events|], e));
      IsRun(longer) && IsProtocol(longer, |longer.events|)
  {
  }

  /** Or it publishes only after its lease has expired, which is accepted, as nobody has taken the item over. */
  lemma LateMarkIsAccepted() returns (run: Run)
    ensures IsRun(run) && |run.events| == 5 && IsProtocol(run, 5)
    ensures MarksAt(run, 4, Id(1)) && TheItem(run.states[4], Id(1)).leaseExpiresAt == Some(run.events[4].now - 1)
    ensures OneItem(run.states[5], Id(1)) && TheItem(run.states[5], Id(1)).status == Published
  {
    var leased := LeasedSample();
    var st, e := leased.states[4], Event(OpSettle(Id(2), 7, 1, Success(false, None)), 14);
    run := Extended(leased, e, Apply(st, e));
    ExtendsProtocolRun(leased, e);
    AlwaysWellFormed(leased, 4);
    AcceptsIffHoldsLease(st, Id(1), 7, 1);
    AcceptedMarkEndsLease(st, e, Id(1));
    var i := AcceptedMarkSettles(st, e);
    assert st.outbox[i][0].id == st.outbox[Id(1)][0].id;
  }

  /** It then gives up on the item. */
  lemma GivenUpSample() returns (run: Run)
    ensures IsRun(run) && |run.events| == 5
    ensures IsProtocol(run, 5) && NoLateFailure(run, 5)
    ensures var st := run.states[5];
      && Id(1) in st.jobs && st.jobs[Id(1)].status == PublishFailed
      && OneItem(st, Id(1)) && TheItem(st, Id(1)).status == ItemFailed
  {
    var leased := LeasedSample();
    var st, e := leased.states[4], Event(OpSettle(Id(2), 7, 1, Failure("refused")), 4);
    run := Extended(leased, e, Apply(st, e));
    ExtendsProtocolRun(leased, e);
    AlwaysWellFormed(leased, 4);
    AcceptsIffHoldsLease(st, Id(1), 7, 1);
    AcceptedMarkEndsLease(st, e, Id(1));
    var i := AcceptedMarkSettles(st, e);
    assert st.outbox[i][0].id == st.outbox[Id(1)][0].id;
  }

  /**
   The breaking run: the publish worker has given up on the item when the review
   worker, whose run throws late, fails the job, which is already publish_failed.
   */
  lemma LateFailureUncouples() returns (run: Run)
    ensures IsRun(run) && |run.events| == 6
    ensures IsProtocol(run, 6)
    ensures run.events[5].op.OpMarkFailed? && Coupled(run.states[5]) && !Coupled(run.states[6])
    ensures Torn(run.states[6], Id(1))
  {
    var given := GivenUpSample();
    var st, e := given.states[5], Event(OpMarkFailed(Id(1), "late"), 5);
    run := Extended(given, e, Apply(st, e));
    ExtendsProtocolRun(given, e);
    TornIsUncoupled(run.states[6], Id(1));
    AlwaysCoupled(given, 5);
    assert run.states[5] == given.states[5];
  }
}
