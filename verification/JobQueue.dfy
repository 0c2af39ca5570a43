/** The job queue: workers claim, complete and fail jobs, and stale jobs are recovered
    (backend/app/services/job_queue.py, backend/app/worker.py). Times are numbers. */
module JobQueue {
  import opened Options

  datatype Status = Pending | Running | Completed | Failed

  datatype Job = Job(status: Status, attempts: int, maxAttempts: int, scheduled: int, started: Option<int>)

  type Jobs = map<int, Job>

  // ---------------------------------------------------------------- what each call does to the table

  predicate Due(jobs: Jobs, locked: set<int>, now: int, j: int) {
    j in jobs && jobs[j].status == Pending && jobs[j].scheduled <= now && j !in locked
  }

  /** `j` is a job the claim may pick: due, not locked by another claim, and none such is older. */
  ghost predicate Oldest(jobs: Jobs, locked: set<int>, now: int, j: int) {
    Due(jobs, locked, now, j) && forall k :: Due(jobs, locked, now, k) ==> jobs[j].scheduled <= jobs[k].scheduled
  }

  lemma {:induction false} NoneDue(jobs: Jobs, locked: set<int>, now: int)
    requires forall j :: !Due(jobs, locked, now, j)
    ensures forall k :: k in jobs && jobs[k].status == Pending ==> jobs[k].scheduled > now || k in locked
  {
    forall k | k in jobs && jobs[k].status == Pending ensures jobs[k].scheduled > now || k in locked {
      assert !Due(jobs, locked, now, k);
    }
  }

  function Claimed(jobs: Jobs, j: int, now: int): Jobs
    requires j in jobs
  {
    jobs[j := jobs[j].(status := Running, started := Some(now), attempts := jobs[j].attempts + 1)]
  }

  function Finished(jobs: Jobs, j: int): Jobs {
    if j in jobs then jobs[j := jobs[j].(status := Completed)] else jobs
  }

  function FailedOnce(jobs: Jobs, j: int): Jobs {
    if j !in jobs then jobs
    else if jobs[j].attempts < jobs[j].maxAttempts then jobs[j := jobs[j].(status := Pending, started := None)]
    else jobs[j := jobs[j].(status := Failed)]
  }

  predicate Stale(job: Job, cutoff: int) {
    job.status == Running && job.started.Some? && job.started.value < cutoff
  }

  function Recovered(jobs: Jobs, cutoff: int): Jobs {
    map j | j in jobs :: if Stale(jobs[j], cutoff) then jobs[j].(status := Pending, started := None) else jobs[j]
  }

  /** Nothing is left to do for the job: it is not claimed again, and not recovered. */
  ghost predicate Closed(jobs: Jobs, j: int)
    requires j in jobs
  {
    (forall locked, t :: !Due(jobs, locked, t, j)) && forall cutoff :: !Stale(jobs[j], cutoff)
  }

  /** The other rows are as they were. */
  ghost predicate OnlyRow(before: Jobs, after: Jobs, j: int) {
    forall k :: k != j ==> (k in before <==> k in after) && (k in before ==> after[k] == before[k])
  }

  class JobStore {
    var jobs: Jobs

    /** The new job can be claimed from `now` on; no other row changes. */
    method CreateJob(j: int, maxAttempts: int, now: int)
      requires j !in jobs
      modifies this
      ensures forall locked, t :: Due(jobs, locked, t, j) <==> t >= now && j !in locked
      ensures j in jobs && jobs[j].attempts == 0 && jobs[j].maxAttempts == maxAttempts
      ensures OnlyRow(old(jobs), jobs, j)
      ensures jobs == old(jobs)[j := Job(Pending, 0, maxAttempts, now, None)]
      ensures jobs[j].status == Pending && jobs[j].scheduled == now
    {
      jobs := jobs[j := Job(Pending, 0, maxAttempts, now, None)];
    }

    /** `locked` are the rows other claims have locked: they are skipped. */
    method ClaimJob(locked: set<int>, now: int) returns (r: Option<int>)
      modifies this
      ensures r.None? ==> jobs == old(jobs) && forall j :: !Due(old(jobs), locked, now, j)
      ensures r.Some? ==> Oldest(old(jobs), locked, now, r.value) && jobs == Claimed(old(jobs), r.value, now)
      ensures r.None? ==> forall k :: k in old(jobs) && old(jobs)[k].status == Pending ==>
                old(jobs)[k].scheduled > now || k in locked
      ensures r.Some? ==>
                var j := r.value;
                && j in old(jobs) && old(jobs)[j].status == Pending && j !in locked
                && old(jobs)[j].scheduled <= now
                && (forall k :: k in old(jobs) && old(jobs)[k].status == Pending && k !in locked ==>
                      old(jobs)[j].scheduled <= old(jobs)[k].scheduled)
                && OnlyRow(old(jobs), jobs, j)
                && jobs[j] == old(jobs)[j].(status := Running, started := Some(now),
                   attempts := old(jobs)[j].attempts + 1)
    {
      var due := set j | j in jobs && Due(jobs, locked, now, j);
      if due == {} {
        assert forall j :: Due(jobs, locked, now, j) ==> j in due;
        NoneDue(jobs, locked, now);
        return None;
      }
      var best :| best in due;
      var todo := due - {best};
      while todo != {}
        invariant best in due && todo <= due
        invariant forall k :: k in due && k !in todo ==> jobs[best].scheduled <= jobs[k].scheduled
        decreases todo
      {
        var k :| k in todo;
        todo := todo - {k};
        if jobs[k].scheduled < jobs[best].scheduled {
          best := k;
        }
      }
      jobs := Claimed(jobs, best, now);
      return Some(best);
    }

    /** A completed job is never claimed again and never recovered; no other row changes. */
    method CompleteJob(j: int)
      modifies this
      ensures OnlyRow(old(jobs), jobs, j) && jobs.Keys == old(jobs).Keys
      ensures j in old(jobs) ==> Closed(jobs, j) && jobs[j] == old(jobs)[j].(status := Completed)
      ensures jobs == Finished(old(jobs), j)
    {
      if j !in jobs {
        return;
      }
      jobs := jobs[j := jobs[j].(status := Completed)];
    }

    /** With attempts left the job can be claimed again, at the time it always could; else it is closed. No attempt is
        taken back, and no other row changes. */
    method FailJob(j: int)
      modifies this
      ensures OnlyRow(old(jobs), jobs, j) && jobs.Keys == old(jobs).Keys
      ensures j in old(jobs) && old(jobs)[j].attempts < old(jobs)[j].maxAttempts ==>
                forall locked, t :: Due(jobs, locked, t, j) <==> t >= old(jobs)[j].scheduled && j !in locked
      ensures j in old(jobs) && old(jobs)[j].attempts >= old(jobs)[j].maxAttempts ==> Closed(jobs, j)
      ensures j in old(jobs) ==> jobs[j].attempts == old(jobs)[j].attempts && forall cutoff :: !Stale(jobs[j], cutoff)
      ensures j in old(jobs) && old(jobs)[j].attempts < old(jobs)[j].maxAttempts ==>
                jobs[j] == old(jobs)[j].(status := Pending, started := None)
      ensures j in old(jobs) && old(jobs)[j].attempts >= old(jobs)[j].maxAttempts ==>
                jobs[j] == old(jobs)[j].(status := Failed)
      ensures jobs == FailedOnce(old(jobs), j)
    {
      if j !in jobs {
        return;
      }
      if jobs[j].attempts < jobs[j].maxAttempts {
        jobs := jobs[j := jobs[j].(status := Pending, started := None)];
      } else {
        jobs := jobs[j := jobs[j].(status := Failed)];
      }
    }

    /** No stale job is left; the stale ones can be claimed again with their attempts as they were, all others stay. */
    method RecoverStaleJobs(cutoff: int)
      modifies this
      ensures jobs.Keys == old(jobs).Keys && forall j :: j in jobs ==> !Stale(jobs[j], cutoff)
      ensures forall j :: j in jobs && !Stale(old(jobs)[j], cutoff) ==> jobs[j] == old(jobs)[j]
      ensures forall j :: j in jobs && Stale(old(jobs)[j], cutoff) ==>
                Due(jobs, {}, old(jobs)[j].scheduled, j) && jobs[j].attempts == old(jobs)[j].attempts
      ensures jobs == Recovered(old(jobs), cutoff)
      ensures forall j :: j in jobs ==>
                var was := old(jobs)[j];
                var late := was.status == Running && was.started.Some? && was.started.value < cutoff;
                jobs[j] == if late then was.(status := Pending, started := None) else was
    {
      jobs := map j | j in jobs :: if Stale(jobs[j], cutoff) then jobs[j].(status := Pending, started := None)
        else jobs[j];
    }
  }

  // ---------------------------------------------------------------- many workers

  /** A worker that is `unsure` takes the completion of its job for failed, and can only fail the job. A dead worker may
      have died with a job in its hands. */
  datatype Worker = Idle | Locking(job: int) | Holding(job: int, unsure: bool) | Dead(had: Option<int>)

  /** `abandoned` are the jobs whose worker went on without being able to record the outcome. */
  datatype State = State(jobs: Jobs, workers: map<int, Worker>, abandoned: set<int>)

  datatype Event =
    | Create(j: int, maxAttempts: int, at: int)
    | Lock(w: int, j: int, now: int)   // the row is found and locked
    | Claim(w: int, now: int)          // the claim is committed
    | ClaimFails(w: int)
    | Complete(w: int)
    | CompleteLost(w: int)             // recorded, but the answer is lost
    | Fail(w: int)
    | Abandon(w: int)                  // neither outcome can be recorded, or the answer of the claim was lost
    | Crash(w: int)
    | Recover(cutoff: int)

  function LockedRows(s: State): set<int> {
    set w | w in s.workers && s.workers[w].Locking? :: s.workers[w].job
  }

  predicate CanRecord(s: State, w: int) {
    w in s.workers && s.workers[w].Holding? && s.workers[w].job !in LockedRows(s)
  }

  ghost predicate Can(s: State, e: Event) {
    match e
    case Create(j, maxAttempts, _) => j !in s.jobs && maxAttempts >= 1
    case Lock(w, j, now) => w in s.workers && s.workers[w].Idle? && Oldest(s.jobs, LockedRows(s), now, j)
    case Claim(w, _) => w in s.workers && s.workers[w].Locking?
    case ClaimFails(w) => w in s.workers && s.workers[w].Locking?
    case Complete(w) => CanRecord(s, w) && !s.workers[w].unsure
    case CompleteLost(w) => CanRecord(s, w) && !s.workers[w].unsure
    case Fail(w) => CanRecord(s, w)
    case Abandon(w) => w in s.workers && s.workers[w].Holding?
    case Crash(w) => w in s.workers && !s.workers[w].Dead?
    case Recover(_) => true
  }

  function Now(s: State, w: int, now: Worker): State {
    s.(workers := s.workers[w := now])
  }

  ghost function Do(s: State, e: Event): State
    requires Can(s, e)
  {
    match e
    case Create(j, maxAttempts, at) => s.(jobs := s.jobs[j := Job(Pending, 0, maxAttempts, at, None)])
    case Lock(w, j, _) => Now(s, w, Locking(j))
    case Claim(w, now) =>
      var j := s.workers[w].job;
      Now(s, w, Holding(j, false)).(jobs := if j in s.jobs then Claimed(s.jobs, j, now) else s.jobs)
    case ClaimFails(w) => Now(s, w, Idle)
    case Complete(w) => Now(s, w, Idle).(jobs := Finished(s.jobs, s.workers[w].job))
    case CompleteLost(w) => Now(s, w, s.workers[w].(unsure := true)).(jobs := Finished(s.jobs, s.workers[w].job))
    case Fail(w) => Now(s, w, Idle).(jobs := FailedOnce(s.jobs, s.workers[w].job))
    case Abandon(w) => Now(s, w, Idle).(abandoned := s.abandoned + {s.workers[w].job})
    case Crash(w) => Now(s, w, Dead(if s.workers[w].Holding? then Some(s.workers[w].job) else None))
    case Recover(cutoff) => s.(jobs := Recovered(s.jobs, cutoff))
  }

  ghost predicate Runs(s: State, es: seq<Event>, t: State)
    decreases |es|
  {
    if es == [] then s == t else Can(s, es[0]) && Runs(Do(s, es[0]), es[1..], t)
  }

  ghost predicate Init(s: State) {
    s.jobs == map[] && s.abandoned == {} && forall w :: w in s.workers ==> s.workers[w] == Idle
  }
}
