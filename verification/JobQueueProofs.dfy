/** What the job queue promises over whole runs. */
module JobQueueProofs {
  import opened JobQueue
  import opened Options
  import opened Sets

  // ---------------------------------------------------------------- attempts

  /** How often the run claims `j`. */
  ghost function Claims(s: State, es: seq<Event>, t: State, j: int): nat
    requires Runs(s, es, t)
    decreases |es|
  {
    if es == [] then 0 else
    (if es[0].Claim? && s.workers[es[0].w].job == j then 1 else 0) + Claims(Do(s, es[0]), es[1..], t, j)
  }

  /** How often the run recovers `j`. */
  ghost function Recoveries(s: State, es: seq<Event>, t: State, j: int): nat
    requires Runs(s, es, t)
    decreases |es|
  {
    if es == [] then 0 else
    (if es[0].Recover? && j in s.jobs && Stale(s.jobs[j], es[0].cutoff) then 1 else 0)
      + Recoveries(Do(s, es[0]), es[1..], t, j)
  }

  /** A locked row is a pending job, locked by one claim only. */
  ghost predicate LocksOk(s: State) {
    && (forall w :: w in s.workers && s.workers[w].Locking? ==>
          s.workers[w].job in s.jobs && s.jobs[s.workers[w].job].status == Pending)
    && (forall v, w :: v in s.workers && w in s.workers && v != w && s.workers[v].Locking? && s.workers[w].Locking? ==>
          s.workers[v].job != s.workers[w].job)
    && (forall w :: w in s.workers && s.workers[w].Holding? ==> s.workers[w].job in s.jobs)
  }

  lemma {:induction false} LocksStay(s: State, e: Event)
    requires LocksOk(s) && Can(s, e)
    ensures LocksOk(Do(s, e))
  {
    assert forall w :: w in s.workers && s.workers[w].Locking? ==> s.workers[w].job in LockedRows(s);
    if e.Lock? {
      assert e.j !in LockedRows(s);
    }
  }

  /** Room for another attempt: a pending job has one less than it may have, counting one more per recovery. */
  predicate AttemptsOk(job: Job, recoveries: int) {
    && job.maxAttempts >= 1 && job.attempts >= 0
    && job.attempts <= job.maxAttempts + recoveries
    && (job.status == Pending ==> job.attempts < job.maxAttempts + recoveries)
  }

  lemma {:induction false} AttemptsStep(s: State, e: Event, j: int, n: nat)
    requires LocksOk(s) && Can(s, e) && j in s.jobs && AttemptsOk(s.jobs[j], n)
    ensures var t := Do(s, e);
            && j in t.jobs && t.jobs[j].maxAttempts == s.jobs[j].maxAttempts
            && AttemptsOk(t.jobs[j], n + if e.Recover? && Stale(s.jobs[j], e.cutoff) then 1 else 0)
            && t.jobs[j].attempts == s.jobs[j].attempts + if e.Claim? && s.workers[e.w].job == j then 1 else 0
  {
  }

  /** A job's attempts are the claims it has seen, and never more than it may have plus the times it was recovered. */
  lemma {:induction false} AttemptsBounded(s: State, es: seq<Event>, t: State, j: int, n: nat)
    requires LocksOk(s) && Runs(s, es, t) && j in s.jobs && AttemptsOk(s.jobs[j], n)
    ensures j in t.jobs && t.jobs[j].maxAttempts == s.jobs[j].maxAttempts
    ensures t.jobs[j].attempts == s.jobs[j].attempts + Claims(s, es, t, j)
    ensures t.jobs[j].attempts <= t.jobs[j].maxAttempts + n + Recoveries(s, es, t, j)
    decreases |es|
  {
    if es != [] {
      var more := if es[0].Recover? && Stale(s.jobs[j], es[0].cutoff) then 1 else 0;
      LocksStay(s, es[0]);
      AttemptsStep(s, es[0], j, n);
      AttemptsBounded(Do(s, es[0]), es[1..], t, j, n + more);
    }
  }

  /** From its creation on, a job is claimed at most as often as it may be, plus once per recovery. */
  lemma {:induction false} ClaimsBounded(s: State, j: int, maxAttempts: int, at: int, es: seq<Event>, t: State)
    requires LocksOk(s) && Can(s, Create(j, maxAttempts, at)) && Runs(Do(s, Create(j, maxAttempts, at)), es, t)
    ensures Claims(Do(s, Create(j, maxAttempts, at)), es, t, j) <=
            maxAttempts + Recoveries(Do(s, Create(j, maxAttempts, at)), es, t, j)
  {
    LocksStay(s, Create(j, maxAttempts, at));
    AttemptsBounded(Do(s, Create(j, maxAttempts, at)), es, t, j, 0);
  }

  // ---------------------------------------------------------------- one worker per job

  /** Every job in the hands of a worker is running, and in no other worker's hands. With `lost` it may also be
      completed, its worker not having had the answer. */
  ghost predicate HeldOnce(s: State, lost: bool) {
    && LocksOk(s)
    && (forall v, w :: v in s.workers && w in s.workers && v != w && s.workers[v].Holding? && s.workers[w].Holding? ==>
          s.workers[v].job != s.workers[w].job)
    && (forall w :: w in s.workers && s.workers[w].Holding? ==>
          var status := s.jobs[s.workers[w].job].status; status == Running || (lost && status == Completed))
  }

  /** A recovery that takes no job out of a worker's hands; every other step, but without `lost` not a completion whose
      answer is lost. */
  ghost predicate Spares(s: State, e: Event, lost: bool)
    requires LocksOk(s)
  {
    && (e.Recover? ==>
          forall w :: w in s.workers && s.workers[w].Holding? ==> !Stale(s.jobs[s.workers[w].job], e.cutoff))
    && (e.CompleteLost? ==> lost)
  }

  /** A step keeps every job in one pair of hands if and only if it is no recovery of a job that a worker holds - and
      keeps it running there if and only if it is no completion whose answer is lost, either. */
  lemma {:induction false} HeldStep(s: State, e: Event, lost: bool)
    requires HeldOnce(s, lost) && Can(s, e)
    ensures HeldOnce(Do(s, e), lost) <==> Spares(s, e, lost)
  {
    LocksStay(s, e);
    var t := Do(s, e);
    if e.Recover? && !Spares(s, e, lost) {
      var w :| w in s.workers && s.workers[w].Holding? && Stale(s.jobs[s.workers[w].job], e.cutoff);
      assert t.workers[w] == s.workers[w];
    }
    if e.CompleteLost? {
      assert t.workers[e.w].Holding? && t.jobs[t.workers[e.w].job].status == Completed;
    }
  }

  /** All recoveries of the run spare the jobs that workers hold - such as those at the start of a process that find
      the jobs of dead workers. */
  ghost predicate AllSpare(s: State, es: seq<Event>, t: State, lost: bool)
    requires Runs(s, es, t)
    decreases |es|
  {
    es == [] || (LocksOk(s) && Spares(s, es[0], lost) && AllSpare(Do(s, es[0]), es[1..], t, lost))
  }

  ghost predicate AllHeldOnce(s: State, es: seq<Event>, t: State, lost: bool)
    requires Runs(s, es, t)
    decreases |es|
  {
    HeldOnce(s, lost) && (es == [] || AllHeldOnce(Do(s, es[0]), es[1..], t, lost))
  }

  /** Over a whole run every job is in one pair of hands at every moment exactly when all recoveries spare the held. */
  lemma {:induction false} RunHolder(s: State, es: seq<Event>, t: State, lost: bool)
    requires HeldOnce(s, lost) && Runs(s, es, t)
    ensures AllHeldOnce(s, es, t, lost) <==> AllSpare(s, es, t, lost)
    ensures AllSpare(s, es, t, lost) ==> HeldOnce(t, lost)
    decreases |es|
  {
    if es != [] {
      HeldStep(s, es[0], lost);
      if Spares(s, es[0], lost) {
        RunHolder(Do(s, es[0]), es[1..], t, lost);
      } else {
        NotHeldOnce(Do(s, es[0]), es[1..], t, lost);
      }
    }
  }

  lemma {:induction false} NotHeldOnce(s: State, es: seq<Event>, t: State, lost: bool)
    requires Runs(s, es, t) && !HeldOnce(s, lost)
    ensures !AllHeldOnce(s, es, t, lost)
  {
  }

  lemma {:induction false} InitHeldOnce(s: State, lost: bool)
    requires Init(s)
    ensures HeldOnce(s, lost) && Accounted(s)
  {
  }

  /** In runs whose recoveries spare the held jobs no job is ever held by two workers, whatever answers are lost. */
  lemma {:induction false} NeverTwoHolders(s: State, es: seq<Event>, t: State, v: int, w: int)
    requires Init(s) && Runs(s, es, t) && AllSpare(s, es, t, true)
    requires v in t.workers && w in t.workers && t.workers[v].Holding? && t.workers[w].Holding?
             && t.workers[v].job == t.workers[w].job
    ensures v == w
  {
    InitHeldOnce(s, true);
    RunHolder(s, es, t, true);
  }

  // ---------------------------------------------------------------- outcomes

  predicate Settled(s: State, j: int) {
    j in s.jobs && s.jobs[j].status in {Completed, Failed}
  }

  predicate Has(s: State, w: int, j: int) {
    w in s.workers && s.workers[w].Holding? && s.workers[w].job == j
  }

  /** Some worker has the job in its hands - and is not one that can only fail it, if it is failed for good already. */
  ghost predicate Contested(s: State, j: int)
    requires j in s.jobs
  {
    exists w :: Has(s, w, j) &&
                (s.jobs[j].status == Completed || !s.workers[w].unsure || s.jobs[j].attempts < s.jobs[j].maxAttempts)
  }

  /** Whatever the step, an outcome that nobody contests stays, and nobody comes to contest it. */
  lemma {:induction false} OutcomeStep(s: State, e: Event, j: int)
    requires LocksOk(s) && Can(s, e) && Settled(s, j) && !Contested(s, j)
    ensures var t := Do(s, e); Settled(t, j) && t.jobs[j].status == s.jobs[j].status && !Contested(t, j)
  {
    var t := Do(s, e);
    assert t.jobs[j] == s.jobs[j];
    forall w | Has(t, w, j) ensures Has(s, w, j) && (s.workers[w] == t.workers[w] || s.jobs[j].status != Failed) {
    }
  }

  lemma {:induction false} OutcomeStays(s: State, es: seq<Event>, t: State, j: int)
    requires LocksOk(s) && Runs(s, es, t) && Settled(s, j) && !Contested(s, j)
    ensures Settled(t, j) && t.jobs[j].status == s.jobs[j].status
    decreases |es|
  {
    if es != [] {
      LocksStay(s, es[0]);
      OutcomeStep(s, es[0], j);
      OutcomeStays(Do(s, es[0]), es[1..], t, j);
    }
  }

  /** The step takes the outcome of `j` back or turns it over. */
  ghost predicate Overturns(s: State, e: Event, j: int)
    requires j in s.jobs
  {
    Can(s, e) && !(j in Do(s, e).jobs && Do(s, e).jobs[j].status == s.jobs[j].status)
  }

  ghost predicate OverturnedBy(s: State, es: seq<Event>, t: State, j: int)
    requires j in s.jobs
  {
    Runs(s, es, t) && !(j in t.jobs && t.jobs[j].status == s.jobs[j].status)
  }

  /** An outcome can still change - at the next step, or ever - if and only if some worker has the job in its hands
      and may still record another one. */
  lemma {:induction false} OutcomeExactly(s: State, j: int)
    requires LocksOk(s) && Settled(s, j)
    ensures (exists e :: Overturns(s, e, j)) <==> Contested(s, j)
    ensures (exists es, t :: OverturnedBy(s, es, t, j)) <==> Contested(s, j)
  {
    if Contested(s, j) {
      var e := HolderOverturns(s, j);
      OneStep(s, e);
      assert OverturnedBy(s, [e], Do(s, e), j);
    } else {
      forall e | Can(s, e) ensures !Overturns(s, e, j) {
        OutcomeStep(s, e, j);
      }
      forall es, t | Runs(s, es, t) ensures !OverturnedBy(s, es, t, j) {
        OutcomeStays(s, es, t, j);
      }
    }
  }

  lemma {:induction false} HolderOverturns(s: State, j: int) returns (e: Event)
    requires LocksOk(s) && Settled(s, j) && Contested(s, j)
    ensures Overturns(s, e, j)
  {
    var w :| Has(s, w, j) &&
      (s.jobs[j].status == Completed || !s.workers[w].unsure || s.jobs[j].attempts < s.jobs[j].maxAttempts);
    e := if s.jobs[j].status == Failed && !s.workers[w].unsure then Complete(w) else Fail(w);
  }

  lemma {:induction false} OneStep(s: State, e: Event)
    requires Can(s, e)
    ensures Runs(s, [e], Do(s, e))
  {
  }

  /** After a run whose recoveries spare the held jobs and whose completions all get their answers, every outcome is
      final - in whatever run follows. */
  lemma {:induction false} OutcomesFinal(start: State, before: seq<Event>, s: State, es: seq<Event>, t: State, j: int)
    requires Init(start) && Runs(start, before, s) && AllSpare(start, before, s, false)
    requires Runs(s, es, t) && Settled(s, j)
    ensures Settled(t, j) && t.jobs[j].status == s.jobs[j].status
  {
    InitHeldOnce(start, false);
    RunHolder(start, before, s, false);
    OutcomeStays(s, es, t, j);
  }

  /** A completion whose answer is lost is taken for a failure: without any recovery the completed job is sent back if
      it has attempts left, and else failed. */
  lemma {:induction false} LostAnswerRevives(s: State, w: int)
    requires LocksOk(s) && Can(s, CompleteLost(w))
    ensures var j, t := s.workers[w].job, Do(s, CompleteLost(w));
            && t.jobs[j].status == Completed && Can(t, Fail(w)) && j in Do(t, Fail(w)).jobs
            && !Can(t, Complete(w)) && !Can(t, CompleteLost(w))
            && Do(t, Fail(w)).jobs[j].status == if s.jobs[j].attempts < s.jobs[j].maxAttempts then Pending else Failed
  {
  }

  // ---------------------------------------------------------------- where the running jobs are

  predicate HadBy(w: Worker, j: int) {
    (w.Holding? && w.job == j) || w == Dead(Some(j))
  }

  /** A running job is in the hands of a worker, died with one, or was abandoned. */
  ghost predicate SomebodyHad(s: State, j: int) {
    j in s.abandoned || exists w :: w in s.workers && HadBy(s.workers[w], j)
  }

  ghost predicate Accounted(s: State) {
    forall j :: j in s.jobs && s.jobs[j].status == Running ==> SomebodyHad(s, j)
  }

  lemma {:induction false} SomebodyStill(s: State, e: Event, j: int)
    requires Can(s, e) && SomebodyHad(s, j) && !((e.Complete? || e.Fail?) && s.workers[e.w].job == j)
    ensures SomebodyHad(Do(s, e), j)
  {
    var t := Do(s, e);
    if j !in s.abandoned {
      var w :| w in s.workers && HadBy(s.workers[w], j);
      assert w in t.workers;
      assert HadBy(t.workers[w], j) || j in t.abandoned;
    }
  }

  lemma {:induction false} AccountedStep(s: State, e: Event)
    requires Accounted(s) && Can(s, e)
    ensures Accounted(Do(s, e))
  {
    var t := Do(s, e);
    forall j | j in t.jobs && t.jobs[j].status == Running ensures SomebodyHad(t, j) {
      if e.Claim? && s.workers[e.w].job == j {
        assert HadBy(t.workers[e.w], j);
      } else {
        SomebodyStill(s, e, j);
      }
    }
  }

  /** In every run, with any recoveries, no running job is lost sight of. */
  lemma {:induction false} RunAccounted(s: State, es: seq<Event>, t: State)
    requires Accounted(s) && Runs(s, es, t)
    ensures Accounted(t)
    decreases |es|
  {
    if es != [] {
      AccountedStep(s, es[0]);
      RunAccounted(Do(s, es[0]), es[1..], t);
    }
  }

  // ---------------------------------------------------------------- a job's ordinary way

  lemma {:induction false} ThreeSteps(s: State, e: Event, f: Event, g: Event)
    requires Can(s, e) && Can(Do(s, e), f) && Can(Do(Do(s, e), f), g)
    ensures Runs(s, [e, f, g], Do(Do(Do(s, e), f), g))
  {
    hide Can, Do;
    var s1, s2 := Do(s, e), Do(Do(s, e), f);
    OneStep(s, e);
    OneStep(s1, f);
    OneStep(s2, g);
    RunAfter(s, [e], s1, [f], s2);
    RunAfter(s, [e] + [f], s2, [g], Do(s2, g));
    assert [e] + [f] + [g] == [e, f, g];
  }

  /** An idle worker can take the oldest due job and complete it, with one attempt more, and is idle again. */
  lemma {:induction false} JobDone(s: State, w: int, j: int, now: int) returns (t: State)
    requires LocksOk(s) && w in s.workers && s.workers[w] == Idle && Oldest(s.jobs, LockedRows(s), now, j)
    ensures Runs(s, [Lock(w, j, now), Claim(w, now), Complete(w)], t)
    ensures t.workers == s.workers && t.abandoned == s.abandoned
    ensures t.jobs == s.jobs[j :=
            s.jobs[j].(status := Completed, started := Some(now), attempts := s.jobs[j].attempts + 1)]
  {
    var s1 := Do(s, Lock(w, j, now));
    var s2 := Do(s1, Claim(w, now));
    LocksStay(s, Lock(w, j, now));
    LocksStay(s1, Claim(w, now));
    assert Can(s2, Complete(w)) by {
      assert s2.jobs[j].status == Running;
    }
    t := Do(s2, Complete(w));
    assert t.workers == s.workers;
    ThreeSteps(s, Lock(w, j, now), Claim(w, now), Complete(w));
  }

  /** A worker that dies with a job leaves it running, until a recovery gives it back with the attempts it has seen. */
  lemma {:induction false} CrashRecovers(s: State, w: int, cutoff: int) returns (t: State)
    requires LocksOk(s) && w in s.workers && s.workers[w].Holding? && Stale(s.jobs[s.workers[w].job], cutoff)
    ensures Runs(s, [Crash(w), Recover(cutoff)], t)
    ensures var j := s.workers[w].job;
            && t.workers == s.workers[w := Dead(Some(j))] && t.abandoned == s.abandoned
            && t.jobs.Keys == s.jobs.Keys && t.jobs[j] == s.jobs[j].(status := Pending, started := None)
  {
    var s1 := Do(s, Crash(w));
    t := Do(s1, Recover(cutoff));
    OneStep(s, Crash(w));
    OneStep(s1, Recover(cutoff));
    RunAfter(s, [Crash(w)], s1, [Recover(cutoff)], t);
    assert [Crash(w)] + [Recover(cutoff)] == [Crash(w), Recover(cutoff)];
  }

  /** One that dies with none, or while it has a row locked only, takes none with it. */
  lemma {:induction false} CrashIdle(s: State, w: int)
    requires w in s.workers && (s.workers[w].Idle? || s.workers[w].Locking?)
    ensures Can(s, Crash(w)) && Do(s, Crash(w)) == s.(workers := s.workers[w := Dead(None)])
  {
  }

  // ---------------------------------------------------------------- a recovery that does not spare

  ghost predicate HeldTwice(s: State, j: int) {
    j in s.jobs && 1 in s.workers && 2 in s.workers && s.workers[1] == s.workers[2] == Holding(j, false)
  }

  /** The second worker completes, the first one fails late: the job is pending again. */
  ghost predicate RevivedLate(s: State, j: int) {
    && Can(s, Complete(2)) && j in Do(s, Complete(2)).jobs && Do(s, Complete(2)).jobs[j].status == Completed
    && Can(Do(s, Complete(2)), Fail(1))
    && j in Do(Do(s, Complete(2)), Fail(1)).jobs && Do(Do(s, Complete(2)), Fail(1)).jobs[j].status == Pending
  }

  lemma {:induction false} LateFailure(s: State)
    requires s.jobs == map[7 := Job(Running, 2, 3, 0, Some(1))]
             && s.workers == map[1 := Holding(7, false), 2 := Holding(7, false)]
    ensures RevivedLate(s, 7)
  {
    var done := Do(s, Complete(2));
    assert done.jobs == map[7 := Job(Completed, 2, 3, 0, Some(1))]
      && done.workers == map[1 := Holding(7, false), 2 := Idle];
  }

  /** With any other recovery both can break: a slow worker's job is recovered and claimed again, and its late failure
      sends the job that the second worker has completed back into the queue. */
  lemma {:induction false} RecoveryRevives(s: State)
    requires s.jobs == map[] && s.abandoned == {} && s.workers == map[1 := Idle, 2 := Idle]
    ensures exists es, t :: Runs(s, es, t) && HeldTwice(t, 7) && RevivedLate(t, 7)
  {
    var once := FirstClaim(s);
    var twice := SecondClaim(once);
    LateFailure(twice);
    hide RevivedLate, Do, Can;
    RunAfter(s, [Create(7, 3, 0), Lock(1, 7, 0), Claim(1, 0)], once, [Recover(1), Lock(2, 7, 1), Claim(2, 1)], twice);
  }

  lemma {:induction false} SecondClaim(s: State) returns (t: State)
    requires s == State(map[7 := Job(Running, 1, 3, 0, Some(0))], map[1 := Holding(7, false), 2 := Idle], {})
    ensures t.jobs == map[7 := Job(Running, 2, 3, 0, Some(1))] && t.abandoned == {}
    ensures t.workers == map[1 := Holding(7, false), 2 := Holding(7, false)]
    ensures Runs(s, [Recover(1), Lock(2, 7, 1), Claim(2, 1)], t)
  {
    var s1 := Do(s, Recover(1));
    assert s1.jobs == map[7 := Job(Pending, 1, 3, 0, None)];
    var s2 := Do(s1, Lock(2, 7, 1));
    t := Do(s2, Claim(2, 1));
    assert [Recover(1)] + ([Lock(2, 7, 1)] + [Claim(2, 1)]) == [Recover(1), Lock(2, 7, 1), Claim(2, 1)];
  }

  lemma {:induction false} FirstClaim(s: State) returns (t: State)
    requires s.jobs == map[] && s.abandoned == {} && s.workers == map[1 := Idle, 2 := Idle]
    ensures t == State(map[7 := Job(Running, 1, 3, 0, Some(0))], map[1 := Holding(7, false), 2 := Idle], {})
    ensures Runs(s, [Create(7, 3, 0), Lock(1, 7, 0), Claim(1, 0)], t)
  {
    var s1 := Do(s, Create(7, 3, 0));
    assert s1.jobs == map[7 := Job(Pending, 0, 3, 0, None)];
    var s2 := Do(s1, Lock(1, 7, 0));
    t := Do(s2, Claim(1, 0));
    assert [Create(7, 3, 0)] + ([Lock(1, 7, 0)] + [Claim(1, 0)]) == [Create(7, 3, 0), Lock(1, 7, 0), Claim(1, 0)];
  }

  lemma {:induction false} RunAfter(s: State, es: seq<Event>, t: State, fs: seq<Event>, u: State)
    requires Runs(s, es, t) && Runs(t, fs, u)
    ensures Runs(s, es + fs, u)
    decreases |es|
  {
    if es == [] {
      assert es + fs == fs;
    } else {
      RunAfter(Do(s, es[0]), es[1..], t, fs, u);
      assert (es + fs)[1..] == es[1..] + fs;
    }
  }

  // ---------------------------------------------------------------- the queue runs dry

  ghost predicate InHands(s: State, j: int) {
    exists w :: Has(s, w, j)
  }

  /** The work left in a job: two for each claim it can still see, one more while it runs - and while the worker that
      has it may still send it back. A pending job can be claimed once in any case, also after a recovery has given it
      back with no attempts left. */
  function Work(job: Job, held: bool): nat {
    var left := job.maxAttempts - job.attempts;
    match job.status
    case Pending => if left >= 1 then 2 * left else 2
    case Running => if left >= 1 then 2 * left + 1 else 1
    case Completed => if !held then 0 else if left >= 1 then 2 * left + 1 else 1
    case Failed => 0
  }

  /** The work left in some of the jobs. */
  ghost function TotalWork(s: State, ids: set<int>): nat
    requires ids <= s.jobs.Keys
  {
    if ids == {} then 0 else
    var j := Pick(ids);
    Work(s.jobs[j], InHands(s, j)) + TotalWork(s, ids - {j})
  }

  lemma {:induction false} WorkWithout(s: State, ids: set<int>, j: int)
    requires ids <= s.jobs.Keys && j in ids
    ensures TotalWork(s, ids) == Work(s.jobs[j], InHands(s, j)) + TotalWork(s, ids - {j})
    decreases ids
  {
    hide Work, InHands;
    var k := Pick(ids);
    if k != j {
      WorkWithout(s, ids - {k}, j);
      WorkWithout(s, ids - {j}, k);
      assert ids - {k} - {j} == ids - {j} - {k};
    }
  }

  lemma {:induction false} WorkLess(a: State, b: State, ids: set<int>)
    requires ids <= a.jobs.Keys && ids <= b.jobs.Keys
    requires forall j :: j in ids ==> Work(b.jobs[j], InHands(b, j)) <= Work(a.jobs[j], InHands(a, j))
    ensures TotalWork(b, ids) <= TotalWork(a, ids)
  {
    hide Work, InHands;
    if ids != {} {
      var j := Pick(ids);
      WorkWithout(a, ids, j);
      WorkWithout(b, ids, j);
      WorkLess(a, b, ids - {j});
    }
  }

  predicate Works(e: Event) {
    e.Claim? || e.Complete? || e.Fail?
  }

  /** The job a step of its worker is about. */
  predicate IsAbout(s: State, e: Event, j: int)
    requires Can(s, e)
  {
    Works(e) && s.workers[e.w].job == j
  }

  lemma {:induction false} OneWorkFalls(s: State, e: Event, j: int)
    requires HeldOnce(s, true) && Can(s, e) && !e.Recover? && !e.Create? && j in s.jobs
    ensures Do(s, e).jobs.Keys == s.jobs.Keys
    ensures var a, b := Work(s.jobs[j], InHands(s, j)), Work(Do(s, e).jobs[j], InHands(Do(s, e), j));
            if IsAbout(s, e, j) then b < a else b <= a
  {
    var t := Do(s, e);
    if IsAbout(s, e, j) {
      if !e.Claim? {
        assert Has(s, e.w, j);
        assert forall v :: !Has(t, v, j);
      }
    } else if e.CompleteLost? && s.workers[e.w].job == j {
      assert s.jobs[j].status == Completed ==> Has(s, e.w, j);
    } else {
      assert t.jobs[j] == s.jobs[j];
      assert forall v :: Has(t, v, j) ==> Has(s, v, j);
    }
  }

  /** The work left falls at every claim, completion and failure, and grows at no step but a new job and a recovery. */
  lemma {:induction false} WorkFalls(s: State, e: Event)
    requires HeldOnce(s, true) && Can(s, e) && !e.Recover? && !e.Create?
    ensures Do(s, e).jobs.Keys == s.jobs.Keys
    ensures var a, b := TotalWork(s, s.jobs.Keys), TotalWork(Do(s, e), s.jobs.Keys);
            if Works(e) then b < a else b <= a
  {
    var t := Do(s, e);
    var ids := s.jobs.Keys;
    forall j | j in ids
      ensures j in t.jobs && var a, b := Work(s.jobs[j], InHands(s, j)), Work(t.jobs[j], InHands(t, j));
              if IsAbout(s, e, j) then b < a else b <= a
    {
      OneWorkFalls(s, e, j);
    }
    if Works(e) {
      var j := s.workers[e.w].job;
      WorkWithout(s, ids, j);
      WorkWithout(t, ids, j);
      WorkLess(s, t, ids - {j});
    } else {
      WorkLess(s, t, ids);
    }
  }

  function CountWork(es: seq<Event>): nat {
    if es == [] then 0 else (if Works(es[0]) then 1 else 0) + CountWork(es[1..])
  }

  /** Without new jobs and recoveries, a run has at most as many claims, completions and failures as there is work left,
      whatever answers are lost - wherever it starts, also after recoveries that spared the held jobs. */
  lemma {:induction false} RunsDry(s: State, es: seq<Event>, t: State)
    requires HeldOnce(s, true) && Runs(s, es, t)
    requires forall i :: 0 <= i < |es| ==> !es[i].Recover? && !es[i].Create?
    ensures t.jobs.Keys == s.jobs.Keys && HeldOnce(t, true)
    ensures CountWork(es) + TotalWork(t, t.jobs.Keys) <= TotalWork(s, s.jobs.Keys)
    decreases |es|
  {
    if es != [] {
      WorkFalls(s, es[0]);
      HeldStep(s, es[0], true);
      RunsDry(Do(s, es[0]), es[1..], t);
    }
  }

  /** Once some worker is idle, none is at work, and nothing can be claimed although every job's time has come, each job
      is completed, failed, or was left running by a worker that died or could not record the outcome. */
  lemma {:induction false} DryState(s: State, w: int, now: int, j: int)
    requires Accounted(s) && w in s.workers && s.workers[w].Idle?  // so that it could claim
    requires forall v :: v in s.workers ==> s.workers[v].Idle? || s.workers[v].Dead?
    requires forall k :: !Oldest(s.jobs, LockedRows(s), now, k)
    requires j in s.jobs && forall k :: k in s.jobs ==> s.jobs[k].scheduled <= now
    ensures s.jobs[j].status in {Completed, Failed} ||
            (s.jobs[j].status == Running
              && (j in s.abandoned || exists v :: v in s.workers && s.workers[v] == Dead(Some(j))))
  {
    assert LockedRows(s) == {};
    if s.jobs[j].status == Pending {
      var k := OldestDue(s.jobs, LockedRows(s), now, s.jobs.Keys, j);
    }
    if s.jobs[j].status == Running && j !in s.abandoned {
      var v :| v in s.workers && HadBy(s.workers[v], j);
      assert s.workers[v] == Dead(Some(j));
    }
  }

  lemma {:induction false} OldestDue(jobs: Jobs, locked: set<int>, now: int, ids: set<int>, j: int) returns (k: int)
    requires j in ids && Due(jobs, locked, now, j)
    ensures k in ids && Due(jobs, locked, now, k)
    ensures forall i :: i in ids && Due(jobs, locked, now, i) ==> jobs[k].scheduled <= jobs[i].scheduled
    ensures ids == jobs.Keys ==> Oldest(jobs, locked, now, k)
    decreases ids
  {
    k := j;
    if i :| i in ids && i != j {
      k := OldestDue(jobs, locked, now, ids - {i}, j);
      if Due(jobs, locked, now, i) && jobs[i].scheduled < jobs[k].scheduled {
        k := i;
      }
    }
  }
}
