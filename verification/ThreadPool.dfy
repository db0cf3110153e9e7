/** The thread pool (src/thread_pool/thread_pool.c) as interleaved steps of the threads that add jobs, the workers,
    and the thread that frees the pool. */
module ThreadPool {
  import opened Options

  /** A job is the address that job_new returned. */
  type Job = nat

  /** Where a worker stands in thread_handle. */
  datatype Worker =
    | AtTest            // about to test the cancel flag
    | AtWait            // in sem_wait
    | AtCount           // past sem_wait, about to call queue_get_count
    | AtPop             // saw a queue that was not empty, about to call queue_pop
    | Running(job: Job) // in job_execute, then job_free
    | Exited

  /** Where a caller stands in thread_pool_add_job. */
  datatype Adder =
    | Outside
    | AtPush(job: Job)  // the thread for the job exists, about to call queue_push
    | AtPost            // about to call sem_post

  /** Where the caller of thread_pool_free stands. */
  datatype Freeing =
    | NotYet
    | Posting(posted: nat)
    | Joining(joined: nat)
    | Draining
    | Done

  datatype State = State(
    maxThreads: nat,
    tokens: nat,           // the semaphore
    queue: seq<Job>,
    workers: seq<Worker>,
    adders: seq<Adder>,
    cancel: bool,
    freeing: Freeing,
    submitted: set<Job>,   // every job handed to thread_pool_add_job
    pushed: seq<Job>,      // in the order of the pushes
    ran: seq<Job>,         // in the order in which workers took them
    drained: seq<Job>,     // taken by thread_pool_free instead
    freed: seq<Job>)       // in the order of the calls of job_free

  datatype Step =
    | Begin(adder: nat, job: Job)
    | Push(adder: nat)
    | Post(adder: nat)
    | Work(worker: nat)
    | Cancel
    | Free

  function Init(maxThreads: nat, callers: nat): State {
    State(maxThreads, 0, [], [], seq(callers, _ => Outside), false, NotYet, {}, [], [], [], [])
  }

  /** One step of a worker; None while it blocks and once it has left. */
  function WorkStep(s: State, i: nat): Option<State>
    requires i < |s.workers|
  {
    match s.workers[i]
    case AtTest => Some(s.(workers := s.workers[i := if s.cancel then Exited else AtWait]))
    case AtWait => if s.tokens == 0 then None else Some(s.(tokens := s.tokens - 1, workers := s.workers[i := AtCount]))
    case AtCount => Some(s.(workers := s.workers[i := if |s.queue| > 0 then AtPop else AtTest]))
    case AtPop =>
      if s.queue == [] then Some(s.(workers := s.workers[i := AtTest]))
      else Some(s.(queue := s.queue[1..], ran := s.ran + [s.queue[0]], workers := s.workers[i := Running(s.queue[0])]))
    case Running(job) => Some(s.(freed := s.freed + [job], workers := s.workers[i := AtTest]))
    case Exited => None
  }

  /** One step of thread_pool_free once it has set the flag. */
  function FreeStep(s: State): Option<State> {
    match s.freeing
    case NotYet => None
    case Posting(k) =>
      if k < |s.workers| then Some(s.(tokens := s.tokens + 1, freeing := Posting(k + 1)))
      else Some(s.(freeing := Joining(0)))
    case Joining(k) =>
      if k >= |s.workers| then Some(s.(freeing := Draining))
      else if s.workers[k] == Exited then Some(s.(freeing := Joining(k + 1)))
      else None
    case Draining =>
      if s.queue == [] then Some(s.(freeing := Done))
      else Some(s.(queue := s.queue[1..], drained := s.drained + [s.queue[0]], freed := s.freed + [s.queue[0]]))
    case Done => None
  }

  /** The state after a step, if the step can be taken. A job is added once, and the pool is not freed while a job is
      being added or added to once it is being freed. */
  function Next(s: State, step: Step): Option<State> {
    match step
    case Begin(a, job) =>
      if a < |s.adders| && s.adders[a] == Outside && job !in s.submitted && s.freeing == NotYet then
        Some(s.(submitted := s.submitted + {job}, adders := s.adders[a := AtPush(job)],
                workers := if |s.workers| < s.maxThreads then s.workers + [AtTest] else s.workers))
      else None
    case Push(a) =>
      if a < |s.adders| && s.adders[a].AtPush? then
        var job := s.adders[a].job;
        Some(s.(queue := s.queue + [job], pushed := s.pushed + [job], adders := s.adders[a := AtPost]))
      else None
    case Post(a) =>
      if a < |s.adders| && s.adders[a] == AtPost
      then Some(s.(tokens := s.tokens + 1, adders := s.adders[a := Outside]))
      else None
    case Work(i) => if i < |s.workers| then WorkStep(s, i) else None
    case Cancel =>
      if s.freeing == NotYet && NobodyAdds(s) then Some(s.(cancel := true, freeing := Posting(0))) else None
    case Free => FreeStep(s)
  }

  predicate NobodyAdds(s: State) {
    forall a :: 0 <= a < |s.adders| ==> s.adders[a] == Outside
  }

  // --- sums over the threads ----------------------------------------------------------------------------

  function Total<T>(ts: seq<T>, f: T -> nat): nat {
    if ts == [] then 0 else f(ts[0]) + Total(ts[1..], f)
  }

  lemma {:induction false} TotalUpdate<T>(ts: seq<T>, i: nat, t: T, f: T -> nat)
    requires i < |ts|
    ensures Total(ts[i := t], f) == Total(ts, f) - f(ts[i]) + f(t)
  {
    if i == 0 {
      assert ts[0 := t][1..] == ts[1..];
    } else {
      TotalUpdate(ts[1..], i - 1, t, f);
      assert ts[i := t][1..] == ts[1..][i - 1 := t];
    }
  }

  lemma {:induction false} TotalSnoc<T>(ts: seq<T>, t: T, f: T -> nat)
    ensures Total(ts + [t], f) == Total(ts, f) + f(t)
  {
    if ts == [] {
      assert [t] == ts + [t] && [t][1..] == [];
    } else {
      TotalSnoc(ts[1..], t, f);
      assert (ts + [t])[1..] == ts[1..] + [t];
    }
  }

  lemma {:induction false} TotalZero<T>(ts: seq<T>, f: T -> nat)
    ensures Total(ts, f) == 0 <==> forall i :: 0 <= i < |ts| ==> f(ts[i]) == 0
  {
    if ts != [] {
      TotalZero(ts[1..], f);
      assert ts == [ts[0]] + ts[1..];
    }
  }

  /** Workers that have taken a token and not yet looked into the queue with it. */
  function Woken(w: Worker): nat {
    if w.AtCount? || w.AtPop? then 1 else 0
  }

  function Waits(w: Worker): nat {
    if w.AtWait? then 1 else 0
  }

  function Owes(a: Adder): nat {
    if a.AtPost? then 1 else 0
  }

  function Runs(job: Job): Worker -> nat {
    (w: Worker) => if w == Running(job) then 1 else 0
  }

  function IsJob(job: Job): Job -> nat {
    (j: Job) => if j == job then 1 else 0
  }

  // --- the invariant ------------------------------------------------------------------------------------

  /** Every queued job has a token, a worker that a token has woken, or an adder that is about to post one. */
  ghost predicate TokensCover(s: State) {
    |s.queue| <= s.tokens + Total(s.workers, Woken) + Total(s.adders, Owes)
  }

  /** Jobs leave the queue in the order in which they came. */
  ghost predicate Ordered(s: State) {
    s.pushed == s.ran + s.drained + s.queue
  }

  /** A job that has left the queue is running or freed. */
  ghost predicate Accounted(s: State, job: Job) {
    Total(s.ran, IsJob(job)) + Total(s.drained, IsJob(job)) == Total(s.workers, Runs(job)) + Total(s.freed, IsJob(job))
  }

  /** No job is pushed twice. */
  ghost predicate PushedOnce(s: State) {
    && (forall i, j :: 0 <= i < j < |s.pushed| ==> s.pushed[i] != s.pushed[j])
    && (forall i :: 0 <= i < |s.pushed| ==> s.pushed[i] in s.submitted)
    && (forall a :: 0 <= a < |s.adders| && s.adders[a].AtPush? ==>
          s.adders[a].job in s.submitted && s.adders[a].job !in s.pushed)
    && (forall a, b :: 0 <= a < b < |s.adders| && s.adders[a].AtPush? && s.adders[b].AtPush? ==>
          s.adders[a].job != s.adders[b].job)
  }

  /** A job that has been handed over is in the hands of an adder or has been pushed. */
  ghost predicate Tracked(s: State, job: Job) {
    job in s.submitted ==> job in s.pushed || exists a :: 0 <= a < |s.adders| && s.adders[a] == AtPush(job)
  }

  ghost predicate AllExited(s: State, k: nat) {
    forall i :: 0 <= i < |s.workers| && i < k ==> s.workers[i] == Exited
  }

  /** Once the flag is set, the tokens there are and the tokens still to be posted are enough for every worker in
      sem_wait. */
  ghost predicate ExitCovered(s: State) {
    && (s.cancel <==> s.freeing != NotYet)
    && (s.cancel ==> NobodyAdds(s))
    && match s.freeing
       case NotYet => s.drained == [] && forall i :: 0 <= i < |s.workers| ==> s.workers[i] != Exited
       case Posting(k) => s.drained == [] && k <= |s.workers| && Total(s.workers, Waits) <= s.tokens + (|s.workers| - k)
       case Joining(k) => s.drained == [] && k <= |s.workers| && Total(s.workers, Waits) <= s.tokens && AllExited(s, k)
       case Draining => AllExited(s, |s.workers|)
       case Done => AllExited(s, |s.workers|) && s.queue == []
  }

  ghost predicate Inv(s: State) {
    && TokensCover(s) && Ordered(s) && PushedOnce(s) && ExitCovered(s)
    && forall job :: Accounted(s, job) && Tracked(s, job)
  }

  lemma InitKeeps(maxThreads: nat, callers: nat)
    ensures Inv(Init(maxThreads, callers))
  {
  }

  lemma WorkCovers(s: State, i: nat)
    requires i < |s.workers| && WorkStep(s, i).Some? && TokensCover(s)
    ensures TokensCover(WorkStep(s, i).value)
  {
    hide Total;
    var s' := WorkStep(s, i).value;
    TotalUpdate(s.workers, i, s'.workers[i], Woken);
  }

  lemma WorkAccounts(s: State, i: nat, job: Job)
    requires i < |s.workers| && WorkStep(s, i).Some? && Accounted(s, job)
    ensures Accounted(WorkStep(s, i).value, job)
  {
    hide Total;
    var s' := WorkStep(s, i).value;
    TotalUpdate(s.workers, i, s'.workers[i], Runs(job));
    match s.workers[i]
    case AtPop =>
      if s.queue != [] {
        TotalSnoc(s.ran, s.queue[0], IsJob(job));
      }
    case Running(j) => TotalSnoc(s.freed, j, IsJob(job));
    case _ =>
  }

  lemma WorkOrders(s: State, i: nat)
    requires i < |s.workers| && WorkStep(s, i).Some? && Ordered(s) && (s.workers[i] == AtPop ==> s.drained == [])
    ensures Ordered(WorkStep(s, i).value)
  {
    if s.workers[i] == AtPop && s.queue != [] {
      assert s.queue == [s.queue[0]] + s.queue[1..];
    }
  }

  lemma WorkExits(s: State, i: nat)
    requires i < |s.workers| && WorkStep(s, i).Some? && ExitCovered(s)
    ensures ExitCovered(WorkStep(s, i).value)
  {
    hide Total;
    var s' := WorkStep(s, i).value;
    TotalUpdate(s.workers, i, s'.workers[i], Waits);
  }

  lemma WorkKeeps(s: State, i: nat)
    requires i < |s.workers| && WorkStep(s, i).Some? && Inv(s)
    ensures Inv(WorkStep(s, i).value)
  {
    hide Total;
    var s' := WorkStep(s, i).value;
    assert PushedOnce(s');
    WorkOrders(s, i);
    hide Ordered;
    hide PushedOnce;
    WorkCovers(s, i);
    WorkExits(s, i);
    hide TokensCover;
    hide ExitCovered;
    hide WorkStep;
    forall job
      ensures Accounted(s', job) && Tracked(s', job)
    {
      WorkAccounts(s, i, job);
      assert Tracked(s, job);
    }
  }

  /** A step of one adder loses no job. */
  lemma AdderTracks(s: State, s': State, a: nat, job: Job)
    requires a < |s.adders| && |s'.adders| == |s.adders| && s'.adders == s.adders[a := s'.adders[a]] && Tracked(s, job)
    requires job in s.pushed ==> job in s'.pushed
    requires s.adders[a] == AtPush(job) ==> job in s'.pushed
    requires s'.submitted == s.submitted || (s'.adders[a].AtPush? && s'.submitted == s.submitted + {s'.adders[a].job})
    ensures Tracked(s', job)
  {
    if job in s'.submitted && job !in s'.pushed {
      if job in s.submitted {
        var b :| 0 <= b < |s.adders| && s.adders[b] == AtPush(job);
        assert s'.adders[b] == AtPush(job);
      } else {
        assert s'.adders[a] == AtPush(job);
      }
    }
  }

  lemma BeginKeeps(s: State, a: nat, job: Job)
    requires Next(s, Begin(a, job)).Some? && Inv(s)
    ensures Inv(Next(s, Begin(a, job)).value)
  {
    var s' := Next(s, Begin(a, job)).value;
    assert PushedOnce(s') && Ordered(s');
    hide PushedOnce;
    hide Ordered;
    hide Total;
    hide Tracked;
    TotalSnoc(s.workers, AtTest, Woken);
    TotalSnoc(s.workers, AtTest, Waits);
    TotalUpdate(s.adders, a, AtPush(job), Owes);
    forall j
      ensures Accounted(s', j) && Tracked(s', j)
    {
      TotalSnoc(s.workers, AtTest, Runs(j));
      assert Accounted(s, j);
      AdderTracks(s, s', a, j);
    }
  }

  lemma PushKeeps(s: State, a: nat)
    requires Next(s, Push(a)).Some? && Inv(s)
    ensures Inv(Next(s, Push(a)).value)
  {
    var s' := Next(s, Push(a)).value;
    assert PushedOnce(s') && Ordered(s');
    hide PushedOnce;
    hide Ordered;
    hide Total;
    hide Tracked;
    TotalUpdate(s.adders, a, AtPost, Owes);
    forall j
      ensures Accounted(s', j) && Tracked(s', j)
    {
      assert Accounted(s, j);
      AdderTracks(s, s', a, j);
    }
  }

  lemma PostKeeps(s: State, a: nat)
    requires Next(s, Post(a)).Some? && Inv(s)
    ensures Inv(Next(s, Post(a)).value)
  {
    var s' := Next(s, Post(a)).value;
    assert PushedOnce(s') && Ordered(s');
    hide PushedOnce;
    hide Ordered;
    hide Total;
    hide Tracked;
    TotalUpdate(s.adders, a, Outside, Owes);
    forall j
      ensures Accounted(s', j) && Tracked(s', j)
    {
      assert Accounted(s, j);
      AdderTracks(s, s', a, j);
    }
  }

  lemma {:induction false} WaitsBound(ws: seq<Worker>)
    ensures Total(ws, Waits) <= |ws|
  {
    if ws != [] {
      WaitsBound(ws[1..]);
    }
  }

  lemma CancelKeeps(s: State)
    requires Next(s, Cancel).Some? && Inv(s)
    ensures Inv(Next(s, Cancel).value)
  {
    var s' := Next(s, Cancel).value;
    WaitsBound(s.workers);
    hide Total;
    forall j
      ensures Accounted(s', j) && Tracked(s', j)
    {
      assert Accounted(s, j) && Tracked(s, j);
    }
  }

  lemma FreeAccounts(s: State, job: Job)
    requires FreeStep(s).Some? && Accounted(s, job)
    ensures Accounted(FreeStep(s).value, job)
  {
    hide Total;
    if s.freeing == Draining && s.queue != [] {
      TotalSnoc(s.drained, s.queue[0], IsJob(job));
      TotalSnoc(s.freed, s.queue[0], IsJob(job));
    }
  }

  lemma FreeOrders(s: State)
    requires FreeStep(s).Some? && Ordered(s)
    ensures Ordered(FreeStep(s).value)
  {
    if s.queue != [] {
      assert s.queue == [s.queue[0]] + s.queue[1..];
    }
  }

  lemma FreeKeeps(s: State)
    requires FreeStep(s).Some? && Inv(s)
    ensures Inv(FreeStep(s).value)
  {
    var s' := FreeStep(s).value;
    hide Total;
    FreeOrders(s);
    hide Ordered;
    assert ExitCovered(s') && TokensCover(s') && PushedOnce(s');
    hide ExitCovered;
    hide TokensCover;
    hide PushedOnce;
    forall j
      ensures Accounted(s', j) && Tracked(s', j)
    {
      FreeAccounts(s, j);
      assert Tracked(s, j);
    }
  }

  lemma NextKeeps(s: State, step: Step)
    requires Next(s, step).Some? && Inv(s)
    ensures Inv(Next(s, step).value)
  {
    hide Inv;
    hide WorkStep;
    hide FreeStep;
    match step
    case Begin(a, job) => BeginKeeps(s, a, job);
    case Push(a) => PushKeeps(s, a);
    case Post(a) => PostKeeps(s, a);
    case Work(i) => WorkKeeps(s, i);
    case Cancel => CancelKeeps(s);
    case Free => FreeKeeps(s);
  }

  /** The state after a run, or None if one of its steps cannot be taken. */
  function After(s: State, steps: seq<Step>): Option<State> {
    if steps == [] then Some(s)
    else
      var before := After(s, steps[..|steps| - 1]);
      if before == None then None else Next(before.value, steps[|steps| - 1])
  }

  /** The invariant holds in every state that any interleaving reaches. */
  lemma {:induction false} EveryRunKeeps(maxThreads: nat, callers: nat, steps: seq<Step>)
    requires After(Init(maxThreads, callers), steps).Some?
    ensures Inv(After(Init(maxThreads, callers), steps).value)
  {
    hide Inv;
    hide Next;
    if steps == [] {
      InitKeeps(maxThreads, callers);
    } else {
      EveryRunKeeps(maxThreads, callers, steps[..|steps| - 1]);
      NextKeeps(After(Init(maxThreads, callers), steps[..|steps| - 1]).value, steps[|steps| - 1]);
    }
  }

  // --- every job runs once ------------------------------------------------------------------------------

  lemma {:induction false} TotalConcat<T>(ts: seq<T>, us: seq<T>, f: T -> nat)
    ensures Total(ts + us, f) == Total(ts, f) + Total(us, f)
  {
    if ts == [] {
      assert ts + us == us;
    } else {
      TotalConcat(ts[1..], us, f);
      assert (ts + us)[1..] == ts[1..] + us;
    }
  }

  lemma {:induction false} CountDistinct(jobs: seq<Job>, job: Job)
    requires forall i, j :: 0 <= i < j < |jobs| ==> jobs[i] != jobs[j]
    ensures Total(jobs, IsJob(job)) == if job in jobs then 1 else 0
  {
    if jobs != [] {
      CountDistinct(jobs[1..], job);
      assert jobs == [jobs[0]] + jobs[1..];
    }
  }

  /** How often each job has been queued, run, drained and freed, in every state that can be reached. */
  lemma JobCounts(s: State, job: Job)
    requires Inv(s)
    ensures Total(s.pushed, IsJob(job)) == if job in s.pushed then 1 else 0
    ensures Total(s.pushed, IsJob(job))
         == Total(s.workers, Runs(job)) + Total(s.freed, IsJob(job)) + Total(s.queue, IsJob(job))
    ensures Total(s.ran, IsJob(job)) <= 1 && Total(s.freed, IsJob(job)) <= 1
  {
    CountDistinct(s.pushed, job);
    hide Total;
    TotalConcat(s.ran + s.drained, s.queue, IsJob(job));
    TotalConcat(s.ran, s.drained, IsJob(job));
    assert Accounted(s, job);
  }

  /** No job runs twice or is freed twice, however the threads interleave, and jobs are started in the order in which
      they were pushed. */
  lemma RunsAtMostOnce(maxThreads: nat, callers: nat, steps: seq<Step>, job: Job)
    requires After(Init(maxThreads, callers), steps).Some?
    ensures var s := After(Init(maxThreads, callers), steps).value;
            Total(s.ran, IsJob(job)) <= 1 && Total(s.freed, IsJob(job)) <= 1 && s.ran <= s.pushed
  {
    EveryRunKeeps(maxThreads, callers, steps);
    JobCounts(After(Init(maxThreads, callers), steps).value, job);
  }

  /** Nobody is adding a job, the pool is not being freed and no worker can move. */
  ghost predicate AtRest(s: State) {
    && NobodyAdds(s) && s.freeing == NotYet
    && forall i :: 0 <= i < |s.workers| ==> WorkStep(s, i) == None
  }

  lemma IdleTotals(s: State)
    requires AtRest(s) && ExitCovered(s)
    ensures Total(s.workers, Woken) == 0 && Total(s.adders, Owes) == 0 && (|s.workers| > 0 ==> s.tokens == 0)
    ensures forall job :: Total(s.workers, Runs(job)) == 0
  {
    forall i | 0 <= i < |s.workers|
      ensures s.workers[i] == AtWait && s.tokens == 0
    {
      assert WorkStep(s, i) == None;
    }
    hide WorkStep;
    TotalZero(s.workers, Woken);
    TotalZero(s.adders, Owes);
    hide Total;
    forall job
      ensures Total(s.workers, Runs(job)) == 0
    {
      TotalZero(s.workers, Runs(job));
    }
  }

  /** A worker for each job that was handed over, up to the number that is allowed. */
  ghost predicate Staffed(s: State, maxThreads: nat) {
    s.maxThreads == maxThreads && |s.workers| == if |s.submitted| < maxThreads then |s.submitted| else maxThreads
  }

  lemma NextStaffed(s: State, step: Step, maxThreads: nat)
    requires Staffed(s, maxThreads) && Next(s, step).Some?
    ensures Staffed(Next(s, step).value, maxThreads)
  {
  }

  /** However the threads interleave, the pool never has more threads than it may have, and as many as that or one for
      each job. */
  lemma {:induction false} EveryRunStaffed(maxThreads: nat, callers: nat, steps: seq<Step>)
    requires After(Init(maxThreads, callers), steps).Some?
    ensures Staffed(After(Init(maxThreads, callers), steps).value, maxThreads)
  {
    if steps != [] {
      hide Next;
      hide Staffed;
      EveryRunStaffed(maxThreads, callers, steps[..|steps| - 1]);
      NextStaffed(After(Init(maxThreads, callers), steps[..|steps| - 1]).value, steps[|steps| - 1], maxThreads);
    }
  }

  /** Every job that was handed over has run, in the order of the pushes, and has been freed exactly once. */
  ghost predicate AllDone(s: State) {
    && s.queue == [] && s.ran == s.pushed
    && forall job :: Total(s.freed, IsJob(job)) == if job in s.submitted then 1 else 0
  }

  /** No wake-up is lost: a pool that may have a thread comes to rest only with every job done. */
  lemma RestMeansAllDone(maxThreads: nat, callers: nat, steps: seq<Step>)
    requires After(Init(maxThreads, callers), steps).Some? && maxThreads > 0
    ensures var s := After(Init(maxThreads, callers), steps).value; AtRest(s) ==> AllDone(s)
  {
    var s := After(Init(maxThreads, callers), steps).value;
    EveryRunKeeps(maxThreads, callers, steps);
    EveryRunStaffed(maxThreads, callers, steps);
    hide After;
    hide Inv;
    hide AllDone;
    if AtRest(s) {
      if s.submitted == {} {
        NothingPushed(s);
      } else {
        assert |s.submitted| > 0;
      }
      RestIsDone(s);
    }
  }

  lemma NothingPushed(s: State)
    requires Inv(s) && s.submitted == {}
    ensures s.pushed == []
  {
    hide Inv;
    if s.pushed != [] {
      PushedIsSubmitted(s, s.pushed[0]);
    }
  }

  lemma PushedIsSubmitted(s: State, job: Job)
    requires Inv(s) && job in s.pushed
    ensures job in s.submitted
  {
  }

  lemma RestIsDone(s: State)
    requires Inv(s) && AtRest(s) && (s.pushed == [] || |s.workers| > 0)
    ensures AllDone(s)
  {
    IdleTotals(s);
    assert NobodyAdds(s) && s.drained == [];
    assert s.queue == [];
    assert s.ran + [] + [] == s.ran;
    hide AtRest;
    forall job
      ensures Total(s.freed, IsJob(job)) == if job in s.submitted then 1 else 0
    {
      RestCounts(s, job);
    }
  }

  lemma RestCounts(s: State, job: Job)
    requires Inv(s) && s.queue == [] && NobodyAdds(s) && Total(s.workers, Runs(job)) == 0
    ensures Total(s.freed, IsJob(job)) == if job in s.submitted then 1 else 0
  {
    JobCounts(s, job);
    assert Tracked(s, job);
  }

  /** Coming to rest means that every job is done, whoever calls and however the threads interleave, if and only if
      the pool may have a thread at all. */
  lemma RestIsDoneIff(maxThreads: nat)
    ensures (forall callers: nat, steps: seq<Step> ::
               var s := After(Init(maxThreads, callers), steps); s.Some? && AtRest(s.value) ==> AllDone(s.value))
       <==> maxThreads > 0
  {
    if maxThreads > 0 {
      forall callers: nat, steps: seq<Step> | After(Init(maxThreads, callers), steps).Some?
        ensures AtRest(After(Init(maxThreads, callers), steps).value) ==>
                AllDone(After(Init(maxThreads, callers), steps).value)
      {
        RestMeansAllDone(maxThreads, callers, steps);
      }
    } else {
      var s0 := Init(0, 1);
      var steps := [Begin(0, 7), Push(0), Post(0)];
      var s3 := s0.(submitted := {7}, queue := [7], pushed := [7], tokens := 1);
      OneJobWaits(s0, s3);
      assert After(Init(maxThreads, 1), steps) == Some(s3);
      assert AtRest(s3) && !AllDone(s3);
    }
  }

  lemma OneJobWaits(s0: State, s3: State)
    requires s0 == Init(0, 1) && s3 == s0.(submitted := {7}, queue := [7], pushed := [7], tokens := 1)
    ensures After(s0, [Begin(0, 7), Push(0), Post(0)]) == Some(s3)
  {
    var all := [Begin(0, 7), Push(0), Post(0)];
    assert all[..2] == [Begin(0, 7), Push(0)] && [Begin(0, 7), Push(0)][..1] == [Begin(0, 7)];
    assert [Begin(0, 7)][..0] == [];
    var s1 := s0.(submitted := {7}, adders := [AtPush(7)]);
    var s2 := s1.(queue := [7], pushed := [7], adders := [AtPost]);
    assert After(s0, []) == Some(s0);
    assert s0.adders[0 := AtPush(7)] == s1.adders && s0.submitted + {7} == {7};
    assert s0.queue + [7] == [7] && s1.adders[0 := AtPost] == s2.adders;
    assert Next(s0, Begin(0, 7)) == Some(s1);
    assert After(s0, [Begin(0, 7)]) == Some(s1);
    assert Next(s1, Push(0)) == Some(s2);
    assert After(s0, [Begin(0, 7), Push(0)]) == Some(s2);
    assert s2.adders[0 := Outside] == s0.adders;
  }

  // --- freeing the pool returns -------------------------------------------------------------------------

  function Weight(w: Worker): nat {
    match w
    case AtTest => 1
    case AtWait => 0
    case AtCount => 4
    case AtPop => 3
    case Running(_) => 2
    case Exited => 0
  }

  function FreeWeight(s: State): int {
    match s.freeing
    case NotYet => 0
    case Posting(k) => 6 * (|s.workers| - k) + |s.workers| + 3
    case Joining(k) => |s.workers| - k + 2
    case Draining => 1
    case Done => 0
  }

  function Measure(s: State): int {
    5 * s.tokens + Total(s.workers, Weight) + |s.queue| + FreeWeight(s)
  }

  /** Every step of a worker or of thread_pool_free uses something up. */
  lemma WorkDecreases(s: State, i: nat)
    requires i < |s.workers| && WorkStep(s, i).Some?
    ensures Measure(WorkStep(s, i).value) < Measure(s)
  {
    hide Total;
    var s' := WorkStep(s, i).value;
    TotalUpdate(s.workers, i, s'.workers[i], Weight);
  }

  lemma FreeDecreases(s: State)
    requires FreeStep(s).Some? && ExitCovered(s)
    ensures Measure(FreeStep(s).value) < Measure(s)
  {
    hide Total;
  }

  lemma WorkKeepsFlag(s: State, i: nat)
    requires i < |s.workers| && WorkStep(s, i).Some?
    ensures WorkStep(s, i).value.cancel == s.cancel
  {
  }

  lemma FreeKeepsFlag(s: State)
    requires FreeStep(s).Some?
    ensures FreeStep(s).value.cancel == s.cancel
  {
  }

  /** Once the flag is set, only workers and thread_pool_free move. */
  lemma CancelledSteps(s: State, step: Step)
    requires Inv(s) && s.cancel && Next(s, step).Some?
    ensures Next(s, step).value.cancel && 0 <= Measure(Next(s, step).value) < Measure(s)
  {
    NextKeeps(s, step);
    MeasureIsNat(Next(s, step).value);
    hide Total;
    hide Measure;
    hide WorkStep;
    hide FreeStep;
    match step
    case Work(i) =>
      WorkDecreases(s, i);
      WorkKeepsFlag(s, i);
    case Free =>
      FreeDecreases(s);
      FreeKeepsFlag(s);
    case _ =>
  }

  lemma MeasureIsNat(s: State)
    requires ExitCovered(s)
    ensures Measure(s) >= 0
  {
    hide Total;
  }

  /** The thread that frees the pool is never left waiting for a worker that cannot move. */
  lemma FreeingAdvances(s: State)
    requires Inv(s) && s.cancel && s.freeing != Done
    ensures exists step :: Next(s, step).Some?
  {
    if FreeStep(s).Some? {
      assert Next(s, Free).Some?;
    } else {
      var k := s.freeing.joined;
      TotalZero(s.workers, Waits);
      assert Waits(AtWait) == 1;
      hide Total;
      assert WorkStep(s, k).Some?;
      assert Next(s, Work(k)).Some?;
    }
  }

  lemma DoneMeans(s: State, job: Job)
    requires Inv(s) && s.freeing == Done
    ensures s.pushed == s.ran + s.drained
    ensures Total(s.freed, IsJob(job)) == if job in s.submitted then 1 else 0
  {
    TotalZero(s.workers, Runs(job));
    JobCounts(s, job);
    assert Tracked(s, job);
    assert s.ran + s.drained + [] == s.ran + s.drained;
  }

  /** From the moment the flag is set every run is bounded, and a run that cannot go on has freed the pool with every
      worker gone and every job that was ever handed over freed exactly once. So joining the workers cannot block,
      provided that jobs return. */
  lemma {:induction false} FreeReturns(s: State, steps: seq<Step>)
    requires Inv(s) && s.cancel && After(s, steps).Some?
    ensures var e := After(s, steps).value;
            && Inv(e) && e.cancel && 0 <= Measure(e) <= Measure(s) - |steps|
            && ((exists step :: Next(e, step).Some?) <==> e.freeing != Done)
  {
    hide Measure;
    hide Next;
    if steps == [] {
      MeasureIsNat(s);
    } else {
      var front, last := steps[..|steps| - 1], steps[|steps| - 1];
      FreeReturns(s, front);
      NextKeeps(After(s, front).value, last);
      CancelledSteps(After(s, front).value, last);
    }
    var e := After(s, steps).value;
    hide After;
    hide Inv;
    if e.freeing != Done {
      FreeingAdvances(e);
    } else {
      forall step
        ensures Next(e, step) == None
      {
        DoneIsFinal(e, step);
      }
    }
  }

  lemma DoneIsFinal(s: State, step: Step)
    requires Inv(s) && s.freeing == Done
    ensures Next(s, step) == None
  {
  }
}
