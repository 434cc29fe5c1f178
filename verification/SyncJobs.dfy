/** Single-flight synchronisation jobs (background/scheduler.py, class SyncScheduler). The code between two
    awaits is one step; any number of callers and job tasks interleave. */
module SyncJobs {
  import opened Prelude

  const KEPT := 20

  datatype Status = Running | Done | Failed

  datatype Job = Job(id: string, status: Status)

  /** Where the task of a job stands: not yet in `sync_cache`, inside it holding the flag, or back from it
      without having reported its result. */
  datatype Phase = Waiting | Syncing | Skipped | Returned(failed: bool)

  /** `jobs` is the dictionary in insertion order. `direct` counts calls of `sync_cache` that belong to no
      job and hold the flag. */
  datatype State = State(jobs: seq<Job>, flag: bool, syncCount: nat, tasks: map<string, Phase>, direct: nat)

  const IDLE := State([], false, 0, map[], 0)

  datatype Event =
    | Start(id: string)
    | Enter(id: string)
    | Leave(id: string, failed: bool)
    | Finish(id: string)
    | EnterDirect
    | LeaveDirect

  // ---------------------------------------------------------------- the dictionary of jobs

  /** The first running job. */
  function FirstRunning(jobs: seq<Job>): Option<string> {
    if jobs == [] then None
    else if jobs[0].status == Running then Some(jobs[0].id) else FirstRunning(jobs[1..])
  }

  function Lookup(jobs: seq<Job>, id: string): Option<Job> {
    if jobs == [] then None else if jobs[0].id == id then Some(jobs[0]) else Lookup(jobs[1..], id)
  }

  /** The job is created if it is not there. */
  function SetStatus(jobs: seq<Job>, id: string, status: Status): seq<Job> {
    if jobs == [] then [Job(id, status)]
    else if jobs[0].id == id then [Job(id, status)] + jobs[1..]
    else [jobs[0]] + SetStatus(jobs[1..], id, status)
  }

  function Finished(jobs: seq<Job>): seq<Job> {
    if jobs == [] then []
    else if jobs[0].status == Running then Finished(jobs[1..])
    else [jobs[0]] + Finished(jobs[1..])
  }

  function Popped(jobs: seq<Job>, id: string): seq<Job> {
    if jobs == [] then [] else (if jobs[0].id == id then [] else [jobs[0]]) + Popped(jobs[1..], id)
  }

  function PopAll(jobs: seq<Job>, gone: seq<Job>): seq<Job>
    decreases gone
  {
    if gone == [] then jobs else PopAll(Popped(jobs, gone[0].id), gone[1..])
  }

  function Prune(jobs: seq<Job>): seq<Job> {
    var done := Finished(jobs);
    if |done| > KEPT then PopAll(jobs, done[..|done| - KEPT]) else jobs
  }

  // ---------------------------------------------------------------- steps

  predicate Busy(s: State) {
    s.flag || FirstRunning(s.jobs).Some?
  }

  predicate CanFinish(s: State, id: string) {
    id in s.tasks && (s.tasks[id].Skipped? || s.tasks[id].Returned?)
  }

  /** A job whose synchronisation was skipped is reported as done. */
  function Outcome(p: Phase): Status {
    if p.Returned? && p.failed then Failed else Done
  }

  function Step(s: State, e: Event): State {
    match e
    case Start(id) =>
      if Busy(s) then s else s.(jobs := s.jobs + [Job(id, Running)], tasks := s.tasks[id := Waiting])
    case Enter(id) =>
      if id !in s.tasks || s.tasks[id] != Waiting then s
      else if s.flag then s.(tasks := s.tasks[id := Skipped])
      else s.(flag := true, syncCount := s.syncCount + 1, tasks := s.tasks[id := Syncing])
    case Leave(id, failed) =>
      if id !in s.tasks || s.tasks[id] != Syncing then s
      else s.(flag := false, tasks := s.tasks[id := Returned(failed)])
    case Finish(id) =>
      if !CanFinish(s, id) then s
      else s.(jobs := Prune(SetStatus(s.jobs, id, Outcome(s.tasks[id]))), tasks := s.tasks - {id})
    case EnterDirect =>
      if s.flag then s else s.(flag := true, syncCount := s.syncCount + 1, direct := s.direct + 1)
    case LeaveDirect =>
      if s.direct == 0 then s else s.(flag := false, direct := s.direct - 1)
  }

  function After(h: seq<Event>): State {
    if h == [] then IDLE else Step(After(h[..|h| - 1]), h[|h| - 1])
  }

  /** The registry as it would be if nothing were ever pruned. */
  function AllJobs(h: seq<Event>): seq<Job> {
    if h == [] then [] else
      var prefix, e := h[..|h| - 1], h[|h| - 1];
      var s := After(prefix);
      if e.Start? && !Busy(s) then AllJobs(prefix) + [Job(e.id, Running)]
      else if e.Finish? && CanFinish(s, e.id) then SetStatus(AllJobs(prefix), e.id, Outcome(s.tasks[e.id]))
      else AllJobs(prefix)
  }

  /** Every start draws a new identifier. */
  ghost predicate FreshIds(h: seq<Event>) {
    forall i, j | 0 <= i < j < |h| && h[i].Start? && h[j].Start? :: h[i].id != h[j].id
  }

  // ---------------------------------------------------------------- facts about the dictionary

  ghost predicate DistinctIds(jobs: seq<Job>) {
    forall i, j | 0 <= i < j < |jobs| :: jobs[i].id != jobs[j].id
  }

  /** All but possibly the last job have finished. */
  ghost predicate OnlyLastRuns(jobs: seq<Job>) {
    forall i | 0 <= i < |jobs| - 1 :: jobs[i].status != Running
  }

  predicate LastRuns(jobs: seq<Job>) {
    jobs != [] && jobs[|jobs| - 1].status == Running
  }

  lemma {:induction false} RunningIsLast(jobs: seq<Job>)
    requires OnlyLastRuns(jobs)
    ensures FirstRunning(jobs) == if LastRuns(jobs) then Some(jobs[|jobs| - 1].id) else None
  {
    if |jobs| > 1 {
      assert jobs[0].status != Running;
      RunningIsLast(jobs[1..]);
    }
  }

  lemma {:induction false} LookupAt(jobs: seq<Job>, i: nat)
    requires DistinctIds(jobs) && i < |jobs|
    ensures Lookup(jobs, jobs[i].id) == Some(jobs[i])
  {
    if i > 0 {
      LookupAt(jobs[1..], i - 1);
    }
  }

  lemma {:induction false} LookupMissing(jobs: seq<Job>, id: string)
    requires forall i | 0 <= i < |jobs| :: jobs[i].id != id
    ensures Lookup(jobs, id) == None
  {
    if jobs != [] {
      LookupMissing(jobs[1..], id);
    }
  }

  lemma {:induction false} SetStatusAtLast(jobs: seq<Job>, id: string, status: Status)
    requires DistinctIds(jobs) && jobs != [] && jobs[|jobs| - 1].id == id
    ensures SetStatus(jobs, id, status) == jobs[|jobs| - 1 := Job(id, status)]
  {
    if |jobs| > 1 {
      assert jobs[0].id != id;
      SetStatusAtLast(jobs[1..], id, status);
    }
  }

  lemma {:induction false} AllFinished(jobs: seq<Job>)
    requires forall i | 0 <= i < |jobs| :: jobs[i].status != Running
    ensures Finished(jobs) == jobs
  {
    if jobs != [] {
      AllFinished(jobs[1..]);
    }
  }

  lemma {:induction false} PoppedMissing(jobs: seq<Job>, id: string)
    requires forall i | 0 <= i < |jobs| :: jobs[i].id != id
    ensures Popped(jobs, id) == jobs
  {
    if jobs != [] {
      PoppedMissing(jobs[1..], id);
    }
  }

  lemma PopHead(jobs: seq<Job>)
    requires DistinctIds(jobs) && jobs != []
    ensures Popped(jobs, jobs[0].id) == jobs[1..]
  {
    PoppedMissing(jobs[1..], jobs[0].id);
    assert [] + jobs[1..] == jobs[1..];
  }

  lemma {:induction false} PopPrefix(jobs: seq<Job>, n: nat)
    requires DistinctIds(jobs) && n <= |jobs|
    ensures PopAll(jobs, jobs[..n]) == jobs[n..]
    decreases n
  {
    if n > 0 {
      PopHead(jobs);
      PopPrefix(jobs[1..], n - 1);
      assert jobs[..n][1..] == jobs[1..][..n - 1] && jobs[1..][n - 1..] == jobs[n..];
    } else {
      assert jobs[0..] == jobs;
    }
  }

  /** When every job has finished, exactly the oldest ones beyond the last twenty go. */
  lemma PruneDropsOldest(jobs: seq<Job>)
    requires DistinctIds(jobs) && forall i | 0 <= i < |jobs| :: jobs[i].status != Running
    ensures Prune(jobs) == jobs[if |jobs| > 20 then |jobs| - 20 else 0..]
  {
    AllFinished(jobs);
    if |jobs| > KEPT {
      PopPrefix(jobs, |jobs| - KEPT);
    } else {
      assert jobs[0..] == jobs;
    }
  }

  // ---------------------------------------------------------------- the registry follows the full history

  /** The jobs of the full history that are still registered: the running one and the last twenty others. */
  function Kept(all: seq<Job>): seq<Job> {
    var n := if LastRuns(all) then KEPT + 1 else KEPT;
    if |all| > n then all[|all| - n..] else all
  }

  lemma KeptLast(all: seq<Job>)
    ensures (all != []) == (Kept(all) != []) && LastRuns(Kept(all)) == LastRuns(all)
    ensures all != [] ==> Kept(all)[|Kept(all)| - 1] == all[|all| - 1]
  {
  }

  lemma KeptDistinct(all: seq<Job>)
    requires DistinctIds(all) && OnlyLastRuns(all)
    ensures DistinctIds(Kept(all)) && OnlyLastRuns(Kept(all))
  {
  }

  lemma KeptStart(all: seq<Job>, job: Job)
    requires !LastRuns(all) && job.status == Running
    ensures Kept(all + [job]) == Kept(all) + [job]
  {
  }

  lemma KeptFinish(all: seq<Job>, status: Status)
    requires DistinctIds(all) && OnlyLastRuns(all) && LastRuns(all) && status != Running
    ensures var id := all[|all| - 1].id;
            Prune(SetStatus(Kept(all), id, status)) == Kept(SetStatus(all, id, status))
  {
    var last := |all| - 1;
    KeptLast(all);
    KeptDistinct(all);
    SetStatusAtLast(all, all[last].id, status);
    SetStatusAtLast(Kept(all), all[last].id, status);
    PruneDropsOldest(SetStatus(Kept(all), all[last].id, status));
  }

  ghost predicate Tracked(s: State, all: seq<Job>) {
    && DistinctIds(all) && OnlyLastRuns(all) && s.jobs == Kept(all)
    && s.tasks.Keys == (if LastRuns(all) then {all[|all| - 1].id} else {})
    && s.direct <= 1
    && (s.flag <==> s.direct == 1 || exists id | id in s.tasks :: s.tasks[id] == Syncing)
    && (s.direct == 1 ==> forall id | id in s.tasks :: s.tasks[id] != Syncing)
  }

  lemma StepStart(s: State, all: seq<Job>, id: string)
    requires Tracked(s, all) && !Busy(s) && forall i | 0 <= i < |all| :: all[i].id != id
    ensures Tracked(Step(s, Start(id)), all + [Job(id, Running)])
  {
    KeptLast(all);
    KeptDistinct(all);
    RunningIsLast(s.jobs);
    KeptStart(all, Job(id, Running));
  }

  lemma StepFinish(s: State, all: seq<Job>, id: string)
    requires Tracked(s, all) && CanFinish(s, id)
    ensures Tracked(Step(s, Finish(id)), SetStatus(all, id, Outcome(s.tasks[id])))
  {
    assert all[|all| - 1].id == id;
    KeptFinish(all, Outcome(s.tasks[id]));
    SetStatusAtLast(all, id, Outcome(s.tasks[id]));
  }

  lemma StepOther(s: State, all: seq<Job>, e: Event)
    requires Tracked(s, all)
    requires !(e.Start? && !Busy(s)) && !(e.Finish? && CanFinish(s, e.id))
    ensures Tracked(Step(s, e), all)
  {
    var t := Step(s, e);
    if (e.Enter? || e.Leave?) && t != s {
      assert s.tasks.Keys == {e.id} && t.tasks.Keys == {e.id};
      assert t.flag <==> s.direct == 1 || t.tasks[e.id] == Syncing;
    }
  }

  ghost predicate WasStarted(h: seq<Event>, id: string) {
    exists k | 0 <= k < |h| :: h[k].Start? && h[k].id == id
  }

  ghost predicate AllStarted(h: seq<Event>, jobs: seq<Job>) {
    forall i | 0 <= i < |jobs| :: WasStarted(h, jobs[i].id)
  }

  lemma StartedStays(h: seq<Event>, jobs: seq<Job>)
    requires h != [] && AllStarted(h[..|h| - 1], jobs)
    ensures AllStarted(h, jobs)
  {
    var prefix := h[..|h| - 1];
    forall i | 0 <= i < |jobs| ensures WasStarted(h, jobs[i].id) {
      assert WasStarted(prefix, jobs[i].id);
      var k :| 0 <= k < |prefix| && prefix[k].Start? && prefix[k].id == jobs[i].id;
      assert h[k] == prefix[k];
    }
  }

  lemma NewIdIsFresh(h: seq<Event>, jobs: seq<Job>)
    requires h != [] && FreshIds(h) && h[|h| - 1].Start? && AllStarted(h[..|h| - 1], jobs)
    ensures forall i | 0 <= i < |jobs| :: jobs[i].id != h[|h| - 1].id
  {
    var prefix := h[..|h| - 1];
    forall i | 0 <= i < |jobs| ensures jobs[i].id != h[|h| - 1].id {
      assert WasStarted(prefix, jobs[i].id);
      var k :| 0 <= k < |prefix| && prefix[k].Start? && prefix[k].id == jobs[i].id;
      assert h[k] == prefix[k];
    }
  }

  lemma NewIdWasStarted(h: seq<Event>, jobs: seq<Job>)
    requires h != [] && h[|h| - 1].Start? && AllStarted(h, jobs)
    ensures AllStarted(h, jobs + [Job(h[|h| - 1].id, Running)])
  {
    assert WasStarted(h, h[|h| - 1].id);
  }

  lemma FinishedWasStarted(h: seq<Event>, jobs: seq<Job>, id: string, status: Status)
    requires DistinctIds(jobs) && jobs != [] && jobs[|jobs| - 1].id == id && AllStarted(h, jobs)
    ensures AllStarted(h, SetStatus(jobs, id, status))
  {
    SetStatusAtLast(jobs, id, status);
  }

  lemma {:induction false} AlwaysTracked(h: seq<Event>)
    requires FreshIds(h)
    ensures Tracked(After(h), AllJobs(h)) && AllStarted(h, AllJobs(h))
  {
    if h != [] {
      var prefix, e := h[..|h| - 1], h[|h| - 1];
      var s, all := After(prefix), AllJobs(prefix);
      AlwaysTracked(prefix);
      StartedStays(h, all);
      if e.Start? && !Busy(s) {
        NewIdIsFresh(h, all);
        StepStart(s, all, e.id);
        NewIdWasStarted(h, all);
      } else if e.Finish? && CanFinish(s, e.id) {
        StepFinish(s, all, e.id);
        FinishedWasStarted(h, all, e.id, Outcome(s.tasks[e.id]));
      } else {
        StepOther(s, all, e);
      }
    }
  }

  // ---------------------------------------------------------------- guarantees in every reachable state

  /** Only the last registered job can be running, and at most one synchronisation is in progress. */
  lemma OneAtATime(h: seq<Event>)
    requires FreshIds(h)
    ensures OnlyLastRuns(After(h).jobs) && |After(h).tasks| <= 1
    ensures After(h).direct <= 1
    ensures forall id | id in After(h).tasks && After(h).tasks[id] == Syncing :: After(h).direct == 0
  {
    AlwaysTracked(h);
    KeptDistinct(AllJobs(h));
    assert |After(h).tasks| == |After(h).tasks.Keys|;
  }

  /** What a refused `start_job` answers: None stands for "unknown". */
  function Existing(s: State): Option<string> {
    FirstRunning(s.jobs)
  }

  /** A refusal names a job that can be looked up and is running. It says "unknown" if and only if a call of
      `sync_cache` that belongs to no job holds the flag while no job is registered as running. */
  lemma RefusalNamesRunningJob(h: seq<Event>)
    requires FreshIds(h) && Busy(After(h))
    ensures var s := After(h);
            && (Existing(s) == None <==> s.direct == 1 && s.tasks == map[])
            && (Existing(s).Some? ==> Lookup(s.jobs, Existing(s).value) == Some(Job(Existing(s).value, Running)))
  {
    var s, all := After(h), AllJobs(h);
    AlwaysTracked(h);
    KeptDistinct(all);
    KeptLast(all);
    RunningIsLast(s.jobs);
    if LastRuns(s.jobs) {
      LookupAt(s.jobs, |s.jobs| - 1);
      assert all[|all| - 1].id in s.tasks;
    } else {
      assert s.tasks.Keys == {};
    }
  }

  lemma AfterSnoc(h: seq<Event>, e: Event)
    ensures After(h + [e]) == Step(After(h), e)
  {
    assert (h + [e])[..|h|] == h;
  }

  /** A direct call of `sync_cache` is enough for a start to be refused with "unknown", and a direct call that
      comes while a job waits is not: the refusal then names that job. */
  lemma DirectCallRuns(a: string, b: string)
    ensures var s := After([EnterDirect]);
            Busy(s) && Step(s, Start(b)) == s && Existing(s) == None
    ensures var s := After([Start(a), EnterDirect]);
            Busy(s) && s.direct == 1 && Step(s, Start(b)) == s && Existing(s) == Some(a)
  {
    AfterSnoc([], EnterDirect);
    assert [] + [EnterDirect] == [EnterDirect];
    AfterSnoc([], Start(a));
    assert [] + [Start(a)] == [Start(a)];
    AfterSnoc([Start(a)], EnterDirect);
    assert [Start(a)] + [EnterDirect] == [Start(a), EnterDirect];
  }

  predicate NoDirectCalls(h: seq<Event>) {
    forall i | 0 <= i < |h| :: h[i] != EnterDirect
  }

  lemma {:induction false} NoneDirect(h: seq<Event>)
    requires NoDirectCalls(h)
    ensures After(h).direct == 0
  {
    if h != [] {
      NoneDirect(h[..|h| - 1]);
    }
  }

  /** When every synchronisation goes through a job, no refusal ever says "unknown". */
  lemma NeverUnknown(h: seq<Event>)
    requires FreshIds(h) && NoDirectCalls(h) && Busy(After(h))
    ensures Existing(After(h)).Some?
  {
    RefusalNamesRunningJob(h);
    NoneDirect(h);
  }

  /** The registry is the end of the full history: at most the last twenty finished jobs and the running
      one. A job can be looked up, with its true status, exactly while it is among them. */
  lemma RegistryIsRecentHistory(h: seq<Event>, i: nat)
    requires FreshIds(h) && i < |AllJobs(h)|
    ensures var all, s := AllJobs(h), After(h);
            var first := |all| - |s.jobs|;
            && |Finished(s.jobs)| == (if |Finished(all)| > 20 then 20 else |Finished(all)|)
            && Lookup(s.jobs, all[i].id) == if i < first then None else Some(all[i])
  {
    AlwaysTracked(h);
    KeptCount(AllJobs(h));
    KeptLookup(AllJobs(h), i);
  }

  /** How often the flag was taken. */
  function TimesTaken(h: seq<Event>): nat {
    if h == [] then 0 else
      TimesTaken(h[..|h| - 1]) + (if After(h).flag && !After(h[..|h| - 1]).flag then 1 else 0)
  }

  /** The counter counts the synchronisations that ran, and not those that were skipped. */
  lemma {:induction false} CountsRuns(h: seq<Event>)
    ensures After(h).syncCount == TimesTaken(h)
  {
    if h != [] {
      CountsRuns(h[..|h| - 1]);
    }
  }

  /** The synchronisation of this job ran and failed. */
  ghost predicate EndedFailed(h: seq<Event>, id: string) {
    h != [] &&
    var prefix := h[..|h| - 1];
    || EndedFailed(prefix, id)
    || (h[|h| - 1] == Leave(id, true) && id in After(prefix).tasks && After(prefix).tasks[id] == Syncing)
  }

  /** The task of this job has reported its result. */
  ghost predicate HasFinished(h: seq<Event>, id: string) {
    h != [] &&
    var prefix := h[..|h| - 1];
    HasFinished(prefix, id) || (h[|h| - 1] == Finish(id) && CanFinish(After(prefix), id))
  }

  lemma {:induction false} NothingBeforeStart(h: seq<Event>, id: string)
    requires !WasStarted(h, id)
    ensures id !in After(h).tasks && !EndedFailed(h, id) && !HasFinished(h, id)
  {
    if h != [] {
      var prefix := h[..|h| - 1];
      assert forall k | 0 <= k < |prefix| :: prefix[k] == h[k];
      NothingBeforeStart(prefix, id);
    }
  }

  /** Every job of the history is running until its task has reported, and then failed if its synchronisation ran
      and failed, and done otherwise, also when it was skipped. */
  lemma {:induction false} StatusMeans(h: seq<Event>)
    requires FreshIds(h)
    ensures forall i | 0 <= i < |AllJobs(h)| ::
              var job := AllJobs(h)[i];
              job.status == if !HasFinished(h, job.id) then Running else if EndedFailed(h, job.id) then Failed else Done
    ensures forall id | id in After(h).tasks ::
              !HasFinished(h, id) && (EndedFailed(h, id) <==> After(h).tasks[id] == Returned(true))
  {
    if h != [] {
      var prefix, e := h[..|h| - 1], h[|h| - 1];
      var all := AllJobs(prefix);
      StatusMeans(prefix);
      AlwaysTracked(prefix);
      if e.Start? {
        assert forall k | 0 <= k < |prefix| && prefix[k].Start? :: prefix[k].id == h[k].id != e.id;
        NothingBeforeStart(prefix, e.id);
      } else if e.Finish? && CanFinish(After(prefix), e.id) {
        assert all[|all| - 1].id == e.id;
        SetStatusAtLast(all, e.id, Outcome(After(prefix).tasks[e.id]));
      }
    }
  }

  lemma KeptCount(all: seq<Job>)
    requires DistinctIds(all) && OnlyLastRuns(all)
    ensures |Finished(Kept(all))| == if |Finished(all)| > KEPT then KEPT else |Finished(all)|
  {
    KeptDistinct(all);
    KeptLast(all);
    FinishedCount(all);
    FinishedCount(Kept(all));
  }

  lemma KeptLookup(all: seq<Job>, i: nat)
    requires DistinctIds(all) && OnlyLastRuns(all) && i < |all|
    ensures Lookup(Kept(all), all[i].id) == if i < |all| - |Kept(all)| then None else Some(all[i])
  {
    var kept := Kept(all);
    var first := |all| - |kept|;
    KeptDistinct(all);
    if i < first {
      LookupMissing(kept, all[i].id);
    } else {
      assert kept[i - first] == all[i];
      LookupAt(kept, i - first);
    }
  }

  lemma FinishedCount(jobs: seq<Job>)
    requires OnlyLastRuns(jobs)
    ensures |Finished(jobs)| == if LastRuns(jobs) then |jobs| - 1 else |jobs|
  {
    if LastRuns(jobs) {
      AllFinished(jobs[..|jobs| - 1]);
      FinishedOfTwo(jobs[..|jobs| - 1], [jobs[|jobs| - 1]]);
      assert jobs == jobs[..|jobs| - 1] + [jobs[|jobs| - 1]];
    } else {
      AllFinished(jobs);
    }
  }

  lemma FinishedCons(job: Job, rest: seq<Job>)
    ensures Finished([job] + rest) == (if job.status == Running then [] else [job]) + Finished(rest)
  {
    assert ([job] + rest)[1..] == rest;
  }

  lemma {:induction false} FinishedOfTwo(a: seq<Job>, b: seq<Job>)
    ensures Finished(a + b) == Finished(a) + Finished(b)
  {
    if a == [] {
      assert a + b == b;
    } else {
      FinishedOfTwo(a[1..], b);
      FinishedCons(a[0], a[1..] + b);
      FinishedCons(a[0], a[1..]);
      assert a + b == [a[0]] + (a[1..] + b) && a == [a[0]] + a[1..];
    }
  }

  /** The prune at the end of a job never removes that job: its caller can still read the result. */
  lemma JustFinishedStays(h: seq<Event>, id: string)
    requires FreshIds(h) && CanFinish(After(h), id)
    ensures Lookup(Step(After(h), Finish(id)).jobs, id) == Some(Job(id, Outcome(After(h).tasks[id])))
  {
    var s, all := After(h), AllJobs(h);
    AlwaysTracked(h);
    StepFinish(s, all, id);
    SetStatusAtLast(all, id, Outcome(s.tasks[id]));
    var next := SetStatus(all, id, Outcome(s.tasks[id]));
    KeptDistinct(next);
    KeptLast(next);
    LookupAt(Kept(next), |Kept(next)| - 1);
  }

  // ---------------------------------------------------------------- the class

  class SyncScheduler {
    var jobs: seq<Job>
    var syncInProgress: bool
    var syncCount: nat
    ghost var tasks: map<string, Phase>
    ghost var direct: nat

    ghost function View(): State
      reads this
    {
      State(jobs, syncInProgress, syncCount, tasks, direct)
    }

    constructor ()
      ensures View() == IDLE
    {
      jobs, syncInProgress, syncCount, tasks, direct := [], false, 0, map[], 0;
    }

    /** The first job whose status is running. */
    method FindRunning() returns (r: Option<string>)
      ensures r == FirstRunning(jobs)
    {
      var i := 0;
      while i < |jobs|
        invariant 0 <= i <= |jobs| && FirstRunning(jobs[i..]) == FirstRunning(jobs)
      {
        if jobs[i].status == Running {
          return Some(jobs[i].id);
        }
        i := i + 1;
      }
      return None;
    }

    /** `start_job`, and the registration part of `run_scheduled_sync`. `uuid` is the fresh identifier.
        Returns the new job or the one that is in the way. */
    method StartJob(uuid: string) returns (started: Option<string>, existing: Option<string>)
      modifies this
      ensures View() == Step(old(View()), Start(uuid))
      ensures Busy(old(View())) ==> started == None && existing == Existing(old(View()))
      ensures !Busy(old(View())) ==> started == Some(uuid) && existing == None
    {
      var running := FindRunning();
      if syncInProgress || running.Some? {
        return None, running;
      }
      jobs := jobs + [Job(uuid, Running)];
      tasks := tasks[uuid := Waiting];
      return Some(uuid), None;
    }

    /** The start of `sync_cache` in the task of a job: false when the call is skipped. */
    method EnterSync(ghost id: string) returns (entered: bool)
      requires id in tasks && tasks[id] == Waiting
      modifies this
      ensures View() == Step(old(View()), Enter(id))
      ensures entered == !old(syncInProgress)
    {
      if syncInProgress {
        tasks := tasks[id := Skipped];
        return false;
      }
      syncInProgress := true;
      syncCount := syncCount + 1;
      tasks := tasks[id := Syncing];
      return true;
    }

    /** The `finally` of `sync_cache`. */
    method LeaveSync(ghost id: string, ghost failed: bool)
      requires id in tasks && tasks[id] == Syncing
      modifies this
      ensures View() == Step(old(View()), Leave(id, failed))
    {
      syncInProgress := false;
      tasks := tasks[id := Returned(failed)];
    }

    /** The report of a job that is back from `sync_cache`. */
    method FinishJob(id: string, status: Status)
      requires CanFinish(View(), id) && status == Outcome(tasks[id])
      modifies this
      ensures View() == Step(old(View()), Finish(id))
    {
      SetJob(id, status);
      tasks := tasks - {id};
    }

    method SetJob(id: string, status: Status)
      modifies this`jobs
      ensures jobs == Prune(SetStatus(old(jobs), id, status))
    {
      jobs := Assign(jobs, id, status);
      var done := FinishedOf(jobs);
      if |done| > KEPT {
        jobs := PopEach(jobs, done[..|done| - KEPT]);
      }
    }

    method GetJob(id: string) returns (job: Option<Job>)
      ensures job == Lookup(jobs, id)
    {
      var i := 0;
      while i < |jobs|
        invariant 0 <= i <= |jobs| && Lookup(jobs[i..], id) == Lookup(jobs, id)
      {
        if jobs[i].id == id {
          return Some(jobs[i]);
        }
        i := i + 1;
      }
      return None;
    }
  }

  lemma {:induction false} SetStatusAt(jobs: seq<Job>, id: string, status: Status, i: nat)
    requires i <= |jobs| && (forall k | 0 <= k < i :: jobs[k].id != id) && (i < |jobs| ==> jobs[i].id == id)
    ensures SetStatus(jobs, id, status) == if i < |jobs| then jobs[i := Job(id, status)] else jobs + [Job(id, status)]
  {
    if i > 0 {
      SetStatusAt(jobs[1..], id, status, i - 1);
    }
  }

  /** Creates the job or sets its status in place. */
  method Assign(jobs: seq<Job>, id: string, status: Status) returns (r: seq<Job>)
    ensures r == SetStatus(jobs, id, status)
  {
    var i := 0;
    while i < |jobs| && jobs[i].id != id
      invariant 0 <= i <= |jobs| && forall k | 0 <= k < i :: jobs[k].id != id
    {
      i := i + 1;
    }
    SetStatusAt(jobs, id, status, i);
    r := if i < |jobs| then jobs[i := Job(id, status)] else jobs + [Job(id, status)];
  }

  method FinishedOf(jobs: seq<Job>) returns (done: seq<Job>)
    ensures done == Finished(jobs)
  {
    done := [];
    var i := 0;
    while i < |jobs|
      invariant 0 <= i <= |jobs| && done == Finished(jobs[..i])
    {
      FinishedOfTwo(jobs[..i], [jobs[i]]);
      assert jobs[..i + 1] == jobs[..i] + [jobs[i]];
      if jobs[i].status != Running {
        done := done + [jobs[i]];
      }
      i := i + 1;
    }
    assert jobs[..i] == jobs;
  }

  method PopEach(jobs: seq<Job>, gone: seq<Job>) returns (r: seq<Job>)
    ensures r == PopAll(jobs, gone)
  {
    r := jobs;
    var i := 0;
    while i < |gone|
      invariant 0 <= i <= |gone| && PopAll(r, gone[i..]) == PopAll(jobs, gone)
    {
      r := Popped(r, gone[i].id);
      i := i + 1;
    }
  }
}
