/** What each step of the service does to its records, tables and files, and that work goes on where it can. */
module ScheduleEffects {
  import opened Wrappers
  import opened Schedule

  // ----- What stays

  predicate SameTasks(s: State, t: State) {
    t.tasks == s.tasks && t.taskProcesses == s.taskProcesses && t.tasksFile == s.tasksFile
  }

  predicate SameJobs(s: State, t: State) {
    t.jobs == s.jobs && t.processes == s.processes && t.jobsFile == s.jobsFile
  }

  /** Only record i of the jobs differs, and the file holds the jobs. */
  predicate OnlyJob(s: State, t: State, i: nat) {
    && SameTasks(s, t) && t.jobsFile == t.jobs && |t.jobs| == |s.jobs|
    && forall k :: 0 <= k < |s.jobs| && k != i ==> t.jobs[k] == s.jobs[k]
  }

  predicate OnlyTask(s: State, t: State, i: nat) {
    && SameJobs(s, t) && t.tasksFile == t.tasks && |t.tasks| == |s.tasks|
    && forall k :: 0 <= k < |s.tasks| && k != i ==> t.tasks[k] == s.tasks[k]
  }

  predicate JobIs(s: State, i: nat, id: Id) {
    i < |s.jobs| && s.jobs[i].id == id
  }

  predicate TaskIs(s: State, i: nat, id: Id) {
    i < |s.tasks| && s.tasks[i].id == id
  }

  lemma JobFound(s: State, i: nat, id: Id)
    requires Consistent(s) && JobIs(s, i, id)
    ensures FindJob(s.jobs, id) == Some(i)
  {
  }

  lemma TaskFound(s: State, i: nat, id: Id)
    requires Consistent(s) && TaskIs(s, i, id)
    ensures FindTask(s.tasks, id) == Some(i)
  {
  }

  // ----- Handlers

  /** A new job waits for approval, behind all others. */
  lemma CreateMeaning(s: State, id: Id, now: Time)
    ensures var t := CreateJob(s, id, now);
            && SameTasks(s, t) && t.jobsFile == t.jobs && t.processes == s.processes
            && |t.jobs| == |s.jobs| + 1 && t.jobs[..|s.jobs|] == s.jobs
            && var job := t.jobs[|s.jobs|];
               job.id == id && job.createdAt == now && job.status.Pending? && !job.approved && job.exitCode.None? && job.error.None?
  {
  }

  /** Exactly a pending job that is not approved yet can be approved; nothing else about it changes. */
  lemma ApproveMeaning(s: State, id: Id, i: nat)
    requires Consistent(s) && JobIs(s, i, id)
    ensures ApproveJob(s, id).Ok? <==> s.jobs[i].status.Pending? && !s.jobs[i].approved
    ensures ApproveJob(s, id).Ok? ==>
              var t := ApproveJob(s, id).value;
              && OnlyJob(s, t, i) && t.processes == s.processes
              && t.jobs[i].approved && t.jobs[i].(approved := false) == s.jobs[i]
    ensures ApproveJob(s, id) == Err(WrongStatus) <==> !s.jobs[i].status.Pending?
  {
    JobFound(s, i, id);
    hide Consistent, FindJob;
  }

  /** Exactly a running or pending job can be cancelled; it leaves the table. */
  lemma CancelMeaning(s: State, id: Id, i: nat)
    requires Consistent(s) && JobIs(s, i, id)
    ensures CancelJob(s, id).Ok? <==> s.jobs[i].status.Running? || s.jobs[i].status.Pending?
    ensures CancelJob(s, id).Ok? ==>
              var t := CancelJob(s, id).value;
              && OnlyJob(s, t, i) && t.processes == s.processes - {id}
              && t.jobs[i].status.Cancelled? && t.jobs[i].(status := s.jobs[i].status) == s.jobs[i]
    ensures CancelJob(s, id).Err? ==> CancelJob(s, id).error == WrongStatus
  {
    JobFound(s, i, id);
    hide Consistent, FindJob;
  }

  /** Exactly a running task can be cancelled; it ends as failed. */
  lemma CancelTaskMeaning(s: State, id: Id, i: nat)
    requires Consistent(s) && TaskIs(s, i, id)
    ensures CancelTask(s, id).Ok? <==> s.tasks[i].status.Running?
    ensures CancelTask(s, id).Ok? ==>
              var t := CancelTask(s, id).value;
              && OnlyTask(s, t, i) && t.taskProcesses == s.taskProcesses - {id}
              && t.tasks[i].status.Failed? && t.tasks[i].error == Some(CancelledByUser)
              && t.tasks[i].(status := s.tasks[i].status, error := s.tasks[i].error) == s.tasks[i]
    ensures CancelTask(s, id).Err? ==> CancelTask(s, id).error == WrongStatus
  {
    TaskFound(s, i, id);
    hide Consistent, FindTask;
  }

  /** Without a record of the name each of them answers so. */
  lemma UnknownNames(s: State, id: Id)
    ensures (forall i :: !JobIs(s, i, id)) ==> ApproveJob(s, id) == Err(NotFound) && CancelJob(s, id) == Err(NotFound)
    ensures (forall i :: !TaskIs(s, i, id)) ==> CancelTask(s, id) == Err(NotFound)
  {
    assert FindJob(s.jobs, id).Some? ==> JobIs(s, FindJob(s.jobs, id).value, id);
    assert FindTask(s.tasks, id).Some? ==> TaskIs(s, FindTask(s.tasks, id).value, id);
  }

  // ----- Starting

  /** Position i holds the approved pending job that was created first, the earlier record among equals. */
  predicate IsNext(s: State, i: nat) {
    && i < |s.jobs| && s.jobs[i].status.Pending? && s.jobs[i].approved
    && forall k :: 0 <= k < |s.jobs| && s.jobs[k].status.Pending? && s.jobs[k].approved ==>
         s.jobs[i].createdAt < s.jobs[k].createdAt || (s.jobs[i].createdAt == s.jobs[k].createdAt && i <= k)
  }

  lemma NextIsOldest(s: State, i: nat)
    requires IsNext(s, i)
    ensures Oldest(s.jobs) == Some(i)
  {
    assert Waiting(s.jobs[i]);
    var k := Oldest(s.jobs).value;
    assert Before(s.jobs, k, i);
  }

  /** With nothing running the next job runs and is tabled, or has failed for the reason given. */
  lemma StartNextMeaning(s: State, launch: JobLaunch, i: nat)
    requires IsNext(s, i)
    ensures TrainingRunning(s.jobs) ==> TryStartNextPending(s, launch) == s
    ensures !TrainingRunning(s.jobs) ==>
              var t := TryStartNextPending(s, launch);
              && OnlyJob(s, t, i)
              && match launch
                 case Started =>
                   t.processes == s.processes + {s.jobs[i].id} && t.jobs[i].status.Running? && t.jobs[i].(status := s.jobs[i].status) == s.jobs[i]
                 case Refused(e) =>
                   && t.processes == s.processes && t.jobs[i].status.Failed? && t.jobs[i].error == Some(e)
                   && t.jobs[i].(status := s.jobs[i].status, error := s.jobs[i].error) == s.jobs[i]
  {
    NextIsOldest(s, i);
    hide Oldest, TrainingRunning;
  }

  lemma NothingToStart(s: State, launch: JobLaunch)
    requires forall i :: !IsNext(s, i)
    ensures TryStartNextPending(s, launch) == s
  {
    if Oldest(s.jobs).Some? {
      var i := Oldest(s.jobs).value;
      forall k | 0 <= k < |s.jobs| && s.jobs[k].status.Pending? && s.jobs[k].approved
        ensures s.jobs[i].createdAt < s.jobs[k].createdAt || (s.jobs[i].createdAt == s.jobs[k].createdAt && i <= k)
      {
        assert Waiting(s.jobs[k]) && Before(s.jobs, i, k);
      }
      assert IsNext(s, i);
    }
  }

  /** The first approval with nothing running and a process that starts sets training going. */
  lemma ApprovedRuns(s: State, id: Id, i: nat, w: World)
    requires Consistent(s) && JobIs(s, i, id) && s.jobs[i].status.Pending? && !s.jobs[i].approved
    requires forall x :: w.jobLaunch(x) == Started
    ensures ApproveJob(s, id).Ok? && TrainingRunning(StartNextIn(ApproveJob(s, id).value, w).jobs)
  {
    ApproveMeaning(s, id, i);
    hide Consistent, ApproveJob, Oldest;
    var t := ApproveJob(s, id).value;
    assert Waiting(t.jobs[i]);
    StartNextWorks(t);
    WaitsOrRuns(t, i);
  }

  lemma WaitsOrRuns(t: State, i: nat)
    requires i < |t.jobs| && Waiting(t.jobs[i]) && !Idle(TryStartNextPending(t, Started))
    ensures Oldest(t.jobs).Some? && TrainingRunning(TryStartNextPending(t, Started).jobs)
  {
    if !TrainingRunning(t.jobs) {
      var u := TryStartNextPending(t, Started);
      assert u.jobs[Oldest(t.jobs).value].status.Running?;
    }
  }

  predicate IsFirstQueued(s: State, i: nat) {
    i < |s.tasks| && s.tasks[i].status.Queued? && forall k :: 0 <= k < i ==> !s.tasks[k].status.Queued?
  }

  predicate HasCommand(task: Task) {
    task.command.Some? && task.command.value != []
  }

  /** The first queued task runs and is tabled, or has failed for want of a command or of a process. */
  lemma StartQueuedMeaning(s: State, starts: bool, i: nat)
    requires IsFirstQueued(s, i)
    ensures TrainingRunning(s.jobs) || GpuTaskRunning(s.tasks) ==> TryStartQueuedTasks(s, starts) == s
    ensures !TrainingRunning(s.jobs) && !GpuTaskRunning(s.tasks) ==>
              var t := TryStartQueuedTasks(s, starts);
              && OnlyTask(s, t, i)
              && if HasCommand(s.tasks[i]) && starts then
                   t.taskProcesses == s.taskProcesses + {s.tasks[i].id} && t.tasks[i].status.Running? && t.tasks[i].(status := s.tasks[i].status) == s.tasks[i]
                 else
                   && t.taskProcesses == s.taskProcesses && t.tasks[i].status.Failed?
                   && t.tasks[i].error == Some(if HasCommand(s.tasks[i]) then TaskError.NotStarted else NoCommand)
                   && t.tasks[i].(status := s.tasks[i].status, error := s.tasks[i].error) == s.tasks[i]
  {
    assert FirstQueued(s.tasks) == Some(i);
    hide FirstQueued, TrainingRunning, GpuTaskRunning;
  }

  /** A new task is one more record: queued while a job runs if it uses the GPU, otherwise running or failed. */
  lemma StartTaskMeaning(s: State, r: Request, starts: bool)
    ensures var t := StartPipelineTask(s, r, starts);
            && SameJobs(s, t) && t.tasksFile == t.tasks && |t.tasks| == |s.tasks| + 1 && t.tasks[..|s.tasks|] == s.tasks
            && var task := t.tasks[|s.tasks|];
               && task.id == r.id && task.kind == r.kind && task.command == Some(r.command) && task.exitCode.None?
               && (task.status.Queued? <==> TrainingRunning(s.jobs) && r.kind in {MergeLora, ConvertToGguf, ConvertLoraToGguf, Quantize, Bake})
               && (task.status.Running? <==> !task.status.Queued? && r.command != [] && starts)
               && (task.status.Failed? <==> !task.status.Queued? && !task.status.Running?)
               && t.taskProcesses == (if task.status.Running? then s.taskProcesses + {r.id} else s.taskProcesses)
  {
    StartTaskAdds(s, r, starts);
    hide StartPipelineTask, TrainingRunning;
  }

  // ----- Polling

  /** A job whose process has exited is settled and leaves the table; only a success may start a conversion. */
  lemma CheckJobMeaning(s: State, i: nat, exit: Option<int>, conversion: Option<Conversion>)
    requires i < |s.jobs|
    ensures !(s.jobs[i].status.Running? && s.jobs[i].id in s.processes) ==> PollJob(s, i, exit, conversion) == s
    ensures s.jobs[i].status.Running? && s.jobs[i].id in s.processes ==>
              var t := PollJob(s, i, exit, None);
              && OnlyJob(s, t, i)
              && PollJob(s, i, exit, conversion) == (
                   if exit == Some(0) && conversion.Some? then StartPipelineTask(t, conversion.value.request, conversion.value.starts) else t)
              && (exit.None? ==> t.processes == s.processes && t.jobs[i] == s.jobs[i])
              && (exit.Some? ==>
                   && t.processes == s.processes - {s.jobs[i].id} && t.jobs[i].exitCode == exit
                   && (if exit.value == 0 then t.jobs[i].status.Completed? && t.jobs[i].error == s.jobs[i].error
                       else t.jobs[i].status.Failed? && t.jobs[i].error == Some(JobError.Exited(exit.value)))
                   && t.jobs[i].(status := s.jobs[i].status, exitCode := s.jobs[i].exitCode, error := s.jobs[i].error) == s.jobs[i])
  {
    PollJobSplits(s, i, exit, conversion);
    hide StartPipelineTask;
  }

  lemma CheckTaskMeaning(s: State, i: nat, exit: Option<int>)
    requires i < |s.tasks|
    ensures !(s.tasks[i].status.Running? && s.tasks[i].id in s.taskProcesses) || exit.None? ==> PollTask(s, i, exit) == s
    ensures s.tasks[i].status.Running? && s.tasks[i].id in s.taskProcesses && exit.Some? ==>
              var t := PollTask(s, i, exit);
              && OnlyTask(s, t, i) && t.taskProcesses == s.taskProcesses - {s.tasks[i].id} && t.tasks[i].exitCode == exit
              && (if exit.value == 0 then t.tasks[i].status.Completed? && t.tasks[i].error == s.tasks[i].error
                  else t.tasks[i].status.Failed? && t.tasks[i].error == Some(TaskError.Exited(exit.value)))
              && t.tasks[i].(status := s.tasks[i].status, exitCode := s.tasks[i].exitCode, error := s.tasks[i].error) == s.tasks[i]
  {
  }

  // ----- Restarting

  /** Every record survives as it was, but what ran has failed, lost on restart; nothing runs. */
  lemma RestartMeaning(s: State)
    requires Consistent(s)
    ensures var t := Restart(s);
            && t.processes == {} && t.taskProcesses == {} && t.jobsFile == s.jobsFile && t.tasksFile == s.tasksFile
            && |t.jobs| == |s.jobs| && |t.tasks| == |s.tasks|
            && (forall i :: 0 <= i < |s.jobs| ==>
                 t.jobs[i] == if s.jobs[i].status.Running? then s.jobs[i].(status := JobStatus.Failed, error := Some(JobError.LostOnRestart)) else s.jobs[i])
            && (forall i :: 0 <= i < |s.tasks| ==>
                 t.tasks[i] == if s.tasks[i].status.Running? then s.tasks[i].(status := TaskStatus.Failed, error := Some(TaskError.LostOnRestart)) else s.tasks[i])
  {
    hide Safe, Consistent;
    RestartRecovers(s);
  }

  // ----- Work goes on

  /** Nothing waits for the GPU while it is free. */
  predicate QueueServed(s: State) {
    TrainingRunning(s.jobs) || GpuTaskRunning(s.tasks) || forall i :: 0 <= i < |s.tasks| ==> !s.tasks[i].status.Queued?
  }

  predicate QueuedHaveCommands(s: State) {
    forall i :: 0 <= i < |s.tasks| && s.tasks[i].status.Queued? ==> HasCommand(s.tasks[i])
  }

  lemma StartQueuedWorks(s: State)
    requires Consistent(s) && QueuedHaveCommands(s)
    ensures QueueServed(TryStartQueuedTasks(s, true)) && QueuedHaveCommands(TryStartQueuedTasks(s, true))
  {
    hide JobsConsistent, JobsOnDisk, TasksOnDisk;
    var t := TryStartQueuedTasks(s, true);
    if !TrainingRunning(s.jobs) && !GpuTaskRunning(s.tasks) && FirstQueued(s.tasks).Some? {
      var i := FirstQueued(s.tasks).value;
      assert HasCommand(s.tasks[i]);
      assert GpuTask(t.tasks[i]);
    }
  }

  lemma StartQueuedInWorks(s: State, w: World)
    requires Consistent(s) && QueuedHaveCommands(s) && forall x :: w.taskStarts(x)
    ensures QueueServed(StartQueuedIn(s, w)) && QueuedHaveCommands(StartQueuedIn(s, w))
  {
    hide Consistent, TryStartQueuedTasks;
    if FirstQueued(s.tasks).Some? {
      StartQueuedWorks(s);
    }
  }

  lemma CheckTaskServes(s: State, i: nat, w: World)
    requires Consistent(s) && QueuedHaveCommands(s) && i < |s.tasks| && forall x :: w.taskStarts(x)
    ensures QueuedHaveCommands(CheckTaskIn(s, i, w))
    ensures TaskExits(s, i, w) || QueueServed(s) ==> QueueServed(CheckTaskIn(s, i, w))
  {
    hide Consistent, QueueServed;
    var t := PollTask(s, i, w.taskExit(s.tasks[i].id));
    PollTaskSafe(s, i, w.taskExit(s.tasks[i].id));
    if TaskExits(s, i, w) {
      StartQueuedInWorks(t, w);
    } else {
      assert t == s;
    }
  }

  lemma {:induction false} PollTasksServe(s: State, i: nat, w: World)
    requires Consistent(s) && QueuedHaveCommands(s) && i <= |s.tasks| && forall x :: w.taskStarts(x)
    ensures QueueServed(s) || (exists k :: i <= k < |s.tasks| && TaskExits(s, k, w)) ==> QueueServed(PollTasks(s, i, w))
    decreases |s.tasks| - i
  {
    hide Consistent, QueueServed, CheckTaskIn, TaskExits, QueuedHaveCommands;
    if i < |s.tasks| {
      CheckTaskServes(s, i, w);
      CheckTaskSafe(s, i, w);
      var t := CheckTaskIn(s, i, w);
      PollTasksServe(t, i + 1, w);
      if !TaskExits(s, i, w) {
        NoExitNoChange(s, i, w);
      }
    }
  }

  lemma NoExitNoChange(s: State, i: nat, w: World)
    requires i < |s.tasks| && !TaskExits(s, i, w)
    ensures CheckTaskIn(s, i, w) == s
  {
  }

  lemma {:induction false} PollJobsFinish(s: State, i: nat, w: World)
    requires Consistent(s) && FreshConversions(s, i, w) && i <= |s.jobs|
    ensures PollJobs(s, i, w).1 <==> exists k :: i <= k < |s.jobs| && JobExits(s, k, w)
    decreases |s.jobs| - i
  {
    hide Consistent, FreshConversions, CheckJobIn, JobExits, InTurn, Evolves;
    if i < |s.jobs| {
      var t := CheckJobIn(s, i, w);
      CheckIsSafe(s, i, w);
      CheckKeepsFresh(s, i, w);
      PollJobsFinish(t, i + 1, w);
      forall k | i < k < |s.jobs|
        ensures JobExits(t, k, w) <==> JobExits(s, k, w)
      {
        LaterJobsAsBefore(s, i, w, k);
      }
    }
  }

  lemma LaterJobsAsBefore(s: State, i: nat, w: World, k: nat)
    requires Consistent(s) && i < k < |s.jobs|
    ensures JobExits(CheckJobIn(s, i, w), k, w) <==> JobExits(s, k, w)
  {
    hide Consistent, CheckJobIn;
    CheckJobRecords(s, i, w, k);
  }

  /** A pass that finds a job finished leaves no approved job waiting with nothing running, if the processes start. */
  lemma PollGoesOn(s: State, w: World, k: nat)
    requires Consistent(s) && FreshConversions(s, 0, w) && k < |s.jobs| && JobExits(s, k, w)
    requires forall x :: w.jobLaunch(x) == Started
    ensures !Idle(Poll(s, w))
  {
    hide Consistent, FreshConversions, JobExits, PollJobs, PollTasks, StartQueuedIn, StartNextIn, Idle;
    PollJobsFinish(s, 0, w);
    var t := PollJobs(s, 0, w).0;
    var u := StartNextIn(t, w);
    StartNextInWorks(t, w);
    IdleByJobs(u, StartQueuedIn(u, w));
    StartQueuedKeepsJobs(u, w);
    PollTasksKeepJobs(StartQueuedIn(u, w), 0, w);
    IdleByJobs(StartQueuedIn(u, w), PollTasks(StartQueuedIn(u, w), 0, w));
  }

  lemma StartNextInWorks(s: State, w: World)
    requires forall x :: w.jobLaunch(x) == Started
    ensures !Idle(StartNextIn(s, w))
  {
    if Oldest(s.jobs).Some? {
      hide Idle, TryStartNextPending;
      StartNextWorks(s);
    }
  }

  lemma StartQueuedKeepsJobs(s: State, w: World)
    ensures StartQueuedIn(s, w).jobs == s.jobs
  {
  }

  lemma IdleByJobs(s: State, t: State)
    ensures s.jobs == t.jobs ==> (Idle(s) <==> Idle(t))
  {
  }

  ghost predicate ConversionsHaveCommands(w: World) {
    forall x :: w.conversion(x).Some? ==> w.conversion(x).value.request.command != []
  }

  lemma CheckJobCommands(s: State, i: nat, w: World)
    requires i < |s.jobs| && QueuedHaveCommands(s) && ConversionsHaveCommands(w)
    ensures QueuedHaveCommands(CheckJobIn(s, i, w))
  {
    hide StartPipelineTask;
    var exit, conversion := w.jobExit(s.jobs[i].id), w.conversion(s.jobs[i].id);
    PollJobSplits(s, i, exit, conversion);
    if conversion.Some? {
      StartTaskAdds(PollJob(s, i, exit, None), conversion.value.request, conversion.value.starts);
    }
  }

  lemma {:induction false} PollJobsCommands(s: State, i: nat, w: World)
    requires i <= |s.jobs| && QueuedHaveCommands(s) && ConversionsHaveCommands(w)
    ensures QueuedHaveCommands(PollJobs(s, i, w).0)
    decreases |s.jobs| - i
  {
    hide QueuedHaveCommands, ConversionsHaveCommands, CheckJobIn;
    if i < |s.jobs| {
      CheckJobCommands(s, i, w);
      PollJobsCommands(CheckJobIn(s, i, w), i + 1, w);
    }
  }

  /** A pass that finds a job or a task finished leaves no task queued for a free GPU, if there are commands and they start. */
  lemma PollServesQueue(s: State, w: World)
    requires Consistent(s) && FreshConversions(s, 0, w) && forall x :: w.taskStarts(x)
    requires QueuedHaveCommands(s) && ConversionsHaveCommands(w)
    requires (exists k :: 0 <= k < |s.jobs| && JobExits(s, k, w)) || (exists k :: 0 <= k < |s.tasks| && TaskExits(s, k, w))
    ensures QueueServed(Poll(s, w))
  {
    hide Consistent, FreshConversions, PollJobs, PollTasks, StartQueuedIn, StartNextIn, QueueServed, JobExits, QueuedHaveCommands, ConversionsHaveCommands;
    PollJobsFinish(s, 0, w);
    PollJobsCommands(s, 0, w);
    PollTasksStartConsistent(s, w);
    var t, finished := PollJobs(s, 0, w).0, PollJobs(s, 0, w).1;
    if finished {
      var u := StartNextIn(t, w);
      StartNextInConsistent(t, w);
      StartNextInCommands(t, w);
      StartQueuedInWorks(u, w);
      PollTasksServe(StartQueuedIn(u, w), 0, w);
    } else {
      var k :| 0 <= k < |s.tasks| && TaskExits(s, k, w);
      PollJobsKeepTasks(s, 0, w, k);
      assert TaskExits(t, k, w);
      PollTasksServe(t, 0, w);
    }
  }

  lemma StartNextInConsistent(s: State, w: World)
    requires Consistent(s)
    ensures Consistent(StartNextIn(s, w))
  {
    hide Consistent, Evolves, InTurn, TryStartNextPending;
    if Oldest(s.jobs).Some? {
      StartNextSafe(s, w.jobLaunch(s.jobs[Oldest(s.jobs).value].id));
    }
  }

  lemma StartNextInCommands(s: State, w: World)
    requires QueuedHaveCommands(s)
    ensures QueuedHaveCommands(StartNextIn(s, w))
  {
  }
}
