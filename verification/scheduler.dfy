/**
 The service's job and task tables, updated in place (api/state.py, api/routers/jobs.py, api/routers/pipeline.py).
 Every method does to the tables what its function in module Schedule says.
 */
module Scheduler {
  import opened Wrappers
  import opened Schedule

  class Service {
    var jobs: seq<Job>
    var processes: set<Id>
    var tasks: seq<Task>
    var taskProcesses: set<Id>
    var jobsFile: seq<Job>
    var tasksFile: seq<Task>

    function State(): State
      reads this
    {
      Schedule.State(jobs, processes, tasks, taskProcesses, jobsFile, tasksFile)
    }

    /** Starting up from the files: what ran is lost, then the next pending job is tried. */
    constructor (jobsFile: seq<Job>, tasksFile: seq<Task>, w: World)
      ensures State() == StartNextIn(Restart(Schedule.State([], {}, [], {}, jobsFile, tasksFile)), w)
    {
      this.jobsFile, this.tasksFile := jobsFile, tasksFile;
      jobs, processes, tasks, taskProcesses := [], {}, [], {};
      new;
      LoadJobs();
      LoadTasks();
      assert State() == Restart(Schedule.State([], {}, [], {}, jobsFile, tasksFile));
      TryStartNextPending(w);
    }

    method LoadJobs()
      requires jobs == []
      modifies this`jobs
      ensures jobs == LoadedJobs(jobsFile)
    {
      for i := 0 to |jobsFile|
        invariant jobs == LoadedJobs(jobsFile[..i])
      {
        var job := jobsFile[i];
        if job.status.Running? {
          job := job.(status := JobStatus.Failed, error := Some(JobError.LostOnRestart));
        }
        jobs := jobs + [job];
        assert jobsFile[..i + 1][..i] == jobsFile[..i];
      }
      assert jobsFile[..|jobsFile|] == jobsFile;
    }

    method LoadTasks()
      requires tasks == []
      modifies this`tasks
      ensures tasks == LoadedTasks(tasksFile)
    {
      for i := 0 to |tasksFile|
        invariant tasks == LoadedTasks(tasksFile[..i])
      {
        var task := tasksFile[i];
        if task.status.Running? {
          task := task.(status := TaskStatus.Failed, error := Some(TaskError.LostOnRestart));
        }
        tasks := tasks + [task];
        assert tasksFile[..i + 1][..i] == tasksFile[..i];
      }
      assert tasksFile[..|tasksFile|] == tasksFile;
    }

    method SaveJobs()
      modifies this`jobsFile
      ensures jobsFile == jobs
    {
      jobsFile := jobs;
    }

    method SaveTasks()
      modifies this`tasksFile
      ensures tasksFile == tasks
    {
      tasksFile := tasks;
    }

    method IsTrainingRunning() returns (r: bool)
      ensures r == TrainingRunning(jobs)
    {
      for i := 0 to |jobs|
        invariant forall k :: 0 <= k < i ==> !jobs[k].status.Running?
      {
        if jobs[i].status.Running? {
          return true;
        }
      }
      return false;
    }

    method IsGpuTaskRunning() returns (r: bool)
      ensures r == GpuTaskRunning(tasks)
    {
      for i := 0 to |tasks|
        invariant forall k :: 0 <= k < i ==> !GpuTask(tasks[k])
      {
        if GpuTask(tasks[i]) {
          return true;
        }
      }
      return false;
    }

    /** The first of the approved pending jobs in a stable sort by creation time. */
    method OldestWaiting() returns (r: Option<nat>)
      ensures r == Oldest(jobs)
    {
      r := None;
      for i := 0 to |jobs|
        invariant r == Oldest(jobs[..i])
      {
        if Waiting(jobs[i]) && (r.None? || jobs[i].createdAt < jobs[r.value].createdAt) {
          r := Some(i);
        }
        assert jobs[..i + 1][..i] == jobs[..i];
      }
      assert jobs[..|jobs|] == jobs;
    }

    method StartJob(i: nat, launch: JobLaunch)
      requires i < |jobs|
      modifies this
      ensures State() == Schedule.StartJob(old(State()), i, launch)
    {
      if launch.Refused? {
        jobs := jobs[i := jobs[i].(status := JobStatus.Failed, error := Some(launch.error))];
        SaveJobs();
        return;
      }
      jobs := jobs[i := jobs[i].(status := JobStatus.Running)];
      processes := processes + {jobs[i].id};
      SaveJobs();
    }

    method TryStartNextPending(w: World)
      modifies this
      ensures State() == StartNextIn(old(State()), w)
    {
      var running := IsTrainingRunning();
      if running {
        return;
      }
      var pending := OldestWaiting();
      if pending.None? {
        return;
      }
      StartJob(pending.value, w.jobLaunch(jobs[pending.value].id));
    }

    method LaunchTask(i: nat, starts: bool)
      requires i < |tasks|
      modifies this
      ensures State() == Schedule.LaunchTask(old(State()), i, starts)
    {
      var command := tasks[i].command;
      if command.None? || command.value == [] {
        tasks := tasks[i := tasks[i].(status := TaskStatus.Failed, error := Some(NoCommand))];
        SaveTasks();
        return;
      }
      if !starts {
        tasks := tasks[i := tasks[i].(status := TaskStatus.Failed, error := Some(TaskError.NotStarted))];
        SaveTasks();
        return;
      }
      tasks := tasks[i := tasks[i].(status := TaskStatus.Running)];
      taskProcesses := taskProcesses + {tasks[i].id};
      SaveTasks();
    }

    method TryStartQueuedTasks(w: World)
      modifies this
      ensures State() == StartQueuedIn(old(State()), w)
    {
      hide TrainingRunning, GpuTaskRunning, Schedule.LaunchTask;
      var busy := IsTrainingRunning();
      if busy {
        return;
      }
      busy := IsGpuTaskRunning();
      if busy {
        return;
      }
      for i := 0 to |tasks|
        invariant State() == old(State())
        invariant forall k :: 0 <= k < i ==> !tasks[k].status.Queued?
      {
        if tasks[i].status.Queued? {
          assert FirstQueued(tasks) == Some(i);
          LaunchTask(i, w.taskStarts(tasks[i].id));
          return;
        }
      }
      assert FirstQueued(tasks) == None;
    }

    method StartPipelineTask(r: Request, starts: bool)
      modifies this
      ensures State() == Schedule.StartPipelineTask(old(State()), r, starts)
    {
      var training := IsTrainingRunning();
      if UsesGpu(r.kind) && training {
        tasks := tasks + [Task(r.id, r.kind, Some(r.command), TaskStatus.Queued, None, None)];
        SaveTasks();
        return;
      }
      tasks := tasks + [Task(r.id, r.kind, Some(r.command), TaskStatus.Running, None, None)];
      LaunchTask(|tasks| - 1, starts);
    }

    method CreateJob(id: Id, now: Time)
      modifies this
      ensures State() == Schedule.CreateJob(old(State()), id, now)
    {
      jobs := jobs + [Job(id, now, JobStatus.Pending, false, None, None)];
      SaveJobs();
    }

    method ApproveJob(id: Id, w: World) returns (r: Result<(), Refusal>)
      modifies this
      ensures match Schedule.ApproveJob(old(State()), id)
              case Err(e) => r == Err(e) && State() == old(State())
              case Ok(t) => r == Ok(()) && State() == StartNextIn(t, w)
    {
      var i := FindJob(jobs, id);
      if i.None? {
        return Err(NotFound);
      }
      if !jobs[i.value].status.Pending? {
        return Err(WrongStatus);
      }
      if jobs[i.value].approved {
        return Err(AlreadyApproved);
      }
      jobs := jobs[i.value := jobs[i.value].(approved := true)];
      SaveJobs();
      assert State() == Schedule.ApproveJob(old(State()), id).value;
      TryStartNextPending(w);
      return Ok(());
    }

    method CancelJob(id: Id) returns (r: Result<(), Refusal>)
      modifies this
      ensures match Schedule.CancelJob(old(State()), id)
              case Err(e) => r == Err(e) && State() == old(State())
              case Ok(t) => r == Ok(()) && State() == t
    {
      var i := FindJob(jobs, id);
      if i.None? {
        return Err(NotFound);
      }
      if !jobs[i.value].status.Running? && !jobs[i.value].status.Pending? {
        return Err(WrongStatus);
      }
      if id in processes {
        processes := processes - {id};
      }
      jobs := jobs[i.value := jobs[i.value].(status := JobStatus.Cancelled)];
      SaveJobs();
      return Ok(());
    }

    method CancelTask(id: Id) returns (r: Result<(), Refusal>)
      modifies this
      ensures match Schedule.CancelTask(old(State()), id)
              case Err(e) => r == Err(e) && State() == old(State())
              case Ok(t) => r == Ok(()) && State() == t
    {
      var i := FindTask(tasks, id);
      if i.None? {
        return Err(NotFound);
      }
      if !tasks[i.value].status.Running? {
        return Err(WrongStatus);
      }
      if id in taskProcesses {
        taskProcesses := taskProcesses - {id};
      }
      tasks := tasks[i.value := tasks[i.value].(status := TaskStatus.Failed, error := Some(CancelledByUser))];
      SaveTasks();
      return Ok(());
    }

    /** One job of the poll loop. */
    method CheckJob(i: nat, w: World) returns (finished: bool)
      requires i < |jobs|
      modifies this
      ensures State() == CheckJobIn(old(State()), i, w)
      ensures finished == JobExits(old(State()), i, w)
    {
      hide Schedule.StartPipelineTask;
      var job := jobs[i];
      if !job.status.Running? || job.id !in processes {
        return false;
      }
      var exit := w.jobExit(job.id);
      finished := exit.Some?;
      if exit.Some? {
        if exit.value == 0 {
          jobs := jobs[i := job.(status := JobStatus.Completed, exitCode := exit)];
          var conversion := w.conversion(job.id);
          if conversion.Some? {
            StartPipelineTask(conversion.value.request, conversion.value.starts);
          }
        } else {
          jobs := jobs[i := job.(status := JobStatus.Failed, exitCode := exit, error := Some(JobError.Exited(exit.value)))];
        }
        processes := processes - {job.id};
      }
      SaveJobs();
    }

    /** One task of the poll loop. */
    method CheckTask(i: nat, w: World)
      requires i < |tasks|
      modifies this
      ensures State() == CheckTaskIn(old(State()), i, w)
    {
      var task := tasks[i];
      if !task.status.Running? || task.id !in taskProcesses {
        return;
      }
      var exit := w.taskExit(task.id);
      if exit.None? {
        return;
      }
      if exit.value == 0 {
        tasks := tasks[i := task.(status := TaskStatus.Completed, exitCode := exit)];
      } else {
        tasks := tasks[i := task.(status := TaskStatus.Failed, exitCode := exit, error := Some(TaskError.Exited(exit.value)))];
      }
      taskProcesses := taskProcesses - {task.id};
      SaveTasks();
      assert State() == PollTask(old(State()), i, exit);
      TryStartQueuedTasks(w);
    }

    /** One pass of the poll loop over the jobs and tasks there are. */
    method PollAll(w: World)
      modifies this
      ensures State() == Poll(old(State()), w)
    {
      hide StartNextIn, StartQueuedIn, CheckJobIn, CheckTaskIn;
      var anyFinished := false;
      var i := 0;
      while i < |jobs|
        invariant i <= |jobs|
        invariant PollJobs(old(State()), 0, w)
               == (PollJobs(State(), i, w).0, anyFinished || PollJobs(State(), i, w).1)
        decreases |jobs| - i
      {
        var finished := CheckJob(i, w);
        anyFinished := anyFinished || finished;
        i := i + 1;
      }
      if anyFinished {
        TryStartNextPending(w);
        TryStartQueuedTasks(w);
      }
      ghost var before := State();
      i := 0;
      while i < |tasks|
        invariant i <= |tasks|
        invariant PollTasks(before, 0, w) == PollTasks(State(), i, w)
        decreases |tasks| - i
      {
        CheckTask(i, w);
        i := i + 1;
      }
    }
  }
}
