/**
 Training jobs and pipeline tasks as a state machine (api/state.py, api/routers/jobs.py, api/routers/pipeline.py).
 Answers of the outside world, such as whether a process starts or has exited, are parameters of the steps.
 */
module Schedule {
  import opened Wrappers

  type Id = string
  type Time = int

  datatype JobStatus = Pending | Running | Completed | Failed | Cancelled

  datatype JobError = ConfigMissing | LogUnopened | NotStarted | Exited(code: int) | LostOnRestart

  datatype Job = Job(id: Id, createdAt: Time, status: JobStatus, approved: bool, exitCode: Option<int>, error: Option<JobError>)

  datatype TaskType = PullHfModel | MergeLora | ConvertToGguf | ConvertLoraToGguf | Quantize | Bake

  datatype TaskStatus = Queued | Running | Completed | Failed

  datatype TaskError = NoCommand | NotStarted | Exited(code: int) | LostOnRestart | CancelledByUser

  datatype Task = Task(id: Id, kind: TaskType, command: Option<seq<string>>, status: TaskStatus, exitCode: Option<int>, error: Option<TaskError>)

  /** Dictionaries in insertion order, the process tables, and the copies on disk. */
  datatype State = State(
    jobs: seq<Job>, processes: set<Id>,
    tasks: seq<Task>, taskProcesses: set<Id>,
    jobsFile: seq<Job>, tasksFile: seq<Task>)

  datatype Refusal = NotFound | WrongStatus | AlreadyApproved

  predicate UsesGpu(kind: TaskType) {
    !kind.PullHfModel?
  }

  // ----- Looking things up

  function FindJob(jobs: seq<Job>, id: Id): (r: Option<nat>)
    ensures r.Some? ==> r.value < |jobs| && jobs[r.value].id == id
    ensures r.None? ==> forall i :: 0 <= i < |jobs| ==> jobs[i].id != id
  {
    if jobs == [] then None
    else if jobs[|jobs| - 1].id == id then Some(|jobs| - 1)
    else FindJob(jobs[..|jobs| - 1], id)
  }

  function FindTask(tasks: seq<Task>, id: Id): (r: Option<nat>)
    ensures r.Some? ==> r.value < |tasks| && tasks[r.value].id == id
    ensures r.None? ==> forall i :: 0 <= i < |tasks| ==> tasks[i].id != id
  {
    if tasks == [] then None
    else if tasks[|tasks| - 1].id == id then Some(|tasks| - 1)
    else FindTask(tasks[..|tasks| - 1], id)
  }

  predicate TrainingRunning(jobs: seq<Job>) {
    exists i :: 0 <= i < |jobs| && jobs[i].status.Running?
  }

  predicate GpuTask(task: Task) {
    task.status.Running? && UsesGpu(task.kind)
  }

  predicate GpuTaskRunning(tasks: seq<Task>) {
    exists i :: 0 <= i < |tasks| && GpuTask(tasks[i])
  }

  predicate Waiting(job: Job) {
    job.status.Pending? && job.approved
  }

  /** Position i comes before position k in the order of creation times, ties in order of insertion. */
  predicate Before(jobs: seq<Job>, i: nat, k: nat)
    requires i < |jobs| && k < |jobs|
  {
    jobs[i].createdAt < jobs[k].createdAt || (jobs[i].createdAt == jobs[k].createdAt && i <= k)
  }

  /** The approved pending job that a stable sort by creation time puts first. */
  function Oldest(jobs: seq<Job>): (r: Option<nat>)
    ensures r.Some? ==> r.value < |jobs| && Waiting(jobs[r.value])
                        && forall k :: 0 <= k < |jobs| && Waiting(jobs[k]) ==> Before(jobs, r.value, k)
    ensures r.None? ==> forall k :: 0 <= k < |jobs| ==> !Waiting(jobs[k])
  {
    if jobs == [] then None
    else
      var last := |jobs| - 1;
      match Oldest(jobs[..last])
      case None => if Waiting(jobs[last]) then Some(last) else None
      case Some(i) => if Waiting(jobs[last]) && jobs[last].createdAt < jobs[i].createdAt then Some(last) else Some(i)
  }

  function FirstQueued(tasks: seq<Task>): (r: Option<nat>)
    ensures r.Some? ==> r.value < |tasks| && tasks[r.value].status.Queued?
                        && forall k :: 0 <= k < r.value ==> !tasks[k].status.Queued?
    ensures r.None? ==> forall k :: 0 <= k < |tasks| ==> !tasks[k].status.Queued?
  {
    if tasks == [] then None
    else
      match FirstQueued(tasks[..|tasks| - 1])
      case Some(i) => Some(i)
      case None => if tasks[|tasks| - 1].status.Queued? then Some(|tasks| - 1) else None
  }

  // ----- Steps

  function SetJob(s: State, i: nat, job: Job): State
    requires i < |s.jobs|
  {
    s.(jobs := s.jobs[i := job])
  }

  function SetTask(s: State, i: nat, task: Task): State
    requires i < |s.tasks|
  {
    s.(tasks := s.tasks[i := task])
  }

  function SaveJobs(s: State): State {
    s.(jobsFile := s.jobs)
  }

  function SaveTasks(s: State): State {
    s.(tasksFile := s.tasks)
  }

  /** A process runs, or why none does. */
  datatype JobLaunch = Started | Refused(error: JobError)

  function StartJob(s: State, i: nat, launch: JobLaunch): State
    requires i < |s.jobs|
  {
    match launch
    case Refused(e) => SaveJobs(SetJob(s, i, s.jobs[i].(status := JobStatus.Failed, error := Some(e))))
    case Started =>
      SaveJobs(SetJob(s, i, s.jobs[i].(status := JobStatus.Running)).(processes := s.processes + {s.jobs[i].id}))
  }

  function TryStartNextPending(s: State, launch: JobLaunch): State {
    if TrainingRunning(s.jobs) || Oldest(s.jobs).None? then s else StartJob(s, Oldest(s.jobs).value, launch)
  }

  function LaunchTask(s: State, i: nat, starts: bool): State
    requires i < |s.tasks|
  {
    var task := s.tasks[i];
    if task.command.None? || task.command.value == [] then
      SaveTasks(SetTask(s, i, task.(status := TaskStatus.Failed, error := Some(NoCommand))))
    else if !starts then
      SaveTasks(SetTask(s, i, task.(status := TaskStatus.Failed, error := Some(TaskError.NotStarted))))
    else
      SaveTasks(SetTask(s, i, task.(status := TaskStatus.Running)).(taskProcesses := s.taskProcesses + {task.id}))
  }

  function TryStartQueuedTasks(s: State, starts: bool): State {
    if TrainingRunning(s.jobs) || GpuTaskRunning(s.tasks) || FirstQueued(s.tasks).None? then s
    else LaunchTask(s, FirstQueued(s.tasks).value, starts)
  }

  /** What a caller asks for, under the identifier drawn for it. */
  datatype Request = Request(id: Id, kind: TaskType, command: seq<string>)

  function StartPipelineTask(s: State, r: Request, starts: bool): State {
    if UsesGpu(r.kind) && TrainingRunning(s.jobs) then
      SaveTasks(s.(tasks := s.tasks + [Task(r.id, r.kind, Some(r.command), TaskStatus.Queued, None, None)]))
    else
      var task := Task(r.id, r.kind, Some(r.command), TaskStatus.Running, None, None);
      LaunchTask(s.(tasks := s.tasks + [task]), |s.tasks|, starts)
  }

  function CreateJob(s: State, id: Id, now: Time): State {
    SaveJobs(s.(jobs := s.jobs + [Job(id, now, JobStatus.Pending, false, None, None)]))
  }

  function ApproveJob(s: State, id: Id): Result<State, Refusal> {
    match FindJob(s.jobs, id)
    case None => Err(NotFound)
    case Some(i) =>
      if !s.jobs[i].status.Pending? then Err(WrongStatus)
      else if s.jobs[i].approved then Err(AlreadyApproved)
      else Ok(SaveJobs(SetJob(s, i, s.jobs[i].(approved := true))))
  }

  function CancelJob(s: State, id: Id): Result<State, Refusal> {
    match FindJob(s.jobs, id)
    case None => Err(NotFound)
    case Some(i) =>
      if !s.jobs[i].status.Running? && !s.jobs[i].status.Pending? then Err(WrongStatus)
      else Ok(SaveJobs(SetJob(s, i, s.jobs[i].(status := JobStatus.Cancelled)).(processes := s.processes - {id})))
  }

  function CancelTask(s: State, id: Id): Result<State, Refusal> {
    match FindTask(s.tasks, id)
    case None => Err(NotFound)
    case Some(i) =>
      if !s.tasks[i].status.Running? then Err(WrongStatus)
      else
        var task := s.tasks[i].(status := TaskStatus.Failed, error := Some(CancelledByUser));
        Ok(SaveTasks(SetTask(s, i, task).(taskProcesses := s.taskProcesses - {id})))
  }

  /** The adapter conversion that follows a finished job, if there is something to convert. */
  datatype Conversion = Conversion(request: Request, starts: bool)

  function FinishedJob(job: Job, code: int): Job {
    if code == 0 then job.(status := JobStatus.Completed, exitCode := Some(code))
    else job.(status := JobStatus.Failed, exitCode := Some(code), error := Some(JobError.Exited(code)))
  }

  predicate JobPolled(s: State, i: nat)
    requires i < |s.jobs|
  {
    s.jobs[i].status.Running? && s.jobs[i].id in s.processes
  }

  function PollJob(s: State, i: nat, exit: Option<int>, conversion: Option<Conversion>): State
    requires i < |s.jobs|
  {
    if !JobPolled(s, i) then s
    else
      match exit
      case None => SaveJobs(s)
      case Some(code) =>
        var s1 := SetJob(s, i, FinishedJob(s.jobs[i], code));
        var s2 := if code == 0 && conversion.Some?
                  then StartPipelineTask(s1, conversion.value.request, conversion.value.starts) else s1;
        SaveJobs(s2.(processes := s2.processes - {s.jobs[i].id}))
  }

  function FinishedTask(task: Task, code: int): Task {
    if code == 0 then task.(status := TaskStatus.Completed, exitCode := Some(code))
    else task.(status := TaskStatus.Failed, exitCode := Some(code), error := Some(TaskError.Exited(code)))
  }

  predicate TaskPolled(s: State, i: nat)
    requires i < |s.tasks|
  {
    s.tasks[i].status.Running? && s.tasks[i].id in s.taskProcesses
  }

  function PollTask(s: State, i: nat, exit: Option<int>): State
    requires i < |s.tasks|
  {
    if !TaskPolled(s, i) || exit.None? then s
    else SaveTasks(SetTask(s, i, FinishedTask(s.tasks[i], exit.value)).(taskProcesses := s.taskProcesses - {s.tasks[i].id}))
  }

  /** A record as a new process of the service takes it from disk. */
  function LoadedJob(job: Job): Job {
    if job.status.Running? then job.(status := JobStatus.Failed, error := Some(JobError.LostOnRestart)) else job
  }

  function LoadedTask(task: Task): Task {
    if task.status.Running? then task.(status := TaskStatus.Failed, error := Some(TaskError.LostOnRestart)) else task
  }

  function LoadedJobs(jobs: seq<Job>): (r: seq<Job>)
    ensures |r| == |jobs| && forall i :: 0 <= i < |jobs| ==> r[i] == LoadedJob(jobs[i])
  {
    if jobs == [] then [] else LoadedJobs(jobs[..|jobs| - 1]) + [LoadedJob(jobs[|jobs| - 1])]
  }

  function LoadedTasks(tasks: seq<Task>): (r: seq<Task>)
    ensures |r| == |tasks| && forall i :: 0 <= i < |tasks| ==> r[i] == LoadedTask(tasks[i])
  {
    if tasks == [] then [] else LoadedTasks(tasks[..|tasks| - 1]) + [LoadedTask(tasks[|tasks| - 1])]
  }

  /** The service stops at once and starts again: only the files survive. */
  function Restart(s: State): State {
    State(LoadedJobs(s.jobsFile), {}, LoadedTasks(s.tasksFile), {}, s.jobsFile, s.tasksFile)
  }

  // ----- Runs

  datatype Action =
    | Create(id: Id, now: Time)
    | Approve(id: Id)
    | Cancel(id: Id)
    | StartNext(launch: JobLaunch)
    | StartQueued(starts: bool)
    | StartTask(request: Request, starts: bool)
    | StopTask(id: Id)
    | CheckJob(i: nat, exit: Option<int>, conversion: Option<Conversion>)
    | CheckTask(i: nat, exit: Option<int>)
    | Reboot

  /** Identifiers drawn are new. */
  predicate Enabled(s: State, a: Action) {
    match a
    case Create(id, _) => FindJob(s.jobs, id).None?
    case StartTask(r, _) => FindTask(s.tasks, r.id).None?
    case CheckJob(i, _, conversion) => i < |s.jobs| && (conversion.Some? ==> FindTask(s.tasks, conversion.value.request.id).None?)
    case CheckTask(i, _) => i < |s.tasks|
    case _ => true
  }

  function OrSame(s: State, r: Result<State, Refusal>): State {
    if r.Ok? then r.value else s
  }

  function Apply(s: State, a: Action): State
    requires Enabled(s, a)
  {
    match a
    case Create(id, now) => CreateJob(s, id, now)
    case Approve(id) => OrSame(s, ApproveJob(s, id))
    case Cancel(id) => OrSame(s, CancelJob(s, id))
    case StartNext(launch) => TryStartNextPending(s, launch)
    case StartQueued(starts) => TryStartQueuedTasks(s, starts)
    case StartTask(r, starts) => StartPipelineTask(s, r, starts)
    case StopTask(id) => OrSame(s, CancelTask(s, id))
    case CheckJob(i, exit, conversion) => PollJob(s, i, exit, conversion)
    case CheckTask(i, exit) => PollTask(s, i, exit)
    case Reboot => Restart(s)
  }

  predicate RunEnabled(s: State, actions: seq<Action>)
    decreases |actions|
  {
    actions == [] || (Enabled(s, actions[0]) && RunEnabled(Apply(s, actions[0]), actions[1..]))
  }

  function Run(s: State, actions: seq<Action>): State
    requires RunEnabled(s, actions)
    decreases |actions|
  {
    if actions == [] then s else Run(Apply(s, actions[0]), actions[1..])
  }

  const EMPTY := State([], {}, [], {}, [], [])

  // ----- The invariant

  predicate JobsConsistent(jobs: seq<Job>, processes: set<Id>) {
    && (forall i, k :: 0 <= i < k < |jobs| ==> jobs[i].id != jobs[k].id)
    && (forall i :: 0 <= i < |jobs| ==> (jobs[i].id in processes <==> jobs[i].status.Running?))
    && (forall id <- processes :: exists i :: 0 <= i < |jobs| && jobs[i].id == id)
    && (forall i, k :: 0 <= i < k < |jobs| ==> !(jobs[i].status.Running? && jobs[k].status.Running?))
    && (forall i :: 0 <= i < |jobs| && (jobs[i].status.Running? || jobs[i].status.Completed?) ==> jobs[i].approved)
  }

  predicate TasksConsistent(tasks: seq<Task>, processes: set<Id>) {
    && (forall i, k :: 0 <= i < k < |tasks| ==> tasks[i].id != tasks[k].id)
    && (forall i :: 0 <= i < |tasks| ==> (tasks[i].id in processes <==> tasks[i].status.Running?))
    && (forall id <- processes :: exists i :: 0 <= i < |tasks| && tasks[i].id == id)
    && (forall i :: 0 <= i < |tasks| && tasks[i].status.Queued? ==> UsesGpu(tasks[i].kind))
  }

  /** Loading the file gives what loading the memory would give. */
  predicate JobsOnDisk(jobs: seq<Job>, file: seq<Job>) {
    |file| == |jobs| && forall i :: 0 <= i < |jobs| ==> LoadedJob(file[i]) == LoadedJob(jobs[i])
  }

  predicate TasksOnDisk(tasks: seq<Task>, file: seq<Task>) {
    |file| == |tasks| && forall i :: 0 <= i < |tasks| ==> LoadedTask(file[i]) == LoadedTask(tasks[i])
  }

  predicate Consistent(s: State) {
    && JobsConsistent(s.jobs, s.processes) && TasksConsistent(s.tasks, s.taskProcesses)
    && JobsOnDisk(s.jobs, s.jobsFile) && TasksOnDisk(s.tasks, s.tasksFile)
  }

  // ----- What a step may do to a record

  predicate JobDone(status: JobStatus) {
    status.Completed? || status.Failed? || status.Cancelled?
  }

  predicate TaskDone(status: TaskStatus) {
    status.Completed? || status.Failed?
  }

  predicate JobMoves(a: Job, b: Job) {
    && b.id == a.id && b.createdAt == a.createdAt && (a.approved ==> b.approved)
    && (JobDone(a.status) ==> b == a)
    && (a.status.Running? ==> !b.status.Pending?)
  }

  predicate TaskMoves(a: Task, b: Task) {
    && b.id == a.id && b.kind == a.kind && b.command == a.command
    && (TaskDone(a.status) ==> b == a)
    && (a.status.Running? ==> !b.status.Queued?)
  }

  predicate JobsEvolve(a: seq<Job>, b: seq<Job>) {
    |a| <= |b| && forall i :: 0 <= i < |a| ==> JobMoves(a[i], b[i])
  }

  predicate TasksEvolve(a: seq<Task>, b: seq<Task>) {
    |a| <= |b| && forall i :: 0 <= i < |a| ==> TaskMoves(a[i], b[i])
  }

  /** No record is lost, renamed or reordered; finished ones never change; nothing goes back to waiting. */
  predicate Evolves(s: State, t: State) {
    JobsEvolve(s.jobs, t.jobs) && TasksEvolve(s.tasks, t.tasks)
  }

  /** A job that starts was approved, was the oldest such, and no other was running; a new job waits for approval. */
  predicate JobStartsInTurn(s: State, t: State) {
    && (forall i :: 0 <= i < |s.jobs| && i < |t.jobs| && !s.jobs[i].status.Running? && t.jobs[i].status.Running? ==>
         Waiting(s.jobs[i]) && !TrainingRunning(s.jobs)
         && forall k :: 0 <= k < |s.jobs| && Waiting(s.jobs[k]) ==> Before(s.jobs, i, k))
    && (forall i :: |s.jobs| <= i < |t.jobs| ==> t.jobs[i].status.Pending? && !t.jobs[i].approved)
  }

  /** A queued task that starts was the first in the queue, with the GPU free of jobs and of other tasks. */
  predicate QueuedStartsInTurn(s: State, t: State) {
    forall i :: 0 <= i < |s.tasks| && i < |t.tasks| && s.tasks[i].status.Queued? && t.tasks[i].status.Running? ==>
      !TrainingRunning(s.jobs) && !GpuTaskRunning(s.tasks)
      && forall k :: 0 <= k < i ==> !s.tasks[k].status.Queued?
  }

  /** No task that uses the GPU starts while a job runs. */
  predicate TasksYieldToTraining(s: State, t: State) {
    forall i :: 0 <= i < |t.tasks| && GpuTask(t.tasks[i]) && !(i < |s.tasks| && GpuTask(s.tasks[i])) ==> !TrainingRunning(t.jobs)
  }

  predicate InTurn(s: State, t: State) {
    JobStartsInTurn(s, t) && QueuedStartsInTurn(s, t) && TasksYieldToTraining(s, t)
  }

  predicate Safe(s: State, t: State) {
    Consistent(t) && Evolves(s, t) && InTurn(s, t)
  }

  // ----- One record changes

  lemma JobChange(jobs: seq<Job>, processes: set<Id>, i: nat, job: Job, after: set<Id>)
    requires JobsConsistent(jobs, processes) && i < |jobs| && JobMoves(jobs[i], job)
    requires if job.status.Running? then after == processes + {job.id}
             else after == processes - {job.id} || (after == processes && !jobs[i].status.Running?)
    requires job.status.Running? ==> jobs[i].status.Running? || !TrainingRunning(jobs)
    requires job.status.Running? || job.status.Completed? ==> job.approved
    ensures JobsConsistent(jobs[i := job], after) && JobsEvolve(jobs, jobs[i := job])
  {
    var changed := jobs[i := job];
    forall id | id in after
      ensures exists k :: 0 <= k < |changed| && changed[k].id == id
    {
      if id == job.id {
        assert changed[i].id == id;
      } else {
        var k :| 0 <= k < |jobs| && jobs[k].id == id;
        assert changed[k].id == id;
      }
    }
  }

  lemma TaskChange(tasks: seq<Task>, processes: set<Id>, i: nat, task: Task, after: set<Id>)
    requires TasksConsistent(tasks, processes) && i < |tasks| && TaskMoves(tasks[i], task)
    requires task.status.Queued? ==> task == tasks[i]
    requires if task.status.Running? then after == processes + {task.id}
             else after == processes - {task.id} || (after == processes && !tasks[i].status.Running?)
    ensures TasksConsistent(tasks[i := task], after) && TasksEvolve(tasks, tasks[i := task])
  {
    var changed := tasks[i := task];
    forall id | id in after
      ensures exists k :: 0 <= k < |changed| && changed[k].id == id
    {
      if id == task.id {
        assert changed[i].id == id;
      } else {
        var k :| 0 <= k < |tasks| && tasks[k].id == id;
        assert changed[k].id == id;
      }
    }
  }

  lemma JobAdd(jobs: seq<Job>, processes: set<Id>, job: Job)
    requires JobsConsistent(jobs, processes) && FindJob(jobs, job.id).None? && job.status.Pending?
    ensures JobsConsistent(jobs + [job], processes) && JobsEvolve(jobs, jobs + [job])
  {
    forall id | id in processes
      ensures exists k :: 0 <= k < |jobs + [job]| && (jobs + [job])[k].id == id
    {
      var k :| 0 <= k < |jobs| && jobs[k].id == id;
      assert (jobs + [job])[k].id == id;
    }
  }

  lemma TaskAdd(tasks: seq<Task>, processes: set<Id>, task: Task, after: set<Id>)
    requires TasksConsistent(tasks, processes) && FindTask(tasks, task.id).None?
    requires after == if task.status.Running? then processes + {task.id} else processes
    requires task.status.Queued? ==> UsesGpu(task.kind)
    ensures TasksConsistent(tasks + [task], after) && TasksEvolve(tasks, tasks + [task])
  {
    var more := tasks + [task];
    forall id | id in after
      ensures exists k :: 0 <= k < |more| && more[k].id == id
    {
      if id == task.id {
        assert more[|tasks|].id == id;
      } else {
        var k :| 0 <= k < |tasks| && tasks[k].id == id;
        assert more[k].id == id;
      }
    }
  }

  lemma JobsStay(jobs: seq<Job>)
    ensures JobsEvolve(jobs, jobs) && JobsOnDisk(jobs, jobs)
  {
  }

  lemma TasksStay(tasks: seq<Task>)
    ensures TasksEvolve(tasks, tasks) && TasksOnDisk(tasks, tasks)
  {
  }

  // ----- Every step is safe

  lemma StartJobSafe(s: State, i: nat, launch: JobLaunch)
    requires Consistent(s) && !TrainingRunning(s.jobs) && Oldest(s.jobs) == Some(i)
    ensures Safe(s, StartJob(s, i, launch))
  {
    hide JobsConsistent, TasksConsistent, JobsOnDisk, TasksOnDisk, JobsEvolve, TasksEvolve, Oldest;
    var t := StartJob(s, i, launch);
    JobChange(s.jobs, s.processes, i, t.jobs[i], t.processes);
    JobsStay(t.jobs);
    TasksStay(s.tasks);
  }

  lemma StartNextSafe(s: State, launch: JobLaunch)
    requires Consistent(s)
    ensures Safe(s, TryStartNextPending(s, launch))
  {
    hide Consistent, JobStartsInTurn, QueuedStartsInTurn, TasksYieldToTraining, StartJob, Oldest;
    if TrainingRunning(s.jobs) || Oldest(s.jobs).None? {
      Unchanged(s);
    } else {
      StartJobSafe(s, Oldest(s.jobs).value, launch);
    }
  }

  lemma Unchanged(s: State)
    requires Consistent(s)
    ensures Safe(s, s)
  {
    hide JobsConsistent, TasksConsistent, JobsOnDisk, TasksOnDisk;
  }

  /** A task that has no process yet is launched. */
  lemma LaunchTaskSafe(s: State, i: nat, starts: bool)
    requires Consistent(s) && i < |s.tasks| && s.tasks[i].status.Queued?
    requires !TrainingRunning(s.jobs) && !GpuTaskRunning(s.tasks) && FirstQueued(s.tasks) == Some(i)
    ensures Safe(s, LaunchTask(s, i, starts))
  {
    hide JobsConsistent, TasksConsistent, JobsOnDisk, TasksOnDisk, JobsEvolve, TasksEvolve, TrainingRunning, GpuTaskRunning;
    var t := LaunchTask(s, i, starts);
    TaskChange(s.tasks, s.taskProcesses, i, t.tasks[i], t.taskProcesses);
    JobsStay(s.jobs);
    TasksStay(t.tasks);
  }

  lemma StartQueuedSafe(s: State, starts: bool)
    requires Consistent(s)
    ensures Safe(s, TryStartQueuedTasks(s, starts))
  {
    hide Consistent, Safe, LaunchTask, TrainingRunning, GpuTaskRunning;
    if TrainingRunning(s.jobs) || GpuTaskRunning(s.tasks) || FirstQueued(s.tasks).None? {
      Unchanged(s);
    } else {
      LaunchTaskSafe(s, FirstQueued(s.tasks).value, starts);
    }
  }

  /** The record as it is after it was added and, where it does not wait, launched. */
  function NewTask(s: State, r: Request, starts: bool): Task {
    var task := Task(r.id, r.kind, Some(r.command), TaskStatus.Running, None, None);
    if UsesGpu(r.kind) && TrainingRunning(s.jobs) then task.(status := TaskStatus.Queued)
    else if r.command == [] then task.(status := TaskStatus.Failed, error := Some(NoCommand))
    else if !starts then task.(status := TaskStatus.Failed, error := Some(TaskError.NotStarted))
    else task
  }

  lemma StartTaskAdds(s: State, r: Request, starts: bool)
    ensures var t := StartPipelineTask(s, r, starts);
            var task := NewTask(s, r, starts);
            && t.tasks == s.tasks + [task] && t.tasksFile == t.tasks
            && t.taskProcesses == (if task.status.Running? then s.taskProcesses + {r.id} else s.taskProcesses)
            && t.jobs == s.jobs && t.processes == s.processes && t.jobsFile == s.jobsFile
  {
    hide TrainingRunning, UsesGpu;
    var before := Task(r.id, r.kind, Some(r.command), TaskStatus.Running, None, None);
    var after := NewTask(s, r, starts);
    assert (s.tasks + [before])[|s.tasks| := after] == s.tasks + [after];
  }

  lemma StartTaskSafe(s: State, r: Request, starts: bool)
    requires Consistent(s) && FindTask(s.tasks, r.id).None?
    ensures Safe(s, StartPipelineTask(s, r, starts))
  {
    hide JobsConsistent, TasksConsistent, JobsOnDisk, TasksOnDisk, JobsEvolve, TasksEvolve, TrainingRunning, GpuTaskRunning, StartPipelineTask;
    StartTaskAdds(s, r, starts);
    TaskAdd(s.tasks, s.taskProcesses, NewTask(s, r, starts), StartPipelineTask(s, r, starts).taskProcesses);
    JobsStay(s.jobs);
    TasksStay(StartPipelineTask(s, r, starts).tasks);
  }

  lemma PendingIsNotTraining(jobs: seq<Job>, job: Job)
    requires job.status.Pending?
    ensures TrainingRunning(jobs + [job]) ==> TrainingRunning(jobs)
  {
  }

  lemma CreateJobSafe(s: State, id: Id, now: Time)
    requires Consistent(s) && FindJob(s.jobs, id).None?
    ensures Safe(s, CreateJob(s, id, now))
  {
    hide JobsConsistent, TasksConsistent, JobsOnDisk, TasksOnDisk, JobsEvolve, TasksEvolve, TrainingRunning;
    var t := CreateJob(s, id, now);
    JobAdd(s.jobs, s.processes, t.jobs[|s.jobs|]);
    JobsStay(t.jobs);
    TasksStay(s.tasks);
    PendingIsNotTraining(s.jobs, t.jobs[|s.jobs|]);
  }

  /** A job changes without starting. */
  lemma JobStepSafe(s: State, t: State, i: nat)
    requires Consistent(s) && i < |s.jobs| == |t.jobs| && t.jobs == s.jobs[i := t.jobs[i]]
    requires t.tasks == s.tasks && t.taskProcesses == s.taskProcesses && t.tasksFile == s.tasksFile && t.jobsFile == t.jobs
    requires JobMoves(s.jobs[i], t.jobs[i]) && !t.jobs[i].status.Running?
    requires t.jobs[i].status.Completed? ==> t.jobs[i].approved
    requires t.processes == s.processes - {s.jobs[i].id} || (t.processes == s.processes && !s.jobs[i].status.Running?)
    ensures Safe(s, t)
  {
    hide JobsConsistent, TasksConsistent, JobsOnDisk, TasksOnDisk, JobsEvolve, TasksEvolve, TrainingRunning;
    JobChange(s.jobs, s.processes, i, t.jobs[i], t.processes);
    JobsStay(t.jobs);
    TasksStay(s.tasks);
  }

  /** A task ends. */
  lemma TaskStepSafe(s: State, t: State, i: nat)
    requires Consistent(s) && i < |s.tasks| == |t.tasks| && t.tasks == s.tasks[i := t.tasks[i]]
    requires t.jobs == s.jobs && t.processes == s.processes && t.jobsFile == s.jobsFile && t.tasksFile == t.tasks
    requires TaskMoves(s.tasks[i], t.tasks[i]) && TaskDone(t.tasks[i].status)
    requires t.taskProcesses == s.taskProcesses - {s.tasks[i].id}
    ensures Safe(s, t)
  {
    hide JobsConsistent, TasksConsistent, JobsOnDisk, TasksOnDisk, JobsEvolve, TasksEvolve, TrainingRunning, GpuTaskRunning;
    TaskChange(s.tasks, s.taskProcesses, i, t.tasks[i], t.taskProcesses);
    JobsStay(s.jobs);
    TasksStay(t.tasks);
  }

  lemma ApproveSafe(s: State, id: Id)
    requires Consistent(s)
    ensures Safe(s, OrSame(s, ApproveJob(s, id)))
  {
    hide Safe, Consistent;
    var r := ApproveJob(s, id);
    if r.Ok? {
      JobStepSafe(s, r.value, FindJob(s.jobs, id).value);
    } else {
      Unchanged(s);
    }
  }

  lemma CancelSafe(s: State, id: Id)
    requires Consistent(s)
    ensures Safe(s, OrSame(s, CancelJob(s, id)))
  {
    hide Safe, Consistent;
    var r := CancelJob(s, id);
    if r.Ok? {
      JobStepSafe(s, r.value, FindJob(s.jobs, id).value);
    } else {
      Unchanged(s);
    }
  }

  lemma CancelTaskSafe(s: State, id: Id)
    requires Consistent(s)
    ensures Safe(s, OrSame(s, CancelTask(s, id)))
  {
    hide Safe, Consistent;
    var r := CancelTask(s, id);
    if r.Ok? {
      TaskStepSafe(s, r.value, FindTask(s.tasks, id).value);
    } else {
      Unchanged(s);
    }
  }

  lemma PollTaskSafe(s: State, i: nat, exit: Option<int>)
    requires Consistent(s) && i < |s.tasks|
    ensures Safe(s, PollTask(s, i, exit))
  {
    hide Safe, Consistent;
    if TaskPolled(s, i) && exit.Some? {
      TaskStepSafe(s, PollTask(s, i, exit), i);
    } else {
      Unchanged(s);
    }
  }

  lemma SaveSafe(s: State)
    requires Consistent(s)
    ensures Safe(s, SaveJobs(s))
  {
    hide JobsConsistent, TasksConsistent, JobsOnDisk, TasksOnDisk, TrainingRunning;
    JobsStay(s.jobs);
  }

  /** A finished job's record is settled first; its conversion is a step of its own. */
  lemma PollJobSplits(s: State, i: nat, exit: Option<int>, conversion: Option<Conversion>)
    requires i < |s.jobs|
    ensures var t := PollJob(s, i, exit, None);
            PollJob(s, i, exit, conversion) ==
            if JobPolled(s, i) && exit == Some(0) && conversion.Some?
            then StartPipelineTask(t, conversion.value.request, conversion.value.starts) else t
  {
    hide StartPipelineTask, TrainingRunning;
    if JobPolled(s, i) && exit == Some(0) && conversion.Some? {
      var s1 := SetJob(s, i, FinishedJob(s.jobs[i], 0));
      StartTaskAdds(s1, conversion.value.request, conversion.value.starts);
      StartTaskAdds(PollJob(s, i, exit, None), conversion.value.request, conversion.value.starts);
    }
  }

  lemma ApprovedWhileRunning(s: State, i: nat)
    requires Consistent(s) && i < |s.jobs| && s.jobs[i].status.Running?
    ensures s.jobs[i].approved
  {
  }

  lemma PollJobSafe(s: State, i: nat, exit: Option<int>, conversion: Option<Conversion>)
    requires Consistent(s) && i < |s.jobs|
    requires conversion.Some? ==> FindTask(s.tasks, conversion.value.request.id).None?
    ensures Safe(s, PollJob(s, i, exit, conversion))
  {
    hide Safe, Consistent, StartPipelineTask;
    if !JobPolled(s, i) {
      Unchanged(s);
    } else if exit.None? {
      SaveSafe(s);
    } else {
      var t := PollJob(s, i, exit, None);
      ApprovedWhileRunning(s, i);
      JobStepSafe(s, t, i);
      PollJobSplits(s, i, exit, conversion);
      if exit == Some(0) && conversion.Some? {
        ThenConverts(s, t, conversion.value.request, conversion.value.starts);
      }
    }
  }

  lemma ThenConverts(s: State, t: State, r: Request, starts: bool)
    requires Consistent(s) && Safe(s, t) && t.tasks == s.tasks && |t.jobs| == |s.jobs| && FindTask(s.tasks, r.id).None?
    ensures Safe(s, StartPipelineTask(t, r, starts))
  {
    hide Consistent, StartPipelineTask, FindTask, TrainingRunning, GpuTaskRunning, JobsEvolve;
    StartTaskSafe(t, r, starts);
    StartTaskAdds(t, r, starts);
  }

  lemma LoadedJobsOnDisk(jobs: seq<Job>, file: seq<Job>)
    requires JobsOnDisk(jobs, file)
    ensures LoadedJobs(file) == LoadedJobs(jobs)
  {
  }

  lemma LoadedTasksOnDisk(tasks: seq<Task>, file: seq<Task>)
    requires TasksOnDisk(tasks, file)
    ensures LoadedTasks(file) == LoadedTasks(tasks)
  {
  }

  lemma LoadedJobsConsistent(jobs: seq<Job>, processes: set<Id>)
    requires JobsConsistent(jobs, processes)
    ensures JobsConsistent(LoadedJobs(jobs), {}) && JobsEvolve(jobs, LoadedJobs(jobs)) && JobsOnDisk(LoadedJobs(jobs), jobs)
  {
  }

  lemma LoadedTasksConsistent(tasks: seq<Task>, processes: set<Id>)
    requires TasksConsistent(tasks, processes)
    ensures TasksConsistent(LoadedTasks(tasks), {}) && TasksEvolve(tasks, LoadedTasks(tasks)) && TasksOnDisk(LoadedTasks(tasks), tasks)
  {
  }

  /** Nothing is lost by a restart but the processes: what the disk yields is what memory would have. */
  lemma RestartRecovers(s: State)
    requires Consistent(s)
    ensures Restart(s).jobs == LoadedJobs(s.jobs) && Restart(s).tasks == LoadedTasks(s.tasks)
    ensures Safe(s, Restart(s))
    ensures Restart(Restart(s)) == Restart(s)
  {
    hide JobsConsistent, TasksConsistent, JobsEvolve, TasksEvolve, TrainingRunning, GpuTaskRunning;
    LoadedJobsOnDisk(s.jobs, s.jobsFile);
    LoadedTasksOnDisk(s.tasks, s.tasksFile);
    LoadedJobsConsistent(s.jobs, s.processes);
    LoadedTasksConsistent(s.tasks, s.taskProcesses);
  }

  // ----- Runs are safe

  lemma StepSafe(s: State, a: Action)
    requires Consistent(s) && Enabled(s, a)
    ensures Safe(s, Apply(s, a))
  {
    hide Consistent, Safe, FindJob, FindTask, PollJob, PollTask, TryStartNextPending, TryStartQueuedTasks, StartPipelineTask, CreateJob, CancelJob, CancelTask, ApproveJob, Restart;
    match a
    case Create(id, now) => CreateJobSafe(s, id, now);
    case Approve(id) => ApproveSafe(s, id);
    case Cancel(id) => CancelSafe(s, id);
    case StartNext(launch) => StartNextSafe(s, launch);
    case StartQueued(starts) => StartQueuedSafe(s, starts);
    case StartTask(r, starts) => StartTaskSafe(s, r, starts);
    case StopTask(id) => CancelTaskSafe(s, id);
    case CheckJob(i, exit, conversion) => PollJobSafe(s, i, exit, conversion);
    case CheckTask(i, exit) => PollTaskSafe(s, i, exit);
    case Reboot => RestartRecovers(s);
  }

  lemma EvolvesOn(s: State, t: State, u: State)
    requires Evolves(s, t) && Evolves(t, u)
    ensures Evolves(s, u)
  {
  }

  /** From a consistent state no run leaves consistency, and every record moves forward only. */
  lemma {:induction false} RunSafe(s: State, actions: seq<Action>)
    requires Consistent(s) && RunEnabled(s, actions)
    ensures Consistent(Run(s, actions)) && Evolves(s, Run(s, actions))
    decreases |actions|
  {
    hide Consistent, InTurn, Evolves, Apply, Enabled;
    if actions == [] {
      Unchanged(s);
    } else {
      var t := Apply(s, actions[0]);
      StepSafe(s, actions[0]);
      RunSafe(t, actions[1..]);
      EvolvesOn(s, t, Run(t, actions[1..]));
    }
  }

  lemma EmptyConsistent()
    ensures Consistent(EMPTY)
  {
  }

  /** What holds at every step boundary of every run of the service, from its first start on. */
  lemma ReachableSafe(past: seq<Action>, a: Action)
    requires RunEnabled(EMPTY, past) && Enabled(Run(EMPTY, past), a)
    ensures Consistent(Run(EMPTY, past))
    ensures Safe(Run(EMPTY, past), Apply(Run(EMPTY, past), a))
  {
    hide Consistent, Safe, Apply, Enabled;
    EmptyConsistent();
    RunSafe(EMPTY, past);
    StepSafe(Run(EMPTY, past), a);
  }

  /** The tables list exactly what runs, and at most one job does. */
  lemma TablesMirror(s: State)
    requires Consistent(s)
    ensures s.processes == set job <- s.jobs | job.status.Running? :: job.id
    ensures s.taskProcesses == set task <- s.tasks | task.status.Running? :: task.id
    ensures |s.processes| <= 1
  {
    var running := set job <- s.jobs | job.status.Running? :: job.id;
    forall id | id in s.processes
      ensures id in running
    {
      var i :| 0 <= i < |s.jobs| && s.jobs[i].id == id;
      assert s.jobs[i] in s.jobs;
    }
    var runningTasks := set task <- s.tasks | task.status.Running? :: task.id;
    forall id | id in s.taskProcesses
      ensures id in runningTasks
    {
      var i :| 0 <= i < |s.tasks| && s.tasks[i].id == id;
      assert s.tasks[i] in s.tasks;
    }
    assert forall a, b :: a in s.processes && b in s.processes ==> a == b;
    AtMostOne(s.processes);
  }

  lemma AtMostOne(ids: set<Id>)
    requires forall a, b :: a in ids && b in ids ==> a == b
    ensures |ids| <= 1
  {
    if ids != {} {
      var a :| a in ids;
      assert ids == {a};
    }
  }

  // ----- When training stands still

  predicate Idle(s: State) {
    !TrainingRunning(s.jobs) && exists i :: 0 <= i < |s.jobs| && Waiting(s.jobs[i])
  }

  lemma StartNextWorks(s: State)
    ensures !Idle(TryStartNextPending(s, Started))
  {
    var t := TryStartNextPending(s, Started);
    if !TrainingRunning(s.jobs) && Oldest(s.jobs).Some? {
      assert t.jobs[Oldest(s.jobs).value].status.Running?;
    }
  }

  /** Cancelling starts nothing: training stands still after it exactly if no other job runs and another one waits. */
  lemma CancelIdles(s: State, id: Id)
    requires Consistent(s) && CancelJob(s, id).Ok?
    ensures var i := FindJob(s.jobs, id).value;
            Idle(CancelJob(s, id).value) <==>
            && (s.jobs[i].status.Running? || !TrainingRunning(s.jobs))
            && exists k :: 0 <= k < |s.jobs| && k != i && Waiting(s.jobs[k])
  {
    hide TasksConsistent, JobsOnDisk, TasksOnDisk, FindJob;
    var i := FindJob(s.jobs, id).value;
    var t := CancelJob(s, id).value;
    assert t.jobs == s.jobs[i := t.jobs[i]] && t.jobs[i].status.Cancelled?;
    if k :| 0 <= k < |s.jobs| && s.jobs[k].status.Running? {
      assert k != i ==> t.jobs[k].status.Running?;
    }
    if k :| 0 <= k < |t.jobs| && t.jobs[k].status.Running? {
      assert s.jobs[k].status.Running?;
    }
    if k :| 0 <= k < |s.jobs| && k != i && Waiting(s.jobs[k]) {
      assert Waiting(t.jobs[k]);
    }
    if k :| 0 <= k < |t.jobs| && Waiting(t.jobs[k]) {
      assert k != i && Waiting(s.jobs[k]);
    }
  }

  // ----- A pass of the poll loop

  /** What the outside answers during one pass. */
  datatype World = World(
    jobExit: Id -> Option<int>, conversion: Id -> Option<Conversion>, jobLaunch: Id -> JobLaunch,
    taskExit: Id -> Option<int>, taskStarts: Id -> bool)

  function StartNextIn(s: State, w: World): State {
    match Oldest(s.jobs)
    case None => s
    case Some(i) => TryStartNextPending(s, w.jobLaunch(s.jobs[i].id))
  }

  function StartQueuedIn(s: State, w: World): State {
    match FirstQueued(s.tasks)
    case None => s
    case Some(i) => TryStartQueuedTasks(s, w.taskStarts(s.tasks[i].id))
  }

  predicate JobExits(s: State, i: nat, w: World)
    requires i < |s.jobs|
  {
    JobPolled(s, i) && w.jobExit(s.jobs[i].id).Some?
  }

  predicate TaskExits(s: State, i: nat, w: World)
    requires i < |s.tasks|
  {
    TaskPolled(s, i) && w.taskExit(s.tasks[i].id).Some?
  }

  function CheckJobIn(s: State, i: nat, w: World): (t: State)
    requires i < |s.jobs|
    ensures |t.jobs| == |s.jobs|
  {
    PollJob(s, i, w.jobExit(s.jobs[i].id), w.conversion(s.jobs[i].id))
  }

  function CheckTaskIn(s: State, i: nat, w: World): (t: State)
    requires i < |s.tasks|
    ensures |t.tasks| == |s.tasks|
  {
    var t := PollTask(s, i, w.taskExit(s.tasks[i].id));
    if TaskExits(s, i, w) then StartQueuedIn(t, w) else t
  }

  /** The jobs from position i on, and whether one of them has finished. */
  function PollJobs(s: State, i: nat, w: World): (r: (State, bool))
    requires i <= |s.jobs|
    ensures |r.0.jobs| == |s.jobs|
    decreases |s.jobs| - i
  {
    if i == |s.jobs| then (s, false)
    else
      var (t, finished) := PollJobs(CheckJobIn(s, i, w), i + 1, w);
      (t, finished || JobExits(s, i, w))
  }

  function PollTasks(s: State, i: nat, w: World): (t: State)
    requires i <= |s.tasks|
    ensures |t.tasks| == |s.tasks|
    decreases |s.tasks| - i
  {
    if i == |s.tasks| then s else PollTasks(CheckTaskIn(s, i, w), i + 1, w)
  }

  function Poll(s: State, w: World): State {
    var (t, finished) := PollJobs(s, 0, w);
    var u := if finished then StartQueuedIn(StartNextIn(t, w), w) else t;
    PollTasks(u, 0, w)
  }

  /** Identifiers drawn for conversions are new, and never drawn twice. */
  predicate FreshConversions(s: State, i: nat, w: World) {
    && (forall k :: i <= k < |s.jobs| && w.conversion(s.jobs[k].id).Some? ==>
         FindTask(s.tasks, w.conversion(s.jobs[k].id).value.request.id).None?)
    && (forall k, l :: i <= k < l < |s.jobs| && w.conversion(s.jobs[k].id).Some? && w.conversion(s.jobs[l].id).Some? ==>
         w.conversion(s.jobs[k].id).value.request.id != w.conversion(s.jobs[l].id).value.request.id)
  }

  predicate PollAction(a: Action) {
    a.CheckJob? || a.CheckTask? || a.StartNext? || a.StartQueued?
  }

  predicate PollRun(s: State, actions: seq<Action>, t: State) {
    (forall a <- actions :: PollAction(a)) && RunEnabled(s, actions) && Run(s, actions) == t
  }

  lemma {:induction false} RunOn(s: State, a: seq<Action>, b: seq<Action>)
    requires RunEnabled(s, a) && RunEnabled(Run(s, a), b)
    ensures RunEnabled(s, a + b) && Run(s, a + b) == Run(Run(s, a), b)
    decreases |a|
  {
    hide Apply, Enabled;
    if a == [] {
      assert a + b == b;
    } else {
      RunOn(Apply(s, a[0]), a[1..], b);
      assert (a + b)[1..] == a[1..] + b;
    }
  }

  lemma PollRunOn(s: State, a: seq<Action>, t: State, b: seq<Action>, u: State)
    requires PollRun(s, a, t) && PollRun(t, b, u)
    ensures PollRun(s, a + b, u)
  {
    hide Run, RunEnabled, PollAction;
    RunOn(s, a, b);
  }

  lemma OneStep(s: State, a: Action)
    requires PollAction(a) && Enabled(s, a)
    ensures PollRun(s, [a], Apply(s, a))
  {
    hide Enabled, Apply;
    var actions, t := [a], Apply(s, a);
    assert actions[0] == a && actions[1..] == [];
    assert RunEnabled(t, []) && Run(t, []) == t;
    assert RunEnabled(s, actions) && Run(s, actions) == t;
  }

  lemma NoStep(s: State)
    ensures PollRun(s, [], s)
  {
  }

  lemma StartNextRun(s: State, w: World) returns (actions: seq<Action>)
    ensures PollRun(s, actions, StartNextIn(s, w))
  {
    hide TryStartNextPending, PollRun;
    match Oldest(s.jobs)
    case None => actions := []; NoStep(s);
    case Some(i) => actions := [StartNext(w.jobLaunch(s.jobs[i].id))]; OneStep(s, actions[0]);
  }

  lemma StartQueuedRun(s: State, w: World) returns (actions: seq<Action>)
    ensures PollRun(s, actions, StartQueuedIn(s, w))
  {
    hide TryStartQueuedTasks, PollRun;
    match FirstQueued(s.tasks)
    case None => actions := []; NoStep(s);
    case Some(i) => actions := [StartQueued(w.taskStarts(s.tasks[i].id))]; OneStep(s, actions[0]);
  }

  lemma FindAdded(tasks: seq<Task>, task: Task, id: Id)
    requires FindTask(tasks, id).None? && task.id != id
    ensures FindTask(tasks + [task], id).None?
  {
    assert (tasks + [task])[..|tasks|] == tasks;
  }

  /** A check adds at most the conversion, and leaves the jobs' names. */
  lemma CheckKeepsFresh(s: State, i: nat, w: World)
    requires i < |s.jobs| && FreshConversions(s, i, w)
    ensures FreshConversions(CheckJobIn(s, i, w), i + 1, w)
  {
    hide FindTask, StartPipelineTask;
    var t := CheckJobIn(s, i, w);
    var exit, conversion := w.jobExit(s.jobs[i].id), w.conversion(s.jobs[i].id);
    PollJobSplits(s, i, exit, conversion);
    if JobPolled(s, i) && exit == Some(0) && conversion.Some? {
      var r := conversion.value.request;
      StartTaskAdds(PollJob(s, i, exit, None), r, conversion.value.starts);
      forall k | i < k < |s.jobs| && w.conversion(s.jobs[k].id).Some?
        ensures FindTask(t.tasks, w.conversion(s.jobs[k].id).value.request.id).None?
      {
        FindAdded(s.tasks, t.tasks[|s.tasks|], w.conversion(s.jobs[k].id).value.request.id);
      }
      assert forall k :: 0 <= k < |s.jobs| ==> t.jobs[k].id == s.jobs[k].id;
    } else {
      assert t.tasks == s.tasks && forall k :: 0 <= k < |s.jobs| ==> t.jobs[k].id == s.jobs[k].id;
    }
  }

  lemma {:induction false} PollJobsRun(s: State, i: nat, w: World) returns (actions: seq<Action>)
    requires i <= |s.jobs| && FreshConversions(s, i, w)
    ensures PollRun(s, actions, PollJobs(s, i, w).0)
    decreases |s.jobs| - i
  {
    hide PollRun, PollJob;
    if i == |s.jobs| {
      actions := [];
      NoStep(s);
    } else {
      var t := CheckJobIn(s, i, w);
      var a := CheckJob(i, w.jobExit(s.jobs[i].id), w.conversion(s.jobs[i].id));
      OneStep(s, a);
      CheckKeepsFresh(s, i, w);
      var more := PollJobsRun(t, i + 1, w);
      actions := [a] + more;
      PollRunOn(s, [a], t, more, PollJobs(t, i + 1, w).0);
    }
  }

  lemma {:induction false} PollTasksRun(s: State, i: nat, w: World) returns (actions: seq<Action>)
    requires i <= |s.tasks|
    ensures PollRun(s, actions, PollTasks(s, i, w))
    decreases |s.tasks| - i
  {
    hide PollRun, PollTask, StartQueuedIn;
    if i == |s.tasks| {
      actions := [];
      NoStep(s);
    } else {
      var a := CheckTask(i, w.taskExit(s.tasks[i].id));
      var t := PollTask(s, i, w.taskExit(s.tasks[i].id));
      var u := CheckTaskIn(s, i, w);
      OneStep(s, a);
      var next := [];
      if TaskExits(s, i, w) {
        next := StartQueuedRun(t, w);
      } else {
        NoStep(t);
      }
      PollRunOn(s, [a], t, next, u);
      var more := PollTasksRun(u, i + 1, w);
      PollRunOn(s, [a] + next, u, more, PollTasks(u, i + 1, w));
      actions := [a] + next + more;
    }
  }

  /** A whole pass is a run of single steps, so all that holds of runs holds of it and within it. */
  lemma PollIsRun(s: State, w: World) returns (actions: seq<Action>)
    requires FreshConversions(s, 0, w)
    ensures PollRun(s, actions, Poll(s, w))
  {
    hide PollRun, PollJobs, PollTasks, StartNextIn, StartQueuedIn;
    var t := PollJobs(s, 0, w).0;
    actions := PollJobsRun(s, 0, w);
    var u := t;
    if PollJobs(s, 0, w).1 {
      var a := StartNextRun(t, w);
      var v := StartNextIn(t, w);
      PollRunOn(s, actions, t, a, v);
      var b := StartQueuedRun(v, w);
      u := StartQueuedIn(v, w);
      PollRunOn(s, actions + a, v, b, u);
      actions := actions + a + b;
    }
    var c := PollTasksRun(u, 0, w);
    PollRunOn(s, actions, u, c, PollTasks(u, 0, w));
    actions := actions + c;
  }

  lemma PollSafe(s: State, w: World)
    requires Consistent(s) && FreshConversions(s, 0, w)
    ensures Consistent(Poll(s, w)) && Evolves(s, Poll(s, w))
  {
    hide Consistent, Evolves, Poll;
    var actions := PollIsRun(s, w);
    RunSafe(s, actions);
  }

  // ----- What a pass settles

  lemma CheckJobRecords(s: State, i: nat, w: World, k: nat)
    requires Consistent(s) && i < |s.jobs| && k < |s.jobs|
    ensures var t := CheckJobIn(s, i, w);
            && t.jobs[k] == (if k == i && JobExits(s, i, w) then FinishedJob(s.jobs[i], w.jobExit(s.jobs[i].id).value) else s.jobs[k])
            && (k != i ==> (JobPolled(t, k) <==> JobPolled(s, k)))
  {
    hide StartPipelineTask, TasksConsistent, JobsOnDisk, TasksOnDisk;
    var exit, conversion := w.jobExit(s.jobs[i].id), w.conversion(s.jobs[i].id);
    PollJobSplits(s, i, exit, conversion);
    if JobPolled(s, i) && exit == Some(0) && conversion.Some? {
      StartTaskAdds(PollJob(s, i, exit, None), conversion.value.request, conversion.value.starts);
    }
  }

  /** The job loop settles exactly the jobs whose process has exited. */
  lemma {:induction false} PollJobsRecords(s: State, i: nat, w: World, k: nat)
    requires Consistent(s) && FreshConversions(s, i, w) && i <= |s.jobs| && k < |s.jobs|
    ensures PollJobs(s, i, w).0.jobs[k]
         == if i <= k && JobExits(s, k, w) then FinishedJob(s.jobs[k], w.jobExit(s.jobs[k].id).value) else s.jobs[k]
    decreases |s.jobs| - i
  {
    hide Consistent, CheckJobIn, InTurn, FreshConversions;
    if i < |s.jobs| {
      var t := CheckJobIn(s, i, w);
      CheckJobRecords(s, i, w, k);
      CheckIsSafe(s, i, w);
      CheckKeepsFresh(s, i, w);
      PollJobsRecords(t, i + 1, w, k);
    }
  }

  lemma CheckIsSafe(s: State, i: nat, w: World)
    requires Consistent(s) && i < |s.jobs| && FreshConversions(s, i, w)
    ensures Safe(s, CheckJobIn(s, i, w))
  {
    hide Consistent, Safe, PollJob;
    PollJobSafe(s, i, w.jobExit(s.jobs[i].id), w.conversion(s.jobs[i].id));
  }

  lemma CheckTaskSafe(s: State, i: nat, w: World)
    requires Consistent(s) && i < |s.tasks|
    ensures Consistent(CheckTaskIn(s, i, w)) && Evolves(s, CheckTaskIn(s, i, w))
  {
    hide Consistent, Evolves, PollTask, TryStartQueuedTasks, InTurn;
    var t := PollTask(s, i, w.taskExit(s.tasks[i].id));
    PollTaskSafe(s, i, w.taskExit(s.tasks[i].id));
    if TaskExits(s, i, w) && FirstQueued(t.tasks).Some? {
      var u := StartQueuedIn(t, w);
      StartQueuedSafe(t, w.taskStarts(t.tasks[FirstQueued(t.tasks).value].id));
      EvolvesOn(s, t, u);
    }
  }

  lemma {:induction false} PollTasksSafe(s: State, i: nat, w: World)
    requires Consistent(s) && i <= |s.tasks|
    ensures Consistent(PollTasks(s, i, w)) && Evolves(s, PollTasks(s, i, w))
    decreases |s.tasks| - i
  {
    hide Consistent, Evolves, CheckTaskIn;
    if i == |s.tasks| {
      StaysEvolves(s);
    } else {
      var t := CheckTaskIn(s, i, w);
      CheckTaskSafe(s, i, w);
      PollTasksSafe(t, i + 1, w);
      EvolvesOn(s, t, PollTasks(t, i + 1, w));
    }
  }

  lemma StaysEvolves(s: State)
    ensures Evolves(s, s)
  {
  }

  lemma CheckTaskRecords(s: State, i: nat, w: World, k: nat)
    requires Consistent(s) && i < |s.tasks| && k < |s.tasks| && TaskPolled(s, k)
    ensures var t := CheckTaskIn(s, i, w);
            && (k == i && TaskExits(s, i, w) ==> t.tasks[k] == FinishedTask(s.tasks[k], w.taskExit(s.tasks[k].id).value))
            && (k != i || !TaskExits(s, i, w) ==> t.tasks[k] == s.tasks[k] && TaskPolled(t, k))
  {
    hide JobsConsistent, JobsOnDisk, TasksOnDisk, TrainingRunning, GpuTaskRunning;
  }

  /** A task that runs when its turn comes ends with what its process reports, or goes on as it is. */
  lemma {:induction false} PollTasksRecords(s: State, i: nat, w: World, k: nat)
    requires Consistent(s) && i <= k < |s.tasks| && TaskPolled(s, k)
    ensures PollTasks(s, i, w).tasks[k]
         == if TaskExits(s, k, w) then FinishedTask(s.tasks[k], w.taskExit(s.tasks[k].id).value) else s.tasks[k]
    decreases |s.tasks| - i
  {
    hide Consistent, CheckTaskIn, TaskPolled;
    var t := CheckTaskIn(s, i, w);
    CheckTaskRecords(s, i, w, k);
    CheckTaskSafe(s, i, w);
    if i < k {
      PollTasksRecords(t, i + 1, w, k);
    } else {
      PollTasksPast(t, i + 1, w, k);
    }
  }

  /** Positions the loop has passed keep what is settled and what still runs. */
  lemma {:induction false} PollTasksPast(s: State, i: nat, w: World, k: nat)
    requires Consistent(s) && k < i <= |s.tasks| && (TaskDone(s.tasks[k].status) || TaskPolled(s, k))
    ensures PollTasks(s, i, w).tasks[k] == s.tasks[k]
    decreases |s.tasks| - i
  {
    hide Consistent, CheckTaskIn, TaskPolled;
    if i < |s.tasks| {
      var t := CheckTaskIn(s, i, w);
      CheckTaskSafe(s, i, w);
      if !TaskDone(s.tasks[k].status) {
        CheckTaskRecords(s, i, w, k);
      }
      PollTasksPast(t, i + 1, w, k);
    }
  }

  lemma StartsKeepJobs(s: State, w: World, k: nat)
    requires k < |s.jobs| && !Waiting(s.jobs[k])
    ensures var t := StartQueuedIn(StartNextIn(s, w), w);
            |t.jobs| == |s.jobs| && t.jobs[k] == s.jobs[k]
  {
    hide TrainingRunning, GpuTaskRunning;
  }

  lemma {:induction false} PollTasksKeepJobs(s: State, i: nat, w: World)
    requires i <= |s.tasks|
    ensures PollTasks(s, i, w).jobs == s.jobs
    decreases |s.tasks| - i
  {
    hide TrainingRunning, GpuTaskRunning;
    if i < |s.tasks| {
      PollTasksKeepJobs(CheckTaskIn(s, i, w), i + 1, w);
    }
  }

  /** After a pass a running job is settled with its exit code if it has exited, and otherwise runs on. */
  lemma PollSettlesJobs(s: State, w: World, k: nat)
    requires Consistent(s) && FreshConversions(s, 0, w) && k < |s.jobs| && s.jobs[k].status.Running?
    ensures var job := s.jobs[k];
            && |Poll(s, w).jobs| == |s.jobs|
            && Poll(s, w).jobs[k] == (
              match w.jobExit(job.id)
              case None => job
              case Some(code) =>
                job.(status := if code == 0 then JobStatus.Completed else JobStatus.Failed, exitCode := Some(code),
                     error := if code == 0 then job.error else Some(JobError.Exited(code))))
  {
    hide PollJobs, PollTasks, StartNextIn, StartQueuedIn;
    hide TasksConsistent, JobsOnDisk, TasksOnDisk;
    var (t, finished) := PollJobs(s, 0, w);
    PollJobsRecords(s, 0, w, k);
    StartsKeepJobs(t, w, k);
    PollTasksKeepJobs(if finished then StartQueuedIn(StartNextIn(t, w), w) else t, 0, w);
  }

  lemma {:induction false} PollJobsKeepTasks(s: State, i: nat, w: World, k: nat)
    requires i <= |s.jobs| && k < |s.tasks| && TaskPolled(s, k)
    ensures var t := PollJobs(s, i, w).0;
            |s.tasks| <= |t.tasks| && t.tasks[k] == s.tasks[k] && TaskPolled(t, k)
    decreases |s.jobs| - i
  {
    hide StartPipelineTask, CheckJobIn;
    if i < |s.jobs| {
      var t := CheckJobIn(s, i, w);
      CheckJobKeepsTasks(s, i, w, k);
      PollJobsKeepTasks(t, i + 1, w, k);
    }
  }

  lemma CheckJobKeepsTasks(s: State, i: nat, w: World, k: nat)
    requires i < |s.jobs| && k < |s.tasks| && TaskPolled(s, k)
    ensures var t := CheckJobIn(s, i, w);
            |s.tasks| <= |t.tasks| && t.tasks[k] == s.tasks[k] && TaskPolled(t, k)
  {
    hide StartPipelineTask, TrainingRunning;
    var exit, conversion := w.jobExit(s.jobs[i].id), w.conversion(s.jobs[i].id);
    PollJobSplits(s, i, exit, conversion);
    if JobPolled(s, i) && exit == Some(0) && conversion.Some? {
      StartTaskAdds(PollJob(s, i, exit, None), conversion.value.request, conversion.value.starts);
    }
  }

  lemma StartsKeepTasks(s: State, w: World, k: nat)
    requires k < |s.tasks| && TaskPolled(s, k)
    ensures var t := StartQueuedIn(StartNextIn(s, w), w);
            |t.tasks| == |s.tasks| && t.tasks[k] == s.tasks[k] && TaskPolled(t, k)
  {
    hide TrainingRunning, GpuTaskRunning;
  }

  lemma PollTasksStartConsistent(s: State, w: World)
    requires Consistent(s) && FreshConversions(s, 0, w)
    ensures Consistent(PollJobs(s, 0, w).0) && Consistent(StartQueuedIn(StartNextIn(PollJobs(s, 0, w).0, w), w))
  {
    hide Consistent, PollJobs, Evolves, InTurn, TryStartNextPending, TryStartQueuedTasks;
    var a := PollJobsRun(s, 0, w);
    RunSafe(s, a);
    var t := PollJobs(s, 0, w).0;
    var b := StartNextRun(t, w);
    RunSafe(t, b);
    var u := StartNextIn(t, w);
    var c := StartQueuedRun(u, w);
    RunSafe(u, c);
  }

  /** The same for tasks. */
  lemma PollSettlesTasks(s: State, w: World, k: nat)
    requires Consistent(s) && FreshConversions(s, 0, w) && k < |s.tasks| && s.tasks[k].status.Running?
    ensures var task := s.tasks[k];
            && |s.tasks| <= |Poll(s, w).tasks|
            && Poll(s, w).tasks[k] == (
              match w.taskExit(task.id)
              case None => task
              case Some(code) =>
                task.(status := if code == 0 then TaskStatus.Completed else TaskStatus.Failed, exitCode := Some(code),
                      error := if code == 0 then task.error else Some(TaskError.Exited(code))))
  {
    hide PollJobs, PollTasks, StartNextIn, StartQueuedIn, Consistent;
    RunningIsPolled(s, k);
    var (t, finished) := PollJobs(s, 0, w);
    PollTasksStartConsistent(s, w);
    PollJobsKeepTasks(s, 0, w, k);
    StartsKeepTasks(t, w, k);
    PollTasksRecords(if finished then StartQueuedIn(StartNextIn(t, w), w) else t, 0, w, k);
  }

  lemma RunningIsPolled(s: State, k: nat)
    requires Consistent(s) && k < |s.tasks| && s.tasks[k].status.Running?
    ensures TaskPolled(s, k)
  {
  }
}
