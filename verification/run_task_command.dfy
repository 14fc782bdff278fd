/**
 * RunTaskCommand: the `tenside:runtask` console command the runner spawns.
 * It first tries to fork into the background; the process that goes on
 * looks the task up and hands it to the task runner, logging to
 * `<log dir>/task-<id>.log`.
 */
module RunTaskCommand {
  import opened Wrappers
  import opened Errors
  import Text
  import TaskRunner

  /** The console name of the command; the controller spawns exactly this name. */
  const Name: string := "tenside:runtask"

  /**
   * `fork()`: `true` tells the caller to exit (this is the parent of a
   * successful fork), `false` to go on in this process. `pid` is what
   * `pcntl_fork()` returns when it gets called.
   */
  function Fork(forkingAvailable: bool, pcntlEnabled: bool, pid: int): (r: Result<bool, Thrown>)
    ensures !forkingAvailable || !pcntlEnabled ==> r == Ok(false)
    ensures r.Err? <==> forkingAvailable && pcntlEnabled && pid == -1
    ensures r.Err? ==> r.error == Thrown(Runtime, "pcntl_fork() returned -1.")
    ensures r == Ok(true) <==> forkingAvailable && pcntlEnabled && pid != -1 && pid != 0
  {
    if !forkingAvailable then Ok(false)
    else if !pcntlEnabled then Ok(false)
    else if pid == -1 then Err(Thrown(Runtime, "pcntl_fork() returned -1."))
    else if pid != 0 then Ok(true)
    else Ok(false)
  }

  /** The log file of a task run: `task-<id>.log` in the kernel's log directory. */
  function LogFile(logDir: string, taskId: string): (p: string)
    ensures Text.StartsWith(p, logDir + "/")
    ensures Text.EndsWith(p, ".log")
  {
    logDir + "/" + "task-" + taskId + ".log"
  }

  /** The log file's base name without its extension is `task-<id>`, whatever the directory. */
  lemma LogFileNamesTask(logDir: string, taskId: string)
    requires '/' !in taskId
    ensures Text.Basename(LogFile(logDir, taskId), ".log") == "task-" + taskId
  {
    var name := "task-" + taskId + ".log";
    assert '/' !in name by {
      assert name == "task-" + taskId + ".log";
      forall i | 0 <= i < |name|
        ensures name[i] != '/'
      {
        if 5 <= i < 5 + |taskId| {
          assert name[i] == taskId[i - 5];
        }
      }
    }
    assert LogFile(logDir, taskId) == logDir + "/" + name;
    Text.BasenameOfJoin(logDir, name, ".log");
    assert name[..|name| - 4] == "task-" + taskId;
  }

  /**
   * `execute`: the exit code of running the task under `taskId`; `runner`
   * answers whether the task runner succeeded for a task and log file.
   */
  function Execute(
    l: TaskRunner.TaskList, taskId: string, logDir: string,
    runner: (TaskRunner.Task, string) -> bool): (r: Result<int, Thrown>)
    ensures r.Err? <==> taskId !in TaskRunner.Ids(l)
    ensures r.Err? ==> r.error == Thrown(InvalidArgument, "Task not found: " + taskId)
    ensures r.Ok? ==> r.value in {0, 1}
    ensures r.Ok? ==> (r.value == 0 <==> runner(TaskRunner.Find(l, taskId).value, LogFile(logDir, taskId)))
  {
    match TaskRunner.Find(l, taskId)
    case None => Err(Thrown(InvalidArgument, "Task not found: " + taskId))
    case Some(task) => Ok(if runner(task, LogFile(logDir, task.id)) then 0 else 1)
  }

  /** `run`: exit at once with 0 after a successful fork, otherwise execute here. */
  function Run(
    l: TaskRunner.TaskList, taskId: string, logDir: string,
    runner: (TaskRunner.Task, string) -> bool,
    forkingAvailable: bool, pcntlEnabled: bool, pid: int): (r: Result<int, Thrown>)
    ensures Fork(forkingAvailable, pcntlEnabled, pid) == Ok(true) ==> r == Ok(0)
    ensures Fork(forkingAvailable, pcntlEnabled, pid) == Ok(false) ==> r == Execute(l, taskId, logDir, runner)
    ensures Fork(forkingAvailable, pcntlEnabled, pid).Err? ==> r.Err? && r.error.cls == Runtime
  {
    match Fork(forkingAvailable, pcntlEnabled, pid)
    case Err(e) => Err(e)
    case Ok(parent) => if parent then Ok(0) else Execute(l, taskId, logDir, runner)
  }

  /**
   * The command line the controller spawns for a task names this command,
   * and its task argument leads this command to that very task.
   */
  lemma SpawnedCommandRunsTask(l: TaskRunner.TaskList, i: int, cli: string, logDir: string,
                               runner: (TaskRunner.Task, string) -> bool)
    requires TaskRunner.UniqueIds(l) && 0 <= i < |l.tasks|
    ensures var c := TaskRunner.CommandLine(cli, l.tasks[i].id);
      && c[1] == Name
      && Execute(l, c[2], logDir, runner) == Ok(if runner(l.tasks[i], LogFile(logDir, l.tasks[i].id)) then 0 else 1)
  {
    TaskRunner.FindUnique(l, i);
  }
}
