/**
 * TaskRunnerController: the HTTP front end of the task queue. Each action is
 * a function from the task list (and the collaborators' answers, given as
 * inputs) to an `Outcome`: the reply or the exception thrown, the task list
 * afterwards, and the side effects performed on the lock, the process
 * spawner and the task's assets, in order.
 */
module TaskRunner {
  import opened Wrappers
  import opened Php
  import opened Errors
  import Dict
  import Text

  /**
   * A task's state. The bundle only compares against PENDING and RUNNING; the
   * remaining states belong to the task class of tenside/core.
   */
  datatype Status = Pending | Running | Other(name: string)

  datatype Task = Task(id: string, taskType: string, status: Status, createdAt: string, output: string)

  /** The persisted task list, in insertion order. */
  datatype TaskList = TaskList(tasks: seq<Task>)

  /** `getIds()`: the ids of all tasks, in insertion order. */
  function Ids(l: TaskList): (ids: seq<string>)
    ensures |ids| == |l.tasks|
    ensures forall i | 0 <= i < |l.tasks| :: ids[i] == l.tasks[i].id
  {
    seq(|l.tasks|, i requires 0 <= i < |l.tasks| => l.tasks[i].id)
  }

  predicate UniqueIds(l: TaskList)
  {
    forall i, j | 0 <= i < j < |l.tasks| :: l.tasks[i].id != l.tasks[j].id
  }

  /** The first task of `ts` carrying `id`. */
  function FindIn(ts: seq<Task>, id: string): (r: Option<Task>)
    ensures r.Some? ==> r.value.id == id && r.value in ts
    ensures r.None? ==> forall j | 0 <= j < |ts| :: ts[j].id != id
  {
    if |ts| == 0 then None
    else if ts[0].id == id then Some(ts[0])
    else FindIn(ts[1..], id)
  }

  /** `getTask($id)`: the first task carrying `id`, or null. */
  function Find(l: TaskList, id: string): (r: Option<Task>)
    ensures r.None? <==> id !in Ids(l)
    ensures r.Some? ==> r.value.id == id && r.value in l.tasks
  {
    var r := FindIn(l.tasks, id);
    assert r.Some? ==> id in Ids(l) by {
      if r.Some? {
        var j :| 0 <= j < |l.tasks| && l.tasks[j] == r.value;
        assert Ids(l)[j] == id;
      }
    }
    r
  }

  /** With unique ids, the task found under a task's id is that task. */
  lemma {:induction false} FindUnique(l: TaskList, i: int)
    requires UniqueIds(l) && 0 <= i < |l.tasks|
    ensures Find(l, l.tasks[i].id) == Some(l.tasks[i])
    decreases i
  {
    if i > 0 {
      var rest := TaskList(l.tasks[1..]);
      assert l.tasks[0].id != l.tasks[i].id;
      assert rest.tasks[i - 1] == l.tasks[i];
      FindUnique(rest, i - 1);
    }
  }

  /** A task appended under an id the list does not hold yet is found under that id. */
  lemma {:induction false} FindAppendedFresh(ts: seq<Task>, t: Task)
    requires forall j | 0 <= j < |ts| :: ts[j].id != t.id
    ensures FindIn(ts + [t], t.id) == Some(t)
  {
    if |ts| > 0 {
      assert (ts + [t])[1..] == ts[1..] + [t];
      FindAppendedFresh(ts[1..], t);
    }
  }

  /**
   * The task's output from a byte offset (`Task::getOutput`, not part of
   * this model): the whole output without an offset, the suffix from the
   * offset otherwise, empty past the end. A negative offset counts as 0.
   */
  function OutputFrom(output: string, offset: Option<int>): (r: string)
    ensures offset.None? ==> r == output
    ensures offset.Some? && 0 <= offset.value <= |output| ==> r == output[offset.value..]
    ensures offset.Some? && offset.value >= |output| ==> r == ""
    ensures |r| <= |output| && r == output[|output| - |r|..]
  {
    match offset
    case None => output
    case Some(n) => if n <= 0 then output else if n >= |output| then "" else output[n..]
  }

  /** `convertTaskToArray`: the JSON view of a task. */
  datatype TaskView = TaskView(id: string, status: Status, taskType: string, createdAt: string, output: string)

  /** The view keeps the task's id, status, type and creation date, and shows a suffix of its output. */
  function View(t: Task, offset: Option<int>): (v: TaskView)
    ensures v.id == t.id && v.status == t.status && v.taskType == t.taskType && v.createdAt == t.createdAt
    ensures Text.EndsWith(t.output, v.output)
    ensures offset.None? ==> v.output == t.output
  {
    TaskView(t.id, t.status, t.taskType, t.createdAt, OutputFrom(t.output, offset))
  }

  /** A JSON reply: a status with a list of tasks under `key`, or a bare status. */
  datatype Reply =
    | TaskJson(httpStatus: int, status: string, key: string, tasks: Dict.Dict<Key, TaskView>)
    | StatusJson(httpStatus: int, status: string)

  /** `createJsonResponse`: the tasks go under 'tasks' for a collection and under 'task' otherwise. */
  function CreateJsonResponse(tasks: Dict.Dict<Key, TaskView>, isCollection: bool, status: string, httpStatus: int): (r: Reply)
    ensures r.TaskJson? && r.tasks == tasks && r.status == status && r.httpStatus == httpStatus
    ensures r.key == "tasks" <==> isCollection
    ensures r.key == "task" <==> !isCollection
  {
    TaskJson(httpStatus, status, if isCollection then "tasks" else "task", tasks)
  }

  /** The reply holding one task, as the single-task actions build it. */
  function SingleTask(view: TaskView, httpStatus: int): Reply
  {
    CreateJsonResponse([(IntKey(0), view)], false, "OK", httpStatus)
  }

  datatype Effect =
    | AcquireLock
    | ReleaseLock
    | Spawn(commandLine: seq<string>)
    | RemoveAssets(taskId: string)

  datatype Outcome = Outcome(result: Result<Reply, Thrown>, tasks: TaskList, effects: seq<Effect>)

  /** The views of the tasks under `ids`, keyed by id, in the order of `ids`. */
  function Listing(l: TaskList, ids: seq<string>): Dict.Dict<Key, TaskView>
    requires forall i | 0 <= i < |ids| :: ids[i] in Ids(l)
    decreases |ids|
  {
    if |ids| == 0 then []
    else
      var id := ids[|ids| - 1];
      Dict.Set(Listing(l, ids[..|ids| - 1]), StrKey(id), View(Find(l, id).value, None))
  }

  /** `getTasksAction`: every task of the list, keyed by its id. */
  function GetTasksAction(l: TaskList): (r: Reply)
    ensures r.TaskJson? && r.httpStatus == 200 && r.status == "OK" && r.key == "tasks"
    ensures UniqueIds(l) ==> |r.tasks| == |l.tasks|
    ensures UniqueIds(l) ==> forall i | 0 <= i < |l.tasks| ::
      r.tasks[i] == (StrKey(l.tasks[i].id), View(l.tasks[i], None))
  {
    ListingOfList(l);
    CreateJsonResponse(Listing(l, Ids(l)), true, "OK", 200)
  }

  lemma ListingOfList(l: TaskList)
    ensures UniqueIds(l) ==> |Listing(l, Ids(l))| == |l.tasks|
    ensures UniqueIds(l) ==> forall i | 0 <= i < |l.tasks| ::
      Listing(l, Ids(l))[i] == (StrKey(l.tasks[i].id), View(l.tasks[i], None))
  {
    if UniqueIds(l) {
      var n := |l.tasks|;
      assert Ids(l)[..n] == Ids(l);
      assert l.tasks[..n] == l.tasks;
      ListingOfUniqueList(l, n);
      assert Listing(l, Ids(l)) == Entries(l.tasks);
    }
  }

  /** Every task keyed by its id, in list order. */
  function Entries(ts: seq<Task>): (d: Dict.Dict<Key, TaskView>)
    ensures |d| == |ts|
    ensures forall i | 0 <= i < |ts| :: d[i] == (StrKey(ts[i].id), View(ts[i], None))
  {
    seq(|ts|, i requires 0 <= i < |ts| => (StrKey(ts[i].id), View(ts[i], None)))
  }

  lemma {:induction false} ListingOfUniqueList(l: TaskList, k: nat)
    requires UniqueIds(l) && k <= |l.tasks|
    ensures Listing(l, Ids(l)[..k]) == Entries(l.tasks[..k])
  {
    if k > 0 {
      var t := l.tasks[k - 1];
      assert l.tasks[..k] == l.tasks[..k - 1] + [t];
      EntriesAppend(l.tasks[..k - 1], t);
      ListingOfUniqueList(l, k - 1);
      ListingStep(l, k);
      NotYetListed(l, k);
    }
  }

  lemma EntriesAppend(ts: seq<Task>, t: Task)
    ensures Entries(ts + [t]) == Entries(ts) + [(StrKey(t.id), View(t, None))]
  {
  }

  /** The listing of the first `k` ids sets the `k`-th task on the listing of the ones before. */
  lemma ListingStep(l: TaskList, k: nat)
    requires UniqueIds(l) && 0 < k <= |l.tasks|
    ensures Listing(l, Ids(l)[..k])
         == Dict.Set(Listing(l, Ids(l)[..k - 1]), StrKey(l.tasks[k - 1].id), View(l.tasks[k - 1], None))
  {
    var ids := Ids(l)[..k];
    assert ids[..k - 1] == Ids(l)[..k - 1];
    assert ids[k - 1] == l.tasks[k - 1].id;
    FindUnique(l, k - 1);
  }

  /** With unique ids, the `k`-th id is not yet a key among the tasks before it. */
  lemma NotYetListed(l: TaskList, k: nat)
    requires UniqueIds(l) && 0 < k <= |l.tasks|
    ensures !Dict.HasKey(Entries(l.tasks[..k - 1]), StrKey(l.tasks[k - 1].id))
  {
    var prev := Entries(l.tasks[..k - 1]);
    forall i | 0 <= i < k - 1
      ensures Dict.Keys(prev)[i] != StrKey(l.tasks[k - 1].id)
    {
      assert prev[i].0 == StrKey(l.tasks[i].id);
    }
  }

  /** `getTaskAction`: one task, its output from the 'offset' query value when there is one. */
  function GetTaskAction(l: TaskList, id: string, query: Dict.Dict<string, string>): (r: Result<Reply, Thrown>)
    ensures r.Err? <==> id !in Ids(l)
    ensures r.Err? ==> r.error == NotFoundError("No such task.")
    ensures r.Ok? ==> exists t | t in l.tasks && t.id == id ::
      r.value == SingleTask(View(t, OffsetOf(query)), 200)
  {
    match Find(l, id)
    case None => Err(NotFoundError("No such task."))
    case Some(t) => Ok(SingleTask(View(t, OffsetOf(query)), 200))
  }

  /** The output offset of a request: the 'offset' query value cast to int, or null when absent. */
  function OffsetOf(query: Dict.Dict<string, string>): (r: Option<int>)
    ensures r.Some? <==> Dict.HasKey(query, "offset")
  {
    match Dict.Get(query, "offset")
    case None => None
    case Some(raw) => Some(IntCast(raw))
  }

  /** A client that sends back the decimal offset it last saw gets the output from exactly there. */
  lemma OffsetRoundTrip(l: TaskList, id: string, n: nat)
    requires id in Ids(l)
    ensures var t := Find(l, id).value;
      GetTaskAction(l, id, [("offset", IntToString(n))]) == Ok(SingleTask(View(t, Some(n)), 200))
  {
    IntCastOfIntToString(n);
  }

  /** The list's answer to `queue($type, $metaData)`. */
  datatype QueueOutcome = Rejected(message: string) | Queued(task: Task)

  /**
   * `addTaskAction`: `content` is the raw body, `payload` its decoding and
   * `queue` the task list's queue operation.
   */
  function AddTaskAction(
    l: TaskList, content: string, payload: Dict.Dict<string, Value>,
    queue: (Value, Dict.Dict<string, Value>) -> QueueOutcome): (r: Outcome)
    ensures r.effects == []
    ensures !TruthyString(content) || !Dict.HasKey(payload, "type") ==>
      r == Outcome(Err(NotAcceptableError("Invalid payload")), l, [])
    ensures r.result.Err? ==> r.tasks == l && r.result.error.cls == Http(NotAcceptable, [])
    ensures && TruthyString(content) && Dict.HasKey(payload, "type")
            && queue(Dict.Get(payload, "type").value, payload).Rejected? ==>
              r.result == Err(NotAcceptableError(queue(Dict.Get(payload, "type").value, payload).message))
    ensures r.result.Ok? ==> exists t :: r.tasks.tasks == l.tasks + [t] && r.result.value.httpStatus == 201
  {
    if !TruthyString(content) || !Dict.HasKey(payload, "type") then
      Outcome(Err(NotAcceptableError("Invalid payload")), l, [])
    else
      match queue(Dict.Get(payload, "type").value, payload)
      case Rejected(message) => Outcome(Err(NotAcceptableError(message)), l, [])
      case Queued(t) =>
        var after := TaskList(l.tasks + [t]);
        assert Ids(after)[|l.tasks|] == t.id;
        Outcome(Ok(SingleTask(View(Find(after, t.id).value, None), 201)), after, [])
  }

  /** A successfully queued task with a fresh id is answered with exactly that task. */
  lemma AddTaskAnswersNewTask(
    l: TaskList, content: string, payload: Dict.Dict<string, Value>,
    queue: (Value, Dict.Dict<string, Value>) -> QueueOutcome, t: Task)
    requires TruthyString(content) && Dict.HasKey(payload, "type")
    requires queue(Dict.Get(payload, "type").value, payload) == Queued(t)
    requires t.id !in Ids(l)
    ensures AddTaskAction(l, content, payload, queue)
         == Outcome(Ok(SingleTask(View(t, None), 201)), TaskList(l.tasks + [t]), [])
  {
    assert forall j | 0 <= j < |l.tasks| :: l.tasks[j].id == Ids(l)[j] != t.id;
    FindAppendedFresh(l.tasks, t);
  }

  /** `ts` without the tasks carrying `id`, the others in their order. */
  function Without(ts: seq<Task>, id: string): (r: seq<Task>)
    ensures forall j | 0 <= j < |r| :: r[j].id != id
    ensures forall t | t in ts && t.id != id :: t in r
    ensures forall t | t in r :: t in ts
  {
    if |ts| == 0 then []
    else if ts[0].id == id then Without(ts[1..], id)
    else [ts[0]] + Without(ts[1..], id)
  }

  /** `TaskList::remove($id)`: the list without the task carrying `id`. */
  function Remove(l: TaskList, id: string): (r: TaskList)
    ensures id !in Ids(r)
    ensures forall t | t in l.tasks && t.id != id :: t in r.tasks
    ensures forall t | t in r.tasks :: t in l.tasks
  {
    TaskList(Without(l.tasks, id))
  }

  /** Removing one id leaves the lookup of every other id as it was. */
  lemma {:induction false} RemoveKeepsOthers(ts: seq<Task>, id: string, other: string)
    requires other != id
    ensures FindIn(Without(ts, id), other) == FindIn(ts, other)
  {
    if |ts| > 0 {
      RemoveKeepsOthers(ts[1..], id, other);
      if ts[0].id != id {
        assert ([ts[0]] + Without(ts[1..], id))[1..] == Without(ts[1..], id);
      }
    }
  }

  /** `deleteTaskAction`: refuse unknown and running tasks, otherwise drop the task and its assets. */
  function DeleteTaskAction(l: TaskList, id: string): (r: Outcome)
    ensures id !in Ids(l) ==>
      r == Outcome(Err(NotFoundError("Task id " + id + " not found")), l, [])
    ensures id in Ids(l) && Find(l, id).value.status == Running ==>
      r == Outcome(Err(NotAcceptableError("Task id " + id + " is running and can not be deleted")), l, [])
    ensures r.result.Ok? <==> id in Ids(l) && Find(l, id).value.status != Running
    ensures r.result.Ok? ==>
      && r.result.value == StatusJson(200, "OK")
      && r.effects == [RemoveAssets(id)]
      && id !in Ids(r.tasks)
      && forall other | other != id :: Find(r.tasks, other) == Find(l, other)
  {
    match Find(l, id)
    case None => Outcome(Err(NotFoundError("Task id " + id + " not found")), l, [])
    case Some(t) =>
      if t.status == Running then
        Outcome(Err(NotAcceptableError("Task id " + id + " is running and can not be deleted")), l, [])
      else
        var after := Remove(l, t.id);
        assert forall other | other != id :: Find(after, other) == Find(l, other) by {
          forall other | other != id
            ensures Find(after, other) == Find(l, other)
          {
            RemoveKeepsOthers(l.tasks, id, other);
          }
        }
        Outcome(Ok(StatusJson(200, "OK")), after, [RemoveAssets(t.id)])
  }

  /** The started worker process as observed right after `start()`. */
  datatype ProcessState = ProcessState(running: bool, exitCode: Option<int>)

  /** The worker command line: the CLI script, the run-task command, the task id and two flags. */
  function CommandLine(cli: string, taskId: string): (c: seq<string>)
    ensures |c| == 5 && c[0] == cli && c[1] == "tenside:runtask" && c[2] == taskId
    ensures c[3..] == ["-v", "--no-interaction"]
  {
    [cli, "tenside:runtask", taskId, "-v", "--no-interaction"]
  }

  /** `spawn`: the exception thrown when the started process has stopped with a non-zero code. */
  function SpawnFailure(taskId: string, p: ProcessState): (e: Option<Thrown>)
    ensures e.Some? <==> !p.running && p.exitCode.Some? && p.exitCode.value != 0
    ensures e.Some? ==> e.value.cls == Runtime
  {
    if !p.running && p.exitCode.Some? && p.exitCode.value != 0 then
      Some(Thrown(Runtime, "Spawning process task " + taskId + " resulted in exit code " + IntToString(p.exitCode.value)))
    else None
  }

  /**
   * The effects of `runAction`: with forking the lock is taken first and,
   * when a worker was spawned, released after it; without forking the lock
   * is never touched.
   */
  function RunEffects(forking: bool, spawned: Option<seq<string>>): (e: seq<Effect>)
    ensures AcquireLock in e <==> forking
    ensures (exists x | x in e :: x.Spawn?) <==> spawned.Some?
    ensures spawned.Some? ==> Spawn(spawned.value) in e
    ensures ReleaseLock in e <==> forking && spawned.Some?
    ensures forall i, j | 0 <= i < j < |e| :: !(e[i].Spawn? && e[j].Spawn?)
    ensures forall i, j | 0 <= i < j < |e| :: e[j] != AcquireLock && !e[i].ReleaseLock?
  {
    match spawned
    case None => if forking then [AcquireLock] else []
    case Some(c) =>
      var e := if forking then [AcquireLock, Spawn(c), ReleaseLock] else [Spawn(c)];
      assert Spawn(c) in e;
      e
  }

  /**
   * `runAction`: `forking` is the configuration's fork flag, `lockAcquired`
   * what `lock()` would answer, `next` what `getNext()` returns, `cli` the CLI
   * script and `process` the spawned process's state. A pending task is
   * spawned, anything else is answered as it is.
   */
  function RunAction(
    l: TaskList, forking: bool, lockAcquired: bool, next: Option<Task>,
    cli: string, process: ProcessState): (r: Outcome)
    ensures r.tasks == l
    ensures r.result == Err(NotAcceptableError("Task already running")) <==> forking && !lockAcquired
    ensures (!forking || lockAcquired) && next.None? ==> r.result == Err(NotFoundError("Task not found"))
    ensures (!forking || lockAcquired) && next.Some? && !next.value.status.Pending? ==>
      r.result == Ok(SingleTask(View(next.value, None), 200))
    ensures (!forking || lockAcquired) && next.Some? && next.value.status.Pending? ==>
      && r.result == (match SpawnFailure(next.value.id, process)
                      case Some(e) => Err(e)
                      case None => Ok(SingleTask(View(next.value, None), 200)))
    ensures r.effects == RunEffects(forking,
      if (!forking || lockAcquired) && next.Some? && next.value.status.Pending?
      then Some(CommandLine(cli, next.value.id)) else None)
  {
    if forking && !lockAcquired then Outcome(Err(NotAcceptableError("Task already running")), l, RunEffects(forking, None))
    else
      match next
      case None => Outcome(Err(NotFoundError("Task not found")), l, RunEffects(forking, None))
      case Some(t) =>
        if !t.status.Pending? then Outcome(Ok(SingleTask(View(t, None), 200)), l, RunEffects(forking, None))
        else
          var effects := RunEffects(forking, Some(CommandLine(cli, t.id)));
          match SpawnFailure(t.id, process)
          case Some(e) => Outcome(Err(e), l, effects)
          case None => Outcome(Ok(SingleTask(View(t, None), 200)), l, effects)
  }
}
