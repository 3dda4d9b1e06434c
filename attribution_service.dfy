/** The stateful half of the attribution service: the analysis task and its
    lifecycle (PENDING, then RUNNING through four checkpoints, then SUCCESS
    or FAILED), the one-result-per-task upsert, task creation, and the run
    of one task. The three tables are maps held by the service object; the
    clock is a parameter. */
module AttributionService {
  import opened Wrappers
  import opened JavaStrings
  import opened MetricTree
  import opened NodeMetricEngine
  import opened EnumParse
  import opened TaskDates
  import opened CreateTaskRequestValidation
  import opened MetricRows
  import opened AttributionResults

  /** TaskStatus. CANCELED exists but no operation assigns it. */
  datatype TaskStatus = PENDING | RUNNING | SUCCESS | FAILED | CANCELED

  /** A reading of the clock (LocalDateTime.now()). */
  type Instant = int

  /** The fields of AnalysisTask that createTask sets and nothing writes
      afterwards: identity, tree, list, threshold, period, creator and
      creation time. */
  datatype TaskSpec = TaskSpec(
    taskId: string,
    treeId: string,
    treeName: Option<string>,
    listId: Option<string>,
    listName: Option<string>,
    contributionThreshold: real,
    timeGranularity: DateGranularity,
    baselineDate: CalendarDate,
    compareDate: CalendarDate,
    creator: Option<string>,
    createTime: Option<Instant>)

  /** One row of the task table: the fixed fields of AnalysisTask and the
      ones the status marks update. */
  datatype TaskRow = TaskRow(
    spec: TaskSpec,
    status: TaskStatus,
    progress: int,
    message: Option<string>,
    startTime: Option<Instant>,
    endTime: Option<Instant>,
    updateTime: Option<Instant>)

  /** The stored tree configuration after JSON parsing: text that does not
      parse, or the root node it describes. */
  datatype TreeConfig = Malformed | Parsed(root: MetricTreeNode)

  /** The parts of an AttributionTree row the service reads. */
  datatype TreeRow = TreeRow(treeName: Option<string>, treeConfig: TreeConfig)

  /** One row of the result table (AttributionResult). */
  datatype ResultRow = ResultRow(taskId: string, resultTree: ResultNode, createTime: Option<Instant>)

  /** TaskCreateDTO. */
  datatype TaskCreated = TaskCreated(taskId: string, timeGranularity: DateGranularity,
                                     baselineDate: string, compareDate: string)

  /** The exceptions of createTask: the SystemException for an unknown tree,
      and the DateTimeParseException of a date that is no calendar date. */
  datatype CreateError = TreeNotFound(message: string) | UnparseableDate(text: string)

  const TaskMissingPrefix := "任务不存在: "
  const TreeMissingPrefix := "归因树不存在: "
  const MalformedTreeMessage := "归因树配置格式错误"
  const PendingMessage := "等待执行"
  const SuccessMessage := "归因分析完成"
  const MaxMessageLength := 200

  /** A RUNNING mark: its message and progress. */
  datatype Checkpoint = Checkpoint(message: string, progress: int)

  /** The four RUNNING marks of a run, in order. */
  const Checkpoints: seq<Checkpoint> := [
    Checkpoint("解析归因树成功", 5),
    Checkpoint("节点指标值查询完成", 30),
    Checkpoint("节点指标贡献度计算完成", 60),
    Checkpoint("完成贡献度计算", 90)]

  // ---------------------------------------------------------------------
  // The specification of a run

  /** How a run ends: with the result tree, or with the message of the
      exception that aborted it. */
  datatype Ending = Completed(result: ResultNode) | Aborted(message: Option<string>)

  /** The number of RUNNING marks a run made, and how it ended. */
  datatype RunOutcome = RunOutcome(reached: nat, ending: Ending)

  /** The period of a task: its two dates and its granularity. */
  function PeriodOf(task: TaskSpec): Period {
    Period(task.baselineDate, task.compareDate, task.timeGranularity)
  }

  /** What runAttributionTask does with an existing task: the tree, its
      configuration, the metric values, the node computation and the result
      assembly, each of which may throw; a RUNNING mark follows each stage
      from the configuration on. */
  function Attribute(task: TaskSpec, trees: map<string, TreeRow>, env: Env, order: set<string> -> seq<string>)
    : (r: RunOutcome)
    ensures r.reached <= |Checkpoints|
    ensures r.ending.Completed? <==> r.reached == |Checkpoints|
  {
    if task.treeId !in trees then RunOutcome(0, Aborted(Some(TreeMissingPrefix + task.treeId)))
    else
      match trees[task.treeId].treeConfig
      case Malformed => RunOutcome(0, Aborted(Some(MalformedTreeMessage)))
      case Parsed(root) => AttributeTree(root, PeriodOf(task), env, order)
  }

  /** The run once the tree is parsed and the first mark made. */
  function AttributeTree(root: MetricTreeNode, p: Period, env: Env, order: set<string> -> seq<string>)
    : (r: RunOutcome)
    ensures 1 <= r.reached <= |Checkpoints|
    ensures r.ending.Completed? <==> r.reached == |Checkpoints|
  {
    match FetchMetricValues(order(CollectMetricIds(root)), p, env)
    case Err(e) => RunOutcome(1, Aborted(Some(RowErrorMessage(e))))
    case Ok(values) => AttributeValues(root, values, p, env)
  }

  /** The run once the metric values are fetched and the second mark made. */
  function AttributeValues(root: MetricTreeNode, values: map<string, MetricValue>, p: Period, env: Env)
    : (r: RunOutcome)
    ensures 2 <= r.reached <= |Checkpoints|
    ensures r.ending.Completed? <==> r.reached == |Checkpoints|
  {
    match Compute(root, values, env.config.epsilon, env.ln)
    case Err(e) => RunOutcome(2, Aborted(RunErrorMessage(EngineFailure(e))))
    case Ok(nc) => AttributeComputation(nc, p, env)
  }

  /** The run once the node computation is done and the third mark made. */
  function AttributeComputation(nc: NodeComputation, p: Period, env: Env): (r: RunOutcome)
    ensures 3 <= r.reached <= |Checkpoints|
    ensures r.ending.Completed? <==> r.reached == |Checkpoints|
  {
    match AssembleResult(nc, p, env)
    case Err(e) => RunOutcome(3, Aborted(RunErrorMessage(e)))
    case Ok(result) => RunOutcome(4, Completed(result))
  }

  /** markTaskRunning's change to the row: startTime only if unset. */
  function Running(row: TaskRow, c: Checkpoint, now: Instant): TaskRow {
    row.(status := RUNNING, progress := c.progress, message := Some(c.message),
         startTime := if row.startTime.None? then Some(now) else row.startTime,
         updateTime := Some(now))
  }

  /** markTaskSuccess's change. */
  function Succeeded(row: TaskRow, now: Instant): TaskRow {
    row.(status := SUCCESS, progress := 100, message := Some(SuccessMessage),
         endTime := Some(now), updateTime := Some(now))
  }

  /** markTaskFailed's change: the message cut to its first 200 characters. */
  function Failed(row: TaskRow, message: Option<string>, now: Instant): TaskRow {
    row.(status := FAILED, progress := 0, message := Left(message, MaxMessageLength),
         endTime := Some(now), updateTime := Some(now))
  }

  function LastOr(row: TaskRow, rows: seq<TaskRow>): TaskRow {
    if rows == [] then row else rows[|rows| - 1]
  }

  /** The rows written by the first k RUNNING marks; mark i reads the clock
      as clock(i). */
  function Marks(row: TaskRow, k: nat, clock: nat -> Instant): (r: seq<TaskRow>)
    requires k <= |Checkpoints|
    ensures |r| == k
  {
    if k == 0 then []
    else
      var prev := Marks(row, k - 1, clock);
      prev + [Running(LastOr(row, prev), Checkpoints[k - 1], clock(k - 1))]
  }

  /** Every row a run writes to the task table, in order: the RUNNING marks,
      then the success mark (at clock(4)) or the failure mark (at the clock
      reading after the last RUNNING mark). */
  function History(row: TaskRow, outcome: RunOutcome, clock: nat -> Instant): (h: seq<TaskRow>)
    requires outcome.reached <= |Checkpoints|
    ensures |h| == outcome.reached + 1
  {
    var marks := Marks(row, outcome.reached, clock);
    var last := LastOr(row, marks);
    match outcome.ending
    case Completed(_) => marks + [Succeeded(last, clock(|Checkpoints|))]
    case Aborted(m) => marks + [Failed(last, m, clock(outcome.reached))]
  }

  /** persistResult's row: an existing result keeps its creation time and
      gets the new tree; otherwise a new row is created now. */
  function Upserted(results: map<string, ResultRow>, taskId: string, tree: ResultNode, now: Instant): ResultRow {
    if taskId in results then results[taskId].(resultTree := tree) else ResultRow(taskId, tree, Some(now))
  }

  function Progresses(h: seq<TaskRow>): (r: seq<int>)
    ensures |r| == |h| && forall i :: 0 <= i < |h| ==> r[i] == h[i].progress
  {
    seq(|h|, i requires 0 <= i < |h| => h[i].progress)
  }

  function Statuses(h: seq<TaskRow>): (r: seq<TaskStatus>)
    ensures |r| == |h| && forall i :: 0 <= i < |h| ==> r[i] == h[i].status
  {
    seq(|h|, i requires 0 <= i < |h| => h[i].status)
  }

  /** The start time every mark leaves: the row's own, or the first mark's
      clock reading when the row had none. */
  function StartedAt(row: TaskRow, clock: nat -> Instant): Option<Instant> {
    if row.startTime.None? then Some(clock(0)) else row.startTime
  }

  /** Mark i is RUNNING with the i-th checkpoint's progress and message; the
      start time is set by the first mark only; nothing else but the update
      time changes. */
  lemma {:induction false} MarksSpec(row: TaskRow, k: nat, clock: nat -> Instant)
    requires k <= |Checkpoints|
    ensures forall i :: 0 <= i < k ==>
              var m := Marks(row, k, clock)[i];
              && m.status == RUNNING && m.progress == Checkpoints[i].progress
              && m.message == Some(Checkpoints[i].message)
              && m.startTime == StartedAt(row, clock) && m.updateTime == Some(clock(i))
              && m == row.(status := m.status, progress := m.progress, message := m.message,
                           startTime := m.startTime, updateTime := m.updateTime)
  {
    if k > 0 {
      MarksSpec(row, k - 1, clock);
      var prev := Marks(row, k - 1, clock);
      assert Marks(row, k, clock) == prev + [Running(LastOr(row, prev), Checkpoints[k - 1], clock(k - 1))];
      assert forall i :: 0 <= i < k - 1 ==> Marks(row, k, clock)[i] == prev[i];
    }
  }

  /** A successful run writes progress 5, 30, 60, 90 while RUNNING and then
      100 with SUCCESS, the success message and the end time. */
  lemma SuccessfulRun(row: TaskRow, outcome: RunOutcome, clock: nat -> Instant)
    requires outcome.reached <= |Checkpoints| && outcome.ending.Completed?
    requires outcome.reached == |Checkpoints|
    ensures Progresses(History(row, outcome, clock)) == [5, 30, 60, 90, 100]
    ensures Statuses(History(row, outcome, clock)) == [RUNNING, RUNNING, RUNNING, RUNNING, SUCCESS]
    ensures var last := History(row, outcome, clock)[4];
            && last.message == Some(SuccessMessage) && last.endTime == Some(clock(4))
            && last.startTime == StartedAt(row, clock)
  {
    MarksSpec(row, 4, clock);
    var h := History(row, outcome, clock);
    assert h[..4] == Marks(row, 4, clock);
    assert h[4] == Succeeded(Marks(row, 4, clock)[3], clock(4));
  }

  /** A failed run writes the RUNNING marks it reached, then progress 0 with
      FAILED, the end time and at most the first 200 characters of the
      exception message. */
  lemma FailedRun(row: TaskRow, outcome: RunOutcome, clock: nat -> Instant)
    requires outcome.reached < |Checkpoints| && outcome.ending.Aborted?
    ensures var k := outcome.reached;
            Progresses(History(row, outcome, clock)) == [5, 30, 60, 90][..k] + [0]
    ensures var k := outcome.reached;
            Statuses(History(row, outcome, clock)) == seq(k, _ => RUNNING) + [FAILED]
    ensures var last := History(row, outcome, clock)[outcome.reached];
            && last.message == Left(outcome.ending.message, MaxMessageLength)
            && (last.message.Some? ==> |last.message.value| <= MaxMessageLength
                                       && last.message.value <= outcome.ending.message.value)
            && last.endTime == Some(clock(outcome.reached))
            && last.startTime == (if outcome.reached == 0 then row.startTime else StartedAt(row, clock))
  {
    var k := outcome.reached;
    MarksSpec(row, k, clock);
    var h := History(row, outcome, clock);
    assert h[..k] == Marks(row, k, clock);
    assert h[k] == Failed(LastOr(row, Marks(row, k, clock)), outcome.ending.message, clock(k));
    assert Progresses(h) == [5, 30, 60, 90][..k] + [0] by {
      forall i | 0 <= i < k ensures Progresses(h)[i] == ([5, 30, 60, 90][..k] + [0])[i] {
        assert h[i] == Marks(row, k, clock)[i];
      }
    }
    assert Statuses(h) == seq(k, _ => RUNNING) + [FAILED] by {
      forall i | 0 <= i < k ensures Statuses(h)[i] == (seq(k, _ => RUNNING) + [FAILED])[i] {
        assert h[i] == Marks(row, k, clock)[i];
      }
    }
  }

  /** A run never changes the task's identity, tree, list, threshold,
      dates, creator or creation time: each row it writes agrees with the
      loaded row on them. */
  lemma RunKeepsTaskFields(row: TaskRow, outcome: RunOutcome, clock: nat -> Instant)
    requires outcome.reached <= |Checkpoints|
    ensures forall w :: w in History(row, outcome, clock) ==> w.spec == row.spec
  {
    var k := outcome.reached;
    MarksSpec(row, k, clock);
    var h := History(row, outcome, clock);
    forall w | w in h
      ensures w.spec == row.spec
    {
      var i :| 0 <= i < |h| && h[i] == w;
      if i < k {
        assert h[i] == Marks(row, k, clock)[i];
      }
    }
  }

  /** A tree with a leaf whose metric id is null or blank fails every run
      at the computation, after the second mark: the leaf's metric is never
      fetched. */
  lemma BlankLeafFailsRun(task: TaskSpec, trees: map<string, TreeRow>, env: Env,
                          order: set<string> -> seq<string>, leaf: MetricTreeNode)
    requires task.treeId in trees && trees[task.treeId].treeConfig.Parsed?
    requires var root := trees[task.treeId].treeConfig.root;
             && Enumerates(order(CollectMetricIds(root)), CollectMetricIds(root))
             && Contains(root, leaf) && leaf.IsLeaf()
             && (leaf.metricId.None? || IsBlank(leaf.metricId.value))
    requires var root := trees[task.treeId].treeConfig.root;
             FetchMetricValues(order(CollectMetricIds(root)),
                               Period(task.baselineDate, task.compareDate, task.timeGranularity), env).Ok?
    ensures Attribute(task, trees, env, order).reached == 2
    ensures Attribute(task, trees, env, order).ending.Aborted?
  {
    var root := trees[task.treeId].treeConfig.root;
    var p := Period(task.baselineDate, task.compareDate, task.timeGranularity);
    var ids := order(CollectMetricIds(root));
    MetricValueMapKeys(root, p, env, ids);
    BlankLeafFails(root, leaf, FetchMetricValues(ids, p, env).value, env.config.epsilon, env.ln);
  }

  /** The row createTask inserts. */
  function NewTaskRow(request: CreateTaskRequest, treeName: Option<string>, taskId: string, creator: Option<string>,
                      baselineDate: CalendarDate, compareDate: CalendarDate, now: Instant): TaskRow
    requires Valid(request)
  {
    TaskRow(TaskSpec(taskId, request.treeId.value, treeName, request.listId, None, request.contributionThreshold.value,
                     request.timeGranularity.value, baselineDate, compareDate, creator, Some(now)),
            PENDING, 0, Some(PendingMessage), None, None, Some(now))
  }

  // ---------------------------------------------------------------------
  // The task object

  /** An AnalysisTask loaded from the task table, which the marks update in
      place before writing it back. No setter of the fixed fields is called
      on a loaded task, so they are one constant value here. */
  class AnalysisTask {
    const spec: TaskSpec
    var status: TaskStatus
    var progress: int
    var message: Option<string>
    var startTime: Option<Instant>
    var endTime: Option<Instant>
    var updateTime: Option<Instant>

    /** The row this object is written back as. */
    function Row(): TaskRow
      reads this
    {
      TaskRow(spec, status, progress, message, startTime, endTime, updateTime)
    }

    /** selectByTaskId: an object holding a stored row. */
    constructor Load(row: TaskRow)
      ensures Row() == row
    {
      spec := row.spec;
      status, progress, message := row.status, row.progress, row.message;
      startTime, endTime, updateTime := row.startTime, row.endTime, row.updateTime;
    }

    /** The setters of markTaskRunning: the start time only if unset. */
    method SetRunning(checkpoint: Checkpoint, now: Instant)
      modifies this
      ensures Row() == Running(old(Row()), checkpoint, now)
    {
      if startTime.None? {
        startTime := Some(now);
      }
      status, progress, message, updateTime := RUNNING, checkpoint.progress, Some(checkpoint.message), Some(now);
    }

    /** The setters of markTaskSuccess. */
    method SetSucceeded(now: Instant)
      modifies this
      ensures Row() == Succeeded(old(Row()), now)
    {
      status, progress, message, endTime, updateTime := SUCCESS, 100, Some(SuccessMessage), Some(now), Some(now);
    }

    /** The setters of markTaskFailed: the message cut to 200 characters. */
    method SetFailed(failure: Option<string>, now: Instant)
      modifies this
      ensures Row() == Failed(old(Row()), failure, now)
    {
      status, progress, message, endTime, updateTime := FAILED, 0, Left(failure, MaxMessageLength), Some(now), Some(now);
    }
  }

  // ---------------------------------------------------------------------
  // The service

  class AttributionServiceImpl {
    /** The task table, the tree table and the result table, each keyed by
        its id column. */
    var tasks: map<string, TaskRow>
    var trees: map<string, TreeRow>
    var results: map<string, ResultRow>
    /** Every row written to the task table, in order. */
    ghost var taskWrites: seq<TaskRow>
    /** Configuration, metric service, number parsing and logarithms. */
    const env: Env
    /** The iteration order of a HashSet of metric ids. */
    const order: set<string> -> seq<string>

    /** Each table row sits under its own id: in particular there is at
        most one result per task. */
    ghost predicate Valid()
      reads this
    {
      && (forall id :: id in tasks ==> tasks[id].spec.taskId == id)
      && (forall id :: id in results ==> results[id].taskId == id)
    }

    constructor (env: Env, order: set<string> -> seq<string>, trees: map<string, TreeRow>)
      ensures Valid()
      ensures this.env == env && this.order == order && this.trees == trees
      ensures tasks == map[] && results == map[] && taskWrites == []
    {
      this.env := env;
      this.order := order;
      this.trees := trees;
      tasks := map[];
      results := map[];
      taskWrites := [];
    }

    /** taskDao.updateByTaskId: overwrite the row with the task's id; no row,
        no change. */
    method UpdateByTaskId(task: AnalysisTask)
      requires Valid()
      modifies this
      ensures Valid()
      ensures trees == old(trees) && results == old(results)
      ensures task.spec.taskId in old(tasks) ==> tasks == old(tasks)[task.spec.taskId := task.Row()]
      ensures task.spec.taskId in old(tasks) ==> taskWrites == old(taskWrites) + [task.Row()]
      ensures task.spec.taskId !in old(tasks) ==> tasks == old(tasks) && taskWrites == old(taskWrites)
    {
      if task.spec.taskId in tasks {
        tasks := tasks[task.spec.taskId := task.Row()];
        taskWrites := taskWrites + [task.Row()];
      }
    }

    /** markTaskRunning. */
    method MarkTaskRunning(task: AnalysisTask, checkpoint: Checkpoint, now: Instant)
      requires Valid() && task.spec.taskId in tasks
      modifies this, task
      ensures Valid()
      ensures task.Row() == Running(old(task.Row()), checkpoint, now)
      ensures tasks == old(tasks)[task.spec.taskId := task.Row()]
      ensures taskWrites == old(taskWrites) + [task.Row()]
      ensures trees == old(trees) && results == old(results)
    {
      task.SetRunning(checkpoint, now);
      UpdateByTaskId(task);
    }

    /** markTaskSuccess. */
    method MarkTaskSuccess(task: AnalysisTask, now: Instant)
      requires Valid() && task.spec.taskId in tasks
      modifies this, task
      ensures Valid()
      ensures task.Row() == Succeeded(old(task.Row()), now)
      ensures tasks == old(tasks)[task.spec.taskId := task.Row()]
      ensures taskWrites == old(taskWrites) + [task.Row()]
      ensures trees == old(trees) && results == old(results)
    {
      task.SetSucceeded(now);
      UpdateByTaskId(task);
    }

    /** markTaskFailed: reload the task; a missing task is left alone. */
    method MarkTaskFailed(taskId: string, message: Option<string>, now: Instant)
      requires Valid()
      modifies this
      ensures Valid()
      ensures taskId !in old(tasks) ==> tasks == old(tasks) && taskWrites == old(taskWrites)
      ensures taskId in old(tasks) ==> tasks == old(tasks)[taskId := Failed(old(tasks)[taskId], message, now)]
      ensures taskId in old(tasks) ==> taskWrites == old(taskWrites) + [Failed(old(tasks)[taskId], message, now)]
      ensures trees == old(trees) && results == old(results)
    {
      if taskId !in tasks {
        return;
      }
      var task := new AnalysisTask.Load(tasks[taskId]);
      task.SetFailed(message, now);
      UpdateByTaskId(task);
    }

    /** persistResult: update the task's result tree if it has a result,
        insert a new result otherwise. */
    method PersistResult(taskId: string, resultTree: ResultNode, now: Instant)
      requires Valid()
      modifies this
      ensures Valid()
      ensures results == old(results)[taskId := Upserted(old(results), taskId, resultTree, now)]
      ensures tasks == old(tasks) && trees == old(trees) && taskWrites == old(taskWrites)
    {
      if taskId !in results {
        results := results[taskId := ResultRow(taskId, resultTree, Some(now))];
      } else {
        var existing := results[taskId];
        results := results[taskId := existing.(resultTree := resultTree)];
      }
    }

    /** createTask: an unknown tree or a date that is no calendar date
        throws before anything is inserted; otherwise a PENDING task is
        inserted under the generated id. Handing the task to the executor is
        not part of this model: the run is RunAttributionTask. */
    method CreateTask(request: CreateTaskRequest, creator: Option<string>, taskId: string, now: Instant)
      returns (r: Result<TaskCreated, CreateError>)
      requires Valid() && CreateTaskRequestValidation.Valid(request)
      requires taskId !in tasks
      modifies this
      ensures Valid()
      ensures trees == old(trees) && results == old(results) && taskWrites == old(taskWrites)
      ensures request.treeId.value !in old(trees) ==>
                r == Err(TreeNotFound(TreeMissingPrefix + request.treeId.value))
      ensures r.Err? ==> tasks == old(tasks)
      ensures r.Ok? <==> request.treeId.value in old(trees)
                         && ParseDate(request.baselineDate.value).Some?
                         && ParseDate(request.compareDate.value).Some?
      ensures r.Ok? ==>
                var baselineDate := ParseDate(request.baselineDate.value).value;
                var compareDate := ParseDate(request.compareDate.value).value;
                && tasks == old(tasks)[taskId := NewTaskRow(request, old(trees)[request.treeId.value].treeName,
                                                            taskId, creator, baselineDate, compareDate, now)]
                && r.value == TaskCreated(taskId, request.timeGranularity.value, Format(baselineDate), Format(compareDate))
    {
      var treeId := request.treeId.value;
      if treeId !in trees {
        return Err(TreeNotFound(TreeMissingPrefix + treeId));
      }
      var baseline := ParseDate(request.baselineDate.value);
      if baseline.None? {
        return Err(UnparseableDate(request.baselineDate.value));
      }
      var compare := ParseDate(request.compareDate.value);
      if compare.None? {
        return Err(UnparseableDate(request.compareDate.value));
      }
      var row := NewTaskRow(request, trees[treeId].treeName, taskId, creator, baseline.value, compare.value, now);
      tasks := tasks[taskId := row];
      return Ok(TaskCreated(taskId, row.spec.timeGranularity, Format(row.spec.baselineDate), Format(row.spec.compareDate)));
    }

    /** The state k marks into a run of the task loaded as row from the
        table tasks0, when the task table held writes before and the result
        table held results0. */
    ghost predicate Midway(task: AnalysisTask, taskId: string, row: TaskRow, writes: seq<TaskRow>, k: nat,
                           clock: nat -> Instant, tasks0: map<string, TaskRow>, results0: map<string, ResultRow>)
      reads this, task
    {
      && Valid() && k <= |Checkpoints| && task.spec.taskId == taskId && taskId in tasks
      && task.Row() == LastOr(row, Marks(row, k, clock)) && tasks == tasks0[taskId := task.Row()]
      && results == results0 && taskWrites == writes + Marks(row, k, clock)
    }

    /** The state after a run of the task loaded as row ended with outcome,
        when the run found the tables tasks0 and results0. */
    ghost predicate Finished(taskId: string, row: TaskRow, writes: seq<TaskRow>, outcome: RunOutcome,
                             clock: nat -> Instant, tasks0: map<string, TaskRow>, results0: map<string, ResultRow>)
      requires outcome.reached <= |Checkpoints|
      reads this
    {
      var h := History(row, outcome, clock);
      && Valid()
      && taskWrites == writes + h
      && tasks == tasks0[taskId := h[|h| - 1]]
      && results == if outcome.ending.Completed?
                    then results0[taskId := Upserted(results0, taskId, outcome.ending.result, clock(|Checkpoints|))]
                    else results0
    }

    /** markTaskRunning at checkpoint k of a run. */
    method Advance(task: AnalysisTask, taskId: string, ghost row: TaskRow, ghost writes: seq<TaskRow>, k: nat,
                   clock: nat -> Instant, ghost tasks0: map<string, TaskRow>, ghost results0: map<string, ResultRow>)
      requires Midway(task, taskId, row, writes, k, clock, tasks0, results0) && k < |Checkpoints|
      modifies this, task
      ensures Midway(task, taskId, row, writes, k + 1, clock, tasks0, results0)
      ensures trees == old(trees)
    {
      MarkTaskRunning(task, Checkpoints[k], clock(k));
    }

    /** markTaskFailed at the end of a run aborted after outcome.reached
        marks. */
    method AbortRun(task: AnalysisTask, taskId: string, ghost row: TaskRow, ghost writes: seq<TaskRow>,
                    outcome: RunOutcome, clock: nat -> Instant,
                    ghost tasks0: map<string, TaskRow>, ghost results0: map<string, ResultRow>)
      requires outcome.reached < |Checkpoints| && outcome.ending.Aborted?
      requires Midway(task, taskId, row, writes, outcome.reached, clock, tasks0, results0)
      modifies this
      ensures Finished(taskId, row, writes, outcome, clock, tasks0, results0)
      ensures trees == old(trees)
    {
      MarkTaskFailed(taskId, outcome.ending.message, clock(outcome.reached));
      assert tasks == tasks0[taskId := History(row, outcome, clock)[outcome.reached]];
    }

    /** persistResult and markTaskSuccess at the end of a run that made all
        its marks. */
    method CompleteRun(task: AnalysisTask, taskId: string, ghost row: TaskRow, ghost writes: seq<TaskRow>,
                       outcome: RunOutcome, clock: nat -> Instant,
                       ghost tasks0: map<string, TaskRow>, ghost results0: map<string, ResultRow>)
      requires outcome.reached == |Checkpoints| && outcome.ending.Completed?
      requires Midway(task, taskId, row, writes, outcome.reached, clock, tasks0, results0)
      modifies this, task
      ensures Finished(taskId, row, writes, outcome, clock, tasks0, results0)
      ensures trees == old(trees)
    {
      PersistResult(taskId, outcome.ending.result, clock(4));
      MarkTaskSuccess(task, clock(4));
      assert tasks == tasks0[taskId := History(row, outcome, clock)[4]];
    }

    /** runAttributionTask: every exception ends in markTaskFailed with its
        message; the clock reads clock(i) at the i-th mark and clock(4) when
        the result is stored and the task marked successful. */
    method RunAttributionTask(taskId: string, clock: nat -> Instant)
      requires Valid()
      modifies this
      ensures Valid()
      ensures trees == old(trees)
      ensures taskId !in old(tasks) ==>
                tasks == old(tasks) && results == old(results) && taskWrites == old(taskWrites)
      ensures taskId in old(tasks) ==>
                var h := History(old(tasks)[taskId], Attribute(old(tasks)[taskId].spec, old(trees), env, order), clock);
                && taskWrites == old(taskWrites) + h
                && tasks == old(tasks)[taskId := h[|h| - 1]]
      ensures taskId in old(tasks) ==>
                var outcome := Attribute(old(tasks)[taskId].spec, old(trees), env, order);
                results == if outcome.ending.Completed?
                           then old(results)[taskId := Upserted(old(results), taskId, outcome.ending.result, clock(4))]
                           else old(results)
    {
      if taskId !in tasks {
        MarkTaskFailed(taskId, Some(TaskMissingPrefix + taskId), clock(0));
        return;
      }
      ghost var row, tasks0, results0 := tasks[taskId], tasks, results;
      var task := new AnalysisTask.Load(tasks[taskId]);
      assert tasks == tasks0[taskId := task.Row()];
      assert Midway(task, taskId, row, taskWrites, 0, clock, tasks0, results0);
      if task.spec.treeId !in trees {
        var outcome := RunOutcome(0, Aborted(Some(TreeMissingPrefix + task.spec.treeId)));
        assert Attribute(row.spec, trees, env, order) == outcome;
        AbortRun(task, taskId, row, old(taskWrites), outcome, clock, tasks0, results0);
        return;
      }
      var config := trees[task.spec.treeId].treeConfig;
      if config.Malformed? {
        var outcome := RunOutcome(0, Aborted(Some(MalformedTreeMessage)));
        assert Attribute(row.spec, trees, env, order) == outcome;
        AbortRun(task, taskId, row, old(taskWrites), outcome, clock, tasks0, results0);
        return;
      }
      var root := config.root;
      var period := Period(task.spec.baselineDate, task.spec.compareDate, task.spec.timeGranularity);
      assert Attribute(row.spec, trees, env, order) == AttributeTree(root, period, env, order);
      Advance(task, taskId, row, old(taskWrites), 0, clock, tasks0, results0);
      RunTree(task, taskId, root, period, row, old(taskWrites), clock, tasks0, results0);
    }

    /** The stages of runAttributionTask after the first mark. */
    method RunTree(task: AnalysisTask, taskId: string, root: MetricTreeNode, period: Period,
                   ghost row: TaskRow, ghost writes: seq<TaskRow>, clock: nat -> Instant,
                   ghost tasks0: map<string, TaskRow>, ghost results0: map<string, ResultRow>)
      requires Midway(task, taskId, row, writes, 1, clock, tasks0, results0)
      modifies this, task
      ensures Finished(taskId, row, writes, AttributeTree(root, period, env, order), clock, tasks0, results0)
      ensures trees == old(trees)
    {
      var metricValues := BuildMetricValueMap(root, period, env, order);
      if metricValues.Err? {
        var outcome := RunOutcome(1, Aborted(Some(RowErrorMessage(metricValues.error))));
        assert AttributeTree(root, period, env, order) == outcome;
        AbortRun(task, taskId, row, writes, outcome, clock, tasks0, results0);
        return;
      }
      assert AttributeTree(root, period, env, order) == AttributeValues(root, metricValues.value, period, env);
      Advance(task, taskId, row, writes, 1, clock, tasks0, results0);
      RunValues(task, taskId, root, metricValues.value, period, row, writes, clock, tasks0, results0);
    }

    /** The stages of runAttributionTask after the second mark. */
    method RunValues(task: AnalysisTask, taskId: string, root: MetricTreeNode, values: map<string, MetricValue>,
                     period: Period, ghost row: TaskRow, ghost writes: seq<TaskRow>, clock: nat -> Instant,
                     ghost tasks0: map<string, TaskRow>, ghost results0: map<string, ResultRow>)
      requires Midway(task, taskId, row, writes, 2, clock, tasks0, results0)
      modifies this, task
      ensures Finished(taskId, row, writes, AttributeValues(root, values, period, env), clock, tasks0, results0)
      ensures trees == old(trees)
    {
      var nodeComputation := ComputeNode(root, values, env.config.epsilon, env.ln);
      if nodeComputation.Err? {
        var outcome := RunOutcome(2, Aborted(RunErrorMessage(EngineFailure(nodeComputation.error))));
        assert AttributeValues(root, values, period, env) == outcome;
        AbortRun(task, taskId, row, writes, outcome, clock, tasks0, results0);
        return;
      }
      assert AttributeValues(root, values, period, env) == AttributeComputation(nodeComputation.value, period, env);
      Advance(task, taskId, row, writes, 2, clock, tasks0, results0);
      RunComputation(task, taskId, nodeComputation.value, period, row, writes, clock, tasks0, results0);
    }

    /** The stages of runAttributionTask after the third mark. */
    method RunComputation(task: AnalysisTask, taskId: string, nc: NodeComputation, period: Period,
                          ghost row: TaskRow, ghost writes: seq<TaskRow>, clock: nat -> Instant,
                          ghost tasks0: map<string, TaskRow>, ghost results0: map<string, ResultRow>)
      requires Midway(task, taskId, row, writes, 3, clock, tasks0, results0)
      modifies this, task
      ensures Finished(taskId, row, writes, AttributeComputation(nc, period, env), clock, tasks0, results0)
      ensures trees == old(trees)
    {
      var resultNode := AssembleResult(nc, period, env);
      if resultNode.Err? {
        var outcome := RunOutcome(3, Aborted(RunErrorMessage(resultNode.error)));
        assert AttributeComputation(nc, period, env) == outcome;
        AbortRun(task, taskId, row, writes, outcome, clock, tasks0, results0);
        return;
      }
      var outcome := RunOutcome(4, Completed(resultNode.value));
      assert AttributeComputation(nc, period, env) == outcome;
      Advance(task, taskId, row, writes, 3, clock, tasks0, results0);
      CompleteRun(task, taskId, row, writes, outcome, clock, tasks0, results0);
    }
  }
}
