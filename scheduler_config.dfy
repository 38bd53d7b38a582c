/** Start-up of the task scheduler: every bean's annotated methods are
    registered as tasks, the tasks marked auto-start are scheduled, and one
    ZooKeeper node per task is (re)created under the schedule path.  The
    registry is the process-wide map from bean name to its tasks; JSON
    rendering of a task is the function `toJson`. */
module SchedulerConfig {
  import opened Base
  import opened TaskTypes
  import opened TaskSchedule
  import opened ZkCurator

  /** A declared method of a bean's class, with its annotation if any. */
  datatype BeanMethod = BeanMethod(name: string, annotation: Option<TaskDesc>)

  /** The task recorded for an annotated method. */
  function TaskOf(bean: Value, beanName: string, m: BeanMethod): ExecTask
    requires m.annotation.Some?
  {
    ExecTask(bean, beanName, m.name, m.annotation.value.cron, m.annotation.value.autoStart, m.annotation.value.desc)
  }

  function CountAnnotated(methods: seq<BeanMethod>): nat
  {
    if methods == [] then 0
    else CountAnnotated(methods[..|methods| - 1]) + (if methods[|methods| - 1].annotation.Some? then 1 else 0)
  }

  /** The tasks of one bean, in declaration order: one per annotated method. */
  function ExecTasks(bean: Value, beanName: string, methods: seq<BeanMethod>): (ts: seq<ExecTask>)
    ensures |ts| == CountAnnotated(methods)
  {
    if methods == [] then []
    else
      var last := methods[|methods| - 1];
      ExecTasks(bean, beanName, methods[..|methods| - 1]) + (if last.annotation.Some? then [TaskOf(bean, beanName, last)] else [])
  }

  /** Every task in `ts` is the task of an annotated method. */
  ghost predicate FromAnnotated(ts: seq<ExecTask>, bean: Value, beanName: string, methods: seq<BeanMethod>)
  {
    forall j | 0 <= j < |ts| :: exists k | 0 <= k < |methods| ::
      methods[k].annotation.Some? && ts[j] == TaskOf(bean, beanName, methods[k])
  }

  /** Every annotated method has its task in `ts`. */
  ghost predicate CoversAnnotated(ts: seq<ExecTask>, bean: Value, beanName: string, methods: seq<BeanMethod>)
  {
    forall k | 0 <= k < |methods| && methods[k].annotation.Some? :: TaskOf(bean, beanName, methods[k]) in ts
  }

  /** Every task copies the bean, its name, the method name and the
      annotation of an annotated method, and every annotated method has its
      task. */
  lemma {:induction false} ExecTasksContents(bean: Value, beanName: string, methods: seq<BeanMethod>)
    ensures FromAnnotated(ExecTasks(bean, beanName, methods), bean, beanName, methods)
    ensures CoversAnnotated(ExecTasks(bean, beanName, methods), bean, beanName, methods)
  {
    if methods != [] {
      var init := methods[..|methods| - 1];
      var last := methods[|methods| - 1];
      ExecTasksContents(bean, beanName, init);
      var ti := ExecTasks(bean, beanName, init);
      var ts := ExecTasks(bean, beanName, methods);
      assert ts == ti + (if last.annotation.Some? then [TaskOf(bean, beanName, last)] else []);
      forall j | 0 <= j < |ts|
        ensures exists k | 0 <= k < |methods| :: methods[k].annotation.Some? && ts[j] == TaskOf(bean, beanName, methods[k])
      {
        if j < |ti| {
          assert ts[j] == ti[j];
          assert exists k | 0 <= k < |init| :: init[k].annotation.Some? && ti[j] == TaskOf(bean, beanName, init[k]);
          var k :| 0 <= k < |init| && init[k].annotation.Some? && ti[j] == TaskOf(bean, beanName, init[k]);
          assert methods[k] == init[k];
        } else {
          assert ts[j] == TaskOf(bean, beanName, methods[|methods| - 1]);
        }
      }
      forall k | 0 <= k < |methods| && methods[k].annotation.Some?
        ensures TaskOf(bean, beanName, methods[k]) in ts
      {
        if k < |init| {
          assert init[k] == methods[k];
          assert TaskOf(bean, beanName, init[k]) in ti;
        } else {
          assert ts[|ts| - 1] == TaskOf(bean, beanName, last);
        }
      }
      assert FromAnnotated(ts, bean, beanName, methods);
      assert CoversAnnotated(ts, bean, beanName, methods);
    }
  }

  /** A bean has tasks exactly when one of its methods is annotated. */
  lemma {:induction false} CountAnnotatedZero(methods: seq<BeanMethod>)
    ensures CountAnnotated(methods) == 0 <==> forall k | 0 <= k < |methods| :: methods[k].annotation.None?
  {
    if methods != [] {
      var init := methods[..|methods| - 1];
      CountAnnotatedZero(init);
      assert forall k | 0 <= k < |init| :: init[k] == methods[k];
    }
  }

  /** The registry change of `postProcessAfterInitialization`. */
  function Register(m: map<string, seq<ExecTask>>, beanName: string, ts: seq<ExecTask>): map<string, seq<ExecTask>>
  {
    if beanName in m || |ts| == 0 then m else m[beanName := ts]
  }

  /** A registered name is never overwritten, and a bean without annotated
      methods is never added. */
  lemma RegisterEffect(m: map<string, seq<ExecTask>>, bean: Value, beanName: string, methods: seq<BeanMethod>)
    ensures var m' := Register(m, beanName, ExecTasks(bean, beanName, methods));
      && (beanName in m ==> m' == m)
      && (beanName !in m ==>
            (beanName in m' <==> exists k | 0 <= k < |methods| :: methods[k].annotation.Some?))
      && (beanName in m' && beanName !in m ==> m'[beanName] == ExecTasks(bean, beanName, methods))
      && forall b | b in m :: b in m' && m'[b] == m[b]
  {
    CountAnnotatedZero(methods);
  }

  /** `Constants.execTaskListMap`. */
  class Registry {
    var execTaskListMap: map<string, seq<ExecTask>>

    constructor()
      ensures execTaskListMap == map[]
    {
      execTaskListMap := map[];
    }
  }

  lemma ExecTasksStep(bean: Value, beanName: string, methods: seq<BeanMethod>, i: nat)
    requires i < |methods|
    ensures ExecTasks(bean, beanName, methods[..i + 1])
         == ExecTasks(bean, beanName, methods[..i])
            + (if methods[i].annotation.Some? then [TaskOf(bean, beanName, methods[i])] else [])
  {
    assert methods[..i + 1][..i] == methods[..i];
  }

  /** The scan over the declared methods in `postProcessAfterInitialization`. */
  method CollectTasks(bean: Value, beanName: string, methods: seq<BeanMethod>) returns (execTasks: seq<ExecTask>)
    ensures execTasks == ExecTasks(bean, beanName, methods)
  {
    execTasks := [];
    for i := 0 to |methods|
      invariant execTasks == ExecTasks(bean, beanName, methods[..i])
    {
      ExecTasksStep(bean, beanName, methods, i);
      if methods[i].annotation.None? {
        continue;
      }
      var annotation := methods[i].annotation.value;
      var execTask := ExecTask(bean, beanName, methods[i].name, annotation.cron, annotation.autoStart, annotation.desc);
      execTasks := execTasks + [execTask];
    }
    assert methods[..|methods|] == methods;
  }

  method PostProcessAfterInitialization(registry: Registry, bean: Value, beanName: string, methods: seq<BeanMethod>)
    returns (r: Value)
    modifies registry
    ensures r == bean
    ensures registry.execTaskListMap == Register(old(registry.execTaskListMap), beanName, ExecTasks(bean, beanName, methods))
  {
    if beanName !in registry.execTaskListMap {
      var execTasks := CollectTasks(bean, beanName, methods);
      if |execTasks| > 0 {
        registry.execTaskListMap := registry.execTaskListMap[beanName := execTasks];
      }
    }
    return bean;
  }

  /** The runnable `init_task_schedule` builds for a task. */
  function RunnableOf(t: ExecTask): TaskRunnable
  {
    TaskRunnable(t.bean, t.beanName, t.methodName)
  }

  /** `m` is `m0` with every old entry kept, an entry for the id of every
      task in `ts`, and every new entry scheduled from one of those tasks on
      its cron. */
  ghost predicate ScheduledFrom(m0: ScheduleMap, m: ScheduleMap, ts: set<ExecTask>)
  {
    && (forall id | id in m0 :: id in m && m[id] == m0[id])
    && (forall t | t in ts :: TaskId(RunnableOf(t)) in m)
    && (forall id | id in m && id !in m0 ::
          exists t | t in ts :: TaskId(RunnableOf(t)) == id && m[id] == Scheduled(RunnableOf(t), t.cron))
  }

  lemma ScheduledFromAdd(m0: ScheduleMap, m: ScheduleMap, ts: set<ExecTask>, t: ExecTask)
    requires ScheduledFrom(m0, m, ts)
    ensures ScheduledFrom(m0, Add(m, RunnableOf(t), t.cron), ts + {t})
  {
    var m' := Add(m, RunnableOf(t), t.cron);
    forall id | id in m' && id !in m0
      ensures exists u | u in ts + {t} :: TaskId(RunnableOf(u)) == id && m'[id] == Scheduled(RunnableOf(u), u.cron)
    {
      if id in m {
        var u :| u in ts && TaskId(RunnableOf(u)) == id && m[id] == Scheduled(RunnableOf(u), u.cron);
        assert m'[id] == m[id];
      } else {
        assert id == TaskId(RunnableOf(t)) && m'[id] == Scheduled(RunnableOf(t), t.cron);
      }
    }
  }

  /** From an empty table, the scheduled ids are exactly the ids of the tasks. */
  lemma ScheduledFromEmpty(m: ScheduleMap, ts: set<ExecTask>)
    requires ScheduledFrom(map[], m, ts)
    ensures m.Keys == set t | t in ts :: TaskId(RunnableOf(t))
  {
    forall id | id in m
      ensures id in set t | t in ts :: TaskId(RunnableOf(t))
    {
      var t :| t in ts && TaskId(RunnableOf(t)) == id && m[id] == Scheduled(RunnableOf(t), t.cron);
    }
  }

  /** The auto-start tasks of one bean. */
  ghost function AutoStartOf(execTasks: seq<ExecTask>): set<ExecTask>
  {
    set k | 0 <= k < |execTasks| && execTasks[k].autoStart :: execTasks[k]
  }

  /** The auto-start tasks of the beans in `beans`. */
  ghost function AutoStartIn(reg: map<string, seq<ExecTask>>, beans: set<string>): set<ExecTask>
  {
    set b, k | b in beans && b in reg && 0 <= k < |reg[b]| && reg[b][k].autoStart :: reg[b][k]
  }

  lemma AutoStartOfPrefix(execTasks: seq<ExecTask>, j: nat)
    requires j < |execTasks|
    ensures AutoStartOf(execTasks[..j + 1])
         == AutoStartOf(execTasks[..j]) + (if execTasks[j].autoStart then {execTasks[j]} else {})
  {
    assert forall k | 0 <= k < j :: execTasks[..j + 1][k] == execTasks[..j][k];
  }

  /** The body of the inner loop of `init_task_schedule`: an auto-start
      task is scheduled, any other is skipped. */
  method ScheduleTask(ctrl: TaskScheduleCtrl, execTask: ExecTask, ghost m0: ScheduleMap, ghost ts: set<ExecTask>)
    requires ScheduledFrom(m0, ctrl.taskScheduledMap, ts)
    modifies ctrl
    ensures ScheduledFrom(m0, ctrl.taskScheduledMap, ts + (if execTask.autoStart then {execTask} else {}))
    ensures ctrl.cancelled == old(ctrl.cancelled)
  {
    if !execTask.autoStart {
      assert ts + {} == ts;
      return;
    }
    ScheduledFromAdd(m0, ctrl.taskScheduledMap, ts, execTask);
    var taskRunnable := TaskRunnable(execTask.bean, execTask.beanName, execTask.methodName);
    ctrl.AddTaskSchedule(taskRunnable, execTask.cron);
  }

  /** The inner loop of `init_task_schedule`, over one bean's tasks. */
  method ScheduleTasks(ctrl: TaskScheduleCtrl, execTasks: seq<ExecTask>, ghost m0: ScheduleMap, ghost ts: set<ExecTask>)
    requires ScheduledFrom(m0, ctrl.taskScheduledMap, ts)
    modifies ctrl
    ensures ScheduledFrom(m0, ctrl.taskScheduledMap, ts + AutoStartOf(execTasks))
    ensures ctrl.cancelled == old(ctrl.cancelled)
  {
    ghost var added: set<ExecTask> := {};
    for j := 0 to |execTasks|
      invariant added == AutoStartOf(execTasks[..j])
      invariant ScheduledFrom(m0, ctrl.taskScheduledMap, ts + added)
      invariant ctrl.cancelled == old(ctrl.cancelled)
    {
      AutoStartOfPrefix(execTasks, j);
      ScheduleTask(ctrl, execTasks[j], m0, ts + added);
      added := added + (if execTasks[j].autoStart then {execTasks[j]} else {});
    }
    assert execTasks[..|execTasks|] == execTasks;
  }

  lemma AutoStartInStep(reg: map<string, seq<ExecTask>>, beans: set<string>, b: string)
    requires b in reg
    ensures AutoStartIn(reg, beans + {b}) == AutoStartIn(reg, beans) + AutoStartOf(reg[b])
  {
  }

  /** `init_task_schedule`: every auto-start task is scheduled (an id that is
      already taken stays as it was), and nothing else is. */
  method InitTaskSchedule(registry: Registry, ctrl: TaskScheduleCtrl)
    modifies ctrl
    ensures ScheduledFrom(old(ctrl.taskScheduledMap), ctrl.taskScheduledMap,
                          AutoStartIn(registry.execTaskListMap, registry.execTaskListMap.Keys))
    ensures ctrl.cancelled == old(ctrl.cancelled)
  {
    var reg := registry.execTaskListMap;
    var keys := reg.Keys;
    ghost var done: set<string> := {};
    assert AutoStartIn(reg, done) == {};
    while keys != {}
      invariant keys + done == reg.Keys && keys !! done
      invariant ScheduledFrom(old(ctrl.taskScheduledMap), ctrl.taskScheduledMap, AutoStartIn(reg, done))
      invariant ctrl.cancelled == old(ctrl.cancelled)
      decreases |keys|
    {
      var beanName :| beanName in keys;
      ScheduleTasks(ctrl, reg[beanName], old(ctrl.taskScheduledMap), AutoStartIn(reg, done));
      AutoStartInStep(reg, done, beanName);
      done := done + {beanName};
      keys := keys - {beanName};
    }
  }

  /** The node `init_task_node` writes a task's description to. */
  function NodePath(t: ExecTask): string
  {
    PATH_TASK_SCHEDULE + LINE + t.beanName + LINE + t.methodName
  }

  /** For names without "/", `createNode` on a task's node makes the task
      node, its bean node, the schedule root and "/taskschedule", all below
      or on the path of the schedule root subtree except the last. */
  lemma NodePathAncestors(t: ExecTask)
    requires '/' !in t.beanName && '/' !in t.methodName
    ensures Ancestors(NodePath(t))
         == [NodePath(t), PATH_TASK_SCHEDULE + "/" + t.beanName, PATH_TASK_SCHEDULE, "/taskschedule"]
  {
    assert PATH_TASK_SCHEDULE == "/taskschedule" + "/" + "task";
    assert "task" == ['t', 'a', 's', 'k'];
    assert "taskschedule" == ['t', 'a', 's', 'k', 's', 'c', 'h', 'e', 'd', 'u', 'l', 'e'];
    AncestorsOfTop("taskschedule");
    AncestorsOfChild("/taskschedule", "task");
    AncestorsOfChild(PATH_TASK_SCHEDULE, t.beanName);
    assert NodePath(t) == (PATH_TASK_SCHEDULE + "/" + t.beanName) + "/" + t.methodName;
    AncestorsOfChild(PATH_TASK_SCHEDULE + "/" + t.beanName, t.methodName);
  }

  /** Every task node lies strictly below the schedule root, so deleting the
      root's subtree first clears every node written earlier. */
  lemma NodePathBelowRoot(t: ExecTask)
    ensures InSubtree(NodePath(t), PATH_TASK_SCHEDULE) && NodePath(t) != PATH_TASK_SCHEDULE
  {
    assert NodePath(t)[..|PATH_TASK_SCHEDULE| + 1] == PATH_TASK_SCHEDULE + "/";
  }

  /** The nodes left by `deletingChildrenIfNeeded(p)`. */
  ghost function Pruned(nodes: set<string>, p: string): set<string>
  {
    if p in nodes then set n | n in nodes && !InSubtree(n, p) else nodes
  }

  /** The node data left by `deletingChildrenIfNeeded(p)`. */
  ghost function PrunedData(nodes: set<string>, data: map<string, string>, p: string): map<string, string>
  {
    if p in nodes then map n | n in data && !InSubtree(n, p) :: data[n] else data
  }

  /** Starting from `nodes0` and `data0`, the nodes `path` gives the tasks
      in `ts` have been written: every node is kept, every new node is on
      the way to a task node, every task node exists and has data, a task
      node holds the text of a task with that node, a new node that is no
      task's holds the client's default data `dflt`, and every other node
      keeps its data. */
  ghost predicate NodesWritten(nodes0: set<string>, data0: map<string, string>,
                               nodes: set<string>, data: map<string, string>,
                               ts: set<ExecTask>, path: ExecTask -> string, toJson: ExecTask -> string, dflt: string)
  {
    && nodes0 <= nodes
    && NewNodesOnTheWay(nodes0, nodes, ts, path)
    && data0.Keys <= data.Keys
    && DataFromTasks(nodes0, data0, nodes, data, ts, path, toJson, dflt)
    && (forall t | t in ts :: path(t) in nodes && path(t) in data)
  }

  ghost predicate NewNodesOnTheWay(nodes0: set<string>, nodes: set<string>, ts: set<ExecTask>, path: ExecTask -> string)
  {
    forall n | n in nodes && n !in nodes0 :: exists t | t in ts :: n in Elems(Ancestors(path(t)))
  }

  /** `n` is the node of some task in `ts`. */
  ghost predicate IsTaskNode(n: string, ts: set<ExecTask>, path: ExecTask -> string)
  {
    exists t | t in ts :: path(t) == n
  }

  ghost predicate DataFromTasks(nodes0: set<string>, data0: map<string, string>,
                                nodes: set<string>, data: map<string, string>,
                                ts: set<ExecTask>, path: ExecTask -> string, toJson: ExecTask -> string, dflt: string)
  {
    && (forall n | n in data && IsTaskNode(n, ts, path) :: exists t | t in ts :: path(t) == n && data[n] == toJson(t))
    && (forall n | n in nodes && n !in nodes0 && !IsTaskNode(n, ts, path) :: n in data && data[n] == dflt)
    && (forall n | n in data && !IsTaskNode(n, ts, path) && (n in nodes0 || n !in nodes) ::
          n in data0 && data[n] == data0[n])
  }

  lemma NewNodesStep(nodes0: set<string>, nodes: set<string>, ts: set<ExecTask>, path: ExecTask -> string, t: ExecTask)
    requires NewNodesOnTheWay(nodes0, nodes, ts, path)
    ensures NewNodesOnTheWay(nodes0, nodes + Elems(Ancestors(path(t))), ts + {t}, path)
  {
    forall n | n in nodes + Elems(Ancestors(path(t))) && n !in nodes0
      ensures exists u | u in ts + {t} :: n in Elems(Ancestors(path(u)))
    {
      if n !in nodes {
        assert n in Elems(Ancestors(path(t)));
      }
    }
  }

  /** The data after `createNode` and `setData` for the node of task `t`. */
  ghost function StepData(nodes: set<string>, data: map<string, string>, p: string, text: string, dflt: string): map<string, string>
  {
    (data + DefaultFor(Elems(Ancestors(p)), nodes, dflt))[p := text]
  }

  lemma DataFromStep(nodes0: set<string>, data0: map<string, string>, nodes: set<string>, data: map<string, string>,
                     ts: set<ExecTask>, path: ExecTask -> string, toJson: ExecTask -> string, dflt: string, t: ExecTask)
    requires nodes0 <= nodes && (forall u | u in ts :: path(u) in nodes)
    requires DataFromTasks(nodes0, data0, nodes, data, ts, path, toJson, dflt)
    ensures DataFromTasks(nodes0, data0, nodes + Elems(Ancestors(path(t))),
                          StepData(nodes, data, path(t), toJson(t), dflt), ts + {t}, path, toJson, dflt)
  {
    var nodes' := nodes + Elems(Ancestors(path(t)));
    var added := DefaultFor(Elems(Ancestors(path(t))), nodes, dflt);
    var data' := StepData(nodes, data, path(t), toJson(t), dflt);
    var ts' := ts + {t};
    forall n | n in data' && IsTaskNode(n, ts', path)
      ensures exists u | u in ts' :: path(u) == n && data'[n] == toJson(u)
    {
      if n == path(t) {
        assert path(t) == n && data'[n] == toJson(t);
      } else {
        var u :| u in ts' && path(u) == n;
        assert u in ts && n in nodes && n !in added;
        assert IsTaskNode(n, ts, path);
      }
    }
    forall n | n in nodes' && n !in nodes0 && !IsTaskNode(n, ts', path)
      ensures n in data' && data'[n] == dflt
    {
      assert n != path(t);
      assert !IsTaskNode(n, ts, path);
      if n !in nodes {
        assert n in added;
      }
    }
    forall n | n in data' && !IsTaskNode(n, ts', path) && (n in nodes0 || n !in nodes')
      ensures n in data0 && data'[n] == data0[n]
    {
      assert n != path(t);
      assert !IsTaskNode(n, ts, path);
      assert n !in added;
    }
  }

  /** Writing one more task node keeps `NodesWritten`. */
  lemma NodesWrittenStep(nodes0: set<string>, data0: map<string, string>,
                         nodes: set<string>, data: map<string, string>,
                         ts: set<ExecTask>, path: ExecTask -> string, toJson: ExecTask -> string, dflt: string, t: ExecTask)
    requires NodesWritten(nodes0, data0, nodes, data, ts, path, toJson, dflt)
    ensures path(t) in nodes + Elems(Ancestors(path(t)))
    ensures NodesWritten(nodes0, data0, nodes + Elems(Ancestors(path(t))),
                         StepData(nodes, data, path(t), toJson(t), dflt), ts + {t}, path, toJson, dflt)
  {
    assert Ancestors(path(t))[0] == path(t);
    NewNodesStep(nodes0, nodes, ts, path, t);
    DataFromStep(nodes0, data0, nodes, data, ts, path, toJson, dflt, t);
  }

  /** What `NodesWritten` means for one node: a task's node exists and holds
      the text of a task with that node; a node that existed and is no
      task's keeps its data; a new node that is no task's holds the default
      data. */
  lemma NodesWrittenMeaning(nodes0: set<string>, data0: map<string, string>,
                            nodes: set<string>, data: map<string, string>,
                            ts: set<ExecTask>, path: ExecTask -> string, toJson: ExecTask -> string, dflt: string, n: string)
    requires NodesWritten(nodes0, data0, nodes, data, ts, path, toJson, dflt)
    ensures IsTaskNode(n, ts, path) ==>
      n in nodes && n in data && exists t | t in ts :: path(t) == n && data[n] == toJson(t)
    ensures !IsTaskNode(n, ts, path) && n in nodes0 && n in data0 ==> n in data && data[n] == data0[n]
    ensures !IsTaskNode(n, ts, path) && n in nodes && n !in nodes0 ==> n in data && data[n] == dflt
  {
  }

  /** The tasks of one bean. */
  ghost function TasksOf(execTasks: seq<ExecTask>): set<ExecTask>
  {
    set t | t in execTasks
  }

  lemma TasksOfPrefix(execTasks: seq<ExecTask>, j: nat)
    requires j < |execTasks|
    ensures TasksOf(execTasks[..j + 1]) == TasksOf(execTasks[..j]) + {execTasks[j]}
  {
    assert execTasks[..j + 1] == execTasks[..j] + [execTasks[j]];
  }

  /** The tasks of the beans in `beans`. */
  ghost function TasksIn(reg: map<string, seq<ExecTask>>, beans: set<string>): set<ExecTask>
  {
    set b, t | b in beans && b in reg && t in reg[b] :: t
  }

  lemma TasksInStep(reg: map<string, seq<ExecTask>>, beans: set<string>, b: string)
    requires b in reg
    ensures TasksIn(reg, beans + {b}) == TasksIn(reg, beans) + TasksOf(reg[b])
  {
  }

  /** The body of the inner loop of `init_task_node`: create the task's
      node and write the task's text to it. */
  method WriteTaskNode(client: ZkClient, execTask: ExecTask, toJson: ExecTask -> string,
                       ghost nodes0: set<string>, ghost data0: map<string, string>, ghost ts: set<ExecTask>)
    requires NodesWritten(nodes0, data0, client.nodes, client.data, ts, NodePath, toJson, client.defaultData)
    modifies client
    ensures NodesWritten(nodes0, data0, client.nodes, client.data, ts + {execTask}, NodePath, toJson, client.defaultData)
  {
    var nodePath := PATH_TASK_SCHEDULE + LINE + execTask.beanName + LINE + execTask.methodName;
    ghost var nodes := client.nodes;
    ghost var data := client.data;
    NodesWrittenStep(nodes0, data0, nodes, data, ts, NodePath, toJson, client.defaultData, execTask);
    CreateNode(client, nodePath);
    client.SetData(nodePath, toJson(execTask));
    assert client.nodes == nodes + Elems(Ancestors(NodePath(execTask)));
    assert client.data == StepData(nodes, data, NodePath(execTask), toJson(execTask), client.defaultData);
  }

  /** The inner loop of `init_task_node`, over one bean's tasks. */
  method WriteTaskNodes(client: ZkClient, execTasks: seq<ExecTask>, toJson: ExecTask -> string,
                        ghost nodes0: set<string>, ghost data0: map<string, string>, ghost ts: set<ExecTask>)
    requires NodesWritten(nodes0, data0, client.nodes, client.data, ts, NodePath, toJson, client.defaultData)
    modifies client
    ensures NodesWritten(nodes0, data0, client.nodes, client.data, ts + TasksOf(execTasks), NodePath, toJson, client.defaultData)
  {
    ghost var written: set<ExecTask> := ts;
    TasksOfNone(execTasks);
    for j := 0 to |execTasks|
      invariant written == ts + TasksOf(execTasks[..j])
      invariant NodesWritten(nodes0, data0, client.nodes, client.data, written, NodePath, toJson, client.defaultData)
    {
      TasksOfPrefix(execTasks, j);
      WriteTaskNode(client, execTasks[j], toJson, nodes0, data0, written);
      written := written + {execTasks[j]};
    }
    TasksOfAll(execTasks);
  }

  lemma TasksOfNone(execTasks: seq<ExecTask>)
    ensures TasksOf(execTasks[..0]) == {}
  {
    assert execTasks[..0] == [];
  }

  lemma TasksOfAll(execTasks: seq<ExecTask>)
    ensures TasksOf(execTasks[..|execTasks|]) == TasksOf(execTasks)
  {
    assert execTasks[..|execTasks|] == execTasks;
  }

  lemma NodesWrittenStart(nodes: set<string>, data: map<string, string>, path: ExecTask -> string, toJson: ExecTask -> string, dflt: string)
    ensures NodesWritten(nodes, data, nodes, data, {}, path, toJson, dflt)
  {
  }

  /** The outer loop of `init_task_node`, over the registered beans. */
  method WriteAllTaskNodes(registry: Registry, client: ZkClient, toJson: ExecTask -> string)
    modifies client
    ensures NodesWritten(old(client.nodes), old(client.data), client.nodes, client.data,
                         TasksIn(registry.execTaskListMap, registry.execTaskListMap.Keys), NodePath, toJson, client.defaultData)
  {
    ghost var nodes0 := client.nodes;
    ghost var data0 := client.data;
    NodesWrittenStart(nodes0, data0, NodePath, toJson, client.defaultData);
    var reg := registry.execTaskListMap;
    var keys := reg.Keys;
    ghost var done: set<string> := {};
    assert TasksIn(reg, done) == {};
    while keys != {}
      invariant keys + done == reg.Keys && keys !! done
      invariant NodesWritten(nodes0, data0, client.nodes, client.data, TasksIn(reg, done), NodePath, toJson, client.defaultData)
      decreases |keys|
    {
      var beanName :| beanName in keys;
      WriteTaskNodes(client, reg[beanName], toJson, nodes0, data0, TasksIn(reg, done));
      TasksInStep(reg, done, beanName);
      done := done + {beanName};
      keys := keys - {beanName};
    }
  }

  /** `init_task_node`: the schedule root's subtree is deleted, then every
      registered task gets its node, created with its missing ancestors,
      holding the task's JSON text. */
  method InitTaskNode(registry: Registry, client: ZkClient, toJson: ExecTask -> string)
    modifies client
    ensures NodesWritten(Pruned(old(client.nodes), PATH_TASK_SCHEDULE),
                         PrunedData(old(client.nodes), old(client.data), PATH_TASK_SCHEDULE),
                         client.nodes, client.data,
                         TasksIn(registry.execTaskListMap, registry.execTaskListMap.Keys), NodePath, toJson, client.defaultData)
  {
    DeletingChildrenIfNeeded(client, PATH_TASK_SCHEDULE);
    WriteAllTaskNodes(registry, client, toJson);
  }
}
