/** The data of the distributed task scheduler: the annotation on a task
    method, the task found on a bean, the instruct sent through ZooKeeper, the
    runnable handed to the scheduler, and the fixed paths. */
module TaskTypes {
  import opened Base

  /** The `SchedulerTaskDesc` annotation. */
  datatype TaskDesc = TaskDesc(cron: string, autoStart: bool, desc: string)

  /** The annotation's defaults: every five seconds, started at boot. */
  const DEFAULT_CRON: string := "0/5 * * * * ?"
  const DefaultTaskDesc := TaskDesc(DEFAULT_CRON, true, "")

  /** A task method found on a bean. */
  datatype ExecTask = ExecTask(bean: Value, beanName: string, methodName: string, cron: string, autoStart: bool, desc: string)

  /** A start/stop order; absent JSON fields are null. */
  datatype Instruct = Instruct(ip: Option<string>, beanName: Option<string>, methodName: Option<string>, status: bool)

  /** What the scheduler runs: a bean's method. */
  datatype TaskRunnable = TaskRunnable(bean: Value, beanName: string, methodName: string)

  const LINE: string := "/"
  const PATH_TASK_EXEC: string := "/taskschedule/exec"
  const PATH_TASK_SCHEDULE: string := "/taskschedule/task"

  /** `getTaskId`: bean name, an underscore, method name. */
  function TaskId(r: TaskRunnable): string
  {
    r.beanName + "_" + r.methodName
  }

  /** The id keeps both names around the underscore. */
  lemma TaskIdParts(r: TaskRunnable)
    ensures var id := TaskId(r);
      && |id| == |r.beanName| + 1 + |r.methodName|
      && id[..|r.beanName|] == r.beanName
      && id[|r.beanName|] == '_'
      && id[|r.beanName| + 1..] == r.methodName
  {
    var id := TaskId(r);
    assert id[..|r.beanName|] == r.beanName;
    assert id[|r.beanName| + 1..] == r.methodName;
  }

  /** Underscores are not escaped: two different tasks can share an id, so
      one can block or stop the other. */
  lemma TaskIdsCanCollide(bean: Value)
    ensures TaskId(TaskRunnable(bean, "a_b", "c")) == TaskId(TaskRunnable(bean, "a", "b_c"))
  {
  }
}
