/** The schedule table: task id to the scheduled future, with guarded adds
    and removes.  The scheduler itself is abstracted: scheduling yields a
    future that remembers what it runs and on which cron expression, and
    cancelling it is recorded. */
module TaskSchedule {
  import opened Base
  import opened TaskTypes

  /** A `TaskScheduled` with its future. */
  datatype Scheduled = Scheduled(runnable: TaskRunnable, cron: string)

  type ScheduleMap = map<string, Scheduled>

  /** `addTaskSchedule` on the table's content. */
  function Add(m: ScheduleMap, r: TaskRunnable, cron: string): ScheduleMap
  {
    if TaskId(r) in m then m else m[TaskId(r) := Scheduled(r, cron)]
  }

  /** `removeTaskSchedule` on the table's content. */
  function Remove(m: ScheduleMap, taskId: string): ScheduleMap
  {
    if taskId !in m then m else m - {taskId}
  }

  /** Adding a present id changes nothing; adding a new one stores exactly
      that entry and leaves the others alone. */
  lemma AddEffect(m: ScheduleMap, r: TaskRunnable, cron: string)
    ensures TaskId(r) in m ==> Add(m, r, cron) == m
    ensures TaskId(r) !in m ==>
      && Add(m, r, cron).Keys == m.Keys + {TaskId(r)}
      && Add(m, r, cron)[TaskId(r)] == Scheduled(r, cron)
      && forall id | id in m :: Add(m, r, cron)[id] == m[id]
  {
  }

  /** A second add of the same id, with any runnable and cron, is a no-op. */
  lemma AddIdempotent(m: ScheduleMap, r: TaskRunnable, cron: string, r': TaskRunnable, cron': string)
    requires TaskId(r') == TaskId(r)
    ensures Add(Add(m, r, cron), r', cron') == Add(m, r, cron)
  {
  }

  /** Removing an absent id changes nothing; removing a present one deletes
      only it. */
  lemma RemoveEffect(m: ScheduleMap, taskId: string)
    ensures taskId !in m ==> Remove(m, taskId) == m
    ensures Remove(m, taskId).Keys == m.Keys - {taskId}
    ensures forall id | id in Remove(m, taskId) :: Remove(m, taskId)[id] == m[id]
  {
  }

  /** Adding a new task and removing its id restores the table. */
  lemma AddThenRemoveRestores(m: ScheduleMap, r: TaskRunnable, cron: string)
    requires TaskId(r) !in m
    ensures Remove(Add(m, r, cron), TaskId(r)) == m
  {
    assert Remove(Add(m, r, cron), TaskId(r)).Keys == m.Keys;
  }

  class TaskScheduleCtrl {
    var taskScheduledMap: ScheduleMap
    /** The futures cancelled so far, in order. */
    var cancelled: seq<Scheduled>

    constructor()
      ensures taskScheduledMap == map[] && cancelled == []
    {
      taskScheduledMap := map[];
      cancelled := [];
    }

    method AddTaskSchedule(taskRunnable: TaskRunnable, cron: string)
      modifies this
      ensures taskScheduledMap == Add(old(taskScheduledMap), taskRunnable, cron)
      ensures cancelled == old(cancelled)
    {
      if TaskId(taskRunnable) in taskScheduledMap {
        return;
      }
      var taskScheduled := Scheduled(taskRunnable, cron);
      taskScheduledMap := taskScheduledMap[TaskId(taskRunnable) := taskScheduled];
    }

    method RemoveTaskSchedule(taskId: string)
      modifies this
      ensures taskScheduledMap == Remove(old(taskScheduledMap), taskId)
      ensures cancelled == old(cancelled) + (if taskId in old(taskScheduledMap) then [old(taskScheduledMap)[taskId]] else [])
    {
      if taskId !in taskScheduledMap {
        return;
      }
      var taskScheduled := taskScheduledMap[taskId];
      taskScheduledMap := taskScheduledMap - {taskId};
      cancelled := cancelled + [taskScheduled];
    }
  }

  /** A task started, started again and stopped leaves no entry, and its one
      future is cancelled once. */
  method StartTwiceThenStop(r: TaskRunnable, cron: string, cron': string)
    returns (remaining: ScheduleMap, cancelled: seq<Scheduled>)
    ensures remaining == map[]
    ensures cancelled == [Scheduled(r, cron)]
  {
    var ctrl := new TaskScheduleCtrl();
    ctrl.AddTaskSchedule(r, cron);
    ctrl.AddTaskSchedule(r, cron');
    ctrl.RemoveTaskSchedule(TaskId(r));
    remaining := ctrl.taskScheduledMap;
    cancelled := ctrl.cancelled;
  }
}
