/**
 * The board's column query: the tasks of one stage, sorted by order with a
 * stable sort. The same filter-then-sort builds each group of the persisted
 * payload.
 */
module BoardQuery {
  import opened Wrappers
  import opened Tasks
  import opened Ordering

  /** The tasks of `ts` in stage `s`, stably sorted by order. */
  function StageColumn(ts: seq<Task>, s: string): seq<Task> {
    SortByOrder(FilterStage(ts, s))
  }

  /** The column of stage `s` holds exactly the tasks of that stage, as often
      as the list does, sorted by order, tasks of equal order in list order. */
  lemma StageColumnSpec(ts: seq<Task>, s: string)
    ensures var r := StageColumn(ts, s);
      (forall t :: multiset(r)[t] == if t.stage == s then multiset(ts)[t] else 0) &&
      |r| == |FilterStage(ts, s)| &&
      Sorted(r) &&
      (forall k :: FilterOrder(r, k) == FilterOrder(FilterStage(ts, s), k))
  {
    forall t ensures multiset(StageColumn(ts, s))[t] == if t.stage == s then multiset(ts)[t] else 0 {
      FilterStageCount(ts, s, t);
    }
  }

  /** The column shown for stage `s`; empty while no project is loaded. */
  function TasksInStage(project: Option<Project>, s: string): (r: seq<Task>)
    ensures project.None? ==> r == []
    ensures forall t :: multiset(r)[t] == if project.Some? && t.stage == s then multiset(project.value.task)[t] else 0
    ensures Sorted(r)
    ensures project.Some? ==> forall k :: FilterOrder(r, k) == FilterOrder(FilterStage(project.value.task, s), k)
  {
    if project.None? then []
    else
      StageColumnSpec(project.value.task, s);
      StageColumn(project.value.task, s)
  }

  /** A task is shown in the column of stage `s` exactly when it is one of the
      project's tasks and its stage is `s`. */
  lemma TasksInStageMembers(project: Option<Project>, s: string, t: Task)
    ensures t in TasksInStage(project, s) <==> project.Some? && t in project.value.task && t.stage == s
  {
    var r := TasksInStage(project, s);
    assert t in r <==> t in multiset(r);
    if project.Some? {
      assert t in project.value.task <==> t in multiset(project.value.task);
    }
  }
}
