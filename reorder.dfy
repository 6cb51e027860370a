/**
 * The reorder resolver of the board's drag-end handler, as functions: which
 * (stage, order) a drop asks for, whether it changes anything, and the task
 * list after the move. The lemmas state what a drop does to the board.
 */
module Reorder {
  import opened Wrappers
  import opened Tasks
  import opened Ordering
  import opened BoardQuery

  /** A stage and an order, the two fields a drop may change. */
  datatype Placement = Placement(stage: string, order: int)

  /** A resolved move: the task at position `index` takes `stage` and `order`. */
  datatype Move = Move(index: nat, stage: string, order: int)

  function PlacementOf(t: Task): Placement {
    Placement(t.stage, t.order)
  }

  /**
   * Where `active` is asked to go when dropped on `overId`. A stage id other
   * than the task's own stage appends it to that column: the new order is
   * the column's current length. Its own stage keeps both fields. A task id
   * copies that task's stage and order. Any other id keeps both fields.
   */
  function Resolve(project: Project, active: Task, overId: string): Placement {
    if overId in Stages then
      if overId != active.stage then Placement(overId, |TasksInStage(Some(project), overId)|)
      else PlacementOf(active)
    else
      match FindIndex(project.task, overId)
      case Some(j) => PlacementOf(project.task[j])
      case None => PlacementOf(active)
  }

  /**
   * The move a drag end performs, or `None` when it changes nothing: no drop
   * target, no project loaded, no task with the dragged id, or a resolved
   * placement equal to the task's current one.
   */
  function DropOutcome(project: Option<Project>, activeId: string, over: Option<string>): (m: Option<Move>)
    ensures m.Some? ==> project.Some? && over.Some?
    ensures m.Some? ==> FindIndex(project.value.task, activeId) == Some(m.value.index)
    ensures m.Some? ==> Placement(m.value.stage, m.value.order) != PlacementOf(project.value.task[m.value.index])
  {
    if over.None? || project.None? then None
    else
      match FindIndex(project.value.task, activeId)
      case None => None
      case Some(i) =>
        var p := Resolve(project.value, project.value.task[i], over.value);
        if p == PlacementOf(project.value.task[i]) then None else Some(Move(i, p.stage, p.order))
  }

  /** The task list after a move: one task gets the new stage and order. */
  function Apply(tasks: seq<Task>, m: Move): (r: seq<Task>)
    requires m.index < |tasks|
    ensures |r| == |tasks|
    ensures forall j :: 0 <= j < |r| ==> r[j].id == tasks[j].id
    ensures forall j :: 0 <= j < |r| && j != m.index ==> r[j] == tasks[j]
    ensures PlacementOf(r[m.index]) == Placement(m.stage, m.order)
    ensures r[m.index].(stage := tasks[m.index].stage, order := tasks[m.index].order) == tasks[m.index]
  {
    tasks[m.index := tasks[m.index].(stage := m.stage, order := m.order)]
  }

  /** The project after a move. */
  function Moved(p: Project, m: Move): (q: Project)
    requires m.index < |p.task|
    ensures q.id == p.id && q.title == p.title && q.description == p.description
    ensures q.task == Apply(p.task, m)
  {
    p.(task := Apply(p.task, m))
  }

  /** Without a drop target, without a project, or without a task carrying
      the dragged id, a drag end does nothing. */
  lemma NoTargetNoProjectNoTask(project: Option<Project>, activeId: string, over: Option<string>)
    requires over.None? || project.None? || forall j :: 0 <= j < |project.value.task| ==> project.value.task[j].id != activeId
    ensures DropOutcome(project, activeId, over) == None
  {
  }

  /** Dropping on the column of another stage moves the task there, with the
      number of tasks that column holds before the move as its order. */
  lemma DropOnOtherColumn(p: Project, activeId: string, i: nat, s: string)
    requires FindIndex(p.task, activeId) == Some(i)
    requires s in Stages && s != p.task[i].stage
    ensures DropOutcome(Some(p), activeId, Some(s)) == Some(Move(i, s, |FilterStage(p.task, s)|))
  {
  }

  /** Dropping on the task's own column changes nothing. */
  lemma DropOnOwnColumn(p: Project, activeId: string, i: nat)
    requires FindIndex(p.task, activeId) == Some(i)
    requires p.task[i].stage in Stages
    ensures DropOutcome(Some(p), activeId, Some(p.task[i].stage)) == None
  {
  }

  /** Dropping on a task (found by the first task with that id) gives the
      dragged task that task's stage and order; it is a change exactly when
      the two placements differ, so dropping a task on itself does nothing. */
  lemma DropOnTask(p: Project, activeId: string, i: nat, overId: string, j: nat)
    requires FindIndex(p.task, activeId) == Some(i)
    requires overId !in Stages && FindIndex(p.task, overId) == Some(j)
    ensures DropOutcome(Some(p), activeId, Some(overId))
         == if PlacementOf(p.task[j]) == PlacementOf(p.task[i]) then None
            else Some(Move(i, p.task[j].stage, p.task[j].order))
    ensures j == i ==> DropOutcome(Some(p), activeId, Some(overId)) == None
  {
  }

  /** Dropping on an id that is neither a stage nor a task changes nothing. */
  lemma DropOnUnknownId(p: Project, activeId: string, overId: string)
    requires overId !in Stages
    requires forall j :: 0 <= j < |p.task| ==> p.task[j].id != overId
    ensures DropOutcome(Some(p), activeId, Some(overId)) == None
  {
  }

  /** Repeating a drop on the board it produced changes nothing more. */
  lemma RedropIsNoop(p: Project, activeId: string, over: Option<string>, m: Move)
    requires DropOutcome(Some(p), activeId, over) == Some(m)
    ensures DropOutcome(Some(Moved(p, m)), activeId, over) == None
  {
    var ts, us := p.task, Apply(p.task, m);
    var i := m.index;
    FindIndexSameIds(ts, us, activeId);
    FindIndexSameIds(ts, us, over.value);
    if over.value !in Stages {
      var j := FindIndex(ts, over.value).value;
      assert j != i;
      assert us[j] == ts[j];
    }
  }

  /** Columns other than the one left and the one entered are the same
      after the move. */
  lemma UntouchedColumnsUnchanged(p: Project, activeId: string, over: Option<string>, m: Move, s: string)
    requires DropOutcome(Some(p), activeId, over) == Some(m)
    requires s != p.task[m.index].stage && s != m.stage
    ensures TasksInStage(Some(Moved(p, m)), s) == TasksInStage(Some(p), s)
  {
    FilterStageUpdateOutside(p.task, m.index, Apply(p.task, m)[m.index], s);
    assert Apply(p.task, m) == p.task[m.index := Apply(p.task, m)[m.index]];
  }

  /**
   * Moving a task to a column whose orders are all below its length (as
   * they are when the column is numbered 0..n-1) puts it last: the column
   * becomes the old column followed by the moved task.
   */
  lemma ColumnDropAppendsAtEnd(p: Project, activeId: string, i: nat, s: string)
    requires FindIndex(p.task, activeId) == Some(i)
    requires s in Stages && s != p.task[i].stage
    requires forall j :: 0 <= j < |p.task| && p.task[j].stage == s ==> p.task[j].order < |FilterStage(p.task, s)|
    ensures var m := Move(i, s, |TasksInStage(Some(p), s)|);
      DropOutcome(Some(p), activeId, Some(s)) == Some(m) &&
      TasksInStage(Some(Moved(p, m)), s) == TasksInStage(Some(p), s) + [Moved(p, m).task[i]]
  {
    var m := Move(i, s, |FilterStage(p.task, s)|);
    DropOnOtherColumn(p, activeId, i, s);
    FilterStageBound(p.task, s, |FilterStage(p.task, s)|);
    var x := Apply(p.task, m)[i];
    assert Apply(p.task, m) == p.task[i := x];
    ColumnGainsGreatest(p.task, i, x, s);
  }

  /** A task entering a column with an order above all of the column's
      orders lands at the end of it. */
  lemma ColumnGainsGreatest(ts: seq<Task>, i: nat, x: Task, s: string)
    requires i < |ts| && ts[i].stage != s && x.stage == s
    requires forall t :: t in FilterStage(ts, s) ==> t.order < x.order
    ensures SortByOrder(FilterStage(ts[i := x], s)) == SortByOrder(FilterStage(ts, s)) + [x]
  {
    var f := FilterStage(ts, s);
    FilterStageMoveIn(ts, i, x, s);
    SplitTwo(f, FilterStage(ts[..i], s), FilterStage(ts[i + 1..], s));
    SortAppendGreatest(f, |FilterStage(ts[..i], s)|, x);
  }

  /**
   * Moving a task out of its column leaves the tasks staying behind in the
   * same relative order: the column loses the moved task and nothing else.
   */
  lemma VacatedColumnKeepsOrder(p: Project, activeId: string, over: Option<string>, m: Move) returns (k: nat)
    requires DropOutcome(Some(p), activeId, over) == Some(m)
    requires m.stage != p.task[m.index].stage
    ensures var col := TasksInStage(Some(p), p.task[m.index].stage);
      k < |col| && col[k] == p.task[m.index] &&
      TasksInStage(Some(Moved(p, m)), p.task[m.index].stage) == col[..k] + col[k + 1..]
  {
    var ts, i := p.task, m.index;
    var x := Apply(ts, m)[i];
    assert Apply(ts, m) == ts[i := x];
    k := ColumnLosesTask(ts, i, x);
  }

  /** A task leaving its column takes out one entry of the sorted column
      and leaves the others in their order. */
  lemma ColumnLosesTask(ts: seq<Task>, i: nat, x: Task) returns (k: nat)
    requires i < |ts| && x.stage != ts[i].stage
    ensures var col := SortByOrder(FilterStage(ts, ts[i].stage));
      k < |col| && col[k] == ts[i] &&
      SortByOrder(FilterStage(ts[i := x], ts[i].stage)) == col[..k] + col[k + 1..]
  {
    var a := ts[i].stage;
    var f := FilterStage(ts, a);
    var pre := FilterStage(ts[..i], a);
    FilterStageMoveOut(ts, i, x, a);
    SplitThree(f, pre, ts[i], FilterStage(ts[i + 1..], a));
    k := SortRemove(f, |pre|);
  }

  /** The pieces of a list made of two parts. */
  lemma SplitTwo(w: seq<Task>, a: seq<Task>, b: seq<Task>)
    requires w == a + b
    ensures w[..|a|] == a && w[|a|..] == b
  {
  }

  /** The pieces of a list made of a part, one task and a part. */
  lemma SplitThree(w: seq<Task>, a: seq<Task>, x: Task, b: seq<Task>)
    requires w == a + [x] + b
    ensures |a| < |w| && w[..|a|] == a && w[|a|] == x && w[|a| + 1..] == b
  {
  }
}
