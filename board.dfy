/**
 * The board component's state and its drag handlers. `project` is the
 * loaded project (if any) and `activeId` the id of the task being dragged.
 * A drag end resolves the drop, applies the move to the board before anything
 * is sent, and returns the payload the handler sends to the server.
 */
module KanbanBoard {
  import opened Wrappers
  import opened Tasks
  import opened BoardQuery
  import opened Reorder
  import opened Payload

  class Board {
    var project: Option<Project>
    var activeId: Option<string>

    /** The board before the first fetch: no project, nothing dragged. */
    constructor ()
      ensures project.None? && activeId.None?
    {
      project := None;
      activeId := None;
    }

    /** A fetch of the project from the server replaces the board by the
        server's copy; this is also how a failed save is rolled back. */
    method Load(snapshot: Option<Project>)
      modifies this
      ensures project == snapshot && activeId == old(activeId)
    {
      project := snapshot;
    }

    /** A drag starts: the dragged task's id becomes the active id. */
    method DragStart(id: string)
      modifies this
      ensures activeId == Some(id) && project == old(project)
    {
      activeId := Some(id);
    }

    /**
     * A drag ends with the task `activeTaskId` over the drop target `over`.
     * The active id is cleared whatever happens. When the drop resolves to a
     * move, the board takes the moved task list at once and `request` is the
     * payload built from that list; otherwise nothing changes and nothing is
     * sent.
     */
    method DragEnd(activeTaskId: string, over: Option<string>) returns (request: Option<map<string, Group>>)
      modifies this
      ensures activeId.None?
      ensures var m := DropOutcome(old(project), activeTaskId, over);
        if m.None? then project == old(project) && request.None?
        else project == Some(Moved(old(project).value, m.value)) && request == Some(StageGroups(project.value.task))
    {
      activeId := None;
      request := None;
      if over.None? || project.None? {
        return;
      }
      var p := project.value;
      var found := FindIndex(p.task, activeTaskId);
      if found.None? {
        return;
      }
      var activeTask := p.task[found.value];

      var newStage, newOrder := ResolveDrop(p, activeTask, over.value);
      assert Placement(newStage, newOrder) == Resolve(p, p.task[found.value], over.value);

      if activeTask.stage == newStage && activeTask.order == newOrder {
        assert DropOutcome(old(project), activeTaskId, over) == None;
        return;
      }
      ghost var m := Move(found.value, newStage, newOrder);
      assert DropOutcome(old(project), activeTaskId, over) == Some(m);

      var updatedTasks := p.task;
      // the same search as the one that found the active task, so it
      // finds it at the same position
      assert FindIndex(updatedTasks, activeTask.id) == found;
      var taskIndex := FindIndex(updatedTasks, activeTask.id).value;
      updatedTasks := updatedTasks[taskIndex := activeTask.(stage := newStage, order := newOrder)];

      assert updatedTasks == Apply(p.task, m);
      project := Some(p.(task := updatedTasks));

      var stageGroups := BuildStageGroups(updatedTasks, Stages);
      request := Some(stageGroups);
    }

    /**
     * The stage and order a drop asks for, computed the way the drag-end
     * handler does: start from the task's own stage and order, then let a
     * column id or a task id override them.
     */
    static method ResolveDrop(p: Project, activeTask: Task, overId: string) returns (newStage: string, newOrder: int)
      ensures Placement(newStage, newOrder) == Resolve(p, activeTask, overId)
    {
      newStage := activeTask.stage;
      newOrder := activeTask.order;
      if overId in Stages {
        newStage := overId;
        if newStage != activeTask.stage {
          var tasksInNewStage := TasksInStage(Some(p), newStage);
          newOrder := |tasksInNewStage|;
        }
      } else {
        var overFound := FindIndex(p.task, overId);
        if overFound.Some? {
          var overTask := p.task[overFound.value];
          newStage := overTask.stage;
          newOrder := overTask.order;
        }
      }
    }
  }
}
