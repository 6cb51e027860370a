/**
 * Worked drags on a two-task board, showing that a drop sends the orders
 * the tasks carry and renumbers nothing. Three consequences follow. The
 * tasks left behind keep their orders. A drop on a task ties two orders,
 * and the tie is shown in task-list order, whatever the column showed
 * before. A drop on a column can land a task above the tasks already there.
 */
module Scenario {
  import opened Wrappers
  import opened Tasks
  import opened Ordering
  import opened BoardQuery
  import opened Reorder
  import opened Payload

  /** The board of every scenario: "To do" holds X (order 0) and Y (order
      1), in that list order, and every other column is empty. */
  const X := Task("x", "X", "", "To do", 0, 0, "")
  const Y := Task("y", "Y", "", "To do", 1, 1, "")
  const Start := Project("p", "P", "", [X, Y])

  /** The column of stage `s` is the sort of the stage filter `f`. */
  lemma ColumnFrom(p: Project, s: string, f: seq<Task>)
    requires FilterStage(p.task, s) == f
    ensures TasksInStage(Some(p), s) == SortByOrder(f)
  {
  }

  /** A list of one task is already sorted. */
  lemma SortOne(a: Task)
    ensures SortByOrder([a]) == [a]
  {
    assert [a][1..] == [];
  }

  /** A list of two tasks in order is already sorted. */
  lemma SortTwo(a: Task, b: Task)
    requires a.order <= b.order
    ensures SortByOrder([a, b]) == [a, b]
  {
    assert [a, b][1..] == [b];
    SortOne(b);
    assert Insert(a, [b]) == [a, b];
  }

  /**
   * Dropping X on the empty "Done" column moves it there with order 0.
   * "To do" is left with Y alone, and the payload sends Y with order 1: it
   * is not renumbered to 0.
   */
  lemma DropOnEmptyColumnKeepsOrders()
    ensures var m := Move(0, "Done", 0);
      DropOutcome(Some(Start), "x", Some("Done")) == Some(m) &&
      TasksInStage(Some(Moved(Start, m)), "To do") == [Y] &&
      TasksInStage(Some(Moved(Start, m)), "Done") == [X.(stage := "Done")] &&
      StageGroups(Moved(Start, m).task)["To do"] == Group("To do", [Y]) &&
      StageGroups(Moved(Start, m).task)["To do"].items[0].order == 1
  {
    var m := Move(0, "Done", 0);
    assert FindIndex(Start.task, "x") == Some(0);
    assert FilterStage(Start.task, "Done") == [];
    var us := Moved(Start, m).task;
    assert us == [X.(stage := "Done"), Y];
    assert FilterStage(us, "To do") == [Y];
    assert FilterStage(us, "Done") == [X.(stage := "Done")];
  }

  /** A list of two tasks out of order is sorted by swapping them. */
  lemma SortTwoSwapped(a: Task, b: Task)
    requires a.order > b.order
    ensures SortByOrder([a, b]) == [b, a]
  {
    assert [a, b][1..] == [b];
    SortOne(b);
    SortOne(a);
    assert Insert(a, [b]) == [b] + Insert(a, []);
  }

  /** A board of two tasks of stage `s` in order shows them in list order. */
  lemma TwoTaskColumn(p: Project, s: string, a: Task, b: Task)
    requires p.task == [a, b] && a.stage == s && b.stage == s
    requires a.order <= b.order
    ensures TasksInStage(Some(p), s) == [a, b]
  {
    assert FilterStage(p.task, s) == [a, b];
    ColumnFrom(p, s, [a, b]);
    SortTwo(a, b);
  }

  /** A board of two tasks of stage `s` out of order shows them swapped. */
  lemma TwoTaskColumnSwapped(p: Project, s: string, a: Task, b: Task)
    requires p.task == [a, b] && a.stage == s && b.stage == s
    requires a.order > b.order
    ensures TasksInStage(Some(p), s) == [b, a]
  {
    assert FilterStage(p.task, s) == [a, b];
    ColumnFrom(p, s, [a, b]);
    SortTwoSwapped(a, b);
  }

  /** The ids of the starting board and its "To do" column. */
  lemma StartFacts()
    ensures FindIndex(Start.task, "x") == Some(0) && FindIndex(Start.task, "y") == Some(1)
    ensures "x" !in Stages && "y" !in Stages
    ensures TasksInStage(Some(Start), "To do") == [X, Y]
  {
    TwoTaskColumn(Start, "To do", X, Y);
  }

  /**
   * Dropping X on Y copies Y's order into X, so both carry order 1. It is a
   * move, and a request is sent. The tie is shown in task-list order, and X
   * comes first in the list, as it does in the column: the column keeps
   * its sequence.
   */
  lemma DropOnNextTaskTiesOrders()
    ensures var m := Move(0, "To do", 1);
      TasksInStage(Some(Start), "To do") == [X, Y] &&
      DropOutcome(Some(Start), "x", Some("y")) == Some(m) &&
      TasksInStage(Some(Moved(Start, m)), "To do") == [X.(order := 1), Y]
  {
    StartFacts();
    DropOnTask(Start, "x", 0, "y", 1);
    var m := Move(0, "To do", 1);
    assert Moved(Start, m).task == [X.(order := 1), Y];
    TwoTaskColumn(Moved(Start, m), "To do", X.(order := 1), Y);
  }

  /**
   * Dropping Y on X copies X's order into Y, so both carry order 0. It is a
   * move. X comes first in the task list, as it does in the column, so the
   * column still shows X above Y.
   */
  lemma DropOnPreviousTaskTiesOrders()
    ensures var m := Move(1, "To do", 0);
      TasksInStage(Some(Start), "To do") == [X, Y] &&
      DropOutcome(Some(Start), "y", Some("x")) == Some(m) &&
      TasksInStage(Some(Moved(Start, m)), "To do") == [X, Y.(order := 0)]
  {
    StartFacts();
    DropOnTask(Start, "y", 1, "x", 0);
    var m := Move(1, "To do", 0);
    assert Moved(Start, m).task == [X, Y.(order := 0)];
    TwoTaskColumn(Moved(Start, m), "To do", X, Y.(order := 0));
  }

  /** The board after X is dropped on the empty "Done" column. */
  const Parked := Project("p", "P", "", [X.(stage := "Done"), Y])

  /** After the first drop, "To do" holds Y alone. */
  lemma ParkedColumn()
    ensures Moved(Start, Move(0, "Done", 0)) == Parked
    ensures TasksInStage(Some(Parked), "To do") == [Y]
  {
    assert Apply(Start.task, Move(0, "Done", 0)) == Parked.task;
    assert FilterStage(Parked.task, "To do") == [Y];
    ColumnFrom(Parked, "To do", [Y]);
    SortOne(Y);
  }

  /** The second drop takes X back to "To do" with order 1, above Y. */
  lemma ReturnedColumn()
    ensures DropOutcome(Some(Parked), "x", Some("To do")) == Some(Move(0, "To do", 1))
    ensures TasksInStage(Some(Moved(Parked, Move(0, "To do", 1))), "To do") == [X.(order := 1), Y]
  {
    var m2 := Move(0, "To do", 1);
    assert FilterStage(Parked.task, "To do") == [Y];
    assert FindIndex(Parked.task, "x") == Some(0);
    DropOnOtherColumn(Parked, "x", 0, "To do");
    var us := Moved(Parked, m2).task;
    assert us == [X.(order := 1), Y];
    assert FilterStage(us, "To do") == us;
    ColumnFrom(Moved(Parked, m2), "To do", us);
    SortTwo(X.(order := 1), Y);
  }

  /**
   * A drop on a column need not put the task at the end. X is dropped on
   * "Done" (order 0), then back on "To do". That column holds only Y, so X
   * gets order 1, the same as Y. X is still first in the task list, so the
   * column shows X above Y instead of after it.
   */
  lemma ColumnDropNotAtEnd()
    ensures var m2 := Move(0, "To do", 1);
      Moved(Start, Move(0, "Done", 0)) == Parked &&
      TasksInStage(Some(Parked), "To do") == [Y] &&
      DropOutcome(Some(Parked), "x", Some("To do")) == Some(m2) &&
      TasksInStage(Some(Moved(Parked, m2)), "To do") == [X.(order := 1), Y] &&
      TasksInStage(Some(Moved(Parked, m2)), "To do") != TasksInStage(Some(Parked), "To do") + [Moved(Parked, m2).task[0]]
  {
    ParkedColumn();
    ReturnedColumn();
    var m2 := Move(0, "To do", 1);
    assert Moved(Parked, m2).task[0] == X.(order := 1);
    assert [Y] + [X.(order := 1)] != [X.(order := 1), Y] by {
      assert ([Y] + [X.(order := 1)])[0] == Y;
    }
  }

  /** Y and X after each was dropped on the empty-or-short "Done" column:
      Y first, with order 0, then X, with order 1. */
  const YDone := Task("y", "Y", "", "Done", 0, 1, "")
  const XDone := Task("x", "X", "", "Done", 1, 0, "")
  /** Y after it is dropped on X in `BothDone`: X's order 1. */
  const YTied := Task("y", "Y", "", "Done", 1, 1, "")
  const HalfDone := Project("p", "P", "", [X, YDone])
  const BothDone := Project("p", "P", "", [XDone, YDone])

  /** Y dropped on the empty "Done" column gets order 0. */
  lemma FirstDropOnDone()
    ensures DropOutcome(Some(Start), "y", Some("Done")) == Some(Move(1, "Done", 0))
    ensures Moved(Start, Move(1, "Done", 0)) == HalfDone
  {
    assert FindIndex(Start.task, "y") == Some(1);
    assert FilterStage(Start.task, "Done") == [];
    DropOnOtherColumn(Start, "y", 1, "Done");
    assert Apply(Start.task, Move(1, "Done", 0)) == HalfDone.task;
  }

  /** X dropped next on "Done", which holds only Y, gets order 1. */
  lemma SecondDropOnDone()
    ensures DropOutcome(Some(HalfDone), "x", Some("Done")) == Some(Move(0, "Done", 1))
    ensures Moved(HalfDone, Move(0, "Done", 1)) == BothDone
  {
    assert FindIndex(HalfDone.task, "x") == Some(0);
    assert FilterStage(HalfDone.task, "Done") == [YDone];
    DropOnOtherColumn(HalfDone, "x", 0, "Done");
    assert Apply(HalfDone.task, Move(0, "Done", 1)) == BothDone.task;
  }

  /** The ids of `BothDone` and its "Done" column, Y above X. */
  lemma BothDoneFacts()
    ensures FindIndex(BothDone.task, "y") == Some(1) && FindIndex(BothDone.task, "x") == Some(0)
    ensures "x" !in Stages
    ensures TasksInStage(Some(BothDone), "Done") == [YDone, XDone]
  {
    TwoTaskColumnSwapped(BothDone, "Done", XDone, YDone);
  }

  /** Y dropped on X in `BothDone` takes X's stage and order. */
  lemma BothDoneDrop()
    ensures DropOutcome(Some(BothDone), "y", Some("x")) == Some(Move(1, "Done", 1))
    ensures Moved(BothDone, Move(1, "Done", 1)).task == [XDone, YTied]
  {
    BothDoneFacts();
    DropOnTask(BothDone, "y", 1, "x", 0);
  }

  /** From `Start`, Y and then X are dropped on the "Done" column. "Done"
      then shows Y above X, while the task list still holds X first. */
  lemma ReachBothDone()
    ensures DropOutcome(Some(Start), "y", Some("Done")) == Some(Move(1, "Done", 0))
    ensures Moved(Start, Move(1, "Done", 0)) == HalfDone
    ensures DropOutcome(Some(HalfDone), "x", Some("Done")) == Some(Move(0, "Done", 1))
    ensures Moved(HalfDone, Move(0, "Done", 1)) == BothDone
    ensures TasksInStage(Some(BothDone), "Done") == [YDone, XDone]
  {
    FirstDropOnDone();
    SecondDropOnDone();
    BothDoneFacts();
  }

  /**
   * A drop on a task can reorder the column. On `BothDone`, "Done" shows Y
   * above X. Dropping Y on X gives Y order 1, the same as X. The tie is
   * shown in task-list order, where X comes first, so Y moves below X.
   */
  lemma DropOnTaskTieFollowsListOrder()
    ensures var m := Move(1, "Done", 1);
      TasksInStage(Some(BothDone), "Done") == [YDone, XDone] &&
      DropOutcome(Some(BothDone), "y", Some("x")) == Some(m) &&
      TasksInStage(Some(Moved(BothDone, m)), "Done") == [XDone, YTied]
  {
    BothDoneFacts();
    BothDoneDrop();
    TwoTaskColumn(Moved(BothDone, Move(1, "Done", 1)), "Done", XDone, YTied);
  }
}
