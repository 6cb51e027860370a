# Kanban board reorder, modelled in Dafny

This project models how a project's kanban board reorders tasks. It covers
the board component's task and project records, the four stage names, and the
column query. It also covers the two drag handlers. Drag start records the
dragged task's id. Drag end does four things:

- It resolves where the task was dropped: other stage's column, own column,
  another task, or an unknown id.
- It skips a drop that changes nothing.
- It applies the move to the board before anything is sent.
- It builds the stage-grouped payload for the server: one entry per stage,
  holding that stage's tasks sorted by order.

Files and modules:

- `wrappers.dfy` (`Wrappers`): the `Option` type. It stands for the source's
  `null` and `undefined`.
- `tasks.dfy` (`Tasks`): the `Task` and `Project` records and the stage list.
  It also has `FindIndex`, the first task with a given id, which is what both
  `find` and `findIndex` select. `FilterStage` is the stage filter.
- `ordering.dfy` (`Ordering`): the stable sort by `order`, and its
  properties. JavaScript's `Array.prototype.sort` is stable, and the
  comparator `a.order - b.order` sorts ascending.
- `board_query.dfy` (`BoardQuery`): the column query `getTasksByStage`.
- `reorder.dfy` (`Reorder`): the drop resolver and the move, as functions.
  The lemmas say what each kind of drop does to the board.
- `payload.dfy` (`Payload`): the `stageGroups` record and the loop that
  builds it.
- `board.dfy` (`KanbanBoard`): the component's state as a class. Its
  `project` and `activeId` fields are updated by the handlers.
- `scenario.dfy` (`Scenario`): worked drags on a board of two tasks, X and Y.

Ids are strings. A JavaScript `number` (`order`, `index`) is modelled as an
unbounded `int`. A drop target (`over`) is an `Option<string>`: `None` is a
drag released over nothing. The server request is not sent. `DragEnd`
returns the payload it would send, and `None` when it sends nothing.

The client sends each task with the order it carries and renumbers nothing
(Task.tsx:341-347). The system's design notes, which are not part of this
project, describe a client that re-derives dense orders 0..n-1 per stage
and a column sorted strictly ascending. Where they and the code disagree,
the model follows the code:

- Tasks left behind keep their orders. X (order 0) and Y (order 1) are in
  "To do", and X is dragged to "Done". Y is sent with order 1, not 0
  (`Scenario.DropOnEmptyColumnKeepsOrders`).
- Orders can be equal. A drop on a task copies that task's order, so the
  model's `Sorted` is non-strict.
- A drop on a task ties two orders, and the tie is shown in task-list
  order. The dragged task takes the target's order, and the stable sort
  (Task.tsx:284) orders tasks of equal order by their position in the task
  list, not by where the column showed them before. That is the stability
  clause of `BoardQuery.TasksInStage`. The drop still counts as a move, so
  the board is updated and a request is sent. Two cases follow:
  - In a column of two tasks that sit in the task list in the order the
    column shows them, as on the starting board of the scenarios, nothing
    visibly changes. This holds whichever of the two is dragged
    (`Scenario.DropOnNextTaskTiesOrders`,
    `Scenario.DropOnPreviousTaskTiesOrders`).
  - If they sit in the opposite order, the column can be reordered. From
    the starting board, Y and then X are dropped on "Done", which then shows
    Y above X while the list holds X first (`Scenario.ReachBothDone`).
    Dropping Y on X then moves Y below X
    (`Scenario.DropOnTaskTieFollowsListOrder`).
- A drop on another column does not always put the task at the end. The
  new order is the column's length. If some task in the column already has
  an order that large, for example after earlier moves, the dragged task
  can land above it. X dragged to "Done" and back to "To do" gets order 1,
  the same as Y, and shows above Y (`Scenario.ColumnDropNotAtEnd`).
  `Reorder.ColumnDropAppendsAtEnd` proves the end position only for a column
  where every order is below the column's length.

## Model

| member | source | states |
|---|---|---|
| Tasks.StagesDistinct | frontend/src/components/Task.tsx:259 | There are four stage names and they are pairwise distinct. |
| Tasks.FilterStage | frontend/src/components/Task.tsx:283 | The filter is never longer than the list. Which tasks it keeps, and how many times, is `Tasks.FilterStageCount`. It keeps them in list order, which is what `Tasks.FilterStageMoveOut` and `Tasks.FilterStageMoveIn` rely on. |
| Tasks.FilterStageBound | frontend/src/components/Task.tsx:283 | A bound on the orders of all tasks of a stage holds for every task the filter keeps. |
| Tasks.FindIndex | frontend/src/components/Task.tsx:297 | The result is the first position whose task has the id. It is `None` exactly when no task has that id. |
| Tasks.FilterStageCount | frontend/src/components/Task.tsx:283 | The stage filter keeps each task of that stage as many times as the list holds it, and no task of another stage. |
| Tasks.FilterStageMoveOut | frontend/src/components/Task.tsx:333 | When the task at i leaves stage a, stage a's filter loses exactly that task, at its place between the tasks before and after it. |
| Tasks.FilterStageMoveIn | frontend/src/components/Task.tsx:333 | When the task at i enters stage s, stage s's filter gains exactly the new task, between the tasks before and after position i. |
| Tasks.FindIndexSameIds | frontend/src/components/Task.tsx:331 | Two lists with the same ids at every position give the same first match for any id. |
| Ordering.Insert | frontend/src/components/Task.tsx:284 | Inserting adds exactly one element (multiset is old plus x) and the length grows by one. |
| Ordering.InsertSorted | frontend/src/components/Task.tsx:284 | Inserting into a sorted list keeps it sorted by order. |
| Ordering.InsertFilterOrder | frontend/src/components/Task.tsx:284 | Insertion puts x in front of every task of the same order, and leaves the tasks of every order value in their sequence. Since the sort inserts each head into the sorted rest, this makes it stable. |
| Ordering.SortByOrder | frontend/src/components/Task.tsx:284 | The sort is a permutation of its input and sorted ascending by order. It is stable: for every order value, the tasks with that order keep their input sequence. |
| Ordering.StableSortUnique | frontend/src/components/Task.tsx:284 | Two sorted lists that agree on the tasks of every order value are equal. |
| Ordering.SortByOrderCharacterized | frontend/src/components/Task.tsx:284 | Any sorted list that agrees with s on every order value is the stable sort of s. |
| Ordering.SortRemove | frontend/src/components/Task.tsx:343 | Removing one task from a list removes exactly that task's entry from the sorted list, and leaves the rest in the same sequence. |
| Ordering.SortAppendGreatest | frontend/src/components/Task.tsx:343 | Adding anywhere a task whose order is above all others puts it at the end of the sorted list, after the old sorted list. |
| BoardQuery.StageColumn | frontend/src/components/Task.tsx:341-343 | The filtered, sorted list of one stage's tasks. `BoardQuery.StageColumnSpec` states what it holds: exactly that stage's tasks, sorted and stable. |
| BoardQuery.StageColumnSpec | frontend/src/components/Task.tsx:282-284 | A filtered, sorted column holds exactly the tasks of the stage, as many times as the list does. It is sorted, and stable for equal orders. |
| BoardQuery.TasksInStage | frontend/src/components/Task.tsx:280-285 | With no project the column is empty. Otherwise it holds exactly the project's tasks of that stage, sorted by order, with ties in list order. |
| BoardQuery.TasksInStageMembers | frontend/src/components/Task.tsx:280-285 | A task is in the column if and only if a project is loaded, the task is among its tasks, and its stage is the column's. |
| Reorder.Resolve | frontend/src/components/Task.tsx:300-319 | Where a drop asks the task to go. The case lemmas state each case through `Reorder.DropOutcome`: another stage's column, the task's own column, another task, and an unknown id. `KanbanBoard.Board.ResolveDrop` is proved equal to it. |
| Reorder.DropOutcome | frontend/src/components/Task.tsx:295-324 | A move is produced only with a target, a project and a task with the dragged id, at its first match. A move always changes the task's stage or order. |
| Reorder.Apply | frontend/src/components/Task.tsx:328-334 | The move keeps the length and every id. It changes no other position. At the moved position it sets the new stage and order and keeps every other field. |
| Reorder.Moved | frontend/src/components/Task.tsx:337 | The project after the move keeps its id, title and description, and holds the moved task list. |
| Reorder.NoTargetNoProjectNoTask | frontend/src/components/Task.tsx:295-298 | No target, no project, or no task with the dragged id means no move. |
| Reorder.DropOnOtherColumn | frontend/src/components/Task.tsx:304-311 | A drop on another stage's column moves the task there. Its order is the number of tasks that column holds before the move. |
| Reorder.DropOnOwnColumn | frontend/src/components/Task.tsx:304-311 | A drop on the task's own column keeps both fields, so it is no move. |
| Reorder.DropOnTask | frontend/src/components/Task.tsx:313-324 | A drop on a task copies that task's stage and order. It is a move exactly when they differ from the dragged task's, so a drop on itself is no move. |
| Reorder.DropOnUnknownId | frontend/src/components/Task.tsx:313-319 | A drop on an id that is neither a stage nor a task is no move. |
| Reorder.RedropIsNoop | frontend/src/components/Task.tsx:321-324 | Repeating a drop on the board it produced is no move. |
| Reorder.UntouchedColumnsUnchanged | frontend/src/components/Task.tsx:328-337 | The columns other than the one left and the one entered are the same after a move. |
| Reorder.ColumnDropAppendsAtEnd | frontend/src/components/Task.tsx:306-311 | Take a column of another stage in which every task's order is below the column's length. A drop on it is the move to an order equal to that length, and the new column is the old column followed by the moved task. |
| Reorder.ColumnGainsGreatest | frontend/src/components/Task.tsx:333 | A task entering a stage with an order above the whole column lands at the end of the sorted column. |
| Reorder.VacatedColumnKeepsOrder | frontend/src/components/Task.tsx:328-337 | A move to another stage leaves the old column without the moved task and nothing else. The tasks staying behind keep their sequence and orders. |
| Reorder.ColumnLosesTask | frontend/src/components/Task.tsx:333 | A task leaving its stage is removed from the sorted column at one position, and the rest is unchanged. |
| Payload.GroupsOf | frontend/src/components/Task.tsx:340-350 | The folded record has exactly the folded stages as keys. Each entry is named by its stage and holds that stage's sorted column. |
| Payload.BuildStageGroups | frontend/src/components/Task.tsx:340-350 | The loop over the stages builds exactly the folded record. |
| Payload.GroupsOfStep | frontend/src/components/Task.tsx:345-349 | One step of the fold sets the entry of one stage on the record built so far. |
| Payload.GroupsOfSize | frontend/src/components/Task.tsx:340-350 | Folding over distinct stages gives one entry per stage. |
| Payload.StageGroups | frontend/src/components/Task.tsx:340-350 | The reduce over the four stages. `Payload.StageGroupsKeys`, `Payload.StageGroupsItems` and `Payload.StageGroupsPartition` state its keys, its entries and how it partitions the tasks. |
| Payload.StageGroupsKeys | frontend/src/components/Task.tsx:353 | The payload has exactly the four stage keys, each entry named by its key, so the non-empty check before sending always passes. |
| Payload.StageGroupsItems | frontend/src/components/Task.tsx:341-347 | Each entry's items are exactly the tasks of its stage, sorted by order, with equal orders in list order. |
| Payload.StageGroupsPartition | frontend/src/components/Task.tsx:340-350 | A task whose stage is one of the four is in its own stage's entry as many times as in the list, and in no other entry. A task of an unknown stage is in no entry. |
| KanbanBoard.Board.constructor | frontend/src/components/Task.tsx:242-244 | The board starts with no project and no dragged task. |
| KanbanBoard.Board.Load | frontend/src/components/Task.tsx:268 | A fetch replaces the project by the server's copy and leaves the drag state as it was. |
| KanbanBoard.Board.DragStart | frontend/src/components/Task.tsx:287-289 | The dragged id becomes the active id and the project is unchanged. |
| KanbanBoard.Board.DragEnd | frontend/src/components/Task.tsx:291-355 | The active id is always cleared. When the drop is no move, the board is unchanged and nothing is sent. Otherwise the board holds the moved project, and the request is the stage-grouped payload of the moved task list. |
| KanbanBoard.Board.ResolveDrop | frontend/src/components/Task.tsx:300-319 | The step-by-step reassignment of the new stage and order gives the resolved placement. |
| Scenario.DropOnEmptyColumnKeepsOrders | frontend/src/components/Task.tsx:304-350 | X is dropped from "To do" on the empty "Done". X goes there with order 0, Y stays alone in "To do", and the payload sends Y with its order 1. |
| Scenario.DropOnNextTaskTiesOrders | frontend/src/components/Task.tsx:313-337 | On the starting board, X (order 0) is dropped on Y (order 1). It is a move, and X takes order 1. X is first in the task list, so the column still shows X above Y. |
| Scenario.DropOnPreviousTaskTiesOrders | frontend/src/components/Task.tsx:313-337 | On the starting board, Y (order 1) is dropped on X (order 0). It is a move, and Y takes order 0. X is first in the task list, so the column still shows X above Y. |
| Scenario.ReachBothDone | frontend/src/components/Task.tsx:304-311 | From the starting board, Y and then X are dropped on "Done" and get orders 0 and 1. "Done" then shows Y above X, while the task list holds X first. |
| Scenario.DropOnTaskTieFollowsListOrder | frontend/src/components/Task.tsx:313-337 | On that board, Y is dropped on X and takes X's order 1. The tie is shown in task-list order, so the column changes from Y above X to X above Y. |
| Scenario.ColumnDropNotAtEnd | frontend/src/components/Task.tsx:304-311 | X is dropped on "Done" and then back on "To do", which holds only Y. X takes order 1, the same as Y, and the column shows X above Y instead of at the end. |

## Left out

- Rendering, the drag overlay and the modal for adding, editing and
  deleting tasks are not modelled. Task creation, update and deletion and
  the other components and pages are not part of this model.
- The drag library's sensors and collision detection are not modelled. The
  id of the element under the pointer is an input (`over`).
- HTTP is not modelled. The fetch is `Board.Load` with the server's copy.
  The save is the payload that `DragEnd` returns. A failed save followed by a
  refetch (Task.tsx:356-360) is `Board.Load` with a fresh snapshot. The
  100 ms delay and console logging are left out.
- The server's handling of the payload is not modelled. The design notes
  say the server renumbers each stage densely.
- Concurrency is not modelled: two drag ends whose saves overlap, and
  React's deferred state updates. The functional update at Task.tsx:337 is
  modelled as an immediate assignment. It is called only when a project is
  loaded, so its `null` branch cannot be reached.
- The check `taskIndex !== -1` (Task.tsx:332) is modelled without a branch.
  The index is always found, because the dragged task was found by the same
  id in the same list; `DragEnd` asserts that.
- JavaScript numbers are modelled as unbounded integers. Fractional orders,
  `NaN` and the precision limits of doubles are not modelled.
- Array ids cast with `as string` are taken to be strings.
- Reorder.ColumnDropAppendsAtEnd: the end position is proved only for a
  column whose orders are all below its length. That is not an invariant
  the client keeps, since it never renumbers. On other columns the dragged
  task can land above tasks already there (`Scenario.ColumnDropNotAtEnd`).
