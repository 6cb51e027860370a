/**
 * Tasks and projects as the board client holds them, the four fixed stages,
 * and the two list primitives the drag handlers are built from: searching
 * the task list by id and keeping the tasks of one stage.
 */
module Tasks {
  import opened Wrappers

  /** A task record. Only `id`, `stage` and `order` take part in reordering;
      the other fields are carried through every operation unchanged. */
  datatype Task = Task(
    id: string,
    title: string,
    description: string,
    stage: string,
    order: int,
    index: int,
    createdAt: string)

  /** A project with its flat, unsorted list of tasks. */
  datatype Project = Project(id: string, title: string, description: string, task: seq<Task>)

  /** The board's columns in display order. The same strings are the ids of
      the column drop zones and the keys of the persisted payload. */
  const Stages: seq<string> := ["Requested", "To do", "In Progress", "Done"]

  /** The four stage names are distinct. */
  lemma StagesDistinct()
    ensures |Stages| == 4
    ensures forall i, j :: 0 <= i < j < |Stages| ==> Stages[i] != Stages[j]
  {
  }

  /** The first position holding a task with id `id`, the position that both
      `find` and `findIndex` select; `None` when no task has that id. */
  function FindIndex(ts: seq<Task>, id: string): (r: Option<nat>)
    ensures r.Some? ==> r.value < |ts| && ts[r.value].id == id
    ensures r.Some? ==> forall j :: 0 <= j < r.value ==> ts[j].id != id
    ensures r.None? <==> forall j :: 0 <= j < |ts| ==> ts[j].id != id
  {
    if ts == [] then None
    else if ts[0].id == id then Some(0)
    else match FindIndex(ts[1..], id)
      case None => None
      case Some(k) => Some(k + 1)
  }

  /** The tasks of `ts` whose stage is `s`, in their original order. */
  function FilterStage(ts: seq<Task>, s: string): (r: seq<Task>)
    ensures |r| <= |ts|
  {
    if ts == [] then []
    else (if ts[0].stage == s then [ts[0]] else []) + FilterStage(ts[1..], s)
  }

  /** The filter keeps every task of stage `s` as often as it occurs, and no
      other task. */
  lemma {:induction false} FilterStageCount(ts: seq<Task>, s: string, t: Task)
    ensures multiset(FilterStage(ts, s))[t] == if t.stage == s then multiset(ts)[t] else 0
    decreases |ts|
  {
    if ts != [] {
      assert ts == [ts[0]] + ts[1..];
      FilterStageCount(ts[1..], s, t);
    }
  }

  /** Filtering distributes over concatenation. */
  lemma {:induction false} FilterStageAppend(a: seq<Task>, b: seq<Task>, s: string)
    ensures FilterStage(a + b, s) == FilterStage(a, s) + FilterStage(b, s)
    decreases |a|
  {
    if a == [] {
      assert a + b == b;
    } else {
      var h := if a[0].stage == s then [a[0]] else [];
      assert (a + b)[0] == a[0];
      assert (a + b)[1..] == a[1..] + b;
      assert FilterStage(a + b, s) == h + FilterStage(a[1..] + b, s);
      FilterStageAppend(a[1..], b, s);
      assert FilterStage(a, s) == h + FilterStage(a[1..], s);
    }
  }

  /** The filter of a list split around position `i`. */
  lemma FilterStageSplit(ts: seq<Task>, i: nat, s: string)
    requires i < |ts|
    ensures FilterStage(ts, s)
         == FilterStage(ts[..i], s) + (if ts[i].stage == s then [ts[i]] else []) + FilterStage(ts[i + 1..], s)
  {
    var mid := [ts[i]] + ts[i + 1..];
    assert ts == ts[..i] + mid;
    FilterStageAppend(ts[..i], mid, s);
    assert mid[1..] == ts[i + 1..];
    assert FilterStage(mid, s) == (if ts[i].stage == s then [ts[i]] else []) + FilterStage(ts[i + 1..], s);
  }

  /** Replacing one task by another, neither of them in stage `s`, does not
      change the tasks of stage `s`. */
  lemma FilterStageUpdateOutside(ts: seq<Task>, i: nat, y: Task, s: string)
    requires i < |ts| && ts[i].stage != s && y.stage != s
    ensures FilterStage(ts[i := y], s) == FilterStage(ts, s)
  {
    var us := ts[i := y];
    FilterStageSplit(ts, i, s);
    FilterStageSplit(us, i, s);
    assert us[..i] == ts[..i] && us[i + 1..] == ts[i + 1..];
  }

  /** The search by id depends on the ids alone. */
  lemma {:induction false} FindIndexSameIds(ts: seq<Task>, us: seq<Task>, id: string)
    requires |ts| == |us|
    requires forall j :: 0 <= j < |ts| ==> ts[j].id == us[j].id
    ensures FindIndex(us, id) == FindIndex(ts, id)
    decreases |ts|
  {
    if ts != [] && ts[0].id != id {
      FindIndexSameIds(ts[1..], us[1..], id);
    }
  }

  /** Taking the task at `i` out of stage `a`: the stage loses exactly that
      task, at the place of its position in the list. */
  lemma FilterStageMoveOut(ts: seq<Task>, i: nat, y: Task, a: string)
    requires i < |ts| && ts[i].stage == a && y.stage != a
    ensures FilterStage(ts, a) == FilterStage(ts[..i], a) + [ts[i]] + FilterStage(ts[i + 1..], a)
    ensures FilterStage(ts[i := y], a) == FilterStage(ts[..i], a) + FilterStage(ts[i + 1..], a)
  {
    FilterStageSplit(ts, i, a);
    var us := ts[i := y];
    FilterStageSplit(us, i, a);
    assert us[..i] == ts[..i] && us[i + 1..] == ts[i + 1..];
  }

  /** Putting `y` at position `i` into stage `s`, which the task there was
      not in: the stage gains exactly `y`, at the place of position `i`. */
  lemma FilterStageMoveIn(ts: seq<Task>, i: nat, y: Task, s: string)
    requires i < |ts| && ts[i].stage != s && y.stage == s
    ensures FilterStage(ts, s) == FilterStage(ts[..i], s) + FilterStage(ts[i + 1..], s)
    ensures FilterStage(ts[i := y], s) == FilterStage(ts[..i], s) + [y] + FilterStage(ts[i + 1..], s)
  {
    FilterStageSplit(ts, i, s);
    var us := ts[i := y];
    FilterStageSplit(us, i, s);
    assert us[..i] == ts[..i] && us[i + 1..] == ts[i + 1..];
  }

  /** A bound on the orders of the tasks of stage `s` holds for every task
      the stage filter keeps. */
  lemma {:induction false} FilterStageBound(ts: seq<Task>, s: string, b: int)
    requires forall j :: 0 <= j < |ts| && ts[j].stage == s ==> ts[j].order < b
    ensures forall t :: t in FilterStage(ts, s) ==> t.order < b
    decreases |ts|
  {
    if ts != [] {
      assert forall j :: 0 <= j < |ts[1..]| ==> ts[1..][j] == ts[j + 1];
      FilterStageBound(ts[1..], s, b);
    }
  }
}
