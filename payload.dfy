/**
 * The reorder payload sent after a move: one group per stage, keyed by the
 * stage name, holding that stage's tasks sorted by order. Orders are sent
 * as the tasks carry them; nothing is renumbered here.
 */
module Payload {
  import opened Tasks
  import opened Ordering
  import opened BoardQuery

  /** One entry of the payload. */
  datatype Group = Group(name: string, items: seq<Task>)

  /** The record built by folding over `stages` from the first to the last,
      each step setting the entry of one stage. */
  function GroupsOf(ts: seq<Task>, stages: seq<string>): (g: map<string, Group>)
    ensures forall s :: s in g <==> s in stages
    ensures forall s :: s in g ==> g[s] == Group(s, StageColumn(ts, s))
  {
    if stages == [] then map[]
    else
      var init, last := stages[..|stages| - 1], stages[|stages| - 1];
      assert stages == init + [last];
      GroupsOf(ts, init)[last := Group(last, StageColumn(ts, last))]
  }

  /** The payload for the task list `ts`. */
  function StageGroups(ts: seq<Task>): map<string, Group> {
    GroupsOf(ts, Stages)
  }

  /** Builds the record stage by stage, as the `reduce` over the stages does. */
  method BuildStageGroups(ts: seq<Task>, stages: seq<string>) returns (acc: map<string, Group>)
    ensures acc == GroupsOf(ts, stages)
  {
    acc := map[];
    for n := 0 to |stages|
      invariant acc == GroupsOf(ts, stages[..n])
    {
      var stage := stages[n];
      var stageTasks := StageColumn(ts, stage);
      GroupsOfStep(ts, stages, n);
      acc := acc[stage := Group(stage, stageTasks)];
    }
    assert stages[..|stages|] == stages;
  }

  /** One step of the fold. */
  lemma GroupsOfStep(ts: seq<Task>, stages: seq<string>, n: nat)
    requires n < |stages|
    ensures GroupsOf(ts, stages[..n + 1]) == GroupsOf(ts, stages[..n])[stages[n] := Group(stages[n], StageColumn(ts, stages[n]))]
  {
    assert stages[..n + 1][..n] == stages[..n];
  }

  /** Folding over distinct stages gives one entry per stage. */
  lemma {:induction false} GroupsOfSize(ts: seq<Task>, stages: seq<string>)
    requires forall i, j :: 0 <= i < j < |stages| ==> stages[i] != stages[j]
    ensures |GroupsOf(ts, stages)| == |stages|
    decreases |stages|
  {
    if stages != [] {
      var init, last := stages[..|stages| - 1], stages[|stages| - 1];
      GroupsOfSize(ts, init);
      assert last !in GroupsOf(ts, init);
    }
  }

  /** The payload has exactly the four stage keys, each entry named by its
      key, so the "non-empty payload" guard before sending always passes. */
  lemma StageGroupsKeys(ts: seq<Task>)
    ensures forall s :: s in StageGroups(ts) <==> s in Stages
    ensures |StageGroups(ts)| == 4
    ensures forall s :: s in StageGroups(ts) ==> StageGroups(ts)[s].name == s
  {
    assert |StageGroups(ts)| == 4 by {
      StagesDistinct();
      GroupsOfSize(ts, Stages);
    }
  }

  /** Each entry holds exactly the tasks of its stage, sorted by order, with
      tasks of equal order in their list order. */
  lemma StageGroupsItems(ts: seq<Task>, s: string)
    requires s in Stages
    ensures var items := StageGroups(ts)[s].items;
      Sorted(items) &&
      (forall t :: multiset(items)[t] == if t.stage == s then multiset(ts)[t] else 0) &&
      (forall k :: FilterOrder(items, k) == FilterOrder(FilterStage(ts, s), k))
  {
    StageColumnSpec(ts, s);
  }

  /** Every task whose stage is one of the four is in the group of its own
      stage, as often as in the list, and in no other group; a task whose
      stage is none of the four is in no group. */
  lemma StageGroupsPartition(ts: seq<Task>, t: Task)
    ensures t.stage in Stages ==> multiset(StageGroups(ts)[t.stage].items)[t] == multiset(ts)[t]
    ensures forall s :: s in StageGroups(ts) && s != t.stage ==> t !in StageGroups(ts)[s].items
  {
    var g := StageGroups(ts);
    if t.stage in Stages {
      StageColumnSpec(ts, t.stage);
    }
    forall s | s in g && s != t.stage ensures t !in g[s].items {
      StageColumnSpec(ts, s);
      assert multiset(g[s].items)[t] == 0;
    }
  }
}
