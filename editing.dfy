/** The window actions that lead into the task manager: the subtask gate in
    front of the watchlist and direct-completion buttons, the "new task"
    button, and the subtask list edited in a task's detail window. The
    confirmation dialogs are the `confirmed` answers passed in. */
module Editing {
  import opened Tasks
  import opened Priority
  import opened Transitions
  import opened Manager

  /** The subtasks not yet done, in their order. */
  function NotDone(subs: seq<Subtask>): (r: seq<Subtask>)
    ensures forall s :: s in r <==> s in subs && !s.done
    ensures |r| <= |subs|
  {
    if subs == [] then []
    else if subs[0].done then NotDone(subs[1..])
    else [subs[0]] + NotDone(subs[1..])
  }

  /** The gate both buttons apply: an empty list passes, otherwise the list
      of unfinished subtasks must be empty. */
  function GateOpen(subs: seq<Subtask>): (open: bool)
    ensures open <==> forall i :: 0 <= i < |subs| ==> subs[i].done
  {
    if |subs| > 0 then
      var pending := NotDone(subs);
      assert forall i :: 0 <= i < |subs| && !subs[i].done ==> subs[i] in pending;
      assert |pending| > 0 ==> pending[0] in subs && !pending[0].done;
      |pending| == 0
    else true
  }

  datatype Outcome = Blocked | Declined | Done

  /** `try_move_to_watchlist`: blocked while a subtask is unfinished, then
      asks for confirmation; only a confirmed, ungated attempt reaches the
      manager. */
  method TryMoveToWatchlist(m: TaskManager, task: Task, confirmed: bool, today: int) returns (outcome: Outcome)
    requires m.Valid()
    modifies m
    ensures m.Valid()
    ensures outcome == (if !GateOpen(task.subtasks) then Blocked else if confirmed then Done else Declined)
    ensures outcome == Done ==> m.tasks == ApplyToFirst(old(m.tasks), task.id, ToWatchlist, today)
    ensures outcome != Done ==> m.tasks == old(m.tasks)
  {
    if !GateOpen(task.subtasks) {
      return Blocked;
    }
    if !confirmed {
      return Declined;
    }
    m.MoveToWatchlist(task.id, today);
    outcome := Done;
  }

  /** `try_complete_directly`: the same gate in front of direct completion. */
  method TryCompleteDirectly(m: TaskManager, task: Task, confirmed: bool, today: int) returns (outcome: Outcome)
    requires m.Valid()
    modifies m
    ensures m.Valid()
    ensures outcome == (if !GateOpen(task.subtasks) then Blocked else if confirmed then Done else Declined)
    ensures outcome == Done ==>
      m.tasks == Recalc(ApplyToFirst(old(m.tasks), task.id, CompleteDirectly, today), today)
    ensures outcome != Done ==> m.tasks == old(m.tasks)
  {
    if !GateOpen(task.subtasks) {
      return Blocked;
    }
    if !confirmed {
      return Declined;
    }
    m.MarkAsCompletedDirectly(task.id, today);
    outcome := Done;
  }

  /** `create_new_task`: appends the draft record and saves; the detail window
      opened on it afterwards edits it through `update_task`. */
  method CreateNewTask(m: TaskManager, id: Id, today: int)
    requires m.Valid()
    modifies m
    ensures m.Valid()
    ensures m.tasks == old(m.tasks) + [DraftTask(id, today)]
  {
    m.Append(DraftTask(id, today));
  }

  /** A task sent back for rework cannot go straight back to the watchlist or
      be completed: the rework item is unfinished. */
  lemma ReworkClosesGate(t: Task, today: int)
    ensures !GateOpen(Transit(ReturnForRework, t, today).subtasks)
  {
    var u := Transit(ReturnForRework, t, today);
    assert !u.subtasks[|t.subtasks|].done;
  }

  /** The subtask list with a new unfinished item, or unchanged when the entry is empty. */
  function WithSubtask(subs: seq<Subtask>, text: string): (r: seq<Subtask>)
    ensures text == "" ==> r == subs
    ensures text != "" ==> |r| == |subs| + 1 && r[..|subs|] == subs && r[|subs|] == Subtask(text, false)
  {
    if text != "" then subs + [Subtask(text, false)] else subs
  }

  /** The subtask list without the item at `index`, the others in their order. */
  function WithoutSubtask(subs: seq<Subtask>, index: nat): (r: seq<Subtask>)
    requires index < |subs|
    ensures |r| == |subs| - 1
    ensures forall j :: 0 <= j < |r| ==> r[j] == (if j < index then subs[j] else subs[j + 1])
  {
    subs[..index] + subs[index + 1..]
  }

  /** Removing the item just added restores the list. */
  lemma AddThenRemove(subs: seq<Subtask>, text: string)
    requires text != ""
    ensures WithoutSubtask(WithSubtask(subs, text), |subs|) == subs
  {
  }

  /** Adding a subtask closes the gate; removing the only unfinished one opens it. */
  lemma SubtaskEditsAndGate(subs: seq<Subtask>, text: string, index: nat)
    requires text != ""
    ensures !GateOpen(WithSubtask(subs, text))
    ensures index < |subs| && !subs[index].done &&
            (forall j :: 0 <= j < |subs| && j != index ==> subs[j].done)
            ==> GateOpen(WithoutSubtask(subs, index))
  {
    assert WithSubtask(subs, text)[|subs|] == Subtask(text, false);
    if index < |subs| && !subs[index].done &&
       (forall j :: 0 <= j < |subs| && j != index ==> subs[j].done) {
      var r := WithoutSubtask(subs, index);
      forall j | 0 <= j < |r| ensures r[j].done {
        if j < index {
          assert r[j] == subs[j];
        } else {
          assert r[j] == subs[j + 1];
        }
      }
    }
  }

  /** The detail window's copy of the task it edits. */
  class TaskDetail {
    var taskData: Task

    constructor (t: Task)
      ensures taskData == t
    {
      taskData := t;
    }

    /** `add_subtask`: a non-empty entry becomes a new unfinished subtask. */
    method AddSubtask(text: string)
      modifies this
      ensures taskData == old(taskData).(subtasks := WithSubtask(old(taskData).subtasks, text))
    {
      if text != "" {
        taskData := taskData.(subtasks := taskData.subtasks + [Subtask(text, false)]);
      }
    }

    /** `remove_subtask`: the index comes from the rendered row, so it is in range. */
    method RemoveSubtask(index: nat)
      requires index < |taskData.subtasks|
      modifies this
      ensures taskData == old(taskData).(subtasks := WithoutSubtask(old(taskData).subtasks, index))
    {
      var subs := taskData.subtasks;
      taskData := taskData.(subtasks := subs[..index] + subs[index + 1..]);
    }
  }
}
