/** The task manager: the in-memory task list, the operations that change it
    in place, and the startup sweeps its constructor runs. Every operation
    is proved against the list functions of `Priority`, `Sweeps` and
    `Transitions`. The store file is represented by the ghost field `saved`,
    the last list written. */
module Manager {
  import opened Tasks
  import opened Priority
  import opened Sweeps
  import opened Transitions

  class TaskManager {
    var tasks: seq<Task>
    ghost var saved: seq<Task>

    /** Every change to the list has been written to the store. */
    ghost predicate Valid()
      reads this
    {
      saved == tasks
    }

    /** Loads the store (missing or corrupt means no tasks), then runs the
        watchlist timeout, the retention cleanup and the startup check. */
    constructor (stored: Stored, today: int)
      ensures Valid()
      ensures tasks == Startup(Load(stored), today)
    {
      tasks := Load(stored);
      saved := Load(stored);
      new;
      CheckWatchlistTimeout(today);
      CleanupOldCompletedTasks(today);
      CheckStartupPriorities(today);
    }

    /** The position of the first record with the given id, or `|tasks|`. */
    method FindFirst(id: Id) returns (k: nat)
      ensures k <= |tasks|
      ensures k < |tasks| ==> tasks[k].id == id
      ensures forall j :: 0 <= j < k ==> tasks[j].id != id
      ensures k == FirstIndex(tasks, id)
    {
      k := 0;
      while k < |tasks|
        invariant k <= |tasks|
        invariant forall j :: 0 <= j < k ==> tasks[j].id != id
      {
        if tasks[k].id == id {
          return;
        }
        k := k + 1;
      }
    }

    method AddTask(id: Id, title: string, deadline: DateText, priority: int, description: string)
      requires Valid()
      modifies this
      ensures Valid()
      ensures tasks == old(tasks) + [NewTask(id, title, deadline, priority, description)]
    {
      tasks := tasks + [NewTask(id, title, deadline, priority, description)];
      saved := tasks;
    }

    /** Appends a record as it stands (the "new task" button does this directly). */
    method Append(t: Task)
      requires Valid()
      modifies this
      ensures Valid()
      ensures tasks == old(tasks) + [t]
    {
      tasks := tasks + [t];
      saved := tasks;
    }

    method UpdateTask(edited: Task)
      requires Valid()
      modifies this
      ensures Valid()
      ensures tasks == ReplaceFirst(old(tasks), edited)
    {
      var k := FindFirst(edited.id);
      if k < |tasks| {
        tasks := tasks[k := edited];
      }
      saved := tasks;
    }

    method DeleteTask(id: Id, today: int)
      requires Valid()
      modifies this
      ensures Valid()
      ensures tasks == Recalc(WithoutId(old(tasks), id), today)
    {
      tasks := WithoutId(tasks, id);
      RecalcPrioritiesAfterChange(today);
      saved := tasks;
    }

    method MoveToWatchlist(id: Id, today: int)
      requires Valid()
      modifies this
      ensures Valid()
      ensures tasks == ApplyToFirst(old(tasks), id, ToWatchlist, today)
    {
      var k := FindFirst(id);
      if k < |tasks| {
        tasks := tasks[k := Transit(ToWatchlist, tasks[k], today)];
      }
      saved := tasks;
    }

    method ConfirmWatchlistCompletion(id: Id, today: int)
      requires Valid()
      modifies this
      ensures Valid()
      ensures tasks == Recalc(ApplyToFirst(old(tasks), id, ConfirmWatchlist, today), today)
    {
      var k := FindFirst(id);
      if k < |tasks| {
        tasks := tasks[k := Transit(ConfirmWatchlist, tasks[k], today)];
      }
      RecalcPrioritiesAfterChange(today);
      saved := tasks;
    }

    method ReturnFromWatchlistBug(id: Id, today: int)
      requires Valid()
      modifies this
      ensures Valid()
      ensures tasks == ApplyToFirst(old(tasks), id, ReturnForRework, today)
    {
      var k := FindFirst(id);
      if k < |tasks| {
        tasks := tasks[k := Transit(ReturnForRework, tasks[k], today)];
      }
      saved := tasks;
    }

    method MarkAsCompletedDirectly(id: Id, today: int)
      requires Valid()
      modifies this
      ensures Valid()
      ensures tasks == Recalc(ApplyToFirst(old(tasks), id, CompleteDirectly, today), today)
    {
      var k := FindFirst(id);
      if k < |tasks| {
        tasks := tasks[k := Transit(CompleteDirectly, tasks[k], today)];
      }
      RecalcPrioritiesAfterChange(today);
      saved := tasks;
    }

    /** Completes every timed-out watchlist task with its watchlist date; only
        when one did time out does the recalculation pass run and the list get
        written. */
    method CheckWatchlistTimeout(today: int)
      requires Valid()
      modifies this
      ensures Valid()
      ensures tasks == WatchlistTimeout(old(tasks), today)
    {
      ghost var before := tasks;
      var changed := false;
      var i := 0;
      while i < |tasks|
        invariant 0 <= i <= |tasks| == |before|
        invariant forall j :: 0 <= j < i ==> tasks[j] == TimeoutTask(before[j], today)
        invariant forall j :: i <= j < |tasks| ==> tasks[j] == before[j]
        invariant changed <==> exists j :: 0 <= j < i && TimedOut(before[j], today)
        invariant saved == before
      {
        var t := tasks[i];
        if t.watchlistDate.IsSet() && !t.completedDate.IsSet() {
          match t.watchlistDate {
            case Date(w) =>
              if today - w >= WatchlistTimeoutDays {
                tasks := tasks[i := t.(completedDate := t.watchlistDate)];
                changed := true;
              }
            case _ =>  // the date does not parse: skipped
          }
        }
        i := i + 1;
      }
      assert tasks == TimeoutAll(before, today);
      if changed {
        RecalcPrioritiesAfterChange(today);
        saved := tasks;
      } else {
        assert tasks == before;
      }
    }

    /** Drops the tasks completed more than 31 days ago; the list is written
        only when something was dropped. */
    method CleanupOldCompletedTasks(today: int)
      requires Valid()
      modifies this
      ensures Valid()
      ensures tasks == Retained(old(tasks), today)
    {
      var keep: seq<Task> := [];
      var modified := false;
      var i := 0;
      while i < |tasks|
        invariant tasks == old(tasks) && saved == old(saved)
        invariant 0 <= i <= |tasks|
        invariant keep == Retained(tasks[..i], today)
        invariant !modified ==> keep == tasks[..i]
      {
        var t := tasks[i];
        assert tasks[..i + 1] == tasks[..i] + [t];
        RetainedAppend(tasks[..i], [t], today);
        assert Retained([t], today) == if Kept(t, today) then [t] else [];
        if t.completedDate.IsSet() {
          match t.completedDate {
            case Date(c) =>
              if today - c <= RetentionDays {
                keep := keep + [t];
              } else {
                modified := true;
              }
            case _ =>  // the date does not parse: kept
              keep := keep + [t];
          }
        } else {
          keep := keep + [t];
        }
        i := i + 1;
      }
      assert tasks[..i] == tasks;
      if modified {
        tasks := keep;
        saved := tasks;
      }
    }

    /** Raises the priorities of overdue and nearly due active tasks; the list
        is written only when a priority changed. */
    method CheckStartupPriorities(today: int)
      requires Valid()
      modifies this
      ensures Valid()
      ensures tasks == StartupCheck(old(tasks), today)
    {
      ghost var before := tasks;
      var changed := false;
      var i := 0;
      while i < |tasks|
        invariant 0 <= i <= |tasks| == |before|
        invariant forall j :: 0 <= j < i ==> tasks[j] == StartupTask(before[j], today)
        invariant forall j :: i <= j < |tasks| ==> tasks[j] == before[j]
        invariant !changed ==> tasks == before
        invariant saved == before
      {
        var t := tasks[i];
        if t.completedDate.IsSet() || t.watchlistDate.IsSet() {
          i := i + 1;
          continue;
        }
        var days := DaysRemaining(t.deadline, today);
        if days < 0 {
          if t.priority != Overdue {
            tasks := tasks[i := t.(priority := Overdue)];
            changed := true;
          }
        } else if days < 2 {
          if t.priority < DueSoon {
            tasks := tasks[i := t.(priority := DueSoon)];
            changed := true;
          }
        }
        i := i + 1;
      }
      assert tasks == StartupCheck(before, today);
      if changed {
        saved := tasks;
      }
    }

    /** Raises every near-deadline active priority below 15 by two (capped at
        15). It does not write the list itself: its callers do. */
    method RecalcPrioritiesAfterChange(today: int)
      modifies this
      ensures tasks == Recalc(old(tasks), today)
      ensures saved == old(saved)
    {
      ghost var before := tasks;
      var i := 0;
      while i < |tasks|
        invariant 0 <= i <= |tasks| == |before|
        invariant forall j :: 0 <= j < i ==> tasks[j] == RecalcTask(before[j], today)
        invariant forall j :: i <= j < |tasks| ==> tasks[j] == before[j]
        invariant saved == old(saved)
      {
        var t := tasks[i];
        if t.completedDate.IsSet() || t.watchlistDate.IsSet() {
          i := i + 1;
          continue;
        }
        var days := DaysRemaining(t.deadline, today);
        if days < 10 {
          var oldPrio := t.priority;
          if oldPrio < Ceiling {
            var newPrio := Min(Ceiling, oldPrio + 2);
            if newPrio != oldPrio {
              tasks := tasks[i := t.(priority := newPrio)];
            }
          }
        }
        i := i + 1;
      }
      assert tasks == Recalc(before, today);
    }
  }
}
