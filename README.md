# Task Priority Solver — lifecycle and priority engine

A model of the core of the Task Priority Solver: a personal task tracker whose
tasks carry a deadline, a priority on a 1..20 scale, subtasks, and a lifecycle
status derived from two optional dates. A task is **Active** while neither date
is set, **Watchlist** once it has a watchlist date (it awaits a final check),
and **Completed** once it has a completion date, whatever its watchlist date.

The model covers:

- the task record and its derived status (`tasks.dfy`, module `Tasks`);
- the two priority-escalation passes (`priority.dfy`, module `Priority`).
  The startup check forces 15 on overdue active tasks and lifts tasks due
  today or tomorrow to at least 13. The recalculation pass, run after every
  completion and deletion, adds 2, but not past 15, to active tasks below 15
  that are less than ten days from their deadline; tasks at 15 or above are
  left as they are;
- the startup sweeps (`sweeps.dfy`, module `Sweeps`). The watchlist timeout
  completes watchlist tasks after 14 days with their watchlist date. The
  retention cleanup drops tasks completed more than 31 days ago. Then the
  startup check runs. The order is the one the manager's constructor uses;
- the transitions and list edits as functions on the task list
  (`transitions.dfy`, module `Transitions`);
- the `TaskManager` class that applies them in place, each method proved
  against those functions (`manager.dfy`, module `Manager`). The store file is
  a ghost field `saved`, and `Valid()` says every change has been written;
- what the main window does before drawing (`display.dfy`, module `Display`):
  the three-way split, the order of each section, and the three-state sort
  control with its header arrows;
- the window actions that feed the manager (`editing.dfy`, module `Editing`):
  the subtask gate before moving to the watchlist or completing, the "new
  task" button, and adding and removing subtasks in the detail window.

"Today" is a parameter (a day ordinal), and so are new ids and the answers
to confirmation dialogs. A date field is `Blank` (absent or empty), `Date(day)`
(parses as `%Y-%m-%d`) or `Unparsable`. Only parseable dates take part in the
timeout and retention arithmetic. A deadline that does not parse counts as
0 days remaining.

Behaviours of the code worth noting:

- The watchlist timeout runs before the retention cleanup, not after it. So a
  watchlist task more than 31 days old is completed and purged in the same
  startup (`Sweeps.StaleWatchlistPurged`).
- The startup check lowers 16..20 to 15 on an overdue task; escalation is
  not only upward (`Priority.StartupCheckCanLower`).
- The recalculation pass is not idempotent below 15
  (`Priority.RecalcNotIdempotent`). It reaches a fixed point once every
  near-deadline active task sits at 15 or above (`Priority.RecalcFixedPoint`,
  `Priority.RecalcSaturates`).
- The manager raises none of its own not-found, precondition or validation
  errors. An unknown id is a silent no-op on the
  record, but completing, confirming and deleting still run the
  recalculation pass. The subtask gate lives in the window, not in the
  manager. The transitions check no status: sending a task back for rework
  or to the watchlist works whatever its status.

## Model

| member | source | states |
|---|---|---|
| Tasks.DaysRemaining | taks_priority_solver.py:191-198 | deadline minus today in whole days; 0 when the deadline does not parse |
| Tasks.StatusOf | taks_priority_solver.py:424-426 | Completed iff a completion date is set; Watchlist iff only a watchlist date is set; Active iff neither |
| Tasks.NewTask | taks_priority_solver.py:37-47 | a new record is Active, has no subtasks, and carries the given id, title, deadline, priority and description |
| Tasks.DraftTask | taks_priority_solver.py:626-635 | the "new task" draft is Active, titled "Nový úkol", priority 10, deadline the date of today (0 days left), with an empty description and no subtasks |
| Tasks.Load | taks_priority_solver.py:24-31 | a missing or corrupt store loads as the empty list, a parsed one as its tasks |
| Priority.StartupPriority | taks_priority_solver.py:148-157 | overdue gives exactly 15; 0 or 1 days left gives at least 13 and never less than before; 2 or more days leaves it unchanged |
| Priority.RecalcPriority | taks_priority_solver.py:168-176 | never decreases; changes iff days < 10 and priority < 15, and then to min(15, p + 2); never passes 15 from below |
| Priority.StartupCheck | taks_priority_solver.py:142-157 | the startup rule applied to every task, length preserved |
| Priority.Recalc | taks_priority_solver.py:162-176 | the recalculation rule applied to every task, length preserved |
| Priority.StartupCheckEffect | taks_priority_solver.py:144-157 | only active priorities change, and only as the startup rule says; watchlist and completed tasks are untouched |
| Priority.RecalcEffect | taks_priority_solver.py:164-176 | only near-deadline active priorities below 15 change, to min(15, p + 2); every other record is untouched |
| Priority.PassesKeepRange | taks_priority_solver.py:142-176 | both passes keep every priority within 1..20 |
| Priority.StartupCheckIdempotent | taks_priority_solver.py:142-157 | running the startup check twice equals running it once |
| Priority.StartupCheckCanLower | taks_priority_solver.py:150-153 | an overdue task at 18 drops to 15 |
| Priority.RecalcFixedPoint | taks_priority_solver.py:164-176 | the pass leaves the list unchanged iff no active task under 10 days sits below 15 |
| Priority.RecalcNotIdempotent | taks_priority_solver.py:170-176 | two passes can differ from one (8 goes to 10, then 12) |
| Priority.RecalcTimesPriority | taks_priority_solver.py:162-176 | after k passes a near-deadline active priority p < 15 is min(15, p + 2k); nothing else changes |
| Priority.RecalcSaturates | taks_priority_solver.py:170-176 | from the 1..20 scale, seven passes reach the fixed point |
| Sweeps.TimeoutTask | taks_priority_solver.py:99-104 | a timed-out watchlist task becomes Completed with its watchlist date; only the completion date changes |
| Sweeps.WatchlistTimeout | taks_priority_solver.py:95-109 | each timed-out task is completed on its watchlist date with nothing else changed; when one did time out every other task gets the recalculation pass; when nothing timed out the list is unchanged (no recalculation); no task remains timed out and ids stay in place |
| Sweeps.Retained | taks_priority_solver.py:120-140 | a task survives iff it is not completed on a parseable date more than 31 days back |
| Sweeps.RetainedAppend | taks_priority_solver.py:125-136 | the cleanup distributes over concatenation, so survivors keep their order |
| Sweeps.RetainedAllKept | taks_priority_solver.py:138-140 | with nothing expired the list is returned unchanged |
| Sweeps.Purged | taks_priority_solver.py:129-132 | the dropped tasks are exactly the expired ones |
| Sweeps.RetainedCount | taks_priority_solver.py:120-140 | survivors and dropped tasks together are the original list, as a multiset and by count |
| Sweeps.RetentionBoundary | taks_priority_solver.py:129 | completed 31 days ago is kept, 32 days ago is dropped |
| Sweeps.Startup | taks_priority_solver.py:18-22 | the startup pipeline (timeout, cleanup, startup check) never grows the list |
| Sweeps.StartupClean | taks_priority_solver.py:19-22 | after startup nothing expired and nothing timed out remains |
| Sweeps.StartupIdempotent | taks_priority_solver.py:19-22 | running the startup pipeline twice on one day equals running it once |
| Sweeps.StaleWatchlistPurged | taks_priority_solver.py:20-21 | with unique ids, a watchlist task dated more than 31 days back is gone after startup |
| Transitions.FirstIndex | taks_priority_solver.py:52-55 | the first position with the id, or the length when there is none |
| Transitions.FirstIndexFound | taks_priority_solver.py:66-67 | a record is found iff some record has the id |
| Transitions.Transit | taks_priority_solver.py:65-118 | watchlist: watchlist date today, completion cleared; direct: completed today, watchlist cleared; confirm: completed on the watchlist date if set, else today; rework: Active, priority 15, deadline tomorrow, one undone item appended; id, title and description kept |
| Transitions.ConfirmKeepsWatchlistDate | taks_priority_solver.py:73-78 | confirming keeps the watchlist date, so both dates are set and the status is Completed |
| Transitions.ApplyToFirst | taks_priority_solver.py:66-70 | only the first record with the id changes; an unknown id changes nothing |
| Transitions.ReplaceFirst | taks_priority_solver.py:51-56 | the first record with the edited id is replaced; an unknown id is a no-op |
| Transitions.WithoutId | taks_priority_solver.py:58-59 | exactly the records with the id go; the list shrinks iff one had it |
| Transitions.WithoutIdAppend | taks_priority_solver.py:59 | deleting distributes over concatenation, so survivors keep their order |
| Transitions.WithoutIdIdempotent | taks_priority_solver.py:59 | deleting twice equals deleting once |
| Transitions.ReplaceFirstKeepsIds | taks_priority_solver.py:51-55 | an update keeps every position's id |
| Transitions.TransitionsCommute | taks_priority_solver.py:51-92 | a transition and an update of another id commute |
| Transitions.FirstIndexOnIds | taks_priority_solver.py:52-55 | the lookup depends on the ids alone |
| Manager.TaskManager.constructor | taks_priority_solver.py:18-22 | the loaded list after timeout, cleanup and startup check, all written |
| Manager.TaskManager.FindFirst | taks_priority_solver.py:66-70 | the loop finds the first record with the id, or reports none |
| Manager.TaskManager.AddTask | taks_priority_solver.py:37-49 | appends exactly one new record and saves |
| Manager.TaskManager.Append | taks_priority_solver.py:636-637 | appends the record as given and saves |
| Manager.TaskManager.UpdateTask | taks_priority_solver.py:51-56 | replaces the first record with the id and saves |
| Manager.TaskManager.DeleteTask | taks_priority_solver.py:58-61 | removes every record with the id, recalculates and saves |
| Manager.TaskManager.MoveToWatchlist | taks_priority_solver.py:65-71 | moves the first record with the id to the watchlist and saves; no recalculation |
| Manager.TaskManager.ConfirmWatchlistCompletion | taks_priority_solver.py:73-80 | completes the first record with the id, then recalculates (even for an unknown id) and saves |
| Manager.TaskManager.ReturnFromWatchlistBug | taks_priority_solver.py:82-93 | sends the first record with the id back for rework and saves |
| Manager.TaskManager.MarkAsCompletedDirectly | taks_priority_solver.py:111-118 | completes the first record with the id today, then recalculates and saves |
| Manager.TaskManager.CheckWatchlistTimeout | taks_priority_solver.py:95-109 | the list becomes the timeout sweep of the old list; the store holds the new list (that it is written only when something timed out is in the body, not the contract) |
| Manager.TaskManager.CleanupOldCompletedTasks | taks_priority_solver.py:120-140 | the list becomes the survivors and the store holds it (writing only when something was dropped is in the body, not the contract) |
| Manager.TaskManager.CheckStartupPriorities | taks_priority_solver.py:142-160 | the list becomes the startup check of the old list and the store holds it (writing only when a priority changed is in the body, not the contract) |
| Manager.TaskManager.RecalcPrioritiesAfterChange | taks_priority_solver.py:162-176 | the list becomes the recalculation pass of the old list; nothing is written |
| Display.Insert | taks_priority_solver.py:432 | inserting adds exactly the one task to the section's multiset |
| Display.InsertSorted | taks_priority_solver.py:432 | inserting into a sorted section keeps it sorted |
| Display.Sort | taks_priority_solver.py:432-450 | a section's listing is sorted by the order's key and is a permutation of the section |
| Display.SortSameKeys | taks_priority_solver.py:432-446 | two orders with the same keys list a section identically |
| Display.InsertSameKeys | taks_priority_solver.py:432-446 | insertion depends on the keys alone |
| Display.ColumnSortMeaning | taks_priority_solver.py:432-446 | the sort key `KeyOf` makes a column sort order the section by that column in the clicked direction, with tasks level on the column left in the default order (the result of a stable column sort run after the default sort) |
| Display.PriorityDescendingIsDefault | taks_priority_solver.py:432-439 | "Prio" descending lists the active section exactly as the default order does |
| Display.ListedInItsStatus | taks_priority_solver.py:424-426 | the window's three tests agree with the derived status |
| Display.Section | taks_priority_solver.py:424-426 | a section holds exactly the tasks of its status |
| Display.SectionsPartition | taks_priority_solver.py:424-426 | the three sections together hold every task exactly once |
| Display.SortControl.constructor | taks_priority_solver.py:353-354 | the sort control starts off |
| Display.SortControl.CycleSort | taks_priority_solver.py:389-400 | a click moves the state as the cycle function says |
| Display.NextSort | taks_priority_solver.py:389-400 | keeps the state valid (state 0 iff no column); a new column starts at state 1, which `ActiveOrder` makes descending; only the clicked column can be active |
| Display.ThreeClicksCycle | taks_priority_solver.py:389-400 | three clicks on one column return to the starting state |
| Display.ActiveOrder | taks_priority_solver.py:432-446 | with no column or state 0 the active section uses the default order; state 1 sorts the clicked column descending, state 2 ascending |
| Display.HeaderVisuals | taks_priority_solver.py:404-416 | a sorting column shows "▼" in state 1 and "▲" in state 2 on the active colour; any other header shows "►" on the inactive colour `#f0f0f0` |
| Display.HeaderAgreesWithOrder | taks_priority_solver.py:404-446 | "▼" iff the active section is sorted by that column descending, "▲" iff ascending; a header whose column is not the active one shows "►" on the inactive colour |
| Display.ClicksFromOff | taks_priority_solver.py:389-446 | from the unsorted state, one click lists the active section by the column's value non-increasing, a second click non-decreasing, and a third returns to the default order |
| Display.RefreshList | taks_priority_solver.py:418-450 | each section is a sorted permutation of its tasks; together they are all the tasks |
| Display.SectionsHoldTheirStatus | taks_priority_solver.py:424-426 | each section lists only tasks of its status |
| Display.DefaultOrderMeaning | taks_priority_solver.py:432 | default active order: priority descending, then days remaining ascending |
| Display.DateSortedMeaning | taks_priority_solver.py:449-450 | in a list sorted by watchlist or completion date, an earlier position never holds an older parsed date |
| Display.DateOrderMeaning | taks_priority_solver.py:449-450 | watchlist and completed sections list later dates first |
| Editing.NotDone | taks_priority_solver.py:594 | exactly the unfinished subtasks |
| Editing.GateOpen | taks_priority_solver.py:591-597 | the gate passes iff every subtask is done (an empty list passes) |
| Editing.TryMoveToWatchlist | taks_priority_solver.py:591-601 | only an ungated, confirmed attempt moves the task; otherwise the list is unchanged |
| Editing.TryCompleteDirectly | taks_priority_solver.py:603-613 | only an ungated, confirmed attempt completes the task (with recalculation); otherwise the list is unchanged |
| Editing.CreateNewTask | taks_priority_solver.py:625-637 | appends the draft record and saves |
| Editing.ReworkClosesGate | taks_priority_solver.py:89-91 | a task sent back for rework is gated until its rework item is done |
| Editing.WithSubtask | taks_priority_solver.py:313-316 | a non-empty entry appends one unfinished subtask; an empty one changes nothing |
| Editing.WithoutSubtask | taks_priority_solver.py:320-321 | one item fewer, the others in their order |
| Editing.AddThenRemove | taks_priority_solver.py:313-321 | removing the subtask just added restores the list |
| Editing.SubtaskEditsAndGate | taks_priority_solver.py:313-321 | adding closes the gate; removing the only unfinished item opens it |
| Editing.TaskDetail.constructor | taks_priority_solver.py:206 | the detail window holds the task it was opened on |
| Editing.TaskDetail.AddSubtask | taks_priority_solver.py:313-318 | the subtask list becomes the list with the entry added |
| Editing.TaskDetail.RemoveSubtask | taks_priority_solver.py:320-322 | the subtask list becomes the list without the item |

## Left out

- Reading and writing the JSON store is file I/O. Loading is modelled as "missing or corrupt gives no tasks". Saving is the ghost field `saved`, which holds the list the file loads as, not the file's content: a corrupt file counts as the empty list until the first save overwrites it.
- Writing the store can fail (an OSError from `save_tasks`), and that error reaches the caller of every changing operation. The model's save always succeeds, so such failures are not modelled.
- UUID generation and the clock are not modelled: new ids and "today" are parameters.
- Tk widgets, layout, drawing, message boxes and the calendar pop-up are not modelled. Dialog answers are the `confirmed` parameters.
- `save_changes` is not modelled: it copies widget contents into the record and then calls `update_task`, which is modelled.
- `confirm_complete` and `report_bug` are not modelled: each only asks for confirmation before calling the manager.
- The disabled editing widgets for completed tasks are presentation and are not modelled.
- `get_priority_color` is display-only floating-point arithmetic.
- date_reminder.py is not part of this model (a Tk UI with a holiday web lookup and a timer). Neither is PythonTools.py (pip and process launching).
- The detail window and the manager share one record object. The model replaces records by value instead, so this aliasing is not modelled.
- A record without a `subtasks` key is treated as having no subtasks, as every reader except `add_subtask`/`remove_subtask` does. Their KeyError is not modelled. The same goes for a record missing another key, or a deadline of None (a TypeError).
- Dates are day ordinals. The window sorts watchlist and completed dates as strings; that matches chronological order only for zero-padded dates. Dates that do not parse are placed after all parseable ones, whereas the string order depends on their text.
- Display.Sort: stability is not stated (tasks tied on the whole key keep their input order). The insertion sort used is stable, as the window's sort is.
- Display.ColumnSortMeaning: states what the two-pass sort's result satisfies, not that `Sort` equals a stable sort by the column run on the default-ordered list; the two can differ only in the order of tasks tied on the whole key, which is stability and not stated.
- Display.DateOrderMeaning: states the order only between dates that parse.
- Priorities are unbounded integers. `add_task` converts its priority argument with `int(...)`; the model takes an integer.
