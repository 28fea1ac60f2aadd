/** The task record of the priority solver and the facts derived from it:
    dates as day ordinals, days remaining until a deadline, and the
    lifecycle status that is read off the two optional dates. */
module Tasks {

  /** Task identifiers are opaque strings (generated outside the model). */
  type Id = string

  /** A date field as the task store holds it: a `%Y-%m-%d` text.
      `Blank` is an absent or empty field (falsy), `Date(day)` one that parses
      to the day ordinal `day`, `Unparsable` a non-empty text that does not parse. */
  datatype DateText = Blank | Date(day: int) | Unparsable {
    predicate IsSet() { !Blank? }
  }

  datatype Subtask = Subtask(text: string, done: bool)

  datatype Task = Task(
    id: Id,
    title: string,
    deadline: DateText,
    priority: int,
    description: string,
    subtasks: seq<Subtask>,
    watchlistDate: DateText,
    completedDate: DateText)

  datatype Status = Active | Watchlist | Completed

  /** Whole days from `today` to the deadline; a deadline that does not parse counts as 0. */
  function DaysRemaining(deadline: DateText, today: int): (d: int)
    ensures deadline.Date? ==> today + d == deadline.day
    ensures !deadline.Date? ==> d == 0
  {
    match deadline
    case Date(day) => day - today
    case _ => 0
  }

  function DaysLeft(t: Task, today: int): int {
    DaysRemaining(t.deadline, today)
  }

  /** The status is never stored: a completion date wins over a watchlist date. */
  function StatusOf(t: Task): (s: Status)
    ensures s == Completed <==> t.completedDate.IsSet()
    ensures s == Watchlist <==> t.watchlistDate.IsSet() && !t.completedDate.IsSet()
    ensures s == Active <==> !t.watchlistDate.IsSet() && !t.completedDate.IsSet()
  {
    if t.completedDate.IsSet() then Completed
    else if t.watchlistDate.IsSet() then Watchlist
    else Active
  }

  predicate PriorityInRange(t: Task) {
    1 <= t.priority <= 20
  }

  /** Every priority lies on the 1..20 scale the detail window offers. */
  predicate AllInRange(ts: seq<Task>) {
    forall i :: 0 <= i < |ts| ==> PriorityInRange(ts[i])
  }

  /** The record `add_task` creates: no subtasks and neither date set. */
  function NewTask(id: Id, title: string, deadline: DateText, priority: int, description: string): (t: Task)
    ensures StatusOf(t) == Active && t.subtasks == []
    ensures t.id == id && t.title == title && t.deadline == deadline
    ensures t.priority == priority && t.description == description
  {
    Task(id, title, deadline, priority, description, [], Blank, Blank)
  }

  const DraftTitle: string := "Nový úkol"
  const DraftPriority: int := 10

  /** The record the "new task" button appends before its detail window opens:
      due today, priority 10, active, nothing to do yet. */
  function DraftTask(id: Id, today: int): (t: Task)
    ensures StatusOf(t) == Active && PriorityInRange(t) && t.priority == DraftPriority
    ensures DaysLeft(t, today) == 0 && t.subtasks == [] && t.id == id
    ensures t.deadline == Date(today) && t.title == DraftTitle && t.description == ""
  {
    NewTask(id, DraftTitle, Date(today), DraftPriority, "")
  }

  /** What the store file yields: missing and corrupt files both load as no tasks. */
  datatype Stored = Missing | Corrupt | Parsed(tasks: seq<Task>)

  function Load(s: Stored): (ts: seq<Task>)
    ensures s.Parsed? ==> ts == s.tasks
    ensures !s.Parsed? ==> ts == []
  {
    if s.Parsed? then s.tasks else []
  }
}
