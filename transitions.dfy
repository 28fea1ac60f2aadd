/** The lifecycle transitions and the list edits of the task manager, as
    functions on the task list. Each one acts on the first record whose id
    matches and leaves every other record as it was. */
module Transitions {
  import opened Tasks

  /** Text of the subtask appended when a watchlist task is sent back for rework. */
  const ReworkText: string := "Opravit bugy (vráceno z Watchlistu)"

  function ReworkItem(): Subtask {
    Subtask(ReworkText, false)
  }

  /** Index of the first record with the given id, or `|ts|` when there is none. */
  function FirstIndex(ts: seq<Task>, id: Id): (k: nat)
    ensures k <= |ts|
    ensures k < |ts| ==> ts[k].id == id
    ensures forall j :: 0 <= j < k ==> ts[j].id != id
  {
    if ts == [] then 0
    else if ts[0].id == id then 0
    else 1 + FirstIndex(ts[1..], id)
  }

  predicate HasId(ts: seq<Task>, id: Id) {
    exists j :: 0 <= j < |ts| && ts[j].id == id
  }

  lemma FirstIndexFound(ts: seq<Task>, id: Id)
    ensures FirstIndex(ts, id) < |ts| <==> HasId(ts, id)
  {
  }

  datatype Transition = ToWatchlist | CompleteDirectly | ConfirmWatchlist | ReturnForRework

  /** The effect of one transition on one record. */
  function Transit(tr: Transition, t: Task, today: int): (u: Task)
    ensures u.id == t.id && u.title == t.title && u.description == t.description
    ensures tr == ToWatchlist ==>
      StatusOf(u) == Watchlist && u.watchlistDate == Date(today) && u == t.(watchlistDate := u.watchlistDate, completedDate := Blank)
    ensures tr == CompleteDirectly ==>
      StatusOf(u) == Completed && u.completedDate == Date(today) && u == t.(watchlistDate := Blank, completedDate := u.completedDate)
    ensures tr == ConfirmWatchlist ==>
      StatusOf(u) == Completed && u == t.(completedDate := u.completedDate) &&
      u.completedDate == (if t.watchlistDate.IsSet() then t.watchlistDate else Date(today))
    ensures tr == ReturnForRework ==>
      StatusOf(u) == Active && u.priority == 15 && DaysLeft(u, today) == 1 &&
      u.subtasks == t.subtasks + [ReworkItem()] && |u.subtasks| == |t.subtasks| + 1 &&
      !u.subtasks[|t.subtasks|].done
  {
    match tr
    case ToWatchlist => t.(watchlistDate := Date(today), completedDate := Blank)
    case CompleteDirectly => t.(completedDate := Date(today), watchlistDate := Blank)
    case ConfirmWatchlist =>
      t.(completedDate := if t.watchlistDate.IsSet() then t.watchlistDate else Date(today))
    case ReturnForRework =>
      t.(watchlistDate := Blank, completedDate := Blank, priority := 15,
         deadline := Date(today + 1), subtasks := t.subtasks + [ReworkItem()])
  }

  /** Confirming a watchlist task keeps its watchlist date and completes it on
      that date; both dates are then set and the completion date wins. */
  lemma ConfirmKeepsWatchlistDate(t: Task, today: int)
    requires StatusOf(t) == Watchlist
    ensures var u := Transit(ConfirmWatchlist, t, today);
      u.watchlistDate == t.watchlistDate && u.completedDate == t.watchlistDate &&
      u.watchlistDate.IsSet() && StatusOf(u) == Completed
  {
  }

  /** A transition applied to the first record with the given id. */
  function ApplyToFirst(ts: seq<Task>, id: Id, tr: Transition, today: int): (r: seq<Task>)
    ensures |r| == |ts|
    ensures !HasId(ts, id) ==> r == ts
    ensures HasId(ts, id) ==> r[FirstIndex(ts, id)] == Transit(tr, ts[FirstIndex(ts, id)], today)
    ensures forall j :: 0 <= j < |ts| && j != FirstIndex(ts, id) ==> r[j] == ts[j]
  {
    var k := FirstIndex(ts, id);
    if k < |ts| then ts[k := Transit(tr, ts[k], today)] else ts
  }

  /** `update_task`: the first record with the edited record's id is replaced by it. */
  function ReplaceFirst(ts: seq<Task>, edited: Task): (r: seq<Task>)
    ensures |r| == |ts|
    ensures !HasId(ts, edited.id) ==> r == ts
    ensures HasId(ts, edited.id) ==> r[FirstIndex(ts, edited.id)] == edited && edited in r
    ensures forall j :: 0 <= j < |ts| && j != FirstIndex(ts, edited.id) ==> r[j] == ts[j]
  {
    var k := FirstIndex(ts, edited.id);
    if k < |ts| then ts[k := edited] else ts
  }

  /** `delete_task`: every record with the id goes, the rest keep their order. */
  function WithoutId(ts: seq<Task>, id: Id): (r: seq<Task>)
    ensures |r| <= |ts|
    ensures forall t :: t in r <==> t in ts && t.id != id
    ensures !HasId(ts, id) ==> r == ts
    ensures HasId(ts, id) ==> |r| < |ts|
  {
    if ts == [] then []
    else if ts[0].id == id then WithoutId(ts[1..], id)
    else [ts[0]] + WithoutId(ts[1..], id)
  }

  /** Deleting is order preserving: it distributes over concatenation. */
  lemma {:induction false} WithoutIdAppend(a: seq<Task>, b: seq<Task>, id: Id)
    ensures WithoutId(a + b, id) == WithoutId(a, id) + WithoutId(b, id)
  {
    if a == [] {
      assert a + b == b;
    } else {
      assert (a + b)[1..] == a[1..] + b;
      WithoutIdAppend(a[1..], b, id);
    }
  }

  /** Deleting twice is deleting once. */
  lemma {:induction false} WithoutIdIdempotent(ts: seq<Task>, id: Id)
    ensures WithoutId(WithoutId(ts, id), id) == WithoutId(ts, id)
  {
    var r := WithoutId(ts, id);
    assert !HasId(r, id) by {
      forall j | 0 <= j < |r| ensures r[j].id != id { assert r[j] in r; }
    }
  }

  /** An update leaves the id at every position as it was, so unique ids stay unique. */
  lemma ReplaceFirstKeepsIds(ts: seq<Task>, edited: Task)
    ensures forall j :: 0 <= j < |ts| ==> ReplaceFirst(ts, edited)[j].id == ts[j].id
  {
  }

  /** A transition on an id and an update of a different id touch different records. */
  lemma TransitionsCommute(ts: seq<Task>, id: Id, tr: Transition, edited: Task, today: int)
    requires id != edited.id
    ensures ReplaceFirst(ApplyToFirst(ts, id, tr, today), edited)
         == ApplyToFirst(ReplaceFirst(ts, edited), id, tr, today)
  {
    var a := ApplyToFirst(ts, id, tr, today);
    var b := ReplaceFirst(ts, edited);
    assert FirstIndex(a, edited.id) == FirstIndex(ts, edited.id) by {
      FirstIndexOnIds(ts, a, edited.id);
    }
    assert FirstIndex(b, id) == FirstIndex(ts, id) by {
      FirstIndexOnIds(ts, b, id);
    }
  }

  /** The first index depends on the ids alone. */
  lemma {:induction false} FirstIndexOnIds(ts: seq<Task>, us: seq<Task>, id: Id)
    requires |ts| == |us|
    requires forall j :: 0 <= j < |ts| ==> ts[j].id == us[j].id
    ensures FirstIndex(ts, id) == FirstIndex(us, id)
  {
    if ts != [] {
      FirstIndexOnIds(ts[1..], us[1..], id);
    }
  }
}
