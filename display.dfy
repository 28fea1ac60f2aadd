/** What the main window does with the task list before drawing it: the
    split into the active, watchlist and completed sections, the order of
    each section, and the three-state sort control on the active section's
    "Prio" and "Deadline" headers. */
module Display {
  import opened Tasks

  datatype Option<T> = None | Some(value: T)

  /** A sort key; keys compare lexicographically and sections list larger keys first. */
  datatype Key = Key(major: int, minor: int)

  datatype Column = PriorityColumn | DeadlineColumn

  predicate KeyGe(a: Key, b: Key) {
    a.major > b.major || (a.major == b.major && a.minor >= b.minor)
  }

  /** The orders a section can be listed in. */
  datatype Order =
    | Default                   // priority descending, then days remaining ascending
    | ByPriority(descending: bool)
    | ByDeadline(descending: bool)
    | ByWatchlistDate           // most recent first
    | ByCompletedDate           // most recent first

  /** Dates that parse rank above those that do not, and among themselves by day. */
  function DateRank(d: DateText): Key {
    match d
    case Date(day) => Key(1, day)
    case _ => Key(0, 0)
  }

  /** The key of a task under an order. A column sort is a stable sort applied
      to the list already in the default order, so ties on the column fall
      back to the default order; the key says so with its minor part. */
  function KeyOf(o: Order, t: Task, today: int): Key {
    var p, d := t.priority, DaysLeft(t, today);
    match o
    case Default => Key(p, -d)
    case ByPriority(descending) => if descending then Key(p, -d) else Key(-p, -d)
    case ByDeadline(descending) => if descending then Key(d, p) else Key(-d, p)
    case ByWatchlistDate => DateRank(t.watchlistDate)
    case ByCompletedDate => DateRank(t.completedDate)
  }

  /** The value a column header sorts by: the priority, or the days remaining. */
  function ColumnKey(col: Column, t: Task, today: int): int {
    match col
    case PriorityColumn => t.priority
    case DeadlineColumn => DaysLeft(t, today)
  }

  predicate Precedes(o: Order, a: Task, b: Task, today: int) {
    KeyGe(KeyOf(o, a, today), KeyOf(o, b, today))
  }

  lemma PrecedesTotal(o: Order, a: Task, b: Task, c: Task, today: int)
    ensures Precedes(o, a, b, today) || Precedes(o, b, a, today)
    ensures Precedes(o, a, b, today) && Precedes(o, b, c, today) ==> Precedes(o, a, c, today)
  {
  }

  predicate Sorted(s: seq<Task>, o: Order, today: int) {
    forall i, j :: 0 <= i < j < |s| ==> Precedes(o, s[i], s[j], today)
  }

  /** Inserts `x` before the first element whose key it reaches, so that it
      stays ahead of the elements with an equal key that came after it. */
  function Insert(x: Task, s: seq<Task>, o: Order, today: int): (r: seq<Task>)
    ensures multiset(r) == multiset(s) + multiset{x}
  {
    if s == [] then [x]
    else if Precedes(o, x, s[0], today) then [x] + s
    else
      assert s == [s[0]] + s[1..];
      [s[0]] + Insert(x, s[1..], o, today)
  }

  /** A sorted list stays sorted under a new head that precedes every element. */
  lemma SortedCons(y: Task, s: seq<Task>, o: Order, today: int)
    requires Sorted(s, o, today)
    requires forall j :: 0 <= j < |s| ==> Precedes(o, y, s[j], today)
    ensures Sorted([y] + s, o, today)
  {
    var r := [y] + s;
    forall i, j | 0 <= i < j < |r| ensures Precedes(o, r[i], r[j], today) {
      if i > 0 {
        assert r[i] == s[i - 1] && r[j] == s[j - 1];
      }
    }
  }

  /** Inserting into a sorted list keeps it sorted. */
  lemma {:induction false} InsertSorted(x: Task, s: seq<Task>, o: Order, today: int)
    requires Sorted(s, o, today)
    ensures Sorted(Insert(x, s, o, today), o, today)
  {
    if s == [] {
    } else if Precedes(o, x, s[0], today) {
      forall j | 0 <= j < |s| ensures Precedes(o, x, s[j], today) {
        PrecedesTotal(o, x, s[0], s[j], today);
      }
      SortedCons(x, s, o, today);
    } else {
      var rest := Insert(x, s[1..], o, today);
      InsertSorted(x, s[1..], o, today);
      PrecedesTotal(o, x, s[0], x, today);
      forall j | 0 <= j < |rest| ensures Precedes(o, s[0], rest[j], today) {
        assert rest[j] in multiset(s[1..]) + multiset{x} by {
          assert rest[j] in multiset(rest);
        }
      }
      SortedCons(s[0], rest, o, today);
    }
  }

  /** The section as the window lists it: a permutation of its tasks, in order. */
  function Sort(s: seq<Task>, o: Order, today: int): (r: seq<Task>)
    ensures Sorted(r, o, today)
    ensures multiset(r) == multiset(s)
  {
    if s == [] then []
    else
      assert s == [s[0]] + s[1..];
      InsertSorted(s[0], Sort(s[1..], o, today), o, today);
      Insert(s[0], Sort(s[1..], o, today), o, today)
  }

  /** Sorting depends on the keys alone. */
  lemma {:induction false} SortSameKeys(s: seq<Task>, o1: Order, o2: Order, today: int)
    requires forall t :: KeyOf(o1, t, today) == KeyOf(o2, t, today)
    ensures Sort(s, o1, today) == Sort(s, o2, today)
  {
    if s != [] {
      SortSameKeys(s[1..], o1, o2, today);
      InsertSameKeys(s[0], Sort(s[1..], o1, today), o1, o2, today);
    }
  }

  lemma {:induction false} InsertSameKeys(x: Task, s: seq<Task>, o1: Order, o2: Order, today: int)
    requires forall t :: KeyOf(o1, t, today) == KeyOf(o2, t, today)
    ensures Insert(x, s, o1, today) == Insert(x, s, o2, today)
  {
    if s != [] {
      InsertSameKeys(x, s[1..], o1, o2, today);
    }
  }

  /** Clicking "Prio" once lists the active tasks exactly as the default order does. */
  lemma PriorityDescendingIsDefault(s: seq<Task>, today: int)
    ensures Sort(s, ByPriority(true), today) == Sort(s, Default, today)
  {
    SortSameKeys(s, ByPriority(true), Default, today);
  }

  /** The section a task is listed in, by the window's own three tests. */
  predicate ListedIn(t: Task, section: Status) {
    match section
    case Active => !t.completedDate.IsSet() && !t.watchlistDate.IsSet()
    case Watchlist => t.watchlistDate.IsSet() && !t.completedDate.IsSet()
    case Completed => t.completedDate.IsSet()
  }

  /** The three tests agree with the derived status, so each task is listed
      in exactly one section. */
  lemma ListedInItsStatus(t: Task, section: Status)
    ensures ListedIn(t, section) <==> section == StatusOf(t)
  {
  }

  function Section(ts: seq<Task>, section: Status): (r: seq<Task>)
    ensures forall t :: t in r <==> t in ts && StatusOf(t) == section
  {
    if ts == [] then []
    else if ListedIn(ts[0], section) then [ts[0]] + Section(ts[1..], section)
    else Section(ts[1..], section)
  }

  /** Together the three sections hold every task exactly once. */
  lemma {:induction false} SectionsPartition(ts: seq<Task>)
    ensures multiset(Section(ts, Active)) + multiset(Section(ts, Watchlist)) + multiset(Section(ts, Completed))
         == multiset(ts)
  {
    if ts != [] {
      SectionsPartition(ts[1..]);
      assert ts == [ts[0]] + ts[1..];
    }
  }

  /** The sort control's state: the column clicked (if any) and 0 = off,
      1 = descending, 2 = ascending. */
  datatype SortView = SortView(column: Option<Column>, state: int)

  const Off: SortView := SortView(None, 0)

  predicate ValidView(v: SortView) {
    0 <= v.state <= 2 && (v.state == 0 <==> v.column.None?)
  }

  /** `cycle_sort`: a new column starts descending; the same column goes on to
      ascending and then back to off. */
  function NextSort(v: SortView, col: Column): (w: SortView)
    ensures ValidView(v) ==> ValidView(w)
    ensures w.column.Some? ==> w.column == Some(col)
    ensures v.column != Some(col) ==> w.state == 1
  {
    if v.column != Some(col) then SortView(Some(col), 1)
    else if v.state + 1 > 2 then Off
    else SortView(v.column, v.state + 1)
  }

  /** Clicking one column three times brings the control back to where it
      started, whether it was off or already on that column. */
  lemma ThreeClicksCycle(v: SortView, col: Column)
    requires ValidView(v) && (v.column.None? || v.column == Some(col))
    ensures NextSort(NextSort(NextSort(v, col), col), col) == v
  {
  }

  /** The main window's sort state, updated in place by header clicks. */
  class SortControl {
    var activeSortCol: Option<Column>
    var sortState: int

    function View(): SortView
      reads this
    {
      SortView(activeSortCol, sortState)
    }

    constructor ()
      ensures View() == Off
    {
      activeSortCol := None;
      sortState := 0;
    }

    method CycleSort(col: Column)
      modifies this
      ensures View() == NextSort(old(View()), col)
    {
      if activeSortCol != Some(col) {
        activeSortCol := Some(col);
        sortState := 1;
      } else {
        sortState := sortState + 1;
        if sortState > 2 {
          sortState := 0;
          activeSortCol := None;
        }
      }
    }
  }

  function ColumnOrder(col: Column, descending: bool): Order {
    match col
    case PriorityColumn => ByPriority(descending)
    case DeadlineColumn => ByDeadline(descending)
  }

  /** The order `refresh_list` applies to the active section: state 1 sorts the
      clicked column descending, state 2 ascending. */
  function ActiveOrder(v: SortView): (o: Order)
    ensures v.column.None? || v.state == 0 ==> o == Default
    ensures v.column.Some? && v.state == 1 ==> o == ColumnOrder(v.column.value, true)
    ensures v.column.Some? && v.state != 0 && v.state != 1 ==> o == ColumnOrder(v.column.value, false)
  {
    if v.column.Some? && v.state != 0 then
      match v.column.value
      case PriorityColumn => ByPriority(v.state == 1)
      case DeadlineColumn => ByDeadline(v.state == 1)
    else Default
  }

  const SortActiveColour: string := "#f5f5dc"
  const SortInactiveColour: string := "#f0f0f0"

  datatype Visual = Visual(symbol: string, background: string)

  /** `get_header_visuals`: the arrow and background of a sortable header. */
  function HeaderVisuals(v: SortView, col: Column): (vis: Visual)
    ensures vis.background == SortActiveColour <==> v.column == Some(col) && v.state != 0
    ensures v.column == Some(col) && v.state == 1 ==> vis.symbol == "▼"
    ensures v.column == Some(col) && v.state != 0 && v.state != 1 ==> vis.symbol == "▲"
    ensures !(v.column == Some(col) && v.state != 0) ==> vis == Visual("►", SortInactiveColour)
  {
    if v.column == Some(col) && v.state != 0 then
      Visual(if v.state == 1 then "▼" else "▲", SortActiveColour)
    else Visual("►", SortInactiveColour)
  }

  /** A header shows "▼" exactly when the active section is sorted by its
      column descending, "▲" exactly when ascending, and otherwise the
      neutral "►" on the inactive background. */
  lemma HeaderAgreesWithOrder(v: SortView, col: Column)
    requires ValidView(v)
    ensures HeaderVisuals(v, col).symbol == "▼" <==> ActiveOrder(v) == ColumnOrder(col, true)
    ensures HeaderVisuals(v, col).symbol == "▲" <==> ActiveOrder(v) == ColumnOrder(col, false)
    ensures HeaderVisuals(v, col).background == SortActiveColour <==> v.column == Some(col)
    ensures v.column != Some(col) ==> HeaderVisuals(v, col) == Visual("►", SortInactiveColour)
  {
  }

  datatype Sections = Sections(active: seq<Task>, watchlist: seq<Task>, completed: seq<Task>)

  /** `refresh_list` without the drawing: the three sections, each a
      permutation of its tasks in its order, and together all the tasks. */
  function RefreshList(ts: seq<Task>, v: SortView, today: int): (s: Sections)
    ensures multiset(s.active) == multiset(Section(ts, Active)) && Sorted(s.active, ActiveOrder(v), today)
    ensures multiset(s.watchlist) == multiset(Section(ts, Watchlist)) && Sorted(s.watchlist, ByWatchlistDate, today)
    ensures multiset(s.completed) == multiset(Section(ts, Completed)) && Sorted(s.completed, ByCompletedDate, today)
    ensures multiset(s.active) + multiset(s.watchlist) + multiset(s.completed) == multiset(ts)
  {
    SectionsPartition(ts);
    Sections(
      Sort(Section(ts, Active), ActiveOrder(v), today),
      Sort(Section(ts, Watchlist), ByWatchlistDate, today),
      Sort(Section(ts, Completed), ByCompletedDate, today))
  }

  /** Each section lists only tasks of its own status. */
  lemma SectionsHoldTheirStatus(ts: seq<Task>, v: SortView, today: int)
    ensures var s := RefreshList(ts, v, today);
      (forall t :: t in s.active ==> StatusOf(t) == Active) &&
      (forall t :: t in s.watchlist ==> StatusOf(t) == Watchlist) &&
      (forall t :: t in s.completed ==> StatusOf(t) == Completed)
  {
    var s := RefreshList(ts, v, today);
    forall t | t in s.active ensures StatusOf(t) == Active {
      assert t in multiset(Section(ts, Active));
    }
    forall t | t in s.watchlist ensures StatusOf(t) == Watchlist {
      assert t in multiset(Section(ts, Watchlist));
    }
    forall t | t in s.completed ensures StatusOf(t) == Completed {
      assert t in multiset(Section(ts, Completed));
    }
  }

  /** In the default order the active section runs by priority descending and,
      at equal priority, by days remaining ascending. */
  lemma DefaultOrderMeaning(ts: seq<Task>, today: int, i: int, j: int)
    requires var a := RefreshList(ts, Off, today).active; 0 <= i < j < |a|
    ensures var a := RefreshList(ts, Off, today).active;
      a[i].priority > a[j].priority ||
      (a[i].priority == a[j].priority && DaysLeft(a[i], today) <= DaysLeft(a[j], today))
  {
  }

  /** In a list sorted by a date, a later position never holds a more recent
      date that parses. */
  lemma DateSortedMeaning(s: seq<Task>, o: Order, today: int, i: int, j: int)
    requires o == ByWatchlistDate || o == ByCompletedDate
    requires Sorted(s, o, today) && 0 <= i < j < |s|
    ensures o == ByWatchlistDate && s[i].watchlistDate.Date? && s[j].watchlistDate.Date? ==>
      s[i].watchlistDate.day >= s[j].watchlistDate.day
    ensures o == ByCompletedDate && s[i].completedDate.Date? && s[j].completedDate.Date? ==>
      s[i].completedDate.day >= s[j].completedDate.day
  {
    assert Precedes(o, s[i], s[j], today);
  }

  /** A column sort is a stable sort by the column alone applied to the list
      already in the default order. Its result is ordered by the column in the
      chosen direction, and tasks level on the column stay in the default
      order, for both directions. */
  lemma ColumnSortMeaning(s: seq<Task>, col: Column, descending: bool, today: int, i: int, j: int)
    requires Sorted(s, ColumnOrder(col, descending), today) && 0 <= i < j < |s|
    ensures descending ==> ColumnKey(col, s[i], today) >= ColumnKey(col, s[j], today)
    ensures !descending ==> ColumnKey(col, s[i], today) <= ColumnKey(col, s[j], today)
    ensures ColumnKey(col, s[i], today) == ColumnKey(col, s[j], today) ==> Precedes(Default, s[i], s[j], today)
  {
    assert Precedes(ColumnOrder(col, descending), s[i], s[j], today);
  }

  /** Clicking one header three times from the unsorted state: the first click
      lists the active section by that column descending, the second
      ascending, and the third returns to the default order. */
  lemma ClicksFromOff(ts: seq<Task>, col: Column, today: int, i: int, j: int)
    ensures var a := RefreshList(ts, NextSort(Off, col), today).active;
      0 <= i < j < |a| ==> ColumnKey(col, a[i], today) >= ColumnKey(col, a[j], today)
    ensures var a := RefreshList(ts, NextSort(NextSort(Off, col), col), today).active;
      0 <= i < j < |a| ==> ColumnKey(col, a[i], today) <= ColumnKey(col, a[j], today)
    ensures var v := NextSort(NextSort(NextSort(Off, col), col), col);
      v == Off && ActiveOrder(v) == Default
  {
    var v1 := NextSort(Off, col);
    var v2 := NextSort(v1, col);
    var a1 := RefreshList(ts, v1, today).active;
    var a2 := RefreshList(ts, v2, today).active;
    if 0 <= i < j < |a1| {
      ColumnSortMeaning(a1, col, true, today, i, j);
    }
    if 0 <= i < j < |a2| {
      ColumnSortMeaning(a2, col, false, today, i, j);
    }
    ThreeClicksCycle(Off, col);
  }

  /** The watchlist and completed sections list the most recent dates first. */
  lemma DateOrderMeaning(ts: seq<Task>, v: SortView, today: int, i: int, j: int)
    ensures var w := RefreshList(ts, v, today).watchlist;
      0 <= i < j < |w| && w[i].watchlistDate.Date? && w[j].watchlistDate.Date? ==>
      w[i].watchlistDate.day >= w[j].watchlistDate.day
    ensures var c := RefreshList(ts, v, today).completed;
      0 <= i < j < |c| && c[i].completedDate.Date? && c[j].completedDate.Date? ==>
      c[i].completedDate.day >= c[j].completedDate.day
  {
    var s := RefreshList(ts, v, today);
    if 0 <= i < j < |s.watchlist| {
      DateSortedMeaning(s.watchlist, ByWatchlistDate, today, i, j);
    }
    if 0 <= i < j < |s.completed| {
      DateSortedMeaning(s.completed, ByCompletedDate, today, i, j);
    }
  }
}
