/** The maintenance sweeps the manager runs when it starts: the watchlist
    timeout, the retention cleanup and the startup priority check, in that
    order. */
module Sweeps {
  import opened Tasks
  import opened Priority

  const WatchlistTimeoutDays: int := 14
  const RetentionDays: int := 31

  /** A watchlist task (watchlist date set, no completion date) whose watchlist
      date parses and lies at least 14 days back. */
  predicate TimedOut(t: Task, today: int) {
    t.watchlistDate.IsSet() && !t.completedDate.IsSet() &&
    t.watchlistDate.Date? && today - t.watchlistDate.day >= WatchlistTimeoutDays
  }

  /** A timed-out task is completed on the day it entered the watchlist. */
  function TimeoutTask(t: Task, today: int): (u: Task)
    ensures TimedOut(t, today) ==> StatusOf(u) == Completed && u.completedDate == t.watchlistDate
    ensures !TimedOut(t, today) ==> u == t
    ensures u.(completedDate := t.completedDate) == t
  {
    if TimedOut(t, today) then t.(completedDate := t.watchlistDate) else t
  }

  predicate AnyTimedOut(ts: seq<Task>, today: int) {
    exists i :: 0 <= i < |ts| && TimedOut(ts[i], today)
  }

  function TimeoutAll(ts: seq<Task>, today: int): (r: seq<Task>)
    ensures |r| == |ts|
    ensures forall i :: 0 <= i < |ts| ==> r[i] == TimeoutTask(ts[i], today)
  {
    seq(|ts|, i requires 0 <= i < |ts| => TimeoutTask(ts[i], today))
  }

  /** `check_watchlist_timeout`: the recalculation pass follows only when some
      task actually timed out. */
  function WatchlistTimeout(ts: seq<Task>, today: int): (r: seq<Task>)
    ensures |r| == |ts|
    ensures !AnyTimedOut(ts, today) ==> r == ts
    ensures forall i :: 0 <= i < |ts| ==> r[i].id == ts[i].id
    ensures forall i :: 0 <= i < |r| ==> !TimedOut(r[i], today)
    ensures forall i :: 0 <= i < |ts| && TimedOut(ts[i], today) ==>
      StatusOf(r[i]) == Completed && r[i] == ts[i].(completedDate := ts[i].watchlistDate)
    ensures AnyTimedOut(ts, today) ==>
      forall i :: 0 <= i < |ts| && !TimedOut(ts[i], today) ==> r[i] == RecalcTask(ts[i], today)
  {
    if AnyTimedOut(ts, today) then Recalc(TimeoutAll(ts, today), today) else ts
  }

  /** Retention keeps a task unless its completion date parses and lies more
      than 31 days back; unparsable completion dates are kept. */
  predicate Kept(t: Task, today: int) {
    !(t.completedDate.Date? && today - t.completedDate.day > RetentionDays)
  }

  /** `cleanup_old_completed_tasks`: the survivors, in their original order. */
  function Retained(ts: seq<Task>, today: int): (r: seq<Task>)
    ensures |r| <= |ts|
    ensures forall t :: t in r <==> t in ts && Kept(t, today)
  {
    if ts == [] then []
    else if Kept(ts[0], today) then [ts[0]] + Retained(ts[1..], today)
    else Retained(ts[1..], today)
  }

  /** Retention works element by element, so it keeps the survivors' order:
      it distributes over concatenation. */
  lemma {:induction false} RetainedAppend(a: seq<Task>, b: seq<Task>, today: int)
    ensures Retained(a + b, today) == Retained(a, today) + Retained(b, today)
  {
    if a == [] {
      assert a + b == b;
    } else {
      assert (a + b)[1..] == a[1..] + b;
      RetainedAppend(a[1..], b, today);
    }
  }

  /** A list with nothing to purge is left exactly as it was. */
  lemma {:induction false} RetainedAllKept(ts: seq<Task>, today: int)
    requires forall i :: 0 <= i < |ts| ==> Kept(ts[i], today)
    ensures Retained(ts, today) == ts
  {
    if ts != [] {
      RetainedAllKept(ts[1..], today);
    }
  }

  /** The tasks the cleanup drops, in their original order. */
  function Purged(ts: seq<Task>, today: int): (r: seq<Task>)
    ensures forall t :: t in r <==> t in ts && !Kept(t, today)
  {
    if ts == [] then []
    else if Kept(ts[0], today) then Purged(ts[1..], today)
    else [ts[0]] + Purged(ts[1..], today)
  }

  /** Exactly the expired tasks are dropped: the survivors plus the purged
      tasks make up the original list. */
  lemma {:induction false} RetainedCount(ts: seq<Task>, today: int)
    ensures |Retained(ts, today)| + |Purged(ts, today)| == |ts|
    ensures multiset(Retained(ts, today)) + multiset(Purged(ts, today)) == multiset(ts)
  {
    if ts != [] {
      RetainedCount(ts[1..], today);
      assert ts == [ts[0]] + ts[1..];
    }
  }

  /** The retention window is 31 days: a task completed 31 days ago stays, one
      completed 32 days ago goes. */
  lemma RetentionBoundary(t: Task, today: int)
    ensures t.(completedDate := Date(today - 31)) in Retained([t.(completedDate := Date(today - 31))], today)
    ensures t.(completedDate := Date(today - 32)) !in Retained([t.(completedDate := Date(today - 32))], today)
  {
  }

  /** The startup pipeline in the order the manager's constructor runs it. */
  function Startup(ts: seq<Task>, today: int): (r: seq<Task>)
    ensures |r| <= |ts|
  {
    StartupCheck(Retained(WatchlistTimeout(ts, today), today), today)
  }

  /** After startup nothing expired remains and no watchlist task is overdue
      for its timeout. */
  lemma StartupClean(ts: seq<Task>, today: int)
    ensures forall t :: t in Startup(ts, today) ==> Kept(t, today) && !TimedOut(t, today)
  {
    var a := WatchlistTimeout(ts, today);
    var b := Retained(a, today);
    var c := StartupCheck(b, today);
    forall t | t in c ensures Kept(t, today) && !TimedOut(t, today) {
      var i :| 0 <= i < |c| && c[i] == t;
      assert SameButPriority(b[i], c[i]) by { StartupCheckEffect(b, today, i); }
      assert b[i] in a;
    }
  }

  /** Running the startup pipeline twice on the same day is the same as once. */
  lemma StartupIdempotent(ts: seq<Task>, today: int)
    ensures Startup(Startup(ts, today), today) == Startup(ts, today)
  {
    var s := Startup(ts, today);
    StartupClean(ts, today);
    assert !AnyTimedOut(s, today) by {
      forall i | 0 <= i < |s| ensures !TimedOut(s[i], today) { assert s[i] in s; }
    }
    assert WatchlistTimeout(s, today) == s;
    forall i | 0 <= i < |s| ensures Kept(s[i], today) { assert s[i] in s; }
    RetainedAllKept(s, today);
    var b := Retained(WatchlistTimeout(ts, today), today);
    StartupCheckIdempotent(b, today);
  }

  /** Ids are unique (they are fresh UUIDs). */
  predicate UniqueIds(ts: seq<Task>) {
    forall i, j :: 0 <= i < j < |ts| ==> ts[i].id != ts[j].id
  }

  /** A consequence of running the timeout before the cleanup: a watchlist task
      whose watchlist date is more than 31 days back is completed with that
      date and purged in the same startup. */
  lemma StaleWatchlistPurged(ts: seq<Task>, today: int, i: int)
    requires UniqueIds(ts) && 0 <= i < |ts|
    requires StatusOf(ts[i]) == Watchlist && ts[i].watchlistDate.Date?
    requires today - ts[i].watchlistDate.day > RetentionDays
    ensures forall t :: t in Startup(ts, today) ==> t.id != ts[i].id
  {
    var a := WatchlistTimeout(ts, today);
    assert TimedOut(ts[i], today);
    assert AnyTimedOut(ts, today);
    assert a[i] == RecalcTask(TimeoutTask(ts[i], today), today);
    assert !Kept(a[i], today);
    var b := Retained(a, today);
    var c := StartupCheck(b, today);
    forall t | t in c ensures t.id != ts[i].id {
      var k :| 0 <= k < |c| && c[k] == t;
      assert SameButPriority(b[k], c[k]) by { StartupCheckEffect(b, today, k); }
      assert b[k] in a;
      var j :| 0 <= j < |a| && a[j] == b[k];
      assert j != i;
    }
  }
}
