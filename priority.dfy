/** The two priority-escalation passes: the startup check, run once when the
    manager starts, and the recalculation pass run after every completion
    and deletion. Both touch active tasks only. */
module Priority {
  import opened Tasks

  const Overdue: int := 15
  const DueSoon: int := 13
  const Ceiling: int := 15

  function Min(a: int, b: int): int { if a <= b then a else b }

  /** Startup rule for one active task: a missed deadline forces 15, a deadline
      today or tomorrow lifts the priority to at least 13. */
  function StartupPriority(p: int, days: int): (q: int)
    ensures days < 0 ==> q == Overdue
    ensures 0 <= days < 2 ==> DueSoon <= q && p <= q && (q == p || q == DueSoon)
    ensures 2 <= days ==> q == p
  {
    if days < 0 then Overdue
    else if days < 2 && p < DueSoon then DueSoon
    else p
  }

  /** Recalculation rule for one active task: a deadline less than ten days
      away raises a priority below 15 by two, but not past 15. */
  function RecalcPriority(p: int, days: int): (q: int)
    ensures p <= q
    ensures p < Ceiling ==> q <= Ceiling
    ensures q == p <==> (10 <= days || Ceiling <= p)
    ensures q != p ==> q == Min(Ceiling, p + 2)
  {
    if days < 10 && p < Ceiling then Min(Ceiling, p + 2) else p
  }

  function StartupTask(t: Task, today: int): Task {
    if StatusOf(t) == Active then t.(priority := StartupPriority(t.priority, DaysLeft(t, today))) else t
  }

  function RecalcTask(t: Task, today: int): Task {
    if StatusOf(t) == Active then t.(priority := RecalcPriority(t.priority, DaysLeft(t, today))) else t
  }

  /** `check_startup_priorities` over the whole list. */
  function StartupCheck(ts: seq<Task>, today: int): (r: seq<Task>)
    ensures |r| == |ts|
    ensures forall i :: 0 <= i < |ts| ==> r[i] == StartupTask(ts[i], today)
  {
    seq(|ts|, i requires 0 <= i < |ts| => StartupTask(ts[i], today))
  }

  /** `recalc_priorities_after_change` over the whole list. */
  function Recalc(ts: seq<Task>, today: int): (r: seq<Task>)
    ensures |r| == |ts|
    ensures forall i :: 0 <= i < |ts| ==> r[i] == RecalcTask(ts[i], today)
  {
    seq(|ts|, i requires 0 <= i < |ts| => RecalcTask(ts[i], today))
  }

  /** Only the priority of an active task can change; the record keeps its
      identity, dates, deadline and subtasks, and therefore its status. */
  predicate SameButPriority(a: Task, b: Task) {
    a.(priority := b.priority) == b
  }

  lemma StartupCheckEffect(ts: seq<Task>, today: int, i: int)
    requires 0 <= i < |ts|
    ensures var t, u := ts[i], StartupCheck(ts, today)[i];
      SameButPriority(t, u) && StatusOf(u) == StatusOf(t) &&
      (StatusOf(t) != Active ==> u == t) &&
      (StatusOf(t) == Active && DaysLeft(t, today) < 0 ==> u.priority == 15) &&
      (StatusOf(t) == Active && 0 <= DaysLeft(t, today) < 2 ==>
         u.priority >= 13 && u.priority >= t.priority && (u.priority == 13 || u == t)) &&
      (StatusOf(t) == Active && DaysLeft(t, today) >= 2 ==> u == t)
  {
  }

  lemma RecalcEffect(ts: seq<Task>, today: int, i: int)
    requires 0 <= i < |ts|
    ensures var t, u := ts[i], Recalc(ts, today)[i];
      SameButPriority(t, u) && StatusOf(u) == StatusOf(t) && t.priority <= u.priority &&
      (StatusOf(t) == Active && DaysLeft(t, today) < 10 && t.priority < 15 ==>
         u.priority == Min(15, t.priority + 2)) &&
      (!(StatusOf(t) == Active && DaysLeft(t, today) < 10 && t.priority < 15) ==> u == t)
  {
  }

  /** Neither pass can push a priority off the 1..20 scale. */
  lemma PassesKeepRange(ts: seq<Task>, today: int)
    requires AllInRange(ts)
    ensures AllInRange(StartupCheck(ts, today))
    ensures AllInRange(Recalc(ts, today))
  {
  }

  /** The startup check is idempotent: a second run on the same day changes nothing. */
  lemma StartupCheckIdempotent(ts: seq<Task>, today: int)
    ensures StartupCheck(StartupCheck(ts, today), today) == StartupCheck(ts, today)
  {
    var once := StartupCheck(ts, today);
    var twice := StartupCheck(once, today);
    forall i | 0 <= i < |ts| ensures twice[i] == once[i] {
      assert SameButPriority(ts[i], once[i]);
    }
  }

  /** Unlike the recalculation pass, the startup check can lower a priority:
      an overdue active task at 18 drops to 15. */
  lemma StartupCheckCanLower(today: int)
    ensures exists ts: seq<Task> ::
      (|ts| == 1 && AllInRange(ts) && StartupCheck(ts, today)[0].priority < ts[0].priority)
  {
    var t := NewTask("a", "a", Date(today - 1), 18, "");
    var r := StartupCheck([t], today);
    assert r[0].priority == 15;
  }

  /** The recalculation pass is a fixed point exactly when no active task
      closer than ten days to its deadline sits below 15. */
  lemma RecalcFixedPoint(ts: seq<Task>, today: int)
    ensures Recalc(ts, today) == ts <==>
      forall i :: 0 <= i < |ts| && StatusOf(ts[i]) == Active && DaysLeft(ts[i], today) < 10
        ==> ts[i].priority >= 15
  {
    var r := Recalc(ts, today);
    if r == ts {
      forall i | 0 <= i < |ts| && StatusOf(ts[i]) == Active && DaysLeft(ts[i], today) < 10
        ensures ts[i].priority >= 15
      {
        assert r[i].priority == ts[i].priority;
      }
    }
  }

  /** ... so the pass is not idempotent below the ceiling: two passes raise a
      near-deadline task at 8 to 12, one pass only to 10. */
  lemma RecalcNotIdempotent(today: int)
    ensures exists ts: seq<Task> ::
      (AllInRange(ts) && Recalc(Recalc(ts, today), today) != Recalc(ts, today))
  {
    var t := NewTask("a", "a", Date(today + 5), 8, "");
    var once := Recalc([t], today);
    var twice := Recalc(once, today);
    assert once[0].priority == 10;
    assert twice[0].priority == 12;
  }

  /** `k` successive recalculation passes. */
  function RecalcTimes(ts: seq<Task>, k: nat, today: int): (r: seq<Task>)
    ensures |r| == |ts|
  {
    if k == 0 then ts else Recalc(RecalcTimes(ts, k - 1, today), today)
  }

  /** Repeated passes keep raising a near-deadline active task by two until it
      saturates at 15; the status, deadline and every other field stay put. */
  lemma {:induction false} RecalcTimesPriority(ts: seq<Task>, k: nat, today: int, i: int)
    requires 0 <= i < |ts|
    ensures var t, u := ts[i], RecalcTimes(ts, k, today)[i];
      SameButPriority(t, u) &&
      u.priority == (if StatusOf(t) == Active && DaysLeft(t, today) < 10 && t.priority < 15
                     then Min(15, t.priority + 2 * k) else t.priority)
  {
    if k > 0 {
      RecalcTimesPriority(ts, k - 1, today, i);
      RecalcEffect(RecalcTimes(ts, k - 1, today), today, i);
    }
  }

  /** Starting from the 1..20 scale, seven passes are enough: every
      near-deadline active task then sits at 15 and the pass has reached its
      fixed point. */
  lemma RecalcSaturates(ts: seq<Task>, today: int)
    requires AllInRange(ts)
    ensures var r := RecalcTimes(ts, 7, today);
      AllInRange(r) && Recalc(r, today) == r
  {
    var r := RecalcTimes(ts, 7, today);
    forall i | 0 <= i < |ts| ensures PriorityInRange(r[i]) && RecalcTask(r[i], today) == r[i] {
      RecalcTimesPriority(ts, 7, today, i);
    }
    RecalcFixedPoint(r, today);
  }
}
