/** The greedy selection of `TaskSchedulerAI.schedule` (app.py:104-130). */
module Scheduler {
  import opened Tasks

  /** Python's `min` scans left to right and replaces its candidate only on a strictly smaller
      key. After the first `n` items the candidate is therefore the first position among them
      holding a smallest key. */
  function ScanMin(pool: seq<Task>, n: nat): (i: nat)
    requires 0 < n <= |pool|
    ensures i < n
    ensures forall j :: 0 <= j < n ==> KeyLe(pool[i], pool[j])
    ensures forall j :: 0 <= j < i ==> KeyLess(pool[i], pool[j])
  {
    if n == 1 then 0
    else
      var m := ScanMin(pool, n - 1);
      if KeyLess(pool[n - 1], pool[m]) then n - 1 else m
  }

  /** Python's `min` over the pool keyed by `(priority, duration)`, as the position of the task
      it returns: the first one with the smallest key. */
  function FirstMin(pool: seq<Task>): (i: nat)
    requires |pool| > 0
    ensures i < |pool|
    ensures forall j :: 0 <= j < |pool| ==> KeyLe(pool[i], pool[j])
    ensures forall j :: 0 <= j < i ==> KeyLess(pool[i], pool[j])
  {
    ScanMin(pool, |pool|)
  }

  /** `list.remove(x)`: deletes the first element equal to `x` (Python raises when there is
      none, which the scheduler never triggers). */
  function RemoveFirst(s: seq<Task>, x: Task): (r: seq<Task>)
    requires x in s
    ensures |r| == |s| - 1
  {
    if s[0] == x then s[1..] else [s[0]] + RemoveFirst(s[1..], x)
  }

  lemma {:induction false} RemoveFirstAt(s: seq<Task>, i: nat)
    requires i < |s|
    requires forall j :: 0 <= j < i ==> s[j] != s[i]
    ensures RemoveFirst(s, s[i]) == s[..i] + s[i + 1..]
  {
    if i > 0 {
      var t := s[1..];
      assert t[i - 1] == s[i];
      RemoveFirstAt(t, i - 1);
      assert s[..i] + s[i + 1..] == [s[0]] + (t[..i - 1] + t[i..]);
    }
  }

  /** Removing the task `min` picked deletes exactly the position `FirstMin` names: any equal
      task earlier in the list would have had the same key and been picked instead. */
  lemma {:induction false} RemoveFirstMin(pool: seq<Task>)
    requires |pool| > 0
    ensures RemoveFirst(pool, pool[FirstMin(pool)]) == pool[..FirstMin(pool)] + pool[FirstMin(pool) + 1..]
  {
    RemoveFirstAt(pool, FirstMin(pool));
  }

  lemma {:induction false} MultisetWithout(s: seq<Task>, i: nat)
    requires i < |s|
    ensures multiset(s[..i] + s[i + 1..]) == multiset(s) - multiset{s[i]}
  {
    assert s == s[..i] + [s[i]] + s[i + 1..];
  }

  /** What the loop leaves behind: the tasks selected in order, the tasks still in the pool,
      and the time still remaining. */
  datatype Outcome = Outcome(selected: seq<Task>, left: seq<Task>, remaining: int)

  /** The loop of `schedule`, stated as a function of the pool and the remaining time. */
  function Greedy(pool: seq<Task>, remaining: int): (r: Outcome)
    ensures |r.selected| + |r.left| == |pool|
    decreases |pool|
  {
    if remaining > 0 && |pool| > 0 then
      var i := FirstMin(pool);
      if pool[i].duration <= remaining then
        var best := pool[i];
        var rest := Greedy(pool[..i] + pool[i + 1..], remaining - best.duration);
        Outcome([best] + rest.selected, rest.left, rest.remaining)
      else
        Outcome([], pool, remaining)
    else
      Outcome([], pool, remaining)
  }

  /** One turn of the loop that takes a task. */
  lemma {:induction false} GreedyTake(pool: seq<Task>, remaining: int)
    requires remaining > 0 && |pool| > 0 && pool[FirstMin(pool)].duration <= remaining
    ensures var i := FirstMin(pool);
      var r := Greedy(pool[..i] + pool[i + 1..], remaining - pool[i].duration);
      Greedy(pool, remaining) == Outcome([pool[i]] + r.selected, r.left, r.remaining)
  {
  }

  /** The same turn, with the chosen task taken out by `list.remove` as the source does. */
  lemma {:induction false} GreedyStep(pool: seq<Task>, remaining: int)
    requires remaining > 0 && |pool| > 0 && pool[FirstMin(pool)].duration <= remaining
    ensures var best := pool[FirstMin(pool)];
      var r := Greedy(RemoveFirst(pool, best), remaining - best.duration);
      Greedy(pool, remaining) == Outcome([best] + r.selected, r.left, r.remaining)
  {
    RemoveFirstMin(pool);
    GreedyTake(pool, remaining);
  }

  /** The loop ends at once when there is no time or no task left, or when the smallest task
      by key does not fit: nothing more is selected and the pool is kept whole. */
  lemma {:induction false} GreedyHalts(pool: seq<Task>, remaining: int)
    requires remaining <= 0 || pool == [] || pool[FirstMin(pool)].duration > remaining
    ensures Greedy(pool, remaining) == Outcome([], pool, remaining)
  {
  }

  /** Selected and left-over tasks together are exactly the input, as a multiset. */
  lemma {:induction false} GreedyConserves(pool: seq<Task>, remaining: int)
    ensures var g := Greedy(pool, remaining);
      multiset(g.selected) + multiset(g.left) == multiset(pool)
    decreases |pool|
  {
    if remaining > 0 && |pool| > 0 {
      var i := FirstMin(pool);
      var best := pool[i];
      if best.duration <= remaining {
        MultisetWithout(pool, i);
        var rest := pool[..i] + pool[i + 1..];
        var r := Greedy(rest, remaining - best.duration);
        GreedyConserves(rest, remaining - best.duration);
        GreedyTake(pool, remaining);
        var g := Greedy(pool, remaining);
        assert best in multiset(pool);
        calc {
          multiset(g.selected) + multiset(g.left);
          multiset{best} + (multiset(r.selected) + multiset(r.left));
          multiset{best} + (multiset(pool) - multiset{best});
          multiset(pool);
        }
      }
    }
  }

  /** The time used is the sum of the selected durations. */
  lemma {:induction false} GreedyUsed(pool: seq<Task>, remaining: int)
    ensures var g := Greedy(pool, remaining); TotalDuration(g.selected) == remaining - g.remaining
    decreases |pool|
  {
    if remaining > 0 && |pool| > 0 && pool[FirstMin(pool)].duration <= remaining {
      var i := FirstMin(pool);
      var rest := pool[..i] + pool[i + 1..];
      var r := Greedy(rest, remaining - pool[i].duration);
      GreedyUsed(rest, remaining - pool[i].duration);
      GreedyTake(pool, remaining);
      var g := Greedy(pool, remaining);
      assert g.selected == [pool[i]] + r.selected && g.remaining == r.remaining;
      assert g.selected[1..] == r.selected;
    } else {
      GreedyHalts(pool, remaining);
    }
  }

  /** Where the remaining time ends up: never below 0 from a positive start, untouched from a
      start of 0 or less, and never above the start when no duration is negative. */
  lemma {:induction false} GreedyRemaining(pool: seq<Task>, remaining: int)
    ensures var g := Greedy(pool, remaining);
      && (remaining > 0 ==> g.remaining >= 0)
      && (remaining <= 0 ==> g.selected == [] && g.remaining == remaining)
      && ((forall k :: 0 <= k < |pool| ==> pool[k].duration >= 0) ==> g.remaining <= remaining)
    decreases |pool|
  {
    if remaining > 0 && |pool| > 0 && pool[FirstMin(pool)].duration <= remaining {
      var i := FirstMin(pool);
      var rest := pool[..i] + pool[i + 1..];
      GreedyRemaining(rest, remaining - pool[i].duration);
      GreedyTake(pool, remaining);
      if forall k :: 0 <= k < |pool| ==> pool[k].duration >= 0 {
        DurationsWithout(pool, i, rest, 0);
      }
    } else {
      GreedyHalts(pool, remaining);
    }
  }

  /** The time used is the sum of the selected durations; a positive budget is never
      overdrawn, and with no negative durations the time used is not negative either. */
  lemma {:induction false} GreedyBudget(pool: seq<Task>, remaining: int)
    ensures var g := Greedy(pool, remaining);
      TotalDuration(g.selected) == remaining - g.remaining
      && (remaining > 0 ==> g.remaining >= 0)
      && (remaining <= 0 ==> g.selected == [] && g.remaining == remaining)
      && ((forall k :: 0 <= k < |pool| ==> pool[k].duration >= 0) ==> g.remaining <= remaining)
  {
    GreedyUsed(pool, remaining);
    GreedyRemaining(pool, remaining);
  }

  /** Every task in `s` comes from `pool`, so `t` (no later than all of `pool`) is no later
      than any of them. */
  lemma {:induction false} KeyLeAllOfSubset(t: Task, s: seq<Task>, pool: seq<Task>)
    requires multiset(s) <= multiset(pool)
    requires forall j :: 0 <= j < |pool| ==> KeyLe(t, pool[j])
    ensures forall j :: 0 <= j < |s| ==> KeyLe(t, s[j])
  {
    forall j | 0 <= j < |s| ensures KeyLe(t, s[j]) {
      assert s[j] in multiset(s);
      assert s[j] in pool;
      var k :| 0 <= k < |pool| && pool[k] == s[j];
    }
  }

  /** The task `FirstMin` picks is no later by key than any task that stays in the pool. */
  lemma {:induction false} FirstMinBeforeRest(pool: seq<Task>)
    requires |pool| > 0
    ensures var k := FirstMin(pool); var rest := pool[..k] + pool[k + 1..];
      forall j :: 0 <= j < |rest| ==> KeyLe(pool[k], rest[j])
  {
  }

  /** No selected task comes after a task left in the pool: each pick is no later than
      everything that remains when it is made. */
  lemma {:induction false} GreedySelectedBeforeLeft(pool: seq<Task>, remaining: int)
    ensures var g := Greedy(pool, remaining);
      forall i, j :: 0 <= i < |g.selected| && 0 <= j < |g.left| ==> KeyLe(g.selected[i], g.left[j])
    decreases |pool|
  {
    if remaining > 0 && |pool| > 0 {
      var k := FirstMin(pool);
      var best := pool[k];
      if best.duration <= remaining {
        var rest := pool[..k] + pool[k + 1..];
        var r := Greedy(rest, remaining - best.duration);
        GreedySelectedBeforeLeft(rest, remaining - best.duration);
        GreedyConserves(rest, remaining - best.duration);
        FirstMinBeforeRest(pool);
        KeyLeAllOfSubset(best, r.left, rest);
        GreedyTake(pool, remaining);
        var g := Greedy(pool, remaining);
        forall i, j | 0 <= i < |g.selected| && 0 <= j < |g.left| ensures KeyLe(g.selected[i], g.left[j]) {
          if i > 0 {
            assert g.selected[i] == r.selected[i - 1];
          }
        }
      }
    }
  }

  /** Each pick is the smallest of what remains, so the selection comes out sorted by key. */
  lemma {:induction false} GreedySorted(pool: seq<Task>, remaining: int)
    ensures SortedByKey(Greedy(pool, remaining).selected)
    decreases |pool|
  {
    if remaining > 0 && |pool| > 0 {
      var k := FirstMin(pool);
      var best := pool[k];
      if best.duration <= remaining {
        var rest := pool[..k] + pool[k + 1..];
        var r := Greedy(rest, remaining - best.duration);
        GreedySorted(rest, remaining - best.duration);
        GreedyConserves(rest, remaining - best.duration);
        FirstMinBeforeRest(pool);
        KeyLeAllOfSubset(best, r.selected, rest);
        SortedPrepend(best, r.selected);
      }
    }
  }

  /** Stop on the first miss: when the loop ends with time and tasks both left, the smallest
      remaining task by key is longer than the time left, whatever shorter tasks follow it. */
  lemma {:induction false} GreedyStopsOnMiss(pool: seq<Task>, remaining: int)
    ensures var g := Greedy(pool, remaining);
      g.left != [] && g.remaining > 0 ==> g.left[FirstMin(g.left)].duration > g.remaining
    decreases |pool|
  {
    if remaining > 0 && |pool| > 0 {
      var i := FirstMin(pool);
      if pool[i].duration <= remaining {
        GreedyStopsOnMiss(pool[..i] + pool[i + 1..], remaining - pool[i].duration);
      }
    }
  }

  /** When the budget covers every task and every duration is positive, the loop selects all
      of them: the selection is the whole pool, reordered by key. */
  lemma {:induction false} GreedyTakesAllWithinBudget(pool: seq<Task>, remaining: int)
    requires forall k :: 0 <= k < |pool| ==> pool[k].duration >= 1
    requires TotalDuration(pool) <= remaining
    ensures Greedy(pool, remaining).left == []
    decreases |pool|
  {
    if pool != [] {
      var i := FirstMin(pool);
      TotalDurationBoundsEach(pool, i);
      TotalDurationWithout(pool, i);
      var rest := pool[..i] + pool[i + 1..];
      DurationsWithout(pool, i, rest, 1);
      GreedyTakesAllWithinBudget(rest, remaining - pool[i].duration);
    }
  }

  /** Everything the lemmas above establish, for a run whose outcome is already known. */
  lemma {:induction false} GreedyOutcome(pool: seq<Task>, remaining: int, selected: seq<Task>, left: seq<Task>, rest: int)
    requires Greedy(pool, remaining) == Outcome(selected, left, rest)
    ensures TotalDuration(selected) == remaining - rest
    ensures multiset(selected) + multiset(left) == multiset(pool)
    ensures SortedByKey(selected)
    ensures remaining > 0 ==> rest >= 0
    ensures left != [] && rest > 0 ==> left[FirstMin(left)].duration > rest
    ensures pool == [] || remaining <= 0 ==> selected == [] && rest == remaining
  {
    GreedyBudget(pool, remaining);
    GreedyConserves(pool, remaining);
    GreedySorted(pool, remaining);
    GreedyStopsOnMiss(pool, remaining);
    if pool == [] {
      GreedyHalts(pool, remaining);
    }
  }

  /** A task with a higher priority and exactly the available time is taken first; the next
      one no longer fits. */
  lemma ExampleHighPriorityFirst()
    ensures Greedy([Task("A", 5, 1), Task("B", 10, 2)], 5)
         == Outcome([Task("A", 5, 1)], [Task("B", 10, 2)], 0)
  {
  }

  /** The first pick is too long, so nothing is scheduled, although the second task would fit. */
  lemma ExampleBlockedByFirstMiss()
    ensures Greedy([Task("A", 10, 1), Task("B", 3, 2)], 5)
         == Outcome([], [Task("A", 10, 1), Task("B", 3, 2)], 5)
  {
  }

  /** `TaskSchedulerAI`: holds the list it is given and the available time. */
  class TaskSchedulerAI {
    var tasks: seq<Task>
    const maxTime: int

    constructor (tasks: seq<Task>, maxTime: int)
      ensures this.tasks == tasks && this.maxTime == maxTime
    {
      this.tasks := tasks;
      this.maxTime := maxTime;
    }

    /** `schedule`: repeatedly takes the smallest task by `(priority, duration)` while it fits,
        removing it from `tasks`, and stops at the first one that does not fit. Returns the
        selection and the time it uses; `tasks` keeps what was not selected. */
    method Schedule() returns (scheduled: seq<Task>, totalUsed: int)
      modifies this
      ensures var g := Greedy(old(tasks), maxTime);
        scheduled == g.selected && tasks == g.left && totalUsed == maxTime - g.remaining
      ensures totalUsed == TotalDuration(scheduled)
      ensures multiset(scheduled) + multiset(tasks) == multiset(old(tasks))
      ensures SortedByKey(scheduled)
      ensures maxTime > 0 ==> totalUsed <= maxTime
      ensures tasks != [] && maxTime - totalUsed > 0 ==> tasks[FirstMin(tasks)].duration > maxTime - totalUsed
      ensures old(tasks) == [] || maxTime <= 0 ==> scheduled == [] && totalUsed == 0
    {
      scheduled := [];
      var remainingTime := maxTime;
      while remainingTime > 0 && |tasks| > 0
        invariant Greedy(old(tasks), maxTime)
          == var g := Greedy(tasks, remainingTime); Outcome(scheduled + g.selected, g.left, g.remaining)
        decreases |tasks|
      {
        var best := tasks[FirstMin(tasks)];
        if best.duration <= remainingTime {
          GreedyStep(tasks, remainingTime);
          ghost var r := Greedy(RemoveFirst(tasks, best), remainingTime - best.duration);
          assert scheduled + ([best] + r.selected) == (scheduled + [best]) + r.selected;
          scheduled := scheduled + [best];
          remainingTime := remainingTime - best.duration;
          tasks := RemoveFirst(tasks, best);
        } else {
          break;
        }
      }
      GreedyHalts(tasks, remainingTime);
      assert scheduled + [] == scheduled;
      totalUsed := maxTime - remainingTime;
      assert Greedy(old(tasks), maxTime) == Outcome(scheduled, tasks, remainingTime);
      GreedyOutcome(old(tasks), maxTime, scheduled, tasks, remainingTime);
    }
  }
}
