/** The task list kept in the session and the form and buttons around it (app.py:131-177),
    as an explicit store object holding the list and the available time. */
module Store {
  import opened Tasks
  import opened Scheduler

  /** The characters Python's `str.isspace` accepts, which `str.strip()` removes. */
  predicate IsSpace(c: char): (r: bool)
    ensures ('a' <= c <= 'z' || 'A' <= c <= 'Z' || '0' <= c <= '9') ==> !r
  {
    c in {' ', '\t', '\n', '\r', '\U{000B}', '\U{000C}', '\U{001C}', '\U{001D}', '\U{001E}',
          '\U{001F}', '\U{0085}', '\U{00A0}', '\U{1680}', '\U{2028}', '\U{2029}', '\U{202F}',
          '\U{205F}', '\U{3000}'}
    || ('\U{2000}' <= c <= '\U{200A}')
  }

  /** Drops leading whitespace. */
  function TrimStart(s: string): (r: string)
    ensures |r| <= |s| && r == s[|s| - |r|..]
    ensures forall i :: 0 <= i < |s| - |r| ==> IsSpace(s[i])
    ensures r != [] ==> !IsSpace(r[0])
  {
    if s != [] && IsSpace(s[0]) then TrimStart(s[1..]) else s
  }

  /** Drops trailing whitespace. */
  function TrimEnd(s: string): (r: string)
    ensures |r| <= |s| && r == s[..|r|]
    ensures forall i :: |r| <= i < |s| ==> IsSpace(s[i])
    ensures r != [] ==> !IsSpace(r[|r| - 1])
  {
    if s != [] && IsSpace(s[|s| - 1]) then TrimEnd(s[..|s| - 1]) else s
  }

  /** `str.strip()`: what is left is empty exactly when the name is all whitespace. */
  function Strip(s: string): (r: string)
    ensures r == [] <==> forall i :: 0 <= i < |s| ==> IsSpace(s[i])
    ensures r != [] ==> !IsSpace(r[0]) && !IsSpace(r[|r| - 1])
  {
    var t := TrimStart(s);
    assert forall i :: |s| - |t| <= i < |s| ==> s[i] == t[i - (|s| - |t|)];
    TrimEnd(t)
  }

  /** What a submission of the task form leads to. */
  datatype AddOutcome =
    | Added               // appended, with a success message
    | IgnoredBlankName    // the name is empty after `strip()`: nothing happens
    | RejectedOverBudget  // the total would exceed the available time: a warning

  /** What the "Schedule Tasks" button shows. */
  datatype ScheduleView =
    | NoTasks                                      // the "No tasks to schedule." warning
    | Shown(order: seq<Task>, totalUsed: int)      // listed tasks, in display order, and the time used

  /** The session's task list together with the current value of the available-time input. */
  class TaskStore {
    var tasks: seq<Task>
    var availableTime: int

    /** Everything the widgets can produce: an available time of at least 1, and tasks with a
        duration of at least 1 and a priority in {1, 2, 3}. */
    ghost predicate Valid()
      reads this
    {
      availableTime >= 1 && forall i :: 0 <= i < |tasks| ==> FromForm(tasks[i])
    }

    /** The stored tasks fit in the available time. Every accepted addition establishes this;
        lowering the available time afterwards can break it. While they fit, no single task is
        longer than the available time. */
    predicate WithinBudget(): (r: bool)
      reads this
      ensures r && (forall i :: 0 <= i < |tasks| ==> tasks[i].duration >= 0) ==>
        forall i :: 0 <= i < |tasks| ==> tasks[i].duration <= availableTime
    {
      TotalDurationBoundsAll(tasks);
      TotalDuration(tasks) <= availableTime
    }

    /** A new session: `st.session_state.tasks = []`. */
    constructor (availableTime: int)
      requires availableTime >= 1
      ensures Valid() && WithinBudget()
      ensures tasks == [] && this.availableTime == availableTime
    {
      tasks := [];
      this.availableTime := availableTime;
    }

    /** The user changes the "Available Time" input; the stored tasks are not re-checked. */
    method SetAvailableTime(t: int)
      requires Valid() && t >= 1
      modifies this
      ensures Valid()
      ensures tasks == old(tasks) && availableTime == t
      ensures old(WithinBudget()) && t >= old(availableTime) ==> WithinBudget()
    {
      availableTime := t;
    }

    /** Remaining time shown above the form: `max(0, available_time - current_used)`. It is
        never negative; it is the true remaining time while the tasks fit and 0 once the
        available time was lowered below the tasks already stored. */
    function RemainingShown(): (r: int)
      reads this
      ensures r >= 0
      ensures WithinBudget() ==> r == availableTime - TotalDuration(tasks)
      ensures !WithinBudget() ==> r == 0
    {
      if availableTime - TotalDuration(tasks) > 0 then availableTime - TotalDuration(tasks) else 0
    }

    /** Remaining time written inside the form, without the clamp: negative exactly when the
        tasks no longer fit, and otherwise the same as the clamped value. */
    function RemainingInForm(): (r: int)
      reads this
      ensures r < 0 <==> !WithinBudget()
      ensures r == RemainingShown() <==> WithinBudget()
    {
      availableTime - TotalDuration(tasks)
    }

    /** A submission of the task form. A task is appended only when its name is not blank and
        the current total plus its duration fits in the available time; otherwise the list is
        left as it was. */
    method Add(name: string, duration: int, priority: int) returns (outcome: AddOutcome)
      requires Valid()
      requires duration >= 1 && 1 <= priority <= 3
      modifies this
      ensures Valid() && availableTime == old(availableTime)
      ensures outcome == IgnoredBlankName <==> Strip(name) == []
      ensures outcome == Added <==> Strip(name) != [] && TotalDuration(old(tasks)) + duration <= availableTime
      ensures outcome == Added ==> tasks == old(tasks) + [Task(name, duration, priority)]
      ensures outcome != Added ==> tasks == old(tasks)
      ensures outcome == Added ==> WithinBudget()
      ensures old(WithinBudget()) ==> WithinBudget()
    {
      if Strip(name) != [] {
        var totalDuration := TotalDuration(tasks) + duration;
        if totalDuration <= availableTime {
          TotalDurationAppend(tasks, [Task(name, duration, priority)]);
          tasks := tasks + [Task(name, duration, priority)];
          outcome := Added;
        } else {
          outcome := RejectedOverBudget;
        }
      } else {
        outcome := IgnoredBlankName;
      }
    }

    /** "Clear All Tasks": the list is emptied whatever it held. */
    method Clear()
      requires Valid()
      modifies this
      ensures Valid() && WithinBudget()
      ensures tasks == [] && availableTime == old(availableTime)
    {
      tasks := [];
    }

    /** "Schedule Tasks": runs the scheduler on a copy of the list (the store is not changed)
        and shows the selection in reverse order of selection. */
    method RunSchedule() returns (view: ScheduleView)
      requires Valid()
      ensures tasks == [] <==> view == NoTasks
      ensures view.Shown? ==> var g := Greedy(tasks, availableTime);
        view.order == Reversed(g.selected) && view.totalUsed == availableTime - g.remaining
      ensures view.Shown? ==> view.totalUsed == TotalDuration(view.order)
      ensures view.Shown? ==> 0 <= view.totalUsed <= availableTime
      ensures view.Shown? ==> multiset(view.order) <= multiset(tasks)
      ensures view.Shown? ==> forall i, j :: 0 <= i < j < |view.order| ==> KeyLe(view.order[j], view.order[i])
      ensures view.Shown? && WithinBudget() ==> multiset(view.order) == multiset(tasks)
    {
      var snapshot := tasks;
      if snapshot == [] {
        view := NoTasks;
      } else {
        assert forall k :: 0 <= k < |snapshot| ==> snapshot[k].duration >= 1;
        ghost var within := TotalDuration(snapshot) <= availableTime;
        var scheduler := new TaskSchedulerAI(snapshot, availableTime);
        var scheduled, totalUsed := scheduler.Schedule();
        ghost var left := scheduler.tasks;
        view := Shown(Reversed(scheduled), totalUsed);
        assert view.totalUsed == TotalDuration(view.order) by {
          TotalDurationReversed(scheduled);
        }
        assert 0 <= totalUsed <= availableTime by {
          GreedyBudget(snapshot, availableTime);
        }
        assert multiset(scheduled) + multiset(left) == multiset(snapshot);
        assert forall i, j :: 0 <= i < j < |view.order| ==> KeyLe(view.order[j], view.order[i]) by {
          forall i, j | 0 <= i < j < |view.order| ensures KeyLe(view.order[j], view.order[i]) {
            assert view.order[j] == scheduled[|scheduled| - 1 - j];
            assert view.order[i] == scheduled[|scheduled| - 1 - i];
          }
        }
        if within {
          GreedyTakesAllWithinBudget(snapshot, scheduler.maxTime);
          assert left == [];
        }
      }
    }
  }
}
