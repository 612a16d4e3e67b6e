# Smart Task Scheduler — verified model

The application is a single Streamlit page. A user sets an available time in minutes and
enters tasks, each with a name, a duration in minutes and a priority (1 = High, 2 = Medium,
3 = Low). The tasks are kept in the session. The "Schedule Tasks" button then runs a greedy
selection. The selection repeatedly takes the task that is smallest by the pair
`(priority, duration)`. It takes that task while it fits in the time left, and it stops at
the first task that does not fit.

This project models that logic in Dafny, in three modules:

- `Tasks` (`tasks.dfy`) holds the `Task` record and the lexicographic key order on
  `(priority, duration)`. It also holds `TotalDuration`, the sum of the durations, and
  `Reversed`, the reversed list that the result display uses.
- `Scheduler` (`scheduler.dfy`) models the class `TaskSchedulerAI` and its `schedule`
  method. `FirstMin` is Python's `min` with a key: it returns the first position with a
  smallest key. `RemoveFirst` is `list.remove`. The function `Greedy` states the loop as a
  function. `TaskSchedulerAI.Schedule` is the loop itself, which updates the `tasks` field in
  place, and it is proved equal to `Greedy`. The lemmas about `Greedy` prove what the loop
  guarantees.
- `Store` (`store.dfy`) models the session's task list as a `TaskStore` object. The object
  holds the list and the current value of the available-time input. It supports the
  add-task form, "Clear All Tasks", the two remaining-time readouts and the "Schedule Tasks"
  button, which runs the scheduler on a copy of the list.

Three behaviours of the code are worth noting; the model follows the code:

- A blank task name is ignored silently. No validation error is raised (`IgnoredBlankName`).
- A task that would exceed the available time produces only a warning (`RejectedOverBudget`).
- The store has no per-task remove operation. It only has "Clear All Tasks".

Durations of at least 1, priorities in {1, 2, 3} and an available time of at least 1 are
guaranteed by the input widgets (app.py:135, 147-148), not by the `Task` dataclass. For that
reason `Task` fields are unrestricted integers. The store's methods require the widget
domain. The scheduler lemmas state their bounds with explicit hypotheses on the durations.

## Model

| member | source | states |
|---|---|---|
| `Tasks.KeyLess` | app.py:121 | the tuple comparison `(priority, duration) < (priority, duration)`; a task that comes strictly earlier never has a larger priority number and is a different task |
| `Tasks.KeyLe` | app.py:121 | `a` comes no later than `b` exactly when its key is strictly smaller or the same, so the key order is total |
| `Tasks.TotalDuration` | app.py:151 | Python's `sum` of the durations (also at app.py:138 and 159); with no negative duration the sum is not negative |
| `Scheduler.Greedy` | app.py:119-128 | the loop as a function of the task list and the time left; every input task ends up either selected or left, so the two lengths add up to the input length |
| `Scheduler.ScanMin` | app.py:121 | after scanning the first n tasks, the candidate has a key no larger than any of them and strictly smaller than every earlier one (Python's `min` keeps the first minimum) |
| `Scheduler.FirstMin` | app.py:121 | the chosen position holds a smallest `(priority, duration)` key of the whole list, and every earlier task has a strictly larger key |
| `Scheduler.RemoveFirst` | app.py:126 | `list.remove` of a present element shortens the list by exactly one |
| `Scheduler.RemoveFirstAt` | app.py:126 | when position i holds the first occurrence of its value, `list.remove` of that value deletes exactly position i |
| `Scheduler.RemoveFirstMin` | app.py:121-126 | removing the task `min` returned deletes exactly the position `FirstMin` names, because no equal task can come earlier |
| `Scheduler.GreedyStep` | app.py:121-126 | the same turn, with the pick removed by `list.remove` as the loop does it |
| `Scheduler.GreedyConserves` | app.py:124-126 | the selected tasks plus the tasks left in the pool are exactly the input multiset: nothing is duplicated or invented |
| `Scheduler.GreedyBudget` | app.py:117-130 | the time used equals the sum of the selected durations; with a positive budget the remaining time never goes below 0, so the time used is at most the budget; with a budget of 0 or less nothing is selected; with no negative durations the time used is not negative |
| `Scheduler.GreedySorted` | app.py:121-126 | the selection is non-decreasing in `(priority, duration)` |
| `Scheduler.GreedySelectedBeforeLeft` | app.py:121-126 | no selected task has a larger key than any task left unselected |
| `Scheduler.GreedyStopsOnMiss` | app.py:119-128 | when tasks and time are both left at the end, the smallest remaining task by key is longer than the time left, whatever shorter tasks follow it |
| `Scheduler.GreedyTakesAllWithinBudget` | app.py:119-130 | when every duration is positive and their sum fits in the budget, every task is selected and none is left |
| `Scheduler.ExampleHighPriorityFirst` | app.py:119-130 | with tasks A(5 min, priority 1) and B(10 min, priority 2) and 5 minutes, A alone is selected and 5 minutes are used |
| `Scheduler.ExampleBlockedByFirstMiss` | app.py:119-130 | with tasks A(10 min, priority 1) and B(3 min, priority 2) and 5 minutes, nothing is selected although B would fit |
| `Scheduler.TaskSchedulerAI.constructor` | app.py:105-107 | the scheduler holds the given list and available time |
| `Scheduler.TaskSchedulerAI.Schedule` | app.py:115-130 | the loop returns exactly what `Greedy` selects, leaves exactly the unselected tasks in `tasks`, and returns the time used; that time is the sum of the selection and at most a positive budget; selection plus leftover is the original multiset; the selection is sorted by key; it stopped on the first miss; an empty task list or a budget of 0 or less gives an empty selection and 0 minutes used |
| `Tasks.TotalDurationAppend` | app.py:151-153 | the total duration of a list with a task appended is the old total plus that task's duration, which is what the add guard compares with the available time |
| `Tasks.Reversed` | app.py:167 | the display order is the selection reversed: same length, element i is element n-1-i, same multiset |
| `Tasks.TotalDurationReversed` | app.py:167-171 | reversing for display keeps the total duration |
| `Store.IsSpace` | app.py:150 | the characters `str.strip()` removes; no ASCII letter or digit is among them, so a name holding one is never blank |
| `Store.TrimStart` | app.py:150 | drops exactly the leading whitespace: what is left is a suffix that does not start with whitespace, and everything dropped is whitespace |
| `Store.TrimEnd` | app.py:150 | drops exactly the trailing whitespace: what is left is a prefix that does not end with whitespace, and everything dropped is whitespace |
| `Store.Strip` | app.py:150 | `strip()` gives an empty string exactly when every character of the name is whitespace, and otherwise a string with no whitespace at either end |
| `Store.TaskStore.constructor` | app.py:131-132 | a new session starts with an empty list, which fits any available time |
| `Store.TaskStore.WithinBudget` | app.py:152 | the add guard's comparison: the stored total is within the available time; then, with no negative duration, no single task is longer than the available time |
| `Store.TaskStore.SetAvailableTime` | app.py:135 | changing the available time leaves the tasks alone and keeps the widget domain; tasks that fitted still fit when the available time is not lowered |
| `Store.TaskStore.RemainingShown` | app.py:138-139 | the displayed remaining time is never negative; it is the available time minus the used time while the tasks fit, and 0 otherwise |
| `Store.TaskStore.RemainingInForm` | app.py:159 | the unclamped remaining time is negative exactly when the tasks no longer fit, and equals the clamped value exactly when they do |
| `Store.TaskStore.Add` | app.py:145-157 | a task is appended at the end exactly when its name is not blank after `strip()` and the current total plus its duration is within the available time; otherwise the list is unchanged; a blank name is ignored silently and an over-budget task is rejected; an accepted task leaves the list within budget, and a list within budget stays within budget |
| `Store.TaskStore.Clear` | app.py:175-177 | the list is empty afterwards, whatever it held, and the available time is unchanged |
| `Store.TaskStore.RunSchedule` | app.py:162-173 | an empty list shows "no tasks"; otherwise it shows the greedy selection of a copy of the list, reversed, with the time used, which is their total and lies between 0 and the available time; the shown tasks are drawn from the store, in non-increasing key order; while the tasks fit in the available time all of them are shown; the store itself is not changed |

## Left out

- Streamlit calls are not modelled: page configuration, CSS, widgets, forms, `st.rerun` and the messages (app.py:1-96 and the UI parts of 134-177). The widgets appear only as the value domains that the store's `requires` clauses state.
- `TaskSchedulerAI.evaluate` (app.py:109-112) is not modelled. It uses floating-point division, and `schedule` never calls it.
- The progress ratio and its percentage (app.py:169-171) are not modelled, because they are floating-point display.
- The text of the output lines and their 1-based numbering (app.py:168) are not modelled. Only the reversed order of the listed tasks is modelled.
- `st.session_state` as ambient storage (app.py:131-132) is modelled as an explicit `TaskStore` object. The rerun lifecycle is not modelled.
- Sharing of the session list through aliasing is not modelled. `RunSchedule` hands the scheduler a value copy, as the source's `.copy()` does (app.py:164).
- Python's `list.remove` raises an error when the value is absent. `RemoveFirst` requires the value to be present instead, because the scheduler only removes a task that `min` has just returned from the same list.
- Scheduler.TaskSchedulerAI.Schedule: does not state the non-negativity of the time used. That property holds only when no duration is negative. `Scheduler.GreedyBudget` states it with that hypothesis.
