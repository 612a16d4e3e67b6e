/** Task records and the ordering the scheduler uses on them (app.py, the `Task` dataclass). */
module Tasks {

  /** A task as the dataclass holds it. The dataclass itself does not restrict the fields:
      the form widgets are what keep durations at least 1 and priorities in {1, 2, 3}. */
  datatype Task = Task(name: string, duration: int, priority: int)

  /** The values the input form can produce for a task (duration widget with a minimum of 1,
      priority select box over 1 = High, 2 = Medium, 3 = Low). */
  predicate FromForm(t: Task) {
    t.duration >= 1 && 1 <= t.priority <= 3
  }

  /** Strict lexicographic order on the key `(priority, duration)`, as Python compares tuples. */
  predicate KeyLess(a: Task, b: Task): (r: bool)
    ensures r ==> a.priority <= b.priority && a != b
  {
    a.priority < b.priority || (a.priority == b.priority && a.duration < b.duration)
  }

  /** `a` comes no later than `b` in the key order: its key is smaller or the same. The order
      is total, so of any two tasks one comes no later than the other. */
  predicate KeyLe(a: Task, b: Task): (r: bool)
    ensures r <==> KeyLess(a, b) || (a.priority == b.priority && a.duration == b.duration)
  {
    !KeyLess(b, a)
  }

  /** Tasks whose keys never decrease from left to right. */
  predicate SortedByKey(s: seq<Task>) {
    forall i, j :: 0 <= i < j < |s| ==> KeyLe(s[i], s[j])
  }

  lemma SortedPrepend(t: Task, s: seq<Task>)
    requires SortedByKey(s)
    requires forall j :: 0 <= j < |s| ==> KeyLe(t, s[j])
    ensures SortedByKey([t] + s)
  {
  }

  /** The sum of the durations, taken left to right as Python's `sum` does. With no negative
      duration the sum is not negative. */
  function TotalDuration(s: seq<Task>): (t: int)
    ensures (forall k :: 0 <= k < |s| ==> s[k].duration >= 0) ==> t >= 0
  {
    if s == [] then 0 else s[0].duration + TotalDuration(s[1..])
  }

  lemma {:induction false} TotalDurationAppend(a: seq<Task>, b: seq<Task>)
    ensures TotalDuration(a + b) == TotalDuration(a) + TotalDuration(b)
  {
    if a != [] {
      assert (a + b)[0] == a[0] && (a + b)[1..] == a[1..] + b;
      TotalDurationAppend(a[1..], b);
    } else {
      assert a + b == b;
    }
  }

  /** With no negative durations, the total is at least every single duration. */
  lemma {:induction false} TotalDurationBoundsEach(s: seq<Task>, i: nat)
    requires i < |s|
    requires forall k :: 0 <= k < |s| ==> s[k].duration >= 0
    ensures 0 <= s[i].duration <= TotalDuration(s)
  {
    if i > 0 {
      TotalDurationBoundsEach(s[1..], i - 1);
    }
  }

  /** The same bound for every position at once. */
  lemma {:induction false} TotalDurationBoundsAll(s: seq<Task>)
    ensures (forall k :: 0 <= k < |s| ==> s[k].duration >= 0) ==>
      forall i :: 0 <= i < |s| ==> s[i].duration <= TotalDuration(s)
  {
    if forall k :: 0 <= k < |s| ==> s[k].duration >= 0 {
      forall i | 0 <= i < |s| ensures s[i].duration <= TotalDuration(s) {
        TotalDurationBoundsEach(s, i);
      }
    }
  }

  /** Removing one element keeps a lower bound on all the durations. */
  lemma {:induction false} DurationsWithout(s: seq<Task>, i: nat, t: seq<Task>, lo: int)
    requires i < |s| && t == s[..i] + s[i + 1..]
    requires forall k :: 0 <= k < |s| ==> s[k].duration >= lo
    ensures forall k :: 0 <= k < |t| ==> t[k].duration >= lo
  {
    forall k | 0 <= k < |t| ensures t[k].duration >= lo {
      if k < i { assert t[k] == s[k]; } else { assert t[k] == s[k + 1]; }
    }
  }

  /** Removing one element takes exactly its duration off the total. */
  lemma {:induction false} TotalDurationWithout(s: seq<Task>, i: nat)
    requires i < |s|
    ensures TotalDuration(s[..i] + s[i + 1..]) == TotalDuration(s) - s[i].duration
  {
    var tail := [s[i]] + s[i + 1..];
    assert s == s[..i] + tail;
    assert tail[1..] == s[i + 1..];
    assert TotalDuration(tail) == s[i].duration + TotalDuration(s[i + 1..]);
    TotalDurationAppend(s[..i], tail);
    TotalDurationAppend(s[..i], s[i + 1..]);
  }

  lemma {:induction false} TotalDurationReversed(s: seq<Task>)
    ensures TotalDuration(Reversed(s)) == TotalDuration(s)
  {
    if s != [] {
      TotalDurationReversed(s[1..]);
      TotalDurationAppend(Reversed(s[1..]), [s[0]]);
    }
  }

  /** The list in reverse order, as Python's slice with step -1 gives it. */
  function Reversed(s: seq<Task>): (r: seq<Task>)
    ensures |r| == |s|
    ensures forall i :: 0 <= i < |s| ==> r[i] == s[|s| - 1 - i]
    ensures multiset(r) == multiset(s)
  {
    if s == [] then []
    else
      assert s == [s[0]] + s[1..];
      Reversed(s[1..]) + [s[0]]
  }
}
