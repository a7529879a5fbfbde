/** The statistics on the profile screen (components/Profile.tsx). */
module Profile {
  import opened Types
  import opened Lists
  import Dashboard

  /** How many tasks of the whole list are completed. */
  function CompletedCount(tasks: seq<Task>): (r: nat)
    ensures r <= |tasks|
  {
    Dashboard.CompletedCount(tasks)
  }

  /** How many tasks the list holds: the completed ones and the open ones. */
  function TotalCount(tasks: seq<Task>): (r: nat)
    ensures r == CompletedCount(tasks) + Dashboard.PendingCount(tasks)
  {
    Dashboard.CountsAddUp(tasks);
    |tasks|
  }

  /** `Math.round(completed / total * 100)` in exact integers, 0 for an empty
      list: half-way values round up. */
  function Rate(completed: nat, total: nat): int
  {
    if total > 0 then (200 * completed + total) / (2 * total) else 0
  }

  function CompletionRate(tasks: seq<Task>): int
  {
    Rate(CompletedCount(tasks), TotalCount(tasks))
  }

  /** The rate is the whole percentage nearest to completed / total, a tie
      going to the larger one: rate - 1/2 <= 100 * completed / total < rate + 1/2. */
  lemma RateIsNearestPercent(completed: nat, total: nat)
    requires total > 0
    ensures var r := Rate(completed, total);
            total * (2 * r - 1) <= 200 * completed < total * (2 * r + 1)
  {
    var a, b := 200 * completed + total, 2 * total;
    var r := a / b;
    assert b * r + a % b == a;
    assert 0 <= a % b < b;
    assert total * (2 * r - 1) == b * r - total;
    assert total * (2 * r + 1) == b * r + total;
  }

  /** With at most as many completed tasks as tasks, the rate is a percentage. */
  lemma RateBounds(completed: nat, total: nat)
    requires completed <= total
    ensures 0 <= Rate(completed, total) <= 100
  {
    if total > 0 {
      DivBelow(200 * completed + total, 2 * total, 100);
    }
  }

  lemma DivBelow(a: int, b: int, q: int)
    requires b > 0 && 0 <= a < b * (q + 1)
    ensures 0 <= a / b <= q
  {
    var r := a / b;
    assert b * r + a % b == a;
    if r > q {
      MulMonotone(b, q + 1, r);
      assert false;
    }
  }

  lemma MulMonotone(k: nat, x: int, y: int)
    requires x <= y
    ensures k * x <= k * y
  {
    assert k * y - k * x == k * (y - x);
  }

  /** `completionRate` lies in [0, 100] for every list, and is 0 for an empty one. */
  lemma CompletionRateBounds(tasks: seq<Task>)
    ensures 0 <= CompletionRate(tasks) <= 100
    ensures tasks == [] ==> CompletionRate(tasks) == 0
  {
    RateBounds(CompletedCount(tasks), TotalCount(tasks));
  }

  /** Every task completed gives 100; none completed gives 0. */
  lemma CompletionRateExtremes(tasks: seq<Task>)
    ensures (forall i :: 0 <= i < |tasks| ==> tasks[i].completed) ==> CompletionRate(tasks) == 100 || tasks == []
    ensures (forall i :: 0 <= i < |tasks| ==> !tasks[i].completed) ==> CompletionRate(tasks) == 0
  {
    var t := |tasks|;
    if forall i :: 0 <= i < |tasks| ==> tasks[i].completed {
      FilterAll(tasks, Dashboard.IsCompleted);
      if t > 0 {
        assert CompletionRate(tasks) == (201 * t) / (2 * t);
        DivExact(201 * t, 2 * t, 100);
      }
    }
    if forall i :: 0 <= i < |tasks| ==> !tasks[i].completed {
      FilterNone(tasks, Dashboard.IsCompleted);
      if t > 0 {
        DivExact(t, 2 * t, 0);
      }
    }
  }

  lemma DivExact(a: int, b: int, q: int)
    requires b > 0 && b * q <= a < b * q + b
    ensures a / b == q
  {
    var r := a / b;
    assert b * r + a % b == a;
    if r < q {
      MulMonotone(b, r + 1, q);
      assert false;
    } else if r > q {
      MulMonotone(b, q + 1, r);
      assert false;
    }
  }
}
