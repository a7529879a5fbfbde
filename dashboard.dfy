/** The dashboard's derived views over the task list (components/Dashboard.tsx):
    the tasks of the selected day, the scheduled timeline, the remaining
    list, the two counters and the five-day quick-pick strip. */
module Dashboard {
  import opened Types
  import opened Text
  import opened Lists
  import opened Gregorian

  // ---------------------------------------------------------------------------
  // Day tasks
  // ---------------------------------------------------------------------------

  function OnDate(date: string): Task -> bool
  {
    (t: Task) => t.date == date
  }

  /** `tasks.filter(t => t.date === currentDate)`; the calendar uses the same list. */
  function DayTasks(tasks: seq<Task>, date: string): (r: seq<Task>)
    ensures |r| <= |tasks|
    ensures forall i :: 0 <= i < |r| ==> r[i].date == date
  {
    Filter(tasks, OnDate(date))
  }

  /** The day list holds every task of that date as often as the whole list
      does, and no other task. */
  lemma DayTasksCounts(tasks: seq<Task>, date: string, t: Task)
    ensures multiset(DayTasks(tasks, date))[t] == if t.date == date then multiset(tasks)[t] else 0
  {
    FilterCounts(tasks, OnDate(date), t);
  }

  /** The day list keeps the order of the whole list. */
  lemma DayTasksOrder(a: seq<Task>, b: seq<Task>, date: string)
    ensures DayTasks(a + b, date) == DayTasks(a, date) + DayTasks(b, date)
  {
    FilterConcat(a, b, OnDate(date));
  }

  // ---------------------------------------------------------------------------
  // Timeline and remaining list
  // ---------------------------------------------------------------------------

  predicate IsActive(t: Task)
  {
    t.isScheduled && !t.completed
  }

  predicate IsOther(t: Task)
  {
    !t.isScheduled || t.completed
  }

  /** The sort key of the timeline: the task's time when it has a non-empty
      one, the empty string otherwise. */
  function TimeKey(t: Task): (r: string)
    ensures Truthy(t.time) ==> r == t.time.value
    ensures !Truthy(t.time) ==> r == ""
  {
    OrElse(t.time, "")
  }

  predicate SortedByTime(s: seq<Task>)
  {
    forall i, j :: 0 <= i < j < |s| ==> LexLe(TimeKey(s[i]), TimeKey(s[j]))
  }

  /** Places `t` before the first entry whose key is not smaller. */
  function Insert(t: Task, s: seq<Task>): (r: seq<Task>)
    requires SortedByTime(s)
    ensures SortedByTime(r)
    ensures multiset(r) == multiset(s) + multiset{t}
  {
    if s == [] then [t]
    else if LexLe(TimeKey(t), TimeKey(s[0])) then
      InsertFront(t, s);
      [t] + s
    else
      var rest := Insert(t, s[1..]);
      LexLeTotal(TimeKey(t), TimeKey(s[0]));
      assert s == [s[0]] + s[1..];
      InsertBehind(s[0], t, s[1..], rest);
      [s[0]] + rest
  }

  lemma InsertFront(t: Task, s: seq<Task>)
    requires SortedByTime(s) && s != [] && LexLe(TimeKey(t), TimeKey(s[0]))
    ensures SortedByTime([t] + s)
  {
    var r := [t] + s;
    forall i, j | 0 <= i < j < |r| ensures LexLe(TimeKey(r[i]), TimeKey(r[j])) {
      if i == 0 && j > 1 {
        LexLeTransitive(TimeKey(t), TimeKey(s[0]), TimeKey(s[j - 1]));
      }
    }
  }

  lemma InsertBehind(h: Task, t: Task, tail: seq<Task>, rest: seq<Task>)
    requires SortedByTime([h] + tail) && SortedByTime(rest)
    requires LexLe(TimeKey(h), TimeKey(t))
    requires multiset(rest) == multiset(tail) + multiset{t}
    ensures SortedByTime([h] + rest)
  {
    var r := [h] + rest;
    var ht := [h] + tail;
    forall j | 0 < j < |r| ensures LexLe(TimeKey(h), TimeKey(r[j])) {
      var e := r[j];
      assert e == rest[j - 1];
      assert e in multiset(rest);
      if e != t {
        assert e in multiset(tail);
        var k :| 0 <= k < |tail| && tail[k] == e;
        assert ht[0] == h && ht[k + 1] == e;
        assert LexLe(TimeKey(ht[0]), TimeKey(ht[k + 1]));
      }
    }
    forall i, j | 0 <= i < j < |r| ensures LexLe(TimeKey(r[i]), TimeKey(r[j])) {
      if i > 0 {
        assert r[i] == rest[i - 1] && r[j] == rest[j - 1];
      }
    }
  }

  /** `.sort((a, b) => (a.time || '').localeCompare(b.time || ''))`, a stable
      sort, as an insertion sort. */
  function SortByTime(s: seq<Task>): (r: seq<Task>)
    ensures SortedByTime(r)
    ensures multiset(r) == multiset(s)
  {
    if s == [] then []
    else
      assert s == [s[0]] + s[1..];
      Insert(s[0], SortByTime(s[1..]))
  }

  function ScheduledTasks(day: seq<Task>): seq<Task>
  {
    SortByTime(Filter(day, IsActive))
  }

  function OtherTasks(day: seq<Task>): seq<Task>
  {
    Filter(day, IsOther)
  }

  /** The timeline is ordered by time, a missing time counting as "". */
  lemma ScheduledSorted(day: seq<Task>)
    ensures SortedByTime(ScheduledTasks(day))
  {
  }

  /** The timeline holds exactly the active (scheduled, not completed) tasks of
      the day, each as often as the day holds it. */
  lemma ScheduledIsPermutation(day: seq<Task>, t: Task)
    ensures multiset(ScheduledTasks(day))[t] == if IsActive(t) then multiset(day)[t] else 0
  {
    FilterCounts(day, IsActive, t);
  }

  /** Timeline and remaining list split the day: together they hold every day
      task as often as the day does, and each task lands in exactly one of them. */
  lemma TimelinePartition(day: seq<Task>, t: Task)
    ensures multiset(ScheduledTasks(day)) + multiset(OtherTasks(day)) == multiset(day)
    ensures t in day ==> (t in ScheduledTasks(day) <==> t !in OtherTasks(day))
    ensures t in ScheduledTasks(day) || t in OtherTasks(day) ==> t in day
  {
    FilterPartition(day, IsActive, IsOther);
    FilterMember(day, IsActive, t);
    FilterMember(day, IsOther, t);
    assert t in ScheduledTasks(day) <==> t in Filter(day, IsActive) by {
      assert multiset(ScheduledTasks(day)) == multiset(Filter(day, IsActive));
      assert t in ScheduledTasks(day) <==> t in multiset(ScheduledTasks(day));
    }
  }

  // ---------------------------------------------------------------------------
  // Stability of the sort
  // ---------------------------------------------------------------------------

  function HasKey(k: string): Task -> bool
  {
    (t: Task) => TimeKey(t) == k
  }

  lemma {:induction false} InsertStable(t: Task, s: seq<Task>, k: string)
    requires SortedByTime(s)
    ensures Filter(Insert(t, s), HasKey(k)) == (if TimeKey(t) == k then [t] else []) + Filter(s, HasKey(k))
  {
    if s != [] && !LexLe(TimeKey(t), TimeKey(s[0])) {
      assert SortedByTime(s[1..]) by {
        forall i, j | 0 <= i < j < |s[1..]| ensures LexLe(TimeKey(s[1..][i]), TimeKey(s[1..][j])) {
          assert s[1..][i] == s[i + 1] && s[1..][j] == s[j + 1];
        }
      }
      InsertStable(t, s[1..], k);
      if TimeKey(t) == k {
        assert TimeKey(s[0]) != k by {
          if TimeKey(s[0]) == k {
            LexLeReflexive(k);
          }
        }
      }
    }
  }

  /** Tasks with equal times keep their relative order in the timeline. */
  lemma {:induction false} SortStable(s: seq<Task>, k: string)
    ensures Filter(SortByTime(s), HasKey(k)) == Filter(s, HasKey(k))
  {
    if s != [] {
      SortStable(s[1..], k);
      InsertStable(s[0], SortByTime(s[1..]), k);
    }
  }

  // ---------------------------------------------------------------------------
  // Counters
  // ---------------------------------------------------------------------------

  predicate IsCompleted(t: Task)
  {
    t.completed
  }

  predicate IsPending(t: Task)
  {
    !t.completed
  }

  /** How many tasks of the day are completed. */
  function CompletedCount(day: seq<Task>): nat
  {
    |Filter(day, IsCompleted)|
  }

  /** How many tasks of the day are still open. */
  function PendingCount(day: seq<Task>): nat
  {
    |Filter(day, IsPending)|
  }

  /** The two counters add up to the number of tasks of the day. */
  lemma CountsAddUp(day: seq<Task>)
    ensures CompletedCount(day) + PendingCount(day) == |day|
  {
    FilterPartition(day, IsCompleted, IsPending);
  }

  // ---------------------------------------------------------------------------
  // Quick-pick date strip
  // ---------------------------------------------------------------------------

  /** One button of the strip: the short weekday, the day of the month and the date string. */
  datatype DateChip = DateChip(weekday: string, day: int, full: string)

  function Chip(d: Date): DateChip
    requires Valid(d)
  {
    DateChip(WeekdayShortName(Weekday(d)), d.day, IsoDate(d))
  }

  /** The chip `offset` days away from `today`; offset 0 is today's own chip. */
  function ChipAt(today: Date, offset: int): (r: DateChip)
    requires Valid(today)
    ensures offset == 0 ==> r == Chip(today)
  {
    Chip(AddDays(today, offset))
  }

  /** `getDatesRange`: the days from two before to two after the real today,
      one chip per day, whatever date is selected (`ChipAtNext` and
      `ChipWeekdayNext` relate neighbouring chips). */
  method DatesRange(today: Date) returns (range: seq<DateChip>)
    requires Valid(today)
    ensures |range| == 5
    ensures forall k :: 0 <= k < 5 ==> range[k] == ChipAt(today, k - 2)
    ensures range[2] == Chip(today)
  {
    range := Strip((i: int) => ChipAt(today, i));
  }

  /** The loop of `getDatesRange`, for any way `chipAt` of making the chip
      `i` days away. */
  method Strip(chipAt: int -> DateChip) returns (range: seq<DateChip>)
    ensures |range| == 5
    ensures forall k :: 0 <= k < 5 ==> range[k] == chipAt(k - 2)
  {
    range := [];
    for i := -2 to 3
      invariant |range| == i + 2
      invariant forall k :: 0 <= k < |range| ==> range[k] == chipAt(k - 2)
    {
      range := range + [chipAt(i)];
    }
  }

  /** Neighbouring chips stand for consecutive days: the chip one day further
      is the chip of the next day. */
  lemma ChipAtNext(today: Date, i: int)
    requires Valid(today)
    ensures ChipAt(today, i + 1) == Chip(NextDay(AddDays(today, i)))
  {
    AddDaysNext(today, i);
  }

  /** The chip of the next day carries the following weekday name. */
  lemma ChipWeekdayNext(d: Date)
    requires Valid(d)
    ensures Chip(NextDay(d)).weekday == WeekdayShortName((Weekday(d) + 1) % 7)
  {
    WeekdayAfter(d, NextDay(d), 1);
  }

  /** The number on a chip is the day its date string spells. */
  lemma ChipShowsItsDate(d: Date)
    requires Valid(d)
    ensures var full := Chip(d).full;
            forall i :: |full| - 2 <= i < |full| ==> IsDigit(full[i])
    ensures var full := Chip(d).full;
            DecimalValue(full[|full| - 2..]) == Chip(d).day
  {
    IsoDateFields(d);
  }

  /** Chips for different offsets carry different date strings. */
  lemma ChipsDistinct(today: Date, i: int, j: int)
    requires Valid(today) && i != j
    ensures ChipAt(today, i).full != ChipAt(today, j).full
  {
    if ChipAt(today, i).full == ChipAt(today, j).full {
      IsoDateInjective(AddDays(today, i), AddDays(today, j));
    }
  }

  /** The strip marks the chip whose date string is the selected date. */
  predicate ChipIsActive(chip: DateChip, currentDate: string)
  {
    chip.full == currentDate
  }

  /** At most one chip of the strip is marked. */
  lemma StripHighlight(today: Date, i: int, j: int, currentDate: string)
    requires Valid(today)
    ensures ChipIsActive(ChipAt(today, i), currentDate) && ChipIsActive(ChipAt(today, j), currentDate) ==> i == j
  {
    if i != j {
      ChipsDistinct(today, i, j);
    }
  }
}
