/** The task list and the pure list updates that the application's state
    updaters apply to it (App.tsx). */
module TaskStore {
  import opened Types
  import opened Lists

  /** The two example tasks a first run starts with, both dated `today`. */
  function InitialTasks(today: string): (r: seq<Task>)
    ensures |r| == 2 && r[0].id == "1" && r[1].id == "2"
    ensures r[0].isScheduled && r[0].time == Some("09:00")
    ensures !r[1].isScheduled && r[1].time == None
    ensures forall i :: 0 <= i < |r| ==> r[i].date == today && !r[i].completed && r[i].title != ""
  {
    [ Task("1", "Review Q3 Report", Some("Quarterly business review for the sales team."),
           Some("09:00"), today, MEDIUM, WORK, false, true),
      Task("2", "Buy Groceries", Some("Milk, Eggs, Avocado, and Bread."),
           None, today, LOW, PERSONAL, false, false) ]
  }

  /** The list the application starts with: the saved list when one is stored,
      the example tasks otherwise. */
  function Load(saved: Option<seq<Task>>, today: string): (r: seq<Task>)
    ensures saved.Some? ==> r == saved.value
    ensures saved.None? ==> r == InitialTasks(today)
  {
    match saved
    case Some(ts) => ts
    case None => InitialTasks(today)
  }

  /** No two entries share an identifier. */
  predicate UniqueIds(tasks: seq<Task>)
  {
    forall i, j :: 0 <= i < |tasks| && 0 <= j < |tasks| && tasks[i].id == tasks[j].id ==> i == j
  }

  predicate HasId(tasks: seq<Task>, id: string)
  {
    exists i :: 0 <= i < |tasks| && tasks[i].id == id
  }

  /** `[newTask, ...prev]`: the new task in front of the old list. */
  function AddTask(tasks: seq<Task>, t: Task): (r: seq<Task>)
    ensures |r| == |tasks| + 1 && r[0] == t
    ensures forall i :: 0 <= i < |tasks| ==> r[i + 1] == tasks[i]
  {
    [t] + tasks
  }

  /** Every entry carrying the updated task's identifier is replaced by it. */
  function UpdateTask(tasks: seq<Task>, updated: Task): (r: seq<Task>)
    ensures |r| == |tasks|
    ensures forall i :: 0 <= i < |r| ==> r[i] == if tasks[i].id == updated.id then updated else tasks[i]
  {
    if tasks == [] then []
    else [if tasks[0].id == updated.id then updated else tasks[0]] + UpdateTask(tasks[1..], updated)
  }

  /** The task `t` with its `completed` flag flipped and nothing else changed. */
  function Flipped(t: Task): Task
  {
    t.(completed := !t.completed)
  }

  /** Every entry carrying `id` has its completion flipped. */
  function ToggleTask(tasks: seq<Task>, id: string): (r: seq<Task>)
    ensures |r| == |tasks|
    ensures forall i :: 0 <= i < |r| ==> r[i] == if tasks[i].id == id then Flipped(tasks[i]) else tasks[i]
  {
    if tasks == [] then []
    else [if tasks[0].id == id then Flipped(tasks[0]) else tasks[0]] + ToggleTask(tasks[1..], id)
  }

  function KeepsId(id: string): Task -> bool
  {
    (t: Task) => t.id != id
  }

  /** The entries not carrying `id`, in their order. */
  function DeleteTask(tasks: seq<Task>, id: string): (r: seq<Task>)
    ensures forall t :: t in r <==> t in tasks && t.id != id
    ensures !HasId(r, id)
  {
    var r := Filter(tasks, KeepsId(id));
    forall t ensures t in r <==> t in tasks && t.id != id {
      FilterMember(tasks, KeepsId(id), t);
    }
    r
  }

  /** `tasks.find(t => t.id === selectedTaskId)`: the first task carrying the
      selected identifier, if there is a selection and such a task. */
  function FindTask(tasks: seq<Task>, selected: Option<string>): (r: Option<Task>)
    ensures r.Some? <==> selected.Some? && HasId(tasks, selected.value)
    ensures r.Some? ==> r.value in tasks && r.value.id == selected.value
  {
    if selected.None? || tasks == [] then None
    else if tasks[0].id == selected.value then Some(tasks[0])
    else
      var r := FindTask(tasks[1..], selected);
      assert HasId(tasks, selected.value) ==> HasId(tasks[1..], selected.value) by {
        if HasId(tasks, selected.value) {
          var i :| 0 <= i < |tasks| && tasks[i].id == selected.value;
          assert tasks[1..][i - 1].id == selected.value;
        }
      }
      assert HasId(tasks[1..], selected.value) ==> HasId(tasks, selected.value) by {
        if HasId(tasks[1..], selected.value) {
          var i :| 0 <= i < |tasks[1..]| && tasks[1..][i].id == selected.value;
          assert tasks[i + 1].id == selected.value;
        }
      }
      r
  }

  /** Entry `i` is the first one carrying `id`. */
  predicate FirstWithId(tasks: seq<Task>, id: string, i: int)
  {
    0 <= i < |tasks| && tasks[i].id == id && forall j :: 0 <= j < i ==> tasks[j].id != id
  }

  /** `find` returns the first entry carrying the identifier, not just any of them. */
  lemma {:induction false} FindTaskFirst(tasks: seq<Task>, id: string, i: int)
    requires FirstWithId(tasks, id, i)
    ensures FindTask(tasks, Some(id)) == Some(tasks[i])
  {
    if tasks[0].id != id {
      assert FirstWithId(tasks[1..], id, i - 1) by {
        forall j | 0 <= j < i - 1 ensures tasks[1..][j].id != id {
          assert tasks[1..][j] == tasks[j + 1];
        }
      }
      FindTaskFirst(tasks[1..], id, i - 1);
    }
  }

  // ---------------------------------------------------------------------------
  // Properties of the updates
  // ---------------------------------------------------------------------------

  /** Prepending keeps identifiers unique exactly when the new identifier is not taken. */
  lemma AddTaskUnique(tasks: seq<Task>, t: Task)
    requires UniqueIds(tasks)
    ensures UniqueIds(AddTask(tasks, t)) <==> !HasId(tasks, t.id)
  {
    var r := AddTask(tasks, t);
    if HasId(tasks, t.id) {
      var i :| 0 <= i < |tasks| && tasks[i].id == t.id;
      assert r[i + 1].id == r[0].id;
    } else {
      forall i, j | 0 <= i < |r| && 0 <= j < |r| && r[i].id == r[j].id ensures i == j {
        if i > 0 && j > 0 {
          assert tasks[i - 1].id == tasks[j - 1].id;
        }
      }
    }
  }

  /** Replacing by identifier keeps every identifier where it was. */
  lemma UpdateTaskKeepsIds(tasks: seq<Task>, updated: Task)
    ensures forall i :: 0 <= i < |tasks| ==> UpdateTask(tasks, updated)[i].id == tasks[i].id
    ensures UniqueIds(tasks) ==> UniqueIds(UpdateTask(tasks, updated))
  {
  }

  /** With an unknown identifier the update changes nothing. */
  lemma UpdateUnknownId(tasks: seq<Task>, updated: Task)
    requires !HasId(tasks, updated.id)
    ensures UpdateTask(tasks, updated) == tasks
  {
    var r := UpdateTask(tasks, updated);
    assert forall i :: 0 <= i < |r| ==> r[i] == tasks[i];
  }

  /** After an update of a stored task, looking that identifier up finds the new version. */
  lemma UpdateThenFind(tasks: seq<Task>, updated: Task)
    requires HasId(tasks, updated.id)
    ensures FindTask(UpdateTask(tasks, updated), Some(updated.id)) == Some(updated)
  {
    var r := UpdateTask(tasks, updated);
    var i :| 0 <= i < |tasks| && tasks[i].id == updated.id;
    assert r[i].id == updated.id;
    FindUniform(r, updated.id, updated);
  }

  /** When every entry carrying `id` is `u`, looking `id` up finds `u`. */
  lemma {:induction false} FindUniform(tasks: seq<Task>, id: string, u: Task)
    requires HasId(tasks, id)
    requires forall k :: 0 <= k < |tasks| && tasks[k].id == id ==> tasks[k] == u
    ensures FindTask(tasks, Some(id)) == Some(u)
  {
    if tasks[0].id != id {
      var i :| 0 <= i < |tasks| && tasks[i].id == id;
      assert tasks[1..][i - 1].id == id;
      FindUniform(tasks[1..], id, u);
    }
  }

  /** Flipping changes `completed` and nothing else, and flipping twice restores the task. */
  lemma FlippedOnlyCompletion(t: Task)
    ensures Flipped(t).completed == !t.completed
    ensures Flipped(t).(completed := t.completed) == t
    ensures Flipped(Flipped(t)) == t
  {
  }

  /** Two lists carrying the same identifiers position by position agree on
      uniqueness and on which identifiers they hold. */
  lemma SameIds(a: seq<Task>, b: seq<Task>, id: string)
    requires |a| == |b|
    requires forall i :: 0 <= i < |a| ==> a[i].id == b[i].id
    ensures UniqueIds(a) ==> UniqueIds(b)
    ensures HasId(a, id) <==> HasId(b, id)
  {
    if UniqueIds(a) {
      forall i, j | 0 <= i < |b| && 0 <= j < |b| && b[i].id == b[j].id ensures i == j {
        assert a[i].id == a[j].id;
      }
    }
    if HasId(a, id) {
      var i :| 0 <= i < |a| && a[i].id == id;
      assert b[i].id == id;
    }
    if HasId(b, id) {
      var i :| 0 <= i < |b| && b[i].id == id;
      assert a[i].id == id;
    }
  }

  /** Toggling keeps every identifier where it was. */
  lemma ToggleTaskKeepsIds(tasks: seq<Task>, id: string)
    ensures forall i :: 0 <= i < |tasks| ==> ToggleTask(tasks, id)[i].id == tasks[i].id
    ensures UniqueIds(tasks) ==> UniqueIds(ToggleTask(tasks, id))
    ensures HasId(ToggleTask(tasks, id), id) <==> HasId(tasks, id)
  {
    var r := ToggleTask(tasks, id);
    forall i | 0 <= i < |tasks| ensures r[i].id == tasks[i].id {
      assert r[i] == if tasks[i].id == id then Flipped(tasks[i]) else tasks[i];
    }
    SameIds(tasks, r, id);
  }

  /** Toggling the same identifier twice restores the list. */
  lemma ToggleTwice(tasks: seq<Task>, id: string)
    ensures ToggleTask(ToggleTask(tasks, id), id) == tasks
  {
    var once := ToggleTask(tasks, id);
    var twice := ToggleTask(once, id);
    forall i | 0 <= i < |tasks| ensures twice[i] == tasks[i] {
      assert once[i].id == tasks[i].id;
    }
  }

  /** Deleting keeps the survivors in their original order: deleting from a
      concatenation deletes from each part. */
  lemma DeleteTaskOrder(a: seq<Task>, b: seq<Task>, id: string)
    ensures DeleteTask(a + b, id) == DeleteTask(a, id) + DeleteTask(b, id)
  {
    FilterConcat(a, b, KeepsId(id));
  }

  /** Deleting an identifier that is not stored changes nothing. */
  lemma DeleteUnknownId(tasks: seq<Task>, id: string)
    requires !HasId(tasks, id)
    ensures DeleteTask(tasks, id) == tasks
  {
    FilterAll(tasks, KeepsId(id));
  }

  lemma HasIdCons(t: Task, rest: seq<Task>, id: string)
    ensures HasId([t] + rest, id) <==> t.id == id || HasId(rest, id)
  {
    var s := [t] + rest;
    if t.id == id {
      assert s[0].id == id;
    }
    if HasId(s, id) && t.id != id {
      var i :| 0 <= i < |s| && s[i].id == id;
      assert rest[i - 1].id == id;
    }
    if HasId(rest, id) {
      var i :| 0 <= i < |rest| && rest[i].id == id;
      assert s[i + 1].id == id;
    }
  }

  lemma UniqueCons(t: Task, rest: seq<Task>)
    ensures UniqueIds([t] + rest) <==> !HasId(rest, t.id) && UniqueIds(rest)
  {
    var s := [t] + rest;
    if UniqueIds(s) {
      forall i, j | 0 <= i < |rest| && 0 <= j < |rest| && rest[i].id == rest[j].id ensures i == j {
        assert s[i + 1].id == s[j + 1].id;
      }
      forall i | 0 <= i < |rest| ensures rest[i].id != t.id {
        assert s[i + 1] == rest[i] && s[0] == t;
      }
    }
    if !HasId(rest, t.id) && UniqueIds(rest) {
      forall i, j | 0 <= i < |s| && 0 <= j < |s| && s[i].id == s[j].id ensures i == j {
        if i > 0 && j > 0 {
          assert rest[i - 1].id == rest[j - 1].id;
        }
      }
    }
  }

  /** Deleting removes exactly the entries carrying the identifier, so the
      list shrinks by one when identifiers are unique and the identifier is
      stored, and identifiers stay unique. */
  lemma {:induction false} DeleteTaskUnique(tasks: seq<Task>, id: string)
    requires UniqueIds(tasks)
    ensures UniqueIds(DeleteTask(tasks, id))
    ensures |DeleteTask(tasks, id)| == if HasId(tasks, id) then |tasks| - 1 else |tasks|
  {
    if tasks != [] {
      var t, rest := tasks[0], tasks[1..];
      assert tasks == [t] + rest;
      UniqueCons(t, rest);
      HasIdCons(t, rest, id);
      DeleteTaskUnique(rest, id);
      var rr := DeleteTask(rest, id);
      assert DeleteTask(tasks, id) == if t.id != id then [t] + rr else rr;
      if t.id != id {
        UniqueCons(t, rr);
      }
    }
  }
}
