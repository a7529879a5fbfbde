/** The application shell (App.tsx): the task store, the selected task, the
    selected date and the view router that decides which screen is shown. */
module AppState {
  import opened Types
  import opened TaskStore

  /** What the router renders; the composer gets the task being edited, if any. */
  datatype Screen =
    | DashboardScreen
    | ComposerScreen(initial: Option<Task>)
    | DetailScreen(task: Task)
    | CalendarScreen
    | ProfileScreen

  /** The screen rendered for a view: DETAIL shows only a task that
      `selectedTask` finds, and otherwise nothing at all is rendered. */
  function ScreenFor(view: ViewType, tasks: seq<Task>, selected: Option<string>): (r: Option<Screen>)
    ensures r.None? <==> view == DETAIL && !(selected.Some? && HasId(tasks, selected.value))
    ensures r.Some? && r.value.DetailScreen? ==>
              view == DETAIL && selected.Some? && r.value.task in tasks && r.value.task.id == selected.value
    ensures r.Some? && r.value.ComposerScreen? && r.value.initial.Some? ==>
              view == EDIT && selected.Some? && r.value.initial.value in tasks &&
              r.value.initial.value.id == selected.value
    ensures view == DASHBOARD ==> r == Some(DashboardScreen)
    ensures view == CREATE ==> r == Some(ComposerScreen(None))
    ensures view == EDIT ==> r == Some(ComposerScreen(FindTask(tasks, selected)))
    ensures view == DETAIL && FindTask(tasks, selected).Some? ==>
              r == Some(DetailScreen(FindTask(tasks, selected).value))
    ensures view == CALENDAR ==> r == Some(CalendarScreen)
    ensures view == PROFILE ==> r == Some(ProfileScreen)
  {
    match view
    case DASHBOARD => Some(DashboardScreen)
    case CREATE => Some(ComposerScreen(None))
    case EDIT => Some(ComposerScreen(FindTask(tasks, selected)))
    case DETAIL =>
      var found := FindTask(tasks, selected);
      if found.Some? then Some(DetailScreen(found.value)) else None
    case CALENDAR => Some(CalendarScreen)
    case PROFILE => Some(ProfileScreen)
  }

  /** The two task screens have their task: the selection resolves in the store. */
  predicate Resolves(view: ViewType, tasks: seq<Task>, selected: Option<string>)
  {
    (view == DETAIL || view == EDIT) ==> selected.Some? && HasId(tasks, selected.value)
  }

  /** Whenever the selection resolves, some screen is rendered, and the editor
      receives the selected task. */
  lemma ResolvedShowsScreen(view: ViewType, tasks: seq<Task>, selected: Option<string>)
    requires Resolves(view, tasks, selected)
    ensures ScreenFor(view, tasks, selected).Some?
    ensures view == EDIT ==> ScreenFor(view, tasks, selected) == Some(ComposerScreen(FindTask(tasks, selected)))
  {
  }

  /** Toggling keeps the selection resolving, so the detail screen stays up. */
  lemma ToggleKeepsResolution(view: ViewType, tasks: seq<Task>, selected: Option<string>, id: string)
    requires Resolves(view, tasks, selected)
    ensures Resolves(view, TaskStore.ToggleTask(tasks, id), selected)
  {
    if selected.Some? && HasId(tasks, selected.value) {
      var i :| 0 <= i < |tasks| && tasks[i].id == selected.value;
      ToggleTaskKeepsIds(tasks, id);
      assert TaskStore.ToggleTask(tasks, id)[i].id == selected.value;
    }
  }

  class App {
    var view: ViewType
    var tasks: seq<Task>
    var selectedTaskId: Option<string>
    var currentDate: string
    /** `INITIAL_TASKS`, dated once when the application is loaded. */
    const seed: seq<Task>

    /** Every screen the router can be on has something to render. */
    predicate Valid()
      reads this
    {
      Resolves(view, tasks, selectedTaskId)
    }

    /** The screen currently rendered. */
    function Shown(): Option<Screen>
      reads this
    {
      ScreenFor(view, tasks, selectedTaskId)
    }

    /** Start on the dashboard with the saved list, or the example tasks when
        nothing is saved; the selected date is today. */
    constructor (saved: Option<seq<Task>>, today: string)
      ensures view == DASHBOARD && selectedTaskId == None && currentDate == today
      ensures tasks == Load(saved, today) && seed == InitialTasks(today)
      ensures Valid()
    {
      view := DASHBOARD;
      tasks := Load(saved, today);
      selectedTaskId := None;
      currentDate := today;
      seed := InitialTasks(today);
    }

    /** `addTask`: the new task goes in front, and the dashboard is shown. */
    method AddTask(t: Task)
      requires Valid()
      modifies this
      ensures tasks == TaskStore.AddTask(old(tasks), t) && view == DASHBOARD
      ensures selectedTaskId == old(selectedTaskId) && currentDate == old(currentDate)
      ensures Valid()
    {
      tasks := TaskStore.AddTask(tasks, t);
      view := DASHBOARD;
    }

    /** `updateTask`: entries with the updated id are replaced, and the
        dashboard is shown. */
    method UpdateTask(t: Task)
      requires Valid()
      modifies this
      ensures tasks == TaskStore.UpdateTask(old(tasks), t) && view == DASHBOARD
      ensures selectedTaskId == old(selectedTaskId) && currentDate == old(currentDate)
      ensures Valid()
    {
      tasks := TaskStore.UpdateTask(tasks, t);
      view := DASHBOARD;
    }

    /** `toggleTask`: flips `completed` on the entries with that id; the
        screen stays where it is. */
    method ToggleTask(id: string)
      requires Valid()
      modifies this
      ensures tasks == TaskStore.ToggleTask(old(tasks), id)
      ensures view == old(view) && selectedTaskId == old(selectedTaskId) && currentDate == old(currentDate)
      ensures Valid()
    {
      ToggleKeepsResolution(view, tasks, selectedTaskId, id);
      tasks := TaskStore.ToggleTask(tasks, id);
    }

    /** The detail screen's delete button: after the user confirms, `deleteTask`
        drops the entries with that id and shows the dashboard; otherwise
        nothing changes. */
    method DeleteTask(id: string, confirmed: bool)
      requires Valid()
      modifies this
      ensures confirmed ==> tasks == TaskStore.DeleteTask(old(tasks), id) && view == DASHBOARD
      ensures !confirmed ==> tasks == old(tasks) && view == old(view)
      ensures selectedTaskId == old(selectedTaskId) && currentDate == old(currentDate)
      ensures Valid()
    {
      if confirmed {
        tasks := TaskStore.DeleteTask(tasks, id);
        view := DASHBOARD;
      }
    }

    /** `resetData`: after the user confirms, the list is the example tasks
        again and the dashboard is shown; otherwise nothing changes. */
    method ResetData(confirmed: bool)
      requires Valid()
      modifies this
      ensures confirmed ==> tasks == seed && view == DASHBOARD
      ensures !confirmed ==> tasks == old(tasks) && view == old(view)
      ensures selectedTaskId == old(selectedTaskId) && currentDate == old(currentDate)
      ensures Valid()
    {
      if confirmed {
        tasks := seed;
        view := DASHBOARD;
      }
    }

    // -------------------------------------------------------------------------
    // Transitions wired into the screens
    // -------------------------------------------------------------------------

    /** Dashboard, add button: open the composer for a new task. */
    method OpenCreate()
      requires Valid() && view == DASHBOARD
      modifies this
      ensures view == CREATE && tasks == old(tasks)
      ensures selectedTaskId == old(selectedTaskId) && currentDate == old(currentDate)
      ensures Valid() && Shown() == Some(ComposerScreen(None))
    {
      view := CREATE;
    }

    /** Dashboard, a task card: remember its id and open the detail screen.
        The dashboard only lists tasks of the store. */
    method SelectTask(id: string)
      requires Valid() && view == DASHBOARD && HasId(tasks, id)
      modifies this
      ensures view == DETAIL && selectedTaskId == Some(id)
      ensures tasks == old(tasks) && currentDate == old(currentDate)
      ensures Valid() && Shown() == Some(DetailScreen(FindTask(tasks, Some(id)).value))
    {
      selectedTaskId := Some(id);
      view := DETAIL;
    }

    /** Dashboard, calendar button. */
    method ViewCalendar()
      requires Valid() && view == DASHBOARD
      modifies this
      ensures view == CALENDAR && tasks == old(tasks)
      ensures selectedTaskId == old(selectedTaskId) && currentDate == old(currentDate)
      ensures Valid()
    {
      view := CALENDAR;
    }

    /** Dashboard, profile button. */
    method OpenProfile()
      requires Valid() && view == DASHBOARD
      modifies this
      ensures view == PROFILE && tasks == old(tasks)
      ensures selectedTaskId == old(selectedTaskId) && currentDate == old(currentDate)
      ensures Valid()
    {
      view := PROFILE;
    }

    /** Dashboard strip or calendar cell: the selected date, which every
        screen shares, changes and nothing else does. */
    method SetDate(date: string)
      requires Valid() && (view == DASHBOARD || view == CALENDAR)
      modifies this
      ensures currentDate == date
      ensures view == old(view) && tasks == old(tasks) && selectedTaskId == old(selectedTaskId)
      ensures Valid()
    {
      currentDate := date;
    }

    /** Detail, calendar and profile back buttons all return to the dashboard. */
    method Back()
      requires Valid() && (view == DETAIL || view == CALENDAR || view == PROFILE)
      modifies this
      ensures view == DASHBOARD && tasks == old(tasks)
      ensures selectedTaskId == old(selectedTaskId) && currentDate == old(currentDate)
      ensures Valid()
    {
      view := DASHBOARD;
    }

    /** Detail, edit button: open the composer on the selected task. */
    method Edit()
      requires Valid() && view == DETAIL
      modifies this
      ensures view == EDIT && tasks == old(tasks)
      ensures selectedTaskId == old(selectedTaskId) && currentDate == old(currentDate)
      ensures Valid() && Shown() == Some(ComposerScreen(FindTask(tasks, selectedTaskId)))
    {
      view := EDIT;
    }

    /** Composer back button: to the detail screen when editing, to the
        dashboard when creating. */
    method ComposerBack()
      requires Valid() && (view == CREATE || view == EDIT)
      modifies this
      ensures view == (if old(view) == EDIT then DETAIL else DASHBOARD)
      ensures tasks == old(tasks) && selectedTaskId == old(selectedTaskId) && currentDate == old(currentDate)
      ensures Valid()
    {
      view := if view == EDIT then DETAIL else DASHBOARD;
    }

    /** Composer save: `updateTask` when editing, `addTask` when creating. */
    method ComposerSave(t: Task)
      requires Valid() && (view == CREATE || view == EDIT)
      modifies this
      ensures old(view) == EDIT ==> tasks == TaskStore.UpdateTask(old(tasks), t)
      ensures old(view) == CREATE ==> tasks == TaskStore.AddTask(old(tasks), t)
      ensures view == DASHBOARD
      ensures selectedTaskId == old(selectedTaskId) && currentDate == old(currentDate)
      ensures Valid()
    {
      if view == EDIT {
        UpdateTask(t);
      } else {
        AddTask(t);
      }
    }
  }
}
