/** The task composer (components/CreateTask.tsx): an AI mode that fills the
    fields from a parsed sentence, a manual mode that edits them, and the save
    button that turns the fields into a task. */
module Composer {
  import opened Types
  import opened Text

  /** The editable fields of the composer, as the form holds them. */
  datatype Draft = Draft(
    title: string,
    description: string,
    time: string,
    priority: Priority,
    category: Category,
    isScheduled: bool)

  /** The fields a composer opens with: those of the task being edited, with
      `||` falling back to a default for an empty value and `??` keeping an
      explicit `isScheduled`; defaults throughout for a new task. */
  function InitialDraft(initialTask: Option<Task>): (d: Draft)
    ensures d.time != ""
    ensures initialTask.None? ==> d == Draft("", "", "09:00", MEDIUM, PERSONAL, true)
    ensures initialTask.Some? ==>
              d.title == initialTask.value.title && d.priority == initialTask.value.priority &&
              d.category == initialTask.value.category && d.isScheduled == initialTask.value.isScheduled
    ensures initialTask.Some? && Truthy(initialTask.value.time) ==> d.time == initialTask.value.time.value
    ensures initialTask.Some? && Truthy(initialTask.value.description) ==> d.description == initialTask.value.description.value
    ensures initialTask.Some? && !Truthy(initialTask.value.time) ==> d.time == "09:00"
    ensures initialTask.Some? && !Truthy(initialTask.value.description) ==> d.description == ""
  {
    match initialTask
    case None => Draft("", "", "09:00", MEDIUM, PERSONAL, true)
    case Some(t) => Draft(t.title, OrElse(t.description, ""), OrElse(t.time, "09:00"), t.priority, t.category, t.isScheduled)
  }

  /** A parser result applied to the fields: title, priority and category are
      always taken over, description and time only when the result has a
      non-empty one, and whether the task is scheduled is left alone. */
  function ApplyResult(d: Draft, res: AIResponse): (r: Draft)
    ensures r.title == res.title && r.priority == res.priority && r.category == res.category
    ensures r.description == OrElse(res.description, d.description)
    ensures r.time == OrElse(res.time, d.time)
    ensures r.isScheduled == d.isScheduled
  {
    var withDescription := if Truthy(res.description) then d.(description := res.description.value) else d;
    var withTime := if Truthy(res.time) then withDescription.(time := res.time.value) else withDescription;
    withTime.(title := res.title, priority := res.priority, category := res.category)
  }

  /** `handleSave`: nothing when the title is empty; otherwise a task made of
      the fields, without a time when it is not scheduled, keeping the edited
      task's id, date and completion (each only when truthy) and otherwise
      taking a fresh id, today's date and not completed. */
  function BuildTask(d: Draft, initialTask: Option<Task>, freshId: string, today: string): (r: Option<Task>)
    ensures r.None? <==> d.title == ""
    ensures r.Some? ==>
              r.value.title == d.title && r.value.description == Some(d.description) &&
              r.value.priority == d.priority && r.value.category == d.category &&
              r.value.isScheduled == d.isScheduled
    ensures r.Some? ==> (r.value.time.Some? <==> d.isScheduled)
    ensures r.Some? && d.isScheduled ==> r.value.time == Some(d.time)
    ensures r.Some? && initialTask.None? ==> r.value.id == freshId && r.value.date == today && !r.value.completed
    ensures r.Some? && initialTask.Some? ==>
              r.value.completed == initialTask.value.completed &&
              (initialTask.value.id != "" ==> r.value.id == initialTask.value.id) &&
              (initialTask.value.date != "" ==> r.value.date == initialTask.value.date)
    ensures r.Some? && initialTask.Some? && initialTask.value.id == "" ==> r.value.id == freshId
    ensures r.Some? && initialTask.Some? && initialTask.value.date == "" ==> r.value.date == today
  {
    if d.title == "" then None
    else
      var id := if initialTask.Some? then OrElse(Some(initialTask.value.id), freshId) else freshId;
      var date := if initialTask.Some? then OrElse(Some(initialTask.value.date), today) else today;
      var completed := initialTask.Some? && initialTask.value.completed;
      Some(Task(id, d.title, Some(d.description), if d.isScheduled then Some(d.time) else None,
                date, d.priority, d.category, completed, d.isScheduled))
  }

  // ---------------------------------------------------------------------------
  // Properties relating opening, parsing and saving
  // ---------------------------------------------------------------------------

  /** A task whose fields the form can hold as they are: saving it unchanged
      from the editor gives back the same task. */
  predicate FormShaped(t: Task)
  {
    t.title != "" && t.id != "" && t.date != "" && t.description.Some? &&
    (if t.isScheduled then Truthy(t.time) else t.time == None)
  }

  /** Opening the editor on a task and saving without changes returns that task. */
  lemma EditRoundTrip(t: Task, freshId: string, today: string)
    requires FormShaped(t)
    ensures BuildTask(InitialDraft(Some(t)), Some(t), freshId, today) == Some(t)
  {
  }

  /** Saving replaces an unscheduled task's time by none, while the form keeps
      its time: scheduling it again brings the old time back. */
  lemma UnscheduledDropsTime(d: Draft, initialTask: Option<Task>, freshId: string, today: string)
    requires d.title != "" && !d.isScheduled
    ensures BuildTask(d, initialTask, freshId, today).value.time == None
    ensures BuildTask(d.(isScheduled := true), initialTask, freshId, today).value.time == Some(d.time)
  {
  }

  /** Only the empty title is refused: a title of blanks is saved. */
  lemma BlankTitleSaves(d: Draft, initialTask: Option<Task>, freshId: string, today: string)
    requires d.title != "" && Blank(d.title)
    ensures BuildTask(d, initialTask, freshId, today).Some?
    ensures Trim(BuildTask(d, initialTask, freshId, today).value.title) == []
  {
    TrimEmptyIffBlank(d.title);
  }

  /** A new task composed from a parsed sentence and saved carries the parsed
      title, priority and category, the parsed time when there is one and it
      stays scheduled, and the identity of a fresh task. */
  lemma ParsedNewTask(res: AIResponse, freshId: string, today: string)
    requires res.title != ""
    ensures var saved := BuildTask(ApplyResult(InitialDraft(None), res), None, freshId, today);
            saved.Some? && saved.value.title == res.title &&
            saved.value.priority == res.priority && saved.value.category == res.category &&
            saved.value.time == Some(OrElse(res.time, "09:00")) &&
            saved.value.description == Some(OrElse(res.description, "")) &&
            saved.value.id == freshId && saved.value.date == today && !saved.value.completed
  {
  }

  /** Applying the same result twice is applying it once. */
  lemma ApplyResultIdempotent(d: Draft, res: AIResponse)
    ensures ApplyResult(ApplyResult(d, res), res) == ApplyResult(d, res)
  {
  }

  // ---------------------------------------------------------------------------
  // The component's state
  // ---------------------------------------------------------------------------

  class CreateTask {
    var aiInput: string
    var loading: bool
    var isAiMode: bool
    var title: string
    var description: string
    var time: string
    var priority: Priority
    var category: Category
    var isScheduled: bool
    /** The task being edited, absent when composing a new one. */
    const initialTask: Option<Task>

    /** The form fields as one value. */
    function Fields(): Draft
      reads this
    {
      Draft(title, description, time, priority, category, isScheduled)
    }

    /** Empty AI input, not loading, AI mode exactly for a new task, and the
        fields from `InitialDraft`. */
    constructor (initial: Option<Task>)
      ensures initialTask == initial
      ensures aiInput == "" && !loading && isAiMode == initial.None?
      ensures Fields() == InitialDraft(initial)
    {
      initialTask := initial;
      aiInput := "";
      loading := false;
      isAiMode := initial.None?;
      var d := InitialDraft(initial);
      title := d.title;
      description := d.description;
      time := d.time;
      priority := d.priority;
      category := d.category;
      isScheduled := d.isScheduled;
    }

    /** Typing into the sentence box. */
    method SetAiInput(s: string)
      modifies this
      ensures aiInput == s
      ensures Fields() == old(Fields()) && isAiMode == old(isAiMode) && loading == old(loading)
    {
      aiInput := s;
    }

    /** `handleAISubmit` up to its `await`: blank input does nothing at
        all; otherwise loading is switched on and the sentence goes to the
        parser. `started` says whether it did. */
    method SubmitSentence() returns (started: bool)
      requires isAiMode && !loading
      modifies this
      ensures started <==> !Blank(aiInput)
      ensures loading == (started || old(loading))
      ensures Fields() == old(Fields()) && isAiMode == old(isAiMode) && aiInput == old(aiInput)
    {
      TrimEmptyIffBlank(aiInput);
      if Trim(aiInput) == [] {
        return false;
      }
      loading := true;
      return true;
    }

    /** `handleAISubmit` after its `await`, given the parser's answer: a
        result is applied to the fields and the form switches to manual mode;
        no result leaves fields and mode alone; loading ends switched off. */
    method ReceiveParse(result: Option<AIResponse>)
      modifies this
      ensures result.Some? ==> Fields() == ApplyResult(old(Fields()), result.value) && !isAiMode
      ensures result.None? ==> Fields() == old(Fields()) && isAiMode == old(isAiMode)
      ensures !loading && aiInput == old(aiInput)
    {
      if result.Some? {
        var res := result.value;
        title := res.title;
        if Truthy(res.description) {
          description := res.description.value;
        }
        if Truthy(res.time) {
          time := res.time.value;
        }
        priority := res.priority;
        category := res.category;
        isAiMode := false;
      }
      loading := false;
    }

    /** "Build manually": leave AI mode; the fields stay as they are. */
    method BuildManually()
      requires isAiMode
      modifies this
      ensures !isAiMode
      ensures Fields() == old(Fields()) && aiInput == old(aiInput) && loading == old(loading)
    {
      isAiMode := false;
    }

    /** "Re-open AI Engine", offered only when composing a new task; the fields
        stay as they are. */
    method ReopenAi()
      requires !isAiMode && initialTask.None?
      modifies this
      ensures isAiMode
      ensures Fields() == old(Fields()) && aiInput == old(aiInput) && loading == old(loading)
    {
      isAiMode := true;
    }

    method SetTitle(s: string)
      requires !isAiMode
      modifies this
      ensures Fields() == old(Fields()).(title := s)
      ensures isAiMode == old(isAiMode) && aiInput == old(aiInput) && loading == old(loading)
    {
      title := s;
    }

    method SetDescription(s: string)
      requires !isAiMode
      modifies this
      ensures Fields() == old(Fields()).(description := s)
      ensures isAiMode == old(isAiMode) && aiInput == old(aiInput) && loading == old(loading)
    {
      description := s;
    }

    method SetTime(s: string)
      requires !isAiMode && isScheduled
      modifies this
      ensures Fields() == old(Fields()).(time := s)
      ensures isAiMode == old(isAiMode) && aiInput == old(aiInput) && loading == old(loading)
    {
      time := s;
    }

    method SetPriority(p: Priority)
      requires !isAiMode
      modifies this
      ensures Fields() == old(Fields()).(priority := p)
      ensures isAiMode == old(isAiMode) && aiInput == old(aiInput) && loading == old(loading)
    {
      priority := p;
    }

    method SetCategory(c: Category)
      requires !isAiMode
      modifies this
      ensures Fields() == old(Fields()).(category := c)
      ensures isAiMode == old(isAiMode) && aiInput == old(aiInput) && loading == old(loading)
    {
      category := c;
    }

    /** The schedule switch; the time field keeps its value while off. */
    method ToggleScheduled()
      requires !isAiMode
      modifies this
      ensures Fields() == old(Fields()).(isScheduled := !old(isScheduled))
      ensures isAiMode == old(isAiMode) && aiInput == old(aiInput) && loading == old(loading)
    {
      isScheduled := !isScheduled;
    }

    /** `handleSave` with the fresh id and today's date as inputs: the task
        handed to `onSave`, if any. */
    method Save(freshId: string, today: string) returns (saved: Option<Task>)
      ensures saved == BuildTask(Fields(), initialTask, freshId, today)
      ensures saved.None? <==> title == ""
    {
      saved := BuildTask(Fields(), initialTask, freshId, today);
    }
  }
}
