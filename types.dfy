/** The data model of the task manager: tasks, their enumerations, the six
    screen tags and the structured draft the natural-language parser returns. */
module Types {

  /** An optional value; stands for a TypeScript `T | undefined` or `T | null`. */
  datatype Option<+T> = None | Some(value: T)

  datatype Priority = LOW | MEDIUM | HIGH

  datatype Category = WORK | PERSONAL | FAMILY | HEALTH

  /** The screen tags of the router. */
  datatype ViewType = DASHBOARD | CREATE | EDIT | DETAIL | CALENDAR | PROFILE

  /** A task. `date` is a "YYYY-MM-DD" string and `time` an optional "HH:mm" string. */
  datatype Task = Task(
    id: string,
    title: string,
    description: Option<string>,
    time: Option<string>,
    date: string,
    priority: Priority,
    category: Category,
    completed: bool,
    isScheduled: bool)

  /** What the parser hands back on success. */
  datatype AIResponse = AIResponse(
    title: string,
    description: Option<string>,
    time: Option<string>,
    priority: Priority,
    category: Category)

  /** JavaScript truthiness of an optional string: present and non-empty. */
  predicate Truthy(s: Option<string>)
  {
    s.Some? && s.value != ""
  }

  /** `s || fallback` on an optional string. */
  function OrElse(s: Option<string>, fallback: string): string
  {
    if Truthy(s) then s.value else fallback
  }
}
