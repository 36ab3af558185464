/** Values shared by the task card, the task form and the course list. */
module Common {

  datatype Option<+T> = None | Some(value: T)

  /** A task's workflow status (`TaskStatus`). */
  datatype Status = Todo | Doing | Done

  /** A task's priority (`TaskPriority`). */
  datatype Priority = Low | Medium | High

  /** A stored task as the components receive it from the data service.
      `dueDate` is a calendar day number, `startedAt` a timestamp in
      milliseconds, `timeSpent` whole seconds. An absent or empty stored
      value is `None`. */
  datatype Task = Task(
    id: string,
    title: string,
    description: Option<string>,
    status: Status,
    priority: Priority,
    dueDate: Option<int>,
    courseId: Option<string>,
    startedAt: Option<int>,
    timeSpent: Option<nat>)

  /** How an awaited call returning `Promise<void>` ended. */
  datatype CallOutcome = Resolved | Threw

  /** JavaScript truthiness of an optional string: present and not "". */
  predicate Truthy(s: Option<string>) {
    s.Some? && s.value != ""
  }

  /** `s || ""` */
  function OrEmpty(s: Option<string>): string {
    if s.Some? then s.value else ""
  }

  /** `n || 0` */
  function OrZero(n: Option<nat>): nat {
    if n.Some? then n.value else 0
  }
}
