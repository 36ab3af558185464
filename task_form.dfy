/** The add/edit task dialog: its fields, the reset when it opens, the
    title check, the payload it submits and the course select's "No course"
    entry. */
module TaskForm {
  import opened Common
  import opened Text

  const TitleRequired := "Title is required"

  /** The course select's value for its "No course" entry. */
  const NoCourse := "__none__"

  /** The user's defaults for a new task. */
  datatype Settings = Settings(defaultStatus: Status, defaultPriority: Priority)

  /** The dialog's editable fields; "" stands for an unset description or
      course, as in the dialog's state. */
  datatype FormFields = FormFields(
    title: string,
    description: string,
    status: Status,
    priority: Priority,
    dueDate: Option<int>,
    courseId: string)

  /** What the dialog hands to `onSubmit`. The due day travels as its
      "yyyy-MM-dd" rendering in the source; here it stays a day number. */
  datatype TaskInput = TaskInput(
    title: string,
    description: Option<string>,
    status: Status,
    priority: Priority,
    dueDate: Option<int>,
    courseId: Option<string>)

  /** The fields the dialog shows when it opens: a copy of the task being
      edited, or an empty form with the user's default status and
      priority. */
  function InitialFields(task: Option<Task>, settings: Settings): (f: FormFields)
    ensures task.None? ==>
      f == FormFields("", "", settings.defaultStatus, settings.defaultPriority, None, "")
    ensures task.Some? ==>
      && f.title == task.value.title && f.status == task.value.status
      && f.priority == task.value.priority && f.dueDate == task.value.dueDate
    ensures task.Some? ==>
      && (f.description == "" <==> !Truthy(task.value.description))
      && (Truthy(task.value.description) ==> f.description == task.value.description.value)
    ensures task.Some? ==>
      && (f.courseId == "" <==> !Truthy(task.value.courseId))
      && (Truthy(task.value.courseId) ==> f.courseId == task.value.courseId.value)
  {
    match task
    case Some(t) =>
      FormFields(t.title, OrEmpty(t.description), t.status, t.priority, t.dueDate, OrEmpty(t.courseId))
    case None =>
      FormFields("", "", settings.defaultStatus, settings.defaultPriority, None, "")
  }

  /** The title check: an error exactly when the title is blank. */
  function TitleError(title: string): (r: Option<string>)
    ensures r.Some? <==> IsBlank(title)
    ensures r.Some? ==> r.value == TitleRequired
  {
    if Trim(title) == "" then Some(TitleRequired) else None
  }

  /** The payload: the title trimmed, a blank description and an empty
      course dropped, a description kept trimmed, the rest copied. */
  function Payload(f: FormFields): (p: TaskInput)
    ensures p.title == Trim(f.title)
    ensures p.description.None? <==> IsBlank(f.description)
    ensures p.description.Some? ==> p.description.value == Trim(f.description)
    ensures p.courseId.None? <==> f.courseId == ""
    ensures p.courseId.Some? ==> p.courseId.value == f.courseId
    ensures p.status == f.status && p.priority == f.priority && p.dueDate == f.dueDate
  {
    var description := Trim(f.description);
    TaskInput(
      Trim(f.title),
      if description == "" then None else Some(description),
      f.status,
      f.priority,
      f.dueDate,
      if f.courseId == "" then None else Some(f.courseId))
  }

  /** A payload that passed the title check is normalised: the title is
      trimmed and not empty, a description is trimmed and not empty, a
      course id is not empty. */
  lemma PayloadIsNormalised(f: FormFields)
    requires TitleError(f.title).None?
    ensures var p := Payload(f);
      && p.title != "" && Trim(p.title) == p.title
      && (p.description.Some? ==> p.description.value != "" && Trim(p.description.value) == p.description.value)
      && (p.courseId.Some? ==> p.courseId.value != "")
  {
    TrimIdempotent(f.title);
    TrimIdempotent(f.description);
  }

  /** The fields of a task as the dialog would submit them. */
  function InputOf(t: Task): TaskInput {
    TaskInput(t.title, t.description, t.status, t.priority, t.dueDate, t.courseId)
  }

  /** A task whose fields are what the dialog submits: see PayloadIsNormalised. */
  predicate Normalised(t: Task) {
    && t.title != "" && Trim(t.title) == t.title
    && (t.description.Some? ==> t.description.value != "" && Trim(t.description.value) == t.description.value)
    && (t.courseId.Some? ==> t.courseId.value != "")
  }

  /** Opening a normalised task for edit and saving it untouched passes the
      title check and submits exactly the task's own fields. */
  lemma EditUnchangedSubmitsTask(t: Task, settings: Settings)
    requires Normalised(t)
    ensures TitleError(InitialFields(Some(t), settings).title).None?
    ensures Payload(InitialFields(Some(t), settings)) == InputOf(t)
  {
    var f := InitialFields(Some(t), settings);
    if t.description.None? {
      assert f.description == "" && IsBlank(f.description);
    }
  }

  /** A task saved from a payload and opened again for edit submits the
      same payload when saved untouched. */
  lemma SaveThenEditRoundTrip(f: FormFields, t: Task, settings: Settings)
    requires TitleError(f.title).None?
    requires InputOf(t) == Payload(f)
    ensures Payload(InitialFields(Some(t), settings)) == Payload(f)
  {
    PayloadIsNormalised(f);
    EditUnchangedSubmitsTask(t, settings);
  }

  /** An untouched create form fails the title check and starts from the
      user's defaults. */
  lemma CreateFormStartsBlank(settings: Settings)
    ensures var f := InitialFields(None, settings);
      && TitleError(f.title) == Some(TitleRequired)
      && f.status == settings.defaultStatus && f.priority == settings.defaultPriority
      && Payload(f).description.None? && Payload(f).courseId.None? && Payload(f).dueDate.None?
  {
  }

  /** The value the course select shows: the course id, or the "No course"
      entry when there is none. */
  function SelectValueOf(courseId: string): (value: string)
    ensures value != ""
    ensures courseId != "" ==> value == courseId
    ensures value == NoCourse <==> courseId == "" || courseId == NoCourse
  {
    if courseId == "" then NoCourse else courseId
  }

  /** The course id a choice in the select stands for. */
  function CourseIdOfSelect(value: string): (courseId: string)
    ensures courseId != NoCourse
    ensures value != NoCourse ==> courseId == value
    ensures courseId == "" <==> value == NoCourse || value == ""
  {
    if value == NoCourse then "" else value
  }

  /** Choosing what the select shows gives back the course id, for every id
      except the sentinel itself; choosing a course gives back the select's
      value, for every value except "". A real id goes through unchanged. */
  lemma CourseSelectRoundTrip(courseId: string, value: string)
    ensures CourseIdOfSelect(SelectValueOf(courseId)) == courseId <==> courseId != NoCourse
    ensures SelectValueOf(CourseIdOfSelect(value)) == value <==> value != ""
    ensures courseId != "" && courseId != NoCourse ==>
      SelectValueOf(courseId) == courseId && CourseIdOfSelect(courseId) == courseId
  {
  }

  /** The dialog's state. `open` is the parent's prop, changed through
      `onOpenChange`; `titleError` is `errors.title`. */
  class TaskFormDialog {
    var open: bool
    var isSubmitting: bool
    var title: string
    var description: string
    var status: Status
    var priority: Priority
    var dueDate: Option<int>
    var courseId: string
    var titleError: Option<string>

    function Fields(): FormFields
      reads this
    {
      FormFields(title, description, status, priority, dueDate, courseId)
    }

    /** Between events nothing is in flight, and the title error is shown
        only while the title is blank. */
    ghost predicate Valid()
      reads this
    {
      && !isSubmitting
      && (titleError.Some? ==> titleError.value == TitleRequired && IsBlank(title))
    }

    /** The initial `useState` values. */
    constructor (open: bool)
      ensures Valid() && this.open == open
      ensures Fields() == FormFields("", "", Todo, Medium, None, "") && titleError.None?
    {
      this.open := open;
      isSubmitting := false;
      title, description := "", "";
      status, priority := Todo, Medium;
      dueDate := None;
      courseId := "";
      titleError := None;
    }

    /** The effect that runs when `open`, the task or the defaults change:
        an open dialog is refilled and its error cleared. */
    method ResetOnOpen(task: Option<Task>, settings: Settings)
      requires Valid()
      modifies this
      ensures Valid()
      ensures open == old(open) && isSubmitting == old(isSubmitting)
      ensures old(open) ==> Fields() == InitialFields(task, settings) && titleError.None?
      ensures !old(open) ==> Fields() == old(Fields()) && titleError == old(titleError)
    {
      if open {
        match task {
          case Some(t) =>
            title := t.title;
            description := OrEmpty(t.description);
            status := t.status;
            priority := t.priority;
            dueDate := t.dueDate;
            courseId := OrEmpty(t.courseId);
          case None =>
            title := "";
            description := "";
            status := settings.defaultStatus;
            priority := settings.defaultPriority;
            dueDate := None;
            courseId := "";
        }
        titleError := None;
      }
    }

    /** `onOpenChange`, from the dialog's own close controls or the parent. */
    method SetOpen(value: bool)
      modifies this`open
      ensures open == value
    {
      open := value;
    }

    /** Typing in the title box: the new title, and a shown error cleared. */
    method EditTitle(value: string)
      requires Valid()
      modifies this
      ensures Valid()
      ensures title == value && titleError.None?
      ensures Fields() == old(Fields()).(title := value)
      ensures open == old(open) && isSubmitting == old(isSubmitting)
    {
      title := value;
      if titleError.Some? {
        titleError := None;
      }
    }

    /** The select's value for the current course. */
    function CourseSelectValue(): string
      reads this
    {
      SelectValueOf(courseId)
    }

    /** Choosing an entry in the course select; the select then shows the
        entry chosen. */
    method SelectCourse(value: string)
      modifies this`courseId
      ensures courseId == CourseIdOfSelect(value)
      ensures value != "" ==> CourseSelectValue() == value
    {
      courseId := if value == NoCourse then "" else value;
    }

    /** `handleSubmit`, with the outcome of the awaited `onSubmit` as input.
        Returns the payload passed to `onSubmit`, or None when it was not
        called. The fields are never changed; the dialog closes only when
        the call resolved. */
    method HandleSubmit(outcome: CallOutcome) returns (submitted: Option<TaskInput>)
      requires Valid()
      modifies this
      ensures Valid()
      ensures Fields() == old(Fields())
      ensures TitleError(old(title)).Some? ==>
        && submitted.None?
        && titleError == Some(TitleRequired)
        && open == old(open)
      ensures TitleError(old(title)).None? ==>
        && submitted == Some(Payload(old(Fields())))
        && titleError.None?
        && (open <==> old(open) && outcome == Threw)
    {
      if Trim(title) == "" {
        titleError := Some(TitleRequired);
        return None;
      }
      isSubmitting := true;
      submitted := Some(Payload(Fields()));
      if outcome == Resolved {
        open := false;
      }
      isSubmitting := false;
    }
  }

  /** Submitting a blank title makes no call and keeps the dialog open. */
  method BlankTitleIsRejected(settings: Settings) returns (submitted: Option<TaskInput>, stillOpen: bool)
    ensures submitted.None? && stillOpen
  {
    var dialog := new TaskFormDialog(true);
    dialog.ResetOnOpen(None, settings);
    dialog.EditTitle("  ");
    submitted := dialog.HandleSubmit(Resolved);
    stillOpen := dialog.open;
  }

  /** Saving an edit whose first call throws keeps the dialog open with the
      input intact, so the same save can be retried and then closes it. */
  method RetryAfterFailedSave(t: Task, settings: Settings)
    returns (first: Option<TaskInput>, openAfterFirst: bool, second: Option<TaskInput>, openAfterSecond: bool)
    requires Normalised(t)
    ensures first == second == Some(InputOf(t))
    ensures openAfterFirst && !openAfterSecond
  {
    var dialog := new TaskFormDialog(true);
    dialog.ResetOnOpen(Some(t), settings);
    EditUnchangedSubmitsTask(t, settings);
    first := dialog.HandleSubmit(Threw);
    openAfterFirst := dialog.open;
    second := dialog.HandleSubmit(Resolved);
    openAfterSecond := dialog.open;
  }
}
