/** The course sidebar: its create, rename and delete handlers, the
    dialogs they drive, the course filter they may clear, the task counts
    and which entry is highlighted. */
module CourseList {
  import opened Common
  import opened Text

  datatype Course = Course(id: string, name: string, color: string)

  /** The count next to a course: its entry in `taskCountByCourse`, 0 when
      it has none. */
  function TaskCount(taskCountByCourse: map<string, int>, course: Course): (n: int)
    ensures course.id !in taskCountByCourse ==> n == 0
    ensures course.id in taskCountByCourse ==> n == taskCountByCourse[course.id]
  {
    if course.id in taskCountByCourse then taskCountByCourse[course.id] else 0
  }

  /** "All Courses" is highlighted while no course filter is set; an empty
      id is falsy and counts as none. */
  function AllCoursesHighlighted(selectedCourseId: Option<string>): (lit: bool)
    ensures lit <==> selectedCourseId.None? || selectedCourseId == Some("")
  {
    !Truthy(selectedCourseId)
  }

  /** A course is highlighted while the filter holds its id; a course with
      a real id then rules out "All Courses". */
  function CourseHighlighted(selectedCourseId: Option<string>, course: Course): (lit: bool)
    ensures lit <==> selectedCourseId.Some? && selectedCourseId.value == course.id
    ensures lit && course.id != "" ==> !AllCoursesHighlighted(selectedCourseId)
  {
    selectedCourseId == Some(course.id)
  }

  /** Courses carry non-empty ids, so at most one entry of the list is
      highlighted: "All Courses" or the one course whose id is the filter. */
  lemma OneEntryHighlighted(selectedCourseId: Option<string>, a: Course, b: Course)
    requires a.id != "" && b.id != ""
    ensures AllCoursesHighlighted(selectedCourseId) ==> !CourseHighlighted(selectedCourseId, a)
    ensures CourseHighlighted(selectedCourseId, a) && CourseHighlighted(selectedCourseId, b) ==> a.id == b.id
    ensures !AllCoursesHighlighted(selectedCourseId) ==>
      exists id :: selectedCourseId == Some(id) && id != ""
  {
  }

  /** The filter after a successful delete of `deleted`: cleared when it
      pointed at that course, kept otherwise. */
  function FilterAfterDelete(selectedCourseId: Option<string>, deleted: Course): (r: Option<string>)
    ensures r.None? <==> selectedCourseId.None? || selectedCourseId == Some(deleted.id)
    ensures r.Some? ==> r == selectedCourseId
    ensures r != Some(deleted.id)
  {
    if selectedCourseId == Some(deleted.id) then None else selectedCourseId
  }

  /** The sidebar's state, and the parent's course filter that
      `onSelectCourse` sets. */
  class CourseListState {
    var isCreateOpen: bool
    var isEditOpen: bool
    var isDeleteOpen: bool
    var selectedCourse: Option<Course>
    var courseName: string
    var isSubmitting: bool
    var selectedCourseId: Option<string>

    /** Between events nothing is in flight, and the rename and delete
        dialogs are open only for a chosen course. */
    ghost predicate Valid()
      reads this
    {
      && !isSubmitting
      && (isEditOpen || isDeleteOpen ==> selectedCourse.Some?)
    }

    /** The initial `useState` values, under the parent's current filter. */
    constructor (selectedCourseId: Option<string>)
      ensures Valid()
      ensures !isCreateOpen && !isEditOpen && !isDeleteOpen
      ensures selectedCourse.None? && courseName == ""
      ensures this.selectedCourseId == selectedCourseId
    {
      isCreateOpen, isEditOpen, isDeleteOpen := false, false, false;
      selectedCourse := None;
      courseName := "";
      isSubmitting := false;
      this.selectedCourseId := selectedCourseId;
    }

    /** `onSelectCourse`: choosing "All Courses" (None) or a course. */
    method SelectCourse(courseId: Option<string>)
      modifies this`selectedCourseId
      ensures selectedCourseId == courseId
    {
      selectedCourseId := courseId;
    }

    /** The "Add" button: an empty name and the create dialog open. */
    method OpenCreateDialog()
      requires Valid()
      modifies this`courseName, this`isCreateOpen
      ensures Valid()
      ensures courseName == "" && isCreateOpen
    {
      courseName := "";
      isCreateOpen := true;
    }

    /** Typing in a dialog's name box. */
    method EditName(value: string)
      modifies this`courseName
      ensures courseName == value
    {
      courseName := value;
    }

    /** The pencil button: choose the course and fill the name box with its
        name. */
    method OpenEditDialog(course: Course)
      requires Valid()
      modifies this`selectedCourse, this`courseName, this`isEditOpen
      ensures Valid()
      ensures selectedCourse == Some(course) && courseName == course.name && isEditOpen
    {
      selectedCourse := Some(course);
      courseName := course.name;
      isEditOpen := true;
    }

    /** The bin button: choose the course; the name box is left alone. */
    method OpenDeleteDialog(course: Course)
      requires Valid()
      modifies this`selectedCourse, this`isDeleteOpen
      ensures Valid()
      ensures selectedCourse == Some(course) && isDeleteOpen
    {
      selectedCourse := Some(course);
      isDeleteOpen := true;
    }

    /** `handleCreate`, with the outcome of `onCreateCourse` as input.
        Returns the name passed to it, or None when it was not called. A
        throw propagates after `isSubmitting` is reset and changes nothing
        else. */
    method HandleCreate(outcome: CallOutcome) returns (created: Option<string>)
      requires Valid()
      modifies this`courseName, this`isCreateOpen, this`isSubmitting
      ensures Valid()
      ensures IsBlank(old(courseName)) ==>
        created.None? && courseName == old(courseName) && isCreateOpen == old(isCreateOpen)
      ensures !IsBlank(old(courseName)) ==> created == Some(Trim(old(courseName)))
      ensures !IsBlank(old(courseName)) && outcome == Resolved ==> courseName == "" && !isCreateOpen
      ensures !IsBlank(old(courseName)) && outcome == Threw ==>
        courseName == old(courseName) && isCreateOpen == old(isCreateOpen)
    {
      if Trim(courseName) == "" {
        return None;
      }
      isSubmitting := true;
      created := Some(Trim(courseName));
      if outcome == Resolved {
        courseName := "";
        isCreateOpen := false;
      }
      isSubmitting := false;
    }

    /** `handleEdit`, with the outcome of `onUpdateCourse` as input. Returns
        the id and name passed to it, or None when it was not called. Only
        the edit dialog and the in-flight flag can change. */
    method HandleEdit(outcome: CallOutcome) returns (updated: Option<(string, string)>)
      requires Valid()
      modifies this`isEditOpen, this`isSubmitting
      ensures Valid()
      ensures selectedCourse.None? || IsBlank(courseName) ==>
        updated.None? && isEditOpen == old(isEditOpen)
      ensures selectedCourse.Some? && !IsBlank(courseName) ==>
        && updated == Some((selectedCourse.value.id, Trim(courseName)))
        && (isEditOpen <==> old(isEditOpen) && outcome == Threw)
    {
      if selectedCourse.None? || Trim(courseName) == "" {
        return None;
      }
      isSubmitting := true;
      updated := Some((selectedCourse.value.id, Trim(courseName)));
      if outcome == Resolved {
        isEditOpen := false;
      }
      isSubmitting := false;
    }

    /** `handleDelete`, with the outcome of `onDeleteCourse` as input.
        Returns the id passed to it, or None when it was not called. After
        a successful delete the filter is cleared exactly when it pointed at
        the deleted course, and the delete dialog closes. */
    method HandleDelete(outcome: CallOutcome) returns (deleted: Option<string>)
      requires Valid()
      modifies this`isDeleteOpen, this`isSubmitting, this`selectedCourseId
      ensures Valid()
      ensures selectedCourse.None? ==>
        deleted.None? && selectedCourseId == old(selectedCourseId) && isDeleteOpen == old(isDeleteOpen)
      ensures selectedCourse.Some? ==> deleted == Some(selectedCourse.value.id)
      ensures selectedCourse.Some? && outcome == Resolved ==>
        && selectedCourseId == FilterAfterDelete(old(selectedCourseId), selectedCourse.value)
        && !isDeleteOpen
      ensures selectedCourse.Some? && outcome == Threw ==>
        selectedCourseId == old(selectedCourseId) && isDeleteOpen == old(isDeleteOpen)
    {
      if selectedCourse.None? {
        return None;
      }
      isSubmitting := true;
      deleted := Some(selectedCourse.value.id);
      if outcome == Resolved {
        if selectedCourseId == Some(selectedCourse.value.id) {
          selectedCourseId := None;
        }
        isDeleteOpen := false;
      }
      isSubmitting := false;
    }

    /** The delete dialog's confirm button. It is the dialog component's
        action button, which closes the dialog as it runs `handleDelete`, so
        the dialog ends closed whether or not the delete succeeded. */
    method ConfirmDelete(outcome: CallOutcome) returns (deleted: Option<string>)
      requires Valid()
      modifies this`isDeleteOpen, this`isSubmitting, this`selectedCourseId
      ensures Valid() && !isDeleteOpen
      ensures selectedCourse.None? ==> deleted.None? && selectedCourseId == old(selectedCourseId)
      ensures selectedCourse.Some? ==> deleted == Some(selectedCourse.value.id)
      ensures selectedCourse.Some? && outcome == Resolved ==>
        selectedCourseId == FilterAfterDelete(old(selectedCourseId), selectedCourse.value)
      ensures selectedCourse.Some? && outcome == Threw ==> selectedCourseId == old(selectedCourseId)
    {
      deleted := HandleDelete(outcome);
      isDeleteOpen := false;
    }
  }

  /** Deleting the course the list is filtered by clears the filter. */
  method DeleteFilteredCourse(course: Course) returns (deleted: Option<string>, filter: Option<string>)
    ensures deleted == Some(course.id) && filter.None?
  {
    var list := new CourseListState(Some(course.id));
    list.OpenDeleteDialog(course);
    deleted := list.ConfirmDelete(Resolved);
    filter := list.selectedCourseId;
  }

  /** A failed delete confirmed from the dialog closes the dialog and keeps
      the filter. */
  method FailedDeleteClosesDialog(course: Course) returns (deleted: Option<string>, filter: Option<string>, stillOpen: bool)
    ensures deleted == Some(course.id) && filter == Some(course.id) && !stillOpen
  {
    var list := new CourseListState(Some(course.id));
    list.OpenDeleteDialog(course);
    deleted := list.ConfirmDelete(Threw);
    filter := list.selectedCourseId;
    stillOpen := list.isDeleteOpen;
  }

  /** Creating a course named only with spaces makes no call. */
  method BlankNameIsRejected() returns (created: Option<string>, stillOpen: bool)
    ensures created.None? && stillOpen
  {
    var list := new CourseListState(None);
    list.OpenCreateDialog();
    list.EditName("   ");
    created := list.HandleCreate(Resolved);
    stillOpen := list.isCreateOpen;
  }
}
