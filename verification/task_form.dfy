/**
 The task form: its two text fields, the prefill/reset effect that runs
 whenever the `taskToEdit` or `show` property changes, and the submit
 handler that refuses a blank title.
 */
module TaskForm {
  import opened Wrappers
  import opened JsText
  import opened Tasks

  /** The `{title, description}` object handed to `onSave`. */
  datatype TaskData = TaskData(title: string, description: string)

  /** The form's local state: what the two inputs currently hold. */
  datatype FormState = FormState(title: string, description: string)

  /** The properties the effect depends on. */
  datatype FormProps = FormProps(show: bool, taskToEdit: Option<Task>)

  /** `taskToEdit.description || ''`: a missing description reads as empty. */
  function DescriptionOrEmpty(t: Task): (d: string)
    ensures t.description.Some? ==> d == t.description.value
    ensures t.description.None? ==> d == ""
  {
    t.description.GetOr("")
  }

  /** The effect's body, run once after the form mounts and again whenever
      its properties change: copy the edited task's fields into the inputs,
      or clear both inputs when there is no task to edit. */
  function Prefill(taskToEdit: Option<Task>): (f: FormState)
    ensures taskToEdit.Some? ==> f.title == taskToEdit.value.title
    ensures taskToEdit.Some? && taskToEdit.value.description.Some? ==>
      f.description == taskToEdit.value.description.value
    ensures taskToEdit.Some? && taskToEdit.value.description.None? ==> f.description == ""
    ensures taskToEdit.None? ==> f.title == "" && f.description == ""
  {
    match taskToEdit
    case Some(t) => FormState(t.title, DescriptionOrEmpty(t))
    case None => FormState("", "")
  }

  /** Typing into the title input replaces the title and nothing else. */
  function EditTitle(f: FormState, title: string): (r: FormState)
    ensures r.title == title && r.description == f.description
  {
    f.(title := title)
  }

  /** Typing into the description area replaces the description and nothing else. */
  function EditDescription(f: FormState, description: string): (r: FormState)
    ensures r.description == description && r.title == f.title
  {
    f.(description := description)
  }

  /** A re-render with new properties: the effect re-runs, and overwrites
      the inputs, exactly when `taskToEdit` or `show` changed. */
  function Rerender(f: FormState, before: FormProps, after: FormProps): (r: FormState)
    ensures before.taskToEdit != after.taskToEdit || before.show != after.show ==>
      r == Prefill(after.taskToEdit)
    ensures before == after ==> r == f
  {
    if before.taskToEdit != after.taskToEdit || before.show != after.show then Prefill(after.taskToEdit) else f
  }

  /** `handleSubmit`: no save for a blank title; otherwise one save with
      both fields exactly as typed (the title is not trimmed). */
  function Submit(f: FormState): (r: Option<TaskData>)
    ensures r.None? <==> IsBlank(f.title)
    ensures r.Some? ==> r.value.title == f.title && r.value.description == f.description
  {
    TrimEmptyIffBlank(f.title);
    if Trim(f.title) == [] then None else Some(TaskData(f.title, f.description))
  }

  /** A changed property discards whatever was typed before. */
  lemma RerenderDiscardsTyping(f: FormState, title: string, description: string, before: FormProps, after: FormProps)
    requires before != after
    ensures Rerender(EditDescription(EditTitle(f, title), description), before, after) == Prefill(after.taskToEdit)
  {
  }

  /** A form opened for a new task cannot be submitted untouched. */
  lemma NewFormNeedsTitle()
    ensures Submit(Prefill(None)) == None
  {
  }

  /** A form opened on a task whose title is not blank submits that task's
      title and description unchanged. */
  lemma EditFormSubmitsTask(t: Task)
    requires !IsBlank(t.title)
    ensures Submit(Prefill(Some(t))) == Some(TaskData(t.title, DescriptionOrEmpty(t)))
  {
  }

  /** Typing a title of spaces, tabs or line breaks never saves. */
  lemma WhitespaceTitleNeverSaves(f: FormState, title: string)
    requires IsBlank(title)
    ensures Submit(EditTitle(f, title)) == None
  {
  }
}
