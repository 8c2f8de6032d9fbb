/**
 The task list component's state and handlers. Every handler is a pure
 function of the current state, its arguments and the server's reply (or
 the user's answer to the confirmation dialog); it returns the next state
 together with the API call it issued, if any.
 */
module TaskList {
  import opened Wrappers
  import opened JsText
  import opened Tasks
  import opened TaskView
  import opened TaskForm

  /** What an awaited API call produced: a value, or a rejected promise. */
  datatype Reply<+T> = Ok(value: T) | Failed

  /** The body the task listing answers with. */
  datatype Payload =
    | TaskArray(items: seq<Task>)           // an array of tasks
    | TaskObject(tasks: Option<seq<Task>>)  // an object; None when its `tasks` field is missing or falsy
    | NoData                                // `null` or `undefined`: reading `.tasks` throws

  /** The partial fields a task update sends. */
  datatype Patch = EditFields(data: TaskData) | SetCompleted(completed: bool)

  /** The requests the component makes of the API client. */
  datatype ApiCall =
    | GetTasks
    | CreateTask(data: TaskData)
    | UpdateTask(id: string, patch: Patch)
    | DeleteTask(id: string)

  /** The component's React state. */
  datatype UiState = UiState(
    tasks: seq<Task>,
    loading: bool,
    isModalOpen: bool,
    editingTask: Option<Task>,
    searchQuery: string,
    filter: string)

  /** A handler's outcome: the next state and the request it issued. */
  datatype Effect = Effect(state: UiState, call: Option<ApiCall>)

  /** The state before the first fetch completes. */
  const Initial: UiState := UiState([], true, false, None, "", "all")

  /** `Array.isArray(data) ? data : (data.tasks || [])`, None when it throws. */
  function Normalize(p: Payload): (r: Option<seq<Task>>)
    ensures p.TaskArray? ==> r == Some(p.items)
    ensures p.TaskObject? && p.tasks.Some? ==> r == Some(p.tasks.value)
    ensures p.TaskObject? && p.tasks.None? ==> r == Some([])
    ensures p.NoData? ==> r.None?
  {
    match p
    case TaskArray(items) => Some(items)
    case TaskObject(tasks) => Some(tasks.GetOr([]))
    case NoData => None
  }

  /** `fetchTasks`: the listing replaces the tasks when it arrives and can
      be read; on any failure the tasks stay; loading ends in every case. */
  function FetchTasks(st: UiState, reply: Reply<Payload>): (e: Effect)
    ensures e.call == Some(GetTasks)
    ensures !e.state.loading
    ensures reply.Ok? && reply.value.TaskArray? ==> e.state.tasks == reply.value.items
    ensures reply.Ok? && reply.value.TaskObject? ==> e.state.tasks == reply.value.tasks.GetOr([])
    ensures reply.Failed? || reply == Ok(NoData) ==> e.state.tasks == st.tasks
    ensures e.state == st.(tasks := e.state.tasks, loading := false)
  {
    var tasks := if reply.Ok? then Normalize(reply.value).GetOr(st.tasks) else st.tasks;
    Effect(st.(tasks := tasks, loading := false), Some(GetTasks))
  }

  /** `handleCreate`: the created task goes in front and the modal closes;
      a failed create changes nothing. */
  function HandleCreate(st: UiState, data: TaskData, reply: Reply<Task>): (e: Effect)
    ensures e.call == Some(CreateTask(data))
    ensures reply.Ok? ==> e.state.tasks == Create(st.tasks, reply.value)
    ensures reply.Ok? ==> e.state == st.(tasks := e.state.tasks, isModalOpen := false)
    ensures reply.Failed? ==> e.state == st
  {
    match reply
    case Ok(created) => Effect(st.(tasks := Create(st.tasks, created), isModalOpen := false), Some(CreateTask(data)))
    case Failed => Effect(st, Some(CreateTask(data)))
  }

  /** `handleUpdate`: the edited task is replaced by the server's object,
      the modal closes and the edit ends; a failed update changes nothing.
      Without an edited task, reading its `_id` throws before any request. */
  function HandleUpdate(st: UiState, data: TaskData, reply: Reply<Task>): (e: Effect)
    ensures st.editingTask.None? ==> e == Effect(st, None)
    ensures st.editingTask.Some? ==> e.call == Some(UpdateTask(st.editingTask.value.id, EditFields(data)))
    ensures st.editingTask.Some? && reply.Ok? ==>
      e.state.tasks == Update(st.tasks, st.editingTask.value.id, reply.value)
    ensures st.editingTask.Some? && reply.Ok? ==>
      e.state == st.(tasks := e.state.tasks, isModalOpen := false, editingTask := None)
    ensures reply.Failed? ==> e.state == st
  {
    match st.editingTask
    case None => Effect(st, None)
    case Some(editing) =>
      var call := Some(UpdateTask(editing.id, EditFields(data)));
      match reply
      case Ok(updated) =>
        Effect(st.(tasks := Update(st.tasks, editing.id, updated), isModalOpen := false, editingTask := None), call)
      case Failed => Effect(st, call)
  }

  /** `handleToggle`: the flag is set before the server answers and stays
      set whatever it answers. */
  function HandleToggle(st: UiState, id: string, completed: bool, reply: Reply<Task>): (e: Effect)
    ensures e.call == Some(UpdateTask(id, SetCompleted(completed)))
    ensures e.state.tasks == Toggle(st.tasks, id, completed)
    ensures e.state == st.(tasks := e.state.tasks)
  {
    Effect(st.(tasks := Toggle(st.tasks, id, completed)), Some(UpdateTask(id, SetCompleted(completed))))
  }

  /** `handleDelete`: nothing happens unless the user confirms; then the
      task is dropped before the server answers and is not restored
      whatever it answers. */
  function HandleDelete(st: UiState, id: string, confirmed: bool, reply: Reply<()>): (e: Effect)
    ensures !confirmed ==> e == Effect(st, None)
    ensures confirmed ==> e.call == Some(DeleteTask(id))
    ensures confirmed ==> e.state.tasks == Delete(st.tasks, id)
    ensures e.state == st.(tasks := e.state.tasks)
  {
    if !confirmed then Effect(st, None)
    else Effect(st.(tasks := Delete(st.tasks, id)), Some(DeleteTask(id)))
  }

  /** The form's `onSave`: the update handler while a task is being edited,
      the create handler otherwise. */
  function OnSave(st: UiState, data: TaskData, reply: Reply<Task>): (e: Effect)
    ensures e.call.Some?
    ensures e.call.value.UpdateTask? <==> st.editingTask.Some?
    ensures e.call.value.CreateTask? <==> st.editingTask.None?
    ensures e.call.value.CreateTask? ==> e.call.value.data == data
    ensures e.call.value.UpdateTask? ==> e.call.value == UpdateTask(st.editingTask.value.id, EditFields(data))
    ensures reply.Failed? ==> e.state == st
    ensures reply.Ok? ==> !e.state.isModalOpen && e.state.editingTask.None?
  {
    if st.editingTask.Some? then HandleUpdate(st, data, reply) else HandleCreate(st, data, reply)
  }

  /** The "+" button: start a new task and open the modal. */
  function OpenNew(st: UiState): (r: UiState)
    ensures r.isModalOpen && r.editingTask.None?
    ensures r.tasks == st.tasks && r.loading == st.loading
    ensures r.searchQuery == st.searchQuery && r.filter == st.filter
  {
    st.(editingTask := None, isModalOpen := true)
  }

  /** An item's edit button: edit that task and open the modal. */
  function OpenEdit(st: UiState, t: Task): (r: UiState)
    ensures r.isModalOpen && r.editingTask == Some(t)
    ensures r.tasks == st.tasks && r.loading == st.loading
    ensures r.searchQuery == st.searchQuery && r.filter == st.filter
  {
    st.(editingTask := Some(t), isModalOpen := true)
  }

  /** The form's `onClose`: close the modal, keep everything else,
      the task being edited included. */
  function CloseModal(st: UiState): (r: UiState)
    ensures !r.isModalOpen
    ensures r.editingTask == st.editingTask && r.tasks == st.tasks && r.loading == st.loading
    ensures r.searchQuery == st.searchQuery && r.filter == st.filter
  {
    st.(isModalOpen := false)
  }

  /** The props the modal form receives. */
  function FormPropsOf(st: UiState): FormProps {
    FormProps(st.isModalOpen, st.editingTask)
  }

  /** The user's and the server's inputs to the component. */
  datatype Event =
    | FetchDone(listing: Reply<Payload>)
    | ClickNew
    | ClickEdit(task: Task)
    | CloseForm
    | SubmitForm(form: FormState, saved: Reply<Task>)
    | ClickToggle(task: Task, toggled: Reply<Task>)
    | ClickDelete(id: string, confirmed: bool, deleted: Reply<()>)
    | TypeQuery(query: string)
    | PickFilter(filter: string)

  /** One event. A submitted form saves only when its title is not blank;
      an item's toggle button asks for the opposite of the task's flag. */
  function Step(st: UiState, ev: Event): (e: Effect)
    ensures ev.SubmitForm? && IsBlank(ev.form.title) ==> e == Effect(st, None)
    ensures !ev.FetchDone? ==> e.state.loading == st.loading
    ensures ev.ClickToggle? ==> e.call == Some(UpdateTask(ev.task.id, SetCompleted(!ev.task.completed)))
  {
    match ev
    case FetchDone(listing) => FetchTasks(st, listing)
    case ClickNew => Effect(OpenNew(st), None)
    case ClickEdit(t) => Effect(OpenEdit(st, t), None)
    case CloseForm => Effect(CloseModal(st), None)
    case SubmitForm(form, saved) =>
      (match Submit(form)
       case None => Effect(st, None)
       case Some(data) => OnSave(st, data, saved))
    case ClickToggle(t, toggled) => HandleToggle(st, t.id, !t.completed, toggled)
    case ClickDelete(id, confirmed, deleted) => HandleDelete(st, id, confirmed, deleted)
    case TypeQuery(query) => Effect(st.(searchQuery := query), None)
    case PickFilter(filter) => Effect(st.(filter := filter), None)
  }

  /** The state after a sequence of events. */
  function Run(st: UiState, events: seq<Event>): UiState
    decreases |events|
  {
    if events == [] then st else Run(Step(st, events[0]).state, events[1..])
  }

  /** Once the first fetch has finished, the spinner never comes back. */
  lemma {:induction false} LoadedStaysLoaded(st: UiState, events: seq<Event>)
    requires !st.loading
    ensures !Run(st, events).loading
    decreases |events|
  {
    if events != [] {
      LoadedStaysLoaded(Step(st, events[0]).state, events[1..]);
    }
  }

  /** Without a fetch event, loading keeps its value through any run. */
  lemma {:induction false} OnlyFetchEndsLoading(st: UiState, events: seq<Event>)
    requires forall i :: 0 <= i < |events| ==> !events[i].FetchDone?
    ensures Run(st, events).loading == st.loading
    decreases |events|
  {
    if events != [] {
      OnlyFetchEndsLoading(Step(st, events[0]).state, events[1..]);
    }
  }

  /** A save right after "+" creates, even when an earlier edit was
      abandoned with the modal's close button. */
  lemma NewAfterAbandonedEditCreates(st: UiState, t: Task, data: TaskData, reply: Reply<Task>)
    ensures OnSave(OpenNew(CloseModal(OpenEdit(st, t))), data, reply).call == Some(CreateTask(data))
  {
  }

  /** An edit abandoned with the close button never carries into a later
      save: reopening through another item's edit button saves as an update
      of that other task. */
  lemma EditAfterAbandonedEditUpdatesNewTask(st: UiState, t: Task, t2: Task, data: TaskData, reply: Reply<Task>)
    ensures OnSave(OpenEdit(CloseModal(OpenEdit(st, t)), t2), data, reply).call
         == Some(UpdateTask(t2.id, EditFields(data)))
  {
  }

  /** From the initial state, the spinner stays on until a fetch event. */
  lemma InitialLoadsUntilFetch(events: seq<Event>)
    requires forall i :: 0 <= i < |events| ==> !events[i].FetchDone?
    ensures Run(Initial, events).loading
  {
    OnlyFetchEndsLoading(Initial, events);
  }

  /** Editing a task and submitting the prefilled form untouched sends that
      task's own title and description as the update. */
  lemma EditUntouchedSendsTask(st: UiState, t: Task, reply: Reply<Task>)
    requires !IsBlank(t.title)
    ensures Step(OpenEdit(st, t), SubmitForm(Prefill(FormPropsOf(OpenEdit(st, t)).taskToEdit), reply)).call
         == Some(UpdateTask(t.id, EditFields(TaskData(t.title, DescriptionOrEmpty(t)))))
  {
    EditFormSubmitsTask(t);
  }

  /** Creating a task under a fresh id and then deleting it, confirmed,
      gives back the original list, whatever the delete request answers. */
  lemma CreateThenDeleteRestores(st: UiState, data: TaskData, created: Task, deleted: Reply<()>)
    requires !HasId(st.tasks, created.id)
    ensures HandleDelete(OnSave(OpenNew(st), data, Ok(created)).state, created.id, true, deleted).state.tasks
         == st.tasks
  {
    DeleteUndoesCreate(st.tasks, created);
  }

  /** A successful save of an edit ends the edit, closes the modal and
      keeps the number of tasks. */
  lemma SuccessfulEditEndsEdit(st: UiState, data: TaskData, updated: Task)
    requires st.editingTask.Some?
    ensures var s := OnSave(st, data, Ok(updated)).state;
      s.editingTask.None? && !s.isModalOpen && |s.tasks| == |st.tasks|
  {
  }
}
