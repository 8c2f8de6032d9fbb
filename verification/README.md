# Task manager client state, in Dafny

This project models the client-side logic of a small task manager. The model covers two React components.

- The task list (`TaskList.jsx`) keeps a local copy of the tasks and updates it in its handlers:
  - fetch replaces the list with the server's listing;
  - create puts the new task in front;
  - update replaces the edited task with the server's object;
  - toggle and delete change the list optimistically, before the server answers, and never revert.
- The list also derives two views from its state: the tasks shown for a search query and a status tab, and the number of pending tasks.
- A small modal/editing state machine decides whether a save creates or updates.
- The task form (`TaskForm.jsx`) prefills or resets its two inputs when its properties change. It refuses to submit a blank title.

Each handler is a pure function. It takes the current state, its arguments, the server's reply and, for delete, the user's answer to the confirmation dialog. It returns the next state together with the API request it issued (`TaskList.Effect`). Making the request observable is what lets the model state that a save dispatches to update exactly when a task is being edited, and that a blank title issues no request at all.

Modules:

- `Wrappers`: `Option`.
- `Sequences`: order-preserving subsequence and the `filter` used by delete, by the view and by the count.
- `JsText`: the `trim`, `toLowerCase` and `includes` the components call.
- `Tasks`: the task record and the four list transformations.
- `TaskView`: the filtered view and the pending count.
- `TaskForm`: the form.
- `TaskList`: the component state, the handlers, an event-driven `Step`/`Run`, and lemmas about sequences of interactions.

The form refuses a whitespace-only title but sends an accepted title untrimmed (`TaskForm.jsx:38-39`; `TaskForm.Submit`).

## Model

| member | source | states |
|---|---|---|
| Sequences.Filter | frontend/src/components/TaskList.jsx:60-65 | The result is an order-preserving subsequence; every kept element satisfies the test; every element that satisfies it is kept with its full multiplicity; no other element is kept |
| JsText.Trim | frontend/src/components/TaskForm.jsx:38 | The trimmed string has no ECMAScript whitespace or line terminator at either end |
| JsText.TrimCutsOnlyWhitespace | frontend/src/components/TaskForm.jsx:38 | `trim` returns a contiguous slice of its input, and everything it cut on either side is whitespace |
| JsText.TrimEmptyIffBlank | frontend/src/components/TaskForm.jsx:38 | `!title.trim()` holds exactly when the title is made only of whitespace |
| JsText.ToLower | frontend/src/components/TaskList.jsx:61 | Lower-casing keeps the length and maps each character through ASCII case-folding |
| JsText.ToLowerIdempotent | frontend/src/components/TaskList.jsx:61 | Lower-casing twice is lower-casing once |
| JsText.ToLowerHasNoUpper | frontend/src/components/TaskList.jsx:61 | A lower-cased string has no upper-case ASCII letter |
| JsText.IncludesIffOccurs | frontend/src/components/TaskList.jsx:61 | `includes` is true exactly when the needle occurs at some position of the haystack |
| JsText.IncludesEmpty | frontend/src/components/TaskList.jsx:61 | The empty query is contained in every title |
| Tasks.Create | frontend/src/components/TaskList.jsx:34 | The new list's head is the server's task, its tail is the old list, and it is one longer |
| Tasks.Update | frontend/src/components/TaskList.jsx:42 | Length is kept; every task with the edited id becomes the server's object wholesale, with no field merge; every other task is unchanged |
| Tasks.UpdateIdempotent | frontend/src/components/TaskList.jsx:42 | Applying the same reply twice equals applying it once, even when the reply carries a different id |
| Tasks.UpdateAbsent | frontend/src/components/TaskList.jsx:42 | An update for an id no task carries leaves the list unchanged |
| Tasks.UpdateKeepsIds | frontend/src/components/TaskList.jsx:42 | When the reply keeps the id, every position keeps its id |
| Tasks.Toggle | frontend/src/components/TaskList.jsx:49 | Length and order are kept; each task keeps its id, title and description; `completed` becomes the flag on the tasks with that id and is unchanged on the others |
| Tasks.ToggleIdempotent | frontend/src/components/TaskList.jsx:49 | Toggling twice to the same flag equals toggling once |
| Tasks.ToggleAbsent | frontend/src/components/TaskList.jsx:49 | Toggling an absent id leaves the list unchanged |
| Tasks.ToggleUndo | frontend/src/components/TaskList.jsx:49 | Toggling back to the old flag restores the list |
| Tasks.Delete | frontend/src/components/TaskList.jsx:55 | The result is an order-preserving subsequence; it holds no task with the id; it keeps every other task with its full multiplicity |
| Tasks.DeleteAbsent | frontend/src/components/TaskList.jsx:55 | Deleting an absent id leaves the list unchanged |
| Tasks.DeleteIdempotent | frontend/src/components/TaskList.jsx:55 | Deleting twice equals deleting once |
| Tasks.DeleteRemovesId | frontend/src/components/TaskList.jsx:55 | After a delete no task carries the id |
| Tasks.DeleteUndoesCreate | frontend/src/components/TaskList.jsx:34-55 | Deleting a task just created under a fresh id gives back the list as it was before |
| TaskView.FilteredTasks | frontend/src/components/TaskList.jsx:59-66 | The view is an order-preserving subsequence of the tasks. Every shown title contains the query, both lower-cased. The `'completed'` tab shows only completed tasks and any other non-`'all'` value only pending ones. Every matching task is shown with its multiplicity |
| TaskView.ShowAllWithEmptyQuery | frontend/src/components/TaskList.jsx:61-64 | An empty query on the `'all'` tab shows the whole list, in order |
| TaskView.TabsPartitionAll | frontend/src/components/TaskList.jsx:62-63 | For any query, the `'completed'` size plus the size of any other non-`'all'` tab equals the `'all'` size |
| TaskView.TabShowsNoMoreThanAll | frontend/src/components/TaskList.jsx:59-66 | No tab shows more tasks than `'all'` for the same query |
| TaskView.ActiveCount | frontend/src/components/TaskList.jsx:68 | The pending count is at most the number of tasks; the lemmas below pin down its value |
| TaskView.ActiveCountIsPendingCount | frontend/src/components/TaskList.jsx:68 | The pending count equals a task-by-task count of the tasks with `completed == false` |
| TaskView.ActiveCountExtremes | frontend/src/components/TaskList.jsx:68 | The count is zero exactly when every task is completed, and the full length exactly when none is |
| TaskView.PendingAndCompletedAddUp | frontend/src/components/TaskList.jsx:68 | The pending count plus the number of completed tasks is the length of the list |
| TaskView.ActiveCountIsActiveTab | frontend/src/components/TaskList.jsx:59-68 | The pending count is the size of the `'active'` tab under an empty query |
| TaskView.CompletingCountsLikeDeleting | frontend/src/components/TaskList.jsx:49-68 | After completing every task with an id, the pending count equals the count of the list with that id deleted |
| TaskView.ToggleMovesCount | frontend/src/components/TaskList.jsx:49-68 | A toggle to completed never raises the pending count, and a toggle to pending never lowers it |
| TaskForm.DescriptionOrEmpty | frontend/src/components/TaskForm.jsx:29 | The form's description is the task's description, or `''` when that is missing |
| TaskForm.Prefill | frontend/src/components/TaskForm.jsx:26-34 | Editing a task copies its title, and its description or `''`; with no task both inputs are `''` |
| TaskForm.Rerender | frontend/src/components/TaskForm.jsx:34 | The prefill re-runs when `taskToEdit` or `show` changes; unchanged properties keep the inputs |
| TaskForm.RerenderDiscardsTyping | frontend/src/components/TaskForm.jsx:26-34 | After a property change, whatever was typed into either input is gone |
| TaskForm.EditTitle | frontend/src/components/TaskForm.jsx:83 | Typing into the title input changes only the title |
| TaskForm.EditDescription | frontend/src/components/TaskForm.jsx:96 | Typing into the description area changes only the description |
| TaskForm.Submit | frontend/src/components/TaskForm.jsx:36-40 | No save happens exactly when the title is blank; otherwise one save carries both fields as typed, with the title not trimmed |
| TaskForm.NewFormNeedsTitle | frontend/src/components/TaskForm.jsx:30-38 | A freshly reset form cannot be submitted |
| TaskForm.EditFormSubmitsTask | frontend/src/components/TaskForm.jsx:27-39 | A prefilled form with a non-blank title submits the task's title and description unchanged |
| TaskForm.WhitespaceTitleNeverSaves | frontend/src/components/TaskForm.jsx:38 | Typing a whitespace-only title means the submit never saves |
| TaskList.Normalize | frontend/src/components/TaskList.jsx:23 | An array payload is taken verbatim. An object payload yields its `tasks` field, or `[]` when that is missing. `null`/`undefined` throws |
| TaskList.FetchTasks | frontend/src/components/TaskList.jsx:20-29 | Requests the listing. A readable payload becomes the tasks; a failed request or unreadable payload leaves the tasks alone. Loading is false afterwards in every case and nothing else changes |
| TaskList.HandleCreate | frontend/src/components/TaskList.jsx:31-37 | Requests a create with the form data. On success the task is prepended and the modal closes; on failure nothing changes |
| TaskList.HandleUpdate | frontend/src/components/TaskList.jsx:39-46 | Requests an update of the edited id. On success the list is updated, the modal closes and the edit ends; on failure nothing changes. With no edited task no request is made |
| TaskList.HandleToggle | frontend/src/components/TaskList.jsx:48-51 | Requests the flag change. The list is toggled whatever the server answers, so there is no revert, and nothing else changes |
| TaskList.HandleDelete | frontend/src/components/TaskList.jsx:53-57 | An unconfirmed delete changes nothing and makes no request. A confirmed one requests the delete and drops the task whatever the server answers, with no revert |
| TaskList.OnSave | frontend/src/components/TaskList.jsx:166 | A save issues exactly one request: an update of the edited id iff a task is being edited, else a create. A failed save leaves the state, and so the open modal, as it was. A successful one closes the modal with no edit in progress |
| TaskList.OpenNew | frontend/src/components/TaskList.jsx:95 | "+" clears the edited task and opens the modal, and nothing else changes |
| TaskList.OpenEdit | frontend/src/components/TaskList.jsx:153 | An item's edit button makes that task the edited one and opens the modal |
| TaskList.CloseModal | frontend/src/components/TaskList.jsx:165 | Closing only sets the modal closed; the edited task stays |
| TaskList.Step | frontend/src/components/TaskList.jsx:147-168 | A blank-title submit does nothing. Only the fetch event touches loading. An item's toggle button asks for the opposite of the task's flag |
| TaskList.LoadedStaysLoaded | frontend/src/components/TaskList.jsx:26-28 | Once loading has ended it never comes back, whatever events follow |
| TaskList.OnlyFetchEndsLoading | frontend/src/components/TaskList.jsx:26-28 | Without a fetch event, loading keeps its value through any run |
| TaskList.NewAfterAbandonedEditCreates | frontend/src/components/TaskList.jsx:95 | After an abandoned edit, "+" followed by a save creates instead of updating |
| TaskList.EditAfterAbandonedEditUpdatesNewTask | frontend/src/components/TaskList.jsx:153-166 | An edit abandoned with the close button does not carry over: reopening through another item's edit button saves as an update of that item |
| TaskList.InitialLoadsUntilFetch | frontend/src/components/TaskList.jsx:9-28 | From the initial state, loading stays on through any events until the listing arrives |
| TaskList.EditUntouchedSendsTask | frontend/src/components/TaskList.jsx:153-167 | Editing a task and submitting the prefilled form untouched sends an update of that id with the task's own title and description |
| TaskList.CreateThenDeleteRestores | frontend/src/components/TaskList.jsx:31-57 | A successful create under a fresh id, then a confirmed delete of that id, gives back the original tasks whatever the delete request answers |
| TaskList.SuccessfulEditEndsEdit | frontend/src/components/TaskList.jsx:42-44 | A successful save of an edit ends the edit, closes the modal and keeps the number of tasks |

## Left out

- `backend/server.js` and `backend/routes/taskRoute.js` are not modelled. They are process start-up, database connection and a routing table onto a controller that is not part of this model.
- `Background3D.jsx`, `App.jsx` and the rendering in `TaskItem.jsx` are not modelled: they are floating-point graphics and markup. The one piece of logic in `TaskItem.jsx`, toggling to `!task.completed` (line 47), is part of `TaskList.Step`.
- The API client `../api` is not part of this model. Its results are the `Reply` parameters. The answer to `window.confirm` is the `confirmed` parameter.
- Each handler is applied as one atomic step: the state it changes is the state at the moment the reply is applied. Interleavings of other events during an `await` are not modelled, and neither are races between an optimistic change and a later server reply.
- Console logging of errors, `e.preventDefault()`, animations and CSS are not modelled.
- JsText.ToLower: folds only the ASCII letters `A`-`Z`. JavaScript's `toLowerCase` folds all of Unicode, including characters whose lower case has a different length. Full Unicode case mapping tables are out of scope, so the search is exact only for ASCII titles and queries.
- JavaScript strings are sequences of UTF-16 code units, while a Dafny `string` is a sequence of Unicode scalar values. A surrogate pair is one character here and two code units in the source.
- JsText.IsWhitespace: lists the Unicode "Zs" set that the WhiteSpace production of section 12.2 of ECMA-262 refers to, as of Unicode 15. Later Unicode versions could add characters to it.
- TaskForm.Rerender: compares the properties by value. React compares `taskToEdit` by object identity, so a new object with the same fields re-runs the effect in the source but not here.
- Task records keep only `_id`, `title`, `description` and `completed`. The creation timestamp and any other server fields are carried through unchanged by the source and play no part in its logic. A payload whose `tasks` field is truthy but not an array, or a task without a string title, is not representable.
- Which events the screen offers in which state is not modelled. The list is hidden while loading, and the form is only mounted while the modal is open. `TaskList.Step` accepts every event in every state. The overlay click (`TaskForm.jsx:51`) and the close and abort buttons are all the one `CloseForm` event.
