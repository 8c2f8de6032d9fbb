/**
 The task record and the list transformations that the task list's
 handlers apply to their local copy of the tasks: prepend a created task,
 replace an updated one, flip the completion flag, drop a deleted one.
 */
module Tasks {
  import opened Wrappers
  import opened Sequences

  /** A task as the server returns it. `id` is the store-assigned `_id`;
      `description` is None when the field is missing or null, and may be
      `Some("")`; the form reads both as `''`. */
  datatype Task = Task(id: string, title: string, description: Option<string>, completed: bool)

  /** Some task in the list carries the identifier `id`. */
  predicate HasId(tasks: seq<Task>, id: string) {
    exists i :: 0 <= i < |tasks| && tasks[i].id == id
  }

  /** Handling a created task: the task the server returned goes in front
      of the current list (`[newTask, ...prev]`). */
  function Create(tasks: seq<Task>, created: Task): (r: seq<Task>)
    ensures |r| == |tasks| + 1
    ensures r[0] == created && r[1..] == tasks
  {
    [created] + tasks
  }

  /** Handling an updated task: every task whose id is `id` is replaced by
      the object the server returned, as a whole; other tasks are kept. */
  function Update(tasks: seq<Task>, id: string, updated: Task): (r: seq<Task>)
    ensures |r| == |tasks|
    ensures forall i :: 0 <= i < |r| && tasks[i].id == id ==> r[i] == updated
    ensures forall i :: 0 <= i < |r| && tasks[i].id != id ==> r[i] == tasks[i]
  {
    seq(|tasks|, i requires 0 <= i < |tasks| => if tasks[i].id == id then updated else tasks[i])
  }

  /** The optimistic toggle: every task whose id is `id` gets `completed`
      set to the given flag, and nothing else changes. */
  function Toggle(tasks: seq<Task>, id: string, completed: bool): (r: seq<Task>)
    ensures |r| == |tasks|
    ensures forall i :: 0 <= i < |r| ==>
      r[i].id == tasks[i].id && r[i].title == tasks[i].title && r[i].description == tasks[i].description
    ensures forall i :: 0 <= i < |r| ==>
      r[i].completed == (if tasks[i].id == id then completed else tasks[i].completed)
  {
    seq(|tasks|, i requires 0 <= i < |tasks| => if tasks[i].id == id then tasks[i].(completed := completed) else tasks[i])
  }

  /** The id test `t._id !== id` that deletion filters with. */
  function KeepsOtherThan(id: string): Task -> bool {
    (t: Task) => t.id != id
  }

  /** The optimistic delete: the tasks whose id is `id` are dropped, every
      other task is kept, in its original order and with its multiplicity. */
  function Delete(tasks: seq<Task>, id: string): (r: seq<Task>)
    ensures IsSubsequence(r, tasks)
    ensures forall i :: 0 <= i < |r| ==> r[i].id != id
    ensures forall t: Task :: t.id != id ==> multiset(r)[t] == multiset(tasks)[t]
  {
    Filter(KeepsOtherThan(id), tasks)
  }

  /** Deleting an id no task carries leaves the list unchanged. */
  lemma DeleteAbsent(tasks: seq<Task>, id: string)
    requires !HasId(tasks, id)
    ensures Delete(tasks, id) == tasks
  {
    FilterKeepsAll(KeepsOtherThan(id), tasks);
  }

  /** Toggling twice to the same flag is toggling once. */
  lemma ToggleIdempotent(tasks: seq<Task>, id: string, completed: bool)
    ensures Toggle(Toggle(tasks, id, completed), id, completed) == Toggle(tasks, id, completed)
  {
  }

  /** Toggling an id no task carries leaves the list unchanged. */
  lemma ToggleAbsent(tasks: seq<Task>, id: string, completed: bool)
    requires !HasId(tasks, id)
    ensures Toggle(tasks, id, completed) == tasks
  {
  }

  /** Toggling back restores the list when the toggled tasks all had the
      flag the second toggle sets. */
  lemma ToggleUndo(tasks: seq<Task>, id: string, completed: bool)
    requires forall i :: 0 <= i < |tasks| && tasks[i].id == id ==> tasks[i].completed == !completed
    ensures Toggle(Toggle(tasks, id, completed), id, !completed) == tasks
  {
  }

  /** Deleting the same id twice is deleting it once. */
  lemma DeleteIdempotent(tasks: seq<Task>, id: string)
    ensures Delete(Delete(tasks, id), id) == Delete(tasks, id)
  {
    FilterIdempotent(KeepsOtherThan(id), tasks);
  }

  /** After a delete no task with that id is left. */
  lemma DeleteRemovesId(tasks: seq<Task>, id: string)
    ensures !HasId(Delete(tasks, id), id)
  {
  }

  /** Deleting a task that was just created under a fresh id gives back
      the list as it was before the create. */
  lemma DeleteUndoesCreate(tasks: seq<Task>, created: Task)
    requires !HasId(tasks, created.id)
    ensures Delete(Create(tasks, created), created.id) == tasks
  {
    var c := Create(tasks, created);
    var keep := KeepsOtherThan(created.id);
    assert !keep(c[0]) && c[1..] == tasks;
    assert Filter(keep, c) == Filter(keep, tasks);
    DeleteAbsent(tasks, created.id);
  }

  /** Applying the same update twice is applying it once, whatever id the
      server's object carries. */
  lemma UpdateIdempotent(tasks: seq<Task>, id: string, updated: Task)
    ensures Update(Update(tasks, id, updated), id, updated) == Update(tasks, id, updated)
  {
  }

  /** Updating an id no task carries leaves the list unchanged. */
  lemma UpdateAbsent(tasks: seq<Task>, id: string, updated: Task)
    requires !HasId(tasks, id)
    ensures Update(tasks, id, updated) == tasks
  {
  }

  /** When the server's object keeps the id, the update keeps every
      position's id, so later handlers still find the task. */
  lemma UpdateKeepsIds(tasks: seq<Task>, id: string, updated: Task)
    requires updated.id == id
    ensures forall i :: 0 <= i < |tasks| ==> Update(tasks, id, updated)[i].id == tasks[i].id
  {
  }
}
