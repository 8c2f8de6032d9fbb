/**
 The task list's derived views: the tasks shown for a search query and a
 status tab, and the number of pending tasks shown in the header.
 */
module TaskView {
  import opened Sequences
  import opened JsText
  import opened Tasks

  /** The status test of one tab: `'all'` shows everything, `'completed'`
      the completed tasks, and any other value the tasks not completed. */
  predicate MatchesFilter(t: Task, filter: string) {
    if filter == "all" then true
    else if filter == "completed" then t.completed
    else !t.completed
  }

  /** The title contains the query, both lower-cased. */
  predicate MatchesSearch(t: Task, query: string) {
    Includes(ToLower(t.title), ToLower(query))
  }

  /** The per-task test of the filtered view. */
  function Shown(query: string, filter: string): Task -> bool {
    (t: Task) => MatchesSearch(t, query) && MatchesFilter(t, filter)
  }

  /** The visible tasks: an order-preserving subsequence of `tasks` holding
      every task that matches both the search and the status tab, and no
      other. */
  function FilteredTasks(tasks: seq<Task>, query: string, filter: string): (r: seq<Task>)
    ensures IsSubsequence(r, tasks)
    ensures forall i :: 0 <= i < |r| ==> Includes(ToLower(r[i].title), ToLower(query))
    ensures filter == "completed" ==> forall i :: 0 <= i < |r| ==> r[i].completed
    ensures filter != "all" && filter != "completed" ==> forall i :: 0 <= i < |r| ==> !r[i].completed
    ensures forall t: Task :: MatchesSearch(t, query) && MatchesFilter(t, filter) ==>
      multiset(r)[t] == multiset(tasks)[t]
  {
    Filter(Shown(query, filter), tasks)
  }

  /** The test counted by the header: the task is not completed. */
  function IsPending(): Task -> bool {
    (t: Task) => !t.completed
  }

  /** `tasks.filter(t => !t.completed).length`. */
  function ActiveCount(tasks: seq<Task>): (r: nat)
    ensures r <= |tasks|
  {
    |Filter(IsPending(), tasks)|
  }

  /** The number of tasks not completed, counted one task at a time. */
  function CountPending(tasks: seq<Task>): nat
    decreases |tasks|
  {
    if tasks == [] then 0
    else (if tasks[0].completed then 0 else 1) + CountPending(tasks[1..])
  }

  /** The header count is the number of tasks with `completed == false`. */
  lemma {:induction false} ActiveCountIsPendingCount(tasks: seq<Task>)
    ensures ActiveCount(tasks) == CountPending(tasks)
    decreases |tasks|
  {
    if tasks != [] {
      ActiveCountIsPendingCount(tasks[1..]);
    }
  }

  /** The pending count is zero exactly when every task is completed, and
      the full length exactly when no task is. */
  lemma ActiveCountExtremes(tasks: seq<Task>)
    ensures ActiveCount(tasks) == 0 <==> forall i :: 0 <= i < |tasks| ==> tasks[i].completed
    ensures ActiveCount(tasks) == |tasks| <==> forall i :: 0 <= i < |tasks| ==> !tasks[i].completed
  {
    var pending := Filter(IsPending(), tasks);
    if forall i :: 0 <= i < |tasks| ==> tasks[i].completed {
      FilterKeepsNone(IsPending(), tasks);
    }
    if forall i :: 0 <= i < |tasks| ==> !tasks[i].completed {
      FilterKeepsAll(IsPending(), tasks);
    }
    forall i | 0 <= i < |tasks| && !tasks[i].completed
      ensures |pending| > 0
    {
      assert multiset(pending)[tasks[i]] == multiset(tasks)[tasks[i]];
      assert tasks[i] in multiset(tasks);
    }
    if |pending| == |tasks| {
      SubsequenceSameLength(pending, tasks);
    }
  }

  /** Every task is either pending or completed: the two counts add up to
      the length of the list. */
  lemma PendingAndCompletedAddUp(tasks: seq<Task>)
    ensures ActiveCount(tasks) + |FilteredTasks(tasks, "", "completed")| == |tasks|
  {
    var all := (t: Task) => true;
    forall i | 0 <= i < |tasks|
      ensures Shown("", "completed")(tasks[i]) == tasks[i].completed
    {
      IncludesEmpty(ToLower(tasks[i].title));
    }
    FilterKeepsAll(all, tasks);
    FilterPartition(all, IsPending(), Shown("", "completed"), tasks);
  }

  /** With an empty query on the `'all'` tab every task is shown, in order. */
  lemma ShowAllWithEmptyQuery(tasks: seq<Task>)
    ensures FilteredTasks(tasks, "", "all") == tasks
  {
    forall i | 0 <= i < |tasks|
      ensures Shown("", "all")(tasks[i])
    {
      IncludesEmpty(ToLower(tasks[i].title));
    }
    FilterKeepsAll(Shown("", "all"), tasks);
  }

  /** For any query, the `'completed'` tab and any other non-`'all'` tab
      together show as many tasks as the `'all'` tab. */
  lemma TabsPartitionAll(tasks: seq<Task>, query: string, other: string)
    requires other != "all" && other != "completed"
    ensures |FilteredTasks(tasks, query, "completed")| + |FilteredTasks(tasks, query, other)|
         == |FilteredTasks(tasks, query, "all")|
  {
    FilterPartition(Shown(query, "all"), Shown(query, "completed"), Shown(query, other), tasks);
  }

  /** The header count is the size of the `'active'` tab under an empty query. */
  lemma ActiveCountIsActiveTab(tasks: seq<Task>)
    ensures ActiveCount(tasks) == |FilteredTasks(tasks, "", "active")|
  {
    forall i | 0 <= i < |tasks|
      ensures IsPending()(tasks[i]) == Shown("", "active")(tasks[i])
    {
      IncludesEmpty(ToLower(tasks[i].title));
    }
    FilterCongruent(IsPending(), Shown("", "active"), tasks);
  }

  /** A visible tab never shows more tasks than the `'all'` tab for the same query. */
  lemma TabShowsNoMoreThanAll(tasks: seq<Task>, query: string, filter: string)
    ensures |FilteredTasks(tasks, query, filter)| <= |FilteredTasks(tasks, query, "all")|
  {
    FilterMonotone(Shown(query, "all"), Shown(query, filter), tasks);
  }

  /** Completing every task with a given id leaves exactly the pending tasks
      of the other ids to count. */
  lemma {:induction false} CompletingCountsLikeDeleting(tasks: seq<Task>, id: string)
    ensures ActiveCount(Toggle(tasks, id, true)) == ActiveCount(Delete(tasks, id))
    decreases |tasks|
  {
    if tasks != [] {
      var toggled := Toggle(tasks, id, true);
      assert toggled[1..] == Toggle(tasks[1..], id, true);
      CompletingCountsLikeDeleting(tasks[1..], id);
    }
  }

  /** A toggle to `completed` never raises the pending count, and a toggle
      to not completed never lowers it. */
  lemma {:induction false} ToggleMovesCount(tasks: seq<Task>, id: string)
    ensures ActiveCount(Toggle(tasks, id, true)) <= ActiveCount(tasks) <= ActiveCount(Toggle(tasks, id, false))
    decreases |tasks|
  {
    if tasks != [] {
      assert Toggle(tasks, id, true)[1..] == Toggle(tasks[1..], id, true);
      assert Toggle(tasks, id, false)[1..] == Toggle(tasks[1..], id, false);
      ToggleMovesCount(tasks[1..], id);
    }
  }
}
