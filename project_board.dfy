/** The kanban board: the per-column and list views under the search and
    priority filters, and the three mutations (drop, delete, create) that
    update the task list and the columns' id lists together. */
module ProjectBoard {
  import opened Common
  import opened Strings
  import opened TaskData
  import opened TaskForm

  // ----- what the board and the list show -----

  /** The search box: an empty query, or the lower-cased query occurring in the
      lower-cased title or description. */
  predicate MatchesSearch(t: Task, query: string) {
    query == [] || Includes(Lower(t.title), Lower(query)) || Includes(Lower(t.description), Lower(query))
  }

  /** Both conditions a task must meet to be shown. */
  function MatchesFilters(query: string, pf: PriorityFilter): Task -> bool {
    (t: Task) => MatchesSearch(t, query) && pf.Admits(t.priority)
  }

  /** `i` is the first column with id `s`. */
  predicate FirstColumnWith(cols: seq<Column>, s: Status, i: int) {
    0 <= i < |cols| && cols[i].id == s && forall k :: 0 <= k < i ==> cols[k].id != s
  }

  /** `columns.findIndex((col) => col.id === s)`, with `None` for -1. */
  function FindColumnIndex(cols: seq<Column>, s: Status): (r: Option<nat>)
    ensures r.Some? ==> FirstColumnWith(cols, s, r.value)
    ensures r.None? <==> forall k :: 0 <= k < |cols| ==> cols[k].id != s
    ensures StandardColumns(cols) ==> r == Some(ColumnIndex(s))
    decreases |cols|
  {
    if cols == [] then None
    else if cols[0].id == s then Some(0)
    else match FindColumnIndex(cols[1..], s)
      case None => None
      case Some(k) => Some(k + 1)
  }

  /** getFilteredTasks: the tasks named by the column's ids, in column order,
      dropping ids that name no task and tasks the filters reject; a missing
      column shows nothing. */
  function GetFilteredTasks(tasks: seq<Task>, cols: seq<Column>, s: Status, query: string, pf: PriorityFilter): (r: seq<Task>)
    ensures FindColumnIndex(cols, s).None? ==> r == []
    ensures FindColumnIndex(cols, s).Some? ==>
      var ids := cols[FindColumnIndex(cols, s).value].taskIds;
      && (forall t :: t in r ==> t in tasks && t.id in ids && MatchesSearch(t, query) && pf.Admits(t.priority))
      && (forall id :: id in ids && Resolvable(tasks, id) && MatchesFilters(query, pf)(GetTaskById(tasks, id).value) ==>
            GetTaskById(tasks, id).value in r)
      && Subsequence(r, ResolveIds(tasks, ids))
  {
    match FindColumnIndex(cols, s)
    case None => []
    case Some(i) => Filter(ResolveIds(tasks, cols[i].taskIds), MatchesFilters(query, pf))
  }

  /** The list view: every task passing both filters, in dataset order. */
  function ListViewTasks(tasks: seq<Task>, query: string, pf: PriorityFilter): (r: seq<Task>)
    ensures forall t :: t in r <==> t in tasks && MatchesSearch(t, query) && pf.Admits(t.priority)
    ensures Subsequence(r, tasks)
  {
    Filter(tasks, MatchesFilters(query, pf))
  }

  /** On a consistent board, a column shows exactly the tasks of the list view
      that have the column's status. */
  lemma BoardAndListAgree(tasks: seq<Task>, cols: seq<Column>, s: Status, query: string, pf: PriorityFilter, t: Task)
    requires Consistent(tasks, cols)
    ensures t in GetFilteredTasks(tasks, cols, s, query, pf) <==> t in ListViewTasks(tasks, query, pf) && t.status == s
  {
    var i := ColumnIndex(s);
    if t in ListViewTasks(tasks, query, pf) && t.status == s {
      var j :| 0 <= j < |tasks| && tasks[j] == t;
      ExactlyOneColumn(tasks, cols, j, i);
      UniqueLookup(tasks, j);
      assert Resolvable(tasks, t.id);
    }
    if t in GetFilteredTasks(tasks, cols, s, query, pf) {
      var j :| 0 <= j < |tasks| && tasks[j] == t;
      ExactlyOneColumn(tasks, cols, j, i);
    }
  }

  // ----- column lists -----

  /** `(x) => x !== id` */
  function IsNot(id: string): string -> bool {
    (x: string) => x != id
  }

  /** `taskIds.filter((x) => x !== id)` */
  function RemoveId(ids: seq<string>, id: string): (r: seq<string>)
    ensures forall x :: x in r <==> x in ids && x != id
    ensures Subsequence(r, ids)
    ensures NoDuplicates(ids) ==> NoDuplicates(r)
  {
    if NoDuplicates(ids) then FilterNoDuplicates(ids, IsNot(id)); Filter(ids, IsNot(id))
    else Filter(ids, IsNot(id))
  }

  /** The first map of a drop, and the only one of a deletion: `id` filtered
      out of every column. */
  function WithoutId(cols: seq<Column>, id: string): (r: seq<Column>)
    ensures |r| == |cols|
    ensures forall i :: 0 <= i < |cols| ==>
      && r[i].id == cols[i].id && r[i].title == cols[i].title && r[i].color == cols[i].color
      && id !in r[i].taskIds
      && (forall x :: x != id ==> (x in r[i].taskIds <==> x in cols[i].taskIds))
      && Subsequence(r[i].taskIds, cols[i].taskIds)
  {
    seq(|cols|, i requires 0 <= i < |cols| => cols[i].(taskIds := RemoveId(cols[i].taskIds, id)))
  }

  /** The second map of a drop: `id` appended to every column with id `s`. */
  function AppendTo(cols: seq<Column>, s: Status, id: string): (r: seq<Column>)
    ensures |r| == |cols|
    ensures forall i :: 0 <= i < |cols| ==>
      r[i].id == cols[i].id && r[i].title == cols[i].title && r[i].color == cols[i].color
    ensures forall i :: 0 <= i < |cols| && cols[i].id == s ==> r[i].taskIds == cols[i].taskIds + [id]
    ensures forall i :: 0 <= i < |cols| && cols[i].id != s ==> r[i] == cols[i]
  {
    seq(|cols|, i requires 0 <= i < |cols| =>
      if cols[i].id == s then cols[i].(taskIds := cols[i].taskIds + [id]) else cols[i])
  }

  /** The columns after dropping `id` onto column `s`. */
  function Dropped(cols: seq<Column>, s: Status, id: string): (r: seq<Column>)
    ensures |r| == |cols|
  {
    AppendTo(WithoutId(cols, id), s, id)
  }

  /** Appending an id the list lacks keeps it free of repeats. */
  lemma AppendFresh(ids: seq<string>, id: string)
    requires NoDuplicates(ids) && id !in ids
    ensures NoDuplicates(ids + [id])
  {
    var r := ids + [id];
    forall a, b | 0 <= a < b < |r| ensures r[a] != r[b] {
      if b == |ids| {
        assert r[a] == ids[a];
      } else {
        assert r[a] == ids[a] && r[b] == ids[b];
      }
    }
  }

  /** A column's list after a drop: the other ids in their old order, and the
      dropped id once, at the end, exactly in the target column. */
  lemma {:induction false} DroppedColumn(ids: seq<string>, id: string, target: bool)
    ensures var r := if target then RemoveId(ids, id) + [id] else RemoveId(ids, id);
      && RemoveId(r, id) == RemoveId(ids, id)
      && (id in r <==> target)
      && (target ==> r[|r| - 1] == id && id !in r[..|r| - 1])
      && (NoDuplicates(ids) ==> NoDuplicates(r))
      && (forall x :: x != id ==> (x in r <==> x in ids))
  {
    var kept := RemoveId(ids, id);
    FilterKeepsAll(kept, IsNot(id));
    if target {
      FilterConcat(kept, [id], IsNot(id));
      assert Filter([id], IsNot(id)) == [];
      assert (kept + [id])[..|kept|] == kept;
      if NoDuplicates(ids) {
        AppendFresh(kept, id);
      }
    }
  }

  /** One column before and after a drop of `id` onto column `s`: status,
      title and colour kept, the other ids in their old order, and `id` last
      and once exactly when the column is the target. */
  ghost predicate DropPlaced(before: Column, after: Column, s: Status, id: string) {
    && after.id == before.id && after.title == before.title && after.color == before.color
    && RemoveId(after.taskIds, id) == RemoveId(before.taskIds, id)
    && (id in after.taskIds <==> before.id == s)
    && (before.id == s ==> after.taskIds[|after.taskIds| - 1] == id && id !in after.taskIds[..|after.taskIds| - 1])
    && (NoDuplicates(before.taskIds) ==> NoDuplicates(after.taskIds))
    && (forall x :: x != id ==> (x in after.taskIds <==> x in before.taskIds))
  }

  /** handleDrop's board update: the dropped id ends up last in every column
      with the target id and in no other, and every column keeps the other
      ids in their old order; titles and colours are untouched. */
  lemma DropPlacement(cols: seq<Column>, s: Status, id: string)
    ensures |Dropped(cols, s, id)| == |cols|
    ensures forall i :: 0 <= i < |cols| ==> DropPlaced(cols[i], Dropped(cols, s, id)[i], s, id)
  {
    forall i | 0 <= i < |cols| ensures DropPlaced(cols[i], Dropped(cols, s, id)[i], s, id) {
      DroppedColumn(cols[i].taskIds, id, cols[i].id == s);
    }
  }

  /** The task list after `task.status = s` on the `j`-th task. */
  function WithStatus(tasks: seq<Task>, j: nat, s: Status): (r: seq<Task>)
    requires j < |tasks|
    ensures |r| == |tasks| && TaskIds(r) == TaskIds(tasks)
    ensures r[j].status == s && r[j] == tasks[j].(status := s)
    ensures forall k :: 0 <= k < |tasks| && k != j ==> r[k] == tasks[k]
  {
    tasks[j := tasks[j].(status := s)]
  }

  /** A drop keeps the board invariant: the moved task now has the target
      status, and its id sits in that column alone. */
  lemma DropKeepsConsistent(tasks: seq<Task>, cols: seq<Column>, j: nat, s: Status)
    requires Consistent(tasks, cols) && j < |tasks|
    ensures Consistent(WithStatus(tasks, j, s), Dropped(cols, s, tasks[j].id))
  {
    DropPlacement(cols, s, tasks[j].id);
    DroppedConsistent(tasks, cols, j, s, Dropped(cols, s, tasks[j].id));
  }

  /** The invariant after a drop, from the placement of the dropped id alone. */
  lemma DroppedConsistent(tasks: seq<Task>, cols: seq<Column>, j: nat, s: Status, cols': seq<Column>)
    requires Consistent(tasks, cols) && j < |tasks|
    requires |cols'| == |cols| && forall i :: 0 <= i < |cols| ==> DropPlaced(cols[i], cols'[i], s, tasks[j].id)
    ensures Consistent(WithStatus(tasks, j, s), cols')
  {
    var id := tasks[j].id;
    var tasks' := WithStatus(tasks, j, s);
    assert UniqueIds(tasks') by {
      forall a, b | 0 <= a < b < |tasks'| ensures tasks'[a].id != tasks'[b].id {
        assert TaskIds(tasks')[a] == TaskIds(tasks)[a] && TaskIds(tasks')[b] == TaskIds(tasks)[b];
      }
    }
    forall i, x | 0 <= i < 4 && x in cols'[i].taskIds ensures HasStatus(tasks', x, Statuses[i]) {
      if x == id {
        UniqueLookup(tasks', j);
      } else {
        var k := FindTaskIndex(tasks, x).value;
        UniqueLookup(tasks', k);
      }
    }
    forall k | 0 <= k < |tasks'| ensures tasks'[k].id in cols'[ColumnIndex(tasks'[k].status)].taskIds {
      if k != j {
        assert tasks'[k] == tasks[k];
      }
    }
  }

  lemma DropKeepsValid(tasks: seq<Task>, cols: seq<Column>, j: nat, s: Status)
    requires j < |tasks|
    ensures Consistent(tasks, cols) ==> Consistent(WithStatus(tasks, j, s), Dropped(cols, s, tasks[j].id))
  {
    if Consistent(tasks, cols) {
      DropKeepsConsistent(tasks, cols, j, s);
    }
  }

  // ----- deletion -----

  /** handleDeleteTask's update of the task list: the first task with the id
      is spliced out, and an unknown id changes nothing. */
  function TasksAfterDelete(tasks: seq<Task>, id: string): (r: seq<Task>)
    ensures FindTaskIndex(tasks, id).None? ==> r == tasks
    ensures FindTaskIndex(tasks, id).Some? ==>
      var j := FindTaskIndex(tasks, id).value;
      |r| == |tasks| - 1 && forall k :: 0 <= k < |r| ==> r[k] == if k < j then tasks[k] else tasks[k + 1]
  {
    match FindTaskIndex(tasks, id)
    case None => tasks
    case Some(j) => RemoveAt(tasks, j)
  }

  /** With unique ids, the deleted task can no longer be found, and every
      other task is still there. */
  lemma DeleteRemovesOnlyThatTask(tasks: seq<Task>, id: string)
    requires UniqueIds(tasks)
    ensures GetTaskById(TasksAfterDelete(tasks, id), id).None?
    ensures forall t :: t in tasks && t.id != id ==> t in TasksAfterDelete(tasks, id)
  {
    var r := TasksAfterDelete(tasks, id);
    if FindTaskIndex(tasks, id).Some? {
      var j := FindTaskIndex(tasks, id).value;
      forall t | t in r ensures t.id != id {
        var k :| 0 <= k < |r| && r[k] == t;
        assert k < j ==> r[k] == tasks[k];
        assert k >= j ==> r[k] == tasks[k + 1];
      }
      forall t | t in tasks && t.id != id ensures t in r {
        var k :| 0 <= k < |tasks| && tasks[k] == t;
        if k < j {
          assert r[k] == t;
        } else {
          assert k != j;
          assert r[k - 1] == t;
        }
      }
    }
  }

  /** Where the task at position `k` after the deletion of `id` used to be. */
  function Origin(tasks: seq<Task>, id: string, k: nat): nat {
    if FindTaskIndex(tasks, id).Some? && k >= FindTaskIndex(tasks, id).value then k + 1 else k
  }

  lemma DeleteOrigin(tasks: seq<Task>, id: string, k: nat)
    requires UniqueIds(tasks) && k < |TasksAfterDelete(tasks, id)|
    ensures Origin(tasks, id, k) < |tasks|
    ensures TasksAfterDelete(tasks, id)[k] == tasks[Origin(tasks, id, k)]
    ensures tasks[Origin(tasks, id, k)].id != id
  {
  }

  lemma DeleteKeepsUnique(tasks: seq<Task>, id: string)
    requires UniqueIds(tasks)
    ensures UniqueIds(TasksAfterDelete(tasks, id))
  {
    var r := TasksAfterDelete(tasks, id);
    forall a, b | 0 <= a < b < |r| ensures r[a].id != r[b].id {
      DeleteOrigin(tasks, id, a);
      DeleteOrigin(tasks, id, b);
    }
  }

  /** A task the deletion spares keeps its status under lookup. */
  lemma DeleteKeepsStatus(tasks: seq<Task>, id: string, k: nat)
    requires UniqueIds(tasks) && k < |tasks| && tasks[k].id != id
    ensures HasStatus(TasksAfterDelete(tasks, id), tasks[k].id, tasks[k].status)
  {
    var r := TasksAfterDelete(tasks, id);
    var k' := if FindTaskIndex(tasks, id).Some? && k > FindTaskIndex(tasks, id).value then k - 1 else k;
    DeleteOrigin(tasks, id, k');
    DeleteKeepsUnique(tasks, id);
    UniqueLookup(r, k');
  }

  /** A deletion keeps the board invariant. */
  lemma DeleteKeepsConsistent(tasks: seq<Task>, cols: seq<Column>, id: string)
    requires Consistent(tasks, cols)
    ensures Consistent(TasksAfterDelete(tasks, id), WithoutId(cols, id))
  {
    var tasks', cols' := TasksAfterDelete(tasks, id), WithoutId(cols, id);
    DeleteKeepsUnique(tasks, id);
    forall i, x | 0 <= i < 4 && x in cols'[i].taskIds ensures HasStatus(tasks', x, Statuses[i]) {
      assert x in cols[i].taskIds && x != id;
      DeleteKeepsStatus(tasks, id, FindTaskIndex(tasks, x).value);
    }
    forall k | 0 <= k < |tasks'| ensures tasks'[k].id in cols'[ColumnIndex(tasks'[k].status)].taskIds {
      DeleteOrigin(tasks, id, k);
    }
  }

  lemma DeleteKeepsValid(tasks: seq<Task>, cols: seq<Column>, id: string)
    ensures Consistent(tasks, cols) ==> Consistent(TasksAfterDelete(tasks, id), WithoutId(cols, id))
  {
    if Consistent(tasks, cols) {
      DeleteKeepsConsistent(tasks, cols, id);
    }
  }

  // ----- creation -----

  /** `task-${Date.now()}`, with the clock reading passed in. */
  function NewTaskId(now: nat): string {
    "task-" + NatToString(now)
  }

  /** The fields of a task that the creation form fills in. */
  function PayloadOf(t: Task): NewTask {
    NewTask(t.title, t.description, t.status, t.priority, t.assigneeId, t.dueDate,
            t.estimatedHours, t.tags, t.subtasks, t.isRecurring, t.recurringPattern)
  }

  /** The fixed values of a freshly created task: created by the current user,
      "user-1", with no hours logged, no comments, attachments or
      dependencies, neither pinned nor a template. */
  predicate HasCreationDefaults(t: Task) {
    && t.createdById == "user-1" && t.actualHours.None?
    && t.comments == [] && t.attachments == [] && t.dependsOn == []
    && !t.isPinned && !t.isTemplate
  }

  /** The complete task the creation handler builds from the form's payload:
      the payload itself, the new id, the creation time and the defaults. */
  function CompleteTask(nt: NewTask, now: nat): (t: Task)
    ensures PayloadOf(t) == nt
    ensures t.id == NewTaskId(now) && t.createdAt == now && HasCreationDefaults(t)
  {
    Task(NewTaskId(now), nt.title, nt.description, nt.status, nt.priority, nt.assigneeId,
         "user-1", now, nt.dueDate, nt.estimatedHours, None, nt.tags, nt.subtasks,
         [], [], [], nt.isRecurring, nt.recurringPattern, false, false)
  }

  /** `columns.find((col) => col.id === s)?.taskIds.push(id)`: the id is
      appended to the first column with that id, and to no other. */
  function PushToColumn(cols: seq<Column>, s: Status, id: string): (r: seq<Column>)
    ensures |r| == |cols|
    ensures forall i :: FirstColumnWith(cols, s, i) ==> r[i] == cols[i].(taskIds := cols[i].taskIds + [id])
    ensures forall i :: 0 <= i < |cols| && !FirstColumnWith(cols, s, i) ==> r[i] == cols[i]
  {
    match FindColumnIndex(cols, s)
    case None => cols
    case Some(i) => cols[i := cols[i].(taskIds := cols[i].taskIds + [id])]
  }

  /** Creating a task under a fresh id keeps the board invariant. */
  lemma CreateKeepsConsistent(tasks: seq<Task>, cols: seq<Column>, t: Task)
    requires Consistent(tasks, cols)
    requires forall u :: u in tasks ==> u.id != t.id
    ensures Consistent(tasks + [t], PushToColumn(cols, t.status, t.id))
  {
    var tasks', cols' := tasks + [t], PushToColumn(cols, t.status, t.id);
    var c := ColumnIndex(t.status);
    assert FirstColumnWith(cols, t.status, c);
    assert UniqueIds(tasks') by {
      forall a, b | 0 <= a < b < |tasks'| ensures tasks'[a].id != tasks'[b].id {
        if b < |tasks| {
          assert tasks'[a] == tasks[a] && tasks'[b] == tasks[b];
        } else {
          assert tasks'[a] in tasks;
        }
      }
    }
    assert t.id !in cols[c].taskIds;
    AppendFresh(cols[c].taskIds, t.id);
    forall i, x | 0 <= i < 4 && x in cols'[i].taskIds ensures HasStatus(tasks', x, Statuses[i]) {
      if x == t.id {
        UniqueLookup(tasks', |tasks|);
      } else {
        assert x in cols[i].taskIds;
        var k := FindTaskIndex(tasks, x).value;
        assert tasks'[k] == tasks[k];
        UniqueLookup(tasks', k);
      }
    }
    forall k | 0 <= k < |tasks'| ensures tasks'[k].id in cols'[ColumnIndex(tasks'[k].status)].taskIds {
      if k < |tasks| {
        assert tasks'[k] == tasks[k];
      }
    }
  }

  /** A task created from a form where only the title was filled in: it is an
      unassigned, open to-do of medium priority without tags or subtasks, the
      board stays consistent, and its id sits in the to-do column alone. */
  lemma CreateFromTitleOnly(tasks: seq<Task>, cols: seq<Column>, title: string, now: nat)
    requires Consistent(tasks, cols)
    requires forall u :: u in tasks ==> u.id != NewTaskId(now)
    ensures var t := CompleteTask(MakePayload(title, [], Todo, Medium, None, None, None, [], [], false, Weekly), now);
      && t.title == title && t.status == Todo && t.priority == Medium
      && t.assigneeId == None && t.dueDate == None && t.tags == [] && t.subtasks == []
      && Consistent(tasks + [t], PushToColumn(cols, Todo, t.id))
      && forall i :: 0 <= i < 4 ==> (t.id in PushToColumn(cols, Todo, t.id)[i].taskIds <==> i == 0)
  {
    var t := CompleteTask(MakePayload(title, [], Todo, Medium, None, None, None, [], [], false, Weekly), now);
    CreateKeepsConsistent(tasks, cols, t);
    forall i | 0 <= i < 4 ensures t.id in PushToColumn(cols, Todo, t.id)[i].taskIds <==> i == 0 {
      ExactlyOneColumn(tasks + [t], PushToColumn(cols, Todo, t.id), |tasks|, i);
    }
  }

  // ----- the board's state -----

  /** The dragged task's position, if a non-empty id is being dragged and it
      names a task. */
  function DraggedIndex(tasks: seq<Task>, dragged: Option<string>): (r: Option<nat>)
    ensures r.Some? ==> dragged.Some? && dragged.value != [] && FirstWithId(tasks, dragged.value, r.value)
    ensures r.None? <==> dragged.None? || dragged.value == [] || FindTaskIndex(tasks, dragged.value).None?
  {
    if dragged.None? || dragged.value == [] then None else FindTaskIndex(tasks, dragged.value)
  }

  class ProjectBoardState {
    var tasks: seq<Task>
    var board: Board
    var searchQuery: string
    var priorityFilter: PriorityFilter
    var selectedTask: Option<Task>
    var isTaskDetailOpen: bool
    var isTaskFormOpen: bool
    var focusMode: bool
    var draggedTask: Option<string>
    var dragOverColumn: Option<Status>

    /** The board invariant over the task list and the columns. */
    ghost predicate Valid()
      reads this
    {
      Consistent(tasks, board.columns)
    }

    /** The board as first shown: the initial columns over the dataset, no
        filters, nothing selected, open or dragged. */
    constructor (tasks: seq<Task>)
      requires UniqueIds(tasks)
      ensures Valid()
      ensures this.tasks == tasks && board == InitialBoard(tasks)
      ensures searchQuery == [] && priorityFilter == AllPriorities && selectedTask == None
      ensures !isTaskDetailOpen && !isTaskFormOpen && !focusMode
      ensures draggedTask == None && dragOverColumn == None
    {
      InitialBoardConsistent(tasks);
      this.tasks := tasks;
      board := InitialBoard(tasks);
      searchQuery := [];
      priorityFilter := AllPriorities;
      selectedTask := None;
      isTaskDetailOpen := false;
      isTaskFormOpen := false;
      focusMode := false;
      draggedTask := None;
      dragOverColumn := None;
    }

    /** The tasks shown in a column. */
    function VisibleTasks(s: Status): seq<Task>
      reads this
    {
      GetFilteredTasks(tasks, board.columns, s, searchQuery, priorityFilter)
    }

    /** The tasks shown in the list view. */
    function ListedTasks(): seq<Task>
      reads this
    {
      ListViewTasks(tasks, searchQuery, priorityFilter)
    }

    /** On a valid board, a column shows exactly the list view's tasks with
        that column's status. */
    lemma ViewsAgree(s: Status, t: Task)
      requires Valid()
      ensures t in VisibleTasks(s) <==> t in ListedTasks() && t.status == s
    {
      BoardAndListAgree(tasks, board.columns, s, searchQuery, priorityFilter, t);
    }

    /** handleTaskClick */
    method HandleTaskClick(t: Task)
      modifies this
      ensures selectedTask == Some(t) && isTaskDetailOpen
      ensures tasks == old(tasks) && board == old(board) && isTaskFormOpen == old(isTaskFormOpen)
      ensures draggedTask == old(draggedTask) && dragOverColumn == old(dragOverColumn)
      ensures searchQuery == old(searchQuery) && priorityFilter == old(priorityFilter) && focusMode == old(focusMode)
    {
      selectedTask := Some(t);
      isTaskDetailOpen := true;
    }

    /** handleDragStart */
    method HandleDragStart(id: string)
      modifies this`draggedTask
      ensures draggedTask == Some(id)
    {
      draggedTask := Some(id);
    }

    /** handleDragOver */
    method HandleDragOver(s: Status)
      modifies this`dragOverColumn
      ensures dragOverColumn == Some(s)
    {
      dragOverColumn := Some(s);
    }

    /** handleDragEnd */
    method HandleDragEnd()
      modifies this`draggedTask, this`dragOverColumn
      ensures draggedTask == None && dragOverColumn == None
    {
      draggedTask := None;
      dragOverColumn := None;
    }

    /** handleDrop: with nothing (or an empty id) dragged, or an id that names
        no task, nothing changes, not even the drag state. Otherwise the first
        task with the id takes the column's status, the id moves to the end of
        the target column, and the drag state is cleared. */
    method HandleDrop(columnId: Status)
      modifies this
      ensures DraggedIndex(old(tasks), old(draggedTask)).None? ==> unchanged(this)
      ensures DraggedIndex(old(tasks), old(draggedTask)).Some? ==>
        var j := DraggedIndex(old(tasks), old(draggedTask)).value;
        && tasks == WithStatus(old(tasks), j, columnId)
        && board == Board(Dropped(old(board.columns), columnId, old(draggedTask).value))
        && draggedTask == None && dragOverColumn == None
        && selectedTask == old(selectedTask) && isTaskDetailOpen == old(isTaskDetailOpen)
        && isTaskFormOpen == old(isTaskFormOpen) && searchQuery == old(searchQuery)
        && priorityFilter == old(priorityFilter) && focusMode == old(focusMode)
      ensures old(Valid()) ==> Valid()
    {
      if draggedTask.None? || draggedTask.value == [] {
        return;
      }
      var id := draggedTask.value;
      match FindTaskIndex(tasks, id) {
        case None =>
          return;
        case Some(j) =>
          DropKeepsValid(tasks, board.columns, j, columnId);
          tasks := WithStatus(tasks, j, columnId);
          board := Board(Dropped(board.columns, columnId, id));
          draggedTask := None;
          dragOverColumn := None;
      }
    }

    /** handleDeleteTask: the task leaves the list and every column, and the
        detail view closes with nothing selected. */
    method HandleDeleteTask(taskId: string)
      modifies this
      ensures tasks == TasksAfterDelete(old(tasks), taskId)
      ensures board == Board(WithoutId(old(board.columns), taskId))
      ensures selectedTask == None && !isTaskDetailOpen
      ensures isTaskFormOpen == old(isTaskFormOpen) && draggedTask == old(draggedTask)
      ensures dragOverColumn == old(dragOverColumn) && searchQuery == old(searchQuery)
      ensures priorityFilter == old(priorityFilter) && focusMode == old(focusMode)
      ensures old(Valid()) ==> Valid()
    {
      DeleteKeepsValid(tasks, board.columns, taskId);
      tasks := TasksAfterDelete(tasks, taskId);
      board := Board(WithoutId(board.columns, taskId));
      selectedTask := None;
      isTaskDetailOpen := false;
    }

    /** The detail view's Delete button: the displayed task's own id goes to
        handleDeleteTask, then the view closes. */
    method DeleteFromDetail()
      requires selectedTask.Some?
      modifies this
      ensures tasks == TasksAfterDelete(old(tasks), old(selectedTask).value.id)
      ensures board == Board(WithoutId(old(board.columns), old(selectedTask).value.id))
      ensures selectedTask == None && !isTaskDetailOpen
      ensures isTaskFormOpen == old(isTaskFormOpen) && draggedTask == old(draggedTask)
      ensures dragOverColumn == old(dragOverColumn) && searchQuery == old(searchQuery)
      ensures priorityFilter == old(priorityFilter) && focusMode == old(focusMode)
      ensures old(Valid()) ==> Valid()
    {
      HandleDeleteTask(selectedTask.value.id);
      isTaskDetailOpen := false;
    }

    /** The task form's onSubmit: one complete task is appended, its id is
        pushed onto its status's column, and the form closes. The invariant
        survives whenever the clock reading gives an id no task has. */
    method HandleCreate(nt: NewTask, now: nat)
      modifies this
      ensures tasks == old(tasks) + [CompleteTask(nt, now)]
      ensures board == Board(PushToColumn(old(board.columns), nt.status, NewTaskId(now)))
      ensures !isTaskFormOpen
      ensures selectedTask == old(selectedTask) && isTaskDetailOpen == old(isTaskDetailOpen)
      ensures draggedTask == old(draggedTask) && dragOverColumn == old(dragOverColumn)
      ensures searchQuery == old(searchQuery) && priorityFilter == old(priorityFilter) && focusMode == old(focusMode)
      ensures old(Valid()) && (forall u :: u in old(tasks) ==> u.id != NewTaskId(now)) ==> Valid()
    {
      var t := CompleteTask(nt, now);
      if Consistent(tasks, board.columns) && forall u :: u in tasks ==> u.id != t.id {
        CreateKeepsConsistent(tasks, board.columns, t);
      }
      tasks := tasks + [t];
      board := Board(PushToColumn(board.columns, nt.status, t.id));
      isTaskFormOpen := false;
    }

    /** The form's submit button wired to onSubmit: with an empty title nothing
        happens; otherwise the form's payload becomes a task on the board and
        the form resets. */
    method SubmitForm(form: TaskFormState, now: nat)
      requires form.Valid()
      modifies this, form
      ensures form.Valid()
      ensures old(form.title) == [] ==> unchanged(this) && unchanged(form)
      ensures old(form.title) != [] ==>
        && tasks == old(tasks) + [CompleteTask(old(form.Payload()), now)]
        && board == Board(PushToColumn(old(board.columns), old(form.status), NewTaskId(now)))
        && !isTaskFormOpen && form.IsInitial()
      ensures selectedTask == old(selectedTask) && isTaskDetailOpen == old(isTaskDetailOpen)
      ensures draggedTask == old(draggedTask) && dragOverColumn == old(dragOverColumn)
      ensures searchQuery == old(searchQuery) && priorityFilter == old(priorityFilter) && focusMode == old(focusMode)
      ensures old(Valid()) && (forall u :: u in old(tasks) ==> u.id != NewTaskId(now)) ==> Valid()
    {
      var p := form.Submit();
      if p.Some? {
        HandleCreate(p.value, now);
      }
    }
  }

}
