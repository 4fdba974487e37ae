/** The entity model, the initial board and the derivation queries of the
    dashboard's data layer. The module-level `tasks` and `users` arrays are
    passed in as parameters; the clock is the parameter `now`, in
    milliseconds since the epoch, and so are all timestamps. */
module TaskData {
  import opened Common

  datatype User = User(id: string, name: string, email: string, avatar: string, role: string, department: string)

  datatype Priority = Low | Medium | High | Critical

  datatype Status = Todo | InProgress | Review | Completed

  datatype SubTask = SubTask(id: string, title: string, completed: bool)

  datatype Comment = Comment(id: string, userId: string, content: string, createdAt: int)

  datatype AttachmentType = Image | Document | Video | Other

  datatype Attachment = Attachment(id: string, name: string, url: string, kind: AttachmentType, size: int)

  datatype RecurringPattern = Daily | Weekly | Monthly | Custom

  datatype Task = Task(
    id: string,
    title: string,
    description: string,
    status: Status,
    priority: Priority,
    assigneeId: Option<string>,
    createdById: string,
    createdAt: int,
    dueDate: Option<int>,
    estimatedHours: Option<real>,
    actualHours: Option<real>,
    tags: seq<string>,
    subtasks: seq<SubTask>,
    comments: seq<Comment>,
    attachments: seq<Attachment>,
    dependsOn: seq<string>,
    isRecurring: bool,
    recurringPattern: Option<RecurringPattern>,
    isPinned: bool,
    isTemplate: bool)

  /** The priority filter of the board and team views: "all", or one priority. */
  datatype PriorityFilter = AllPriorities | OnlyPriority(priority: Priority) {
    predicate Admits(p: Priority) {
      AllPriorities? || priority == p
    }
  }

  datatype Column = Column(id: Status, title: string, color: string, taskIds: seq<string>)

  datatype Board = Board(columns: seq<Column>)

  /** The four statuses, in the order of the board's columns. */
  const Statuses: seq<Status> := [Todo, InProgress, Review, Completed]

  /** The position of a status's column on the board. */
  function ColumnIndex(s: Status): (i: nat)
    ensures i < 4 && Statuses[i] == s
  {
    match s
    case Todo => 0
    case InProgress => 1
    case Review => 2
    case Completed => 3
  }

  function ColumnTitle(s: Status): string {
    match s
    case Todo => "To Do"
    case InProgress => "In Progress"
    case Review => "Review"
    case Completed => "Completed"
  }

  function ColumnColor(s: Status): string {
    match s
    case Todo => "blue"
    case InProgress => "yellow"
    case Review => "purple"
    case Completed => "green"
  }

  function TaskIds(tasks: seq<Task>): (r: seq<string>)
    ensures |r| == |tasks| && forall i :: 0 <= i < |tasks| ==> r[i] == tasks[i].id
  {
    Map(tasks, (t: Task) => t.id)
  }

  predicate UniqueIds(tasks: seq<Task>) {
    forall i, j :: 0 <= i < j < |tasks| ==> tasks[i].id != tasks[j].id
  }

  // ----- lookups -----

  /** `i` is the first position holding a task with this id. */
  predicate FirstWithId(tasks: seq<Task>, id: string, i: int) {
    0 <= i < |tasks| && tasks[i].id == id && forall j :: 0 <= j < i ==> tasks[j].id != id
  }

  /** `tasks.findIndex((t) => t.id === id)`, with `None` for -1. */
  function FindTaskIndex(tasks: seq<Task>, id: string): (r: Option<nat>)
    ensures r.Some? ==> FirstWithId(tasks, id, r.value)
    ensures r.None? <==> forall j :: 0 <= j < |tasks| ==> tasks[j].id != id
    decreases |tasks|
  {
    if tasks == [] then None
    else if tasks[0].id == id then Some(0)
    else match FindTaskIndex(tasks[1..], id)
      case None => None
      case Some(k) => Some(k + 1)
  }

  /** getTaskById: the first task with the id, if any. */
  function GetTaskById(tasks: seq<Task>, id: string): (r: Option<Task>)
    ensures r.None? <==> forall t :: t in tasks ==> t.id != id
    ensures r.Some? ==> r.value in tasks && r.value.id == id
    ensures r.Some? ==> exists i :: FirstWithId(tasks, id, i) && tasks[i] == r.value
  {
    match FindTaskIndex(tasks, id)
    case None => None
    case Some(i) => Some(tasks[i])
  }

  /** With unique ids, looking up a task's own id finds that very task. */
  lemma UniqueLookup(tasks: seq<Task>, i: nat)
    requires UniqueIds(tasks) && i < |tasks|
    ensures FindTaskIndex(tasks, tasks[i].id) == Some(i)
    ensures GetTaskById(tasks, tasks[i].id) == Some(tasks[i])
  {
    var k := FindTaskIndex(tasks, tasks[i].id);
    assert k.Some?;
    assert !(k.value < i);
  }

  /** getUserById: the first user with the id, if any. */
  function GetUserById(users: seq<User>, id: string): (r: Option<User>)
    ensures r.None? <==> forall u :: u in users ==> u.id != id
    ensures r.Some? ==> r.value in users && r.value.id == id
    ensures r.Some? ==> forall u :: u in users && u.id == id ==> u == r.value || IndexOfUser(users, r.value) < IndexOfUser(users, u)
    decreases |users|
  {
    if users == [] then None
    else if users[0].id == id then Some(users[0])
    else GetUserById(users[1..], id)
  }

  /** The first position of `u` in `users`. */
  function IndexOfUser(users: seq<User>, u: User): (i: nat)
    requires u in users
    ensures i < |users| && users[i] == u && forall j :: 0 <= j < i ==> users[j] != u
    decreases |users|
  {
    if users[0] == u then 0 else 1 + IndexOfUser(users[1..], u)
  }

  // ----- filters -----

  /** The test `task.assigneeId === userId`, as a value that can be passed to `Filter`. */
  function AssignedTo(userId: string): Task -> bool {
    (t: Task) => t.assigneeId == Some(userId)
  }

  /** getTasksByAssignee: the tasks assigned to the user, in dataset order. */
  function GetTasksByAssignee(tasks: seq<Task>, userId: string): (r: seq<Task>)
    ensures forall t :: t in r <==> t in tasks && t.assigneeId == Some(userId)
    ensures Subsequence(r, tasks)
  {
    Filter(tasks, AssignedTo(userId))
  }

  /** getTasksByStatus: the tasks with the status, in dataset order. */
  function GetTasksByStatus(tasks: seq<Task>, s: Status): (r: seq<Task>)
    ensures forall t :: t in r <==> t in tasks && t.status == s
    ensures Subsequence(r, tasks)
  {
    Filter(tasks, (t: Task) => t.status == s)
  }

  /** getTasksByPriority: the tasks with the priority, in dataset order. */
  function GetTasksByPriority(tasks: seq<Task>, p: Priority): (r: seq<Task>)
    ensures forall t :: t in r <==> t in tasks && t.priority == p
    ensures Subsequence(r, tasks)
  {
    Filter(tasks, (t: Task) => t.priority == p)
  }

  /** getPinnedTasks: the pinned tasks, in dataset order. */
  function GetPinnedTasks(tasks: seq<Task>): (r: seq<Task>)
    ensures forall t :: t in r <==> t in tasks && t.isPinned
    ensures Subsequence(r, tasks)
  {
    Filter(tasks, (t: Task) => t.isPinned)
  }

  /** A day in milliseconds. */
  const DayMs: nat := 24 * 60 * 60 * 1000

  /** getTasksDueSoon: dated tasks due no earlier than now and no later than
      three days from now, whatever their status. */
  function GetTasksDueSoon(tasks: seq<Task>, now: int): (r: seq<Task>)
    ensures forall t :: t in r <==> t in tasks && t.dueDate.Some? && now <= t.dueDate.value <= now + 3 * DayMs
    ensures Subsequence(r, tasks)
  {
    Filter(tasks, (t: Task) => t.dueDate.Some? && t.dueDate.value >= now && t.dueDate.value <= now + 3 * DayMs)
  }

  /** getOverdueTasks: dated, unfinished tasks whose due date has passed. */
  function GetOverdueTasks(tasks: seq<Task>, now: int): (r: seq<Task>)
    ensures forall t :: t in r <==> t in tasks && t.dueDate.Some? && t.status != Completed && t.dueDate.value < now
    ensures Subsequence(r, tasks)
  {
    Filter(tasks, (t: Task) => !(t.dueDate.None? || t.status == Completed) && t.dueDate.value < now)
  }

  /** A task can never be both overdue and due soon at the same instant. */
  lemma DueSoonAndOverdueDisjoint(tasks: seq<Task>, now: int, t: Task)
    ensures !(t in GetTasksDueSoon(tasks, now) && t in GetOverdueTasks(tasks, now))
  {
  }

  // ----- completion percentage -----

  predicate IsDone(st: SubTask) {
    st.completed
  }

  function CompletedCount(subtasks: seq<SubTask>): (n: nat)
    ensures n <= |subtasks|
  {
    |Filter(subtasks, IsDone)|
  }

  /** getTaskCompletionPercentage: 0 without subtasks, otherwise the share of
      completed subtasks in percent, rounded half up; always within 0..100. */
  function GetTaskCompletionPercentage(task: Task): (r: nat)
    ensures r <= 100
    ensures task.subtasks == [] ==> r == 0
    ensures task.subtasks != [] ==>
      var n, c := |task.subtasks|, CompletedCount(task.subtasks);
      n * (2 * r - 1) <= 200 * c < n * (2 * r + 1)
  {
    if |task.subtasks| == 0 then 0
    else RoundedPercent(CompletedCount(task.subtasks), |task.subtasks|)
  }

  /** Every subtask done gives exactly 100. */
  lemma AllSubtasksDoneIsHundred(task: Task)
    requires task.subtasks != []
    requires forall st :: st in task.subtasks ==> st.completed
    ensures GetTaskCompletionPercentage(task) == 100
  {
    var n := |task.subtasks|;
    FilterKeepsAll(task.subtasks, IsDone);
    var r := GetTaskCompletionPercentage(task);
    if r < 100 {
      MulMonotone(n, 2 * r + 1, 199);
      assert false;
    }
  }

  /** No subtask done gives exactly 0. */
  lemma NoSubtaskDoneIsZero(task: Task)
    requires forall st :: st in task.subtasks ==> !st.completed
    ensures GetTaskCompletionPercentage(task) == 0
  {
    FilterKeepsNone(task.subtasks, IsDone);
    if task.subtasks != [] {
      var n := |task.subtasks|;
      var r := GetTaskCompletionPercentage(task);
      if r > 0 {
        MulMonotone(n, 1, 2 * r - 1);
        assert false;
      }
    }
  }

  // ----- dependencies -----

  predicate Resolvable(tasks: seq<Task>, id: string) {
    GetTaskById(tasks, id).Some?
  }

  /** `ids.map(getTaskById).filter(Boolean)`: the tasks the ids resolve to, in
      the order of the ids; an id that resolves to nothing is dropped. */
  function ResolveIds(tasks: seq<Task>, ids: seq<string>): (r: seq<Task>)
    ensures |r| == |Filter(ids, (id: string) => Resolvable(tasks, id))|
    ensures forall t :: t in r ==> t in tasks && t.id in ids
    ensures forall id :: id in ids && Resolvable(tasks, id) ==> GetTaskById(tasks, id).value in r
    ensures Subsequence(TaskIds(r), ids)
    ensures TaskIds(r) == Filter(ids, (id: string) => Resolvable(tasks, id))
    ensures forall t :: t in r ==> GetTaskById(tasks, t.id) == Some(t)
    decreases |ids|
  {
    if ids == [] then []
    else
      var rest := ResolveIds(tasks, ids[1..]);
      match GetTaskById(tasks, ids[0])
      case Some(t) =>
        assert TaskIds([t] + rest) == [t.id] + TaskIds(rest);
        [t] + rest
      case None => rest
  }

  /** getTaskDependencies: nothing for an unknown task, otherwise the
      resolvable entries of its `dependsOn`. */
  function GetTaskDependencies(tasks: seq<Task>, taskId: string): (r: seq<Task>)
    ensures GetTaskById(tasks, taskId).None? ==> r == []
    ensures GetTaskById(tasks, taskId).Some? ==>
      var deps := GetTaskById(tasks, taskId).value.dependsOn;
      && |r| <= |deps|
      && (forall t :: t in r ==> t in tasks && t.id in deps)
      && (forall id :: id in deps && Resolvable(tasks, id) ==> GetTaskById(tasks, id).value in r)
      && Subsequence(TaskIds(r), deps)
  {
    match GetTaskById(tasks, taskId)
    case None => []
    case Some(task) => ResolveIds(tasks, task.dependsOn)
  }

  /** getDependentTasks: every task that lists the id among its dependencies. */
  function GetDependentTasks(tasks: seq<Task>, taskId: string): (r: seq<Task>)
    ensures forall t :: t in r <==> t in tasks && taskId in t.dependsOn
    ensures Subsequence(r, tasks)
  {
    Filter(tasks, (t: Task) => taskId in t.dependsOn)
  }

  /** The two dependency queries are inverse edges of one graph: with unique
      ids, B is among A's dependencies exactly when B is a task and A is among
      the dependents of B's id. */
  lemma DependenciesAreInverse(tasks: seq<Task>, i: nat, b: Task)
    requires UniqueIds(tasks) && i < |tasks|
    ensures b in GetTaskDependencies(tasks, tasks[i].id) <==>
            b in tasks && tasks[i] in GetDependentTasks(tasks, b.id)
  {
    var a := tasks[i];
    UniqueLookup(tasks, i);
    if b in tasks && a in GetDependentTasks(tasks, b.id) {
      var j :| 0 <= j < |tasks| && tasks[j] == b;
      UniqueLookup(tasks, j);
      assert Resolvable(tasks, b.id);
    }
  }

  /** A dependency list with one resolvable and one dangling id yields just
      the resolved task. */
  lemma DanglingDependencyDropped(tasks: seq<Task>, i: nat, missing: string)
    requires UniqueIds(tasks) && i < |tasks|
    requires forall t :: t in tasks ==> t.id != missing
    ensures ResolveIds(tasks, [tasks[i].id, missing]) == [tasks[i]]
  {
    var ids := [tasks[i].id, missing];
    UniqueLookup(tasks, i);
    assert ids[1..] == [missing];
    DanglingIdResolvesToNothing(tasks, missing);
    assert ResolveIds(tasks, ids) == [tasks[i]] + ResolveIds(tasks, ids[1..]);
  }

  lemma DanglingIdResolvesToNothing(tasks: seq<Task>, missing: string)
    requires forall t :: t in tasks ==> t.id != missing
    ensures ResolveIds(tasks, [missing]) == []
  {
    assert GetTaskById(tasks, missing).None?;
    assert [missing][1..] == [];
  }

  // ----- the initial board -----

  /** The ids of the tasks with the given status, in dataset order. */
  function ColumnTaskIds(tasks: seq<Task>, s: Status): seq<string> {
    TaskIds(GetTasksByStatus(tasks, s))
  }

  function InitialColumn(tasks: seq<Task>, s: Status): Column {
    Column(s, ColumnTitle(s), ColumnColor(s), ColumnTaskIds(tasks, s))
  }

  /** initialBoard: one column per status, in the fixed order. */
  function InitialBoard(tasks: seq<Task>): (b: Board)
    ensures StandardColumns(b.columns)
  {
    Board([InitialColumn(tasks, Todo), InitialColumn(tasks, InProgress),
           InitialColumn(tasks, Review), InitialColumn(tasks, Completed)])
  }

  /** Exactly one column per status, in the order of `Statuses`. */
  predicate StandardColumns(cols: seq<Column>) {
    |cols| == 4 && forall i :: 0 <= i < 4 ==> cols[i].id == Statuses[i]
  }

  /** The first task with this id has status `s`. */
  predicate HasStatus(tasks: seq<Task>, id: string, s: Status) {
    match FindTaskIndex(tasks, id)
    case Some(j) => tasks[j].status == s
    case None => false
  }

  /** The board invariant: the columns are the four status columns, task ids
      are unique, no column repeats an id, every id in a column names a task
      with that column's status, and every task sits in its status's column. */
  predicate Consistent(tasks: seq<Task>, cols: seq<Column>) {
    && StandardColumns(cols)
    && UniqueIds(tasks)
    && (forall i :: 0 <= i < 4 ==> NoDuplicates(cols[i].taskIds))
    && (forall i, id :: 0 <= i < 4 && id in cols[i].taskIds ==> HasStatus(tasks, id, Statuses[i]))
    && (forall j :: 0 <= j < |tasks| ==> tasks[j].id in cols[ColumnIndex(tasks[j].status)].taskIds)
  }

  /** Under the invariant, a task's id is in a column exactly when that column
      is its status's column, and there it appears once. */
  lemma ExactlyOneColumn(tasks: seq<Task>, cols: seq<Column>, j: nat, i: nat)
    requires Consistent(tasks, cols) && j < |tasks| && i < 4
    ensures tasks[j].id in cols[i].taskIds <==> Statuses[i] == tasks[j].status
    ensures forall a, b :: 0 <= a < b < |cols[i].taskIds| ==> cols[i].taskIds[a] != cols[i].taskIds[b]
  {
    if tasks[j].id in cols[i].taskIds {
      UniqueLookup(tasks, j);
      assert HasStatus(tasks, tasks[j].id, Statuses[i]);
    }
  }

  /** The ids of a filtered set of tasks with unique ids are themselves unique. */
  lemma {:induction false} FilteredIdsUnique(tasks: seq<Task>, s: Status)
    requires UniqueIds(tasks)
    ensures NoDuplicates(ColumnTaskIds(tasks, s))
  {
    var sel := GetTasksByStatus(tasks, s);
    var ids := TaskIds(sel);
    forall a, b | 0 <= a < b < |ids| ensures ids[a] != ids[b] {
      SubsequenceIdsUnique(sel, tasks, a, b);
    }
  }

  /** Two positions of a subsequence of uniquely identified tasks hold different ids. */
  lemma {:induction false} SubsequenceIdsUnique(sub: seq<Task>, tasks: seq<Task>, a: nat, b: nat)
    requires UniqueIds(tasks) && Subsequence(sub, tasks) && a < b < |sub|
    ensures sub[a].id != sub[b].id
    decreases |tasks|
  {
    if sub[0] == tasks[0] && Subsequence(sub[1..], tasks[1..]) {
      assert UniqueIds(tasks[1..]);
      if a == 0 {
        assert sub[b] == sub[1..][b - 1];
        SubsequenceMember(sub[1..], tasks[1..], b - 1);
        var k :| 0 <= k < |tasks[1..]| && tasks[1..][k] == sub[b];
        assert tasks[k + 1] == sub[b];
      } else {
        SubsequenceIdsUnique(sub[1..], tasks[1..], a - 1, b - 1);
      }
    } else {
      assert UniqueIds(tasks[1..]);
      SubsequenceIdsUnique(sub, tasks[1..], a, b);
    }
  }

  /** Every element of a subsequence occurs in the sequence. */
  lemma {:induction false} SubsequenceMember<T>(sub: seq<T>, s: seq<T>, a: nat)
    requires Subsequence(sub, s) && a < |sub|
    ensures exists k :: 0 <= k < |s| && s[k] == sub[a]
    decreases |s|
  {
    if sub[0] == s[0] && Subsequence(sub[1..], s[1..]) {
      if a > 0 {
        SubsequenceMember(sub[1..], s[1..], a - 1);
        var k :| 0 <= k < |s[1..]| && s[1..][k] == sub[1..][a - 1];
        assert s[k + 1] == sub[a];
      }
    } else {
      SubsequenceMember(sub, s[1..], a);
      var k :| 0 <= k < |s[1..]| && s[1..][k] == sub[a];
      assert s[k + 1] == sub[a];
    }
  }

  /** initialBoard satisfies the board invariant: with unique ids, its four
      columns partition the task ids by status. */
  lemma InitialBoardConsistent(tasks: seq<Task>)
    requires UniqueIds(tasks)
    ensures Consistent(tasks, InitialBoard(tasks).columns)
  {
    var cols := InitialBoard(tasks).columns;
    forall i | 0 <= i < 4 ensures NoDuplicates(cols[i].taskIds) {
      InitialColumnAt(tasks, i);
      FilteredIdsUnique(tasks, Statuses[i]);
    }
    forall i, id | 0 <= i < 4 && id in cols[i].taskIds
      ensures HasStatus(tasks, id, Statuses[i])
    {
      InitialColumnAt(tasks, i);
      InitialColumnMember(tasks, Statuses[i], id);
    }
    forall j | 0 <= j < |tasks|
      ensures tasks[j].id in cols[ColumnIndex(tasks[j].status)].taskIds
    {
      InitialColumnAt(tasks, ColumnIndex(tasks[j].status));
      InitialColumnComplete(tasks, j);
    }
  }

  lemma InitialColumnAt(tasks: seq<Task>, i: nat)
    requires i < 4
    ensures InitialBoard(tasks).columns[i].taskIds == ColumnTaskIds(tasks, Statuses[i])
  {
  }

  lemma InitialColumnMember(tasks: seq<Task>, s: Status, id: string)
    requires UniqueIds(tasks) && id in ColumnTaskIds(tasks, s)
    ensures HasStatus(tasks, id, s)
  {
    var sel := GetTasksByStatus(tasks, s);
    var k :| 0 <= k < |sel| && TaskIds(sel)[k] == id;
    assert sel[k] in tasks;
    var j :| 0 <= j < |tasks| && tasks[j] == sel[k];
    UniqueLookup(tasks, j);
  }

  lemma InitialColumnComplete(tasks: seq<Task>, j: nat)
    requires j < |tasks|
    ensures tasks[j].id in ColumnTaskIds(tasks, tasks[j].status)
  {
    var sel := GetTasksByStatus(tasks, tasks[j].status);
    assert tasks[j] in sel;
    var k :| 0 <= k < |sel| && sel[k] == tasks[j];
    assert TaskIds(sel)[k] == tasks[j].id;
  }

  /** Taking ids keeps the subsequence relation between two task lists. */
  lemma {:induction false} SubsequenceIds(a: seq<Task>, b: seq<Task>)
    requires Subsequence(a, b)
    ensures Subsequence(TaskIds(a), TaskIds(b))
    decreases |b|
  {
    if a != [] {
      assert TaskIds(b)[1..] == TaskIds(b[1..]);
      if a[0] == b[0] && Subsequence(a[1..], b[1..]) {
        SubsequenceIds(a[1..], b[1..]);
        assert TaskIds(a)[1..] == TaskIds(a[1..]);
      } else {
        SubsequenceIds(a, b[1..]);
      }
    }
  }

  /** The ids a column starts with are exactly those of the tasks with its status. */
  lemma ColumnTaskIdsExactly(tasks: seq<Task>, s: Status)
    ensures forall id :: id in ColumnTaskIds(tasks, s) <==>
      exists j :: 0 <= j < |tasks| && tasks[j].id == id && tasks[j].status == s
  {
    var sel := GetTasksByStatus(tasks, s);
    forall id
      ensures id in TaskIds(sel) <==> exists j :: 0 <= j < |tasks| && tasks[j].id == id && tasks[j].status == s
    {
      if id in TaskIds(sel) {
        var k :| 0 <= k < |sel| && TaskIds(sel)[k] == id;
        assert sel[k] in tasks;
        var j :| 0 <= j < |tasks| && tasks[j] == sel[k];
        assert tasks[j].id == id && tasks[j].status == s;
      }
      if exists j :: 0 <= j < |tasks| && tasks[j].id == id && tasks[j].status == s {
        var j :| 0 <= j < |tasks| && tasks[j].id == id && tasks[j].status == s;
        InitialColumnComplete(tasks, j);
      }
    }
  }

  /**
   * Each initial column lists, in dataset order, exactly the ids of the
   * dataset's tasks with that column's status.
   */
  lemma InitialBoardKeepsOrder(tasks: seq<Task>, i: nat)
    requires i < 4
    ensures Subsequence(InitialBoard(tasks).columns[i].taskIds, TaskIds(tasks))
    ensures forall id :: id in InitialBoard(tasks).columns[i].taskIds <==>
      exists j :: 0 <= j < |tasks| && tasks[j].id == id && tasks[j].status == Statuses[i]
  {
    InitialColumnAt(tasks, i);
    SubsequenceIds(GetTasksByStatus(tasks, Statuses[i]), tasks);
    ColumnTaskIdsExactly(tasks, Statuses[i]);
  }

  // ----- analytics buckets -----

  datatype Bucket = Bucket(name: string, value: nat)

  datatype Analytics = Analytics(tasksByStatus: seq<Bucket>, tasksByPriority: seq<Bucket>, tasksByAssignee: seq<Bucket>)

  /** The chart labels of the status buckets, in the order of `Statuses`. */
  const StatusNames: seq<string> := ["To Do", "In Progress", "Review", "Completed"]

  /** The four priorities, from lowest to highest, and their chart labels. */
  const Priorities: seq<Priority> := [Low, Medium, High, Critical]
  const PriorityNames: seq<string> := ["Low", "Medium", "High", "Critical"]

  /** The computed buckets of analyticsData (the trend and estimation series are literals). */
  function AnalyticsData(tasks: seq<Task>, users: seq<User>): (a: Analytics)
    ensures |a.tasksByStatus| == 4 && |a.tasksByPriority| == 4 && |a.tasksByAssignee| == |users|
    ensures forall k :: 0 <= k < 4 ==>
      a.tasksByStatus[k] == Bucket(StatusNames[k], |GetTasksByStatus(tasks, Statuses[k])|)
    ensures forall k :: 0 <= k < 4 ==>
      a.tasksByPriority[k] == Bucket(PriorityNames[k], |GetTasksByPriority(tasks, Priorities[k])|)
    ensures forall k :: 0 <= k < |users| ==>
      a.tasksByAssignee[k] == Bucket(users[k].name, |GetTasksByAssignee(tasks, users[k].id)|)
  {
    Analytics(
      seq(4, k requires 0 <= k < 4 => Bucket(StatusNames[k], |GetTasksByStatus(tasks, Statuses[k])|)),
      seq(4, k requires 0 <= k < 4 => Bucket(PriorityNames[k], |GetTasksByPriority(tasks, Priorities[k])|)),
      Map(users, (u: User) => Bucket(u.name, |GetTasksByAssignee(tasks, u.id)|)))
  }

  function BucketTotal(bs: seq<Bucket>): nat
    decreases |bs|
  {
    if bs == [] then 0 else bs[0].value + BucketTotal(bs[1..])
  }

  /** Every task has exactly one status: the status counts add up to the number of tasks. */
  lemma {:induction false} StatusCountsSum(tasks: seq<Task>)
    ensures |GetTasksByStatus(tasks, Todo)| + |GetTasksByStatus(tasks, InProgress)|
          + |GetTasksByStatus(tasks, Review)| + |GetTasksByStatus(tasks, Completed)| == |tasks|
    decreases |tasks|
  {
    if tasks != [] {
      StatusCountsSum(tasks[1..]);
    }
  }

  /** Every task has exactly one priority: the priority counts add up to the number of tasks. */
  lemma {:induction false} PriorityCountsSum(tasks: seq<Task>)
    ensures |GetTasksByPriority(tasks, Low)| + |GetTasksByPriority(tasks, Medium)|
          + |GetTasksByPriority(tasks, High)| + |GetTasksByPriority(tasks, Critical)| == |tasks|
    decreases |tasks|
  {
    if tasks != [] {
      PriorityCountsSum(tasks[1..]);
    }
  }

  /** The status and the priority buckets of analyticsData each total the number of tasks. */
  lemma AnalyticsTotals(tasks: seq<Task>, users: seq<User>)
    ensures BucketTotal(AnalyticsData(tasks, users).tasksByStatus) == |tasks|
    ensures BucketTotal(AnalyticsData(tasks, users).tasksByPriority) == |tasks|
  {
    StatusCountsSum(tasks);
    PriorityCountsSum(tasks);
    var a := AnalyticsData(tasks, users);
    FourBucketTotal(a.tasksByStatus);
    FourBucketTotal(a.tasksByPriority);
  }

  lemma FourBucketTotal(bs: seq<Bucket>)
    requires |bs| == 4
    ensures BucketTotal(bs) == bs[0].value + bs[1].value + bs[2].value + bs[3].value
  {
    assert BucketTotal(bs[3..]) == bs[3].value + BucketTotal(bs[4..]);
    assert BucketTotal(bs[2..]) == bs[2].value + BucketTotal(bs[3..]) by { assert bs[2..][1..] == bs[3..]; }
    assert BucketTotal(bs[1..]) == bs[1].value + BucketTotal(bs[2..]) by { assert bs[1..][1..] == bs[2..]; }
  }
}
