/** The team view's derived figures: the user search, each user's task list
    under the priority filter, the workload percentage and its colour band,
    and the three-task preview. */
module TeamView {
  import opened Common
  import opened Strings
  import opened TaskData

  /** The lower-cased query occurs in the lower-cased name, role or department. */
  predicate UserMatches(u: User, query: string) {
    || Includes(Lower(u.name), Lower(query))
    || Includes(Lower(u.role), Lower(query))
    || Includes(Lower(u.department), Lower(query))
  }

  /** filteredUsers: the users matching the search, in their original order. */
  function FilteredUsers(users: seq<User>, query: string): (r: seq<User>)
    ensures forall u :: u in r <==> u in users && UserMatches(u, query)
    ensures Subsequence(r, users)
  {
    Filter(users, (u: User) => UserMatches(u, query))
  }

  /** An empty search keeps every user, in order. */
  lemma EmptySearchKeepsEveryone(users: seq<User>)
    ensures FilteredUsers(users, []) == users
  {
    assert Lower([]) == [];
    forall u | u in users ensures UserMatches(u, []) {
      IncludesEmpty(Lower(u.name));
    }
    FilterKeepsAll(users, (u: User) => UserMatches(u, []));
  }

  /** getUserTasks: the user's assigned tasks that the priority filter admits. */
  function GetUserTasks(tasks: seq<Task>, userId: string, pf: PriorityFilter): (r: seq<Task>)
    ensures pf.AllPriorities? ==> r == GetTasksByAssignee(tasks, userId)
    ensures forall t :: t in r <==> t in tasks && t.assigneeId == Some(userId) && pf.Admits(t.priority)
    ensures Subsequence(r, GetTasksByAssignee(tasks, userId))
  {
    AdmitsAllKeepsAll(GetTasksByAssignee(tasks, userId), pf);
    Filter(GetTasksByAssignee(tasks, userId), (t: Task) => pf.Admits(t.priority))
  }

  lemma AdmitsAllKeepsAll(mine: seq<Task>, pf: PriorityFilter)
    ensures pf.AllPriorities? ==> Filter(mine, (t: Task) => pf.Admits(t.priority)) == mine
  {
    if pf.AllPriorities? {
      FilterKeepsAll(mine, (t: Task) => pf.Admits(t.priority));
    }
  }

  /** A task that counts towards workload. */
  predicate IsActive(t: Task) {
    t.status == InProgress || t.status == Review
  }

  function ActiveCount(userTasks: seq<Task>): nat {
    |Filter(userTasks, IsActive)|
  }

  function Min(a: int, b: int): int {
    if a <= b then a else b
  }

  /** calculateWorkload: each in-progress or in-review task is 20% (five
      make a full load), capped at 100; a user without tasks has none. */
  function CalculateWorkload(tasks: seq<Task>, userId: string): (w: nat)
    ensures w == Min(20 * ActiveCount(GetTasksByAssignee(tasks, userId)), 100)
    ensures w <= 100
  {
    var userTasks := GetTasksByAssignee(tasks, userId);
    if |userTasks| == 0 then
      FilterKeepsNone(userTasks, IsActive);
      0
    else
      var k := ActiveCount(userTasks);
      Min(RoundedPercent(k, 5), 100)
  }

  /** Tasks still to do or already completed never change anybody's workload,
      wherever they sit in the dataset. */
  lemma WorkloadIgnoresIdleTasks(before: seq<Task>, t: Task, after: seq<Task>, userId: string)
    requires t.status == Todo || t.status == Completed
    ensures CalculateWorkload(before + [t] + after, userId) == CalculateWorkload(before + after, userId)
  {
    var p := AssignedTo(userId);
    FilterConcat(before + [t], after, p);
    FilterConcat(before, [t], p);
    FilterConcat(before, after, p);
    var a, m, b := Filter(before, p), Filter([t], p), Filter(after, p);
    FilterConcat(a + m, b, IsActive);
    FilterConcat(a, m, IsActive);
    FilterConcat(a, b, IsActive);
    assert m == [] || m == [t];
    FilterKeepsNone(m, IsActive);
  }

  datatype Band = Red | Orange | Green

  /** The colour of the workload figure. */
  function WorkloadBand(w: int): Band {
    if w > 80 then Red else if w > 60 then Orange else Green
  }

  /** In terms of active tasks: five or more is red, four is orange, fewer is green. */
  lemma BandByActiveTasks(tasks: seq<Task>, userId: string)
    ensures var k := ActiveCount(GetTasksByAssignee(tasks, userId));
      WorkloadBand(CalculateWorkload(tasks, userId)) == if k >= 5 then Red else if k == 4 then Orange else Green
  {
  }

  /** `userTasks.slice(0, 3)`: the tasks shown on the user's card. */
  function PreviewTasks(userTasks: seq<Task>): (r: seq<Task>)
    ensures |r| <= 3 && |r| <= |userTasks| && r == userTasks[..|r|]
    ensures |userTasks| <= 3 ==> r == userTasks
  {
    userTasks[..Min(|userTasks|, 3)]
  }

  /** The "view all" button. */
  predicate ShowsViewAll(userTasks: seq<Task>) {
    |userTasks| > 3
  }

  /** "View all" appears exactly when the preview leaves some task out. */
  lemma ViewAllExactlyWhenTruncated(userTasks: seq<Task>)
    ensures ShowsViewAll(userTasks) <==> |PreviewTasks(userTasks)| < |userTasks|
  {
  }
}
