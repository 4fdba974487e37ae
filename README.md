# Kanban dashboard core, modelled in Dafny

This project models the logic at the heart of a project-management dashboard
with a kanban board. It covers:

- the entity model and queries of its data layer (`lib/data.ts`): users,
  tasks with subtasks, comments and dependencies, the four-column board, the
  lookups and filters, the completion percentage, and the dependency graph;
- the kanban board (`components/project-board.tsx`): the per-column and list
  views under the search box and the priority filter, and moving a task
  between columns by drag and drop;
- deleting a task and creating a task from the form's payload;
- the "Create New Task" form (`components/task-form.tsx`): its state, the tag
  and subtask editors, the estimate input, reset, and the payload;
- the team view (`components/team-view.tsx`): the user search, each user's
  tasks, the workload percentage and its colour band, and the three-task
  preview;
- the task detail dialog (`components/task-detail.tsx`): the `HH:MM:SS` timer
  display, and ticking off subtasks and appending comments and subtasks;
- the card's conditions (`components/task-card.tsx`): due soon, overdue, the
  focus-mode highlight, the due-label colour and the progress bar.

Modules:

| module | file | contents |
|---|---|---|
| `Common` | `common.dfy` | `Option`, `Filter` with its lemmas, `Subsequence`, `NoDuplicates`, and `Math.round` of a percentage as exact round-half-up |
| `Strings` | `strings.dfy` | JavaScript's `trim` (the full whitespace set), ASCII lower-casing, `includes`, decimal `toString`, `padStart` with zeros, and `split`/`join` |
| `TaskData` | `data.dfy` | the data layer: entities, the getters, `initialBoard`, `analyticsData`, and the board invariant `Consistent` |
| `TaskCard` | `task_card.dfy` | the card's due-soon and overdue conditions, the highlight, the label tone and the progress bar |
| `TeamView` | `team_view.dfy` | the team view's search, task lists, workload and preview |
| `TaskForm` | `task_form.dfy` | the form as the class `TaskFormState`, plus the pure list updates that specify its methods |
| `Clock` | `clock.dfy` | a reader for `HH:MM:SS` text. It is an independent reference that the display is proved against, not code of the dashboard |
| `TaskDetail` | `task_detail.dfy` | `formatTime`, and the dialog as the class `TaskDetailState` |
| `ProjectBoard` | `project_board.dfy` | the board as the class `ProjectBoardState`, plus the pure column and task-list updates that specify its handlers |

Component state that the source updates step by step (React `useState`
hooks and the module-level `tasks` array) is a field of a class. Each
handler is a method whose `ensures` gives the new state as a function of
the old one. Lemmas prove what matters about those functions. The main one
is the board invariant `TaskData.Consistent`:

- the columns are the four status columns, in order;
- task ids are unique;
- no column repeats an id;
- every id in a column names a task with that column's status;
- every task is listed in the column of its status.

The initial board, a drop, a deletion and (for a fresh id) a creation all
keep this invariant.

Time is an integer number of milliseconds since the epoch, and "now" is a
parameter. Ids built from `Date.now()` are built from that parameter, so
they are exact (`"task-" + decimal(now)`).

## Model

| member | source | states |
|---|---|---|
| TaskData.ColumnIndex | lib/data.ts:471-498 | each status has a column position below 4, and the status list holds that status there |
| TaskData.TaskIds | lib/data.ts:477 | `tasks.map(t => t.id)`: same length, with the i-th id that of the i-th task |
| TaskData.FindTaskIndex | components/project-board.tsx:123-124 | `findIndex` by id: if found, the position is the first one holding that id; not found exactly when no task has that id |
| TaskData.GetTaskById | lib/data.ts:539-541 | not found exactly when no task has the id; otherwise the task returned is in the dataset, has the id, and is the first such |
| TaskData.UniqueLookup | lib/data.ts:539-541 | when ids are unique, looking up a task's own id finds that task at its own position |
| TaskData.GetUserById | lib/data.ts:534-536 | not found exactly when no user has the id; otherwise a user with that id, ahead of every other user with that id |
| TaskData.GetTasksByAssignee | lib/data.ts:544-546 | holds exactly the dataset's tasks assigned to the user, in dataset order |
| TaskData.GetTasksByStatus | lib/data.ts:549-551 | holds exactly the tasks with the status, in dataset order |
| TaskData.GetTasksByPriority | lib/data.ts:554-556 | holds exactly the tasks with the priority, in dataset order |
| TaskData.GetPinnedTasks | lib/data.ts:559-561 | holds exactly the pinned tasks, in dataset order |
| TaskData.GetTasksDueSoon | lib/data.ts:564-574 | holds exactly the dated tasks due no earlier than now and no later than three days after now, of any status, in order |
| TaskData.GetOverdueTasks | lib/data.ts:577-585 | holds exactly the dated, uncompleted tasks due before now, in order |
| TaskData.DueSoonAndOverdueDisjoint | lib/data.ts:564-585 | no task is in both lists at the same instant |
| TaskData.CompletedCount | lib/data.ts:589-590 | the number of completed subtasks, at most the number of subtasks |
| TaskData.GetTaskCompletionPercentage | lib/data.ts:588-592 | 0 without subtasks; otherwise the completed share in percent, rounded to the nearest integer (halves up); always at most 100 |
| TaskData.AllSubtasksDoneIsHundred | lib/data.ts:588-592 | a task with subtasks, all of them completed, is at exactly 100 |
| TaskData.NoSubtaskDoneIsZero | lib/data.ts:588-592 | a task with no completed subtask is at exactly 0 |
| TaskData.ResolveIds | lib/data.ts:599 | `ids.map(getTaskById).filter(Boolean)`: the ids of the result are exactly the list's resolvable ids, in list order and with repeats kept; each task is what looking up its own id returns |
| TaskData.GetTaskDependencies | lib/data.ts:595-600 | empty for an unknown task; otherwise the resolvable entries of its `dependsOn`, in order, with dangling ids skipped |
| TaskData.GetDependentTasks | lib/data.ts:603-605 | holds exactly the tasks whose `dependsOn` lists the id, in order |
| TaskData.DependenciesAreInverse | lib/data.ts:595-605 | with unique ids, b is a dependency of a exactly when a is a dependent of b and b is in the dataset |
| TaskData.DanglingDependencyDropped | lib/data.ts:599 | a dependency list holding a known id and an unknown id resolves to just the known task |
| TaskData.InitialBoard | lib/data.ts:471-498 | one column per status, in the order todo, in-progress, review, completed |
| TaskData.InitialBoardConsistent | lib/data.ts:471-498 | with unique task ids, the initial board satisfies the board invariant |
| TaskData.InitialBoardKeepsOrder | lib/data.ts:471-498 | each initial column's ids are a subsequence of the dataset's ids, and an id is in the column exactly when some task of the dataset has that id and the column's status |
| TaskData.SubsequenceIds | lib/data.ts:477 | taking the ids of two task lists keeps the first a subsequence of the second |
| TaskData.ColumnTaskIdsExactly | lib/data.ts:477 | the ids a column is built with are exactly the ids of the tasks with its status |
| TaskData.ExactlyOneColumn | lib/data.ts:60-69 | under the invariant, a task's id is in a column exactly when the column's status is the task's, and no column repeats an id |
| TaskData.AnalyticsData | lib/data.ts:501-517 | the status buckets are labelled "To Do", "In Progress", "Review", "Completed" and hold the number of tasks with that status; the priority buckets are labelled "Low", "Medium", "High", "Critical" and hold the number of tasks with that priority; each user has a bucket with their name and number of assigned tasks |
| TaskData.AnalyticsTotals | lib/data.ts:502-513 | the status buckets and the priority buckets each add up to the number of tasks |
| TaskData.StatusCountsSum | lib/data.ts:503-506 | the four status filters partition the dataset |
| TaskData.PriorityCountsSum | lib/data.ts:509-512 | the four priority filters partition the dataset |
| Common.FilterCounts | lib/data.ts:545 | `filter` keeps every element the predicate accepts as many times as it occurs in the input, and no other |
| Common.RoundedPercent | lib/data.ts:591 | `Math.round(part / whole * 100)` on exact rationals: within half a unit of the exact percentage, and at most 100 for a share of at most the whole |
| Strings.TrimStart | components/task-form.tsx:85 | the leading half of `trim()`: a suffix of the input whose removed prefix is all whitespace, and which does not start with whitespace |
| Strings.TrimEnd | components/task-form.tsx:85 | the trailing half of `trim()`: a prefix of the input whose removed suffix is all whitespace, and which does not end with whitespace |
| Strings.Trim | components/task-form.tsx:85 | `trim()`: no whitespace at either end, and no longer than the input; `TrimIsSlice` proves it is exactly the input with its blank ends removed |
| Strings.TrimIsSlice | components/task-form.tsx:85 | the trimmed text is the slice of the input left after removing a blank prefix and a blank suffix |
| Strings.TrimmedIsFixed | components/task-form.tsx:85 | a text with no whitespace at either end is its own trim |
| Strings.TrimEmptyIffBlank | components/task-form.tsx:85 | the trimmed text is empty exactly when the input is all whitespace |
| Strings.TrimIdempotent | components/task-form.tsx:85-86 | trimming twice is trimming once |
| Strings.Lower | components/project-board.tsx:49-50 | `toLowerCase()`: same length, each character lower-cased in the ASCII range and kept otherwise |
| Strings.IncludesIffOccurs | components/project-board.tsx:49-50 | `includes` holds exactly when the needle occurs at some position |
| Strings.IncludesEmpty | components/team-view.tsx:35-40 | every string includes the empty string |
| Strings.NatToString | components/task-detail.tsx:66-68 | `toString()` of a count: non-empty, all digits, and it reads back as the number; one digit exactly below 10, at most two exactly below 100; `NatToStringNoLeadingZero` proves there is no leading zero |
| Strings.NatToStringOfValue | components/task-detail.tsx:66-68 | a numeral without a leading zero is exactly how its value prints |
| Strings.NatToStringNoLeadingZero | components/task-detail.tsx:66-68 | only zero is written with a leading `0` |
| Strings.NatToStringInjective | components/project-board.tsx:375 | different numbers have different decimal forms |
| Strings.PrefixedNumeralInjective | components/project-board.tsx:375 | ids of the form prefix + decimal differ for different clock readings |
| Strings.PadStartZeros | components/task-detail.tsx:66-68 | `padStart(n, "0")`: as long as the text or n, whichever is more, and ending with the text |
| Strings.PadStartZerosValue | components/task-detail.tsx:66-68 | zero-padding a numeral gives a numeral with the same value |
| ProjectBoard.FindColumnIndex | components/project-board.tsx:42 | `columns.find` by status: the first such column, none exactly when no column has the status, and on standard columns the status's fixed position |
| ProjectBoard.MatchesSearch | components/project-board.tsx:44-55 | the search test: an empty query, or the lower-cased query inside the lower-cased title or description; `BoardAndListAgree` and `ListViewTasks` state what it selects |
| ProjectBoard.MatchesFilters | components/project-board.tsx:44-55 | the search test and the priority filter together |
| ProjectBoard.GetFilteredTasks | components/project-board.tsx:39-57 | empty when no column has the status; otherwise the column's tasks that resolve and pass the search and priority filter, in column order, skipping dangling ids |
| ProjectBoard.ListViewTasks | components/project-board.tsx:279-289 | holds exactly the tasks passing the search and priority filter, in dataset order |
| ProjectBoard.ProjectBoardState.ViewsAgree | components/project-board.tsx:39-57 | on a valid board state, a column's visible tasks are exactly the listed tasks with that status |
| ProjectBoard.BoardAndListAgree | components/project-board.tsx:39-57 | on a consistent board, a column shows exactly the list view's tasks with that column's status |
| ProjectBoard.RemoveId | components/project-board.tsx:95 | `taskIds.filter(x => x !== id)`: every other id kept in order, no copy of `id` left, no repeats introduced |
| ProjectBoard.WithoutId | components/project-board.tsx:130-133 | every column keeps its status, title and colour and loses `id`, the other ids staying in order |
| ProjectBoard.AppendTo | components/project-board.tsx:99-107 | same number of columns, each keeping its status, title and colour; a column with the target status has exactly the id appended to its ids, every other column is unchanged |
| ProjectBoard.Dropped | components/project-board.tsx:93-107 | the two column maps of a drop, one after the other |
| ProjectBoard.DroppedColumn | components/project-board.tsx:93-107 | one column after a drop: its other ids in their old order, then the dropped id last if it is the target, with no repeats introduced |
| ProjectBoard.DropPlacement | components/project-board.tsx:93-107 | after a drop, every column keeps its status, title and colour; the id is in a column exactly when that column is the target, and there it is last and appears once; every other id stays where it was, in order, and no column gains a repeat |
| ProjectBoard.DroppedConsistent | components/project-board.tsx:77-112 | columns placed as a drop places them, with the task's status changed to the target, satisfy the board invariant |
| ProjectBoard.WithStatus | components/project-board.tsx:87 | `task.status = columnId`: only that task changes, only its status, and the ids are unchanged |
| ProjectBoard.DropKeepsConsistent | components/project-board.tsx:77-112 | a drop keeps the board invariant |
| ProjectBoard.TasksAfterDelete | components/project-board.tsx:123-126 | `splice` at the first match: the list without that position, or the same list when the id is absent |
| ProjectBoard.DeleteRemovesOnlyThatTask | components/project-board.tsx:121-139 | with unique ids, the deleted id can no longer be found and every other task remains |
| ProjectBoard.DeleteKeepsUnique | components/project-board.tsx:123-126 | a deletion keeps task ids unique |
| ProjectBoard.DeleteKeepsStatus | components/project-board.tsx:123-126 | a task the deletion spares is still found under its id with its status |
| ProjectBoard.DeleteKeepsConsistent | components/project-board.tsx:121-139 | a deletion keeps the board invariant |
| ProjectBoard.CompleteTask | components/project-board.tsx:375-389 | the complete task carries the form's payload unchanged, the id `task-<now>`, the creation time `now`, the creator "user-1", no actual hours, comments, attachments or dependencies, and it is neither pinned nor a template |
| ProjectBoard.PushToColumn | components/project-board.tsx:396-399 | the first column with the status gets the id appended; every other column is unchanged |
| ProjectBoard.CreateKeepsConsistent | components/project-board.tsx:373-403 | appending a task under a fresh id and pushing its id into its status's column keeps the board invariant |
| ProjectBoard.CreateFromTitleOnly | components/project-board.tsx:373-403 | a form submitted with only a title (all else at its initial value) creates a to-do task of medium priority with no assignee, due date, tags or subtasks; the board stays consistent and the new id is in the to-do column and in no other |
| ProjectBoard.NewTaskId | components/project-board.tsx:375 | `task-${Date.now()}` with the clock reading as a parameter; different readings give different ids (through `Strings.PrefixedNumeralInjective`) |
| ProjectBoard.DraggedIndex | components/project-board.tsx:80-84 | nothing to drop when no id is dragged, the id is empty, or no task has it; otherwise the first task with the id |
| ProjectBoard.ProjectBoardState.constructor | components/project-board.tsx:28-36 | the initial board over the dataset, an empty search, the "all" filter, nothing selected, open or dragged, and focus mode off; the board invariant holds |
| ProjectBoard.ProjectBoardState.HandleTaskClick | components/project-board.tsx:60-63 | the clicked task is selected and the detail dialog opens; nothing else changes |
| ProjectBoard.ProjectBoardState.HandleDragStart | components/project-board.tsx:66-68 | the dragged id is recorded |
| ProjectBoard.ProjectBoardState.HandleDragOver | components/project-board.tsx:71-74 | the hovered column is recorded |
| ProjectBoard.ProjectBoardState.HandleDragEnd | components/project-board.tsx:115-118 | the drag state is cleared |
| ProjectBoard.ProjectBoardState.HandleDrop | components/project-board.tsx:77-112 | with nothing to drop, nothing changes; otherwise the task takes the column's status, the columns are `Dropped`, the drag state is cleared, and the board invariant is kept |
| ProjectBoard.ProjectBoardState.HandleDeleteTask | components/project-board.tsx:121-139 | the task list loses the task, every column loses the id, the selection is cleared, the dialog closes, and the board invariant is kept |
| ProjectBoard.ProjectBoardState.DeleteFromDetail | components/task-detail.tsx:320-323 | the dialog's Delete button deletes the displayed task's own id, with the same effect as `HandleDeleteTask`: the task and its id go, the selection clears and the dialog closes, while the form flag, drag state, search, filter and focus mode stay as they were |
| ProjectBoard.ProjectBoardState.HandleCreate | components/project-board.tsx:373-403 | the complete task is appended, its id goes into its status's column, the form closes, and the invariant is kept when the id is fresh |
| ProjectBoard.ProjectBoardState.SubmitForm | components/project-board.tsx:373-403 | the form's submit wired to the board's create handler: with an empty title neither changes; otherwise the form's payload becomes a complete task appended to the list, its id is pushed into its status's column, the form dialog closes and the form resets, and the invariant is kept for a fresh id; the selection, detail dialog, drag state, search, filter and focus mode stay as they were |
| TaskForm.NewSubtaskId | components/task-form.tsx:57 | `new-subtask-${index}`; different indices give different ids (through `Strings.PrefixedNumeralInjective`) |
| TaskForm.NewSubtasks | components/task-form.tsx:55-59 | one open subtask per title, same order and titles, the i-th with id `new-subtask-<i>`, so the ids are pairwise distinct |
| TaskForm.MakePayload | components/task-form.tsx:46-62 | title, description, status, priority, due date, estimate, tags and the recurring flag passed through; the subtasks are `NewSubtasks` of the titles; no assignee id when no assignee is chosen or its id is empty; a recurrence pattern exactly when recurring |
| TaskForm.TagsAfterAdd | components/task-form.tsx:84-89 | the list changes exactly when the trimmed input is non-empty and not yet a tag, and then by appending it |
| TaskForm.AddTagKeepsValid | components/task-form.tsx:84-89 | adding keeps the tags distinct, trimmed and non-empty |
| TaskForm.AppendTagValid | components/task-form.tsx:84-89 | appending a non-empty, trimmed tag not yet in a valid list keeps it valid |
| TaskForm.AddTagIdempotent | components/task-form.tsx:84-89 | adding the same input twice is adding it once |
| TaskForm.TagsAfterRemove | components/task-form.tsx:91-93 | every copy of the tag goes, and the others stay in order |
| TaskForm.RemoveTagKeepsValid | components/task-form.tsx:91-93 | removing keeps the tags distinct, trimmed and non-empty |
| TaskForm.RemoveUndoesAdd | components/task-form.tsx:84-93 | removing a tag that was just added restores the list |
| TaskForm.SubtasksAfterAdd | components/task-form.tsx:95-100 | the list changes exactly when the input is not blank, and then by appending the trimmed input |
| TaskForm.RemoveAt | components/task-form.tsx:102-104 | `filter((_, i) => i !== index)`: the entry at the index goes and the rest shift down; an index out of range changes nothing |
| TaskForm.AddSubtaskKeepsValid | components/task-form.tsx:95-100 | adding keeps every subtask title trimmed and non-empty |
| TaskForm.RemoveSubtaskKeepsValid | components/task-form.tsx:102-104 | removing keeps every subtask title trimmed and non-empty |
| TaskForm.RemoveAtUndoesAdd | components/task-form.tsx:95-104 | removing the subtask just added restores the list |
| TaskForm.EstimateFromInput | components/task-form.tsx:246 | `Number(value) \|\| undefined`: no estimate for input that is not a number or is zero; otherwise the number itself |
| TaskForm.TaskFormState.constructor | components/task-form.tsx:29-41 | the initial form state |
| TaskForm.TaskFormState.ResetForm | components/task-form.tsx:68-82 | every input back to its initial value |
| TaskForm.TaskFormState.SetEstimatedHours | components/task-form.tsx:246 | the estimate becomes `EstimateFromInput` of the input, and the form's invariant holds |
| TaskForm.TaskFormState.AddTag | components/task-form.tsx:84-89 | the tags become `TagsAfterAdd`, and the input box is cleared exactly when a tag was added |
| TaskForm.TaskFormState.RemoveTag | components/task-form.tsx:91-93 | the tags become `TagsAfterRemove` |
| TaskForm.TaskFormState.AddSubtask | components/task-form.tsx:95-100 | the subtasks become `SubtasksAfterAdd`, and the input box is cleared exactly when one was added |
| TaskForm.TaskFormState.RemoveSubtask | components/task-form.tsx:102-104 | the subtasks become `RemoveAt` of the index |
| TaskForm.TaskFormState.Submit | components/task-form.tsx:43-66 | with an empty title (the field is `required`, line 123) nothing is submitted and nothing changes; otherwise the current payload is submitted and the form resets |
| TeamView.UserMatches | components/team-view.tsx:36-39 | the search test: the lower-cased query inside the lower-cased name, role or department; `FilteredUsers` and `EmptySearchKeepsEveryone` state what it selects |
| TeamView.FilteredUsers | components/team-view.tsx:35-40 | holds exactly the users whose lower-cased name, role or department includes the lower-cased query, in order |
| TeamView.EmptySearchKeepsEveryone | components/team-view.tsx:35-40 | an empty search lists every user |
| TeamView.GetUserTasks | components/team-view.tsx:43-45 | holds exactly the user's tasks that the priority filter admits, in order; under "all" it is all the user's tasks |
| TeamView.CalculateWorkload | components/team-view.tsx:48-55 | 20 per in-progress or in-review task, capped at 100 |
| TeamView.WorkloadIgnoresIdleTasks | components/team-view.tsx:48-55 | adding a to-do or completed task anywhere in the dataset changes no user's workload |
| TeamView.WorkloadBand | components/team-view.tsx:196 | red above 80, orange above 60, green otherwise; `BandByActiveTasks` restates it in active tasks |
| TeamView.BandByActiveTasks | components/team-view.tsx:196 | the workload is red with five or more active tasks, orange with four, and green with fewer |
| TeamView.PreviewTasks | components/team-view.tsx:215 | `slice(0, 3)`: the first tasks in order, at most three, and all of them when there are no more than three |
| TeamView.ViewAllExactlyWhenTruncated | components/team-view.tsx:237 | "view all" appears exactly when the preview leaves a task out |
| Clock.TwoDigits | components/task-detail.tsx:66-68 | `toString().padStart(2, "0")`: all digits, exactly two characters below 100 and at least two always; from 100 on the plain decimal numeral, so a field longer than two never starts with `0`; `TwoDigitsValue` proves it reads back as the number |
| Clock.LongFieldCanonical | components/task-detail.tsx:66 | an hours field of three or more digits without a leading zero is the padded numeral of its value |
| TaskDetail.ClockParts | components/task-detail.tsx:61-63 | hours, minutes and seconds with minutes and seconds below 60, adding back up to the duration |
| TaskDetail.ClockPartsUnique | components/task-detail.tsx:61-63 | that split is the only one with minutes and seconds below 60 |
| TaskDetail.FormatTime | components/task-detail.tsx:60-70 | at least eight characters, and exactly eight below 100 hours; the display has the `HH:MM:SS` shape: three colon-separated fields, minutes and seconds of two characters, hours of two or more with no leading zero past the padding |
| TaskDetail.FormatTimeRoundTrip | components/task-detail.tsx:60-70 | the display reads back as the number of seconds it shows |
| TaskDetail.ParseTimeInverse | components/task-detail.tsx:60-70 | every reading of the display's shape (two-digit fields, or an hours field of more digits without a leading zero) is the display of the duration it denotes, so the displays are exactly those readings |
| TaskDetail.WithSubtaskToggled | components/task-detail.tsx:73-76 | only the chosen subtask changes, and only its completion flag |
| TaskDetail.ToggleTwiceRestores | components/task-detail.tsx:73-76 | ticking a subtask twice restores the list |
| TaskDetail.ToggleMovesCompletedCount | components/task-detail.tsx:73-76 | a tick moves the completed count by exactly one, up or down |
| TaskDetail.NewComment | components/task-detail.tsx:83-87 | the comment `addComment` posts: id `comment-<now>`, author "user-1", the text as typed, created at now; `CommentIdsDiffer` proves the ids distinct across clock readings |
| TaskDetail.NewSubtask | components/task-detail.tsx:98-102 | the subtask `addSubtask` creates: id `subtask-<now>`, the title as typed, open; `AddOpenSubtaskKeepsCompletedCount` proves it adds no completed subtask |
| TaskDetail.CommentIdsDiffer | components/task-detail.tsx:83 | comments posted at different clock readings get different ids |
| TaskDetail.AddOpenSubtaskKeepsCompletedCount | components/task-detail.tsx:98-104 | appending an open subtask adds one subtask and no completed one |
| TaskDetail.TaskDetailState.constructor | components/task-detail.tsx:47-50 | the dialog opens on the task with empty comment and subtask inputs |
| TaskDetail.TaskDetailState.ToggleSubtask | components/task-detail.tsx:73-76 | the task's subtasks become `WithSubtaskToggled` |
| TaskDetail.TaskDetailState.AddComment | components/task-detail.tsx:79-92 | a blank comment changes nothing; otherwise the comment from "user-1" with the text as typed is appended and the input cleared |
| TaskDetail.TaskDetailState.AddSubtask | components/task-detail.tsx:95-107 | a blank title changes nothing; otherwise an open subtask with the title as typed is appended and the input cleared |
| TaskCard.IsDueSoon | components/task-card.tsx:21 | a dated task due less than 48 hours after now, with no lower bound; `PastDueCountsAsDueSoon` and `OverdueImpliesDueSoon` state its consequences |
| TaskCard.IsOverdue | components/task-card.tsx:24-25 | a dated, unfinished task due before now; `OverdueAgreesWithDashboard` proves it selects the data layer's overdue list |
| TaskCard.FocusHighlighted | components/task-card.tsx:31 | in focus mode, a high or critical task or one due soon; `HighlightFacts` states its consequences |
| TaskCard.OverdueImpliesDueSoon | components/task-card.tsx:21-25 | every overdue card is also flagged due soon |
| TaskCard.PastDueCountsAsDueSoon | components/task-card.tsx:21 | the card's due-soon test has no lower bound: a past due date counts, although the data layer's due-soon list excludes it |
| TaskCard.OverdueAgreesWithDashboard | components/task-card.tsx:24-25 | the card's overdue test selects exactly the data layer's overdue list |
| TaskCard.HighlightFacts | components/task-card.tsx:31 | no highlight outside focus mode; in focus mode every overdue card is highlighted |
| TaskCard.DueLabelTone | components/task-card.tsx:101 | no label without a due date; red exactly when overdue, orange exactly when due soon but not overdue, muted otherwise |
| TaskCard.ProgressBar | components/task-card.tsx:52 | the bar is shown exactly when the task has subtasks, and its value is the task's completion percentage, at most 100 |

## Left out

- Rendering, styling, icons, dialogs' open/close plumbing beyond the flags
  above, and the gantt and calendar views are not modelled. The same goes
  for the utility helpers.
- The mock `users` and `tasks` datasets are not reproduced: every query takes
  the task and user lists as parameters. The `completionTrend` and
  `timeEstimationAccuracy` series of `analyticsData` are fixed literals and
  are left out.
- Dates: ISO timestamps and due dates are integer milliseconds. `new Date()`
  is the parameter `now`, and `createdAt` is that number rather than an ISO
  string. `getTasksDueSoon` adds three calendar days in local time
  (`setDate`). The model adds 3 × 86 400 000 ms, which differs across a
  daylight-saving change.
- Ids from `Date.now()` are built from the `now` parameter. That two
  creations see different clock readings, and that a new task id is not
  already taken, is not something the source ensures.
- ProjectBoard.ProjectBoardState.HandleCreate: keeps the board invariant only
  when the new id is fresh. The same-millisecond collision is not modelled.
- Numbers: `Math.round` is modelled as exact round-half-up on rationals, not
  IEEE-754 division and rounding. Estimated hours are `real`, and
  `Number(text)` parsing is reduced to "a number or not".
- `toLowerCase` is modelled for ASCII letters only. Unicode case mapping is
  not modelled, but `trim` covers JavaScript's whole whitespace set.
- The detail dialog's timer (`toggleTimer`, `setInterval`) is not modelled.
  Only the display of a number of seconds is.
- Aliasing is not modelled. The source mutates shared task objects in
  place: `task.status = columnId` on the dataset's task, and the detail
  dialog pushing into the task it was handed. It also pushes into a column
  array that the previous board state shares (`column.taskIds.push`). Tasks
  and columns are values here, so each update is a new value stored in the
  owning field. The dialog's edits are not seen by the board's task list,
  and the old board state is not changed by creation.
- Text inputs' `onChange` setters other than the estimate are plain field
  assignments and are not listed separately.
- `Clock.ParseTime` is not code of the dashboard. It is a reference reader
  for `HH:MM:SS`, used to state that `formatTime` loses nothing.
