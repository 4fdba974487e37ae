/** The per-card conditions of the kanban card: due soon, overdue, the
    focus-mode highlight, the tone of the due-date label and the progress bar. */
module TaskCard {
  import opened Common
  import opened TaskData

  /** 48 hours in milliseconds. */
  const FortyEightHoursMs: int := 48 * 60 * 60 * 1000

  /** A dated task whose due time is less than 48 hours away, or already past. */
  predicate IsDueSoon(task: Task, now: int) {
    task.dueDate.Some? && task.dueDate.value - now < FortyEightHoursMs
  }

  /** A dated, unfinished task whose due time has passed. */
  predicate IsOverdue(task: Task, now: int) {
    task.dueDate.Some? && task.dueDate.value < now && task.status != Completed
  }

  /** Every overdue card is also flagged as due soon. */
  lemma OverdueImpliesDueSoon(task: Task, now: int)
    requires IsOverdue(task, now)
    ensures IsDueSoon(task, now)
  {
  }

  /** The card's "due soon" has no lower bound: any past due date counts,
      finished or not, while the dashboard's due-soon list starts at now. */
  lemma PastDueCountsAsDueSoon(tasks: seq<Task>, task: Task, now: int)
    requires task.dueDate.Some? && task.dueDate.value < now
    ensures IsDueSoon(task, now)
    ensures task !in GetTasksDueSoon(tasks, now)
  {
  }

  /** The card's overdue flag selects exactly the dashboard's overdue list. */
  lemma OverdueAgreesWithDashboard(tasks: seq<Task>, now: int)
    ensures GetOverdueTasks(tasks, now) == Filter(tasks, (t: Task) => IsOverdue(t, now))
  {
    FilterCongruent(tasks, (t: Task) => !(t.dueDate.None? || t.status == Completed) && t.dueDate.value < now,
                    (t: Task) => IsOverdue(t, now));
  }

  /** The focus-mode highlight: focus mode on, and the task is high or
      critical priority or due soon. */
  predicate FocusHighlighted(task: Task, focusMode: bool, now: int) {
    focusMode && (task.priority == High || task.priority == Critical || IsDueSoon(task, now))
  }

  /** A card is never highlighted outside focus mode, and in focus mode every
      overdue card is highlighted. */
  lemma HighlightFacts(task: Task, focusMode: bool, now: int)
    ensures !focusMode ==> !FocusHighlighted(task, focusMode, now)
    ensures focusMode && IsOverdue(task, now) ==> FocusHighlighted(task, focusMode, now)
  {
  }

  datatype Tone = Destructive | Orange | Muted

  /** The colour of the due-date label; there is no label without a due date. */
  function DueLabelTone(task: Task, now: int): (r: Option<Tone>)
    ensures r.None? <==> task.dueDate.None?
    ensures r == Some(Destructive) <==> IsOverdue(task, now)
    ensures r == Some(Orange) <==> IsDueSoon(task, now) && !IsOverdue(task, now)
    ensures r == Some(Muted) <==> task.dueDate.Some? && !IsDueSoon(task, now)
  {
    if task.dueDate.None? then None
    else if IsOverdue(task, now) then Some(Destructive)
    else if IsDueSoon(task, now) then Some(Orange)
    else Some(Muted)
  }

  /** The progress bar: shown with the completion percentage exactly when the
      task has subtasks. */
  function ProgressBar(task: Task): (r: Option<nat>)
    ensures r.Some? <==> task.subtasks != []
    ensures r.Some? ==> r.value == GetTaskCompletionPercentage(task) && r.value <= 100
  {
    if |task.subtasks| > 0 then Some(GetTaskCompletionPercentage(task)) else None
  }
}
