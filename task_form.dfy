/** The "Create New Task" dialog: the form's state, the tag and subtask
    editors, and the payload it hands to the board on submission. */
module TaskForm {
  import opened Common
  import opened Strings
  import opened TaskData

  /** What the form submits: a task without the fields the board fills in. */
  datatype NewTask = NewTask(
    title: string,
    description: string,
    status: Status,
    priority: Priority,
    assigneeId: Option<string>,
    dueDate: Option<int>,
    estimatedHours: Option<real>,
    tags: seq<string>,
    subtasks: seq<SubTask>,
    isRecurring: bool,
    recurringPattern: Option<RecurringPattern>)

  /** `new-subtask-${index}` */
  function NewSubtaskId(index: nat): string {
    "new-subtask-" + NatToString(index)
  }

  /** The subtask titles become fresh, open subtasks with distinct ids. */
  function NewSubtasks(titles: seq<string>): (r: seq<SubTask>)
    ensures |r| == |titles|
    ensures forall i :: 0 <= i < |r| ==> r[i].id == NewSubtaskId(i)
    ensures forall i :: 0 <= i < |r| ==> r[i].title == titles[i] && !r[i].completed
    ensures forall i, j :: 0 <= i < j < |r| ==> r[i].id != r[j].id
  {
    var r := seq(|titles|, i requires 0 <= i < |titles| => SubTask(NewSubtaskId(i), titles[i], false));
    forall i, j | 0 <= i < j < |r| ensures r[i].id != r[j].id {
      if r[i].id == r[j].id {
        PrefixedNumeralInjective("new-subtask-", i, j);
      }
    }
    r
  }

  /** The payload of `handleSubmit`: an assignee whose id is empty counts as
      none, and a pattern is sent only for a recurring task. */
  function MakePayload(title: string, description: string, status: Status, priority: Priority,
                       assignee: Option<User>, date: Option<int>, estimatedHours: Option<real>,
                       tags: seq<string>, subtasks: seq<string>,
                       isRecurring: bool, pattern: RecurringPattern): (p: NewTask)
    ensures p.assigneeId.None? <==> assignee.None? || assignee.value.id == []
    ensures p.assigneeId.Some? ==> assignee.Some? && p.assigneeId.value == assignee.value.id
    ensures p.recurringPattern.Some? <==> isRecurring
    ensures p.recurringPattern.Some? ==> p.recurringPattern.value == pattern
    ensures p.title == title && p.description == description && p.status == status && p.priority == priority
    ensures p.isRecurring == isRecurring && p.dueDate == date && p.estimatedHours == estimatedHours && p.tags == tags
    ensures p.subtasks == NewSubtasks(subtasks)
    ensures |p.subtasks| == |subtasks|
    ensures forall i :: 0 <= i < |subtasks| ==> p.subtasks[i].title == subtasks[i] && !p.subtasks[i].completed
  {
    NewTask(
      title, description, status, priority,
      if assignee.Some? && assignee.value.id != [] then Some(assignee.value.id) else None,
      date, estimatedHours, tags, NewSubtasks(subtasks), isRecurring,
      if isRecurring then Some(pattern) else None)
  }

  /** The tag list after `addTag`: the trimmed input is appended when it is
      neither blank nor already present. */
  function TagsAfterAdd(tags: seq<string>, input: string): (r: seq<string>)
    ensures r == tags || r == tags + [Trim(input)]
    ensures r != tags <==> !IsBlank(input) && Trim(input) !in tags
  {
    TrimEmptyIffBlank(input);
    if Trim(input) != [] && Trim(input) !in tags then tags + [Trim(input)] else tags
  }

  /** The well-formed tag lists: distinct, trimmed, none empty. */
  predicate ValidTags(tags: seq<string>) {
    NoDuplicates(tags) && forall i :: 0 <= i < |tags| ==> tags[i] != [] && IsTrimmed(tags[i])
  }

  /** The well-formed subtask lists: trimmed and none empty. */
  predicate ValidSubtasks(subtasks: seq<string>) {
    forall i :: 0 <= i < |subtasks| ==> subtasks[i] != [] && IsTrimmed(subtasks[i])
  }

  lemma AddTagKeepsValid(tags: seq<string>, input: string)
    requires ValidTags(tags)
    ensures ValidTags(TagsAfterAdd(tags, input))
  {
    if TagsAfterAdd(tags, input) != tags {
      TrimEmptyIffBlank(input);
      AppendTagValid(tags, Trim(input));
    }
  }

  lemma AppendTagValid(tags: seq<string>, tag: string)
    requires ValidTags(tags) && tag != [] && IsTrimmed(tag) && tag !in tags
    ensures ValidTags(tags + [tag])
  {
    var r := tags + [tag];
    assert forall i :: 0 <= i < |tags| ==> r[i] == tags[i];
  }

  /** Adding the same input twice is the same as adding it once. */
  lemma AddTagIdempotent(tags: seq<string>, input: string)
    ensures TagsAfterAdd(TagsAfterAdd(tags, input), input) == TagsAfterAdd(tags, input)
  {
    var once := TagsAfterAdd(tags, input);
    if once != tags {
      assert Trim(input) in once by {
        assert once[|tags|] == Trim(input);
      }
    }
  }

  /** `removeTag`: every occurrence of the tag goes, the rest keep their order. */
  function TagsAfterRemove(tags: seq<string>, tag: string): (r: seq<string>)
    ensures forall t :: t in r <==> t in tags && t != tag
    ensures Subsequence(r, tags)
  {
    Filter(tags, (t: string) => t != tag)
  }

  lemma RemoveTagKeepsValid(tags: seq<string>, tag: string)
    requires ValidTags(tags)
    ensures ValidTags(TagsAfterRemove(tags, tag))
  {
    var r := TagsAfterRemove(tags, tag);
    FilterNoDuplicates(tags, (t: string) => t != tag);
    forall i | 0 <= i < |r| ensures r[i] != [] && IsTrimmed(r[i]) {
      assert r[i] in r;
      var j :| 0 <= j < |tags| && tags[j] == r[i];
    }
  }

  /** Removing a tag just added restores the list. */
  lemma {:induction false} RemoveUndoesAdd(tags: seq<string>, input: string)
    requires !IsBlank(input) && Trim(input) !in tags
    ensures TagsAfterRemove(TagsAfterAdd(tags, input), Trim(input)) == tags
  {
    var p := (t: string) => t != Trim(input);
    FilterConcat(tags, [Trim(input)], p);
    FilterKeepsAll(tags, p);
    FilterKeepsNone([Trim(input)], p);
  }

  /** The subtask list after `addSubtask`. */
  function SubtasksAfterAdd(subtasks: seq<string>, input: string): (r: seq<string>)
    ensures r == subtasks || r == subtasks + [Trim(input)]
    ensures r != subtasks <==> !IsBlank(input)
  {
    TrimEmptyIffBlank(input);
    if Trim(input) != [] then subtasks + [Trim(input)] else subtasks
  }

  /** `subtasks.filter((_, i) => i !== index)`: the entry at `index`, if any, is dropped. */
  function RemoveAt<T>(s: seq<T>, index: int): (r: seq<T>)
    ensures 0 <= index < |s| ==> |r| == |s| - 1
    ensures !(0 <= index < |s|) ==> r == s
    ensures 0 <= index < |s| ==> forall i :: 0 <= i < |r| ==> r[i] == if i < index then s[i] else s[i + 1]
  {
    if 0 <= index < |s| then s[..index] + s[index + 1..] else s
  }

  lemma AddSubtaskKeepsValid(subtasks: seq<string>, input: string)
    requires ValidSubtasks(subtasks)
    ensures ValidSubtasks(SubtasksAfterAdd(subtasks, input))
  {
  }

  lemma RemoveSubtaskKeepsValid(subtasks: seq<string>, index: int)
    requires ValidSubtasks(subtasks)
    ensures ValidSubtasks(RemoveAt(subtasks, index))
  {
  }

  /** Removing the subtask just added restores the list. */
  lemma RemoveAtUndoesAdd(subtasks: seq<string>, input: string)
    requires !IsBlank(input)
    ensures RemoveAt(SubtasksAfterAdd(subtasks, input), |subtasks|) == subtasks
  {
  }

  /** `Number(value) || undefined`: an input that is not a number (`None`) or
      is zero leaves the estimate unset. */
  function EstimateFromInput(value: Option<real>): (r: Option<real>)
    ensures r.Some? <==> value.Some? && value.value != 0.0
    ensures r.Some? ==> r == value
  {
    if value.Some? && value.value != 0.0 then value else None
  }

  class TaskFormState {
    var title: string
    var description: string
    var status: Status
    var priority: Priority
    var assignee: Option<User>
    var date: Option<int>
    var estimatedHours: Option<real>
    var tags: seq<string>
    var newTag: string
    var subtasks: seq<string>
    var newSubtask: string
    var isRecurring: bool
    var recurringPattern: RecurringPattern

    ghost predicate Valid()
      reads this
    {
      ValidTags(tags) && ValidSubtasks(subtasks) && estimatedHours != Some(0.0)
    }

    /** The state of a fresh or reset form. */
    ghost predicate IsInitial()
      reads this
    {
      && title == [] && description == [] && status == Todo && priority == Medium
      && assignee == None && date == None && estimatedHours == None
      && tags == [] && newTag == [] && subtasks == [] && newSubtask == []
      && !isRecurring && recurringPattern == Weekly
    }

    constructor ()
      ensures IsInitial() && Valid()
    {
      title, description, status, priority := [], [], Todo, Medium;
      assignee, date, estimatedHours := None, None, None;
      tags, newTag, subtasks, newSubtask := [], [], [], [];
      isRecurring, recurringPattern := false, Weekly;
    }

    /** The payload the form would submit now. */
    function Payload(): NewTask
      reads this
    {
      MakePayload(title, description, status, priority, assignee, date, estimatedHours,
                  tags, subtasks, isRecurring, recurringPattern)
    }

    /** `resetForm` */
    method ResetForm()
      modifies this
      ensures IsInitial() && Valid()
    {
      ResetDetails();
      ResetLists();
      ResetSchedule();
    }

    /** The title, description, status, priority and assignee inputs cleared. */
    method ResetDetails()
      modifies this`title, this`description, this`status, this`priority, this`assignee
      ensures title == [] && description == [] && status == Todo && priority == Medium && assignee == None
    {
      title, description, status, priority, assignee := [], [], Todo, Medium, None;
    }

    /** The tag and subtask lists and their input boxes cleared. */
    method ResetLists()
      modifies this`tags, this`newTag, this`subtasks, this`newSubtask
      ensures tags == [] && newTag == [] && subtasks == [] && newSubtask == []
    {
      tags, newTag, subtasks, newSubtask := [], [], [], [];
    }

    /** The due date, the estimate and the recurrence reset. */
    method ResetSchedule()
      modifies this`date, this`estimatedHours, this`isRecurring, this`recurringPattern
      ensures date == None && estimatedHours == None && !isRecurring && recurringPattern == Weekly
    {
      date, estimatedHours, isRecurring, recurringPattern := None, None, false, Weekly;
    }

    /** The estimated-hours input's `onChange`. */
    method SetEstimatedHours(value: Option<real>)
      requires Valid()
      modifies this`estimatedHours
      ensures Valid()
      ensures estimatedHours == EstimateFromInput(value)
    {
      estimatedHours := EstimateFromInput(value);
    }

    /** `addTag`: on success the input box is cleared, otherwise nothing changes. */
    method AddTag()
      requires Valid()
      modifies this`tags, this`newTag
      ensures Valid()
      ensures tags == TagsAfterAdd(old(tags), old(newTag))
      ensures newTag == if Trim(old(newTag)) != [] && Trim(old(newTag)) !in old(tags) then [] else old(newTag)
    {
      var t := Trim(newTag);
      AddTagKeepsValid(tags, newTag);
      if t != [] && t !in tags {
        tags := tags + [t];
        newTag := [];
      }
    }

    /** `removeTag` */
    method RemoveTag(tag: string)
      requires Valid()
      modifies this`tags
      ensures Valid()
      ensures tags == TagsAfterRemove(old(tags), tag)
    {
      RemoveTagKeepsValid(tags, tag);
      tags := TagsAfterRemove(tags, tag);
    }

    /** `addSubtask`: on success the input box is cleared, otherwise nothing changes. */
    method AddSubtask()
      requires Valid()
      modifies this`subtasks, this`newSubtask
      ensures Valid()
      ensures subtasks == SubtasksAfterAdd(old(subtasks), old(newSubtask))
      ensures newSubtask == if Trim(old(newSubtask)) != [] then [] else old(newSubtask)
    {
      var t := Trim(newSubtask);
      AddSubtaskKeepsValid(subtasks, newSubtask);
      if t != [] {
        subtasks := subtasks + [t];
        newSubtask := [];
      }
    }

    /** `removeSubtask` */
    method RemoveSubtask(index: int)
      requires Valid()
      modifies this`subtasks
      ensures Valid()
      ensures subtasks == RemoveAt(old(subtasks), index)
    {
      RemoveSubtaskKeepsValid(subtasks, index);
      subtasks := RemoveAt(subtasks, index);
    }

    /** `handleSubmit`. The title input is `required`, so the browser does not
        submit the form while it is empty; otherwise the payload goes out and
        the form is reset. */
    method Submit() returns (p: Option<NewTask>)
      requires Valid()
      modifies this
      ensures Valid()
      ensures old(title) == [] ==> p == None && unchanged(this)
      ensures old(title) != [] ==> p == Some(old(Payload())) && IsInitial()
    {
      if title == [] {
        return None;
      }
      p := Some(Payload());
      ResetForm();
    }
  }
}
