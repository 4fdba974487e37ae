/** The task detail dialog: the stopwatch's clock display, and the editors
    that tick subtasks off and append comments and subtasks to the open task. */
module TaskDetail {
  import opened Common
  import opened Strings
  import opened TaskData
  import opened Clock

  // ----- the clock display -----

  /** Hours, minutes and seconds of a duration given in seconds. */
  function ClockParts(seconds: nat): (hms: (nat, nat, nat))
    ensures hms.1 < 60 && hms.2 < 60
    ensures 3600 * hms.0 + 60 * hms.1 + hms.2 == seconds
  {
    var h, rest := seconds / 3600, seconds % 3600;
    assert seconds == 3600 * h + rest;
    var m, s := rest / 60, rest % 60;
    assert rest == 60 * m + s;
    (h, m, s)
  }

  /** The split into hours, minutes and seconds is the only one with minutes
      and seconds below 60. */
  lemma ClockPartsUnique(seconds: nat, h: nat, m: nat, s: nat)
    requires m < 60 && s < 60 && 3600 * h + 60 * m + s == seconds
    ensures ClockParts(seconds) == (h, m, s)
  {
    var hms := ClockParts(seconds);
    var dh, dm := h - hms.0, m - hms.1;
    assert 3600 * dh + 60 * dm + (s - hms.2) == 0;
    assert -3600 < 60 * dm + (s - hms.2) < 3600;
    assert dh == 0;
    assert dm == 0;
  }

  /** `formatTime`: HH:MM:SS, the hours growing past two digits after 99. */
  function FormatTime(seconds: nat): (r: string)
    ensures |r| >= 8
    ensures seconds < 360000 <==> |r| == 8
    ensures IsClockDisplay(r)
  {
    var hms := ClockParts(seconds);
    SplitPaddedFields(hms.0, hms.1, hms.2);
    TwoDigits(hms.0) + [':'] + TwoDigits(hms.1) + [':'] + TwoDigits(hms.2)
  }

  /** The display reads back as the number of seconds it shows. */
  lemma FormatTimeRoundTrip(seconds: nat)
    ensures ParseTime(FormatTime(seconds)) == Some(seconds)
  {
    var hms := ClockParts(seconds);
    assert FormatTime(seconds) == TwoDigits(hms.0) + [':'] + TwoDigits(hms.1) + [':'] + TwoDigits(hms.2);
    ParsePaddedFields(hms.0, hms.1, hms.2, seconds);
  }

  /** Padded fields joined by colons split back into those fields. */
  lemma SplitPaddedFields(h: nat, m: nat, s: nat)
    ensures Split(TwoDigits(h) + [':'] + TwoDigits(m) + [':'] + TwoDigits(s), ':')
         == [TwoDigits(h), TwoDigits(m), TwoDigits(s)]
  {
    NoColonInNumeral(TwoDigits(h));
    NoColonInNumeral(TwoDigits(m));
    NoColonInNumeral(TwoDigits(s));
    SplitThree(TwoDigits(h), TwoDigits(m), TwoDigits(s));
  }

  /** Padded hours, minutes and seconds read back as their number of seconds. */
  lemma ParsePaddedFields(h: nat, m: nat, s: nat, seconds: nat)
    requires m < 60 && s < 60 && 3600 * h + 60 * m + s == seconds
    ensures ParseTime(TwoDigits(h) + [':'] + TwoDigits(m) + [':'] + TwoDigits(s)) == Some(seconds)
  {
    SplitPaddedFields(h, m, s);
    TwoDigitsValue(h);
    TwoDigitsValue(m);
    TwoDigitsValue(s);
    ParseFieldValues(TwoDigits(h), TwoDigits(m), TwoDigits(s), h, m, s, seconds);
  }

  /** Every reading in the display's shape is the display of the number of
      seconds it denotes, so the display is exactly the readings of that shape. */
  lemma ParseTimeInverse(text: string)
    requires ParseTime(text).Some? && IsClockDisplay(text)
    ensures FormatTime(ParseTime(text).value) == text
  {
    var f := Split(text, ':');
    var seconds := ParseTime(text).value;
    ParsedFields(f);
    var h, m, s := FieldValue(f[0]).value, FieldValue(f[1]).value, FieldValue(f[2]).value;
    if |f[0]| == 2 {
      TwoDigitCanonical(f[0]);
    } else {
      LongFieldCanonical(f[0]);
    }
    TwoDigitCanonical(f[1]);
    TwoDigitCanonical(f[2]);
    ClockPartsUnique(seconds, h, m, s);
    SplitJoin3(text);
  }

  // ----- editing the open task -----

  /** The subtask list with the completion of the `i`-th entry flipped. */
  function WithSubtaskToggled(subtasks: seq<SubTask>, i: nat): (r: seq<SubTask>)
    requires i < |subtasks|
    ensures |r| == |subtasks|
    ensures r[i] == subtasks[i].(completed := !subtasks[i].completed)
    ensures forall k :: 0 <= k < |r| && k != i ==> r[k] == subtasks[k]
  {
    subtasks[i := subtasks[i].(completed := !subtasks[i].completed)]
  }

  /** Ticking a subtask twice restores it. */
  lemma ToggleTwiceRestores(subtasks: seq<SubTask>, i: nat)
    requires i < |subtasks|
    ensures WithSubtaskToggled(WithSubtaskToggled(subtasks, i), i) == subtasks
  {
  }

  /** Ticking a subtask moves the completed count by exactly one. */
  lemma ToggleMovesCompletedCount(subtasks: seq<SubTask>, i: nat)
    requires i < |subtasks|
    ensures CompletedCount(WithSubtaskToggled(subtasks, i))
         == CompletedCount(subtasks) + if subtasks[i].completed then -1 else 1
  {
    var r := WithSubtaskToggled(subtasks, i);
    assert subtasks == subtasks[..i] + [subtasks[i]] + subtasks[i + 1..];
    assert r == subtasks[..i] + [r[i]] + subtasks[i + 1..];
    FilterConcat(subtasks[..i] + [subtasks[i]], subtasks[i + 1..], IsDone);
    FilterConcat(subtasks[..i], [subtasks[i]], IsDone);
    FilterConcat(subtasks[..i] + [r[i]], subtasks[i + 1..], IsDone);
    FilterConcat(subtasks[..i], [r[i]], IsDone);
  }

  /** The comment `addComment` posts at time `now`: it is attributed to the
      current user, "user-1", and keeps the text as typed. */
  function NewComment(text: string, now: nat): Comment {
    Comment("comment-" + NatToString(now), "user-1", text, now)
  }

  /** The subtask `addSubtask` creates at time `now`, open, with the title as typed. */
  function NewSubtask(title: string, now: nat): SubTask {
    SubTask("subtask-" + NatToString(now), title, false)
  }

  /** Comments posted at different times get different ids. */
  lemma CommentIdsDiffer(text1: string, text2: string, t1: nat, t2: nat)
    requires t1 != t2
    ensures NewComment(text1, t1).id != NewComment(text2, t2).id
  {
    if NewComment(text1, t1).id == NewComment(text2, t2).id {
      PrefixedNumeralInjective("comment-", t1, t2);
    }
  }

  /** Adding an open subtask leaves the completed count alone. */
  lemma AddOpenSubtaskKeepsCompletedCount(subtasks: seq<SubTask>, st: SubTask)
    requires !st.completed
    ensures CompletedCount(subtasks + [st]) == CompletedCount(subtasks)
    ensures |subtasks + [st]| == |subtasks| + 1
  {
    FilterConcat(subtasks, [st], IsDone);
  }

  class TaskDetailState {
    var task: Task
    var newComment: string
    var newSubtask: string

    constructor (task: Task)
      ensures this.task == task && newComment == [] && newSubtask == []
    {
      this.task := task;
      newComment := [];
      newSubtask := [];
    }

    /** `toggleSubtask` on the `i`-th subtask. */
    method ToggleSubtask(i: nat)
      requires i < |task.subtasks|
      modifies this`task
      ensures task == old(task).(subtasks := WithSubtaskToggled(old(task.subtasks), i))
    {
      task := task.(subtasks := WithSubtaskToggled(task.subtasks, i));
    }

    /** `addComment`: a blank comment is ignored; otherwise the comment is
        appended and the input cleared. */
    method AddComment(now: nat)
      modifies this`task, this`newComment
      ensures IsBlank(old(newComment)) ==> task == old(task) && newComment == old(newComment)
      ensures !IsBlank(old(newComment)) ==>
        && task == old(task).(comments := old(task.comments) + [NewComment(old(newComment), now)])
        && newComment == []
    {
      TrimEmptyIffBlank(newComment);
      if Trim(newComment) == [] {
        return;
      }
      task := task.(comments := task.comments + [NewComment(newComment, now)]);
      newComment := [];
    }

    /** `addSubtask`: a blank title is ignored; otherwise an open subtask is
        appended and the input cleared. */
    method AddSubtask(now: nat)
      modifies this`task, this`newSubtask
      ensures IsBlank(old(newSubtask)) ==> task == old(task) && newSubtask == old(newSubtask)
      ensures !IsBlank(old(newSubtask)) ==>
        && task == old(task).(subtasks := old(task.subtasks) + [NewSubtask(old(newSubtask), now)])
        && newSubtask == []
    {
      TrimEmptyIffBlank(newSubtask);
      if Trim(newSubtask) == [] {
        return;
      }
      task := task.(subtasks := task.subtasks + [NewSubtask(newSubtask, now)]);
      newSubtask := [];
    }
  }
}
