/**
 * The task-list owner: an ordered list of task names and the pending, not yet
 * submitted name typed into the form. Adding submits the pending name; removing
 * deletes the task at a position, as the presenter of that task reports it.
 */
module TaskManagerComponent {
  import opened JsString
  import opened JsArray

  /** The list every task manager starts with. */
  const InitialTasks: seq<string> := ["Crear lista inicial", "Revisar tareas pendientes"]

  /** A name the list can hold once it came in through `AddTask`: non-empty, with no white space at either end. */
  predicate IsTaskName(t: string)
  {
    t != [] && IsTrimmed(t)
  }

  class TaskManager {
    var tasks: seq<string>
    var newTaskName: string

    /** Every task is a trimmed, non-empty name. Nothing requires it; the operations keep it. */
    ghost predicate Valid()
      reads this
    {
      forall t :: t in tasks ==> IsTaskName(t)
    }

    constructor ()
      ensures tasks == InitialTasks && newTaskName == ""
      ensures Valid()
    {
      tasks := InitialTasks;
      newTaskName := "";
    }

    /**
     * Submits the pending name. A name that trims to something non-empty is appended,
     * trimmed, at the end, and the pending name is cleared; a blank one changes nothing.
     */
    method AddTask()
      modifies this
      ensures Trim(old(newTaskName)) != [] ==>
                tasks == old(tasks) + [Trim(old(newTaskName))] && newTaskName == ""
      ensures Trim(old(newTaskName)) == [] ==>
                tasks == old(tasks) && newTaskName == old(newTaskName)
      ensures |tasks| == |old(tasks)| + 1 <==> !AllWhitespace(old(newTaskName))
      ensures |old(tasks)| <= |tasks| <= |old(tasks)| + 1 && tasks[..|old(tasks)|] == old(tasks)
      ensures |tasks| > |old(tasks)| ==> IsTaskName(tasks[|tasks| - 1])
      ensures old(Valid()) ==> Valid()
    {
      var trimmedName := Trim(newTaskName);
      TrimEmptyIff(newTaskName);
      if trimmedName != [] {
        tasks := tasks + [trimmedName];
        newTaskName := "";
      }
    }

    /**
     * Deletes the task at `index` as `tasks.splice(index, 1)` does: within the list the
     * element at `index` goes and the later ones move down one place; at or past the end
     * nothing happens; a negative index counts back from the end.
     */
    method RemoveTask(index: int)
      modifies this`tasks
      ensures tasks == Splice(old(tasks), index, 1).rest
      ensures 0 <= index < |old(tasks)| ==> tasks == old(tasks)[..index] + old(tasks)[index + 1..]
      ensures 0 <= index < |old(tasks)| ==> |tasks| == |old(tasks)| - 1
      ensures index >= |old(tasks)| ==> tasks == old(tasks)
      ensures -|old(tasks)| <= index < 0 ==>
                tasks == old(tasks)[..|old(tasks)| + index] + old(tasks)[|old(tasks)| + index + 1..]
      ensures newTaskName == old(newTaskName)
      ensures old(Valid()) ==> Valid()
    {
      ghost var before := tasks;
      tasks := Splice(tasks, index, 1).rest;
      SpliceKeepsOnlyOriginal(before, index, 1);
      if 0 <= index < |before| {
        RemoveOneInRange(before, index);
      } else if index >= |before| {
        RemoveOnePastEnd(before, index);
      } else if -|before| <= index {
        RemoveOneFromEnd(before, index);
      }
    }
  }

  /** Submitting a name of spaces only leaves the list and the pending name as they were. */
  method BlankSubmission()
  {
    var m := new TaskManager();
    m.newTaskName := "  ";
    assert AllWhitespace(m.newTaskName);
    TrimEmptyIff(m.newTaskName);
    m.AddTask();
    assert m.tasks == InitialTasks && m.newTaskName == "  ";
  }

  /** Submitting a padded name appends it without the padding and clears the pending name. */
  method PaddedSubmission()
  {
    var m := new TaskManager();
    m.newTaskName := " Estudiar ";
    assert m.newTaskName == [' '] + "Estudiar" + [' '];
    TrimOfPadded([' '], "Estudiar", [' ']);
    m.AddTask();
    assert m.tasks == InitialTasks + ["Estudiar"] && m.newTaskName == "";
  }

  /** Completing position 1 of `["A", "B", "C"]` leaves `["A", "C"]`; a position past the end changes nothing. */
  method CompleteMiddleTask()
  {
    var m := new TaskManager();
    m.tasks := ["A", "B", "C"];
    m.RemoveTask(1);
    assert m.tasks == ["A", "C"];
    m.RemoveTask(5);
    assert m.tasks == ["A", "C"];
  }
}
