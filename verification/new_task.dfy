/** The creation form of `NewTask`: validation of the entered title and
    description, and the submission that hands a new record to the store. */
module NewTask {
  import opened TaskContext
  import opened TaskList

  /** The longest description the form accepts, in characters. */
  const MaxDescriptionLength: nat := 100

  /** Why a submission was refused. */
  datatype Rejection = EmptyTitle | DescriptionTooLong

  /** What a press of "Create Task" leads to: an alert, or a new record. */
  datatype Submission = Rejected(reason: Rejection) | Accepted(task: Task)

  /** The text of the alert shown for each rejection. */
  function AlertText(reason: Rejection): (msg: string)
    ensures msg != []
  {
    match reason
    case EmptyTitle => "You must enter a title"
    case DescriptionTooLong => "Description cannot exceed 100 characters"
  }

  /** The decision `handleSubmit` makes. The title is checked first, so an
      empty title is reported even when the description is also too long;
      a description of exactly the maximum length is accepted. `id` stands
      for the clock reading the form turns into the new record's id. */
  function Validate(id: string, title: string, description: string): (r: Submission)
    ensures r == Rejected(EmptyTitle) <==> |title| == 0
    ensures r == Rejected(DescriptionTooLong) <==> |title| != 0 && |description| > MaxDescriptionLength
    ensures r.Accepted? <==> |title| != 0 && |description| <= MaxDescriptionLength
    ensures r.Accepted? ==>
      && r.task.id == id && r.task.title == title && r.task.description == description
      && !r.task.completed
  {
    if |title| == 0 then Rejected(EmptyTitle)
    else if |description| > MaxDescriptionLength then Rejected(DescriptionTooLong)
    else Accepted(Task(id, title, description, false))
  }

  /** `handleSubmit`: on a rejection the store is not called; otherwise the
      new record is added to the store exactly once. */
  method HandleSubmit(store: TaskProvider, id: string, title: string, description: string)
    returns (r: Submission)
    modifies store
    ensures r == Validate(id, title, description)
    ensures r.Rejected? ==> store.tasks == old(store.tasks)
    ensures r.Accepted? ==> store.tasks == Added(old(store.tasks), r.task)
  {
    if |title| == 0 {
      return Rejected(EmptyTitle);
    } else if |description| > MaxDescriptionLength {
      return Rejected(DescriptionTooLong);
    }
    var newTask := Task(id, title, description, false);
    store.AddTask(newTask);
    return Accepted(newTask);
  }

  /** An accepted record joins the end of the "Tasks" section and leaves
      the "Completed" section as it was. */
  lemma SubmittedTaskIsOpen(tasks: seq<Task>, id: string, title: string, description: string)
    requires Validate(id, title, description).Accepted?
    ensures var t := Validate(id, title, description).task;
            && UncompletedTasks(Added(tasks, t)) == UncompletedTasks(tasks) + [t]
            && CompletedTasks(Added(tasks, t)) == CompletedTasks(tasks)
  {
    var t := Validate(id, title, description).task;
    SectionsKeepOrder(tasks, [t]);
    assert [t][1..] == [];
    assert UncompletedTasks([t]) == [t];
    assert CompletedTasks([t]) == [];
  }
}
