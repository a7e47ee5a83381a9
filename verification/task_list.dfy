/** The view side of `TaskList`: the two sections the list shows and the
    payload a checkbox tap sends back to the store. */
module TaskList {
  import opened Seqs
  import opened TaskContext

  /** One section of the list: a header title and the records under it. */
  datatype Section = Section(title: string, data: seq<Task>)

  /** The filter callbacks of the two sections. */
  function IsOpen(t: Task): bool { !t.completed }
  function IsDone(t: Task): bool { t.completed }

  /** `uncompletedTasks`: the records not yet completed, in store order. */
  function UncompletedTasks(tasks: seq<Task>): (r: seq<Task>)
    ensures forall t :: t in r <==> t in tasks && !t.completed
  {
    Filter(tasks, IsOpen)
  }

  /** `completedTasks`: the completed records, in store order. */
  function CompletedTasks(tasks: seq<Task>): (r: seq<Task>)
    ensures forall t :: t in r <==> t in tasks && t.completed
  {
    Filter(tasks, IsDone)
  }

  /** The two sections: open tasks under "Tasks" first, completed ones under
      "Completed" second; both are present even when empty, and between them
      they hold every record of the store exactly once. */
  function Sections(tasks: seq<Task>): (r: seq<Section>)
    ensures |r| == 2
    ensures r[0].title == "Tasks" && r[1].title == "Completed"
    ensures forall t :: t in r[0].data <==> t in tasks && !t.completed
    ensures forall t :: t in r[1].data <==> t in tasks && t.completed
    ensures multiset(r[0].data) + multiset(r[1].data) == multiset(tasks)
  {
    Partition(tasks);
    [Section("Tasks", UncompletedTasks(tasks)), Section("Completed", CompletedTasks(tasks))]
  }

  /** Every record lands in exactly one section, as often as it occurs in
      the store, and the two section lengths add up to the store's length. */
  lemma Partition(tasks: seq<Task>)
    ensures multiset(UncompletedTasks(tasks)) + multiset(CompletedTasks(tasks)) == multiset(tasks)
    ensures |UncompletedTasks(tasks)| + |CompletedTasks(tasks)| == |tasks|
    ensures forall t :: t in tasks ==> (t in UncompletedTasks(tasks) <==> t !in CompletedTasks(tasks))
  {
    FilterComplement(tasks, IsOpen, IsDone);
  }

  /** Both sections keep store order: sectioning a concatenation is
      sectioning each part and concatenating the results. */
  lemma SectionsKeepOrder(a: seq<Task>, b: seq<Task>)
    ensures UncompletedTasks(a + b) == UncompletedTasks(a) + UncompletedTasks(b)
    ensures CompletedTasks(a + b) == CompletedTasks(a) + CompletedTasks(b)
  {
    FilterAppend(a, b, IsOpen);
    FilterAppend(a, b, IsDone);
  }

  /** `handleComplete`'s payload `{ ...task, completed: !task.completed }`:
      the same record with its flag negated. */
  function CompletionPayload(task: Task): (r: Task)
    ensures r.id == task.id && r.title == task.title && r.description == task.description
    ensures r.completed != task.completed
  {
    task.(completed := !task.completed)
  }

  /** The store ignores the payload's flag, so tapping the checkbox of the
      record at position `i` (ids unique) flips that one stored record:
      the result is the tapped record's payload in its place. */
  lemma CompletionFlipsOnce(tasks: seq<Task>, i: int)
    requires UniqueIds(tasks) && 0 <= i < |tasks|
    ensures Updated(tasks, CompletionPayload(tasks[i]))
         == tasks[..i] + [CompletionPayload(tasks[i])] + tasks[i + 1..]
  {
    UpdatedAt(tasks, CompletionPayload(tasks[i]), i);
  }

  /** After the tap, the record leaves its section and joins the other one,
      keeping its place relative to the records around it. */
  lemma CompletionMovesSection(tasks: seq<Task>, i: int)
    requires UniqueIds(tasks) && 0 <= i < |tasks|
    ensures var moved := CompletionPayload(tasks[i]);
            var after := Updated(tasks, moved);
            && UncompletedTasks(after)
               == UncompletedTasks(tasks[..i]) + (if moved.completed then [] else [moved]) + UncompletedTasks(tasks[i + 1..])
            && CompletedTasks(after)
               == CompletedTasks(tasks[..i]) + (if moved.completed then [moved] else []) + CompletedTasks(tasks[i + 1..])
  {
    var moved := CompletionPayload(tasks[i]);
    var before, after := tasks[..i], tasks[i + 1..];
    CompletionFlipsOnce(tasks, i);
    SectionsKeepOrder(before + [moved], after);
    SectionsKeepOrder(before, [moved]);
    assert [moved][1..] == [];
    assert UncompletedTasks([moved]) == if moved.completed then [] else [moved];
    assert CompletedTasks([moved]) == if moved.completed then [moved] else [];
  }
}
