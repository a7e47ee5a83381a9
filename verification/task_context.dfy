/** The task store held by `TaskProvider`: an ordered sequence of task
    records and the three operations that replace it with a new sequence. */
module TaskContext {
  import opened Seqs

  /** A to-do item. Only `completed` ever changes after creation. */
  datatype Task = Task(id: string, title: string, description: string, completed: bool)

  /** No two records of the sequence share an id. The store itself never
      checks this; it is a hypothesis of the lemmas that need it. */
  ghost predicate UniqueIds(tasks: seq<Task>)
  {
    forall i, j :: 0 <= i < j < |tasks| ==> tasks[i].id != tasks[j].id
  }

  /** Some record of the sequence carries `id`. */
  ghost predicate HasId(tasks: seq<Task>, id: string)
  {
    exists i :: 0 <= i < |tasks| && tasks[i].id == id
  }

  // ---------------------------------------------------------------------
  // addTask: `[...tasks, task]`

  /** The sequence after `addTask(task)`: every old record in place, then
      `task` at the end, whatever its id. */
  function Added(tasks: seq<Task>, task: Task): (r: seq<Task>)
    ensures |r| == |tasks| + 1
    ensures r[..|tasks|] == tasks && r[|tasks|] == task
  {
    tasks + [task]
  }

  /** Adding keeps ids unique exactly when the new id is not yet held. */
  lemma AddedKeepsUnique(tasks: seq<Task>, task: Task)
    ensures UniqueIds(Added(tasks, task)) <==> UniqueIds(tasks) && !HasId(tasks, task.id)
  {
  }

  /** A series of `addTask` calls, one per element of `batch`, in order. */
  function AddedAll(tasks: seq<Task>, batch: seq<Task>): seq<Task>
    decreases |batch|
  {
    if batch == [] then tasks else AddedAll(Added(tasks, batch[0]), batch[1..])
  }

  /** A series of adds appends the whole batch in call order. */
  lemma {:induction false} AddedAllAppends(tasks: seq<Task>, batch: seq<Task>)
    ensures AddedAll(tasks, batch) == tasks + batch
    decreases |batch|
  {
    if batch == [] {
      assert tasks + batch == tasks;
    } else {
      AddedAllAppends(Added(tasks, batch[0]), batch[1..]);
      assert tasks + [batch[0]] + batch[1..] == tasks + batch;
    }
  }

  /** Starting from the empty store, adding tasks with pairwise distinct ids
      leaves one record per call, each id exactly once. */
  lemma AddedAllDistinct(batch: seq<Task>)
    requires UniqueIds(batch)
    ensures |AddedAll([], batch)| == |batch|
    ensures UniqueIds(AddedAll([], batch))
    ensures forall t :: t in batch ==> HasId(AddedAll([], batch), t.id)
  {
    AddedAllAppends([], batch);
    assert [] + batch == batch;
    forall t | t in batch
      ensures HasId(batch, t.id)
    {
      var i :| 0 <= i < |batch| && batch[i] == t;
    }
  }

  // ---------------------------------------------------------------------
  // updateTask: `tasks.map(t => t.id === task.id ? {...t, completed: !t.completed} : t)`

  /** The sequence after `updateTask(task)`: every record whose id equals
      `task.id` has its own `completed` flag negated; nothing else changes,
      and no field of `task` other than its id is read. */
  function Updated(tasks: seq<Task>, task: Task): (r: seq<Task>)
    ensures |r| == |tasks|
    ensures forall i :: 0 <= i < |tasks| ==>
      && r[i].id == tasks[i].id
      && r[i].title == tasks[i].title
      && r[i].description == tasks[i].description
      && r[i].completed == (if tasks[i].id == task.id then !tasks[i].completed else tasks[i].completed)
  {
    if tasks == [] then []
    else
      var t := tasks[0];
      [if t.id == task.id then t.(completed := !t.completed) else t] + Updated(tasks[1..], task)
  }

  /** An update whose id is not held leaves the sequence unchanged. */
  lemma UpdatedAbsent(tasks: seq<Task>, task: Task)
    requires !HasId(tasks, task.id)
    ensures Updated(tasks, task) == tasks
  {
  }

  /** Only the argument's id matters: two arguments with the same id
      produce the same sequence. */
  lemma UpdatedIgnoresPayload(tasks: seq<Task>, a: Task, b: Task)
    requires a.id == b.id
    ensures Updated(tasks, a) == Updated(tasks, b)
  {
  }

  /** Updating twice with the same id restores the original sequence. */
  lemma UpdatedTwice(tasks: seq<Task>, a: Task, b: Task)
    requires a.id == b.id
    ensures Updated(Updated(tasks, a), b) == tasks
  {
  }

  /** With unique ids, an update of the record at position `i` flips that
      one record and leaves every other position as it was. */
  lemma UpdatedAt(tasks: seq<Task>, task: Task, i: int)
    requires UniqueIds(tasks)
    requires 0 <= i < |tasks| && tasks[i].id == task.id
    ensures Updated(tasks, task)
         == tasks[..i] + [tasks[i].(completed := !tasks[i].completed)] + tasks[i + 1..]
  {
    var r := Updated(tasks, task);
    var e := tasks[..i] + [tasks[i].(completed := !tasks[i].completed)] + tasks[i + 1..];
    forall j | 0 <= j < |tasks|
      ensures r[j] == e[j]
    {
      if j != i {
        assert tasks[j].id != task.id;
      }
    }
  }

  /** Updating keeps every id at its position, so unique ids stay unique. */
  lemma UpdatedKeepsUnique(tasks: seq<Task>, task: Task)
    requires UniqueIds(tasks)
    ensures UniqueIds(Updated(tasks, task))
  {
  }

  // ---------------------------------------------------------------------
  // deleteTask: `tasks.filter(t => t.id !== task.id)`

  /** The filter callback of `deleteTask`: keep records with another id. */
  function OtherThan(task: Task): Task -> bool
  {
    (t: Task) => t.id != task.id
  }

  /** The sequence after `deleteTask(task)`: exactly the records whose id
      differs from `task.id`, in their original order. */
  function Deleted(tasks: seq<Task>, task: Task): (r: seq<Task>)
    ensures |r| <= |tasks|
    ensures forall t :: t in r <==> t in tasks && t.id != task.id
  {
    Filter(tasks, OtherThan(task))
  }

  /** Deleting an id that is not held is a no-op. */
  lemma DeletedAbsent(tasks: seq<Task>, task: Task)
    requires !HasId(tasks, task.id)
    ensures Deleted(tasks, task) == tasks
  {
    forall t | t in tasks
      ensures t.id != task.id
    {
      var i :| 0 <= i < |tasks| && tasks[i] == t;
    }
    FilterAllKept(tasks, OtherThan(task));
  }

  /** Deleting the same id twice is the same as deleting it once. */
  lemma DeletedIdempotent(tasks: seq<Task>, task: Task)
    ensures Deleted(Deleted(tasks, task), task) == Deleted(tasks, task)
  {
    FilterIdempotent(tasks, OtherThan(task));
  }

  /** With unique ids, deleting the id held at position `i` removes that one
      record, so the length drops by exactly one. */
  lemma DeletedAt(tasks: seq<Task>, task: Task, i: int)
    requires UniqueIds(tasks)
    requires 0 <= i < |tasks| && tasks[i].id == task.id
    ensures Deleted(tasks, task) == tasks[..i] + tasks[i + 1..]
    ensures |Deleted(tasks, task)| == |tasks| - 1
  {
    var before, after := tasks[..i], tasks[i + 1..];
    assert tasks == before + [tasks[i]] + after;
    forall k | 0 <= k < |before|
      ensures before[k].id != task.id
    {
      assert before[k] == tasks[k];
    }
    forall k | 0 <= k < |after|
      ensures after[k].id != task.id
    {
      assert after[k] == tasks[i + 1 + k];
    }
    DeletedAround(before, tasks[i], after, task);
  }

  /** Deleting from `before + [x] + after`, where only `x` carries the id,
      leaves `before + after`. */
  lemma DeletedAround(before: seq<Task>, x: Task, after: seq<Task>, task: Task)
    requires x.id == task.id && !HasId(before, task.id) && !HasId(after, task.id)
    ensures Deleted(before + [x] + after, task) == before + after
  {
    var keep := OtherThan(task);
    FilterAppend(before + [x], after, keep);
    FilterAppend(before, [x], keep);
    assert Filter([x], keep) == [] by {
      assert [x][1..] == [];
    }
    DeletedAbsent(before, task);
    DeletedAbsent(after, task);
    assert Filter(before, keep) == before;
    assert Filter(after, keep) == after;
    assert Filter(before + [x], keep) == before;
    assert Filter(before + [x] + after, keep) == before + after;
  }

  /** Deleting a task just added under a fresh id restores the old sequence. */
  lemma DeletedAfterAdded(tasks: seq<Task>, task: Task)
    requires !HasId(tasks, task.id)
    ensures Deleted(Added(tasks, task), task) == tasks
  {
    var keep := OtherThan(task);
    FilterAppend(tasks, [task], keep);
    assert Filter([task], keep) == [] by {
      assert [task][1..] == [];
    }
    DeletedAbsent(tasks, task);
  }

  /** Deleting keeps unique ids unique. */
  lemma DeletedKeepsUnique(tasks: seq<Task>, task: Task)
    requires UniqueIds(tasks)
    ensures UniqueIds(Deleted(tasks, task))
  {
    var keep := OtherThan(task);
    var idx := FilterSelection(tasks, keep);
    var r := Deleted(tasks, task);
    forall k, l | 0 <= k < l < |r|
      ensures r[k].id != r[l].id
    {
      assert r[k] == tasks[idx[k]] && r[l] == tasks[idx[l]];
    }
  }

  // ---------------------------------------------------------------------

  /** The provider's state: the `tasks` value that `setTasks` replaces. */
  class TaskProvider {
    var tasks: seq<Task>

    /** `useState<Task[]>([])`: the store starts empty. */
    constructor ()
      ensures tasks == []
    {
      tasks := [];
    }

    method AddTask(task: Task)
      modifies this
      ensures tasks == Added(old(tasks), task)
    {
      tasks := tasks + [task];
    }

    method UpdateTask(task: Task)
      modifies this
      ensures tasks == Updated(old(tasks), task)
    {
      tasks := Updated(tasks, task);
    }

    method DeleteTask(task: Task)
      modifies this
      ensures tasks == Deleted(old(tasks), task)
    {
      tasks := Deleted(tasks, task);
    }
  }
}
