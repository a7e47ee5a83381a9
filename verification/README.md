# QuickTask task store, in Dafny

QuickTask is a small to-do list app. Its only real behaviour is this:

- an in-memory **task store** (`TaskProvider`) holds an ordered sequence of task records `{id, title, description, completed}`;
- three operations build a new sequence and install it as the state: `addTask` (spread-append), `updateTask` (a `map` that flips `completed`) and `deleteTask` (a `filter` on the id);
- the **task list** splits the sequence into a "Tasks" section (not completed) and a "Completed" section;
- a checkbox tap sends the task back to the store with its flag negated;
- the **creation form** validates the entered title and description and adds a new, not-completed task.

The project has four modules:

- `Seqs` (`seqs.dfy`) models `Array.prototype.filter` as `Filter`. Lemmas state what filtering keeps: membership, multiplicity and relative order. Order is stated two ways: filtering distributes over concatenation, and the result is the subsequence at the increasing positions where the predicate holds.
- `TaskContext` (`task_context.dfy`) holds the `Task` record and the three pure transforms `Added`, `Updated` and `Deleted`. The class `TaskProvider` has a `tasks: seq<Task>` field. Its methods `AddTask`, `UpdateTask` and `DeleteTask` reassign that field, and each method's postcondition is the matching transform of the old value.
- `TaskList` (`task_list.dfy`) holds the two section filters, the two-section layout and the completion payload.
- `NewTask` (`new_task.dfy`) holds the validation decision `Validate` and the submission `HandleSubmit`. `HandleSubmit` is a method that either returns early with a rejection or calls the store's `AddTask`.

The store does not enforce unique ids. `UniqueIds` is therefore not a class invariant: it is a hypothesis of the lemmas whose conclusions need it (exactly one record removed, exactly one record flipped). `AddedKeepsUnique` shows that adding keeps ids unique exactly when the new id is fresh.

Two points where the code does less than its use of ids suggests, and the model follows the code:
- Ids serve as the list's item keys (`keyExtractor`, components/TaskList.tsx:106), yet `addTask` (context/TaskContext.tsx:16-19) checks nothing and accepts a record whose id is already held.
- `updateTask` and `deleteTask` (context/TaskContext.tsx:22, 26) use `map` and `filter`, so they flip, or remove, every record with the argument's id, not only the first.

## Model

| member | source | states |
|---|---|---|
| Seqs.Filter | components/TaskList.tsx:78-79 | the result holds exactly the input elements that pass the predicate, and is no longer than the input |
| Seqs.FilterCount | components/TaskList.tsx:78-79 | each passing element occurs in the result exactly as often as in the input; each failing element never occurs |
| Seqs.FilterAppend | components/TaskList.tsx:78-79 | filtering a concatenation is the concatenation of the filtered parts, so relative order is kept |
| Seqs.FilterSelection | components/TaskList.tsx:78-79 | the result is the input read at a strictly increasing list of positions, which are exactly the positions whose element passes |
| Seqs.FilterComplement | components/TaskList.tsx:78-79 | two complementary filters together hold every input element exactly as often as the input, and their lengths sum to the input length |
| Seqs.FilterAllKept | context/TaskContext.tsx:26 | when every element passes, filtering returns the input unchanged |
| Seqs.FilterIdempotent | context/TaskContext.tsx:26 | filtering twice with the same predicate equals filtering once |
| TaskContext.Added | context/TaskContext.tsx:16-19 | after `addTask`, length grows by one, every old record stays in place, and the argument is last, with no check on its id |
| TaskContext.AddedKeepsUnique | context/TaskContext.tsx:16-19 | adding keeps ids unique if and only if they were unique before and the new id was not held |
| TaskContext.AddedAllAppends | context/TaskContext.tsx:16-19 | a series of `addTask` calls appends the whole batch in call order |
| TaskContext.AddedAllDistinct | context/TaskContext.tsx:16-19 | from the empty store, adds with distinct ids give one record per call, unique ids, and every added id present |
| TaskContext.Updated | context/TaskContext.tsx:21-23 | after `updateTask`, length, order, ids, titles and descriptions are kept; every record whose id equals the argument's id has its own flag negated; all other flags are unchanged |
| TaskContext.UpdatedAbsent | context/TaskContext.tsx:22 | an update with an id that is not held leaves the sequence unchanged |
| TaskContext.UpdatedIgnoresPayload | context/TaskContext.tsx:22 | two arguments with the same id give the same result, so the argument's title, description and flag have no effect |
| TaskContext.UpdatedTwice | context/TaskContext.tsx:22 | two updates with the same id restore the original sequence |
| TaskContext.UpdatedAt | context/TaskContext.tsx:22 | with unique ids, updating the id held at position i flips that one record and changes nothing else |
| TaskContext.UpdatedKeepsUnique | context/TaskContext.tsx:22 | updating keeps unique ids unique |
| TaskContext.Deleted | context/TaskContext.tsx:25-27 | after `deleteTask`, the result holds exactly the records whose id differs from the argument's; no record with that id remains |
| TaskContext.DeletedAbsent | context/TaskContext.tsx:26 | deleting an id that is not held is a no-op |
| TaskContext.DeletedIdempotent | context/TaskContext.tsx:26 | deleting the same id twice equals deleting it once |
| TaskContext.DeletedAt | context/TaskContext.tsx:26 | with unique ids, deleting the id held at position i removes exactly that record, so the length drops by one |
| TaskContext.DeletedAround | context/TaskContext.tsx:26 | deleting from before + [x] + after, where only x has the id, leaves before + after |
| TaskContext.DeletedAfterAdded | context/TaskContext.tsx:16-27 | deleting a task just added under a fresh id restores the previous sequence |
| TaskContext.DeletedKeepsUnique | context/TaskContext.tsx:26 | deleting keeps unique ids unique |
| TaskContext.TaskProvider.constructor | context/TaskContext.tsx:14 | the store starts with the empty sequence |
| TaskContext.TaskProvider.AddTask | context/TaskContext.tsx:16-19 | the new state is the old state with the argument appended |
| TaskContext.TaskProvider.UpdateTask | context/TaskContext.tsx:21-23 | the new state is the old state with every matching record's flag flipped |
| TaskContext.TaskProvider.DeleteTask | context/TaskContext.tsx:25-27 | the new state is the old state without the records that have the argument's id |
| TaskList.UncompletedTasks | components/TaskList.tsx:78 | the "Tasks" section holds exactly the records with `completed` false |
| TaskList.CompletedTasks | components/TaskList.tsx:79 | the "Completed" section holds exactly the records with `completed` true |
| TaskList.Sections | components/TaskList.tsx:81-90 | there are always exactly two sections, "Tasks" first and "Completed" second, even when empty; together they hold every record exactly once |
| TaskList.Partition | components/TaskList.tsx:78-79 | the two sections' multisets add up to the store's multiset; their lengths sum to the store length; each record is in exactly one section |
| TaskList.SectionsKeepOrder | components/TaskList.tsx:78-79 | both sections keep store order: sectioning a concatenation concatenates the sections |
| TaskList.CompletionPayload | components/TaskList.tsx:26 | the payload is the tapped record with `completed` negated and id, title and description kept |
| TaskList.CompletionFlipsOnce | components/TaskList.tsx:26 | with unique ids, sending the payload of the record at position i to the store puts that payload in its place and changes nothing else: a single flip |
| TaskList.CompletionMovesSection | components/TaskList.tsx:20-28 | after the tap, the record leaves its section and joins the other one at the place its store position gives it |
| NewTask.AlertText | app/new-task.tsx:16-22 | each rejection has a non-empty alert text |
| NewTask.Validate | app/new-task.tsx:15-29 | an empty title is rejected for its title, whatever the description. A non-empty title with a description over 100 characters is rejected for the description. Anything else is accepted, including a description of exactly 100 characters. An accepted record carries the given id, title and description verbatim and is not completed |
| NewTask.HandleSubmit | app/new-task.tsx:15-32 | the outcome is the decision of `Validate`; on a rejection the store is unchanged; on acceptance exactly one record, the new task, is appended |
| NewTask.SubmittedTaskIsOpen | app/new-task.tsx:24-30 | an accepted record joins the end of the "Tasks" section and leaves "Completed" as it was |

## Left out

- Rendering and styles (`getTaskStyles`, `getTaskListStyles`, `SectionList`, `Pressable`, layout values in `app/_layout.tsx`, `app/index.tsx` and `components/NewTaskButton.tsx`) have no checkable logic. The empty-store branch in `app/index.tsx` is only a choice of view.
- Theme lookup (`context/ThemeContext.tsx`) chooses between two constant colour tables using a platform hook.
- The fade animation (`Animated.timing(...).start(callback)`) is timed and asynchronous. Only the payloads that its callbacks pass to `onUpdate` and `onDelete` are modelled. The delete payload is the tapped record unchanged, and `DeletedAt` covers it.
- The new record's id comes from `Date.now().toString()`, a clock reading. It is a parameter of `Validate` and `HandleSubmit`. Because the clock can repeat, the store cannot rely on ids being unique, and the model does not assume they are.
- `alert`, `router.back()`, `router.push`, `console.log` in `addTask`, and the React hooks `useState` and `useContext` are left out. So is the notification of observers after each state change. The thrown error in `useTask` when it is used outside a provider is also left out, because the model's store is an explicit object.
- String lengths are sequence lengths of `seq<char>`. JavaScript's `.length` counts UTF-16 code units, and the model does not model the encoding.
- `types/Task.ts` is not part of this model. The record's four fields are taken from their uses in the three files above.
- TaskContext.TaskProvider.AddTask / UpdateTask / DeleteTask: each source operation is a closure built from the `tasks` of the render that created it (context/TaskContext.tsx:14, 18, 22, 26), and the list calls it after a 300 ms fade (components/TaskList.tsx:20-39). Two operations issued before a re-render therefore each start from the same snapshot and the last `setTasks` wins, so the first change is lost. The class starts every call from the current state, so it models only operations separated by a re-render.
- NewTask.AlertText: its contract states only that each alert text is non-empty. The exact wording of the two alerts is given by its body and is not restated as a property.
