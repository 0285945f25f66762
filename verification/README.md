# Organizador de Tarefas — a Dafny model of its core

This project models the logic of a to-do web application: its task store, the list
view, the statistics card, the task badges and the two forms.

- **Task store** (`hooks/use-tasks.ts`). The store holds an ordered collection of tasks.
  Each task has an id, a title, an optional description, a priority (`baixa` / `media` /
  `alta`), a status (`pendente` / `concluida`), creation and update timestamps, and an
  optional due date.
- **Store operations.** The operations are add, update, delete, toggle status, clear
  completed and clear all. They are pure functions over `seq<Task>`. `Command` / `Apply`
  gather them into one entry point.
- **Environment.** The clock and `crypto.randomUUID` become an `Env(now, freshId)` value
  that each call receives.
- **Derived statistics.** They are `ComputeStats`.
- **Persistence.** The hook loads once from storage and saves on every change, but only
  after loading has finished. `TaskPersistence` models this as a small state machine:
  `Store(tasks, isLoading, storage)`.
- **List view** (`components/task-list.tsx`). `TaskList` models its search and status
  filter, the stable copy-and-sort by date, priority or title in either direction, and
  the sort-toggle rule. The generic `Seqs.Filter` and `Sorting.InsertionSort` back it.
  `localeCompare` is a parameter `collate`, assumed to be a consistent comparator
  (`IsCollation`).
- **Statistics card** (`components/task-stats.tsx`). `TaskStats` models the rounded
  completion percentage and the motivational message bracket.
- **Task badges** (`components/task-item.tsx`). `TaskItem` models the overdue and
  due-soon predicates, the due-date badge and the priority label.
- **Forms** (`components/add-task-modal.tsx`, `components/add-task-form.tsx`).
  `TaskForms` models both forms as functions from the field contents to the command
  sent to the store.
- **Text helpers.** `Text` holds the JavaScript `trim` (with its whitespace set),
  lower-casing and `includes`.

The main properties proved:

- Every store command keeps ids unique, provided `add` is given an id not already present.
- Under unique ids, a fresh id for `add`, and a clock not behind any stored timestamp,
  every store command keeps `createdAt` fixed and moves `updatedAt` only forward. Commands whose titles are
  non-blank keep every stored title non-blank.
- Delete and update with an unknown id are no-ops; with unique ids, deleting a present id
  removes exactly one task.
- Toggling twice restores the status. The clear operations are idempotent.
- The statistics are consistent. Appending any task changes each count by exactly what
  that task contributes. Under unique ids, completing a task and reopening it move one
  unit between `pending` and `completed`, in either direction.
- The view shows exactly the matching tasks, sorted by the comparator and stable on ties.
- The completion percentage is a correctly rounded percentage and is monotone. The message
  brackets are monotone.
- A storage snapshot is never overwritten before it has been read.
- Both forms build the same new task from the same fields. Take a task whose title is
  trimmed and non-blank and whose description is absent or trimmed and non-blank.
  Opening the edit modal on it and submitting unchanged leaves its fields as they were,
  provided parsing the formatted due date gives back the same instant.

The model follows the source in three places a reader might not expect:

- The store itself neither defaults a task's status nor rejects blank titles
  (hooks/use-tasks.ts:52-58). Only the forms guard the title. So "titles stay non-blank"
  is proved for commands that carry a non-blank title, and the forms are proved to send
  only such commands.
- A failed load (unreadable snapshot) keeps the current in-memory tasks. The error is
  caught and loading simply ends (hooks/use-tasks.ts:38-41).
- The save effect runs as soon as loading ends (hooks/use-tasks.ts:46-50). So after
  start-up the storage always holds the loaded collection, and a corrupt snapshot is
  overwritten by `[]`.

## Model

| member | source | states |
|---|---|---|
| TaskStore.NewTask | hooks/use-tasks.ts:52-58 | the new task carries the caller's fields unchanged, the supplied id, and `createdAt == updatedAt == now` |
| TaskStore.AddTask | hooks/use-tasks.ts:52-61 | the new task is appended at the end, the existing tasks keep their order, and the fresh id is present afterwards |
| TaskStore.ApplyPatch | hooks/use-tasks.ts:63-69 | each patched field takes the update's value if given and otherwise keeps the task's own; `id` and `createdAt` never change; `updatedAt` becomes `now` |
| TaskStore.UpdateTask | hooks/use-tasks.ts:63-71 | the length is unchanged, tasks with another id are untouched, and every task with the id is patched in place |
| TaskStore.DeleteTask | hooks/use-tasks.ts:73-75 | the result is an order-preserving subsequence keeping every task whose id differs with its exact multiplicity, and no task with the id |
| TaskStore.Flip | hooks/use-tasks.ts:83 | the status always changes |
| TaskStore.ToggleTaskStatus | hooks/use-tasks.ts:77-89 | only the tasks with the id change: their status is flipped and their `updatedAt` stamped, all other fields kept |
| TaskStore.ClearCompletedTasks | hooks/use-tasks.ts:91-93 | an order-preserving subsequence keeping every pending task with its exact multiplicity, and no completed task |
| TaskStore.ClearAllTasks | hooks/use-tasks.ts:95-97 | the collection becomes empty |
| TaskStore.Apply | hooks/use-tasks.ts:52-97 | only `add` grows the collection: it keeps the existing tasks as a prefix and appends exactly one task carrying the fresh id; update and toggle keep the length; delete and the clears only remove; no command introduces any other id |
| TaskStore.ComputeStats | hooks/use-tasks.ts:100-105 | total is the collection size and equals completed + pending; high-priority never exceeds pending; all counts are zero for an empty collection |
| TaskStore.ApplyKeepsIdsUnique | hooks/use-tasks.ts:52-97 | every command preserves unique ids, given that `add` receives an id not already present |
| TaskStore.ApplyKeepsTimestamps | hooks/use-tasks.ts:52-97 | with unique ids, a fresh id for `add`, and a clock not behind any stored timestamp, every command keeps each surviving task's `createdAt`, never moves `updatedAt` back, and preserves `createdAt <= updatedAt` |
| TaskStore.SubsequenceKeepsIdsUnique | hooks/use-tasks.ts:73-75 | removing tasks (as delete and clear-completed do) cannot create duplicate ids |
| TaskStore.SubsequenceKeepsUniquePositions | hooks/use-tasks.ts:91-93 | with unique ids, every task kept by a filter is identical to the original task with its id |
| TaskStore.ApplyKeepsTitlesNonBlank | hooks/use-tasks.ts:52-97 | commands carrying non-blank titles keep every stored title non-blank |
| TaskStore.UpdateUnknownIdIsNoOp | hooks/use-tasks.ts:63-71 | updating an absent id leaves the collection identical (no timestamp stamped anywhere) |
| TaskStore.DeleteUnknownIdIsNoOp | hooks/use-tasks.ts:73-75 | deleting an absent id leaves the collection identical |
| TaskStore.DeletePresentIdRemovesOne | hooks/use-tasks.ts:73-75 | with unique ids, deleting a present id shrinks the collection by exactly one |
| TaskStore.CountWithId | hooks/use-tasks.ts:73-75 | with unique ids, at most one task carries any given id |
| TaskStore.ToggleTwiceRestoresStatus | hooks/use-tasks.ts:77-89 | toggling the same id twice restores every task except for `updatedAt` |
| TaskStore.ClearCompletedIdempotent | hooks/use-tasks.ts:91-93 | clearing completed tasks twice equals clearing once |
| TaskStore.ClearAllIdempotent | hooks/use-tasks.ts:95-97 | clearing all twice equals clearing once |
| TaskStore.AddTaskStats | hooks/use-tasks.ts:100-105 | adding a task raises total by one, and each other count by one exactly when the new task falls in that category |
| TaskStore.StatsAppend | hooks/use-tasks.ts:100-105 | appending any task raises total by one and each other count by one exactly when the task falls in that category; with the empty case this fixes every count |
| TaskStore.ToggleStats | hooks/use-tasks.ts:100-105 | with unique ids, completing a pending task moves one unit from pending to completed, keeps the total, and lowers high-priority exactly when the task was `alta` |
| TaskStore.ReopenStats | hooks/use-tasks.ts:100-105 | with unique ids, reopening a completed task moves one unit from completed to pending, keeps the total, and raises high-priority exactly when the task is `alta` |
| TaskPersistence.Init | hooks/use-tasks.ts:22-23 | the hook starts with no tasks, in the loading state, with storage as found |
| TaskPersistence.SaveEffect | hooks/use-tasks.ts:46-50 | the effect never touches the tasks or the flag; it writes the collection to storage exactly when not loading |
| TaskPersistence.Load | hooks/use-tasks.ts:26-43 | a readable snapshot replaces the tasks, anything else keeps them; loading ends in every case, and the save that follows leaves storage equal to the collection |
| TaskPersistence.Dispatch | hooks/use-tasks.ts:46-50 | a command changes the collection as the store function does; storage is rewritten with the new collection only when not loading |
| TaskPersistence.DispatchAll | hooks/use-tasks.ts:46-50 | the collection after a run of commands is what the commands alone produce, with the storage gate making no difference; the loading flag is unchanged |
| TaskPersistence.NoSaveWhileLoading | hooks/use-tasks.ts:46-50 | any sequence of commands issued while loading leaves storage untouched |
| TaskPersistence.EarlyCommandsDoNotClobberSnapshot | hooks/use-tasks.ts:26-50 | after commands issued before the load, the load still adopts the snapshot found at start-up |
| TaskPersistence.FailedLoadIsEmpty | hooks/use-tasks.ts:26-43 | starting with a missing or unreadable snapshot yields an empty loaded store whose storage now holds the empty list |
| TaskPersistence.LoadedStoreStaysSaved | hooks/use-tasks.ts:46-50 | once loaded, after every sequence of commands the storage holds exactly the current collection |
| TaskList.InitialView | components/task-list.tsx:32-35 | the list starts on filter `todas`, sorted by date descending (newest first), with an empty search |
| TaskList.MatchesSearch | components/task-list.tsx:40-41 | a task matches exactly when its lower-cased title, or its lower-cased description if it has one, contains the lower-cased term (ASCII case only); an empty search matches every task |
| TaskList.MatchesFilter | components/task-list.tsx:43-45 | `todas` admits every task, `pendentes` exactly the pending ones, `concluidas` exactly the completed ones |
| TaskList.FilteredTasks | components/task-list.tsx:39-48 | the shown tasks are an order-preserving subsequence keeping every task that matches both the search and the status filter with its exact multiplicity, and nothing else |
| TaskList.ShowAllIsIdentity | components/task-list.tsx:39-48 | filter `todas` with an empty search shows the whole collection in order |
| TaskList.StatusFilterSelects | components/task-list.tsx:39-48 | `pendentes` shows only pending tasks and `concluidas` only completed ones; with an empty search every pending task appears under `pendentes` and every completed task under `concluidas` |
| TaskList.SearchIgnoresCase | components/task-list.tsx:40-41 | search terms that lower-case alike select the same tasks |
| TaskList.Comparison | components/task-list.tsx:53-65 | priority compares by rank `alta` 3, `media` 2, `baixa` 1, giving zero exactly for equal priorities; date gives a negative value exactly for the earlier task and zero exactly for the same instant; title defers to `localeCompare` |
| TaskList.Comparator | components/task-list.tsx:67 | descending reverses the sign of the comparison and ascending keeps it; ties stay ties in both directions |
| TaskList.Precedes | components/task-list.tsx:50-68 | under date, priority and title, `a` may precede `b` exactly when `a` is not later, lower or after `b` in the chosen direction |
| TaskList.PrecedesIsTotalPreorder | components/task-list.tsx:50-68 | for each key and direction the comparator induces a total preorder, given a consistent `localeCompare` |
| TaskList.SortedTasks | components/task-list.tsx:50-68 | the sorted list is a permutation of the filtered list, ordered by the comparator, and keeps comparator-equal tasks in their input order |
| TaskList.VisibleTasks | components/task-list.tsx:39-68 | the visible list is a permutation of the filtered list containing exactly the matching tasks, sorted by the view's key and direction, with comparator-equal tasks in collection order |
| TaskList.PrioritySortOrders | components/task-list.tsx:54-57 | priority sort is ascending by rank (`baixa` < `media` < `alta`) for `asc` and descending for `desc` |
| TaskList.DateSortOrders | components/task-list.tsx:61-64 | date sort orders by `createdAt`, ascending or descending per the direction |
| TaskList.DateTiesAreSameInstant | components/task-list.tsx:61-67 | in either direction, two tasks tie under the date comparator exactly when they were created at the same instant |
| TaskList.DateTieClass | components/task-list.tsx:61-67 | the tasks tied with `x` under the date comparator are exactly those created at `x`'s instant, in collection order |
| TaskList.DateSortKeepsTies | components/task-list.tsx:50-68 | tasks created at the same instant keep their collection order, in both directions |
| TaskList.ToggleSort | components/task-list.tsx:70-77 | the pressed key becomes active; pressing the active key flips the direction, and pressing another key selects it descending |
| TaskList.ToggleSortTwiceOnActiveKey | components/task-list.tsx:70-77 | pressing the active key twice restores the view state |
| Scenarios.SearchFindsAlpha | components/task-list.tsx:39-48 | on a sample collection, searching "ALP" (lower-cased to "alp") finds exactly the task titled "Alpha" and not "beta" |
| Scenarios.PriorityDescending | components/task-list.tsx:50-68 | on a sample collection, the default-direction priority sort puts `alta`, `media`, `baixa` in that order |
| TaskStats.CompletionRate | components/task-stats.tsx:16 | zero without tasks; otherwise within one half of `100·completed/total`, rounding halves up; within 0..100, and 100 when everything is done |
| TaskStats.RoundedPercent | components/task-stats.tsx:16 | the integer quotient is a correctly rounded percentage, at most 100 for a share at most one |
| TaskStats.RoundingOrder | components/task-stats.tsx:16 | a larger share never rounds to a smaller percentage |
| TaskStats.CompletionRateMonotone | components/task-stats.tsx:16 | with the total fixed, more completed tasks never lower the rate |
| TaskStats.MessageText | components/task-stats.tsx:55-59 | every message is non-empty and starts with its own emoji, so no two messages share a text |
| TaskStats.MessageForRate | components/task-stats.tsx:55-59 | each message is chosen exactly on its bracket: 100, 80-99, 50-79, 25-49, below 25 |
| TaskStats.MessageMonotone | components/task-stats.tsx:55-59 | up to 100, a higher rate never selects a lower bracket |
| TaskStats.MotivationalMessage | components/task-stats.tsx:53-60 | there is no message exactly when there are no tasks; otherwise the message matches the rate's bracket |
| TaskStats.ShowsProgressCard | components/task-stats.tsx:90 | the card is shown exactly when a message is, and then with a correctly rounded percentage |
| TaskItem.IsOverdue | components/task-item.tsx:50 | a task is overdue exactly when it is pending, has a due date, and that instant has passed |
| TaskItem.IsDueSoon | components/task-item.tsx:51-52 | a task is due soon exactly when it is pending, has a due date, and at most one day remains before it (including past due) |
| TaskItem.OverdueImpliesDueSoon | components/task-item.tsx:50-52 | an overdue task is also due soon; a completed task is neither |
| TaskItem.DueBadgeLabel | components/task-item.tsx:161-173 | the badge exists exactly when there is a due date; it reads "Atrasada" when overdue, else "Urgente" when due soon, else the formatted date |
| TaskItem.CompletedBadgeShowsDate | components/task-item.tsx:164-172 | a completed task's badge always shows its date |
| TaskItem.BadgeFollowsTheClock | components/task-item.tsx:164-172 | a pending task shows its date until one day before the due instant, "Urgente" from then to the instant, and "Atrasada" after it |
| TaskItem.PriorityLabel | components/task-item.tsx:21-47 | the three priorities have three distinct labels, each naming its priority |
| TaskForms.NormalizeDescription | components/add-task-modal.tsx:50 | a blank description becomes absent; otherwise it is trimmed and non-blank |
| TaskForms.NormalizeDueDate | components/add-task-modal.tsx:52 | an empty date input gives no due date; otherwise it gives the parsed instant |
| TaskForms.DraftFrom | components/add-task-modal.tsx:56-62 | a new task always starts pending, with a trimmed title and the normalised description and date |
| TaskForms.DraftFromIsClean | components/add-task-modal.tsx:56-62 | from a non-blank title the draft has a non-blank trimmed title and an absent or non-blank trimmed description |
| TaskForms.PatchFrom | components/add-task-modal.tsx:48-53 | an edit sends title, description, priority and due date, and never the status |
| TaskForms.SubmitModal | components/add-task-modal.tsx:42-71 | a blank title sends nothing and changes nothing; otherwise an edit (task and handler present) sends an update and anything else sends an add, after which the fields reset and the modal closes |
| TaskForms.OnOpen | components/add-task-modal.tsx:27-40 | opening for an edit prefills from the task, opening for a new task resets the fields, and a closed modal keeps them |
| TaskForms.EditWithoutChangesKeepsTask | components/add-task-modal.tsx:27-53 | opening a clean task for editing and submitting at once sends a patch that leaves all its fields as they were, provided the date formatting round-trips |
| TaskForms.ModalCommandKeepsTitlesNonBlank | components/add-task-modal.tsx:44-63 | whatever the modal sends keeps every stored title non-blank |
| TaskForms.InitialInlineForm | components/add-task-form.tsx:15-19 | the inline form starts collapsed with empty fields and priority `media` |
| TaskForms.SubmitInlineForm | components/add-task-form.tsx:21-38 | a blank title sends nothing; otherwise the form sends a clean pending draft and then resets and collapses |
| TaskForms.FormsAgreeOnNewTasks | components/add-task-form.tsx:25-31 | for the same fields, the inline form and the modal in creation mode send the same new task |
| Seqs.Filter | hooks/use-tasks.ts:73-75 | `Array.prototype.filter`: an order-preserving subsequence of the kept elements, with each one's multiplicity kept exactly |
| Seqs.FilterIdempotent | hooks/use-tasks.ts:91-93 | filtering twice by the same test equals filtering once |
| Seqs.CountComplement | hooks/use-tasks.ts:102-103 | the counts of a test and of its negation add up to the length |
| Seqs.CountMonotone | hooks/use-tasks.ts:103-104 | a stricter test never counts more |
| Sorting.Insert | components/task-list.tsx:50-68 | inserting into a sorted list keeps it sorted and adds exactly the one element |
| Sorting.InsertionSort | components/task-list.tsx:50-68 | the result is sorted by the comparator and is a permutation of the input |
| Sorting.InsertionSortStable | components/task-list.tsx:50-68 | elements that compare equal keep their relative input order |
| Text.Trim | components/add-task-form.tsx:23 | the result starts and ends with non-whitespace, and is empty exactly when the input is blank |
| Text.TrimIsSlice | components/add-task-form.tsx:26 | the trimmed title is a contiguous slice of the input with only whitespace cut off either end |
| Text.TrimIdempotent | components/add-task-modal.tsx:49 | trimming a trimmed string changes nothing |
| Text.TrimKeepsBlankness | components/add-task-modal.tsx:44 | a string is blank exactly when its trimmed form is |
| Text.ToLower | components/task-list.tsx:40-41 | the length is kept, no ASCII capital remains, and every other character is unchanged |
| Text.Includes | components/task-list.tsx:40-41 | every string includes the empty string, and a match needs a needle no longer than the text |
| Text.IncludesIffOccurs | components/task-list.tsx:40-41 | `includes` holds exactly when the needle occurs at some position |

## Left out

- Storage I/O and JSON: the stored value is abstracted as `Snapshot`. `Saved(tasks)` assumes that serialising and reviving the dates round-trips exactly. A value that parses but is not an array of tasks is not modelled, and neither is `console.error`.
- `crypto.randomUUID` is the `freshId` of `Env`. That it is fresh is a hypothesis of the lemmas that need it, not something the store checks.
- `new Date()` is the `now` of `Env` (and of the badge and patch functions). Invalid dates (NaN time values) are not modelled; every `Time` is an integer millisecond count.
- `localeCompare(…, "pt-BR")` is the `collate` parameter, assumed consistent (`IsCollation`). Collation order itself is not modelled.
- Text.ToLower: lower-cases ASCII letters only. `toLowerCase` also maps accented and other non-ASCII letters.
- Calendar parsing and formatting (`new Date("YYYY-MM-DD")`, `toISOString().split('T')[0]`, `toLocaleDateString`) are the `parseDate` / `formatDate` parameters. The quick-date options and `getTodayDate` of the modal (components/add-task-modal.tsx:97-114) are not modelled.
- TaskStats.CompletionRate: computed with exact rational rounding (halves up). The source's floating-point `Math.round((c / t) * 100)` can differ at exact halves, e.g. 29/200 yields 14.499… and rounds to 14 rather than 15.
- A patch cannot set `title`, `priority` or `status` to `undefined` explicitly. Those fields are `Option`s whose `None` means "not in the update", while `description` and `dueDate` can be cleared.
- The `confirm()` before clear-all (components/task-list.tsx:169) is not modelled. A declined confirmation simply sends no command; clear-completed is wired directly, with no confirmation (components/task-list.tsx:153). The delete buttons, the edit wiring in `TaskList` / `TaskItem` and the `onOpenChange` reset of the editing task are UI plumbing around the store commands and are not modelled either.
- TaskStore.NewTask: the two clock readings at hooks/use-tasks.ts:56-57 are one `now`. In the source `updatedAt` may be a millisecond later than `createdAt`. Likewise `isOverdue` and `isDueSoon` (components/task-item.tsx:50-52) share one `now` in `TaskItem`, where the source reads the clock separately for each.
- React scheduling is not modelled: each command is followed at once by its save effect, and state updates are not batched.
- Presentation is not modelled: markup, icons, colours, the per-filter counts on the buttons, the inline form's expand toggle, `components/ui/dialog.tsx`, `components/theme-provider.tsx`, `app/page.tsx` and `app/layout.tsx`.
