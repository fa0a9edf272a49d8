# nicelist task forest, navigation and rendering

A Dafny model of the client core of nicelist, a nested to-do list. The
client keeps every task of the signed-in user in `taskCache`, a JavaScript
`Map` from task id to a record `{id, text, completed, details, parent_id,
position}`. The tasks form a forest through `parent_id`. On top of that
cache the client:

- groups tasks by parent;
- walks up to a task's root-to-task path;
- collects a task's descendants for cascading deletes;
- picks the position of a new sibling;
- renders the forest as a preorder traversal sorted by position;
- keeps a focus (`currentTaskId` plus `taskPath`) that the task view,
  breadcrumbs, back navigation and delete move around.

The same logic exists three times, with small differences, in
`src/js/tasks.js`, `src/js/ui.js` and the older single-file `script.js`. The
model states each variant and proves where they agree and where they differ.

Modelling choices:

- **Cache.** `TaskCache.Cache` is a map plus the `Map`'s insertion order.
  `Entries(c)` is the iteration order of `forEach`/`values()`. Ids are
  positive integers, because ids from the store are never falsy.
- **Parent keys.** A parent key is `Option<Id>`, and `None` is the `'root'`
  key of `parent_id || 'root'`.
- **Acyclicity.** The client has no cycle guard. The `while` walk of
  `getTaskPathFromCache` terminates only when the id's ancestor chain
  avoids cycles. The recursive descendant collection and the renderers
  terminate only when no cycle is reachable below their start. As a
  simplification the model requires the whole parent relation to be
  acyclic, as `Forest.Acyclic`: some rank grows strictly from every cached
  parent to its child. Upward walks decrease `Height` and downward walks
  decrease `Below`.
- **Store calls.** Every store call is a parameter: `Store.Outcome`,
  `Store.Fetch` or `Store.Insertion`. The wall clock is the integer `now`.
  The details-save timer is the `Fire` event.
- **Rendering.** Rendering is projected to the emitted `(task id, depth)`
  pairs, `Traversal.Node`. Every traversal (descendant collection, both
  renderers) is the single `Traversal.Preorder`. The `sorted` flag says
  whether each group is first sorted by `position || 0`.

## Model

| member | source | states |
|---|---|---|
| `TaskCache.Reload` | src/js/tasks.js:31-32 | After `clear()` and the refill, the cache is consistent. Its keys are exactly the fetched ids, and each id maps to the last fetched row carrying it. With distinct ids, iteration order is fetch order. |
| `Grouping.GroupedKeys` | src/js/tasks.js:170-176 | The grouping loop adds to the start map exactly the parent keys that occur among the tasks. |
| `Grouping.GroupedValues` | src/js/tasks.js:170-176 | The grouping loop appends, to each key's list, exactly that key's tasks in iteration order. |
| `Grouping.TasksByParentGroups` | src/js/tasks.js:168-178 | Read through `get(key) \|\| []`, each key's group is the cached tasks with that parent key, in cache iteration order. |
| `Grouping.TasksByParentKeys` | src/js/tasks.js:168-178 | A key is present in the tasks.js grouping exactly when some cached task has that parent key. |
| `Grouping.TasksByParentPartitions` | src/js/tasks.js:168-178 | A task is in the group of `key` iff it is the cached record and its parent key is `key`, so every cached task is in exactly one group. |
| `Grouping.GroupingVariantsAgree` | script.js:235-251 | The script.js grouping has the tasks.js keys plus `'root'`, with the same list under every key. tasks.js has `'root'` only when some task is at root level. |
| `Paths.TaskPathFromCache` | script.js:218-233 | The script.js `while` loop that unshifts ids computes the same path as the tasks.js walk (`Paths.PathTo`). |
| `Paths.PathEnds` | src/js/tasks.js:154-166 | The path is non-empty exactly when the id is cached, and then it ends with the id. |
| `Paths.PathLinked` | src/js/tasks.js:158-163 | Every path entry is cached and is the parent of the next entry. The first entry has no parent or an uncached one. |
| `Paths.PathRanks` | src/js/tasks.js:158-163 | Ranks strictly increase along the path. |
| `Paths.PathBounded` | src/js/tasks.js:158-163 | No path entry repeats, and the walk takes at most as many steps as the cache has tasks. |
| `Paths.PathAncestors` | src/js/tasks.js:154-166 | The entries before the last are exactly the cached tasks that the id lies below. |
| `Paths.PathOfParent` | src/js/tasks.js:154-166 | A cached parent's path is the task's path without its last entry. A task without a cached parent has the one-entry path. |
| `Forest.NotOwnDescendant` | src/js/tasks.js:114-121 | Under acyclicity no task lies below itself, so `addChildren` never comes back to where it started. |
| `Sorting.SortPermutes` | src/js/ui.js:295 | Sorting by `position \|\| 0` permutes the group (same multiset). |
| `Sorting.SortSorts` | src/js/ui.js:295 | The sorted group is ascending by `position \|\| 0`. |
| `Sorting.SortStable` | src/js/ui.js:295 | Tasks with equal positions keep their cache order, as the stable `Array.prototype.sort` keeps them. |
| `Traversal.WalkMembers` | src/js/ui.js:297-301 | The `forEach` over a list of children emits an id iff it lies below the key and its top ancestor under the key is in that list. |
| `Traversal.PreorderMembers` | src/js/ui.js:287-304 | `renderChildTasks` from a key emits exactly the tasks below that key. |
| `Traversal.WalkDistinct` | src/js/ui.js:297-301 | The `forEach` over distinct children emits every id at most once. |
| `Traversal.PreorderDistinct` | src/js/ui.js:287-304 | The traversal emits every task at most once. |
| `Traversal.WalkChildren` | src/js/ui.js:297-301 | Within one `forEach`, each visited key's children appear in the order of that key's (sorted) group. |
| `Traversal.PreorderChildren` | src/js/ui.js:287-304 | The children of the start key, and of every emitted task, appear exactly in the order of their group, sorted when rendering. The children of any other key do not appear. |
| `Traversal.WalkParentsFirst` | src/js/ui.js:297-301 | Within one `forEach`, a child of the key sits at the given depth, and any other task comes after its parent, one level deeper. |
| `Traversal.PreorderParentsFirst` | src/js/ui.js:287-304 | Every emitted task is cached. A child of the start key is at the start depth, and any other task comes after its parent, one level deeper. |
| `Traversal.WalkShift` | src/js/ui.js:297-301 | Starting a `forEach` `e` levels deeper adds `e` to every depth and changes nothing else. |
| `Traversal.PreorderShift` | src/js/ui.js:287-304 | Starting the traversal `e` levels deeper adds `e` to every depth and changes nothing else. |
| `Traversal.WalkNested` | src/js/ui.js:297-301 | Within one `forEach`, every emitted task is followed at once by its whole subtree, one level deeper, because each child's list is rendered inside that child's element before the next child. |
| `Traversal.PreorderNested` | src/js/ui.js:287-304 | In the flat order of the traversal, every task is followed at once by its whole subtree, one level deeper. This is the nesting of each child's `ul` inside its `li`, and it rules out orders such as level order. |
| `Descendants.DescendantIdsExact` | src/js/tasks.js:110-124 | `getDescendantTaskIds` lists exactly the tasks strictly below `taskId` and never `taskId` itself. |
| `Descendants.DescendantIdsDistinct` | src/js/tasks.js:110-124 | No descendant id is listed twice. |
| `Descendants.DescendantIdsParentsFirst` | src/js/tasks.js:114-120 | Each listed task is a child of `taskId` or comes after its parent. |
| `Descendants.DescendantIdsChildOrder` | src/js/tasks.js:114-120 | The children of `taskId` and of each listed task appear in cache iteration order. |
| `Rendering.RenderTasksShows` | src/js/ui.js:267-285 | `renderTasks` emits exactly the tasks below the focus or, without focus, every task whose ancestor chain reaches a root-level task. A task whose `parent_id` names an uncached task is left out, and so is its subtree. Each appears once, after its parent and one level deeper, with the focus's children at depth 0. Each task is followed at once by its own subtree. |
| `Rendering.RenderTasksSiblingOrder` | src/js/ui.js:277-278 | The focus's children, and every rendered task's children, appear as the stable position sort of their group: ascending by `position \|\| 0`, ties in cache order. |
| `Rendering.ScriptRenderChildTasksAgrees` | script.js:151-163 | The script.js `renderChildTasks` emits nothing without a container or a parent id. Otherwise it emits what ui.js renders with that task focused, shifted to the given depth. |
| `Rendering.RootLevelIsWalk` | script.js:100-104 | The script.js root loop (each root task at depth 0, then its children from depth 1) is the generic children walk. |
| `Rendering.ScriptRenderTasksFromCacheAgrees` | script.js:89-105 | script.js `renderTasksFromCache` emits exactly what ui.js `renderTasks` emits with no focus. |
| `Positions.MaxFromBounds` | src/js/tasks.js:46 | The `reduce` is at least its start value and every sibling's `position \|\| 0`, and equals one of them. |
| `Positions.CreatePositionBounds` | src/js/tasks.js:44-53 | The new task's position is at least 1 and above every sibling's. It is exactly 1, or one above some sibling's position. |
| `Positions.NextPositionExact` | script.js:454-460 | `getNextPosition` is 0 without siblings, and otherwise one above some sibling's position. |
| `Positions.NextPositionAbove` | script.js:455-458 | `getNextPosition` is above every sibling's `position \|\| 0`. |
| `Positions.PositionVariants` | src/js/tasks.js:146-152 | The `createTask` position equals `getNextPosition` when that is at least 1, and 1 otherwise. An empty group gets 1 from one and 0 from the other. |
| `TaskOps.LoadTasks` | src/js/tasks.js:18-37 | A failed fetch leaves the cache. A successful one replaces it wholesale: keys are the fetched ids, records the last row per id, order the fetch order. |
| `TaskOps.CreateTask` | src/js/tasks.js:39-67 | The cache stays consistent, and a failed insert changes nothing. |
| `TaskOps.CreateTaskAdds` | src/js/tasks.js:44-62 | Before the reload, the new record is added with the given text and parent, not completed, at a position at least 1 and above every sibling's. It is appended to the iteration order, and no existing record changes. |
| `TaskOps.ToggleTaskEffect` | src/js/tasks.js:126-139 | An uncached id or a failed update leaves the cache. Otherwise only that task's `completed` flips, before the reload. |
| `TaskOps.ToggleTask` | src/js/tasks.js:126-144 | Toggling keeps the cache consistent. |
| `TaskOps.ToggleTwice` | src/js/tasks.js:133-139 | Two successful toggles without a reload restore the cache. |
| `TaskOps.DeleteRequestsCover` | src/js/tasks.js:75-95 | A successful delete removes exactly `{taskId}` plus its descendants. It sends at most two requests, the descendants (distinct, without `taskId`) before the task itself. |
| `TaskOps.DeleteStopsOnChildFailure` | src/js/tasks.js:78-86 | If deleting the descendants fails, no request deletes the task itself and the state is unchanged. |
| `TaskOps.DeleteTaskFocus` | src/js/tasks.js:97-103 | Corrected delete: a successful delete reloads the cache and resets the focus to the root exactly when the deleted task was focused. Otherwise focus and path stay. |
| `TaskOps.DeleteFocusedAsWritten` | src/js/tasks.js:97-99 | As written, deleting the focused task keeps the focus on the deleted id and skips the reload. The corrected delete clears the focus. |
| `ScriptOps.LoadTasks` | script.js:29-52 | Loading keeps the cache consistent and never touches focus or path. |
| `ScriptOps.LoadTasksFreshness` | script.js:31-46 | A non-empty cache fetched less than 5000 ms ago is kept, whatever the store returns, and so is any state on a failed fetch. Otherwise the fetched rows replace the cache and the fetch time is recorded. |
| `ScriptOps.LoadTasksThrottles` | script.js:31-46 | After a successful non-empty fetch, any load in the next 5000 ms changes nothing. |
| `ScriptOps.SaveTaskDetails` | script.js:306-326 | Saving details keeps the cache consistent. |
| `ScriptOps.SaveTaskDetailsEffect` | script.js:306-320 | On success only the target's `details` changes. An uncached id or a failed update changes nothing. |
| `ScriptOps.SaveTaskDetailsIdempotent` | script.js:315-320 | Saving the same text again changes nothing. |
| `ScriptOps.NavigateToRoot` | script.js:346-354 | Going to the root clears the focus and the path. |
| `ScriptOps.NavigateToRootReloads` | script.js:346-354 | Going to the root refetches only when the cache is stale, and then replaces it. Otherwise only focus and path change. |
| `ScriptOps.OpenTaskViewFocus` | script.js:166-177 | The focus and path are set before the lookup. The path ends with the task when it is cached and is empty otherwise, and the cache is untouched. |
| `Navigation.NavigateToRoot` | src/js/ui.js:426-434 | Going to the root clears the focus and the path, then reloads. |
| `Navigation.OpenTaskViewFocus` | src/js/ui.js:353-377 | Opening a task focuses it and stores its path, taken from the cache it was opened from. The path is non-empty and ends with the task iff the task is cached, and is parent-linked. |
| `Navigation.NavigateBackCases` | src/js/ui.js:531-549 | Back navigation without focus is a no-op. A cached parent becomes the focus, with the path losing its last entry. No parent, or an uncached focus, goes to the root. An uncached parent is a no-op. |
| `Navigation.HandlerAgreesWithBack` | src/js/ui.js:17-40 | The first Ctrl/Cmd+Backspace handler behaves like `navigateBack` in every state but one. It differs when the focused task is cached and its parent id names an uncached task: the handler goes to the root, `navigateBack` stays. |
| `Navigation.DeleteFocusedGoesToRoot` | src/js/tasks.js:97-99 | The corrected focused delete is `navigateToRoot`. |
| `Breadcrumbs.ItemsSeparators` | src/js/ui.js:397-402 | ui.js emits one separator per path entry, cached or not. |
| `Breadcrumbs.ScriptItemsSeparators` | script.js:272-279 | script.js emits a separator only for cached entries. |
| `Breadcrumbs.ItemsEntries` | src/js/ui.js:404-419 | In both trails an entry gets a link exactly when it is cached and not last, and the inert label exactly when it is cached and last. Uncached entries get neither. |
| `Breadcrumbs.AllCachedLayout` | src/js/ui.js:397-423 | With every entry cached, both trails are the same strict alternation of separator and entry. |
| `Breadcrumbs.FocusTrail` | src/js/ui.js:379-424 | For an opened cached task, both trails are home, then separator and link for each ancestor, then separator and the task's inert label. |
| `DetailsEditor.AsWrittenSavesWrongText` | script.js:197-203 | As written, text typed for task 1, then opening task 2 before the timer fires, saves task 2's details under task 1. |
| `DetailsEditor.FixedSavesTypedText` | script.js:197-203 | With the save capturing its text, the same events save what was typed for task 1. |
| `DetailsEditor.FixedPendingIsLastInput` | script.js:197-203 | In the corrected editor at most one save is pending. It carries the most recent input and the task open when it was typed, and only task openings have happened since. |
| `DetailsEditor.FireSavesLastInput` | script.js:199-202 | When the timer fires, the corrected editor saves at most one thing: the last text typed, under the task it was typed for. |
| `DetailsEditor.TypedIsPending` | script.js:197-203 | Conversely, text typed while a task is open, with only task openings since, is the save the corrected editor has pending, under that task. |
| `DetailsEditor.FireSavesTyped` | script.js:199-202 | When the timer then fires, the corrected editor saves exactly that text under that task. |

## Left out

- Authentication. The `getUser` checks are folded into failure outcomes, except for `deleteTask`, where being signed in decides whether any request is sent.
- Supabase queries are not modelled: no query builder and no user scoping. Each call is an abstract outcome, and the fetched rows are taken as given.
- The DOM is not modelled: element creation, CSS classes, visibility toggles, titles and checkboxes. Rendering keeps only the `(id, depth)` sequence, and breadcrumbs keep only the kinds and targets of their items.
- Timers are not modelled. `Date.now()` is the parameter `now`, and the 500 ms debounce delay is the `Fire` event.
- `ScriptRenderChildTasks` takes whether a container exists as a parameter. Whether `createTaskElement` (script.js) makes an inner list is a DOM detail.
- Opening an uncached task in script.js throws before the text area is touched, so the details editor sees no event for it. Its focus change is `ScriptOps.OpenTaskView`.
- `navigateToTasks` (script.js) has the same focus and cache effect as `navigateToRoot`; it also hides the account page.
- The task input handlers of src/js/ui.js (lines 49-91) are not modelled. They trim the text, ignore an empty one, and then call `createTask`, which is `TaskOps.CreateTask`.
- The insert-and-cache step of `addTask` (script.js:357-398) and of the root add handler (script.js:401-451) is not modelled. script.js has no `createTask`: these handlers insert the row and call `taskCache.set` themselves. The position they use is `Positions.NextPosition`. `addTask` has no caller in script.js, does not trim its text, and skips the reload in the task view. The root add handler trims its text and then reloads.
- `showSaveIndicator` (script.js) is animation only.
- The two Ctrl/Cmd+Backspace handlers of src/js/ui.js are modelled as separate transitions (`BackspaceHandler`, `NavigateBack`). What they do when both fire on one key press is not asserted.
- Acyclicity is required of the whole cache, which is more than each function needs. With a cycle in `parent_id`:
  - `getTaskPathFromCache` (src/js/tasks.js:158-163, script.js:222-230) loops forever, but only for an id whose ancestor chain enters the cycle;
  - `addChildren` (src/js/tasks.js:114-121) and both `renderChildTasks` (src/js/ui.js:287-304, script.js:151-163) overflow the stack instead, and `deleteTask` catches the resulting `RangeError` at src/js/tasks.js:104;
  - rendering from the root level, or from any task that is itself rendered, never reaches a cycle, because no task in or below a cycle has an ancestor chain reaching a root-level task.

  The model describes none of this behaviour under cycles.
- Renders that `loadTasks` triggers are not modelled; their output is what `Rendering` describes for the reloaded cache.
- Interleaving of asynchronous handlers is not modelled. Every async operation runs to completion as one atomic step on one cache snapshot. Interleavings with an un-awaited `loadTasks` are not described; `openTaskView` (src/js/ui.js:376) and `navigateToRoot` (src/js/ui.js:433) start one without awaiting it. Such a reload can clear and refill the cache between the read of `toggleTask` (src/js/tasks.js:128) and its write-back (src/js/tasks.js:138-139). The write-back then re-inserts a stale or deleted record, which survives when the follow-up reload fails. Likewise `deleteTask` reads `currentTaskId` only after its awaits. `TaskOps.ToggleTask`, `TaskOps.ToggleTaskEffect` and `TaskOps.DeleteTask` describe only the uninterleaved run.
- `TaskOps.LoadTasks`, `TaskOps.CreateTask`, `TaskOps.ToggleTask`: the reload after an insert or toggle is the fetch parameter. What the server returns is not tied to the preceding write.

## Findings

| source | as written | input that shows it | evidently intended | confidence | as-written member | corrected member |
|---|---|---|---|---|---|---|
| src/js/tasks.js:97-99 | `deleteTask` calls `navigateToRoot()`, which src/js/tasks.js neither declares nor imports. The call throws a `ReferenceError`, and the `catch` at line 104 swallows it, so the focus stays on the deleted task and the cache is not reloaded. | Focus on task 5; `deleteTask(5)` with both deletions succeeding. | Clear the focus and path, then reload, as `navigateToRoot` in src/js/ui.js does. | not executed | `TaskOps.DeleteFocusedAsWritten` (over `TaskOps.DeleteTaskAsWritten`) | `TaskOps.DeleteTaskFocus`, `Navigation.DeleteFocusedGoesToRoot` (over `TaskOps.DeleteTask`) |
| script.js:197-203 | The debounced save reads the text area when the timer fires. Opening another task within 500 ms replaces the text area's contents, and the old timer is not cancelled. | Open task 1, type `x`, open task 2 with details `b`, timer fires: `saveTaskDetails(1, "b")`. | Save the text that was typed, under the task it was typed for. | not executed | `DetailsEditor.AsWrittenSavesWrongText` (over `DetailsEditor.Step`) | `DetailsEditor.FixedSavesTypedText`, `DetailsEditor.FixedPendingIsLastInput`, `DetailsEditor.FireSavesLastInput`, `DetailsEditor.TypedIsPending`, `DetailsEditor.FireSavesTyped` (over `DetailsEditor.FixedStep`) |
