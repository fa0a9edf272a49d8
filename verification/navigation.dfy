/**
 * The focus state machine of src/js/ui.js over the state of src/js/tasks.js
 * (`currentTaskId`, `taskPath` and the cache): `openTaskView`,
 * `navigateToRoot`, `navigateBack` and the first Ctrl/Cmd+Backspace
 * handler. Each transition ends with `loadTasks`, whose fetch is a
 * parameter; the path is computed on the cache before that reload.
 */
module Navigation {
  import opened Wrappers
  import opened TaskCache
  import opened Forest
  import opened Paths
  import opened Store
  import opened TaskOps

  /** `openTaskView(task)`: focus the task, store its cached path, reload. */
  function OpenTaskView(s: Session, task: Task, fetch: Fetch): (r: Session)
    requires WellFormed(s.cache)
  {
    Session(LoadTasks(s.cache, fetch), Some(task.id), PathTo(s.cache, task.id))
  }

  /** `navigateToRoot()`: no focus, empty path, reload. */
  function NavigateToRoot(s: Session, fetch: Fetch): (r: Session)
    requires Valid(s.cache)
    ensures r.focus == None && r.path == []
    ensures r.cache == LoadTasks(s.cache, fetch)
  {
    Session(LoadTasks(s.cache, fetch), None, [])
  }

  /** `navigateBack()`: up to the cached parent, to the root when the
      focused task has no parent (or is not cached), and nowhere when the
      parent is not cached. */
  function NavigateBack(s: Session, fetch: Fetch): (r: Session)
    requires WellFormed(s.cache)
  {
    match s.focus
    case None => s
    case Some(f) =>
      var parent := if f in s.cache.tasks then s.cache.tasks[f].parentId else None;
      match parent
      case Some(p) => if p in s.cache.tasks then OpenTaskView(s, s.cache.tasks[p], fetch) else s
      case None => NavigateToRoot(s, fetch)
  }

  /** The first Ctrl/Cmd+Backspace handler: with a path longer than one
      entry open the entry before the last, otherwise go to the root. */
  function BackspaceHandler(s: Session, fetch: Fetch): (r: Session)
    requires WellFormed(s.cache)
  {
    match s.focus
    case None => s
    case Some(f) =>
      var path := PathTo(s.cache, f);
      if |path| > 1 then
        var parentId := path[|path| - 2];
        if parentId in s.cache.tasks then OpenTaskView(s, s.cache.tasks[parentId], fetch) else s
      else NavigateToRoot(s, fetch)
  }

  /** Opening a task focuses it and stores its path in the cache it was
      opened from: non-empty and ending with it when cached, parent-linked,
      starting at a task without a cached parent. */
  lemma OpenTaskViewFocus(s: Session, task: Task, fetch: Fetch)
    requires WellFormed(s.cache)
    ensures var r := OpenTaskView(s, task, fetch);
      && r.focus == Some(task.id)
      && r.cache == LoadTasks(s.cache, fetch)
      && (task.id in s.cache.tasks <==> r.path != [])
      && (task.id in s.cache.tasks ==> r.path[|r.path| - 1] == task.id)
      && ParentLinked(s.cache, r.path)
  {
    PathEnds(s.cache, task.id);
    PathLinked(s.cache, task.id);
  }

  /** `navigateBack` by cases: no focus is a no-op; a cached parent becomes
      the focus, with the path shortened by its last entry; no parent (or
      an uncached focus) goes to the root; an uncached parent is a no-op. */
  lemma NavigateBackCases(s: Session, fetch: Fetch)
    requires WellFormed(s.cache)
    ensures s.focus.None? ==> NavigateBack(s, fetch) == s
    ensures s.focus.Some? && s.focus.value in s.cache.tasks && HasCachedParent(s.cache, s.focus.value) ==>
      var f := s.focus.value;
      var r := NavigateBack(s, fetch);
      && r.focus == s.cache.tasks[f].parentId
      && r.path == PathTo(s.cache, f)[..|PathTo(s.cache, f)| - 1]
      && r.cache == LoadTasks(s.cache, fetch)
    ensures s.focus.Some? && (s.focus.value !in s.cache.tasks || s.cache.tasks[s.focus.value].parentId.None?) ==>
      NavigateBack(s, fetch) == NavigateToRoot(s, fetch)
    ensures s.focus.Some? && s.focus.value in s.cache.tasks && s.cache.tasks[s.focus.value].parentId.Some? &&
            !HasCachedParent(s.cache, s.focus.value) ==>
      NavigateBack(s, fetch) == s
  {
    if s.focus.Some? && s.focus.value in s.cache.tasks {
      PathOfParent(s.cache, s.focus.value);
    }
  }

  /** The first handler and `navigateBack` do the same thing except when
      the focused task is cached and its `parent_id` names a task that is
      not cached: the handler then goes to the root, `navigateBack` stays. */
  lemma HandlerAgreesWithBack(s: Session, fetch: Fetch)
    requires WellFormed(s.cache)
    ensures s.focus.Some? ==>
      (BackspaceHandler(s, fetch) == NavigateBack(s, fetch) <==>
        !(s.focus.value in s.cache.tasks && s.cache.tasks[s.focus.value].parentId.Some? &&
          !HasCachedParent(s.cache, s.focus.value)))
    ensures s.focus.None? ==> BackspaceHandler(s, fetch) == s == NavigateBack(s, fetch)
    ensures s.focus.Some? && s.focus.value in s.cache.tasks && s.cache.tasks[s.focus.value].parentId.Some? &&
            !HasCachedParent(s.cache, s.focus.value) ==>
      BackspaceHandler(s, fetch) == NavigateToRoot(s, fetch)
  {
    if s.focus.Some? {
      var f := s.focus.value;
      var c := s.cache;
      PathEnds(c, f);
      if f in c.tasks {
        PathOfParent(c, f);
        var path := PathTo(c, f);
        if HasCachedParent(c, f) {
          var p := c.tasks[f].parentId.value;
          PathEnds(c, p);
          PathLinked(c, f);
          assert path[|path| - 2] == p;
        }
      }
      if f in c.tasks && c.tasks[f].parentId.Some? && !HasCachedParent(c, f) {
        assert BackspaceHandler(s, fetch).focus.None?;
        assert NavigateBack(s, fetch).focus.Some?;
      }
    }
  }

  /** The intended `deleteTask` focus reset is `navigateToRoot`. */
  lemma DeleteFocusedGoesToRoot(s: Session, taskId: Id, children: Outcome, self: Outcome, fetch: Fetch)
    requires WellFormed(s.cache) && DeleteSucceeded(s.cache, taskId, true, children, self)
    requires s.focus == Some(taskId)
    ensures DeleteTask(s, taskId, true, children, self, fetch) == NavigateToRoot(s, fetch)
  {
  }
}
