/**
 * The cache and focus effects of the task operations in src/js/tasks.js:
 * `loadTasks`, `createTask`, `toggleTask` and `deleteTask`. Each store call
 * is a parameter; every error is caught and shown, leaving the state as the
 * failing step found it.
 */
module TaskOps {
  import opened Wrappers
  import opened TaskCache
  import opened Forest
  import opened Grouping
  import opened Positions
  import opened Descendants
  import opened Traversal
  import opened Store

  /** The client state of src/js/tasks.js: the cache, `currentTaskId`
      and `taskPath`. */
  datatype Session = Session(cache: Cache, focus: Option<Id>, path: seq<Id>)

  /** `loadTasks`: on a successful fetch the cache is cleared and refilled
      from the rows; on an error it is untouched. */
  function LoadTasks(c: Cache, fetch: Fetch): (r: Cache)
    requires Valid(c)
    ensures Valid(r)
    ensures fetch.FetchFailed? ==> r == c
    ensures fetch.Fetched? ==> r.tasks.Keys == IdSet(fetch.rows)
    ensures fetch.Fetched? ==> forall i | 0 <= i < |fetch.rows| && LastWithId(fetch.rows, i) ::
      r.tasks[fetch.rows[i].id] == fetch.rows[i]
    ensures fetch.Fetched? && DistinctIds(fetch.rows) ==> Entries(r) == fetch.rows
  {
    match fetch
    case FetchFailed => c
    case Fetched(rows) => Reload(rows)
  }

  /** The row `createTask` inserts, as the store returns it. */
  function NewTask(id: Id, text: string, parent: Option<Id>, position: int): Task {
    Task(id, text, false, None, parent, Some(position))
  }

  /** `createTask`: insert at `CreatePosition`, cache the returned row,
      then reload. */
  function CreateTask(c: Cache, text: string, parent: Option<Id>, ins: Insertion, fetch: Fetch): (r: Cache)
    requires Valid(c)
    ensures Valid(r)
    ensures ins.InsertFailed? ==> r == c
  {
    match ins
    case InsertFailed => c
    case Inserted(id) => LoadTasks(Set(c, NewTask(id, text, parent, CreatePosition(c, parent))), fetch)
  }

  /** Before the reload, creating a task adds exactly the new record, at a
      position above all its siblings', and changes no existing task. */
  lemma CreateTaskAdds(c: Cache, text: string, parent: Option<Id>, id: Id)
    requires Valid(c) && id !in c.tasks
    ensures var r := CreateTask(c, text, parent, Inserted(id), FetchFailed);
      && r.tasks.Keys == c.tasks.Keys + {id}
      && (forall x | x in c.tasks :: r.tasks[x] == c.tasks[x])
      && r.tasks[id].parentId == parent && !r.tasks[id].completed && r.tasks[id].text == text
      && Pos(r.tasks[id]) >= 1
      && (forall x | x in c.tasks && c.tasks[x].parentId == parent :: Pos(c.tasks[x]) < Pos(r.tasks[id]))
      && Entries(r) == Entries(c) + [r.tasks[id]]
  {
    var t := NewTask(id, text, parent, CreatePosition(c, parent));
    assert CreateTask(c, text, parent, Inserted(id), FetchFailed) == Set(c, t);
    CreatePositionBounds(c, parent);
    SetFreshEntries(c, t);
  }

  /** `toggleTask`: nothing for an uncached id or a failed update;
      otherwise flip `completed` in the cache, then reload. */
  function ToggleTask(c: Cache, id: Id, update: Outcome, fetch: Fetch): (r: Cache)
    requires Valid(c)
    ensures Valid(r)
  {
    if id !in c.tasks || update.Failed? then c
    else LoadTasks(Set(c, c.tasks[id].(completed := !c.tasks[id].completed)), fetch)
  }

  /** Toggling changes the cache only when the task is cached and the store
      update succeeded; then (before any reload) it flips that task's
      `completed` flag and nothing else. */
  lemma ToggleTaskEffect(c: Cache, id: Id, update: Outcome)
    requires Valid(c)
    ensures id !in c.tasks ==> ToggleTask(c, id, update, FetchFailed) == c
    ensures update.Failed? ==> ToggleTask(c, id, update, FetchFailed) == c
    ensures id in c.tasks && update.Succeeded? ==>
      var r := ToggleTask(c, id, update, FetchFailed);
      && r.order == c.order
      && r.tasks.Keys == c.tasks.Keys
      && r.tasks[id].completed == !c.tasks[id].completed
      && r.tasks[id].(completed := c.tasks[id].completed) == c.tasks[id]
      && (forall x | x in c.tasks && x != id :: r.tasks[x] == c.tasks[x])
  {
  }

  /** Two successful toggles without a reload restore the cache. */
  lemma ToggleTwice(c: Cache, id: Id)
    requires Valid(c)
    ensures ToggleTask(ToggleTask(c, id, Succeeded, FetchFailed), id, Succeeded, FetchFailed) == c
  {
    if id in c.tasks {
      var r := ToggleTask(c, id, Succeeded, FetchFailed);
      assert r.tasks[id := r.tasks[id].(completed := !r.tasks[id].completed)] == c.tasks;
    }
  }

  /** A store request made by `deleteTask`. */
  datatype Request = DeleteMany(ids: seq<Id>) | DeleteOne(id: Id)

  function RequestedIds(reqs: seq<Request>): set<Id>
    decreases |reqs|
  {
    if reqs == [] then {}
    else
      (match reqs[0]
       case DeleteMany(ids) => set x | x in ids
       case DeleteOne(x) => {x})
      + RequestedIds(reqs[1..])
  }

  /** The requests `deleteTask` sends: the descendants in one request when
      there are any, then, unless that failed, the task itself. */
  function DeleteRequests(c: Cache, taskId: Id, signedIn: bool, children: Outcome, self: Outcome): (reqs: seq<Request>)
    requires WellFormed(c)
  {
    if !signedIn then []
    else
      var desc := DescendantIds(c, taskId);
      var first := if |desc| > 0 then [DeleteMany(desc)] else [];
      if |desc| > 0 && children.Failed? then first
      else first + [DeleteOne(taskId)]
  }

  /** Whether every request was sent and succeeded. */
  predicate DeleteSucceeded(c: Cache, taskId: Id, signedIn: bool, children: Outcome, self: Outcome)
    requires WellFormed(c)
  {
    signedIn && (|DescendantIds(c, taskId)| == 0 || children.Succeeded?) && self.Succeeded?
  }

  /** `deleteTask` as written: when the deleted task is the focused one,
      the `navigateToRoot()` call at src/js/tasks.js:99 names a function
      that module neither declares nor imports, so it throws a
      `ReferenceError` that the `catch` swallows; nothing changes. */
  function DeleteTaskAsWritten(s: Session, taskId: Id, signedIn: bool, children: Outcome, self: Outcome, fetch: Fetch): Session
    requires WellFormed(s.cache)
  {
    if !DeleteSucceeded(s.cache, taskId, signedIn, children, self) then s
    else if Some(taskId) == s.focus then s
    else s.(cache := LoadTasks(s.cache, fetch))
  }

  /** `deleteTask` as intended: deleting the focused task goes to the root
      (no focus, empty path, reload); any other deletion just reloads. */
  function DeleteTask(s: Session, taskId: Id, signedIn: bool, children: Outcome, self: Outcome, fetch: Fetch): (r: Session)
    requires WellFormed(s.cache)
  {
    if !DeleteSucceeded(s.cache, taskId, signedIn, children, self) then s
    else if Some(taskId) == s.focus then Session(LoadTasks(s.cache, fetch), None, [])
    else s.(cache := LoadTasks(s.cache, fetch))
  }

  /** A fully successful delete asks the store to remove exactly the task
      and everything below it, descendants first, each id once. */
  lemma DeleteRequestsCover(c: Cache, taskId: Id, children: Outcome, self: Outcome)
    requires WellFormed(c)
    requires DeleteSucceeded(c, taskId, true, children, self)
    ensures var reqs := DeleteRequests(c, taskId, true, children, self);
      && RequestedIds(reqs) == {taskId} + (set x | x in c.tasks && Descends(c, x, Some(taskId)))
      && reqs[|reqs| - 1] == DeleteOne(taskId)
      && (|reqs| == 2 ==> reqs[0].DeleteMany? && NoDups(reqs[0].ids) && taskId !in reqs[0].ids)
      && |reqs| <= 2
  {
    var desc := DescendantIds(c, taskId);
    DescendantIdsExact(c, taskId);
    DescendantIdsDistinct(c, taskId);
    var reqs := DeleteRequests(c, taskId, true, children, self);
    assert (set x | x in desc) == (set x | x in c.tasks && Descends(c, x, Some(taskId)));
    if |desc| > 0 {
      assert reqs == [DeleteMany(desc), DeleteOne(taskId)];
      assert reqs[1..] == [DeleteOne(taskId)] && reqs[1..][1..] == [];
      assert RequestedIds(reqs[1..]) == {taskId};
    } else {
      assert reqs == [DeleteOne(taskId)];
      assert reqs[1..] == [];
      assert (set x | x in c.tasks && Descends(c, x, Some(taskId))) == {};
    }
  }

  /** If removing the descendants fails, the task itself is not deleted
      and nothing changes. */
  lemma DeleteStopsOnChildFailure(s: Session, taskId: Id, fetch: Fetch)
    requires WellFormed(s.cache) && |DescendantIds(s.cache, taskId)| > 0
    ensures forall r | r in DeleteRequests(s.cache, taskId, true, Failed, Succeeded) :: !r.DeleteOne?
    ensures DeleteTask(s, taskId, true, Failed, Succeeded, fetch) == s
    ensures DeleteTaskAsWritten(s, taskId, true, Failed, Succeeded, fetch) == s
  {
  }

  /** As intended, a successful delete resets the focus to the root exactly
      when the deleted task is the focused one. */
  lemma DeleteTaskFocus(s: Session, taskId: Id, children: Outcome, self: Outcome, fetch: Fetch)
    requires WellFormed(s.cache) && DeleteSucceeded(s.cache, taskId, true, children, self)
    ensures var r := DeleteTask(s, taskId, true, children, self, fetch);
      && r.cache == LoadTasks(s.cache, fetch)
      && (r.focus == None <==> s.focus == None || s.focus == Some(taskId))
      && (s.focus == Some(taskId) ==> r.path == [])
      && (s.focus != Some(taskId) ==> r.focus == s.focus && r.path == s.path)
  {
  }

  /** As written, deleting the focused task leaves the focus on the deleted
      id and skips the reload, even though both deletions succeeded. */
  lemma DeleteFocusedAsWritten(s: Session, taskId: Id, children: Outcome, self: Outcome, fetch: Fetch)
    requires WellFormed(s.cache) && DeleteSucceeded(s.cache, taskId, true, children, self)
    requires s.focus == Some(taskId)
    ensures DeleteTaskAsWritten(s, taskId, true, children, self, fetch) == s
    ensures DeleteTaskAsWritten(s, taskId, true, children, self, fetch).focus == Some(taskId)
    ensures DeleteTask(s, taskId, true, children, self, fetch).focus == None
  {
  }
}
