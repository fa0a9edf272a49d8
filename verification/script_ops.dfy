/**
 * The client state of script.js and its cache effects: `loadTasks` with
 * its time-based freshness check, `saveTaskDetails`, `navigateToRoot` and
 * the focus part of `openTaskView`. The clock is the parameter `now`.
 */
module ScriptOps {
  import opened Wrappers
  import opened TaskCache
  import opened Forest
  import opened Paths
  import opened Store

  /** `CACHE_DURATION`, in milliseconds. */
  const CacheDuration: int := 5000

  /** `taskCache`, `lastFetchTime`, `currentTaskId` and `taskPath`. */
  datatype ScriptState = ScriptState(cache: Cache, lastFetch: int, focus: Option<Id>, path: seq<Id>)

  /** A non-empty cache fetched less than `CacheDuration` ago is used as is. */
  predicate Fresh(s: ScriptState, now: int) {
    |s.cache.tasks| > 0 && now - s.lastFetch < CacheDuration
  }

  /** `loadTasks`: skip the fetch while fresh; otherwise replace the cache
      with the fetched rows and record the time, or keep everything on an
      error. */
  function LoadTasks(s: ScriptState, now: int, fetch: Fetch): (r: ScriptState)
    requires Valid(s.cache)
    ensures Valid(r.cache)
    ensures r.focus == s.focus && r.path == s.path
  {
    if Fresh(s, now) then s
    else match fetch
      case FetchFailed => s
      case Fetched(rows) => s.(cache := Reload(rows), lastFetch := now)
  }

  /** Within the freshness window nothing changes, whatever the store
      would return; outside it a successful fetch replaces the cache
      wholesale and stamps the time. */
  lemma LoadTasksFreshness(s: ScriptState, now: int, fetch: Fetch)
    requires Valid(s.cache)
    ensures Fresh(s, now) ==> LoadTasks(s, now, fetch) == s
    ensures !Fresh(s, now) && fetch.FetchFailed? ==> LoadTasks(s, now, fetch) == s
    ensures !Fresh(s, now) && fetch.Fetched? ==>
      && LoadTasks(s, now, fetch).cache.tasks.Keys == IdSet(fetch.rows)
      && (forall i | 0 <= i < |fetch.rows| && LastWithId(fetch.rows, i) ::
            LoadTasks(s, now, fetch).cache.tasks[fetch.rows[i].id] == fetch.rows[i])
      && LoadTasks(s, now, fetch).lastFetch == now
  {
  }

  /** After a successful fetch of at least one row, any load in the next
      `CacheDuration` milliseconds is a no-op. */
  lemma LoadTasksThrottles(s: ScriptState, now: int, rows: seq<Task>, later: int, fetch: Fetch)
    requires Valid(s.cache) && !Fresh(s, now) && rows != []
    requires now <= later < now + CacheDuration
    ensures LoadTasks(LoadTasks(s, now, Fetched(rows)), later, fetch) == LoadTasks(s, now, Fetched(rows))
  {
    assert rows[0].id in IdSet(rows);
  }

  /** `saveTaskDetails`: after a successful update, patch `details` of the
      cached record; an uncached id or a failed update leaves the cache. */
  function SaveTaskDetails(c: Cache, taskId: Id, details: string, update: Outcome): (r: Cache)
    requires Valid(c)
    ensures Valid(r)
  {
    if update.Failed? || taskId !in c.tasks then c
    else Set(c, c.tasks[taskId].(details := Some(details)))
  }

  /** Only the target task's `details` can change. */
  lemma SaveTaskDetailsEffect(c: Cache, taskId: Id, details: string, update: Outcome)
    requires Valid(c)
    ensures update.Failed? ==> SaveTaskDetails(c, taskId, details, update) == c
    ensures taskId !in c.tasks ==> SaveTaskDetails(c, taskId, details, update) == c
    ensures update.Succeeded? && taskId in c.tasks ==>
      var r := SaveTaskDetails(c, taskId, details, update);
      && r.order == c.order
      && r.tasks.Keys == c.tasks.Keys
      && r.tasks[taskId].details == Some(details)
      && r.tasks[taskId].(details := c.tasks[taskId].details) == c.tasks[taskId]
      && (forall x | x in c.tasks && x != taskId :: r.tasks[x] == c.tasks[x])
  {
  }

  /** Saving the same text again changes nothing. */
  lemma SaveTaskDetailsIdempotent(c: Cache, taskId: Id, details: string, update: Outcome)
    requires Valid(c)
    ensures var r := SaveTaskDetails(c, taskId, details, update);
      SaveTaskDetails(r, taskId, details, update) == r
  {
    var r := SaveTaskDetails(c, taskId, details, update);
    if update.Succeeded? && taskId in c.tasks {
      assert r.tasks[taskId := r.tasks[taskId].(details := Some(details))] == r.tasks;
    }
  }

  /** `navigateToRoot`: no focus, empty path, then `loadTasks`. */
  function NavigateToRoot(s: ScriptState, now: int, fetch: Fetch): (r: ScriptState)
    requires Valid(s.cache)
    ensures r.focus == None && r.path == []
  {
    LoadTasks(s.(focus := None, path := []), now, fetch)
  }

  /** Going to the root refetches only when the cache is stale: while it is
      fresh, or when the fetch fails, only the focus and the path change. */
  lemma NavigateToRootReloads(s: ScriptState, now: int, fetch: Fetch)
    requires Valid(s.cache)
    ensures Fresh(s, now) || fetch.FetchFailed? ==>
      NavigateToRoot(s, now, fetch) == s.(focus := None, path := [])
    ensures !Fresh(s, now) && fetch.Fetched? ==>
      && NavigateToRoot(s, now, fetch).cache.tasks.Keys == IdSet(fetch.rows)
      && NavigateToRoot(s, now, fetch).lastFetch == now
  {
  }

  /** The focus part of `openTaskView`: the focus and the cached path are
      set before the task is looked up, so they change even when the
      lookup then fails. */
  function OpenTaskView(s: ScriptState, task: Task): (r: ScriptState)
    requires WellFormed(s.cache)
  {
    s.(focus := Some(task.id), path := PathTo(s.cache, task.id))
  }

  /** The opened task is focused; its path ends with it when it is cached
      and is empty when it is not; the cache is untouched. */
  lemma OpenTaskViewFocus(s: ScriptState, task: Task)
    requires WellFormed(s.cache)
    ensures var r := OpenTaskView(s, task);
      && r.cache == s.cache && r.lastFetch == s.lastFetch
      && r.focus == Some(task.id)
      && (task.id in s.cache.tasks ==> r.path != [] && r.path[|r.path| - 1] == task.id)
      && (task.id !in s.cache.tasks ==> r.path == [])
  {
    PathEnds(s.cache, task.id);
  }
}
