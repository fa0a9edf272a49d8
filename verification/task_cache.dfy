/**
 * The in-memory task cache: a JavaScript `Map` from task id to task record.
 * A `Map` iterates in insertion order, so the model keeps that order next to
 * the key/value mapping.
 */
module TaskCache {
  import opened Wrappers

  /** Store-assigned task ids; every id is truthy. */
  type Id = x: int | 1 <= x witness 1

  /** The grouping key `parent_id || 'root'`; `None` stands for `'root'`. */
  type ParentKey = Option<Id>

  datatype Task = Task(
    id: Id,
    text: string,
    completed: bool,
    details: Option<string>,
    parentId: Option<Id>,
    position: Option<int>)

  /** `task.position || 0`: a missing position sorts as 0. */
  function Pos(t: Task): int {
    t.position.GetOr(0)
  }

  datatype Cache = Cache(order: seq<Id>, tasks: map<Id, Task>)

  /** Well-formed map: the iteration order lists every key exactly once,
      and every record is stored under its own id (`set(task.id, task)`). */
  ghost predicate Valid(c: Cache) {
    && (forall i, j | 0 <= i < j < |c.order| :: c.order[i] != c.order[j])
    && (forall i | 0 <= i < |c.order| :: c.order[i] in c.tasks)
    && (forall id | id in c.tasks :: id in c.order && c.tasks[id].id == id)
  }

  const Empty: Cache := Cache([], map[])

  ghost predicate DistinctIds(ts: seq<Task>) {
    forall i, j | 0 <= i < j < |ts| :: ts[i].id != ts[j].id
  }

  function IdSet(ts: seq<Task>): set<Id> {
    set t | t in ts :: t.id
  }

  lemma DistinctCons(h: Task, s: seq<Task>)
    requires DistinctIds(s) && forall t | t in s :: t.id != h.id
    ensures DistinctIds([h] + s)
  {
    var hs := [h] + s;
    forall i, j | 0 <= i < j < |hs| ensures hs[i].id != hs[j].id {
      assert hs[j] == s[j - 1];
      if i > 0 { assert hs[i] == s[i - 1]; }
    }
  }

  /** The records in iteration order (`taskCache.forEach` / `values()`). */
  function Entries(c: Cache): (es: seq<Task>)
    requires Valid(c)
    ensures |es| == |c.order|
    ensures forall i | 0 <= i < |es| :: es[i] == c.tasks[c.order[i]]
  {
    seq(|c.order|, i requires 0 <= i < |c.order| => c.tasks[c.order[i]])
  }

  /** The entries are exactly the cached records, each once. */
  lemma EntriesFacts(c: Cache)
    requires Valid(c)
    ensures DistinctIds(Entries(c))
    ensures forall t :: t in Entries(c) <==> t.id in c.tasks && c.tasks[t.id] == t
    ensures IdSet(Entries(c)) == c.tasks.Keys
  {
    var es := Entries(c);
    forall t: Task | t.id in c.tasks && c.tasks[t.id] == t
      ensures t in es
    {
      var i :| 0 <= i < |c.order| && c.order[i] == t.id;
      assert es[i] == t;
    }
  }

  /** `taskCache.set(t.id, t)`: a new key goes to the end of the iteration
      order, an existing key keeps its place. */
  function Set(c: Cache, t: Task): (r: Cache)
    requires Valid(c)
    ensures Valid(r)
    ensures r.tasks == c.tasks[t.id := t]
    ensures t.id in c.tasks ==> r.order == c.order
    ensures t.id !in c.tasks ==> r.order == c.order + [t.id]
  {
    if t.id in c.tasks then Cache(c.order, c.tasks[t.id := t])
    else Cache(c.order + [t.id], c.tasks[t.id := t])
  }

  /** Setting a new key appends its record to the iteration. */
  lemma SetFreshEntries(c: Cache, t: Task)
    requires Valid(c) && t.id !in c.tasks
    ensures Entries(Set(c, t)) == Entries(c) + [t]
  {
  }

  /** `i` is the last index of `ts` carrying its id. */
  ghost predicate LastWithId(ts: seq<Task>, i: int)
    requires 0 <= i < |ts|
  {
    forall j | i < j < |ts| :: ts[j].id != ts[i].id
  }

  /** `ts.forEach(task => taskCache.set(task.id, task))`: the records are
      set one after the other, the last one last. */
  function SetAll(c: Cache, ts: seq<Task>): (r: Cache)
    requires Valid(c)
    ensures Valid(r)
    decreases |ts|
  {
    if ts == [] then c else Set(SetAll(c, ts[..|ts| - 1]), ts[|ts| - 1])
  }

  /** After `SetAll` the keys are the old keys plus the ids set. */
  lemma {:induction false} SetAllKeys(c: Cache, ts: seq<Task>)
    requires Valid(c)
    ensures SetAll(c, ts).tasks.Keys == c.tasks.Keys + IdSet(ts)
    decreases |ts|
  {
    if ts != [] {
      SetAllKeys(c, ts[..|ts| - 1]);
      SnocFacts(ts);
    }
  }

  /** Each id set maps to the latest record carrying it. */
  lemma {:induction false} SetAllLatest(c: Cache, ts: seq<Task>)
    requires Valid(c)
    ensures forall i | 0 <= i < |ts| && LastWithId(ts, i) ::
      ts[i].id in SetAll(c, ts).tasks && SetAll(c, ts).tasks[ts[i].id] == ts[i]
    decreases |ts|
  {
    if ts != [] {
      var init, last := ts[..|ts| - 1], ts[|ts| - 1];
      SetAllLatest(c, init);
      SnocFacts(ts);
      var prev := SetAll(c, init);
      forall i | 0 <= i < |ts| && LastWithId(ts, i)
        ensures ts[i].id in Set(prev, last).tasks && Set(prev, last).tasks[ts[i].id] == ts[i]
      {
        if i < |ts| - 1 {
          assert LastWithId(init, i) && ts[i].id != last.id;
          assert init[i] == ts[i];
        }
      }
    }
  }

  /** Ids that are not set keep their old record. */
  lemma {:induction false} SetAllKeeps(c: Cache, ts: seq<Task>)
    requires Valid(c)
    ensures forall id | id in c.tasks && id !in IdSet(ts) ::
      id in SetAll(c, ts).tasks && SetAll(c, ts).tasks[id] == c.tasks[id]
    decreases |ts|
  {
    if ts != [] {
      SetAllKeeps(c, ts[..|ts| - 1]);
      SnocFacts(ts);
    }
  }

  /** Setting records with new, distinct ids appends them in order. */
  lemma {:induction false} SetAllAppends(c: Cache, ts: seq<Task>)
    requires Valid(c)
    ensures DistinctIds(ts) && IdSet(ts) !! c.tasks.Keys ==> Entries(SetAll(c, ts)) == Entries(c) + ts
    decreases |ts|
  {
    if ts != [] && DistinctIds(ts) && IdSet(ts) !! c.tasks.Keys {
      var init, last := ts[..|ts| - 1], ts[|ts| - 1];
      var prev := SetAll(c, init);
      assert SetAll(c, ts) == Set(prev, last);
      SnocFacts(ts);
      SnocDistinct(ts);
      assert IdSet(init) !! c.tasks.Keys;
      SetAllAppends(c, init);
      SetAllKeys(c, init);
      assert last.id !in prev.tasks;
      SetFreshEntries(prev, last);
      assert init + [last] == ts;
    }
  }

  /** How `IdSet` and `LastWithId` split off the last record. */
  lemma SnocFacts(ts: seq<Task>)
    requires ts != []
    ensures IdSet(ts) == IdSet(ts[..|ts| - 1]) + {ts[|ts| - 1].id}
    ensures forall i | 0 <= i < |ts| - 1 && LastWithId(ts, i) ::
      LastWithId(ts[..|ts| - 1], i) && ts[i].id != ts[|ts| - 1].id
  {
    assert ts[..|ts| - 1] + [ts[|ts| - 1]] == ts;
  }

  /** Distinct ids stay distinct without the last record, which is new. */
  lemma SnocDistinct(ts: seq<Task>)
    requires ts != [] && DistinctIds(ts)
    ensures DistinctIds(ts[..|ts| - 1])
    ensures ts[|ts| - 1].id !in IdSet(ts[..|ts| - 1])
  {
    var init := ts[..|ts| - 1];
    forall u | u in init ensures u.id != ts[|ts| - 1].id {
      var j :| 0 <= j < |init| && init[j] == u;
      assert ts[j] == u;
    }
  }

  /** `taskCache.clear()` followed by re-filling from the fetched rows. */
  function Reload(ts: seq<Task>): (r: Cache)
    ensures Valid(r)
    ensures r.tasks.Keys == IdSet(ts)
    ensures forall i | 0 <= i < |ts| && LastWithId(ts, i) :: r.tasks[ts[i].id] == ts[i]
    ensures DistinctIds(ts) ==> Entries(r) == ts
  {
    SetAllKeys(Empty, ts);
    SetAllLatest(Empty, ts);
    SetAllAppends(Empty, ts);
    SetAll(Empty, ts)
  }
}
