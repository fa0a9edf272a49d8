/**
 * `getTasksByParentFromCache`: the cached tasks grouped by parent key, in
 * two variants. The one in src/js/tasks.js creates a group only for keys
 * that occur; the one in script.js always creates the `'root'` group.
 */
module Grouping {
  import opened Wrappers
  import opened TaskCache

  /** A parent key's group as the map holds it: `groups.get(key) || []`. */
  function Lookup(groups: map<ParentKey, seq<Task>>, key: ParentKey): seq<Task> {
    if key in groups then groups[key] else []
  }

  /** Reference definition: the tasks of `ts` whose parent key is `key`, in
      the order of `ts`. */
  function WithParent(ts: seq<Task>, key: ParentKey): seq<Task>
    decreases |ts|
  {
    if ts == [] then []
    else (if ts[0].parentId == key then [ts[0]] else []) + WithParent(ts[1..], key)
  }

  lemma {:induction false} WithParentMembers(ts: seq<Task>, key: ParentKey)
    ensures forall t :: t in WithParent(ts, key) <==> t in ts && t.parentId == key
    decreases |ts|
  {
    if ts != [] {
      WithParentMembers(ts[1..], key);
      assert ts == [ts[0]] + ts[1..];
    }
  }

  /** Filtering keeps ids distinct. */
  lemma {:induction false} WithParentDistinct(ts: seq<Task>, key: ParentKey)
    requires DistinctIds(ts)
    ensures DistinctIds(WithParent(ts, key))
    decreases |ts|
  {
    if ts != [] {
      var rest := WithParent(ts[1..], key);
      assert DistinctIds(ts[1..]) by {
        forall i, j | 0 <= i < j < |ts[1..]| ensures ts[1..][i].id != ts[1..][j].id {
          assert ts[1..][i] == ts[i + 1] && ts[1..][j] == ts[j + 1];
        }
      }
      WithParentDistinct(ts[1..], key);
      WithParentMembers(ts[1..], key);
      forall t | t in rest ensures t.id != ts[0].id {
        var j :| 0 <= j < |ts[1..]| && ts[1..][j] == t;
        assert ts[j + 1] == t;
      }
      DistinctCons(ts[0], rest);
    }
  }

  /** Each group lists distinct tasks. */
  lemma GroupDistinct(c: Cache, key: ParentKey)
    requires Valid(c)
    ensures DistinctIds(Group(c, key))
  {
    EntriesFacts(c);
    WithParentDistinct(Entries(c), key);
  }

  function ParentKeys(ts: seq<Task>): set<ParentKey> {
    set t | t in ts :: t.parentId
  }

  /** The `forEach` loop: each task is pushed onto its key's list, the list
      being created on first use. */
  function Grouped(ts: seq<Task>, acc: map<ParentKey, seq<Task>>): map<ParentKey, seq<Task>>
    decreases |ts|
  {
    if ts == [] then acc
    else
      var key := ts[0].parentId;
      Grouped(ts[1..], acc[key := Lookup(acc, key) + [ts[0]]])
  }

  /** The loop adds exactly the keys that occur in `ts`. */
  lemma {:induction false} GroupedKeys(ts: seq<Task>, acc: map<ParentKey, seq<Task>>)
    ensures Grouped(ts, acc).Keys == acc.Keys + ParentKeys(ts)
    decreases |ts|
  {
    if ts != [] {
      var key := ts[0].parentId;
      GroupedKeys(ts[1..], acc[key := Lookup(acc, key) + [ts[0]]]);
      assert ts == [ts[0]] + ts[1..];
      assert ParentKeys(ts) == {key} + ParentKeys(ts[1..]);
    }
  }

  /** The loop appends to each key's list exactly that key's tasks, in order. */
  lemma {:induction false} GroupedValues(ts: seq<Task>, acc: map<ParentKey, seq<Task>>, key: ParentKey)
    ensures Lookup(Grouped(ts, acc), key) == Lookup(acc, key) + WithParent(ts, key)
    decreases |ts|
  {
    if ts != [] {
      var k := ts[0].parentId;
      var acc' := acc[k := Lookup(acc, k) + [ts[0]]];
      GroupedValues(ts[1..], acc', key);
      assert Grouped(ts, acc) == Grouped(ts[1..], acc');
      if k == key {
        assert Lookup(acc', key) == Lookup(acc, key) + [ts[0]];
        assert WithParent(ts, key) == [ts[0]] + WithParent(ts[1..], key);
        assert Lookup(acc', key) + WithParent(ts[1..], key)
            == Lookup(acc, key) + ([ts[0]] + WithParent(ts[1..], key));
      } else {
        assert Lookup(acc', key) == Lookup(acc, key);
        assert WithParent(ts, key) == WithParent(ts[1..], key);
      }
    }
  }

  /** The group of `key` in cache iteration order. */
  function Group(c: Cache, key: ParentKey): seq<Task>
    requires Valid(c)
  {
    WithParent(Entries(c), key)
  }

  /** The group of `key` holds exactly the cached tasks whose parent is
      `key`, each once. */
  lemma GroupFacts(c: Cache, key: ParentKey)
    requires Valid(c)
    ensures forall t :: t in Group(c, key) <==> t.id in c.tasks && c.tasks[t.id] == t && t.parentId == key
    ensures DistinctIds(Group(c, key))
  {
    EntriesFacts(c);
    WithParentMembers(Entries(c), key);
    GroupDistinct(c, key);
  }

  /** src/js/tasks.js: only keys that occur get a group. */
  function TasksByParent(c: Cache): map<ParentKey, seq<Task>>
    requires Valid(c)
  {
    Grouped(Entries(c), map[])
  }

  /** script.js: the `'root'` group is created up front, even if empty. */
  function TasksByParentWithRoot(c: Cache): map<ParentKey, seq<Task>>
    requires Valid(c)
  {
    Grouped(Entries(c), map[None := []])
  }

  /** The tasks.js grouping, read through `get(key) || []`, is the
      reference grouping: each key's list is that key's tasks in cache
      iteration order. */
  lemma TasksByParentGroups(c: Cache)
    requires Valid(c)
    ensures forall key :: Lookup(TasksByParent(c), key) == Group(c, key)
  {
    forall key ensures Lookup(TasksByParent(c), key) == Group(c, key) {
      GroupedValues(Entries(c), map[], key);
    }
  }

  /** A tasks.js key is present exactly when some cached task carries it. */
  lemma TasksByParentKeys(c: Cache)
    requires Valid(c)
    ensures forall key :: key in TasksByParent(c) <==>
      exists id :: id in c.tasks && c.tasks[id].parentId == key
  {
    EntriesFacts(c);
    GroupedKeys(Entries(c), map[]);
    forall key ensures key in TasksByParent(c) <==> exists id :: id in c.tasks && c.tasks[id].parentId == key {
      if exists id :: id in c.tasks && c.tasks[id].parentId == key {
        var id :| id in c.tasks && c.tasks[id].parentId == key;
        assert c.tasks[id] in Entries(c);
      }
    }
  }

  /** The grouping partitions the cache: a task is in the group of `key`
      exactly when it is a cached record whose parent key is `key`, so each
      cached task is in exactly one group. */
  lemma TasksByParentPartitions(c: Cache)
    requires Valid(c)
    ensures forall key, t :: t in Lookup(TasksByParent(c), key) <==>
      t.id in c.tasks && c.tasks[t.id] == t && t.parentId == key
  {
    EntriesFacts(c);
    TasksByParentGroups(c);
    forall key, t ensures t in Lookup(TasksByParent(c), key) <==>
      t.id in c.tasks && c.tasks[t.id] == t && t.parentId == key
    {
      WithParentMembers(Entries(c), key);
    }
  }

  /** The two variants hand every caller the same groups; they differ only
      in that script.js always has a `'root'` key. */
  lemma GroupingVariantsAgree(c: Cache)
    requires Valid(c)
    ensures TasksByParentWithRoot(c).Keys == TasksByParent(c).Keys + {None}
    ensures forall key :: Lookup(TasksByParentWithRoot(c), key) == Lookup(TasksByParent(c), key)
    ensures None in TasksByParent(c) <==> exists t :: t in Entries(c) && t.parentId.None?
  {
    GroupedKeys(Entries(c), map[]);
    GroupedKeys(Entries(c), map[None := []]);
    forall key ensures Lookup(TasksByParentWithRoot(c), key) == Lookup(TasksByParent(c), key) {
      GroupedValues(Entries(c), map[], key);
      GroupedValues(Entries(c), map[None := []], key);
    }
  }
}
