/**
 * `getTaskPathFromCache`: the root-to-task list of ids, found by walking
 * `parent_id` upwards until the parent is missing or not cached.
 */
module Paths {
  import opened Wrappers
  import opened TaskCache
  import opened Forest

  /** The walk of src/js/tasks.js, unshifting each cached task's id. */
  function PathTo(c: Cache, id: Id): seq<Id>
    requires WellFormed(c)
    decreases Height(c, id)
  {
    if id !in c.tasks then []
    else match c.tasks[id].parentId
      case None => [c.tasks[id].id]
      case Some(p) => ParentLower(c, id); PathTo(c, p) + [c.tasks[id].id]
  }

  /** The same walk as the `while` loop of script.js. */
  method TaskPathFromCache(c: Cache, id: Id) returns (path: seq<Id>)
    requires WellFormed(c)
    ensures path == PathTo(c, id)
  {
    path := [];
    var current: Option<Id> := Some(id);
    while current.Some?
      invariant PathTo(c, id) == (if current.Some? then PathTo(c, current.value) else []) + path
      decreases if current.Some? then Height(c, current.value) + 1 else 0
    {
      var task := current.value;
      if task in c.tasks {
        if c.tasks[task].parentId.Some? { ParentLower(c, task); }
        path := [c.tasks[task].id] + path;
        current := c.tasks[task].parentId;
      } else {
        current := None;
      }
    }
  }

  /** A cached id's path is non-empty and ends with the id; an uncached
      id's path is empty. */
  lemma PathEnds(c: Cache, id: Id)
    requires WellFormed(c)
    ensures id in c.tasks <==> PathTo(c, id) != []
    ensures id in c.tasks ==> PathTo(c, id)[|PathTo(c, id)| - 1] == id
  {
  }

  /** Every entry is cached and is the parent of the next entry; the first
      entry is a root-level task or its parent is not cached. */
  ghost predicate ParentLinked(c: Cache, path: seq<Id>) {
    && (forall i | 0 <= i < |path| :: path[i] in c.tasks)
    && (forall i | 1 <= i < |path| ::
          path[i] in c.tasks && c.tasks[path[i]].parentId == Some(path[i - 1]))
    && (path != [] ==> path[0] in c.tasks && !HasCachedParent(c, path[0]))
  }

  /** Every path entry is cached and is the parent of the next entry; the
      first entry is a root-level task or its parent is not cached. */
  lemma {:induction false} PathLinked(c: Cache, id: Id)
    requires WellFormed(c)
    ensures ParentLinked(c, PathTo(c, id))
    decreases Height(c, id)
  {
    if id in c.tasks && c.tasks[id].parentId.Some? {
      var p := c.tasks[id].parentId.value;
      ParentLower(c, id);
      PathLinked(c, p);
      PathEnds(c, p);
      var path := PathTo(c, id);
      assert path == PathTo(c, p) + [id];
    }
  }

  /** Ranks strictly increase along a path, so its entries are distinct. */
  lemma {:induction false} PathRanks(c: Cache, id: Id)
    requires WellFormed(c)
    ensures forall i, j | 0 <= i < j < |PathTo(c, id)| ::
      PathTo(c, id)[i] in c.tasks && PathTo(c, id)[j] in c.tasks &&
      Rank(c)[PathTo(c, id)[i]] < Rank(c)[PathTo(c, id)[j]]
    decreases Height(c, id)
  {
    PathLinked(c, id);
    if id in c.tasks && c.tasks[id].parentId.Some? {
      var p := c.tasks[id].parentId.value;
      ParentLower(c, id);
      PathRanks(c, p);
      PathEnds(c, p);
      RankStep(c, id);
      var path := PathTo(c, id);
      var pp := PathTo(c, p);
      assert path == pp + [id];
      forall i, j | 0 <= i < j < |path| ensures Rank(c)[path[i]] < Rank(c)[path[j]] {
        if j == |path| - 1 && i < j - 1 {
          assert Rank(c)[path[i]] < Rank(c)[path[j - 1]];
        }
      }
    }
  }

  /** The walk visits each cached task at most once, so it takes at most as
      many steps as the cache has entries. */
  lemma PathBounded(c: Cache, id: Id)
    requires WellFormed(c)
    ensures forall i, j | 0 <= i < j < |PathTo(c, id)| :: PathTo(c, id)[i] != PathTo(c, id)[j]
    ensures |PathTo(c, id)| <= |c.tasks|
  {
    var path := PathTo(c, id);
    PathRanks(c, id);
    PathLinked(c, id);
    DistinctCardinality(path);
    forall i, j | 0 <= i < j < |path| ensures path[i] != path[j] {
      assert Rank(c)[path[i]] < Rank(c)[path[j]];
    }
    SubsetCardinality(Elems(path), c.tasks.Keys);
    assert |c.tasks.Keys| == |c.tasks|;
  }

  function Elems(s: seq<Id>): set<Id> {
    set x | x in s
  }

  lemma {:induction false} DistinctCardinality(s: seq<Id>)
    requires forall i, j | 0 <= i < j < |s| :: s[i] != s[j]
    ensures |Elems(s)| == |s|
    decreases |s|
  {
    if s != [] {
      var t := s[1..];
      var rest := Elems(t);
      DistinctCardinality(t);
      assert s[0] !in rest;
      assert |rest| == |t|;
      assert rest * {s[0]} == {};
      assert |rest + {s[0]}| == |t| + 1;
      forall x ensures x in s <==> x in rest + {s[0]} {
        if x in s {
          var k :| 0 <= k < |s| && s[k] == x;
          if k > 0 { assert t[k - 1] == x; }
        }
        if x in t {
          var k :| 0 <= k < |t| && t[k] == x;
          assert s[k + 1] == x;
        }
      }
      assert Elems(s) == rest + {s[0]};
    }
  }

  lemma {:induction false} SubsetCardinality(a: set<Id>, b: set<Id>)
    requires a <= b
    ensures |a| <= |b|
    decreases |a|
  {
    if a != {} {
      var x :| x in a;
      SubsetCardinality(a - {x}, b - {x});
    }
  }

  /** The entries before the last are exactly the cached ancestors: `a` is
      on the path to `x` and is not `x` iff `x` lies below the cached `a`. */
  lemma {:induction false} PathAncestors(c: Cache, x: Id, a: Id)
    requires WellFormed(c) && x in c.tasks
    ensures a in PathTo(c, x)[..|PathTo(c, x)| - 1] <==> a in c.tasks && Descends(c, x, Some(a))
    decreases Height(c, x)
  {
    PathEnds(c, x);
    if c.tasks[x].parentId.Some? {
      var p := c.tasks[x].parentId.value;
      ParentLower(c, x);
      var path := PathTo(c, x);
      if p in c.tasks {
        PathAncestors(c, p, a);
        PathEnds(c, p);
        assert path[..|path| - 1] == PathTo(c, p);
        assert PathTo(c, p) == PathTo(c, p)[..|PathTo(c, p)| - 1] + [p];
      } else {
        assert path == [x];
      }
    }
  }

  /** Stepping to the parent drops the last path entry; a task whose parent
      is missing or not cached has the one-entry path. */
  lemma PathOfParent(c: Cache, id: Id)
    requires WellFormed(c) && id in c.tasks
    ensures HasCachedParent(c, id) ==>
      PathTo(c, c.tasks[id].parentId.value) == PathTo(c, id)[..|PathTo(c, id)| - 1]
    ensures !HasCachedParent(c, id) ==> PathTo(c, id) == [id]
  {
    if c.tasks[id].parentId.Some? {
      var p := c.tasks[id].parentId.value;
      ParentLower(c, id);
      assert PathTo(c, id) == PathTo(c, p) + [id];
    }
  }
}
