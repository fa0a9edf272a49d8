/**
 * The position given to a new task, in two variants. `createTask` in
 * src/js/tasks.js reduces the sibling group with `Math.max` starting from
 * 0 and adds 1; `getNextPosition` (src/js/tasks.js and script.js alike)
 * filters the cache with `parent_id === parentId` and returns 0 for an
 * empty group, else the largest sibling position plus 1.
 */
module Positions {
  import opened Wrappers
  import opened TaskCache
  import opened Grouping

  /** `ts.reduce((max, t) => Math.max(max, t.position || 0), acc)`. */
  function MaxFrom(ts: seq<Task>, acc: int): int
    decreases |ts|
  {
    if ts == [] then acc
    else MaxFrom(ts[1..], if Pos(ts[0]) > acc then Pos(ts[0]) else acc)
  }

  /** The fold is the maximum of the start value and the keys: at least
      each of them, and equal to one of them. */
  lemma {:induction false} MaxFromBounds(ts: seq<Task>, acc: int)
    ensures MaxFrom(ts, acc) >= acc
    ensures forall t | t in ts :: MaxFrom(ts, acc) >= Pos(t)
    ensures MaxFrom(ts, acc) == acc || exists t :: t in ts && MaxFrom(ts, acc) == Pos(t)
    decreases |ts|
  {
    if ts != [] {
      var acc' := if Pos(ts[0]) > acc then Pos(ts[0]) else acc;
      MaxFromBounds(ts[1..], acc');
      assert forall t | t in ts :: t == ts[0] || t in ts[1..];
      if MaxFrom(ts, acc) != acc && MaxFrom(ts[1..], acc') == acc' {
        assert MaxFrom(ts, acc) == Pos(ts[0]);
      }
    }
  }

  /** src/js/tasks.js `createTask`: one past the largest position in the
      `parentId || 'root'` group, counting from 0. */
  function CreatePosition(c: Cache, parent: ParentKey): int
    requires Valid(c)
  {
    MaxFrom(Lookup(TasksByParent(c), parent), 0) + 1
  }

  /** `getNextPosition`: the siblings of `Array.from(taskCache.values())`
      by strict equality of `parent_id`; 0 when there are none. */
  function NextPosition(c: Cache, parent: Option<Id>): int
    requires Valid(c)
  {
    var siblings := Group(c, parent);
    if |siblings| > 0 then MaxFrom(siblings[1..], Pos(siblings[0])) + 1 else 0
  }

  /** Whether `id` is a cached child of `parent`. */
  ghost predicate Sibling(c: Cache, parent: ParentKey, id: Id) {
    id in c.tasks && c.tasks[id].parentId == parent
  }

  /** The `createTask` position is at least 1, above every sibling's
      position (a missing one counting as 0), and exactly one above the
      largest of them and 0. */
  lemma CreatePositionBounds(c: Cache, parent: ParentKey)
    requires Valid(c)
    ensures CreatePosition(c, parent) >= 1
    ensures forall id | Sibling(c, parent, id) :: Pos(c.tasks[id]) < CreatePosition(c, parent)
    ensures CreatePosition(c, parent) == 1 ||
            exists id :: Sibling(c, parent, id) && CreatePosition(c, parent) == Pos(c.tasks[id]) + 1
  {
    var g := Lookup(TasksByParent(c), parent);
    TasksByParentGroups(c);
    GroupFacts(c, parent);
    MaxFromBounds(g, 0);
    forall id | Sibling(c, parent, id) ensures Pos(c.tasks[id]) < CreatePosition(c, parent) {
      assert c.tasks[id] in g;
    }
    if CreatePosition(c, parent) != 1 {
      var t :| t in g && MaxFrom(g, 0) == Pos(t);
      assert Sibling(c, parent, t.id);
    }
  }

  /** A non-empty group: some sibling holds the largest position, and
      `getNextPosition` is one above it. */
  lemma NextPositionWitness(c: Cache, parent: ParentKey) returns (id: Id)
    requires Valid(c) && |Group(c, parent)| > 0
    ensures Sibling(c, parent, id) && NextPosition(c, parent) == Pos(c.tasks[id]) + 1
  {
    var s := Group(c, parent);
    MaxFromBounds(s[1..], Pos(s[0]));
    var m := MaxFrom(s[1..], Pos(s[0]));
    var t := s[0];
    if m != Pos(s[0]) {
      t :| t in s[1..] && m == Pos(t);
    }
    assert t in s;
    GroupFacts(c, parent);
    id := t.id;
  }

  /** `getNextPosition` is 0 when there is no sibling; otherwise it is one
      above the largest sibling position. */
  lemma NextPositionExact(c: Cache, parent: ParentKey)
    requires Valid(c)
    ensures (forall id :: !Sibling(c, parent, id)) ==> NextPosition(c, parent) == 0
    ensures (exists id :: Sibling(c, parent, id)) ==>
            exists id :: Sibling(c, parent, id) && NextPosition(c, parent) == Pos(c.tasks[id]) + 1
  {
    var s := Group(c, parent);
    if |s| > 0 {
      var id := NextPositionWitness(c, parent);
    } else {
      forall id | Sibling(c, parent, id) ensures c.tasks[id] in s {
        GroupFacts(c, parent);
      }
    }
  }

  /** `getNextPosition` is above every sibling's position. */
  lemma NextPositionAbove(c: Cache, parent: ParentKey)
    requires Valid(c)
    ensures forall id | Sibling(c, parent, id) :: Pos(c.tasks[id]) < NextPosition(c, parent)
  {
    var s := Group(c, parent);
    GroupFacts(c, parent);
    if |s| > 0 {
      MaxFromBounds(s[1..], Pos(s[0]));
      forall id | Sibling(c, parent, id) ensures Pos(c.tasks[id]) < NextPosition(c, parent) {
        var t := c.tasks[id];
        assert t in s;
        assert t == s[0] || t in s[1..];
      }
    }
  }

  /** The variants agree exactly when `getNextPosition` is at least 1;
      otherwise (an empty group, or only negative positions) `createTask`
      gives 1. In particular an empty group gets 1 from `createTask` and 0
      from `getNextPosition`. */
  lemma PositionVariants(c: Cache, parent: ParentKey)
    requires Valid(c)
    ensures CreatePosition(c, parent) == if NextPosition(c, parent) >= 1 then NextPosition(c, parent) else 1
    ensures (forall id :: !Sibling(c, parent, id)) ==> CreatePosition(c, parent) == 1 && NextPosition(c, parent) == 0
  {
    var g := Lookup(TasksByParent(c), parent);
    var s := Group(c, parent);
    TasksByParentGroups(c);
    assert g == s;
    CreatePositionBounds(c, parent);
    NextPositionExact(c, parent);
    NextPositionAbove(c, parent);
    if |s| > 0 {
      MaxFromShift(s[1..], s[0]);
    } else {
      assert MaxFrom(g, 0) == 0;
    }
  }

  /** Starting the fold at 0 instead of at the first key gives the larger
      of the two. */
  lemma {:induction false} MaxFromShift(ts: seq<Task>, first: Task)
    ensures MaxFrom([first] + ts, 0) == if MaxFrom(ts, Pos(first)) >= 0 then MaxFrom(ts, Pos(first)) else 0
  {
    assert ([first] + ts)[1..] == ts;
    if Pos(first) > 0 {
      assert MaxFrom([first] + ts, 0) == MaxFrom(ts, Pos(first));
      MaxFromBounds(ts, Pos(first));
    } else {
      MaxFromMonotone(ts, 0, Pos(first));
    }
  }

  /** Folding from a start value no larger than 0 gives the larger of 0
      and the fold. */
  lemma {:induction false} MaxFromMonotone(ts: seq<Task>, hi: int, lo: int)
    requires lo <= hi
    ensures MaxFrom(ts, hi) == if MaxFrom(ts, lo) >= hi then MaxFrom(ts, lo) else hi
    decreases |ts|
  {
    if ts != [] {
      var h := if Pos(ts[0]) > hi then Pos(ts[0]) else hi;
      var l := if Pos(ts[0]) > lo then Pos(ts[0]) else lo;
      MaxFromMonotone(ts[1..], h, l);
      MaxFromBounds(ts[1..], l);
      MaxFromBounds(ts[1..], h);
    }
  }
}
