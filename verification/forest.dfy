/**
 * The parent relation of the cached tasks. Nothing in the client enforces
 * that it is acyclic, but every walk over it (the ancestor path, descendant
 * collection, rendering) only terminates when it is: the model makes that
 * assumption explicit as the existence of a rank that strictly grows from a
 * cached parent to its child.
 */
module Forest {
  import opened Wrappers
  import opened TaskCache

  /** The task's `parent_id` names a task that is itself cached. */
  predicate HasCachedParent(c: Cache, id: Id)
    requires id in c.tasks
  {
    c.tasks[id].parentId.Some? && c.tasks[id].parentId.value in c.tasks
  }

  ghost predicate RankedBy(c: Cache, rank: map<Id, nat>) {
    && c.tasks.Keys <= rank.Keys
    && forall id | id in c.tasks && HasCachedParent(c, id) ::
         rank[c.tasks[id].parentId.value] < rank[id]
  }

  /** No chain of cached parents loops back on itself. */
  ghost predicate Acyclic(c: Cache) {
    exists rank :: RankedBy(c, rank)
  }

  ghost predicate WellFormed(c: Cache) {
    Valid(c) && Acyclic(c)
  }

  ghost function Rank(c: Cache): (rank: map<Id, nat>)
    requires Acyclic(c)
    ensures RankedBy(c, rank)
  {
    var rank :| RankedBy(c, rank); rank
  }

  /** Termination measure for walks towards the root. */
  ghost function Height(c: Cache, id: Id): nat
    requires Acyclic(c)
  {
    if id in c.tasks then Rank(c)[id] + 1 else 0
  }

  /** The rank grows from a cached parent to its child. */
  lemma RankStep(c: Cache, id: Id)
    requires Acyclic(c) && id in c.tasks
    ensures HasCachedParent(c, id) ==> Rank(c)[c.tasks[id].parentId.value] < Rank(c)[id]
  {
  }

  lemma ParentLower(c: Cache, id: Id)
    requires Acyclic(c) && id in c.tasks && c.tasks[id].parentId.Some?
    ensures Height(c, c.tasks[id].parentId.value) < Height(c, id)
  {
    var rank := Rank(c);
    if HasCachedParent(c, id) {
      assert rank[c.tasks[id].parentId.value] < rank[id];
    }
  }

  /** Reference definition: `x` lies strictly below the key `key` in the
      parent relation (below the root level when `key` is `None`). */
  ghost predicate Descends(c: Cache, x: Id, key: ParentKey)
    requires Acyclic(c)
    decreases Height(c, x)
  {
    x in c.tasks &&
    (c.tasks[x].parentId == key ||
     (c.tasks[x].parentId.Some? &&
      (ParentLower(c, x); Descends(c, c.tasks[x].parentId.value, key))))
  }

  /** A descendant of a cached task has a strictly larger rank. */
  lemma {:induction false} DescendsRank(c: Cache, x: Id, k: Id)
    requires Acyclic(c) && k in c.tasks && Descends(c, x, Some(k))
    ensures Rank(c)[x] > Rank(c)[k]
    decreases Height(c, x)
  {
    var rank := Rank(c);
    var p := c.tasks[x].parentId.value;
    assert HasCachedParent(c, x) by {
      if p != k { assert Descends(c, p, Some(k)); }
    }
    if p != k {
      ParentLower(c, x);
      DescendsRank(c, p, k);
    }
  }

  /** No task is its own descendant. */
  lemma NotOwnDescendant(c: Cache, k: Id)
    requires Acyclic(c)
    ensures !Descends(c, k, Some(k))
  {
    if k in c.tasks && Descends(c, k, Some(k)) {
      DescendsRank(c, k, k);
    }
  }

  /** A task's parent never lies below the task. */
  lemma ParentNotBelow(c: Cache, k: Id)
    requires Acyclic(c) && k in c.tasks && c.tasks[k].parentId.Some?
    ensures !Descends(c, c.tasks[k].parentId.value, Some(k))
  {
    var p := c.tasks[k].parentId.value;
    if Descends(c, p, Some(k)) {
      DescendsRank(c, p, k);
    }
  }

  /** Termination measure for walks away from the root: the cached tasks
      that could still lie below `key`. */
  ghost function Below(c: Cache, key: ParentKey): set<Id>
    requires Acyclic(c)
  {
    if key.Some? && key.value in c.tasks then
      set x | x in c.tasks && Rank(c)[x] > Rank(c)[key.value]
    else c.tasks.Keys
  }

  /** Moving from a key to one of its children strictly shrinks `Below`. */
  lemma BelowShrinks(c: Cache, key: ParentKey, k: Id)
    requires Acyclic(c) && k in c.tasks && c.tasks[k].parentId == key
    ensures Below(c, Some(k)) < Below(c, key)
  {
    var rank := Rank(c);
    if key.Some? && key.value in c.tasks {
      assert HasCachedParent(c, k);
      assert k in Below(c, key);
    }
    assert k !in Below(c, Some(k));
  }

  /** The ancestor of `x` (possibly `x` itself) whose parent is `key`. */
  ghost function TopAncestor(c: Cache, x: Id, key: ParentKey): (top: Id)
    requires Acyclic(c) && Descends(c, x, key)
    ensures top in c.tasks && c.tasks[top].parentId == key
    ensures top == x || Descends(c, x, Some(top))
    decreases Height(c, x)
  {
    if c.tasks[x].parentId == key then x
    else
      var p := c.tasks[x].parentId.value;
      ParentLower(c, x);
      var top := TopAncestor(c, p, key);
      assert top == p || Descends(c, p, Some(top));
      top
  }

  /** Everything below a child `k` of `key` lies below `key`, has `k` as its
      top ancestor there, and is not itself a child of `key`. */
  lemma {:induction false} TopAncestorOf(c: Cache, x: Id, k: Id, key: ParentKey)
    requires Acyclic(c) && k in c.tasks && c.tasks[k].parentId == key
    requires Descends(c, x, Some(k))
    ensures Descends(c, x, key)
    ensures c.tasks[x].parentId != key
    ensures TopAncestor(c, x, key) == k
    decreases Height(c, x)
  {
    var rank := Rank(c);
    var p := c.tasks[x].parentId.value;
    DescendsRank(c, x, k);
    RankStep(c, k);
    if p == k {
      assert Descends(c, k, key);
    } else {
      assert Descends(c, p, Some(k));
      ParentLower(c, x);
      TopAncestorOf(c, p, k, key);
      DescendsRank(c, p, k);
    }
  }
}
