/**
 * `getDescendantTaskIds` in src/js/tasks.js: the recursive `addChildren`
 * walk over `tasksByParent`, children in cache order, pushing each child
 * before descending into it.
 */
module Descendants {
  import opened Wrappers
  import opened TaskCache
  import opened Forest
  import opened Grouping
  import opened Traversal

  function DescendantIds(c: Cache, taskId: Id): seq<Id>
    requires WellFormed(c)
  {
    Ids(Preorder(c, Some(taskId), 0, false))
  }

  /** Exactly the tasks strictly below `taskId`; never `taskId` itself. */
  lemma DescendantIdsExact(c: Cache, taskId: Id)
    requires WellFormed(c)
    ensures forall x :: x in DescendantIds(c, taskId) <==> Descends(c, x, Some(taskId))
    ensures taskId !in DescendantIds(c, taskId)
  {
    PreorderMembers(c, Some(taskId), 0, false);
    NotOwnDescendant(c, taskId);
  }

  /** No id is listed twice. */
  lemma DescendantIdsDistinct(c: Cache, taskId: Id)
    requires WellFormed(c)
    ensures NoDups(DescendantIds(c, taskId))
  {
    PreorderDistinct(c, Some(taskId), 0, false);
  }

  /** Every listed task is a child of `taskId` or comes after its parent. */
  lemma DescendantIdsParentsFirst(c: Cache, taskId: Id)
    requires WellFormed(c)
    ensures forall i | 0 <= i < |DescendantIds(c, taskId)| ::
      var x := DescendantIds(c, taskId)[i];
      x in c.tasks &&
      (c.tasks[x].parentId == Some(taskId) ||
       exists j :: 0 <= j < i && Some(DescendantIds(c, taskId)[j]) == c.tasks[x].parentId)
  {
    var ns := Preorder(c, Some(taskId), 0, false);
    PreorderParentsFirst(c, Some(taskId), 0, false);
    var ids := DescendantIds(c, taskId);
    forall i | 0 <= i < |ids|
      ensures ids[i] in c.tasks
      ensures c.tasks[ids[i]].parentId != Some(taskId) ==> exists j :: 0 <= j < i && Some(ids[j]) == c.tasks[ids[i]].parentId
    {
      var j := ParentIndex(c, Some(taskId), 0, ns, i);
      assert ids[i] == ns[i].id;
      if c.tasks[ids[i]].parentId != Some(taskId) {
        assert ids[j] == ns[j].id;
      }
    }
  }

  /** The children of `taskId` and of every listed task appear in cache
      iteration order. */
  lemma DescendantIdsChildOrder(c: Cache, taskId: Id, q: ParentKey)
    requires WellFormed(c)
    requires q == Some(taskId) || (q.Some? && q.value in DescendantIds(c, taskId))
    ensures ChildIds(c, DescendantIds(c, taskId), q) == TaskIds(Group(c, q))
  {
    PreorderChildren(c, Some(taskId), 0, false, q);
  }
}
