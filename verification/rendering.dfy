/**
 * Rendering, projected to the emitted (task id, depth) elements.
 * src/js/ui.js `renderTasks` starts from the focused task's children (the
 * root level without focus); script.js `renderTasksFromCache` always starts
 * from the root level, and its `renderChildTasks` is guarded by the
 * container element and the parent id.
 */
module Rendering {
  import opened Wrappers
  import opened TaskCache
  import opened Forest
  import opened Grouping
  import opened Sorting
  import opened Traversal

  /** src/js/ui.js `renderTasks`: `None` when the list element is missing
      and nothing is rendered, else the elements of the list. */
  function RenderTasks(c: Cache, focus: Option<Id>, listPresent: bool): Option<seq<Node>>
    requires WellFormed(c)
  {
    if !listPresent then None else Some(Preorder(c, focus, 0, true))
  }

  /** script.js `renderChildTasks`. */
  function ScriptRenderChildTasks(c: Cache, parentId: Option<Id>, containerPresent: bool, depth: nat): seq<Node>
    requires WellFormed(c)
  {
    if !containerPresent || parentId.None? then [] else Preorder(c, parentId, depth, true)
  }

  /** script.js `renderTasksFromCache`: the root-level tasks at depth 0,
      each followed by `renderChildTasks(task.id, ..., 1)`. */
  function ScriptRenderTasksFromCache(c: Cache, listPresent: bool): Option<seq<Node>>
    requires WellFormed(c)
  {
    if !listPresent then None
    else
      KidsFacts(c, None, true);
      Some(RootLevel(c, Kids(c, None, true)))
  }

  function RootLevel(c: Cache, roots: seq<Task>): seq<Node>
    requires WellFormed(c) && ChildrenOf(c, None, roots)
    decreases |roots|
  {
    if roots == [] then []
    else [Node(roots[0].id, 0)] + ScriptRenderChildTasks(c, Some(roots[0].id), true, 1)
         + RootLevel(c, roots[1..])
  }

  /** The rendered elements are exactly the tasks below the focus (the
      whole cache's forest without focus), each once, each after its
      parent and one level deeper, the focus's children at depth 0; each
      task's element is followed at once by its own subtree, as the nested
      `li` lists put it. */
  lemma RenderTasksShows(c: Cache, focus: Option<Id>)
    requires WellFormed(c)
    ensures RenderTasks(c, focus, true).Some?
    ensures forall x :: x in Ids(RenderTasks(c, focus, true).value) <==> Descends(c, x, focus)
    ensures NoDups(Ids(RenderTasks(c, focus, true).value))
    ensures ParentsFirst(c, focus, 0, RenderTasks(c, focus, true).value)
    ensures forall i | 0 <= i < |RenderTasks(c, focus, true).value| :: NestedAt(c, RenderTasks(c, focus, true).value, i, true)
  {
    PreorderMembers(c, focus, 0, true);
    PreorderDistinct(c, focus, 0, true);
    PreorderParentsFirst(c, focus, 0, true);
    var w := Preorder(c, focus, 0, true);
    forall i | 0 <= i < |w| ensures NestedAt(c, w, i, true) {
      PreorderNested(c, focus, 0, true, i);
    }
  }

  /** The children of the focus and of every rendered task appear as the
      stable sort by position of their group: ascending by `position || 0`,
      ties in cache order. */
  lemma RenderTasksSiblingOrder(c: Cache, focus: Option<Id>, q: ParentKey)
    requires WellFormed(c)
    requires q == focus || (q.Some? && q.value in Ids(RenderTasks(c, focus, true).value))
    ensures ChildIds(c, Ids(RenderTasks(c, focus, true).value), q) == TaskIds(SortByPosition(Group(c, q)))
    ensures forall v :: AtPosition(SortByPosition(Group(c, q)), v) == AtPosition(Group(c, q), v)
    ensures forall i, j | 0 <= i < j < |ChildIds(c, Ids(RenderTasks(c, focus, true).value), q)| ::
      var ch := ChildIds(c, Ids(RenderTasks(c, focus, true).value), q);
      ch[i] in c.tasks && ch[j] in c.tasks && Pos(c.tasks[ch[i]]) <= Pos(c.tasks[ch[j]])
  {
    PreorderChildren(c, focus, 0, true, q);
    var s := SortByPosition(Group(c, q));
    SortSorts(Group(c, q));
    KidsFacts(c, q, true);
    forall v ensures AtPosition(s, v) == AtPosition(Group(c, q), v) {
      SortStable(Group(c, q), v);
    }
    var ch := TaskIds(s);
    forall i, j | 0 <= i < j < |ch| ensures ch[i] in c.tasks && ch[j] in c.tasks && Pos(c.tasks[ch[i]]) <= Pos(c.tasks[ch[j]]) {
      assert s[i] in s && s[j] in s;
    }
  }

  /** script.js `renderChildTasks` does nothing without a container or a
      parent id, and otherwise emits what src/js/ui.js would render with
      that task focused, shifted to the given depth. */
  lemma ScriptRenderChildTasksAgrees(c: Cache, parentId: Option<Id>, present: bool, depth: nat)
    requires WellFormed(c)
    ensures !present || parentId.None? ==> ScriptRenderChildTasks(c, parentId, present, depth) == []
    ensures present && parentId.Some? ==>
      ScriptRenderChildTasks(c, parentId, present, depth) == Shifted(RenderTasks(c, parentId, true).value, depth)
  {
    if present && parentId.Some? {
      PreorderShift(c, parentId, 0, depth, true);
    }
  }

  /** script.js `renderTasksFromCache` emits exactly what src/js/ui.js
      `renderTasks` emits with no focus. */
  lemma ScriptRenderTasksFromCacheAgrees(c: Cache, listPresent: bool)
    requires WellFormed(c)
    ensures ScriptRenderTasksFromCache(c, listPresent) == RenderTasks(c, None, listPresent)
  {
    if listPresent {
      KidsFacts(c, None, true);
      RootLevelIsWalk(c, Kids(c, None, true));
    }
  }

  lemma {:induction false} RootLevelIsWalk(c: Cache, roots: seq<Task>)
    requires WellFormed(c) && ChildrenOf(c, None, roots)
    ensures RootLevel(c, roots) == Walk(c, None, roots, 0, true)
    decreases |roots|
  {
    if roots != [] {
      RootLevelIsWalk(c, roots[1..]);
    }
  }
}
