/**
 * The depth-first walks over the parent relation: rendering (children sorted
 * by position, each task element followed by its subtree) and descendant
 * collection (children in cache order). The DOM is projected to the
 * sequence of (task id, depth) pairs the walk emits.
 */
module Traversal {
  import opened Wrappers
  import opened TaskCache
  import opened Forest
  import opened Grouping
  import opened Sorting

  /** One emitted task element: which task, at which nesting depth. */
  datatype Node = Node(id: Id, depth: nat)

  function Ids(ns: seq<Node>): (ids: seq<Id>)
    ensures |ids| == |ns|
    ensures forall i | 0 <= i < |ns| :: ids[i] == ns[i].id
  {
    seq(|ns|, i requires 0 <= i < |ns| => ns[i].id)
  }

  function TaskIds(ts: seq<Task>): (ids: seq<Id>)
    ensures |ids| == |ts|
    ensures forall i | 0 <= i < |ts| :: ids[i] == ts[i].id
  {
    seq(|ts|, i requires 0 <= i < |ts| => ts[i].id)
  }

  ghost predicate NoDups(s: seq<Id>) {
    forall i, j | 0 <= i < j < |s| :: s[i] != s[j]
  }

  /** The ids in `ids` whose cached parent key is `q`, in order. */
  function ChildIds(c: Cache, ids: seq<Id>, q: ParentKey): seq<Id>
    decreases |ids|
  {
    if ids == [] then []
    else (if ids[0] in c.tasks && c.tasks[ids[0]].parentId == q then [ids[0]] else [])
         + ChildIds(c, ids[1..], q)
  }

  /** Every task of `kids` is the cached record of a child of `key`. */
  ghost predicate ChildrenOf(c: Cache, key: ParentKey, kids: seq<Task>) {
    forall t | t in kids :: t.id in c.tasks && c.tasks[t.id] == t && t.parentId == key
  }

  /** The children of `key` in visiting order: `tasksByParent.get(key) || []`,
      sorted by position when rendering. */
  function Kids(c: Cache, key: ParentKey, sorted: bool): seq<Task>
    requires Valid(c)
  {
    if sorted then SortByPosition(Group(c, key)) else Group(c, key)
  }

  lemma KidsFacts(c: Cache, key: ParentKey, sorted: bool)
    requires Valid(c)
    ensures forall t :: t in Kids(c, key, sorted) <==> t.id in c.tasks && c.tasks[t.id] == t && t.parentId == key
    ensures DistinctIds(Kids(c, key, sorted))
  {
    GroupFacts(c, key);
    if sorted {
      var g := Group(c, key);
      SortPermutes(g);
      SortDistinct(g);
      forall t ensures t in SortByPosition(g) <==> t in g {
        assert t in SortByPosition(g) <==> t in multiset(SortByPosition(g));
      }
    }
  }

  /** `renderChildTasks(key, ..., depth)`: every child of `key` in turn,
      each followed by its own subtree one level deeper. */
  function Preorder(c: Cache, key: ParentKey, depth: nat, sorted: bool): seq<Node>
    requires WellFormed(c)
    decreases Below(c, key), 1, 0
  {
    KidsFacts(c, key, sorted);
    Walk(c, key, Kids(c, key, sorted), depth, sorted)
  }

  /** The `forEach` over one list of children. */
  function Walk(c: Cache, key: ParentKey, kids: seq<Task>, depth: nat, sorted: bool): seq<Node>
    requires WellFormed(c) && ChildrenOf(c, key, kids)
    decreases Below(c, key), 0, |kids|
  {
    if kids == [] then []
    else
      var k := kids[0].id;
      BelowShrinks(c, key, k);
      [Node(k, depth)] + Preorder(c, Some(k), depth + 1, sorted) + Walk(c, key, kids[1..], depth, sorted)
  }

  lemma IdsConcat(a: seq<Node>, b: seq<Node>)
    ensures Ids(a + b) == Ids(a) + Ids(b)
  {
  }

  lemma {:induction false} ChildIdsConcat(c: Cache, a: seq<Id>, b: seq<Id>, q: ParentKey)
    ensures ChildIds(c, a + b, q) == ChildIds(c, a, q) + ChildIds(c, b, q)
    decreases |a|
  {
    if a != [] {
      ChildIdsConcat(c, a[1..], b, q);
      var h := if a[0] in c.tasks && c.tasks[a[0]].parentId == q then [a[0]] else [];
      assert (a + b)[0] == a[0] && (a + b)[1..] == a[1..] + b;
      assert ChildIds(c, a + b, q) == h + (ChildIds(c, a[1..], q) + ChildIds(c, b, q));
    } else {
      assert a + b == b;
    }
  }

  lemma NoDupsConcat(a: seq<Id>, b: seq<Id>)
    requires NoDups(a) && NoDups(b) && forall x | x in a :: x !in b
    ensures NoDups(a + b)
  {
    var ab := a + b;
    forall i, j | 0 <= i < j < |ab| ensures ab[i] != ab[j] {
      if j >= |a| && i < |a| {
        assert ab[i] in a && ab[j] == b[j - |a|];
      }
    }
  }

  /** The walk over one list of children splits into the first child, its
      subtree and the rest. */
  lemma WalkUnfold(c: Cache, key: ParentKey, kids: seq<Task>, depth: nat, sorted: bool)
    requires WellFormed(c) && ChildrenOf(c, key, kids) && kids != []
    ensures BelowShrinksHolds(c, key, kids[0].id)
    ensures Ids(Walk(c, key, kids, depth, sorted))
         == [kids[0].id] + Ids(Preorder(c, Some(kids[0].id), depth + 1, sorted))
            + Ids(Walk(c, key, kids[1..], depth, sorted))
  {
    var k := kids[0].id;
    BelowShrinks(c, key, k);
    var sub := Preorder(c, Some(k), depth + 1, sorted);
    var rest := Walk(c, key, kids[1..], depth, sorted);
    assert Walk(c, key, kids, depth, sorted) == [Node(k, depth)] + sub + rest;
    IdsSplit(k, depth, sub, rest);
  }

  lemma IdsSplit(k: Id, depth: nat, sub: seq<Node>, rest: seq<Node>)
    ensures Ids([Node(k, depth)] + sub + rest) == [k] + Ids(sub) + Ids(rest)
  {
    IdsConcat([Node(k, depth)] + sub, rest);
    IdsConcat([Node(k, depth)], sub);
  }

  ghost predicate BelowShrinksHolds(c: Cache, key: ParentKey, k: Id)
    requires Acyclic(c)
  {
    Below(c, Some(k)) < Below(c, key)
  }

  /** Reference characterisation: the walk over `kids` emits exactly the
      tasks below `key` whose top ancestor there is one of `kids`. */
  lemma {:induction false} WalkMembers(c: Cache, key: ParentKey, kids: seq<Task>, depth: nat, sorted: bool)
    requires WellFormed(c) && ChildrenOf(c, key, kids)
    ensures forall x :: x in Ids(Walk(c, key, kids, depth, sorted)) <==>
      Descends(c, x, key) && TopAncestor(c, x, key) in TaskIds(kids)
    decreases Below(c, key), 0, |kids|
  {
    if kids != [] {
      var k := kids[0].id;
      WalkUnfold(c, key, kids, depth, sorted);
      PreorderMembers(c, Some(k), depth + 1, sorted);
      WalkMembers(c, key, kids[1..], depth, sorted);
      forall x ensures x in Ids(Walk(c, key, kids, depth, sorted)) <==>
        Descends(c, x, key) && TopAncestor(c, x, key) in TaskIds(kids)
      {
        WalkMemberStep(c, key, kids, x);
      }
    }
  }

  /** The step of `WalkMembers` for one task `x`: it lies under the first
      child, under one of the others, or is the first child itself. */
  lemma WalkMemberStep(c: Cache, key: ParentKey, kids: seq<Task>, x: Id)
    requires WellFormed(c) && ChildrenOf(c, key, kids) && kids != []
    ensures (x == kids[0].id || Descends(c, x, Some(kids[0].id)) ||
             (Descends(c, x, key) && TopAncestor(c, x, key) in TaskIds(kids[1..])))
        <==> Descends(c, x, key) && TopAncestor(c, x, key) in TaskIds(kids)
  {
    var k := kids[0].id;
    TaskIdsCons(kids);
    if x == k {
      assert Descends(c, k, key);
    } else if Descends(c, x, Some(k)) {
      TopAncestorOf(c, x, k, key);
    } else if Descends(c, x, key) {
      var top := TopAncestor(c, x, key);
      assert top != k;
    }
  }

  /** The walk from `key` emits exactly the tasks strictly below `key`. */
  lemma {:induction false} PreorderMembers(c: Cache, key: ParentKey, depth: nat, sorted: bool)
    requires WellFormed(c)
    ensures forall x :: x in Ids(Preorder(c, key, depth, sorted)) <==> Descends(c, x, key)
    decreases Below(c, key), 1, 0
  {
    KidsFacts(c, key, sorted);
    var kids := Kids(c, key, sorted);
    WalkMembers(c, key, kids, depth, sorted);
    forall x | Descends(c, x, key) ensures TopAncestor(c, x, key) in TaskIds(kids) {
      var top := TopAncestor(c, x, key);
      assert c.tasks[top] in kids;
    }
  }

  /** The three parts of a walk are pairwise disjoint. */
  lemma WalkParts(c: Cache, key: ParentKey, kids: seq<Task>, depth: nat, sorted: bool)
    requires WellFormed(c) && ChildrenOf(c, key, kids) && DistinctIds(kids) && kids != []
    ensures kids[0].id !in Ids(Preorder(c, Some(kids[0].id), depth + 1, sorted))
    ensures kids[0].id !in Ids(Walk(c, key, kids[1..], depth, sorted))
    ensures forall x | x in Ids(Preorder(c, Some(kids[0].id), depth + 1, sorted)) ::
      x !in Ids(Walk(c, key, kids[1..], depth, sorted))
  {
    var k := kids[0].id;
    WalkUnfold(c, key, kids, depth, sorted);
    PreorderMembers(c, Some(k), depth + 1, sorted);
    WalkMembers(c, key, kids[1..], depth, sorted);
    NotOwnDescendant(c, k);
    assert Descends(c, k, key);
    assert k !in TaskIds(kids[1..]);
    forall x | x in Ids(Preorder(c, Some(k), depth + 1, sorted))
      ensures x !in Ids(Walk(c, key, kids[1..], depth, sorted))
    {
      TopAncestorOf(c, x, k, key);
    }
  }

  lemma {:induction false} WalkDistinct(c: Cache, key: ParentKey, kids: seq<Task>, depth: nat, sorted: bool)
    requires WellFormed(c) && ChildrenOf(c, key, kids) && DistinctIds(kids)
    ensures NoDups(Ids(Walk(c, key, kids, depth, sorted)))
    decreases Below(c, key), 0, |kids|
  {
    if kids != [] {
      var k := kids[0].id;
      WalkUnfold(c, key, kids, depth, sorted);
      WalkParts(c, key, kids, depth, sorted);
      var a := Ids(Preorder(c, Some(k), depth + 1, sorted));
      var b := Ids(Walk(c, key, kids[1..], depth, sorted));
      PreorderDistinct(c, Some(k), depth + 1, sorted);
      WalkDistinct(c, key, kids[1..], depth, sorted);
      NoDupsConcat([k], a);
      NoDupsConcat([k] + a, b);
    }
  }

  /** Each task is emitted at most once. */
  lemma {:induction false} PreorderDistinct(c: Cache, key: ParentKey, depth: nat, sorted: bool)
    requires WellFormed(c)
    ensures NoDups(Ids(Preorder(c, key, depth, sorted)))
    decreases Below(c, key), 1, 0
  {
    KidsFacts(c, key, sorted);
    WalkDistinct(c, key, Kids(c, key, sorted), depth, sorted);
  }

  /** Children order: within the walk from `key`, the children of `key` and
      of every emitted task appear exactly in the order `Kids` lists them;
      no other parent key has children there. */
  lemma {:induction false} WalkChildren(c: Cache, key: ParentKey, kids: seq<Task>, depth: nat, sorted: bool, q: ParentKey)
    requires WellFormed(c) && ChildrenOf(c, key, kids) && DistinctIds(kids)
    ensures ChildIds(c, Ids(Walk(c, key, kids, depth, sorted)), q) ==
      if q == key then TaskIds(kids)
      else if q.Some? && q.value in Ids(Walk(c, key, kids, depth, sorted)) then TaskIds(Kids(c, q, sorted))
      else []
    decreases Below(c, key), 0, |kids|
  {
    if kids != [] {
      var k := kids[0].id;
      BelowShrinks(c, key, k);
      PreorderChildren(c, Some(k), depth + 1, sorted, q);
      PreorderChildren(c, Some(k), depth + 1, sorted, key);
      WalkChildren(c, key, kids[1..], depth, sorted, q);
      WalkChildrenStep(c, key, kids, depth, sorted, q);
    }
  }

  /** The inductive step of `WalkChildren`, given its facts about the first
      child's subtree and the remaining children. */
  lemma WalkChildrenStep(c: Cache, key: ParentKey, kids: seq<Task>, depth: nat, sorted: bool, q: ParentKey)
    requires WellFormed(c) && ChildrenOf(c, key, kids) && DistinctIds(kids) && kids != []
    requires ChildIds(c, Ids(Preorder(c, Some(kids[0].id), depth + 1, sorted)), q) ==
      if q == Some(kids[0].id) || (q.Some? && q.value in Ids(Preorder(c, Some(kids[0].id), depth + 1, sorted)))
      then TaskIds(Kids(c, q, sorted))
      else []
    requires ChildIds(c, Ids(Preorder(c, Some(kids[0].id), depth + 1, sorted)), key) ==
      if key == Some(kids[0].id) || (key.Some? && key.value in Ids(Preorder(c, Some(kids[0].id), depth + 1, sorted)))
      then TaskIds(Kids(c, key, sorted))
      else []
    requires ChildIds(c, Ids(Walk(c, key, kids[1..], depth, sorted)), q) ==
      if q == key then TaskIds(kids[1..])
      else if q.Some? && q.value in Ids(Walk(c, key, kids[1..], depth, sorted)) then TaskIds(Kids(c, q, sorted))
      else []
    ensures ChildIds(c, Ids(Walk(c, key, kids, depth, sorted)), q) ==
      if q == key then TaskIds(kids)
      else if q.Some? && q.value in Ids(Walk(c, key, kids, depth, sorted)) then TaskIds(Kids(c, q, sorted))
      else []
  {
    var k := kids[0].id;
    var a := Ids(Preorder(c, Some(k), depth + 1, sorted));
    WalkUnfold(c, key, kids, depth, sorted);
    WalkParts(c, key, kids, depth, sorted);
    PreorderMembers(c, Some(k), depth + 1, sorted);
    NotOwnDescendant(c, k);
    if key.Some? {
      ParentNotBelow(c, k);
    }
    assert ChildIds(c, a, key) == [];
    TaskIdsCons(kids);
    ChildrenCombine(c, key, q, k, a, Ids(Walk(c, key, kids[1..], depth, sorted)),
      Ids(Walk(c, key, kids, depth, sorted)), TaskIds(kids[1..]), TaskIds(Kids(c, q, sorted)));
  }

  lemma TaskIdsCons(ts: seq<Task>)
    requires ts != []
    ensures TaskIds(ts) == [ts[0].id] + TaskIds(ts[1..])
  {
  }

  /** Bookkeeping step of `WalkChildren`: the children lists of the three
      parts of a walk add up. */
  lemma ChildrenCombine(c: Cache, key: ParentKey, q: ParentKey, k: Id, a: seq<Id>, b: seq<Id>, w: seq<Id>,
                        restIds: seq<Id>, kq: seq<Id>)
    requires k in c.tasks && c.tasks[k].parentId == key
    requires w == [k] + a + b
    requires k !in a && k !in b && forall x | x in a :: x !in b
    requires ChildIds(c, a, q) == (if q == Some(k) || (q.Some? && q.value in a) then kq else [])
    requires ChildIds(c, b, q) == (if q == key then restIds else if q.Some? && q.value in b then kq else [])
    requires q == key ==> ChildIds(c, a, q) == []
    ensures ChildIds(c, w, q) == (if q == key then [k] + restIds else if q.Some? && q.value in w then kq else [])
  {
    ChildIdsConcat(c, [k] + a, b, q);
    ChildIdsConcat(c, [k], a, q);
    assert ChildIds(c, [k], q) == (if q == key then [k] else []);
  }

  lemma {:induction false} PreorderChildren(c: Cache, key: ParentKey, depth: nat, sorted: bool, q: ParentKey)
    requires WellFormed(c)
    ensures ChildIds(c, Ids(Preorder(c, key, depth, sorted)), q) ==
      if q == key || (q.Some? && q.value in Ids(Preorder(c, key, depth, sorted)))
      then TaskIds(Kids(c, q, sorted))
      else []
    decreases Below(c, key), 1, 0
  {
    KidsFacts(c, key, sorted);
    WalkChildren(c, key, Kids(c, key, sorted), depth, sorted, q);
  }

  /** Entry `i` of `ns` is cached; a child of `key` sits at depth `d`, and
      any other task comes after its parent, one level deeper. */
  ghost predicate ParentBefore(c: Cache, key: ParentKey, d: nat, ns: seq<Node>, i: int) {
    && 0 <= i < |ns|
    && ns[i].id in c.tasks
    && (c.tasks[ns[i].id].parentId == key ==> ns[i].depth == d)
    && (c.tasks[ns[i].id].parentId != key ==>
          exists j :: 0 <= j < i && Some(ns[j].id) == c.tasks[ns[i].id].parentId && ns[i].depth == ns[j].depth + 1)
  }

  /** Every emitted task is cached; a child of `key` sits at the starting
      depth, and any other task comes after its parent, one level deeper. */
  ghost predicate ParentsFirst(c: Cache, key: ParentKey, d: nat, ns: seq<Node>) {
    && (forall i | 0 <= i < |ns| :: ns[i].id in c.tasks)
    && (forall i | 0 <= i < |ns| :: ParentBefore(c, key, d, ns, i))
  }

  /** Where `ParentsFirst` puts the parent of an entry not at the start
      depth. */
  lemma ParentIndex(c: Cache, key: ParentKey, d: nat, ns: seq<Node>, i: nat) returns (j: nat)
    requires ParentsFirst(c, key, d, ns) && i < |ns|
    ensures ns[i].id in c.tasks
    ensures c.tasks[ns[i].id].parentId == key ==> ns[i].depth == d
    ensures c.tasks[ns[i].id].parentId != key ==>
      j < i && Some(ns[j].id) == c.tasks[ns[i].id].parentId && ns[i].depth == ns[j].depth + 1
  {
    assert ParentBefore(c, key, d, ns, i);
    if c.tasks[ns[i].id].parentId != key {
      j :| 0 <= j < i && Some(ns[j].id) == c.tasks[ns[i].id].parentId && ns[i].depth == ns[j].depth + 1;
    } else {
      j := 0;
    }
  }

  /** One position of `[Node(k, d)] + sub` past the head: its parent is
      `k` at the head or an earlier entry of `sub`, shifted by one. */
  lemma ParentsFirstConsAt(c: Cache, key: ParentKey, d: nat, k: Id, sub: seq<Node>, i: nat)
    requires k in c.tasks && c.tasks[k].parentId == key
    requires ParentsFirst(c, Some(k), d + 1, sub)
    requires 1 <= i <= |sub| && c.tasks[sub[i - 1].id].parentId != key
    ensures ParentBefore(c, key, d, [Node(k, d)] + sub, i)
  {
    var ns := [Node(k, d)] + sub;
    assert ns[i] == sub[i - 1];
    var j := ParentIndex(c, Some(k), d + 1, sub, i - 1);
    if c.tasks[sub[i - 1].id].parentId == Some(k) {
      assert ns[0] == Node(k, d);
    } else {
      assert ns[j + 1] == sub[j];
    }
  }

  lemma ParentsFirstCons(c: Cache, key: ParentKey, d: nat, k: Id, sub: seq<Node>)
    requires k in c.tasks && c.tasks[k].parentId == key
    requires ParentsFirst(c, Some(k), d + 1, sub)
    requires forall i | 0 <= i < |sub| :: c.tasks[sub[i].id].parentId != key
    ensures ParentsFirst(c, key, d, [Node(k, d)] + sub)
  {
    var ns := [Node(k, d)] + sub;
    assert ParentBefore(c, key, d, ns, 0);
    forall i | 1 <= i < |ns| ensures ns[i].id in c.tasks && ParentBefore(c, key, d, ns, i) {
      ParentsFirstConsAt(c, key, d, k, sub, i);
    }
  }

  /** One position of `a + b`: an entry of `b` keeps its parent, shifted
      past `a`. */
  lemma ParentsFirstAppendAt(c: Cache, key: ParentKey, d: nat, a: seq<Node>, b: seq<Node>, i: nat)
    requires ParentsFirst(c, key, d, a) && ParentsFirst(c, key, d, b)
    requires i < |a| + |b|
    ensures ParentBefore(c, key, d, a + b, i)
  {
    var ns := a + b;
    if i < |a| {
      assert ns[i] == a[i];
      var j := ParentIndex(c, key, d, a, i);
      if c.tasks[a[i].id].parentId != key {
        assert ns[j] == a[j];
      }
    } else {
      var m := i - |a|;
      assert ns[i] == b[m];
      var j := ParentIndex(c, key, d, b, m);
      if c.tasks[b[m].id].parentId != key {
        assert ns[j + |a|] == b[j];
      }
    }
  }

  lemma ParentsFirstAppend(c: Cache, key: ParentKey, d: nat, a: seq<Node>, b: seq<Node>)
    requires ParentsFirst(c, key, d, a) && ParentsFirst(c, key, d, b)
    ensures ParentsFirst(c, key, d, a + b)
  {
    forall i | 0 <= i < |a + b| ensures (a + b)[i].id in c.tasks && ParentBefore(c, key, d, a + b, i) {
      ParentsFirstAppendAt(c, key, d, a, b, i);
    }
  }

  lemma {:induction false} WalkParentsFirst(c: Cache, key: ParentKey, kids: seq<Task>, depth: nat, sorted: bool)
    requires WellFormed(c) && ChildrenOf(c, key, kids)
    ensures ParentsFirst(c, key, depth, Walk(c, key, kids, depth, sorted))
    decreases Below(c, key), 0, |kids|
  {
    if kids != [] {
      var k := kids[0].id;
      BelowShrinks(c, key, k);
      var sub := Preorder(c, Some(k), depth + 1, sorted);
      var rest := Walk(c, key, kids[1..], depth, sorted);
      PreorderParentsFirst(c, Some(k), depth + 1, sorted);
      WalkParentsFirst(c, key, kids[1..], depth, sorted);
      PreorderMembers(c, Some(k), depth + 1, sorted);
      forall i | 0 <= i < |sub| ensures c.tasks[sub[i].id].parentId != key {
        assert sub[i].id in Ids(sub);
        TopAncestorOf(c, sub[i].id, k, key);
      }
      ParentsFirstCons(c, key, depth, k, sub);
      ParentsFirstAppend(c, key, depth, [Node(k, depth)] + sub, rest);
    }
  }

  /** Preorder: each task comes after its parent, one level deeper. */
  lemma {:induction false} PreorderParentsFirst(c: Cache, key: ParentKey, depth: nat, sorted: bool)
    requires WellFormed(c)
    ensures ParentsFirst(c, key, depth, Preorder(c, key, depth, sorted))
    decreases Below(c, key), 1, 0
  {
    KidsFacts(c, key, sorted);
    WalkParentsFirst(c, key, Kids(c, key, sorted), depth, sorted);
  }

  /** The same elements `e` levels deeper. */
  function Shifted(ns: seq<Node>, e: nat): (r: seq<Node>)
    ensures |r| == |ns|
    ensures forall i | 0 <= i < |ns| :: r[i] == Node(ns[i].id, ns[i].depth + e)
  {
    seq(|ns|, i requires 0 <= i < |ns| => Node(ns[i].id, ns[i].depth + e))
  }

  /** A slice of the middle part of `a + b + r`, taken at an offset of
      `|a|`, is the same slice of `b`. */
  lemma SliceMiddle(a: seq<Node>, b: seq<Node>, r: seq<Node>, lo: nat, hi: nat)
    requires lo <= hi <= |b|
    ensures |a| + hi <= |a + b + r| && (a + b + r)[|a| + lo .. |a| + hi] == b[lo..hi]
  {
    var w := a + b + r;
    forall n | |a| + lo <= n < |a| + hi ensures w[n] == b[n - |a|] {
    }
  }

  /** Entry `i` of `w` is followed at once by the subtree of its task, one
      level deeper. */
  ghost predicate NestedAt(c: Cache, w: seq<Node>, i: nat, sorted: bool)
    requires WellFormed(c)
  {
    && i < |w|
    && var sub := Preorder(c, Some(w[i].id), w[i].depth + 1, sorted);
       i + 1 + |sub| <= |w| && w[i + 1 .. i + 1 + |sub|] == sub
  }

  /** One step of `Walk`: the first child, its subtree, then the rest. */
  lemma WalkCons(c: Cache, key: ParentKey, kids: seq<Task>, depth: nat, sorted: bool)
    requires WellFormed(c) && ChildrenOf(c, key, kids) && kids != []
    ensures BelowShrinksHolds(c, key, kids[0].id)
    ensures Walk(c, key, kids, depth, sorted)
         == [Node(kids[0].id, depth)] + Preorder(c, Some(kids[0].id), depth + 1, sorted)
            + Walk(c, key, kids[1..], depth, sorted)
  {
    BelowShrinks(c, key, kids[0].id);
  }

  /** One `Walk` step, `w == [head] + p + rest`: the head is followed by
      its subtree `p`. */
  lemma NestedAtHead(c: Cache, w: seq<Node>, head: Node, p: seq<Node>, rest: seq<Node>, sorted: bool)
    requires WellFormed(c) && w == [head] + p + rest
    requires Preorder(c, Some(head.id), head.depth + 1, sorted) == p
    ensures NestedAt(c, w, 0, sorted)
  {
    assert w[0] == head;
    SliceMiddle([head], p, rest, 0, |p|);
  }

  /** An entry of `p` followed by its subtree keeps it in `w`. */
  lemma NestedAtFirst(c: Cache, w: seq<Node>, head: Node, p: seq<Node>, rest: seq<Node>, m: nat, i: nat, sorted: bool)
    requires WellFormed(c) && w == [head] + p + rest
    requires i == m + 1 && NestedAt(c, p, m, sorted)
    ensures NestedAt(c, w, i, sorted)
  {
    assert w[i] == p[m];
    var sub := Preorder(c, Some(p[m].id), p[m].depth + 1, sorted);
    SliceMiddle([head], p, rest, i, i + |sub|);
  }

  /** An entry of `rest` followed by its subtree keeps it in `w`. */
  lemma NestedAtRest(c: Cache, w: seq<Node>, head: Node, p: seq<Node>, rest: seq<Node>, m: nat, i: nat, sorted: bool)
    requires WellFormed(c) && w == [head] + p + rest
    requires i == 1 + |p| + m && NestedAt(c, rest, m, sorted)
    ensures NestedAt(c, w, i, sorted)
  {
    assert w[i] == rest[m];
    var sub := Preorder(c, Some(rest[m].id), rest[m].depth + 1, sorted);
    assert w == ([head] + p) + rest + [];
    SliceMiddle([head] + p, rest, [], m + 1, m + 1 + |sub|);
  }

  /** `renderChildTasks` renders each child's list inside that child's
      element: in the flat order, every entry is followed at once by the
      whole subtree of its task, one level deeper. */
  lemma {:induction false} WalkNested(c: Cache, key: ParentKey, kids: seq<Task>, depth: nat, sorted: bool, i: nat)
    requires WellFormed(c) && ChildrenOf(c, key, kids)
    requires i < |Walk(c, key, kids, depth, sorted)|
    ensures NestedAt(c, Walk(c, key, kids, depth, sorted), i, sorted)
    decreases Below(c, key), 0, |kids|
  {
    var k := kids[0].id;
    WalkCons(c, key, kids, depth, sorted);
    var p := Preorder(c, Some(k), depth + 1, sorted);
    var rest := Walk(c, key, kids[1..], depth, sorted);
    var w := Walk(c, key, kids, depth, sorted);
    if i == 0 {
      NestedAtHead(c, w, Node(k, depth), p, rest, sorted);
    } else if i <= |p| {
      var m := i - 1;
      PreorderNested(c, Some(k), depth + 1, sorted, m);
      NestedAtFirst(c, w, Node(k, depth), p, rest, m, i, sorted);
    } else {
      var m := i - 1 - |p|;
      WalkNested(c, key, kids[1..], depth, sorted, m);
      NestedAtRest(c, w, Node(k, depth), p, rest, m, i, sorted);
    }
  }

  /** The same for the whole traversal below `key`. */
  lemma {:induction false} PreorderNested(c: Cache, key: ParentKey, depth: nat, sorted: bool, i: nat)
    requires WellFormed(c)
    requires i < |Preorder(c, key, depth, sorted)|
    ensures NestedAt(c, Preorder(c, key, depth, sorted), i, sorted)
    decreases Below(c, key), 1, 0
  {
    KidsFacts(c, key, sorted);
    WalkNested(c, key, Kids(c, key, sorted), depth, sorted, i);
  }

  lemma ShiftedConcat(a: seq<Node>, b: seq<Node>, e: nat)
    ensures Shifted(a + b, e) == Shifted(a, e) + Shifted(b, e)
  {
  }

  lemma {:induction false} WalkShift(c: Cache, key: ParentKey, kids: seq<Task>, d: nat, e: nat, sorted: bool)
    requires WellFormed(c) && ChildrenOf(c, key, kids)
    ensures Walk(c, key, kids, d + e, sorted) == Shifted(Walk(c, key, kids, d, sorted), e)
    decreases Below(c, key), 0, |kids|
  {
    if kids != [] {
      var k := kids[0].id;
      WalkCons(c, key, kids, d, sorted);
      WalkCons(c, key, kids, d + e, sorted);
      PreorderShift(c, Some(k), d + 1, e, sorted);
      WalkShift(c, key, kids[1..], d, e, sorted);
      var sub := Preorder(c, Some(k), d + 1, sorted);
      var rest := Walk(c, key, kids[1..], d, sorted);
      ShiftedConcat([Node(k, d)] + sub, rest, e);
      ShiftedConcat([Node(k, d)], sub, e);
      assert Shifted([Node(k, d)], e) == [Node(k, d + e)];
    }
  }

  /** Starting `e` levels deeper shifts every depth by `e` and nothing else. */
  lemma {:induction false} PreorderShift(c: Cache, key: ParentKey, d: nat, e: nat, sorted: bool)
    requires WellFormed(c)
    ensures Preorder(c, key, d + e, sorted) == Shifted(Preorder(c, key, d, sorted), e)
    decreases Below(c, key), 1, 0
  {
    KidsFacts(c, key, sorted);
    WalkShift(c, key, Kids(c, key, sorted), d, e, sorted);
  }
}
