/**
 * The breadcrumb trail above the focused task: a home link, then for each
 * path entry a separator and, when the entry is cached, a link to it, or an
 * inert label for the last entry. src/js/ui.js `updateBreadcrumbs` emits
 * the separator before looking the entry up; script.js `createBreadcrumbs`
 * skips an uncached entry entirely.
 */
module Breadcrumbs {
  import opened Wrappers
  import opened TaskCache
  import opened Forest
  import opened Paths

  datatype Crumb = Home | Separator | Link(id: Id) | Label(id: Id)

  /** src/js/ui.js `updateBreadcrumbs`; `None` when the container element
      is missing. */
  function UpdateBreadcrumbs(c: Cache, path: seq<Id>, present: bool): Option<seq<Crumb>> {
    if !present then None else Some([Home] + Items(c, path, 0))
  }

  /** The crumb for a cached entry: inert for the last one. */
  function Entry(path: seq<Id>, i: nat): Crumb
    requires i < |path|
  {
    if i == |path| - 1 then Label(path[i]) else Link(path[i])
  }

  function Items(c: Cache, path: seq<Id>, i: nat): seq<Crumb>
    requires i <= |path|
    decreases |path| - i
  {
    if i == |path| then []
    else [Separator] + (if path[i] in c.tasks then [Entry(path, i)] else []) + Items(c, path, i + 1)
  }

  /** script.js `createBreadcrumbs`. */
  function CreateBreadcrumbs(c: Cache, path: seq<Id>, present: bool): Option<seq<Crumb>> {
    if !present then None else Some([Home] + ScriptItems(c, path, 0))
  }

  function ScriptItems(c: Cache, path: seq<Id>, i: nat): seq<Crumb>
    requires i <= |path|
    decreases |path| - i
  {
    if i == |path| then []
    else if path[i] !in c.tasks then ScriptItems(c, path, i + 1)
    else [Separator, Entry(path, i)] + ScriptItems(c, path, i + 1)
  }

  function Count(s: seq<Crumb>, x: Crumb): nat
    decreases |s|
  {
    if s == [] then 0 else (if s[0] == x then 1 else 0) + Count(s[1..], x)
  }

  lemma {:induction false} CountConcat(a: seq<Crumb>, b: seq<Crumb>, x: Crumb)
    ensures Count(a + b, x) == Count(a, x) + Count(b, x)
    decreases |a|
  {
    if a != [] {
      CountConcat(a[1..], b, x);
      assert (a + b)[1..] == a[1..] + b;
    } else {
      assert a + b == b;
    }
  }

  /** The number of entries from `i` on that are cached. */
  function CachedFrom(c: Cache, path: seq<Id>, i: nat): nat
    requires i <= |path|
    decreases |path| - i
  {
    if i == |path| then 0 else (if path[i] in c.tasks then 1 else 0) + CachedFrom(c, path, i + 1)
  }

  /** src/js/ui.js: one separator per path entry, cached or not. */
  lemma {:induction false} ItemsSeparators(c: Cache, path: seq<Id>, i: nat)
    requires i <= |path|
    ensures Count(Items(c, path, i), Separator) == |path| - i
    decreases |path| - i
  {
    if i < |path| {
      ItemsSeparators(c, path, i + 1);
      var e := if path[i] in c.tasks then [Entry(path, i)] else [];
      CountConcat([Separator] + e, Items(c, path, i + 1), Separator);
      CountConcat([Separator], e, Separator);
    }
  }

  /** script.js: one separator per cached path entry only. */
  lemma {:induction false} ScriptItemsSeparators(c: Cache, path: seq<Id>, i: nat)
    requires i <= |path|
    ensures Count(ScriptItems(c, path, i), Separator) == CachedFrom(c, path, i)
    decreases |path| - i
  {
    if i < |path| {
      ScriptItemsSeparators(c, path, i + 1);
      if path[i] in c.tasks {
        CountConcat([Separator, Entry(path, i)], ScriptItems(c, path, i + 1), Separator);
      }
    }
  }

  /** Links and labels: an entry gets a link exactly when it is cached and
      not last, the inert label exactly when it is cached and last; both
      trails agree on this. */
  lemma {:induction false} ItemsEntries(c: Cache, path: seq<Id>, i: nat, x: Crumb)
    requires i <= |path|
    ensures x in Items(c, path, i) && x != Separator <==>
      exists j :: i <= j < |path| && path[j] in c.tasks && x == Entry(path, j)
    ensures x in ScriptItems(c, path, i) && x != Separator <==>
      exists j :: i <= j < |path| && path[j] in c.tasks && x == Entry(path, j)
    decreases |path| - i
  {
    if i < |path| {
      ItemsEntries(c, path, i + 1, x);
      if x != Separator && x == Entry(path, i) && path[i] in c.tasks {
        assert x in Items(c, path, i);
        assert x in ScriptItems(c, path, i);
      }
    }
  }

  /** When every entry is cached, both trails are the same alternation of
      separators and entries, ending with the inert label of the last. */
  lemma {:induction false} AllCachedLayout(c: Cache, path: seq<Id>, i: nat)
    requires i <= |path|
    requires forall j | i <= j < |path| :: path[j] in c.tasks
    ensures Items(c, path, i) == ScriptItems(c, path, i)
    ensures |Items(c, path, i)| == 2 * (|path| - i)
    ensures forall k | 0 <= k < |path| - i ::
      Items(c, path, i)[2 * k] == Separator && Items(c, path, i)[2 * k + 1] == Entry(path, i + k)
    decreases |path| - i
  {
    if i < |path| {
      AllCachedLayout(c, path, i + 1);
      var rest := Items(c, path, i + 1);
      assert Items(c, path, i) == [Separator, Entry(path, i)] + rest;
      forall k | 1 <= k < |path| - i
        ensures Items(c, path, i)[2 * k] == Separator && Items(c, path, i)[2 * k + 1] == Entry(path, i + k)
      {
        assert rest[2 * (k - 1)] == Separator && rest[2 * (k - 1) + 1] == Entry(path, i + 1 + (k - 1));
      }
    }
  }

  /** The trail shown for an opened cached task: home, then separator and
      link for each ancestor, then separator and the task's inert label. */
  lemma FocusTrail(c: Cache, id: Id)
    requires WellFormed(c) && id in c.tasks
    ensures var path := PathTo(c, id);
      var trail := UpdateBreadcrumbs(c, path, true).value;
      && trail == CreateBreadcrumbs(c, path, true).value
      && |trail| == 1 + 2 * |path|
      && trail[0] == Home
      && trail[|trail| - 1] == Label(id)
      && (forall k | 0 <= k < |path| :: trail[2 * k + 1] == Separator)
      && (forall k | 0 <= k < |path| - 1 :: trail[2 * k + 2] == Link(path[k]))
  {
    var path := PathTo(c, id);
    PathEnds(c, id);
    PathLinked(c, id);
    AllCachedLayout(c, path, 0);
    var trail := [Home] + Items(c, path, 0);
    assert trail[|trail| - 1] == Items(c, path, 0)[2 * (|path| - 1) + 1];
    forall k | 0 <= k < |path| ensures trail[2 * k + 1] == Separator {
      assert trail[2 * k + 1] == Items(c, path, 0)[2 * k];
    }
    forall k | 0 <= k < |path| - 1 ensures trail[2 * k + 2] == Link(path[k]) {
      assert trail[2 * k + 2] == Items(c, path, 0)[2 * k + 1];
    }
  }
}
