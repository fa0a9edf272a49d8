/**
 * `children.sort((a, b) => (a.position || 0) - (b.position || 0))`:
 * JavaScript's `Array.prototype.sort` is stable, so the model is a stable
 * insertion sort on the position key.
 */
module Sorting {
  import opened TaskCache

  ghost predicate SortedByPosition(ts: seq<Task>) {
    forall i, j | 0 <= i < j < |ts| :: Pos(ts[i]) <= Pos(ts[j])
  }

  /** Reference for stability: the tasks whose position key is `v`, in order. */
  function AtPosition(ts: seq<Task>, v: int): seq<Task>
    decreases |ts|
  {
    if ts == [] then []
    else (if Pos(ts[0]) == v then [ts[0]] else []) + AtPosition(ts[1..], v)
  }

  /** Puts `t` before the first task whose key is not smaller. */
  function Insert(t: Task, s: seq<Task>): seq<Task>
    decreases |s|
  {
    if s == [] then [t]
    else if Pos(t) <= Pos(s[0]) then [t] + s
    else [s[0]] + Insert(t, s[1..])
  }

  function SortByPosition(ts: seq<Task>): seq<Task>
    decreases |ts|
  {
    if ts == [] then [] else Insert(ts[0], SortByPosition(ts[1..]))
  }

  lemma {:induction false} InsertPermutes(t: Task, s: seq<Task>)
    ensures multiset(Insert(t, s)) == multiset(s) + multiset{t}
    decreases |s|
  {
    if s != [] && Pos(t) > Pos(s[0]) {
      InsertPermutes(t, s[1..]);
      assert s == [s[0]] + s[1..];
    }
  }

  lemma {:induction false} InsertSorted(t: Task, s: seq<Task>)
    requires SortedByPosition(s)
    ensures SortedByPosition(Insert(t, s))
    decreases |s|
  {
    if s != [] {
      if Pos(t) <= Pos(s[0]) {
        var r := [t] + s;
        forall i, j | 0 <= i < j < |r| ensures Pos(r[i]) <= Pos(r[j]) {
          assert r[j] == s[j - 1];
          if i > 0 { assert r[i] == s[i - 1]; }
        }
      } else {
        var tail := Insert(t, s[1..]);
        InsertSorted(t, s[1..]);
        InsertPermutes(t, s[1..]);
        var r := [s[0]] + tail;
        forall i, j | 0 <= i < j < |r| ensures Pos(r[i]) <= Pos(r[j]) {
          assert r[j] == tail[j - 1];
          if i > 0 {
            assert r[i] == tail[i - 1];
          } else {
            assert tail[j - 1] in multiset(s[1..]) + multiset{t};
            if tail[j - 1] in s[1..] {
              var k :| 0 <= k < |s[1..]| && s[1..][k] == tail[j - 1];
              assert s[k + 1] == tail[j - 1];
            }
          }
        }
      }
    }
  }

  /** Inserting puts `t` ahead of every task with the same key: the tasks
      it steps past all have smaller keys. */
  lemma {:induction false} InsertStable(t: Task, s: seq<Task>, v: int)
    ensures AtPosition(Insert(t, s), v) == (if Pos(t) == v then [t] else []) + AtPosition(s, v)
    decreases |s|
  {
    if s == [] {
      assert AtPosition([t], v) == (if Pos(t) == v then [t] else []) + AtPosition([], v);
    } else if Pos(t) <= Pos(s[0]) {
      assert ([t] + s)[1..] == s;
    } else {
      var rest := Insert(t, s[1..]);
      InsertStable(t, s[1..], v);
      assert ([s[0]] + rest)[1..] == rest;
      assert AtPosition([s[0]] + rest, v) == (if Pos(s[0]) == v then [s[0]] else []) + AtPosition(rest, v);
      assert AtPosition(s, v) == (if Pos(s[0]) == v then [s[0]] else []) + AtPosition(s[1..], v);
    }
  }

  lemma {:induction false} SortPermutes(ts: seq<Task>)
    ensures multiset(SortByPosition(ts)) == multiset(ts)
    decreases |ts|
  {
    if ts != [] {
      var rest := SortByPosition(ts[1..]);
      SortPermutes(ts[1..]);
      InsertPermutes(ts[0], rest);
      assert ts == [ts[0]] + ts[1..];
      assert multiset(ts) == multiset{ts[0]} + multiset(ts[1..]);
    }
  }

  lemma {:induction false} SortSorts(ts: seq<Task>)
    ensures SortedByPosition(SortByPosition(ts))
    decreases |ts|
  {
    if ts != [] {
      SortSorts(ts[1..]);
      InsertSorted(ts[0], SortByPosition(ts[1..]));
    }
  }

  /** The sort is stable: tasks with equal keys keep their relative order. */
  lemma {:induction false} SortStable(ts: seq<Task>, v: int)
    ensures AtPosition(SortByPosition(ts), v) == AtPosition(ts, v)
    decreases |ts|
  {
    if ts != [] {
      SortStable(ts[1..], v);
      InsertStable(ts[0], SortByPosition(ts[1..]), v);
    }
  }

  /** Inserting a task whose id is new keeps the ids distinct. */
  lemma {:induction false} InsertDistinct(t: Task, s: seq<Task>)
    requires DistinctIds(s) && forall u | u in s :: u.id != t.id
    ensures DistinctIds(Insert(t, s))
    decreases |s|
  {
    if s == [] {
    } else if Pos(t) <= Pos(s[0]) {
      DistinctCons(t, s);
    } else {
      var tail := s[1..];
      assert DistinctIds(tail) by {
        forall i, j | 0 <= i < j < |tail| ensures tail[i].id != tail[j].id {
          assert tail[i] == s[i + 1] && tail[j] == s[j + 1];
        }
      }
      InsertDistinct(t, tail);
      InsertPermutes(t, tail);
      forall u | u in Insert(t, tail) ensures u.id != s[0].id {
        assert u in multiset(Insert(t, tail));
        if u != t {
          assert u in tail;
        }
      }
      DistinctCons(s[0], Insert(t, tail));
    }
  }

  /** Sorting keeps the ids distinct. */
  lemma {:induction false} SortDistinct(ts: seq<Task>)
    requires DistinctIds(ts)
    ensures DistinctIds(SortByPosition(ts))
    decreases |ts|
  {
    if ts != [] {
      var tail := ts[1..];
      assert DistinctIds(tail) by {
        forall i, j | 0 <= i < j < |tail| ensures tail[i].id != tail[j].id {
          assert tail[i] == ts[i + 1] && tail[j] == ts[j + 1];
        }
      }
      SortDistinct(tail);
      SortPermutes(tail);
      forall u | u in SortByPosition(tail) ensures u.id != ts[0].id {
        assert u in multiset(SortByPosition(tail));
        assert u in tail;
      }
      InsertDistinct(ts[0], SortByPosition(tail));
    }
  }
}
