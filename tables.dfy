/** The query primitives the services use on the in-memory tables: a
    `findMany` with a `where` clause is a filter that keeps table order,
    `findFirst`/`findUnique` is the first row meeting the condition, `count`
    is the length of a filter, `orderBy: { points: 'desc' }` is a stable sort
    on points, and `orderBy: { completed: 'asc' }` puts incomplete rows first. */
module Tables {
  import opened Types

  /** The rows of `s` that meet `f`, in table order. */
  function Filter<T(!new)>(s: seq<T>, f: T -> bool): (r: seq<T>)
    ensures |r| <= |s|
    ensures forall x :: x in r <==> x in s && f(x)
    ensures multiset(r) <= multiset(s)
  {
    if s == [] then []
    else
      assert s == [s[0]] + s[1..];
      (if f(s[0]) then [s[0]] else []) + Filter(s[1..], f)
  }

  lemma {:induction false} FilterAppend<T(!new)>(a: seq<T>, b: seq<T>, f: T -> bool)
    ensures Filter(a + b, f) == Filter(a, f) + Filter(b, f)
  {
    if a == [] {
      assert a + b == b;
    } else {
      assert (a + b)[1..] == a[1..] + b;
      FilterAppend(a[1..], b, f);
    }
  }

  lemma SameMultisetSameRows<T>(a: seq<T>, b: seq<T>)
    requires multiset(a) == multiset(b)
    ensures forall x :: x in a <==> x in b
  {
    forall x ensures x in a <==> x in b {
      assert x in a <==> x in multiset(a);
      assert x in b <==> x in multiset(b);
    }
  }

  /** The index of the first row meeting `f`, or |s| when there is none. */
  function FirstIndex<T(!new)>(s: seq<T>, f: T -> bool): (k: nat)
    ensures k <= |s|
    ensures k < |s| ==> f(s[k])
    ensures forall i :: 0 <= i < k ==> !f(s[i])
  {
    if s == [] then 0
    else if f(s[0]) then 0
    else 1 + FirstIndex(s[1..], f)
  }

  /** Prisma's `findFirst`: the first row meeting `f`, if any. */
  function FindFirst<T(!new)>(s: seq<T>, f: T -> bool): (r: Option<T>)
    ensures r.Some? ==> r.value in s && f(r.value)
    ensures r.None? <==> forall x :: x in s ==> !f(x)
    ensures r.Some? ==> exists k :: 0 <= k < |s| && s[k] == r.value &&
                                    forall i :: 0 <= i < k ==> !f(s[i])
  {
    var k := FirstIndex(s, f);
    if k < |s| then Some(s[k]) else None
  }

  // ---- orderBy points desc ------------------------------------------------

  ghost predicate SortedByPointsDesc(ps: seq<Player>) {
    forall i, j :: 0 <= i < j < |ps| ==> ps[i].points >= ps[j].points
  }

  lemma SortedCons(p: Player, ps: seq<Player>)
    requires SortedByPointsDesc(ps)
    requires ps != [] ==> p.points >= ps[0].points
    ensures SortedByPointsDesc([p] + ps)
  {
    forall i, j | 0 <= i < j < |[p] + ps|
      ensures ([p] + ps)[i].points >= ([p] + ps)[j].points
    {
      if i == 0 && j > 1 {
        assert ps[0].points >= ps[j - 1].points;
      }
    }
  }

  /** Places `p` before the first player with no more points than it has,
      so that `p` stays ahead of the players it ties with. */
  function InsertByPoints(p: Player, ps: seq<Player>): (r: seq<Player>)
    requires SortedByPointsDesc(ps)
    ensures SortedByPointsDesc(r)
    ensures multiset(r) == multiset(ps) + multiset{p}
    ensures |r| == |ps| + 1
    ensures r != [] && (r[0] == p || (ps != [] && r[0] == ps[0]))
  {
    if ps == [] || p.points >= ps[0].points then
      SortedCons(p, ps);
      [p] + ps
    else
      var rest := InsertByPoints(p, ps[1..]);
      assert ps == [ps[0]] + ps[1..];
      assert ps[1..] != [] ==> ps[0].points >= ps[1..][0].points;
      SortedCons(ps[0], rest);
      [ps[0]] + rest
  }

  /** The table sorted by points, highest first; rows with equal points keep
      their table order (see OrderByPointsIsStable). */
  function OrderByPointsDesc(ps: seq<Player>): (r: seq<Player>)
    ensures |r| == |ps|
    ensures SortedByPointsDesc(r)
    ensures multiset(r) == multiset(ps)
  {
    if ps == [] then []
    else
      assert ps == [ps[0]] + ps[1..];
      InsertByPoints(ps[0], OrderByPointsDesc(ps[1..]))
  }

  /** The players of `ps` holding exactly `k` points, in order. */
  function WithPoints(ps: seq<Player>, k: nat): seq<Player> {
    if ps == [] then []
    else (if ps[0].points == k then [ps[0]] else []) + WithPoints(ps[1..], k)
  }

  lemma WithPointsCons(x: Player, s: seq<Player>, k: nat)
    ensures WithPoints([x] + s, k) == (if x.points == k then [x] else []) + WithPoints(s, k)
  {
    assert ([x] + s)[1..] == s;
  }

  lemma {:induction false} InsertByPointsWithPoints(p: Player, ps: seq<Player>, k: nat)
    requires SortedByPointsDesc(ps)
    ensures WithPoints(InsertByPoints(p, ps), k) ==
            (if p.points == k then [p] else []) + WithPoints(ps, k)
  {
    if ps == [] || p.points >= ps[0].points {
      assert InsertByPoints(p, ps) == [p] + ps;
      WithPointsCons(p, ps, k);
    } else {
      var rest := InsertByPoints(p, ps[1..]);
      assert InsertByPoints(p, ps) == [ps[0]] + rest;
      InsertByPointsWithPoints(p, ps[1..], k);
      WithPointsCons(ps[0], rest, k);
      assert ps == [ps[0]] + ps[1..];
      WithPointsCons(ps[0], ps[1..], k);
      var w := WithPoints(ps[1..], k);
      if p.points == k {
        assert ps[0].points != k;
        assert WithPoints(rest, k) == [p] + w;
        assert WithPoints(ps, k) == w;
      } else {
        assert WithPoints(rest, k) == w;
      }
    }
  }

  /** The sort is stable: for every points value, the players holding it
      appear in the result in the order they have in the table. */
  lemma {:induction false} OrderByPointsIsStable(ps: seq<Player>, k: nat)
    ensures WithPoints(OrderByPointsDesc(ps), k) == WithPoints(ps, k)
  {
    if ps != [] {
      OrderByPointsIsStable(ps[1..], k);
      InsertByPointsWithPoints(ps[0], OrderByPointsDesc(ps[1..]), k);
    }
  }

  // ---- orderBy completed asc ----------------------------------------------

  predicate Pending(m: Match) { !m.completed }
  predicate Completed(m: Match) { m.completed }

  /** Incomplete matches first, then completed ones, each group in table order. */
  function OrderByCompletedAsc(ms: seq<Match>): (r: seq<Match>)
    ensures multiset(r) == multiset(ms)
    ensures forall i, j :: 0 <= i < j < |r| && r[i].completed ==> r[j].completed
    ensures Filter(r, Pending) == Filter(ms, Pending)
    ensures Filter(r, Completed) == Filter(ms, Completed)
  {
    var pending := Filter(ms, Pending);
    var done := Filter(ms, Completed);
    PendingCompletedSplit(ms);
    PartitionOrdered(pending, done);
    PartitionKeepsGroups(pending, done);
    pending + done
  }

  /** Splitting the match table into incomplete and completed rows loses
      and invents no row. */
  lemma {:induction false} PendingCompletedSplit(ms: seq<Match>)
    ensures multiset(Filter(ms, Pending)) + multiset(Filter(ms, Completed)) == multiset(ms)
  {
    if ms != [] {
      var m, t := ms[0], ms[1..];
      PendingCompletedSplit(t);
      assert ms == [m] + t;
      if m.completed {
        assert Filter(ms, Pending) == Filter(t, Pending);
        assert Filter(ms, Completed) == [m] + Filter(t, Completed);
      } else {
        assert Filter(ms, Pending) == [m] + Filter(t, Pending);
        assert Filter(ms, Completed) == Filter(t, Completed);
      }
    }
  }

  lemma PartitionOrdered(pending: seq<Match>, done: seq<Match>)
    requires forall m :: m in pending ==> !m.completed
    requires forall m :: m in done ==> m.completed
    ensures forall i, j :: 0 <= i < j < |pending + done| && (pending + done)[i].completed ==>
                           (pending + done)[j].completed
  {
    forall i, j | 0 <= i < j < |pending + done| && (pending + done)[i].completed
      ensures (pending + done)[j].completed
    {
      if i >= |pending| {
        assert done[j - |pending|] in done;
      }
    }
  }

  lemma PartitionKeepsGroups(pending: seq<Match>, done: seq<Match>)
    requires forall m :: m in pending ==> !m.completed
    requires forall m :: m in done ==> m.completed
    ensures Filter(pending + done, Pending) == pending
    ensures Filter(pending + done, Completed) == done
  {
    FilterAppend(pending, done, Pending);
    FilterAppend(pending, done, Completed);
    FilterAll(pending, Pending);
    FilterNone(done, Pending);
    FilterAll(done, Completed);
    FilterNone(pending, Completed);
  }

  lemma {:induction false} FilterAll<T(!new)>(s: seq<T>, f: T -> bool)
    requires forall x :: x in s ==> f(x)
    ensures Filter(s, f) == s
  {
    if s != [] {
      FilterAll(s[1..], f);
      assert s == [s[0]] + s[1..];
    }
  }

  lemma {:induction false} FilterNone<T(!new)>(s: seq<T>, f: T -> bool)
    requires forall x :: x in s ==> !f(x)
    ensures Filter(s, f) == []
  {
    if s != [] {
      FilterNone(s[1..], f);
    }
  }
}
