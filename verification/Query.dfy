/** `ORDER BY <timestamp> LIMIT n`, over the rows a WHERE clause kept. */
module Query {
  import opened Prelude

  /** The earliest row of the pool; of equals, the one stored first. */
  function Oldest(at: seq<int>, pool: set<nat>): (o: nat)
    requires pool != {} && forall i :: i in pool ==> i < |at|
    ensures o in pool
    ensures forall i :: i in pool ==> at[o] < at[i] || (at[o] == at[i] && o <= i)
  {
    var i :| i in pool;
    if pool == {i} then
      i
    else
      var rest := pool - {i};
      assert pool == rest + {i};
      var o := Oldest(at, rest);
      if at[i] < at[o] || (at[i] == at[o] && i < o) then i else o
  }

  function TakeOldest(at: seq<int>, pool: set<nat>, limit: nat): (taken: seq<nat>)
    requires forall i :: i in pool ==> i < |at|
    ensures forall k :: 0 <= k < |taken| ==> taken[k] in pool
    decreases limit
  {
    if limit == 0 || pool == {} then []
    else
      var o := Oldest(at, pool);
      [o] + TakeOldest(at, pool - {o}, limit - 1)
  }

  /** No row twice, and older ones first. */
  ghost predicate OldestFirst(at: seq<int>, taken: seq<nat>)
    requires forall k :: 0 <= k < |taken| ==> taken[k] < |at|
  {
    forall x, y :: 0 <= x < y < |taken| ==> taken[x] != taken[y] && at[taken[x]] <= at[taken[y]]
  }

  /** No row left behind is older than one taken. */
  ghost predicate NoneOlderLeft(at: seq<int>, pool: set<nat>, taken: seq<nat>)
    requires (forall i :: i in pool ==> i < |at|) && forall k :: 0 <= k < |taken| ==> taken[k] < |at|
  {
    forall i, k :: i in pool && i !in taken && 0 <= k < |taken| ==> at[taken[k]] <= at[i]
  }

  /** The answer is a batch of the pool's oldest: as many as asked for, no row twice,
      in order, and no row left behind that is older than one taken. */
  ghost predicate IsOldestBatch(at: seq<int>, pool: set<nat>, limit: nat, taken: seq<nat>)
    requires forall i :: i in pool ==> i < |at|
  {
    && |taken| == Min(limit, |pool|)
    && (forall k :: 0 <= k < |taken| ==> taken[k] in pool)
    && OldestFirst(at, taken) && NoneOlderLeft(at, pool, taken)
  }

  lemma PrependOldest(at: seq<int>, pool: set<nat>, limit: nat, o: nat, rest: seq<nat>)
    requires forall i :: i in pool ==> i < |at|
    requires limit > 0 && o in pool && |pool - {o}| == |pool| - 1
    requires forall i :: i in pool ==> at[o] <= at[i]
    requires IsOldestBatch(at, pool - {o}, limit - 1, rest)
    ensures IsOldestBatch(at, pool, limit, [o] + rest)
  {
    var taken := [o] + rest;
    assert |taken| == Min(limit, |pool|);
    forall k | 0 <= k < |taken|
      ensures taken[k] in pool
    {
      assert k > 0 ==> taken[k] == rest[k - 1] && rest[k - 1] in pool - {o};
    }
    assert forall k :: 0 <= k < |rest| ==> rest[k] in pool - {o};
    PrependKeepsOrder(at, o, rest);
    PrependLeavesNoneOlder(at, pool, o, rest);
  }

  lemma PrependKeepsOrder(at: seq<int>, o: nat, rest: seq<nat>)
    requires o < |at| && forall k :: 0 <= k < |rest| ==> rest[k] < |at| && rest[k] != o && at[o] <= at[rest[k]]
    requires OldestFirst(at, rest)
    ensures OldestFirst(at, [o] + rest)
  {
  }

  lemma PrependLeavesNoneOlder(at: seq<int>, pool: set<nat>, o: nat, rest: seq<nat>)
    requires (forall i :: i in pool ==> i < |at|) && forall k :: 0 <= k < |rest| ==> rest[k] < |at|
    requires o in pool && forall i :: i in pool ==> at[o] <= at[i]
    requires NoneOlderLeft(at, pool - {o}, rest)
    ensures NoneOlderLeft(at, pool, [o] + rest)
  {
    var taken := [o] + rest;
    forall i, k | i in pool && i !in taken && 0 <= k < |taken|
      ensures at[taken[k]] <= at[i]
    {
      if k > 0 {
        NotTakenBefore(o, rest, i);
        assert i in pool - {o} && taken[k] == rest[k - 1];
      }
    }
  }

  lemma NotTakenBefore(o: nat, rest: seq<nat>, i: nat)
    requires i !in [o] + rest
    ensures i != o && i !in rest
  {
    assert ([o] + rest)[0] == o;
    assert forall k :: 0 <= k < |rest| ==> ([o] + rest)[k + 1] == rest[k];
  }

  lemma {:induction false} TakeOldestTakesTheOldest(at: seq<int>, pool: set<nat>, limit: nat)
    requires forall i :: i in pool ==> i < |at|
    ensures IsOldestBatch(at, pool, limit, TakeOldest(at, pool, limit))
    decreases limit
  {
    if limit == 0 || pool == {} {
    } else {
      var o := Oldest(at, pool);
      var rest := TakeOldest(at, pool - {o}, limit - 1);
      TakeOldestTakesTheOldest(at, pool - {o}, limit - 1);
      assert |pool - {o}| == |pool| - 1;
      PrependOldest(at, pool, limit, o, rest);
    }
  }

  lemma EmptyOrNot(s: set<int>)
    ensures s == {} || exists x :: x in s
  {
    if forall x :: x !in s {
      assert s == {};
    }
  }

  predicate IsLeast(m: int, s: set<int>) {
    m in s && forall x :: x in s ==> m <= x
  }

  lemma {:induction false} SomethingIsLeast(s: set<int>)
    requires s != {}
    ensures exists m :: IsLeast(m, s)
    decreases s
  {
    EmptyOrNot(s);
    var y :| y in s;
    if s == {y} {
      assert IsLeast(y, s);
    } else {
      var rest := s - {y};
      assert s == rest + {y};
      SomethingIsLeast(rest);
      var m :| IsLeast(m, rest);
      assert IsLeast(if y < m then y else m, s);
    }
  }

  lemma {:induction false} DistinctSize<T>(s: seq<T>)
    requires forall x, y :: 0 <= x < y < |s| ==> s[x] != s[y]
    ensures |set k | 0 <= k < |s| :: s[k]| == |s|
  {
    if s != [] {
      var n := |s| - 1;
      DistinctSize(s[..n]);
      var front := set k | 0 <= k < |s[..n]| :: s[..n][k];
      assert (set k | 0 <= k < |s| :: s[k]) == front + {s[n]};
      assert s[n] !in front;
    }
  }

  lemma {:induction false} SmallerSet<T>(a: set<T>, b: set<T>)
    requires a <= b
    ensures |a| <= |b|
    decreases a
  {
    if a != {} {
      var x :| x in a;
      SmallerSet(a - {x}, b - {x});
    }
  }

  /** What is left of a set when some of its members go, except those that stay. */
  lemma Without<T>(all: set<T>, members: set<T>, stay: set<T>)
    requires members <= all
    ensures |all - (members - stay)| <= |all| - (|members| - |stay|)
  {
    assert members <= (members - stay) + stay;
    SmallerSet(members, (members - stay) + stay);
    assert |(members - stay) + stay| == |members - stay| + |stay|;
    assert |all - (members - stay)| == |all| - |members - stay|;
  }

  /** The positions below `n` at which something holds. */
  ghost function Those(n: nat, p: nat -> bool): set<nat> {
    set k: nat | k < n && p(k)
  }

  lemma OneMoreOfThose(n: nat, p: nat -> bool)
    ensures |Those(n + 1, p)| == |Those(n, p)| + (if p(n) then 1 else 0)
  {
    assert Those(n + 1, p) == if p(n) then Those(n, p) + {n} else Those(n, p);
  }

  lemma OneMember(s: set<nat>, i: nat)
    requires i in s
    ensures |s| == 1 <==> forall j :: j in s ==> j == i
  {
    if forall j :: j in s ==> j == i {
      assert s == {i};
    } else {
      var j :| j in s && j != i;
      SmallerSet({i, j}, s);
    }
  }
}
