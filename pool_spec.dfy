/**
 * The connection pool as a state machine over abstract connection ids. A state is
 * the FIFO queue of idle connections and the map from every connection the pool
 * has handed out or taken back to the time it was last used. Each operation of
 * the pool class is proved equal to one of the step functions here, and the
 * properties of the pool are proved about these functions.
 */
module PoolSpec {
  import opened Results

  /** A JDBC connection, identified abstractly. */
  type Conn = nat

  datatype PoolState = PoolState(idle: seq<Conn>, lastUsed: map<Conn, int>)

  /** The queue never exceeds the maximum (a non-positive maximum keeps it empty). */
  predicate Bounded(s: PoolState, maxSize: int) {
    |s.idle| <= maxSize || s.idle == []
  }

  /** Every idle connection has a last-used time. */
  predicate Tracked(s: PoolState) {
    forall c :: c in s.idle ==> c in s.lastUsed
  }

  predicate WellFormed(s: PoolState, maxSize: int) {
    Bounded(s, maxSize) && Tracked(s)
  }

  // ---------------------------------------------------------------------------
  // acquire and release

  /**
   * `getConnection`: the head of the idle queue if there is one; otherwise the
   * connection the driver opened (`minted`, `None` when connecting threw), which is
   * recorded as last used at `now`. Returns the connection and the new state.
   */
  function Acquire(s: PoolState, minted: Option<Conn>, now: int): (r: (Option<Conn>, PoolState))
    ensures s.idle != [] ==> r.0 == Some(s.idle[0]) && [s.idle[0]] + r.1.idle == s.idle && r.1.lastUsed == s.lastUsed
    ensures s.idle == [] ==> r.0 == minted && r.1.idle == []
    ensures s.idle == [] && minted.Some? ==> r.1.lastUsed == s.lastUsed[minted.value := now]
    ensures s.idle == [] && minted.None? ==> r.1 == s
    ensures Tracked(s) && r.0.Some? ==> r.0.value in r.1.lastUsed
    ensures s.lastUsed.Keys <= r.1.lastUsed.Keys
    ensures forall maxSize :: WellFormed(s, maxSize) ==> WellFormed(r.1, maxSize)
  {
    if s.idle != [] then
      assert s.idle == [s.idle[0]] + s.idle[1..];
      assert forall c :: c in s.idle[1..] ==> c in s.idle;
      (Some(s.idle[0]), s.(idle := s.idle[1..]))
    else match minted
      case None => (None, s)
      case Some(c) => (Some(c), s.(lastUsed := s.lastUsed[c := now]))
  }

  /**
   * `freeConnection`: the connection goes to the tail of the queue, last used at
   * `now`, when the queue holds fewer than `maxSize`; otherwise it is closed and
   * the state does not change. The flag says whether the connection was kept.
   */
  function Release(s: PoolState, c: Conn, now: int, maxSize: int): (r: (bool, PoolState))
    ensures r.0 <==> |s.idle| < maxSize
    ensures r.0 ==> r.1.idle == s.idle + [c] && r.1.lastUsed == s.lastUsed[c := now]
    ensures !r.0 ==> r.1 == s
    ensures s.lastUsed.Keys <= r.1.lastUsed.Keys
    ensures WellFormed(s, maxSize) ==> WellFormed(r.1, maxSize)
  {
    if |s.idle| < maxSize then (true, PoolState(s.idle + [c], s.lastUsed[c := now])) else (false, s)
  }

  /** Releasing `cs` one after the other: the final state and the connections that were closed. */
  function ReleaseAll(s: PoolState, cs: seq<Conn>, now: int, maxSize: int): (PoolState, seq<Conn>)
    decreases |cs|
  {
    if cs == [] then (s, [])
    else
      var (kept, s') := Release(s, cs[0], now, maxSize);
      var (final, closed) := ReleaseAll(s', cs[1..], now, maxSize);
      (final, if kept then closed else [cs[0]] + closed)
  }

  /**
   * Releasing connections with no acquire in between fills the queue up to the
   * maximum, in release order, and closes every connection after that.
   */
  lemma {:induction false} ReleaseAllFills(s: PoolState, cs: seq<Conn>, now: int, maxSize: int)
    requires |s.idle| <= maxSize
    ensures var room := maxSize - |s.idle|;
      var k := if |cs| < room then |cs| else room;
      && ReleaseAll(s, cs, now, maxSize).0.idle == s.idle + cs[..k]
      && ReleaseAll(s, cs, now, maxSize).1 == cs[k..]
    decreases |cs|
  {
    if cs != [] {
      var step := Release(s, cs[0], now, maxSize);
      var rest := ReleaseAll(step.1, cs[1..], now, maxSize);
      assert ReleaseAll(s, cs, now, maxSize) == (rest.0, if step.0 then rest.1 else [cs[0]] + rest.1);
      ReleaseAllFills(step.1, cs[1..], now, maxSize);
      var room := maxSize - |s.idle|;
      if step.0 {
        FillStep(s.idle, cs, if |cs| < room then |cs| else room);
      } else {
        assert room <= 0 && step.1 == s;
        assert [cs[0]] + cs[1..] == cs;
      }
    }
  }

  /** Queueing the first of `cs` and then `k - 1` more is queueing `k` of them. */
  lemma FillStep(idle: seq<Conn>, cs: seq<Conn>, k: nat)
    requires 1 <= k <= |cs|
    ensures (idle + [cs[0]]) + cs[1..][..k - 1] == idle + cs[..k]
    ensures cs[1..][k - 1..] == cs[k..]
  {
    assert cs[..k] == [cs[0]] + cs[1..][..k - 1];
  }

  /** From an empty queue, releasing `maxSize + 1` connections keeps `maxSize` of them and closes the last. */
  lemma ReleaseOneTooMany(cs: seq<Conn>, lastUsed: map<Conn, int>, now: int, maxSize: nat)
    requires |cs| == maxSize + 1
    ensures ReleaseAll(PoolState([], lastUsed), cs, now, maxSize).0.idle == cs[..maxSize]
    ensures ReleaseAll(PoolState([], lastUsed), cs, now, maxSize).1 == [cs[maxSize]]
  {
    ReleaseAllFills(PoolState([], lastUsed), cs, now, maxSize);
    assert cs[maxSize..] == [cs[maxSize]];
  }

  // ---------------------------------------------------------------------------
  // subsequences

  /** `a` is `b` with some elements left out, the rest in their order. */
  predicate SubsequenceOf(a: seq<Conn>, b: seq<Conn>)
    decreases |b|
  {
    a == [] || (b != [] && ((a[0] == b[0] && SubsequenceOf(a[1..], b[1..])) || SubsequenceOf(a, b[1..])))
  }

  lemma {:induction false} SubsequenceReflexive(a: seq<Conn>)
    ensures SubsequenceOf(a, a)
  {
    if a != [] {
      SubsequenceReflexive(a[1..]);
    }
  }

  lemma {:induction false} SubsequenceTransitive(a: seq<Conn>, b: seq<Conn>, c: seq<Conn>)
    requires SubsequenceOf(a, b) && SubsequenceOf(b, c)
    ensures SubsequenceOf(a, c)
    decreases |c|
  {
    if a != [] {
      assert b != [] && c != [];
      if SubsequenceOf(b, c[1..]) {
        SubsequenceTransitive(a, b, c[1..]);
      } else if a[0] == b[0] && SubsequenceOf(a[1..], b[1..]) {
        SubsequenceTransitive(a[1..], b[1..], c[1..]);
      } else {
        SubsequenceTransitive(a, b[1..], c[1..]);
      }
    }
  }

  lemma {:induction false} SubsequenceMembers(a: seq<Conn>, b: seq<Conn>)
    requires SubsequenceOf(a, b)
    ensures multiset(a) <= multiset(b)
    ensures |a| <= |b|
    ensures forall c :: c in a ==> c in b
    decreases |b|
  {
    if a != [] {
      if a[0] == b[0] && SubsequenceOf(a[1..], b[1..]) {
        SubsequenceMembers(a[1..], b[1..]);
        assert a == [a[0]] + a[1..] && b == [b[0]] + b[1..];
      } else {
        SubsequenceMembers(a, b[1..]);
        assert b == [b[0]] + b[1..];
      }
    }
  }

  // ---------------------------------------------------------------------------
  // liveness sweep

  /** The idle connections that answer the probe, in queue order. */
  function Probed(q: seq<Conn>, probe: Conn -> bool): seq<Conn> {
    if q == [] then []
    else (if probe(q[0]) then [q[0]] else []) + Probed(q[1..], probe)
  }

  lemma {:induction false} ProbedAppend(q: seq<Conn>, c: Conn, probe: Conn -> bool)
    ensures Probed(q + [c], probe) == Probed(q, probe) + (if probe(c) then [c] else [])
  {
    if q != [] {
      assert (q + [c])[1..] == q[1..] + [c];
      ProbedAppend(q[1..], c, probe);
    }
  }

  /** One round of the sweep's loop: the head of the partly swept queue is the next
      unswept connection, and moving it to the tail when it passes sweeps it. */
  lemma ProbeStep(q: seq<Conn>, i: nat, probe: Conn -> bool)
    requires i < |q|
    ensures var idle := q[i..] + Probed(q[..i], probe);
      && idle != [] && idle[0] == q[i]
      && idle[1..] + (if probe(q[i]) then [q[i]] else []) == q[i + 1..] + Probed(q[..i + 1], probe)
  {
    ProbedAppend(q[..i], q[i], probe);
    assert q[..i + 1] == q[..i] + [q[i]];
    var done := Probed(q[..i], probe);
    assert q[i..] == [q[i]] + q[i + 1..];
    assert (q[i..] + done)[1..] == q[i + 1..] + done by {
      assert q[i..] + done == [q[i]] + (q[i + 1..] + done);
    }
  }

  /** The liveness sweep keeps the connections it keeps in their queue order. */
  lemma {:induction false} ProbedSubsequence(q: seq<Conn>, probe: Conn -> bool)
    ensures SubsequenceOf(Probed(q, probe), q)
  {
    if q != [] {
      var rest := Probed(q[1..], probe);
      ProbedSubsequence(q[1..], probe);
      if probe(q[0]) {
        assert Probed(q, probe)[0] == q[0] && Probed(q, probe)[1..] == rest;
      } else {
        assert Probed(q, probe) == rest;
      }
    }
  }

  /**
   * The liveness sweep keeps every occurrence of a connection that answers the
   * probe and none of one that does not.
   */
  lemma {:induction false} ProbedCounts(q: seq<Conn>, probe: Conn -> bool)
    ensures forall c :: multiset(Probed(q, probe))[c] == if probe(c) then multiset(q)[c] else 0
  {
    if q != [] {
      ProbedCounts(q[1..], probe);
      assert q == [q[0]] + q[1..];
    }
  }

  lemma ProbedWellFormed(s: PoolState, probe: Conn -> bool, maxSize: int)
    requires WellFormed(s, maxSize)
    ensures WellFormed(PoolState(Probed(s.idle, probe), s.lastUsed), maxSize)
  {
    ProbedSubsequence(s.idle, probe);
    SubsequenceMembers(Probed(s.idle, probe), s.idle);
  }

  // ---------------------------------------------------------------------------
  // idle-eviction sweep

  /** What the eviction sweep of one pool reads: the last-used map, the clock and the limits. */
  datatype Eviction = Eviction(lastUsed: map<Conn, int>, now: int, maxIdleTime: int, minSize: int) {
    /** Idle for longer than the maximum idle time. */
    predicate Stale(c: Conn) {
      c in lastUsed && now - lastUsed[c] > maxIdleTime
    }
  }

  /** The queue without its first occurrence of `c` (`Queue.remove`); unchanged when `c` is absent. */
  function RemoveFirst(q: seq<Conn>, c: Conn): (r: seq<Conn>)
    ensures |r| == if c in q then |q| - 1 else |q|
    ensures multiset(r) == multiset(q) - multiset{c}
    ensures c !in q ==> r == q
  {
    if q == [] then []
    else if q[0] == c then (assert q == [q[0]] + q[1..]; q[1..])
    else (assert q == [q[0]] + q[1..]; [q[0]] + RemoveFirst(q[1..], c))
  }

  /** It is the first occurrence that goes, and the others keep their order. */
  lemma {:induction false} RemoveFirstAt(q: seq<Conn>, c: Conn, k: nat)
    requires k < |q| && q[k] == c && c !in q[..k]
    ensures RemoveFirst(q, c) == q[..k] + q[k + 1..]
  {
    if k > 0 {
      assert q[0] in q[..k];
      var t := q[1..];
      assert t[..k - 1] == q[1..k];
      assert c !in t[..k - 1];
      RemoveFirstAt(t, c, k - 1);
      GapAfterHead(q, k - 1);
    }
  }

  lemma GapAfterHead(q: seq<Conn>, k: nat)
    requires k + 1 < |q|
    ensures [q[0]] + (q[1..][..k] + q[1..][k + 1..]) == q[..k + 1] + q[k + 2..]
  {
    assert q[..k + 1] == [q[0]] + q[1..][..k];
    assert q[k + 2..] == q[1..][k + 1..];
  }

  lemma {:induction false} RemoveFirstSubsequence(q: seq<Conn>, c: Conn)
    ensures SubsequenceOf(RemoveFirst(q, c), q)
  {
    if q != [] {
      if q[0] == c {
        SubsequenceReflexive(q[1..]);
        SubsequenceOfTail(q[1..], q);
      } else {
        RemoveFirstSubsequence(q[1..], c);
      }
    }
  }

  lemma SubsequenceOfTail(a: seq<Conn>, q: seq<Conn>)
    requires q != [] && SubsequenceOf(a, q[1..])
    ensures SubsequenceOf(a, q)
  {
  }

  /** One entry of the sweep: remove `c` if it is stale and the queue is above the minimum. */
  function EvictStep(q: seq<Conn>, c: Conn, e: Eviction): seq<Conn> {
    if e.Stale(c) && |q| > e.minSize then RemoveFirst(q, c) else q
  }

  /** The sweep over the map's entries in iteration order `order`. */
  function Evicted(q: seq<Conn>, order: seq<Conn>, e: Eviction): seq<Conn>
    decreases |order|
  {
    if order == [] then q else Evicted(EvictStep(q, order[0], e), order[1..], e)
  }

  /**
   * Eviction only removes: the result is a subsequence of the queue, and a
   * connection keeps every occurrence unless it is stale and visited.
   */
  lemma {:induction false} EvictedOnlyRemovesStale(q: seq<Conn>, order: seq<Conn>, e: Eviction)
    ensures SubsequenceOf(Evicted(q, order, e), q)
    ensures forall c :: c !in order || !e.Stale(c) ==> multiset(Evicted(q, order, e))[c] == multiset(q)[c]
    decreases |order|
  {
    if order == [] {
      SubsequenceReflexive(q);
    } else {
      var q' := EvictStep(q, order[0], e);
      var r := Evicted(q', order[1..], e);
      assert Evicted(q, order, e) == r;
      EvictedOnlyRemovesStale(q', order[1..], e);
      if q' != q {
        assert q' == RemoveFirst(q, order[0]) && e.Stale(order[0]);
        RemoveFirstSubsequence(q, order[0]);
        SubsequenceTransitive(r, q', q);
        forall c | c !in order || !e.Stale(c) ensures multiset(r)[c] == multiset(q)[c] {
          assert c != order[0] && (c !in order[1..] || !e.Stale(c));
        }
      }
    }
  }

  /** Eviction never takes the queue below the smaller of its size and the minimum. */
  lemma {:induction false} EvictedLowerBound(q: seq<Conn>, order: seq<Conn>, e: Eviction)
    ensures |Evicted(q, order, e)| >= if |q| < e.minSize then |q| else e.minSize
    decreases |order|
  {
    if order != [] {
      EvictedLowerBound(EvictStep(q, order[0], e), order[1..], e);
    }
  }

  /** A queue at or below the minimum is left as it is, however old its connections. */
  lemma {:induction false} EvictedAtMinimum(q: seq<Conn>, order: seq<Conn>, e: Eviction)
    requires |q| <= e.minSize
    ensures Evicted(q, order, e) == q
    decreases |order|
  {
    if order != [] {
      EvictedAtMinimum(q, order[1..], e);
    }
  }

  predicate Distinct(q: seq<Conn>) {
    forall i, j :: 0 <= i < j < |q| ==> q[i] != q[j]
  }

  lemma {:induction false} DistinctTail(q: seq<Conn>)
    requires q != [] && Distinct(q)
    ensures Distinct(q[1..]) && q[0] !in q[1..]
  {
    forall k | 0 <= k < |q| - 1 ensures q[1..][k] != q[0] {
      assert q[1..][k] == q[k + 1];
    }
  }

  /** Each connection is removed at most once per sweep. */
  lemma {:induction false} EvictedAtMostOnce(q: seq<Conn>, order: seq<Conn>, e: Eviction, c: Conn)
    requires Distinct(order)
    ensures multiset(q)[c] <= multiset(Evicted(q, order, e))[c] + 1
    decreases |order|
  {
    if order != [] {
      DistinctTail(order);
      var q' := EvictStep(q, order[0], e);
      EvictedOnlyRemovesStale(q', order[1..], e);
      if order[0] != c {
        EvictedAtMostOnce(q', order[1..], e, c);
      }
    }
  }

  /** How many connections of `q` are stale and appear in `order`. */
  function StaleIn(q: seq<Conn>, order: seq<Conn>, e: Eviction): nat {
    if q == [] then 0 else (if q[0] in order && e.Stale(q[0]) then 1 else 0) + StaleIn(q[1..], order, e)
  }

  /** Taking `c` out of the order only changes the count by `c`'s own occurrence. */
  lemma {:induction false} StaleInDrop(q: seq<Conn>, c: Conn, rest: seq<Conn>, e: Eviction)
    requires Distinct(q) && c !in rest
    ensures StaleIn(q, [c] + rest, e) == StaleIn(q, rest, e) + (if c in q && e.Stale(c) then 1 else 0)
  {
    if q != [] {
      DistinctTail(q);
      StaleInDrop(q[1..], c, rest, e);
      assert q == [q[0]] + q[1..];
      if q[0] == c {
        assert c !in q[1..];
      }
    }
  }

  /** Removing a connection that is not in the order does not change the count. */
  lemma {:induction false} StaleInRemove(q: seq<Conn>, c: Conn, order: seq<Conn>, e: Eviction)
    requires c !in order
    ensures StaleIn(RemoveFirst(q, c), order, e) == StaleIn(q, order, e)
  {
    if q != [] && q[0] != c {
      StaleInRemove(q[1..], c, order, e);
    }
  }

  lemma DistinctCons(x: Conn, r: seq<Conn>)
    requires Distinct(r) && x !in r
    ensures Distinct([x] + r)
  {
    var r' := [x] + r;
    forall i, j | 0 <= i < j < |r'|
      ensures r'[i] != r'[j]
    {
      assert r'[j] == r[j - 1];
      if i > 0 {
        assert r'[i] == r[i - 1];
      }
    }
  }

  lemma {:induction false} RemoveFirstDistinct(q: seq<Conn>, c: Conn)
    requires Distinct(q)
    ensures Distinct(RemoveFirst(q, c)) && c !in RemoveFirst(q, c)
  {
    if q != [] {
      DistinctTail(q);
      if q[0] != c {
        var t := q[1..];
        RemoveFirstDistinct(t, c);
        var r := RemoveFirst(t, c);
        assert multiset(r)[q[0]] == 0 by {
          assert multiset(t)[q[0]] == 0;
        }
        DistinctCons(q[0], r);
      }
    }
  }

  /**
   * When there is room to drop every stale connection without going below the
   * minimum, the sweep leaves no stale connection that it visited in the queue.
   */
  lemma {:induction false} EvictedRemovesAllStale(q: seq<Conn>, order: seq<Conn>, e: Eviction)
    requires Distinct(q) && Distinct(order)
    requires StaleIn(q, order, e) <= |q| - e.minSize
    ensures forall c :: c in Evicted(q, order, e) && c in order ==> !e.Stale(c)
    decreases |order|
  {
    if order != [] {
      var c, rest := order[0], order[1..];
      assert order == [c] + rest;
      DistinctTail(order);
      StaleInDrop(q, c, rest, e);
      var q' := EvictStep(q, c, e);
      if e.Stale(c) && c in q {
        assert StaleIn(q, order, e) >= 1;
        StaleInRemove(q, c, rest, e);
        RemoveFirstDistinct(q, c);
      }
      assert StaleIn(q', rest, e) <= |q'| - e.minSize;
      assert Distinct(q') by {
        if q' != q { RemoveFirstDistinct(q, c); }
      }
      EvictedRemovesAllStale(q', rest, e);
      EvictedOnlyRemovesStale(q', rest, e);
      SubsequenceMembers(Evicted(q', rest, e), q');
      if e.Stale(c) {
        assert c !in q' by {
          if c in q { RemoveFirstDistinct(q, c); }
        }
        assert c !in Evicted(q', rest, e) by {
          assert multiset(Evicted(q', rest, e))[c] <= multiset(q')[c] == 0;
        }
      }
    }
  }

  lemma EvictedWellFormed(s: PoolState, order: seq<Conn>, e: Eviction, maxSize: int)
    requires WellFormed(s, maxSize)
    ensures WellFormed(PoolState(Evicted(s.idle, order, e), s.lastUsed), maxSize)
  {
    EvictedOnlyRemovesStale(s.idle, order, e);
    SubsequenceMembers(Evicted(s.idle, order, e), s.idle);
  }
}
