/**
 * The connection pool object: an idle queue and a last-used map that its methods
 * update in place, and the three limits read from the settings. Each method is
 * proved equal to a step function of `PoolSpec`, and keeps the pool's invariant
 * (the queue stays within the maximum and every idle connection has a time).
 *
 * The driver, the probe query and the clock are parameters: `connect` is
 * `driver.connect(url, settings)` (`None` when it throws), `probe` says whether a
 * connection answers `SELECT 1`, and `now` is `System.currentTimeMillis()`.
 */
module ConnectionPool {
  import opened Results
  import opened PoolSettings
  import opened PoolSpec

  class DataSourcePool {
    const settings: DriverSettings
    const maxSize: int
    const minSize: int
    const maxIdleTime: int
    /** The idle queue (`connections`). */
    var idle: seq<Conn>
    /** Last-used time of every connection the pool has opened or taken back (`connectionPool`). */
    var lastUsed: map<Conn, int>

    function State(): PoolState
      reads this
    {
      PoolState(idle, lastUsed)
    }

    ghost predicate Valid()
      reads this
    {
      WellFormed(State(), maxSize)
    }

    /** The constructor once `Configure` has accepted the settings: nothing is pooled yet. */
    constructor (config: PoolConfig)
      ensures settings == config.driver && maxSize == config.maxSize
      ensures minSize == config.minSize && maxIdleTime == config.maxIdleTime
      ensures State() == PoolState([], map[]) && Valid()
    {
      settings := config.driver;
      maxSize := config.maxSize;
      minSize := config.minSize;
      maxIdleTime := config.maxIdleTime;
      idle := [];
      lastUsed := map[];
    }

    /** `getConnection`: `None` stands for the `MysqlConnectionException`. */
    method GetConnection(connect: string -> Option<Conn>, now: int) returns (r: Option<Conn>)
      requires Valid()
      modifies this
      ensures Valid()
      ensures (r, State()) == Acquire(old(State()), connect(JdbcUrl(settings.host)), now)
    {
      if idle != [] {
        r := Some(idle[0]);
        idle := idle[1..];
      } else {
        var url := JdbcUrl(settings.host);
        r := connect(url);
        if r.Some? {
          lastUsed := lastUsed[r.value := now];
        }
      }
    }

    /** `freeConnection`: `kept` is false when the connection was closed instead. */
    method FreeConnection(c: Conn, now: int) returns (kept: bool)
      requires Valid()
      modifies this
      ensures Valid()
      ensures (kept, State()) == Release(old(State()), c, now, maxSize)
    {
      kept := |idle| < maxSize;
      if kept {
        idle := idle + [c];
        lastUsed := lastUsed[c := now];
      }
    }

    /**
     * The liveness sweep: takes exactly as many connections from the head as the
     * queue held when it started, and puts back at the tail those that answer the
     * probe. Connections that fail are dropped (not closed); their times stay.
     */
    method ProbeIdleConnections(probe: Conn -> bool)
      requires Valid()
      modifies this
      ensures Valid()
      ensures idle == Probed(old(idle), probe) && lastUsed == old(lastUsed)
    {
      var total := |idle|;
      var i := 0;
      while i < total
        invariant 0 <= i <= total == |old(idle)|
        invariant idle == old(idle)[i..] + Probed(old(idle)[..i], probe)
        invariant lastUsed == old(lastUsed)
      {
        ProbeStep(old(idle), i, probe);
        var c := idle[0];
        idle := idle[1..];
        if probe(c) {
          idle := idle + [c];
        }
        i := i + 1;
      }
      assert old(idle)[..total] == old(idle) && old(idle)[total..] == [];
      ProbedWellFormed(old(State()), probe, maxSize);
    }

    /**
     * The idle-eviction sweep for this pool. `order` is the iteration order of the
     * last-used map: every connection it holds, each once, idle or handed out. A stale
     * connection is taken out of the queue only while the queue is above the
     * minimum; nothing is closed and the map is left as it is.
     */
    method EvictIdleConnections(now: int, order: seq<Conn>)
      requires Valid()
      requires forall c :: c in order <==> c in lastUsed
      requires Distinct(order)
      modifies this
      ensures Valid()
      ensures idle == Evicted(old(idle), order, Eviction(lastUsed, now, maxIdleTime, minSize))
      ensures lastUsed == old(lastUsed)
    {
      ghost var e := Eviction(lastUsed, now, maxIdleTime, minSize);
      for i := 0 to |order|
        invariant lastUsed == old(lastUsed)
        invariant Evicted(idle, order[i..], e) == Evicted(old(idle), order, e)
      {
        var c := order[i];
        var idleTime := now - lastUsed[c];
        if idleTime > maxIdleTime && |idle| > minSize {
          idle := RemoveFirst(idle, c);
        }
        assert order[i..][1..] == order[i + 1..];
      }
      EvictedWellFormed(old(State()), order, e, maxSize);
    }
  }

  /** The idle queues of the registered pools, one after the other. */
  function AllIdle(pools: seq<DataSourcePool>): seq<Conn>
    reads pools
  {
    if pools == [] then [] else AllIdle(pools[..|pools| - 1]) + pools[|pools| - 1].idle
  }

  /**
   * `closeAllConnections`: closes every idle connection of every registered pool,
   * pool by pool and queue order within a pool, and returns them in that order.
   * The queues are not emptied: the closed connections stay in them.
   */
  method CloseAllConnections(pools: seq<DataSourcePool>) returns (closed: seq<Conn>)
    ensures closed == AllIdle(pools)
  {
    closed := [];
    for i := 0 to |pools|
      invariant closed == AllIdle(pools[..i])
    {
      var pool := pools[i];
      for j := 0 to |pool.idle|
        invariant closed == AllIdle(pools[..i]) + pool.idle[..j]
      {
        closed := closed + [pool.idle[j]];
      }
      assert pools[..i + 1][..i] == pools[..i];
      assert pool.idle[..|pool.idle|] == pool.idle;
    }
    assert pools[..|pools|] == pools;
  }

  /** Every idle connection of every registered pool is closed. */
  lemma {:induction false} AllIdleCoversEveryPool(pools: seq<DataSourcePool>, i: int, c: Conn)
    requires 0 <= i < |pools| && c in pools[i].idle
    ensures c in AllIdle(pools)
  {
    if i < |pools| - 1 {
      AllIdleCoversEveryPool(pools[..|pools| - 1], i, c);
    }
  }
}
