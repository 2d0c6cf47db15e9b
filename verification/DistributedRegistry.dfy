/** The Redis-backed query registry. Every node keeps the records of the queries it
    runs, mirrors them to Redis, and receives cancel commands from the other nodes.
    The functions give one atomic step of one node; the class does the same steps on
    objects; the `System` machine interleaves the steps of all nodes. */
module DistributedRegistry {
  import opened Prelude
  import opened QueryRegistry

  type NodeId = string

  const MAX_ROWS_FOR_REDIS := 10000
  const CANCEL_MESSAGE := "查询已被用户取消"

  /** The record a node publishes: no result, no cancel function, times in seconds,
      0 for a query that has not started. */
  datatype RedisState = RedisState(
    queryId: QueryId, datasourceId: int, database: string, sql: string, userId: int,
    status: QueryStatus, error: string, executionTime: real, fromCache: bool,
    nodeId: NodeId, createdAt: nat, startTime: nat)

  datatype Store = Store(states: map<QueryId, RedisState>, results: map<QueryId, QueryResult>)

  /** What one node can see and change: its own records and Redis. */
  datatype NodeState = NodeState(local: Registry, store: Store)

  function UnixSeconds(t: nat): nat {
    t / SECOND
  }

  function ToRedis(q: Query, node: NodeId): RedisState {
    RedisState(q.queryId, q.datasourceId, q.database, q.sql, q.userId, q.status, q.error,
               q.executionTime, q.fromCache, node, UnixSeconds(q.createdAt),
               if q.startTime.Some? then UnixSeconds(q.startTime.value) else 0)
  }

  /** The record `Get` rebuilds from Redis on a node that does not run the query. */
  function FromRedis(s: RedisState, result: Option<QueryResult>): Query {
    Query(s.queryId, s.datasourceId, s.database, s.sql, s.userId, s.status, result, s.error,
          s.executionTime, if s.startTime > 0 then Some(s.startTime * SECOND) else None,
          s.fromCache, NoFunc, s.createdAt * SECOND)
  }

  /** The drivers report as many rows as they return. */
  predicate Countable(r: Option<QueryResult>) {
    r.Some? ==> r.value.rowCount == |r.value.rows|
  }

  /** The copy of a result that fits in Redis: at most 10000 rows, the true row count. */
  function Cut(r: QueryResult): (c: QueryResult)
    requires r.rowCount == |r.rows|
    ensures c.columns == r.columns && c.rowCount == r.rowCount
    ensures c.rows <= r.rows && |c.rows| == if |r.rows| > 10000 then 10000 else |r.rows|
  {
    if r.rowCount > MAX_ROWS_FOR_REDIS
    then QueryResult(r.columns, r.rows[..MAX_ROWS_FOR_REDIS], r.rowCount)
    else r
  }

  function SaveState(s: Store, state: RedisState): Store {
    s.(states := s.states[state.queryId := state])
  }

  function SaveResult(s: Store, id: QueryId, r: Option<QueryResult>): Store
    requires Countable(r)
  {
    if r.Some? then s.(results := s.results[id := Cut(r.value)]) else s
  }

  /** What another node reads back from the record a node publishes: everything but the
      result and the cancel function, with times cut to whole seconds, and none for a start
      within the first second of 1970. */
  lemma RedisRoundTrip(q: Query, node: NodeId, result: Option<QueryResult>)
    ensures ToRedis(q, node).nodeId == node
    ensures FromRedis(ToRedis(q, node), result) ==
      q.(result := result, cancelFunc := NoFunc,
         createdAt := q.createdAt - q.createdAt % 1_000_000_000,
         startTime := if q.startTime.Some? && q.startTime.value >= 1_000_000_000
                      then Some(q.startTime.value - q.startTime.value % 1_000_000_000) else None)
  {
  }

  // ---------------------------------------------------------------- steps of one node

  /** `Register` publishes only the descriptive fields and the status. */
  function Announced(q: Query, node: NodeId): RedisState {
    RedisState(q.queryId, q.datasourceId, q.database, q.sql, q.userId, q.status, "", 0.0,
               false, node, UnixSeconds(q.createdAt), 0)
  }

  function NodeRegister(node: NodeId, n: NodeState, q: Query, now: nat): NodeState {
    NodeState(Registered(n.local, q, now), SaveState(n.store, Announced(q.(createdAt := now), node)))
  }

  function NodeUpdateResult(node: NodeId, n: NodeState, id: QueryId, r: Option<QueryResult>, t: real): NodeState
    requires Countable(r)
  {
    var local := WithResult(n.local, id, r, t);
    if id in n.local
    then NodeState(local, SaveResult(SaveState(n.store, ToRedis(local[id], node)), id, r))
    else n
  }

  function NodeUpdateError(node: NodeId, n: NodeState, id: QueryId, msg: string, t: real): NodeState {
    var local := WithError(n.local, id, msg, t);
    if id in n.local then NodeState(local, SaveState(n.store, ToRedis(local[id], node))) else n
  }

  function NodeSetRunning(node: NodeId, n: NodeState, id: QueryId, now: nat): NodeState {
    var local := WithRunning(n.local, id, now);
    if id in n.local then NodeState(local, SaveState(n.store, ToRedis(local[id], node))) else n
  }

  function NodeCancel(node: NodeId, n: NodeState, id: QueryId): NodeState {
    if CancelAnswer(n.local, id)
    then
      var local := WithCancel(n.local, id);
      NodeState(local, SaveState(n.store, ToRedis(local[id], node)))
    else n
  }

  /** Does `Cancel` forward the request to the node that runs the query? */
  predicate Forwards(node: NodeId, n: NodeState, id: QueryId) {
    && !CancelAnswer(n.local, id)
    && id in n.store.states
    && !n.store.states[id].status.Final()
    && n.store.states[id].nodeId != ""
    && n.store.states[id].nodeId != node
  }

  /** A cancel command arriving at `node`; unlike a local cancel it also sets the error text. */
  function NodeHandleCancel(node: NodeId, n: NodeState, id: QueryId): NodeState {
    if CancelAnswer(n.local, id)
    then
      var q := CancelQuery(n.local[id]).(error := CANCEL_MESSAGE);
      NodeState(n.local[id := q], SaveState(n.store, ToRedis(q, node)))
    else n
  }

  function NodeCleanup(n: NodeState, maxAge: int, now: nat): NodeState {
    var local := Cleaned(n.local, n.local.Keys, maxAge, now);
    var gone := n.local.Keys - local.Keys;
    NodeState(local, Store(n.store.states - gone, n.store.results - gone))
  }

  function NodeGet(n: NodeState, id: QueryId): Option<Query> {
    if id in n.local then Some(n.local[id])
    else if id !in n.store.states then None
    else
      var s := n.store.states[id];
      Some(FromRedis(s, if s.status.Completed? && id in n.store.results
                        then Some(n.store.results[id]) else None))
  }

  // ---------------------------------------------------------------- the class

  class Redis {
    var states: map<QueryId, RedisState>
    var results: map<QueryId, QueryResult>
    var cancels: seq<QueryId>  // cancel commands published so far

    constructor ()
      ensures View() == Store(map[], map[]) && cancels == []
    {
      states, results, cancels := map[], map[], [];
    }

    function View(): Store
      reads this
    {
      Store(states, results)
    }
  }

  lemma ValuesMinus(all: Table, gone: set<QueryId>)
    ensures Values(all - gone) == Values(all) - gone
  {
  }

  /** The expired records among those a cleanup has seen. */
  ghost predicate GoneBy(m: Registry, seen: set<QueryId>, gone: set<QueryId>, maxAge: int, now: nat) {
    forall id :: id in gone <==> id in seen && id in m && Expired(m[id], maxAge, now)
  }

  lemma GoneAreOverdue(m: Registry, gone: set<QueryId>, maxAge: int, now: nat)
    requires GoneBy(m, m.Keys, gone, maxAge, now)
    ensures gone == set id | id in m && m[id].status in {Completed, Failed, Cancelled} && m[id].createdAt + maxAge < now
  {
  }

  /** Dropping exactly the expired keys from all three maps is a cleanup. */
  lemma CleanedBy(n: NodeState, gone: set<QueryId>, maxAge: int, now: nat)
    requires GoneBy(n.local, n.local.Keys, gone, maxAge, now)
    ensures NodeCleanup(n, maxAge, now) ==
            NodeState(n.local - gone, Store(n.store.states - gone, n.store.results - gone))
  {
    var local := Cleaned(n.local, n.local.Keys, maxAge, now);
    assert local == n.local - gone;
    assert n.local.Keys - local.Keys == gone;
  }

  class DistributedQueryRegistry {
    const redis: Redis
    const nodeId: NodeId
    var localQueries: Table

    constructor (redis: Redis, nodeId: NodeId)
      ensures Valid() && View() == NodeState(map[], redis.View())
      ensures this.redis == redis && this.nodeId == nodeId
    {
      this.redis, this.nodeId := redis, nodeId;
      localQueries := map[];
    }

    ghost predicate Valid()
      reads this
    {
      Filed(localQueries)
    }

    ghost function View(): NodeState
      reads this, localQueries.Values, redis
    {
      NodeState(Values(localQueries), redis.View())
    }

    /** `localToRedisState` followed by `saveToRedis`. */
    method SaveLocal(q: RunningQuery)
      modifies redis`states
      ensures redis.View() == SaveState(old(redis.View()), ToRedis(q.Value(), nodeId))
    {
      redis.states := redis.states[q.queryId := ToRedis(q.Value(), nodeId)];
    }

    method SaveResultToRedis(id: QueryId, result: Option<QueryResult>)
      requires Countable(result)
      modifies redis`results
      ensures redis.View() == SaveResult(old(redis.View()), id, result)
    {
      if result.None? {
        return;
      }
      var toSave := result.value;
      if toSave.rowCount > MAX_ROWS_FOR_REDIS {
        toSave := QueryResult(toSave.columns, toSave.rows[..MAX_ROWS_FOR_REDIS], toSave.rowCount);
      }
      redis.results := redis.results[id := toSave];
    }

    method Register(query: RunningQuery, now: nat)
      requires Valid()
      modifies this, query, redis`states
      ensures Valid()
      ensures View() == NodeRegister(nodeId, old(View()), old(query.Value()), now)
    {
      ghost var n, q := View(), query.Value().(createdAt := now);
      query.createdAt := now;
      localQueries := localQueries[query.queryId := query];
      assert query.Value() == q;
      assert Values(localQueries) == n.local[q.queryId := q];
      var state := RedisState(query.queryId, query.datasourceId, query.database, query.sql, query.userId,
                              query.status, "", 0.0, false, nodeId, UnixSeconds(query.createdAt), 0);
      redis.states := redis.states[query.queryId := state];
      assert View() == NodeState(n.local[q.queryId := q], SaveState(n.store, Announced(q, nodeId)));
    }

    method Get(id: QueryId) returns (q: Option<Query>)
      requires Valid()
      ensures q == NodeGet(View(), id)
    {
      if id in localQueries {
        return Some(localQueries[id].Value());
      }
      if id !in redis.states {
        return None;
      }
      var state := redis.states[id];
      var result := None;
      if state.status == Completed && id in redis.results {
        result := Some(redis.results[id]);
      }
      return Some(FromRedis(state, result));
    }

    method UpdateResult(id: QueryId, result: Option<QueryResult>, execTime: real)
      requires Valid() && Countable(result)
      modifies localQueries.Values, redis`states, redis`results
      ensures Valid()
      ensures View() == NodeUpdateResult(nodeId, old(View()), id, result, execTime)
      ensures var n := old(View());
        if id !in n.local then View() == n
        else
          var q := n.local[id].(status := Completed, result := result, executionTime := execTime);
          && View().local == n.local[id := q]
          && View().store.states == n.store.states[id := ToRedis(q, nodeId)]
          && View().store.results == if result.None? then n.store.results else n.store.results[id := Cut(result.value)]
    {
      ghost var n := View();
      if id in localQueries {
        var q := localQueries[id];
        q.status := Completed;
        q.result := result;
        q.executionTime := execTime;
        ghost var v := Complete(n.local[id], result, execTime);
        assert q.Value() == v;
        assert Values(localQueries) == n.local[id := v];
        SaveLocal(q);
        assert View() == NodeState(n.local[id := v], SaveState(n.store, ToRedis(v, nodeId)));
        SaveResultToRedis(id, result);
      }
    }

    method UpdateError(id: QueryId, msg: string, execTime: real)
      requires Valid()
      modifies localQueries.Values, redis`states
      ensures Valid()
      ensures View() == NodeUpdateError(nodeId, old(View()), id, msg, execTime)
      ensures id in old(View()).local ==>
        View().local[id] == old(View()).local[id].(status := Failed, error := msg, executionTime := execTime)
    {
      ghost var n := View();
      if id in localQueries {
        var q := localQueries[id];
        q.status := Failed;
        q.error := msg;
        q.executionTime := execTime;
        ghost var v := Fail(n.local[id], msg, execTime);
        assert q.Value() == v;
        assert Values(localQueries) == n.local[id := v];
        SaveLocal(q);
        assert View() == NodeState(n.local[id := v], SaveState(n.store, ToRedis(v, nodeId)));
      }
    }

    method SetRunning(id: QueryId, now: nat)
      requires Valid()
      modifies localQueries.Values, redis`states
      ensures Valid()
      ensures View() == NodeSetRunning(nodeId, old(View()), id, now)
      ensures id in old(View()).local ==>
        View().local[id] == old(View()).local[id].(status := Running, startTime := Some(now))
    {
      ghost var n := View();
      if id in localQueries {
        var q := localQueries[id];
        q.status := Running;
        q.startTime := Some(now);
        ghost var v := Run(n.local[id], now);
        assert q.Value() == v;
        assert Values(localQueries) == n.local[id := v];
        SaveLocal(q);
        assert View() == NodeState(n.local[id := v], SaveState(n.store, ToRedis(v, nodeId)));
      }
    }

    method Cancel(id: QueryId) returns (accepted: bool)
      requires Valid()
      modifies localQueries.Values, redis`states, redis`cancels
      ensures Valid()
      ensures View() == NodeCancel(nodeId, old(View()), id)
      ensures accepted <==> CancelAnswer(old(View()).local, id) || Forwards(nodeId, old(View()), id)
      ensures CancelAnswer(old(View()).local, id) <==>
        id in old(View()).local && old(View()).local[id].status in {Pending, Running}
      ensures var n := old(View());
        if id in n.local && n.local[id].status in {Pending, Running}
        then View().local == n.local[id := n.local[id].(status := Cancelled,
               cancelFunc := if n.local[id].cancelFunc == NoFunc then NoFunc else Fired)]
        else View() == n
      ensures redis.cancels == old(redis.cancels) + if Forwards(nodeId, old(View()), id) then [id] else []
    {
      ghost var n := View();
      if id in localQueries {
        var q := localQueries[id];
        if q.status == Pending || q.status == Running {
          q.status := Cancelled;
          q.cancelFunc := q.cancelFunc.Call();
          ghost var v := CancelQuery(n.local[id]);
          assert q.Value() == v;
          assert Values(localQueries) == n.local[id := v];
          SaveLocal(q);
          assert View() == NodeState(n.local[id := v], SaveState(n.store, ToRedis(v, nodeId)));
          return true;
        }
        assert !CancelAnswer(n.local, id);
      }
      accepted := RequestCancel(id);
    }

    /** The part of `Cancel` for queries that are not cancellable on this node. */
    method RequestCancel(id: QueryId) returns (accepted: bool)
      requires Valid() && !CancelAnswer(View().local, id)
      modifies redis`cancels
      ensures accepted <==> Forwards(nodeId, old(View()), id)
      ensures redis.cancels == old(redis.cancels) + if accepted then [id] else []
    {
      if id !in redis.states {
        return false;
      }
      var state := redis.states[id];
      if state.status == Completed || state.status == Failed || state.status == Cancelled {
        return false;
      }
      if state.nodeId != "" && state.nodeId != nodeId {
        redis.cancels := redis.cancels + [id];
        return true;
      }
      return false;
    }

    /** The three assignments of `HandleCancelCommand`. */
    method MarkCancelled(q: RunningQuery, message: string)
      requires q.status.Cancellable()
      modifies q
      ensures q.Value() == CancelQuery(old(q.Value())).(error := message)
    {
      q.status := Cancelled;
      q.error := message;
      q.cancelFunc := q.cancelFunc.Call();
    }

    method HandleCancelCommand(id: QueryId)
      requires Valid()
      modifies localQueries.Values, redis`states
      ensures Valid()
      ensures View() == NodeHandleCancel(nodeId, old(View()), id)
      ensures var n := old(View());
        if id in n.local && n.local[id].status in {Pending, Running}
        then View().local == n.local[id := n.local[id].(status := Cancelled, error := "查询已被用户取消",
               cancelFunc := if n.local[id].cancelFunc == NoFunc then NoFunc else Fired)]
        else View() == n
    {
      ghost var n := View();
      if id !in localQueries {
        return;
      }
      var q := localQueries[id];
      if q.status == Pending || q.status == Running {
        ghost var v := CancelQuery(n.local[id]).(error := CANCEL_MESSAGE);
        MarkCancelled(q, CANCEL_MESSAGE);
        assert Values(localQueries) == n.local[id := v];
        SaveLocal(q);
        assert View() == NodeState(n.local[id := v], SaveState(n.store, ToRedis(v, nodeId)));
      }
    }

    /** The body of the cleanup loop for one record. */
    method CleanRecord(id: QueryId, maxAge: int, now: nat, ghost n: NodeState, ghost all: Table,
                       ghost gone: set<QueryId>)
      returns (ghost gone': set<QueryId>)
      requires id in localQueries && id in n.local && localQueries[id].Value() == n.local[id]
      requires localQueries == all - gone
      requires redis.states == n.store.states - gone && redis.results == n.store.results - gone
      modifies this`localQueries, redis`states, redis`results
      ensures gone' == if Expired(n.local[id], maxAge, now) then gone + {id} else gone
      ensures localQueries == all - gone'
      ensures redis.states == n.store.states - gone' && redis.results == n.store.results - gone'
    {
      gone' := gone;
      var q := localQueries[id];
      if q.status == Completed || q.status == Failed || q.status == Cancelled {
        if now - q.createdAt > maxAge {
          localQueries := localQueries - {id};
          redis.states := redis.states - {id};
          redis.results := redis.results - {id};
          gone' := gone + {id};
        }
      }
    }

    method Cleanup(maxAge: int, now: nat)
      requires Valid()
      modifies this`localQueries, redis`states, redis`results
      ensures Valid()
      ensures View() == NodeCleanup(old(View()), maxAge, now)
      ensures var n := old(View());
        var gone := set id | id in n.local && n.local[id].status in {Completed, Failed, Cancelled}
                               && n.local[id].createdAt + maxAge < now;
        View() == NodeState(n.local - gone, Store(n.store.states - gone, n.store.results - gone))
    {
      var ids := localQueries.Keys;
      ghost var n, all, gone: set<QueryId> := View(), localQueries, {};
      while ids != {}
        invariant ids <= all.Keys && ids !! gone
        invariant localQueries == all - gone
        invariant redis.states == n.store.states - gone && redis.results == n.store.results - gone
        invariant GoneBy(n.local, all.Keys - ids, gone, maxAge, now)
        decreases ids
      {
        var id :| id in ids;
        ids := ids - {id};
        gone := CleanRecord(id, maxAge, now, n, all, gone);
      }
      CleanedBy(n, gone, maxAge, now);
      ValuesMinus(all, gone);
      assert View() == NodeState(n.local - gone, Store(n.store.states - gone, n.store.results - gone));
      GoneAreOverdue(n.local, gone, maxAge, now);
    }
  }
}
