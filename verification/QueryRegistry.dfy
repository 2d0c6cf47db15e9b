/** The in-memory query registry: one map from query ids to query records.
    The functions on `Registry` values are the specification; the class updates
    `RunningQuery` objects in place and is proved to follow them. */
module QueryRegistry {
  import opened Prelude

  type QueryId = string

  datatype QueryStatus = Pending | Running | Completed | Failed | Cancelled {
    predicate Final() {
      Completed? || Failed? || Cancelled?
    }

    predicate Cancellable() {
      Pending? || Running?
    }
  }

  datatype QueryResult = QueryResult(columns: seq<string>, rows: seq<seq<string>>, rowCount: int)

  /** A context's cancel function: absent, not yet called, or called. */
  datatype CancelFunc = NoFunc | Armed | Fired {
    function Call(): CancelFunc {
      if NoFunc? then NoFunc else Fired
    }
  }

  /** The value of a query record. Times are nanoseconds since the Unix epoch;
      `None` is Go's zero time. */
  datatype Query = Query(
    queryId: QueryId, datasourceId: int, database: string, sql: string, userId: int,
    status: QueryStatus, result: Option<QueryResult>, error: string, executionTime: real,
    startTime: Option<nat>, fromCache: bool, cancelFunc: CancelFunc, createdAt: nat)

  type Registry = map<QueryId, Query>

  function Registered(m: Registry, q: Query, now: nat): Registry {
    m[q.queryId := q.(createdAt := now)]
  }

  function Complete(q: Query, result: Option<QueryResult>, execTime: real): Query {
    q.(status := Completed, result := result, executionTime := execTime)
  }

  function Fail(q: Query, msg: string, execTime: real): Query {
    q.(status := Failed, error := msg, executionTime := execTime)
  }

  function Run(q: Query, now: nat): Query {
    q.(status := Running, startTime := Some(now))
  }

  function CancelQuery(q: Query): Query {
    if q.status.Cancellable()
    then q.(status := Cancelled, cancelFunc := q.cancelFunc.Call())
    else q
  }

  function WithResult(m: Registry, id: QueryId, result: Option<QueryResult>, execTime: real): Registry {
    if id in m then m[id := Complete(m[id], result, execTime)] else m
  }

  function WithError(m: Registry, id: QueryId, msg: string, execTime: real): Registry {
    if id in m then m[id := Fail(m[id], msg, execTime)] else m
  }

  function WithRunning(m: Registry, id: QueryId, now: nat): Registry {
    if id in m then m[id := Run(m[id], now)] else m
  }

  function WithCancel(m: Registry, id: QueryId): Registry {
    if id in m then m[id := CancelQuery(m[id])] else m
  }

  /** The answer of `Cancel`: was there something left to cancel? */
  predicate CancelAnswer(m: Registry, id: QueryId) {
    id in m && m[id].status.Cancellable()
  }

  predicate Expired(q: Query, maxAge: int, now: nat) {
    q.status.Final() && now - q.createdAt > maxAge
  }

  /** Cleanup of the records in `scope`; the in-memory registry uses all of its keys. */
  function Cleaned(m: Registry, scope: set<QueryId>, maxAge: int, now: nat): Registry {
    map id | id in m && !(id in scope && Expired(m[id], maxAge, now)) :: m[id]
  }

  /** Cleanup removes exactly the records in scope that are completed, failed or cancelled and
      were created more than the maximum age ago, and leaves the others as they are. */
  lemma CleanedExactly(m: Registry, scope: set<QueryId>, maxAge: int, now: nat)
    ensures var gone := set id | id in m && m[id].status in {Completed, Failed, Cancelled}
                               && m[id].createdAt + maxAge < now;
      Cleaned(m, scope, maxAge, now) == m - (gone * scope)
  {
  }

  class RunningQuery {
    const queryId: QueryId
    const datasourceId: int
    const database: string
    const sql: string
    const userId: int
    const fromCache: bool
    var status: QueryStatus
    var result: Option<QueryResult>
    var error: string
    var executionTime: real
    var startTime: Option<nat>
    var cancelFunc: CancelFunc
    var createdAt: nat

    constructor (queryId: QueryId, datasourceId: int, database: string, sql: string, userId: int,
                 cancelFunc: CancelFunc)
      ensures Value() == Query(queryId, datasourceId, database, sql, userId, Pending, None, "", 0.0, None,
          false, cancelFunc, 0)
    {
      this.queryId, this.datasourceId, this.database := queryId, datasourceId, database;
      this.sql, this.userId, this.fromCache := sql, userId, false;
      status, result, error, executionTime := Pending, None, "", 0.0;
      startTime, createdAt := None, 0;
      this.cancelFunc := cancelFunc;
    }

    function Value(): Query
      reads this
    {
      Query(queryId, datasourceId, database, sql, userId, status, result, error, executionTime,
            startTime, fromCache, cancelFunc, createdAt)
    }
  }

  type Table = map<QueryId, RunningQuery>

  ghost function Values(t: Table): Registry
    reads t.Values
  {
    map id | id in t :: t[id].Value()
  }

  /** Objects filed under distinct ids are distinct, because each carries its id. */
  ghost predicate Filed(t: Table) {
    forall id :: id in t ==> t[id].queryId == id
  }

  class QueryRegistry {
    var queries: Table

    ghost predicate Valid()
      reads this
    {
      Filed(queries)
    }

    ghost function View(): Registry
      reads this, queries.Values
    {
      Values(queries)
    }

    constructor ()
      ensures Valid() && View() == map[]
    {
      queries := map[];
    }

    method Register(query: RunningQuery, now: nat)
      requires Valid()
      modifies this, query
      ensures Valid() && View() == Registered(old(View()), old(query.Value()), now)
      ensures View() == old(View())[query.queryId := old(query.Value()).(createdAt := now)]
    {
      query.createdAt := now;
      queries := queries[query.queryId := query];
    }

    method Get(id: QueryId) returns (q: Option<RunningQuery>)
      requires Valid()
      ensures q.Some? <==> id in View()
      ensures q.Some? ==> q.value.Value() == View()[id]
    {
      q := if id in queries then Some(queries[id]) else None;
    }

    method UpdateResult(id: QueryId, result: Option<QueryResult>, execTime: real)
      requires Valid()
      modifies queries.Values
      ensures Valid() && View() == WithResult(old(View()), id, result, execTime)
      ensures var m := old(View());
        View() == if id !in m then m
                  else m[id := m[id].(status := Completed, result := result, executionTime := execTime)]
    {
      if id in queries {
        var q := queries[id];
        q.status := Completed;
        q.result := result;
        q.executionTime := execTime;
      }
    }

    method UpdateError(id: QueryId, msg: string, execTime: real)
      requires Valid()
      modifies queries.Values
      ensures Valid() && View() == WithError(old(View()), id, msg, execTime)
      ensures var m := old(View());
        View() == if id !in m then m else m[id := m[id].(status := Failed, error := msg, executionTime := execTime)]
    {
      if id in queries {
        var q := queries[id];
        q.status := Failed;
        q.error := msg;
        q.executionTime := execTime;
      }
    }

    method Cancel(id: QueryId) returns (cancelled: bool)
      requires Valid()
      modifies queries.Values
      ensures Valid() && View() == WithCancel(old(View()), id)
      ensures cancelled == CancelAnswer(old(View()), id)
      ensures var m := old(View());
        && (cancelled <==> id in m && (m[id].status == Pending || m[id].status == Running))
        && View() == if !cancelled then m
                     else m[id := m[id].(status := Cancelled,
                                         cancelFunc := if m[id].cancelFunc == NoFunc then NoFunc else Fired)]
    {
      if id !in queries {
        return false;
      }
      var q := queries[id];
      if q.status == Pending || q.status == Running {
        q.status := Cancelled;
        q.cancelFunc := q.cancelFunc.Call();
        return true;
      }
      return false;
    }

    method SetRunning(id: QueryId, now: nat)
      requires Valid()
      modifies queries.Values
      ensures Valid() && View() == WithRunning(old(View()), id, now)
      ensures var m := old(View());
        View() == if id !in m then m else m[id := m[id].(status := Running, startTime := Some(now))]
    {
      if id in queries {
        var q := queries[id];
        q.status := Running;
        q.startTime := Some(now);
      }
    }

    method Cleanup(maxAge: int, now: nat)
      requires Valid()
      modifies this
      ensures Valid() && View() == Cleaned(old(View()), old(View()).Keys, maxAge, now)
      ensures var m := old(View());
        var gone := set id | id in m && m[id].status in {Completed, Failed, Cancelled}
                                 && m[id].createdAt + maxAge < now;
        View() == m - gone
    {
      var ids := queries.Keys;
      ghost var all := queries;
      while ids != {}
        invariant Valid() && ids <= queries.Keys <= all.Keys
        invariant forall id :: id in queries ==> queries[id] == all[id]
        invariant forall id :: id in all && id !in ids ==>
          (id in queries <==> !Expired(all[id].Value(), maxAge, now))
        decreases ids
      {
        var id :| id in ids;
        ids := ids - {id};
        var q := queries[id];
        if q.status == Completed || q.status == Failed || q.status == Cancelled {
          if now - q.createdAt > maxAge {
            queries := queries - {id};
          }
        }
      }
      CleanedExactly(old(View()), old(View()).Keys, maxAge, now);
      assert forall gone: set<QueryId> :: gone <= old(View()).Keys ==> gone * old(View()).Keys == gone;
    }
  }
}
