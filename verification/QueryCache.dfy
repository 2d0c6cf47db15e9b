/** The query result cache: keys built from a datasource id and a hash, and invalidation by
    scanning for a key prefix. Redis is a map from keys; the hash is a parameter. */
module QueryCache {
  import opened Prelude

  datatype Query = Query(datasourceID: int, database: string, sql: string, limit: int)
  datatype Entry<R> = Entry(result: R, expires: int)
  datatype Stats = Stats(hits: nat, misses: nat, evictions: nat)

  // ---- Keys

  function Digits(n: nat): (s: string)
    ensures s != "" && forall i :: 0 <= i < |s| ==> '0' <= s[i] <= '9'
    ensures Value(s) == n
    decreases n
  {
    var last := [('0' as int + n % 10) as char];
    if n < 10 then last
    else
      var s := Digits(n / 10) + last;
      assert s[..|s| - 1] == Digits(n / 10);
      s
  }

  function Value(s: string): int {
    if s == "" then 0 else Value(s[..|s| - 1]) * 10 + (s[|s| - 1] as int - '0' as int)
  }

  /** The decimal form of an integer: it tells integers apart and holds no colon. */
  function Itoa(n: int): (s: string)
    ensures ':' !in s
  {
    if n < 0 then "-" + Digits(-n) else Digits(n)
  }

  lemma ItoaTellsApart(m: int, n: int)
    requires Itoa(m) == Itoa(n)
    ensures m == n
  {
    if m < 0 {
      assert Itoa(m)[1..] == Digits(-m);
      assert Itoa(m)[0] == '-';
    }
    if n < 0 {
      assert Itoa(n)[1..] == Digits(-n);
      assert Itoa(n)[0] == '-';
    }
  }

  function Body(q: Query): string {
    q.database + ":" + q.sql + ":" + Itoa(q.limit)
  }

  const KEY_HEAD := "datasource:query:cache:"

  function Prefix(datasourceID: int): string {
    KEY_HEAD + (Itoa(datasourceID) + ":")
  }

  function BuildKey(hash: string -> string, q: Query): string {
    Prefix(q.datasourceID) + hash(Body(q))
  }

  /** The text before the first colon, and the text behind the last one. */
  function Front(t: string): string {
    if t == "" || t[0] == ':' then "" else [t[0]] + Front(t[1..])
  }

  function Back(t: string): string {
    if t == "" || t[|t| - 1] == ':' then "" else Back(t[..|t| - 1]) + [t[|t| - 1]]
  }

  lemma {:induction false} FrontIs(a: string, x: string)
    requires ':' !in a
    ensures Front(a + ":" + x) == a
  {
    var t := a + ":" + x;
    if a != "" {
      assert t[1..] == a[1..] + ":" + x;
      FrontIs(a[1..], x);
    }
  }

  lemma {:induction false} BackIs(x: string, a: string)
    requires ':' !in a
    ensures Back(x + ":" + a) == a
  {
    var t, n := x + ":" + a, |a| - 1;
    if a != "" {
      assert t[..|t| - 1] == x + ":" + a[..n];
      BackIs(x, a[..n]);
    }
  }

  /** A colon-free text is recovered from what precedes, or follows, a colon. */
  lemma SplitFront(a: string, x: string, b: string, y: string)
    requires ':' !in a && ':' !in b && a + ":" + x == b + ":" + y
    ensures a == b && x == y
  {
    var t := a + ":" + x;
    FrontIs(a, x);
    FrontIs(b, y);
    assert x == t[|a| + 1..];
    assert y == (b + ":" + y)[|b| + 1..];
  }

  lemma SplitBack(x: string, a: string, y: string, b: string)
    requires ':' !in a && ':' !in b && x + ":" + a == y + ":" + b
    ensures x == y && a == b
  {
    var t := x + ":" + a;
    BackIs(x, a);
    BackIs(y, b);
    assert x == t[..|t| - |a| - 1];
    assert y == (y + ":" + b)[..|t| - |b| - 1];
  }

  lemma HeadCancelsBefore(head: string, s: string, t: string, x: string)
    ensures head + s <= (head + t) + x <==> s <= t + x
  {
    assert (head + t) + x == head + (t + x);
    HeadCancels(head, s, t + x);
  }

  lemma HeadCancels(head: string, s: string, t: string)
    ensures head + s <= head + t <==> s <= t
  {
    assert (head + s)[|head|..] == s && (head + t)[|head|..] == t;
    if head + s <= head + t {
      assert s == (head + t)[|head|..|head + s|];
    }
  }

  /** The prefix of a datasource fits the keys of that datasource and no others. */
  lemma PrefixFits(hash: string -> string, d: int, q: Query)
    ensures Prefix(d) <= BuildKey(hash, q) <==> q.datasourceID == d
  {
    var x := hash(Body(q));
    HeadCancelsBefore(KEY_HEAD, Itoa(d) + ":", Itoa(q.datasourceID) + ":", x);
    IdFits(d, q.datasourceID, x);
  }

  lemma IdFits(d: int, e: int, x: string)
    ensures Itoa(d) + ":" <= Itoa(e) + ":" + x <==> d == e
  {
    var s, t := Itoa(d) + ":", Itoa(e) + ":" + x;
    if s <= t {
      assert t == s + t[|s|..];
      SplitFront(Itoa(e), x, Itoa(d), t[|s|..]);
      ItoaTellsApart(e, d);
    }
  }

  predicate Collision(hash: string -> string, s: string, t: string) {
    s != t && hash(s) == hash(t)
  }

  /** Without a hash collision, two queries share a key exactly when they agree on the
      datasource, the limit and the joined text of database and statement. */
  lemma SameKey(hash: string -> string, p: Query, q: Query)
    requires !Collision(hash, Body(p), Body(q))
    ensures BuildKey(hash, p) == BuildKey(hash, q) <==>
      && p.datasourceID == q.datasourceID && p.limit == q.limit
      && p.database + ":" + p.sql == q.database + ":" + q.sql
  {
    if BuildKey(hash, p) == BuildKey(hash, q) {
      PrefixFits(hash, p.datasourceID, p);
      PrefixFits(hash, p.datasourceID, q);
      var n := |Prefix(p.datasourceID)|;
      assert hash(Body(p)) == BuildKey(hash, p)[n..];
      assert hash(Body(q)) == BuildKey(hash, q)[n..];
      SplitBack(p.database + ":" + p.sql, Itoa(p.limit), q.database + ":" + q.sql, Itoa(q.limit));
      ItoaTellsApart(p.limit, q.limit);
    }
  }

  /** One database name begins with the other and a colon. */
  predicate Nested(a: string, b: string) {
    a + ":" <= b || b + ":" <= a
  }

  lemma JoinedApart(a: string, s: string, b: string, t: string)
    requires a + ":" + s == b + ":" + t
    ensures a == b ==> s == t
    ensures a != b ==> Nested(a, b)
  {
    var j := a + ":" + s;
    assert j == b + ":" + t;
    assert j[..|a| + 1] == a + ":" && j[..|b| + 1] == b + ":";
    assert j[..|a|] == a && j[..|b|] == b;
    assert s == j[|a| + 1..] && t == j[|b| + 1..];
    if |a| < |b| {
      assert b[..|a| + 1] == j[..|a| + 1];
    } else if |b| < |a| {
      assert a[..|b| + 1] == j[..|b| + 1];
    }
  }

  /** Two different databases can share a cache key exactly when one name begins with the
      other and a colon; so names without a colon never do, whatever the statements. */
  lemma DatabasesShareKeys(a: string, b: string)
    requires a != b
    ensures Nested(a, b) <==> exists s, t :: a + ":" + s == b + ":" + t
    ensures ':' !in a && ':' !in b ==> !Nested(a, b)
  {
    if a + ":" <= b {
      var x := b[|a| + 1..];
      assert b == a + ":" + x;
      assert a + ":" + (x + ":") == b + ":" + "";
    } else if b + ":" <= a {
      var x := a[|b| + 1..];
      assert a == b + ":" + x;
      assert a + ":" + "" == b + ":" + (x + ":");
    }
    if s, t :| a + ":" + s == b + ":" + t {
      JoinedApart(a, s, b, t);
    }
    assert a + ":" <= b ==> b[|a|] == ':';
    assert b + ":" <= a ==> a[|b|] == ':';
  }

  /** With a colon in a name the cache answers one query with another one's result. */
  lemma ColonConfuses(hash: string -> string)
    ensures BuildKey(hash, Query(1, "a:b", "c", 10)) == BuildKey(hash, Query(1, "a", "b:c", 10))
  {
    assert "a:b" + ":" + "c" == "a" + ":" + "b:c";
  }

  // ---- The cache

  type Redis<R> = map<string, Entry<R>>

  function Without<R>(redis: Redis<R>, prefix: string): Redis<R> {
    map k | k in redis && !(prefix <= k) :: redis[k]
  }

  /** What successive SCAN calls return: matching keys only, repeats allowed, and none
      missed when the scan comes to its end. */
  predicate Scan<R>(redis: Redis<R>, prefix: string, pages: seq<seq<string>>, complete: bool) {
    && (forall i, j :: 0 <= i < |pages| && 0 <= j < |pages[i]| ==> prefix <= pages[i][j])
    && (complete ==> forall k :: k in redis && prefix <= k ==> exists i :: 0 <= i < |pages| && k in pages[i])
  }

  function Count(pages: seq<seq<string>>): nat {
    if pages == [] then 0 else Count(pages[..|pages| - 1]) + |pages[|pages| - 1]|
  }

  function Delete<R>(redis: Redis<R>, keys: seq<string>): Redis<R> {
    map k | k in redis && k !in keys :: redis[k]
  }

  function DeletePages<R>(redis: Redis<R>, pages: seq<seq<string>>): Redis<R> {
    if pages == [] then redis else Delete(DeletePages(redis, pages[..|pages| - 1]), pages[|pages| - 1])
  }

  lemma {:induction false} DeletePagesExactly<R>(redis: Redis<R>, pages: seq<seq<string>>)
    ensures DeletePages(redis, pages)
         == map k | k in redis && !(exists i :: 0 <= i < |pages| && k in pages[i]) :: redis[k]
  {
    if pages != [] {
      DeletePagesExactly(redis, pages[..|pages| - 1]);
    }
  }

  lemma OnePageMore<R>(redis: Redis<R>, pages: seq<seq<string>>, i: nat)
    requires i < |pages|
    ensures DeletePages(redis, pages[..i + 1])
         == if pages[i] == [] then DeletePages(redis, pages[..i])
           else Delete(DeletePages(redis, pages[..i]), pages[i])
    ensures Count(pages[..i + 1]) == Count(pages[..i]) + |pages[i]|
  {
    assert pages[..i + 1][..i] == pages[..i];
    var m := DeletePages(redis, pages[..i]);
    assert Delete(m, []) == m;
  }

  /** Deleting page by page removes only matching keys, and all of them once complete. */
  lemma ScanDeletes<R>(redis: Redis<R>, prefix: string, pages: seq<seq<string>>, complete: bool)
    requires Scan(redis, prefix, pages, complete)
    ensures complete ==> DeletePages(redis, pages) == Without(redis, prefix)
    ensures forall k :: k in redis && !(prefix <= k) ==> k in DeletePages(redis, pages)
  {
    DeletePagesExactly(redis, pages);
  }

  /** No key is returned twice. */
  ghost predicate NoRepeats(pages: seq<seq<string>>) {
    forall i, j, k, l :: Has(pages, i, j) && Has(pages, k, l) && pages[i][j] == pages[k][l] ==> i == k && j == l
  }

  predicate Has(pages: seq<seq<string>>, i: int, j: int) {
    0 <= i < |pages| && 0 <= j < |pages[i]|
  }

  lemma {:induction false} DeleteShrinks<R>(redis: Redis<R>, keys: seq<string>)
    requires forall i, j :: 0 <= i < j < |keys| ==> keys[i] != keys[j]
    requires forall i :: 0 <= i < |keys| ==> keys[i] in redis
    ensures |Delete(redis, keys)| == |redis| - |keys|
  {
    if keys == [] {
      assert Delete(redis, keys) == redis;
    } else {
      var n := |keys| - 1;
      var left := Delete(redis, keys[..n]);
      DeleteShrinks(redis, keys[..n]);
      assert keys[n] in left;
      assert Delete(redis, keys) == left - {keys[n]};
      assert |left - {keys[n]}| == |left| - 1 by {
        assert (left - {keys[n]}).Keys == left.Keys - {keys[n]};
      }
    }
  }

  /** What is counted as evicted is what was removed, when the scan returns stored keys and
      none of them twice. */
  lemma {:induction false} EvictionsAreRemovals<R>(redis: Redis<R>, pages: seq<seq<string>>)
    requires NoRepeats(pages) && forall i, j :: Has(pages, i, j) ==> pages[i][j] in redis
    ensures Count(pages) == |redis| - |DeletePages(redis, pages)|
  {
    if pages != [] {
      var n := |pages| - 1;
      var left := DeletePages(redis, pages[..n]);
      assert forall i, j :: Has(pages[..n], i, j) ==> Has(pages, i, j);
      EvictionsAreRemovals(redis, pages[..n]);
      DeletePagesExactly(redis, pages[..n]);
      forall j | 0 <= j < |pages[n]|
        ensures pages[n][j] in left
      {
        assert Has(pages, n, j);
        forall i | 0 <= i < n
          ensures pages[n][j] !in pages[..n][i]
        {
          assert forall l :: 0 <= l < |pages[i]| ==> Has(pages, i, l);
        }
      }
      forall j, l | 0 <= j < l < |pages[n]|
        ensures pages[n][j] != pages[n][l]
      {
        assert Has(pages, n, j) && Has(pages, n, l);
      }
      DeleteShrinks(left, pages[n]);
    }
  }

  class CacheService<R> {
    const hash: string -> string
    var redis: Redis<R>
    var ttl: int
    var stats: Stats

    constructor (hash: string -> string, redis: Redis<R>, ttl: int)
      ensures this.hash == hash && this.redis == redis && this.ttl == ttl && stats == Stats(0, 0, 0)
    {
      this.hash, this.redis, this.ttl, stats := hash, redis, ttl, Stats(0, 0, 0);
    }

    method Get(q: Query, now: int) returns (r: Option<R>)
      modifies this`stats
      ensures r == Hit(redis, ttl, BuildKey(hash, q), now)
      ensures r.Some? <==> ttl > 0 && BuildKey(hash, q) in redis && now < redis[BuildKey(hash, q)].expires
      ensures r.Some? ==> r.value == redis[BuildKey(hash, q)].result
      ensures stats == if ttl <= 0 then old(stats)
                       else if r.Some? then old(stats).(hits := old(stats).hits + 1)
                       else old(stats).(misses := old(stats).misses + 1)
    {
      if ttl <= 0 {
        return None;
      }
      var key := BuildKey(hash, q);
      if key !in redis || redis[key].expires <= now {
        stats := stats.(misses := stats.misses + 1);
        return None;
      }
      stats := stats.(hits := stats.hits + 1);
      return Some(redis[key].result);
    }

    method Set(q: Query, result: R, now: int)
      modifies this`redis
      ensures redis == Stored(old(redis), ttl, BuildKey(hash, q), result, now)
      ensures redis == if ttl > 0 then old(redis)[BuildKey(hash, q) := Entry(result, now + ttl)] else old(redis)
    {
      if ttl <= 0 {
        return;
      }
      redis := redis[BuildKey(hash, q) := Entry(result, now + ttl)];
    }

    /** Deletes exactly the keys of the datasource; a scan that fails leaves some of them,
        and what it did delete is not counted as evicted. */
    method Invalidate(datasourceID: int, pages: seq<seq<string>>, complete: bool) returns (ok: bool)
      requires Scan(redis, Prefix(datasourceID), pages, complete)
      modifies this`redis, this`stats
      ensures ok == complete
      ensures redis == DeletePages(old(redis), pages)
      ensures complete ==> redis == Without(old(redis), Prefix(datasourceID))
      ensures stats == if complete then old(stats).(evictions := old(stats).evictions + Count(pages)) else old(stats)
    {
      ghost var was := redis;
      var count := 0;
      for i := 0 to |pages|
        invariant redis == DeletePages(was, pages[..i]) && count == Count(pages[..i])
        invariant stats == old(stats)
      {
        OnePageMore(was, pages, i);
        var keys := pages[i];
        if |keys| > 0 {
          redis := Delete(redis, keys);
          count := count + |keys|;
        }
      }
      assert pages[..|pages|] == pages;
      ScanDeletes(was, Prefix(datasourceID), pages, complete);
      if !complete {
        return false;
      }
      if count > 0 {
        stats := stats.(evictions := stats.evictions + count);
      }
      return true;
    }

    /** The filter of `InvalidateByDatabase`: a hash shows no database, so all keys pass. */
    method TargetKeys(keys: seq<string>) returns (targetKeys: seq<string>)
      ensures targetKeys == keys
    {
      targetKeys := [];
      for j := 0 to |keys|
        invariant targetKeys == keys[..j]
      {
        targetKeys := targetKeys + [keys[j]];
      }
    }

    /** The database is not looked at: every key of the datasource goes. */
    method InvalidateByDatabase(datasourceID: int, database: string, pages: seq<seq<string>>, complete: bool)
      returns (ok: bool)
      requires Scan(redis, Prefix(datasourceID), pages, complete)
      modifies this`redis, this`stats
      ensures ok == complete
      ensures redis == DeletePages(old(redis), pages)
      ensures complete ==> redis == Without(old(redis), Prefix(datasourceID))
      ensures stats == if complete then old(stats).(evictions := old(stats).evictions + Count(pages)) else old(stats)
    {
      ghost var was := redis;
      var count := 0;
      for i := 0 to |pages|
        invariant redis == DeletePages(was, pages[..i]) && count == Count(pages[..i])
        invariant stats == old(stats)
      {
        OnePageMore(was, pages, i);
        var targetKeys := TargetKeys(pages[i]);
        if |targetKeys| > 0 {
          redis := Delete(redis, targetKeys);
          count := count + |targetKeys|;
        }
      }
      assert pages[..|pages|] == pages;
      ScanDeletes(was, Prefix(datasourceID), pages, complete);
      if !complete {
        return false;
      }
      if count > 0 {
        stats := stats.(evictions := stats.evictions + count);
      }
      return true;
    }
  }

  function Hit<K, R>(m: map<K, Entry<R>>, ttl: int, k: K, now: int): Option<R> {
    if ttl > 0 && k in m && now < m[k].expires then Some(m[k].result) else None
  }

  function Stored<K, R>(m: map<K, Entry<R>>, ttl: int, k: K, result: R, now: int): map<K, Entry<R>> {
    if ttl <= 0 then m else m[k := Entry(result, now + ttl)]
  }

  // ---- Refinement of a map keyed by the query itself

  datatype Event<R> =
    | Get(q: Query, now: int)
    | Set(q: Query, result: R, now: int)
    | Invalidate(datasourceID: int)
    | InvalidateByDatabase(datasourceID: int, database: string)
    | Configure(newTtl: int)

  datatype Cache<K, R> = Cache(entries: map<K, Entry<R>>, ttl: int)

  /** The cache as it runs, on keys, and the cache as meant, on queries. */
  function OnKeys<R>(hash: string -> string, c: Cache<string, R>, e: Event<R>): Cache<string, R> {
    match e
    case Get(_, _) => c
    case Set(q, result, now) => c.(entries := Stored(c.entries, c.ttl, BuildKey(hash, q), result, now))
    case Invalidate(d) => c.(entries := Without(c.entries, Prefix(d)))
    case InvalidateByDatabase(d, _) => c.(entries := Without(c.entries, Prefix(d)))
    case Configure(ttl) => c.(ttl := ttl)
  }

  function OnQueries<R>(c: Cache<Query, R>, e: Event<R>): Cache<Query, R> {
    match e
    case Get(_, _) => c
    case Set(q, result, now) => c.(entries := Stored(c.entries, c.ttl, q, result, now))
    case Invalidate(d) => c.(entries := WithoutDatasource(c.entries, d))
    case InvalidateByDatabase(d, _) => c.(entries := WithoutDatasource(c.entries, d))
    case Configure(ttl) => c.(ttl := ttl)
  }

  function WithoutDatasource<R>(m: map<Query, Entry<R>>, d: int): map<Query, Entry<R>> {
    map q | q in m && q.datasourceID != d :: m[q]
  }

  function RunOnKeys<R>(hash: string -> string, c: Cache<string, R>, events: seq<Event<R>>): Cache<string, R> {
    if events == [] then c
    else OnKeys(hash, RunOnKeys(hash, c, events[..|events| - 1]), events[|events| - 1])
  }

  function RunOnQueries<R>(c: Cache<Query, R>, events: seq<Event<R>>): Cache<Query, R> {
    if events == [] then c
    else OnQueries(RunOnQueries(c, events[..|events| - 1]), events[|events| - 1])
  }

  /** Queries that can share a cache: their bodies do not collide under the hash, and no
      database name of one datasource is nested in another. */
  predicate Apart(hash: string -> string, used: set<Query>) {
    forall p, q :: p in used && q in used ==> !Collision(hash, Body(p), Body(q)) && !Nested(p.database, q.database)
  }

  predicate Within<R>(e: Event<R>, used: set<Query>) {
    (e.Get? || e.Set?) ==> e.q in used
  }

  /** The two caches hold the same entries for the queries in use. */
  ghost predicate Same<R>(hash: string -> string, c: Cache<string, R>, m: Cache<Query, R>, used: set<Query>) {
    && c.ttl == m.ttl
    && forall q :: q in used ==>
         && (q in m.entries <==> BuildKey(hash, q) in c.entries)
         && (q in m.entries ==> c.entries[BuildKey(hash, q)] == m.entries[q])
  }

  lemma KeysTellApart(hash: string -> string, p: Query, q: Query)
    requires !Collision(hash, Body(p), Body(q)) && !Nested(p.database, q.database)
    ensures BuildKey(hash, p) == BuildKey(hash, q) <==> p == q
  {
    SameKey(hash, p, q);
    if p.database + ":" + p.sql == q.database + ":" + q.sql {
      JoinedApart(p.database, p.sql, q.database, q.sql);
    }
  }

  lemma StepKeepsSame<R>(hash: string -> string, c: Cache<string, R>, m: Cache<Query, R>, used: set<Query>,
                         e: Event<R>)
    requires Apart(hash, used) && Within(e, used) && Same(hash, c, m, used)
    ensures Same(hash, OnKeys(hash, c, e), OnQueries(m, e), used)
  {
    forall q | q in used
      ensures var k, d, n := BuildKey(hash, q), OnKeys(hash, c, e).entries, OnQueries(m, e).entries;
        (q in n <==> k in d) && (q in n ==> d[k] == n[q])
    {
      match e
      case Set(p, _, _) => KeysTellApart(hash, p, q);
      case Invalidate(d) => PrefixFits(hash, d, q);
      case InvalidateByDatabase(d, _) => PrefixFits(hash, d, q);
      case _ =>
    }
  }

  /** Over every run the cache answers each query as a map keyed by datasource, database,
      statement and limit would. */
  lemma {:induction false} CacheRefinesMap<R>(hash: string -> string, c: Cache<string, R>, m: Cache<Query, R>,
                                              used: set<Query>, events: seq<Event<R>>)
    requires Apart(hash, used) && Same(hash, c, m, used)
    requires forall i :: 0 <= i < |events| ==> Within(events[i], used)
    ensures var c', m' := RunOnKeys(hash, c, events), RunOnQueries(m, events);
      && Same(hash, c', m', used)
      && forall q, now :: q in used ==>
           Hit(c'.entries, c'.ttl, BuildKey(hash, q), now) == Hit(m'.entries, m'.ttl, q, now)
  {
    if events != [] {
      var n := |events| - 1;
      CacheRefinesMap(hash, c, m, used, events[..n]);
      StepKeepsSame(hash, RunOnKeys(hash, c, events[..n]), RunOnQueries(m, events[..n]), used, events[n]);
    }
  }

  // ---------------------------------------------------------------- what a hit means

  function TtlAfter<R>(events: seq<Event<R>>, ttl: int): int {
    if events == [] then ttl
    else
      var last := events[|events| - 1];
      if last.Configure? then last.newTtl else TtlAfter(events[..|events| - 1], ttl)
  }

  /** Event i stores under `q`, or drops its datasource. */
  predicate Overwrites<R>(events: seq<Event<R>>, ttl: int, i: nat, q: Query)
    requires i < |events|
  {
    match events[i]
    case Set(p, _, _) => p == q && TtlAfter(events[..i], ttl) > 0
    case Invalidate(d) => d == q.datasourceID
    case InvalidateByDatabase(d, _) => d == q.datasourceID
    case _ => false
  }

  /** Event i stored `result` for `q`, to expire at `expires`, and nothing touched it since. */
  ghost predicate StoredBy<R>(events: seq<Event<R>>, ttl: int, i: nat, q: Query, result: R, expires: int) {
    && i < |events| && events[i].Set? && events[i].q == q && events[i].result == result
    && TtlAfter(events[..i], ttl) > 0 && expires == events[i].now + TtlAfter(events[..i], ttl)
    && forall j :: i < j < |events| ==> !Overwrites(events, ttl, j, q)
  }

  lemma {:induction false} EntryExactly<R>(ttl: int, events: seq<Event<R>>, q: Query, result: R, expires: int)
    ensures var m := RunOnQueries(Cache(map[], ttl), events);
      && m.ttl == TtlAfter(events, ttl)
      && (q in m.entries && m.entries[q] == Entry(result, expires) <==>
            exists i: nat :: StoredBy(events, ttl, i, q, result, expires))
  {
    if events != [] {
      var n := |events| - 1;
      EntryExactly(ttl, events[..n], q, result, expires);
      forall i: nat | i < n
        ensures StoredBy(events, ttl, i, q, result, expires) <==>
          StoredBy(events[..n], ttl, i, q, result, expires) && !Overwrites(events, ttl, n, q)
      {
        StoredBefore(ttl, events, i, q, result, expires);
      }
      assert StoredBy(events, ttl, n, q, result, expires) <==>
        events[n].Set? && events[n].q == q && events[n].result == result
        && TtlAfter(events[..n], ttl) > 0 && expires == events[n].now + TtlAfter(events[..n], ttl);
    }
  }

  lemma StoredBefore<R>(ttl: int, events: seq<Event<R>>, i: nat, q: Query, result: R, expires: int)
    requires events != [] && i < |events| - 1
    ensures StoredBy(events, ttl, i, q, result, expires) <==>
      StoredBy(events[..|events| - 1], ttl, i, q, result, expires) && !Overwrites(events, ttl, |events| - 1, q)
  {
    var before := events[..|events| - 1];
    forall j: nat | j < |before|
      ensures before[..j] == events[..j] && Overwrites(before, ttl, j, q) == Overwrites(events, ttl, j, q)
    {
      assert before[..j] == events[..j];
    }
  }

  /** From an empty cache, over every run: a query gets a result at some time if and only if
      caching is on then, the latest storing of that query stored it while caching was on, no
      invalidation of its datasource came later, and its time has not run out. */
  lemma HitExactly<R>(ttl: int, events: seq<Event<R>>, q: Query, now: int, result: R)
    ensures var m := RunOnQueries(Cache(map[], ttl), events);
      Hit(m.entries, m.ttl, q, now) == Some(result) <==>
        TtlAfter(events, ttl) > 0 && exists i: nat, x :: StoredBy(events, ttl, i, q, result, x) && now < x
  {
    var m := RunOnQueries(Cache(map[], ttl), events);
    EntryExactly(ttl, events, q, result, 0);
    if q in m.entries {
      EntryExactly(ttl, events, q, result, m.entries[q].expires);
    }
    forall i: nat, x | StoredBy(events, ttl, i, q, result, x)
      ensures q in m.entries && m.entries[q] == Entry(result, x)
    {
      EntryExactly(ttl, events, q, result, x);
    }
  }

  /** Invalidating a datasource removes exactly its queries and no other key of Redis. */
  lemma InvalidateExactly<R>(hash: string -> string, redis: Redis<R>, d: int, q: Query)
    ensures BuildKey(hash, q) in Without(redis, Prefix(d)) <==> BuildKey(hash, q) in redis && q.datasourceID != d
    ensures forall k :: k in redis && k !in Without(redis, Prefix(d)) ==> KEY_HEAD <= k
  {
    PrefixFits(hash, d, q);
    forall k | k in redis && k !in Without(redis, Prefix(d))
      ensures KEY_HEAD <= k
    {
      assert Prefix(d) <= k;
      HeadOfPrefix(KEY_HEAD, Itoa(d) + ":", k);
    }
  }

  lemma HeadOfPrefix(head: string, s: string, k: string)
    requires head + s <= k
    ensures head <= k
  {
    assert head == (head + s)[..|head|];
  }

  /** Invalidation by database is precise exactly when the datasource has no entry for
      another database. */
  lemma ByDatabaseIsPrecise<R>(m: Cache<Query, R>, d: int, database: string)
    ensures OnQueries(m, InvalidateByDatabase(d, database)).entries
         == (map q | q in m.entries && !(q.datasourceID == d && q.database == database) :: m.entries[q])
       <==> forall q :: q in m.entries && q.datasourceID == d ==> q.database == database
  {
    var left := OnQueries(m, InvalidateByDatabase(d, database)).entries;
    var precise := map q | q in m.entries && !(q.datasourceID == d && q.database == database) :: m.entries[q];
    if left == precise {
      forall q | q in m.entries && q.datasourceID == d
        ensures q.database == database
      {
        assert q !in left;
        assert q !in precise;
      }
    }
  }
}
