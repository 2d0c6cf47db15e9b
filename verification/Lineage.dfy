/** Task lineage: depth-first traversals of the task-dependency table, which may contain
    cycles and rows whose tasks are missing. */
module Lineage {
  import opened Prelude

  datatype TaskNode = TaskNode(id: int, name: string, kind: string, status: string)

  datatype Dependency = Dependency(taskId: int, parentTaskId: int)

  datatype Relation = Relation(source: int, target: int)

  /** The two tables the service reads. */
  datatype Database = Database(tasks: map<int, TaskNode>, dependencies: seq<Dependency>)

  ghost predicate PrimaryKey(db: Database) {
    forall id :: id in db.tasks ==> db.tasks[id].id == id
  }

  /** A dependency row as an edge of the traversal: from child to parent going upstream,
      from parent to child going downstream. */
  function Tail(d: Dependency, upstream: bool): int {
    if upstream then d.taskId else d.parentTaskId
  }

  function Head(d: Dependency, upstream: bool): int {
    if upstream then d.parentTaskId else d.taskId
  }

  /** `getParentTasks` and `getChildTasks`: the rows of one task, in table order. */
  function Related(rows: seq<Dependency>, id: int, upstream: bool): seq<int> {
    if rows == [] then []
    else (if Tail(rows[0], upstream) == id then [Head(rows[0], upstream)] else [])
         + Related(rows[1..], id, upstream)
  }

  function AsRelation(d: Dependency): Relation {
    Relation(d.parentTaskId, d.taskId)
  }

  /** The relation appended when the traversal goes from `id` to `other`. */
  function RelationTo(id: int, other: int, upstream: bool): Relation {
    if upstream then Relation(other, id) else Relation(id, other)
  }

  // ---------------------------------------------------------------- reference definitions

  ghost predicate Edge(rows: seq<Dependency>, upstream: bool, a: int, b: int) {
    exists i :: 0 <= i < |rows| && Tail(rows[i], upstream) == a && Head(rows[i], upstream) == b
  }

  /** There is a path of n edges. */
  ghost predicate Path(rows: seq<Dependency>, upstream: bool, a: int, b: int, n: nat)
    decreases n
  {
    if n == 0 then a == b
    else exists m :: Path(rows, upstream, a, m, n - 1) && Edge(rows, upstream, m, b)
  }

  ghost predicate Reaches(rows: seq<Dependency>, upstream: bool, a: int, b: int) {
    exists n: nat :: Path(rows, upstream, a, b, n)
  }

  /** Every task a traversal can come across. */
  function Universe(rows: seq<Dependency>, upstream: bool, root: int): set<int> {
    {root} + set i | 0 <= i < |rows| :: Head(rows[i], upstream)
  }

  /** The tasks reachable from `root`, `root` included. */
  ghost function Closure(rows: seq<Dependency>, upstream: bool, root: int): set<int> {
    set x | x in Universe(rows, upstream, root) && Reaches(rows, upstream, root, x)
  }

  /** The dependency rows, as relations, whose tail lies in `s`. */
  ghost function RowsLeaving(rows: seq<Dependency>, upstream: bool, s: set<int>): multiset<Relation> {
    if rows == [] then multiset{}
    else (if Tail(rows[0], upstream) in s then multiset{AsRelation(rows[0])} else multiset{})
         + RowsLeaving(rows[1..], upstream, s)
  }

  function Ids(nodes: seq<TaskNode>): seq<int> {
    seq(|nodes|, i requires 0 <= i < |nodes| => nodes[i].id)
  }

  // ---------------------------------------------------------------- lemmas

  /** Upstream goes from a task to its parents, downstream from a task to its children. */
  lemma EdgeMeans(rows: seq<Dependency>, a: int, b: int)
    ensures Edge(rows, true, a, b) <==> Dependency(a, b) in rows
    ensures Edge(rows, false, a, b) <==> Dependency(b, a) in rows
  {
  }

  /** The relations leaving a set of tasks, from parent to child: each row of a child in the set
      when going upstream, of a parent in it when going downstream, as often as it occurs. */
  lemma {:induction false} RowsLeavingExactly(rows: seq<Dependency>, s: set<int>, child: int, parent: int)
    ensures RowsLeaving(rows, true, s)[Relation(parent, child)]
         == if child in s then multiset(rows)[Dependency(child, parent)] else 0
    ensures RowsLeaving(rows, false, s)[Relation(parent, child)]
         == if parent in s then multiset(rows)[Dependency(child, parent)] else 0
  {
    if rows != [] {
      RowsLeavingExactly(rows[1..], s, child, parent);
      assert rows == [rows[0]] + rows[1..];
      assert multiset(rows) == multiset{rows[0]} + multiset(rows[1..]);
    }
  }

  lemma {:induction false} RelatedIsEdge(rows: seq<Dependency>, id: int, upstream: bool)
    ensures forall x :: x in Related(rows, id, upstream) <==> Edge(rows, upstream, id, x)
  {
    if rows != [] {
      RelatedIsEdge(rows[1..], id, upstream);
      forall x ensures x in Related(rows, id, upstream) <==> Edge(rows, upstream, id, x) {
        if Edge(rows, upstream, id, x) {
          var i :| 0 <= i < |rows| && Tail(rows[i], upstream) == id && Head(rows[i], upstream) == x;
          if i > 0 {
            assert rows[1..][i - 1] == rows[i];
            assert Edge(rows[1..], upstream, id, x);
          }
        }
        if Edge(rows[1..], upstream, id, x) {
          var i :| 0 <= i < |rows[1..]| && Tail(rows[1..][i], upstream) == id && Head(rows[1..][i], upstream) == x;
          assert rows[i + 1] == rows[1..][i];
        }
      }
    }
  }

  lemma ReachesSelf(rows: seq<Dependency>, upstream: bool, a: int)
    ensures Reaches(rows, upstream, a, a)
  {
    assert Path(rows, upstream, a, a, 0);
  }

  lemma ReachesStep(rows: seq<Dependency>, upstream: bool, a: int, b: int, c: int)
    requires Reaches(rows, upstream, a, b) && Edge(rows, upstream, b, c)
    ensures Reaches(rows, upstream, a, c)
  {
    var n: nat :| Path(rows, upstream, a, b, n);
    assert Path(rows, upstream, a, c, n + 1);
  }

  lemma EdgeInUniverse(rows: seq<Dependency>, upstream: bool, root: int, a: int, b: int)
    requires Edge(rows, upstream, a, b)
    ensures b in Universe(rows, upstream, root)
  {
  }

  /** No edge leaves `seen` except from the tasks in `open`. */
  ghost predicate ClosedBut(rows: seq<Dependency>, upstream: bool, seen: set<int>, open: set<int>) {
    forall a, b :: a in seen && a !in open && Edge(rows, upstream, a, b) ==> b in seen
  }

  lemma {:induction false} ClosedContainsPaths(rows: seq<Dependency>, upstream: bool, seen: set<int>, a: int,
                                               b: int, n: nat)
    requires ClosedBut(rows, upstream, seen, {}) && a in seen && Path(rows, upstream, a, b, n)
    ensures b in seen
    decreases n
  {
    if n > 0 {
      var m :| Path(rows, upstream, a, m, n - 1) && Edge(rows, upstream, m, b);
      ClosedContainsPaths(rows, upstream, seen, a, m, n - 1);
    }
  }

  /** A closed set of reachable tasks that contains the root is the closure. */
  lemma ClosedIsClosure(rows: seq<Dependency>, upstream: bool, seen: set<int>, root: int)
    requires ClosedBut(rows, upstream, seen, {}) && root in seen
    requires seen <= Universe(rows, upstream, root)
    requires forall x :: x in seen ==> Reaches(rows, upstream, root, x)
    ensures seen == Closure(rows, upstream, root)
  {
    forall x | x in Closure(rows, upstream, root) ensures x in seen {
      var n: nat :| Path(rows, upstream, root, x, n);
      ClosedContainsPaths(rows, upstream, seen, root, x, n);
    }
  }

  lemma {:induction false} RowsLeavingSplit(rows: seq<Dependency>, upstream: bool, a: set<int>, b: set<int>)
    requires a !! b
    ensures RowsLeaving(rows, upstream, a + b) == RowsLeaving(rows, upstream, a) + RowsLeaving(rows, upstream, b)
  {
    if rows != [] {
      RowsLeavingSplit(rows[1..], upstream, a, b);
    }
  }

  lemma {:induction false} RowsLeavingNothing(rows: seq<Dependency>, upstream: bool)
    ensures RowsLeaving(rows, upstream, {}) == multiset{}
  {
    if rows != [] {
      RowsLeavingNothing(rows[1..], upstream);
    }
  }

  function RelationsTo(id: int, others: seq<int>, upstream: bool): seq<Relation> {
    seq(|others|, i requires 0 <= i < |others| => RelationTo(id, others[i], upstream))
  }

  lemma RelationsToCons(id: int, x: int, rest: seq<int>, upstream: bool)
    ensures multiset(RelationsTo(id, [x] + rest, upstream)) ==
            multiset{RelationTo(id, x, upstream)} + multiset(RelationsTo(id, rest, upstream))
  {
    assert RelationsTo(id, [x] + rest, upstream) == [RelationTo(id, x, upstream)] + RelationsTo(id, rest, upstream);
  }

  lemma {:induction false} RelatedAreRows(rows: seq<Dependency>, id: int, upstream: bool)
    ensures multiset(RelationsTo(id, Related(rows, id, upstream), upstream)) == RowsLeaving(rows, upstream, {id})
  {
    if rows != [] {
      RelatedAreRows(rows[1..], id, upstream);
      var rest := Related(rows[1..], id, upstream);
      if Tail(rows[0], upstream) == id {
        RelationsToCons(id, Head(rows[0], upstream), rest, upstream);
      } else {
        assert Related(rows, id, upstream) == rest;
      }
    }
  }

  // ---------------------------------------------------------------- traversals

  class LineageGraph {
    var tasks: seq<TaskNode>
    var relations: seq<Relation>

    constructor ()
      ensures tasks == [] && relations == []
    {
      tasks, relations := [], [];
    }
  }

  class Visited {
    var seen: set<int>

    constructor ()
      ensures seen == {}
    {
      seen := {};
    }
  }

  /** The tasks in `found` exist and are reachable from `root`. */
  ghost predicate Found(db: Database, upstream: bool, root: int, found: set<int>) {
    found <= Universe(db.dependencies, upstream, root) && found <= db.tasks.Keys
    && forall x :: x in found ==> Reaches(db.dependencies, upstream, root, x)
  }

  /** The nodes are the rows of their tasks. */
  ghost predicate Genuine(db: Database, nodes: seq<TaskNode>) {
    forall i :: 0 <= i < |nodes| ==> nodes[i].id in db.tasks && nodes[i] == db.tasks[nodes[i].id]
  }

  lemma IdsAppend(nodes: seq<TaskNode>, n: TaskNode)
    ensures multiset(Ids(nodes + [n])) == multiset(Ids(nodes)) + multiset{n.id}
  {
    assert Ids(nodes + [n]) == Ids(nodes) + [n.id];
  }

  lemma SetSplit(a: set<int>, b: set<int>, c: set<int>)
    requires a <= b <= c
    ensures multiset(c - a) == multiset(b - a) + multiset(c - b)
  {
    assert c - a == (b - a) + (c - b);
  }

  /** What a traversal has built up. */
  datatype Progress = Progress(seen: set<int>, tasks: seq<TaskNode>, relations: seq<Relation>)

  /** From `p` to `q`: every new task appended once, every row leaving a new task once, and
      every new task's neighbours visited. */
  ghost predicate Pass(db: Database, upstream: bool, root: int, p: Progress, q: Progress) {
    var added := q.seen - p.seen;
    && p.seen <= q.seen && Found(db, upstream, root, added) && Genuine(db, q.tasks)
    && ClosedBut(db.dependencies, upstream, q.seen, p.seen)
    && multiset(Ids(q.tasks)) == multiset(Ids(p.tasks)) + multiset(added)
    && multiset(q.relations) == multiset(p.relations) + RowsLeaving(db.dependencies, upstream, added)
  }

  /** The same in the middle of the loop of task `id`, of whose neighbours k are done. */
  ghost predicate InLoop(db: Database, upstream: bool, root: int, id: int, k: nat, p: Progress, q: Progress) {
    var added := q.seen - p.seen;
    var related := Related(db.dependencies, id, upstream);
    && id !in p.seen && p.seen + {id} <= q.seen && Found(db, upstream, root, added) && Genuine(db, q.tasks)
    && k <= |related| && (forall j :: 0 <= j < k ==> related[j] in q.seen)
    && ClosedBut(db.dependencies, upstream, q.seen, p.seen + {id})
    && multiset(Ids(q.tasks)) == multiset(Ids(p.tasks)) + multiset(added)
    && multiset(q.relations) == multiset(p.relations) + RowsLeaving(db.dependencies, upstream, added - {id})
                                + multiset(RelationsTo(id, related[..k], upstream))
  }

  lemma LoopStarts(db: Database, upstream: bool, root: int, id: int, p: Progress)
    requires PrimaryKey(db) && Genuine(db, p.tasks) && id !in p.seen && Found(db, upstream, root, {id})
    ensures InLoop(db, upstream, root, id, 0, p, Progress(p.seen + {id}, p.tasks + [db.tasks[id]], p.relations))
  {
    IdsAppend(p.tasks, db.tasks[id]);
    RowsLeavingNothing(db.dependencies, upstream);
    assert p.seen + {id} - p.seen == {id} && {id} - {id} == {};
  }

  lemma LoopContinues(db: Database, upstream: bool, root: int, id: int, k: nat, p: Progress, q: Progress, r: Progress)
    requires InLoop(db, upstream, root, id, k, p, q) && k < |Related(db.dependencies, id, upstream)|
    requires var x := Related(db.dependencies, id, upstream)[k];
      x in r.seen && Pass(db, upstream, root, q.(relations := q.relations + [RelationTo(id, x, upstream)]), r)
    ensures InLoop(db, upstream, root, id, k + 1, p, r)
  {
    var related := Related(db.dependencies, id, upstream);
    RelationsToSnoc(id, related, k, upstream);
    SetSplit(p.seen, q.seen, r.seen);
    assert r.seen - p.seen == (q.seen - p.seen) + (r.seen - q.seen);
    RowsLeavingGrow(db.dependencies, upstream, id, p.seen, q.seen, r.seen);
  }

  lemma RowsLeavingGrow(rows: seq<Dependency>, upstream: bool, id: int, p: set<int>, q: set<int>, r: set<int>)
    requires p + {id} <= q <= r
    ensures RowsLeaving(rows, upstream, r - p - {id}) ==
            RowsLeaving(rows, upstream, q - p - {id}) + RowsLeaving(rows, upstream, r - q)
  {
    RowsLeavingSplit(rows, upstream, q - p - {id}, r - q);
    assert (q - p - {id}) + (r - q) == r - p - {id};
  }

  lemma LoopEnds(db: Database, upstream: bool, root: int, id: int, p: Progress, q: Progress)
    requires InLoop(db, upstream, root, id, |Related(db.dependencies, id, upstream)|, p, q)
    ensures Pass(db, upstream, root, p, q)
  {
    var related := Related(db.dependencies, id, upstream);
    assert related[..|related|] == related;
    RelatedIsEdge(db.dependencies, id, upstream);
    RelatedAreRows(db.dependencies, id, upstream);
    RowsLeavingSplit(db.dependencies, upstream, q.seen - p.seen - {id}, {id});
    assert (q.seen - p.seen - {id}) + {id} == q.seen - p.seen;
  }

  lemma NothingToDo(db: Database, upstream: bool, root: int, p: Progress)
    requires Genuine(db, p.tasks)
    ensures Pass(db, upstream, root, p, p)
  {
    RowsLeavingNothing(db.dependencies, upstream);
    assert p.seen - p.seen == {};
  }

  lemma NeighbourReached(db: Database, upstream: bool, root: int, id: int, k: nat)
    requires Reaches(db.dependencies, upstream, root, id) && k < |Related(db.dependencies, id, upstream)|
    ensures var x := Related(db.dependencies, id, upstream)[k];
      x in Universe(db.dependencies, upstream, root) && Reaches(db.dependencies, upstream, root, x)
  {
    RelatedIsEdge(db.dependencies, id, upstream);
    var x := Related(db.dependencies, id, upstream)[k];
    ReachesStep(db.dependencies, upstream, root, id, x);
    EdgeInUniverse(db.dependencies, upstream, root, id, x);
  }

  lemma RelationsToSnoc(id: int, others: seq<int>, k: nat, upstream: bool)
    requires k < |others|
    ensures multiset(RelationsTo(id, others[..k + 1], upstream)) ==
            multiset(RelationsTo(id, others[..k], upstream)) + multiset{RelationTo(id, others[k], upstream)}
  {
    assert others[..k + 1] == others[..k] + [others[k]];
    assert RelationsTo(id, others[..k + 1], upstream)
        == RelationsTo(id, others[..k], upstream) + [RelationTo(id, others[k], upstream)];
  }

  /** One pass over the part of the table not visited yet; it fails exactly when it comes
      to a task that does not exist. */
  method BuildLineage(db: Database, id: int, graph: LineageGraph, visited: Visited, upstream: bool, ghost root: int)
    returns (missing: Option<int>)
    requires PrimaryKey(db) && Genuine(db, graph.tasks)
    requires id in Universe(db.dependencies, upstream, root) && Reaches(db.dependencies, upstream, root, id)
    modifies graph, visited
    ensures old(visited.seen) <= visited.seen
    ensures missing.Some? ==>
      missing.value !in db.tasks && Reaches(db.dependencies, upstream, root, missing.value)
    ensures missing.None? ==> id in visited.seen
    ensures missing.None? ==>
      Pass(db, upstream, root, old(Progress(visited.seen, graph.tasks, graph.relations)),
           Progress(visited.seen, graph.tasks, graph.relations))
    decreases Universe(db.dependencies, upstream, root) - visited.seen
  {
    ghost var p := Progress(visited.seen, graph.tasks, graph.relations);
    if id in visited.seen {
      NothingToDo(db, upstream, root, p);
      return None;
    }
    visited.seen := visited.seen + {id};
    if id !in db.tasks {
      return Some(id);
    }
    graph.tasks := graph.tasks + [db.tasks[id]];
    LoopStarts(db, upstream, root, id, p);
    var related := Related(db.dependencies, id, upstream);
    for k := 0 to |related|
      invariant InLoop(db, upstream, root, id, k, p, Progress(visited.seen, graph.tasks, graph.relations))
    {
      ghost var q := Progress(visited.seen, graph.tasks, graph.relations);
      NeighbourReached(db, upstream, root, id, k);
      graph.relations := graph.relations + [RelationTo(id, related[k], upstream)];
      missing := BuildLineage(db, related[k], graph, visited, upstream, root);
      if missing.Some? {
        return;
      }
      LoopContinues(db, upstream, root, id, k, p, q, Progress(visited.seen, graph.tasks, graph.relations));
    }
    LoopEnds(db, upstream, root, id, p, Progress(visited.seen, graph.tasks, graph.relations));
    return None;
  }

  // ---------------------------------------------------------------- the two queries

  lemma WholePass(db: Database, upstream: bool, root: int, p: Progress, q: Progress)
    requires p.seen == {} && root in q.seen && Pass(db, upstream, root, p, q)
    ensures q.seen == Closure(db.dependencies, upstream, root) && q.seen <= db.tasks.Keys
  {
    assert q.seen - p.seen == q.seen;
    ClosedIsClosure(db.dependencies, upstream, q.seen, root);
  }

  lemma MissingInClosure(db: Database, upstream: bool, root: int, x: int)
    requires Reaches(db.dependencies, upstream, root, x)
    ensures x in Closure(db.dependencies, upstream, root)
  {
    var n: nat :| Path(db.dependencies, upstream, root, x, n);
    if n > 0 {
      var m :| Path(db.dependencies, upstream, root, m, n - 1) && Edge(db.dependencies, upstream, m, x);
      EdgeInUniverse(db.dependencies, upstream, root, m, x);
    }
  }

  /** The lineage of a task: its upstream closure followed by its downstream closure, each
      task once per closure (so the task itself, like every task on a cycle with it, appears
      twice), and exactly the dependency rows leaving each closure in its direction. There is
      no answer if and only if some task of the two closures does not exist. */
  method GetTaskLineage(db: Database, id: int) returns (graph: LineageGraph, missing: Option<int>)
    requires PrimaryKey(db)
    ensures fresh(graph)
    ensures var up := Closure(db.dependencies, true, id); var down := Closure(db.dependencies, false, id);
      && (missing.None? <==> up + down <= db.tasks.Keys)
      && (missing.None? ==>
            && Genuine(db, graph.tasks)
            && multiset(Ids(graph.tasks)) == multiset(up) + multiset(down)
            && multiset(graph.relations) ==
                 RowsLeaving(db.dependencies, true, up) + RowsLeaving(db.dependencies, false, down)
            && forall child, parent :: ListsRows(multiset(graph.relations), db.dependencies, up, down, child, parent))
  {
    graph := new LineageGraph();
    var visited := new Visited();
    ReachesSelf(db.dependencies, true, id);
    ReachesSelf(db.dependencies, false, id);
    missing := BuildLineage(db, id, graph, visited, true, id);
    if missing.Some? {
      MissingInClosure(db, true, id, missing.value);
      return;
    }
    ghost var up := Progress(visited.seen, graph.tasks, graph.relations);
    WholePass(db, true, id, Progress({}, [], []), up);
    assert up.seen - {} == up.seen;
    visited := new Visited();
    missing := BuildLineage(db, id, graph, visited, false, id);
    if missing.Some? {
      MissingInClosure(db, false, id, missing.value);
      return;
    }
    WholePass(db, false, id, up.(seen := {}), Progress(visited.seen, graph.tasks, graph.relations));
    assert visited.seen - {} == visited.seen;
    LineageRows(db.dependencies, up.seen, visited.seen, multiset(graph.relations));
  }

  /** A relation is listed once for each of its rows, in each direction that reaches its tail. */
  ghost predicate ListsRows(all: multiset<Relation>, rows: seq<Dependency>, up: set<int>, down: set<int>,
                            child: int, parent: int) {
    all[Relation(parent, child)] ==
    multiset(rows)[Dependency(child, parent)] * ((if child in up then 1 else 0) + if parent in down then 1 else 0)
  }

  lemma LineageRow(rows: seq<Dependency>, up: set<int>, down: set<int>, child: int, parent: int)
    ensures ListsRows(RowsLeaving(rows, true, up) + RowsLeaving(rows, false, down), rows, up, down, child, parent)
  {
    RowsLeavingExactly(rows, up, child, parent);
    RowsLeavingExactly(rows, down, child, parent);
  }

  lemma LineageRows(rows: seq<Dependency>, up: set<int>, down: set<int>, all: multiset<Relation>)
    requires all == RowsLeaving(rows, true, up) + RowsLeaving(rows, false, down)
    ensures forall child, parent :: ListsRows(all, rows, up, down, child, parent)
  {
    forall child, parent
      ensures ListsRows(all, rows, up, down, child, parent)
    {
      LineageRow(rows, up, down, child, parent);
    }
  }

  class Impact {
    var impacted: seq<TaskNode>

    constructor ()
      ensures impacted == []
    {
      impacted := [];
    }
  }

  /** Like `Pass`, for the list of impacted tasks, which leaves out task `id` itself. */
  ghost predicate ImpactPass(db: Database, root: int, id: int, s0: set<int>, n0: seq<TaskNode>, s1: set<int>,
                             n1: seq<TaskNode>) {
    && s0 + {id} <= s1 && Found(db, false, root, s1 - s0 - {id}) && Genuine(db, n1)
    && ClosedBut(db.dependencies, false, s1, s0)
    && multiset(Ids(n1)) == multiset(Ids(n0)) + multiset(s1 - s0 - {id})
  }

  ghost predicate InImpactLoop(db: Database, root: int, id: int, k: nat, s0: set<int>, n0: seq<TaskNode>,
                               s1: set<int>, n1: seq<TaskNode>) {
    var children := Related(db.dependencies, id, false);
    && s0 + {id} <= s1 && Found(db, false, root, s1 - s0 - {id}) && Genuine(db, n1)
    && k <= |children| && (forall j :: 0 <= j < k ==> children[j] in s1)
    && ClosedBut(db.dependencies, false, s1, s0 + {id})
    && multiset(Ids(n1)) == multiset(Ids(n0)) + multiset(s1 - s0 - {id})
  }

  lemma ImpactLoopStarts(db: Database, root: int, id: int, s0: set<int>, n0: seq<TaskNode>)
    requires Genuine(db, n0) && id !in s0
    ensures InImpactLoop(db, root, id, 0, s0, n0, s0 + {id}, n0)
  {
    assert s0 + {id} - s0 - {id} == {};
  }

  lemma ImpactLoopContinues(db: Database, root: int, id: int, k: nat, s0: set<int>, n0: seq<TaskNode>,
                            s1: set<int>, n1: seq<TaskNode>, s2: set<int>, n2: seq<TaskNode>)
    requires PrimaryKey(db) && InImpactLoop(db, root, id, k, s0, n0, s1, n1) && id !in s0
    requires k < |Related(db.dependencies, id, false)|
    requires var x := Related(db.dependencies, id, false)[k];
      && x !in s1 && Found(db, false, root, {x})
      && ImpactPass(db, root, x, s1, n1 + [db.tasks[x]], s2, n2)
    ensures InImpactLoop(db, root, id, k + 1, s0, n0, s2, n2)
  {
    var x := Related(db.dependencies, id, false)[k];
    IdsAppend(n1, db.tasks[x]);
    NewTasks(s0, s1, s2, id, x);
  }

  lemma NewTasks(s0: set<int>, s1: set<int>, s2: set<int>, id: int, x: int)
    requires s0 + {id} <= s1 && s1 + {x} <= s2 && x !in s1
    ensures s2 - s0 - {id} == (s1 - s0 - {id}) + {x} + (s2 - s1 - {x})
    ensures multiset(s2 - s0 - {id}) == multiset(s1 - s0 - {id}) + multiset{x} + multiset(s2 - s1 - {x})
  {
    assert s2 - s0 - {id} == (s1 - s0 - {id}) + {x} + (s2 - s1 - {x});
  }

  lemma ImpactLoopEnds(db: Database, root: int, id: int, s0: set<int>, n0: seq<TaskNode>, s1: set<int>,
                       n1: seq<TaskNode>)
    requires InImpactLoop(db, root, id, |Related(db.dependencies, id, false)|, s0, n0, s1, n1)
    ensures ImpactPass(db, root, id, s0, n0, s1, n1)
  {
    RelatedIsEdge(db.dependencies, id, false);
  }

  method CollectImpact(db: Database, id: int, visited: Visited, impact: Impact, ghost root: int)
    returns (missing: Option<int>)
    requires PrimaryKey(db) && Genuine(db, impact.impacted) && id !in visited.seen
    requires id in Universe(db.dependencies, false, root) && Reaches(db.dependencies, false, root, id)
    modifies visited, impact
    ensures old(visited.seen) <= visited.seen
    ensures missing.Some? ==>
      && missing.value !in db.tasks && missing.value !in old(visited.seen) + {id}
      && Reaches(db.dependencies, false, root, missing.value)
    ensures missing.None? ==>
      ImpactPass(db, root, id, old(visited.seen), old(impact.impacted), visited.seen, impact.impacted)
    decreases Universe(db.dependencies, false, root) - visited.seen
  {
    ghost var s0, n0 := visited.seen, impact.impacted;
    visited.seen := visited.seen + {id};
    ImpactLoopStarts(db, root, id, s0, n0);
    var children := Related(db.dependencies, id, false);
    for k := 0 to |children|
      invariant InImpactLoop(db, root, id, k, s0, n0, visited.seen, impact.impacted)
    {
      ghost var s1, n1 := visited.seen, impact.impacted;
      NeighbourReached(db, false, root, id, k);
      if children[k] !in visited.seen {
        if children[k] !in db.tasks {
          return Some(children[k]);
        }
        impact.impacted := impact.impacted + [db.tasks[children[k]]];
        missing := CollectImpact(db, children[k], visited, impact, root);
        if missing.Some? {
          return;
        }
        ImpactLoopContinues(db, root, id, k, s0, n0, s1, n1, visited.seen, impact.impacted);
      }
    }
    ImpactLoopEnds(db, root, id, s0, n0, visited.seen, impact.impacted);
    return None;
  }

  /** The tasks affected by a task: exactly the tasks reachable downstream other than the
      task itself, each once, cycles or not. There is no answer if and only if one of them
      does not exist; the task itself need not. */
  method GetTaskImpact(db: Database, id: int) returns (impacted: seq<TaskNode>, missing: Option<int>)
    requires PrimaryKey(db)
    ensures var affected := Closure(db.dependencies, false, id) - {id};
      && (missing.None? <==> affected <= db.tasks.Keys)
      && (missing.None? ==> Genuine(db, impacted) && multiset(Ids(impacted)) == multiset(affected))
  {
    var visited := new Visited();
    var impact := new Impact();
    ReachesSelf(db.dependencies, false, id);
    missing := CollectImpact(db, id, visited, impact, id);
    if missing.Some? {
      MissingInClosure(db, false, id, missing.value);
      return [], missing;
    }
    assert visited.seen - {} - {id} == visited.seen - {id};
    ClosedIsClosure(db.dependencies, false, visited.seen, id);
    return impact.impacted, None;
  }
}
