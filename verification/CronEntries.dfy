/** The cron scheduler's bookkeeping: the map from task ids to cron entries against the
    entries of the cron library, which runs a function for each of them. */
module CronEntries {
  import opened Prelude

  type TaskId = int
  type EntryId = nat

  /** The cron library: its live entries, with the task each one triggers. */
  class Cron {
    var entries: map<EntryId, TaskId>
    var nextId: EntryId

    constructor ()
      ensures entries == map[] && nextId == 1
    {
      entries, nextId := map[], 1;
    }

    ghost predicate Valid()
      reads this
    {
      forall e :: e in entries ==> e < nextId
    }

    /** `valid` says whether the expression parses. */
    method AddFunc(t: TaskId, valid: bool) returns (ok: bool, id: EntryId)
      requires Valid()
      modifies this
      ensures Valid() && ok == valid
      ensures ok ==> id == old(nextId) < nextId && entries == old(entries)[id := t]
      ensures !ok ==> entries == old(entries) && nextId == old(nextId)
    {
      if !valid {
        return false, 0;
      }
      id := nextId;
      nextId := nextId + 1;
      entries := entries[id := t];
      return true, id;
    }

    method Remove(id: EntryId)
      requires Valid()
      modifies this`entries
      ensures Valid() && entries == old(entries) - {id}
    {
      entries := entries - {id};
    }
  }

  /** Each known task has its own entry, and there are no other entries. */
  ghost predicate Agree(taskEntries: map<TaskId, EntryId>, entries: map<EntryId, TaskId>) {
    && (forall t :: t in taskEntries ==> taskEntries[t] in entries && entries[taskEntries[t]] == t)
    && (forall e :: e in entries ==> entries[e] in taskEntries && taskEntries[entries[e]] == e)
  }

  /** How often a tick that is due for every entry runs a task: once for each of its entries. */
  ghost function RunsPerTick(entries: map<EntryId, TaskId>, t: TaskId): nat {
    |set e | e in entries && entries[e] == t|
  }

  /** When the two agree, a tick runs each registered task exactly once, and no other. */
  lemma TickRunsEachOnce(taskEntries: map<TaskId, EntryId>, entries: map<EntryId, TaskId>, t: TaskId)
    requires Agree(taskEntries, entries)
    ensures RunsPerTick(entries, t) == if t in taskEntries then 1 else 0
  {
    var own := set e | e in entries && entries[e] == t;
    assert own == if t in taskEntries then {taskEntries[t]} else {};
  }

  /** When the two agree, they are inverse bijections. */
  lemma AgreeIsBijection(taskEntries: map<TaskId, EntryId>, entries: map<EntryId, TaskId>)
    requires Agree(taskEntries, entries)
    ensures entries.Values == taskEntries.Keys && taskEntries.Values == entries.Keys
    ensures forall e, f :: e in entries && f in entries && entries[e] == entries[f] ==> e == f
  {
    forall t | t in taskEntries.Keys ensures t in entries.Values {
      assert entries[taskEntries[t]] == t;
    }
    forall e | e in entries.Keys ensures e in taskEntries.Values {
      assert taskEntries[entries[e]] == e;
    }
  }

  // ---------------------------------------------------------------- histories

  /** The registered tasks, and whether the node leads. */
  datatype Table = Table(tasks: set<TaskId>, leads: bool)

  datatype Op =
    | Register(task: TaskId, parses: bool)
    | Unregister(task: TaskId)
    | Gain
    | Lose

  function Apply(b: Table, op: Op): Table {
    match op
    case Register(t, parses) => b.(tasks := if parses then b.tasks + {t} else b.tasks - {t})
    case Unregister(t) => b.(tasks := b.tasks - {t})
    case Gain => b.(leads := true)
    case Lose => if b.leads then Table({}, false) else b
  }

  function After(b: Table, ops: seq<Op>): Table {
    if ops == [] then b else Apply(After(b, ops[..|ops| - 1]), ops[|ops| - 1])
  }

  /** The node leads exactly from a gain to the next loss. */
  predicate Leads(ops: seq<Op>, before: bool) {
    if ops == [] then before
    else
      var last := ops[|ops| - 1];
      last.Gain? || (!last.Lose? && Leads(ops[..|ops| - 1], before))
  }

  /** Does operation i of the history put an end to the registration of `t`? A loss of
      leadership does if there was any to lose. */
  predicate Ends(ops: seq<Op>, i: nat, t: TaskId)
    requires i < |ops|
  {
    match ops[i]
    case Register(u, _) => u == t
    case Unregister(u) => u == t
    case Gain => false
    case Lose => Leads(ops[..i], false)
  }

  lemma {:induction false} LeadsExactly(ops: seq<Op>)
    ensures After(Table({}, false), ops).leads == Leads(ops, false)
  {
    if ops != [] {
      LeadsExactly(ops[..|ops| - 1]);
    }
  }

  ghost predicate RegisteredBy(ops: seq<Op>, i: nat, t: TaskId) {
    && i < |ops| && ops[i] == Register(t, true)
    && forall j :: i < j < |ops| ==> !Ends(ops, j, t)
  }

  /** Over every history a task is registered if and only if its last registration parsed
      and neither an unregistration nor a loss of leadership came after it. */
  lemma {:induction false} RegisteredExactly(ops: seq<Op>, t: TaskId)
    ensures t in After(Table({}, false), ops).tasks <==> exists i: nat :: RegisteredBy(ops, i, t)
  {
    if ops != [] {
      var n := |ops| - 1;
      var before := ops[..n];
      RegisteredExactly(before, t);
      LeadsExactly(before);
      forall i: nat | i < n
        ensures RegisteredBy(ops, i, t) <==> RegisteredBy(before, i, t) && !Ends(ops, n, t)
      {
        RegisteredBefore(ops, i, t);
      }
      assert RegisteredBy(ops, n, t) <==> ops[n] == Register(t, true);
    }
  }

  lemma RegisteredBefore(ops: seq<Op>, i: nat, t: TaskId)
    requires ops != [] && i < |ops| - 1
    ensures RegisteredBy(ops, i, t) <==> RegisteredBy(ops[..|ops| - 1], i, t) && !Ends(ops, |ops| - 1, t)
  {
    var before := ops[..|ops| - 1];
    forall j: nat | j < |before|
      ensures Ends(before, j, t) == Ends(ops, j, t)
    {
      assert before[..j] == ops[..j];
    }
  }

  /** A task as the database lists it, with how its expression parses. */
  datatype Task = Task(id: TaskId, scheduled: bool, sixFields: bool, fiveFields: bool)

  function Registering(t: Task): Op {
    Register(t.id, t.sixFields || t.fiveFields)
  }

  /** What loading a list of tasks does: it registers those that are enabled and have an
      expression. */
  function Loading(tasks: seq<Task>): seq<Op> {
    if tasks == [] then []
    else
      var n := |tasks| - 1;
      Loading(tasks[..n]) + if tasks[n].scheduled then [Registering(tasks[n])] else []
  }

  lemma LoadingOneMore(b: Table, tasks: seq<Task>, i: nat)
    requires i < |tasks|
    ensures After(b, Loading(tasks[..i + 1])) ==
            if tasks[i].scheduled
            then Apply(After(b, Loading(tasks[..i])), Registering(tasks[i]))
            else After(b, Loading(tasks[..i]))
  {
    assert tasks[..i + 1][..i] == tasks[..i];
    var ops := Loading(tasks[..i]);
    if tasks[i].scheduled {
      var op := Registering(tasks[i]);
      assert (ops + [op])[..|ops|] == ops;
    } else {
      assert ops + [] == ops;
    }
  }

  class CronScheduler {
    const cron: Cron
    var taskEntries: map<TaskId, EntryId>
    var isLeader: bool
    var started: bool

    constructor (cron: Cron)
      requires cron.Valid() && cron.entries == map[]
      ensures this.cron == cron && Valid() && taskEntries == map[] && !started
      ensures View() == Table({}, false)
    {
      this.cron := cron;
      taskEntries, isLeader, started := map[], false, false;
    }

    ghost function View(): Table
      reads this
    {
      Table(taskEntries.Keys, isLeader)
    }

    ghost predicate Valid()
      reads this, cron
    {
      cron.Valid() && Agree(taskEntries, cron.entries)
    }

    /** Registers a task under a six-field expression, or a five-field one with a seconds
        field put in front. An expression that parses neither way leaves the task unscheduled,
        even when it was scheduled before. */
    method RegisterTask(t: TaskId, sixFields: bool, fiveFields: bool)
      requires Valid()
      modifies this`taskEntries, cron
      ensures Valid() && View() == Apply(old(View()), Register(t, sixFields || fiveFields))
      ensures sixFields || fiveFields ==> taskEntries[t] !in old(cron.entries)
      ensures forall u :: u != t && u in old(taskEntries) ==>
        u in taskEntries && taskEntries[u] == old(taskEntries)[u]
    {
      if t in taskEntries {
        cron.Remove(taskEntries[t]);
        taskEntries := taskEntries - {t};
      }
      assert Agree(taskEntries, cron.entries);
      ghost var left := cron.entries;
      var ok, id := cron.AddFunc(t, sixFields);
      if !ok && fiveFields {
        ok, id := cron.AddFunc(t, fiveFields);
      }
      if !ok {
        return;
      }
      taskEntries := taskEntries[t := id];
      assert cron.entries == left[id := t];
    }

    method UnregisterTask(t: TaskId)
      requires Valid()
      modifies this`taskEntries, cron`entries
      ensures Valid() && View() == Apply(old(View()), Unregister(t))
      ensures taskEntries == old(taskEntries) - {t}
      ensures t !in cron.entries.Values
    {
      if t in taskEntries {
        cron.Remove(taskEntries[t]);
        taskEntries := taskEntries - {t};
      }
    }

    /** A node that was not leader starts the cron library, once for all, and then loads
        its tasks; one that was does nothing. */
    method OnBecomeLeader() returns (loads: bool)
      requires Valid()
      modifies this`isLeader, this`started
      ensures Valid() && View() == Apply(old(View()), Gain)
      ensures taskEntries == old(taskEntries) && loads == !old(isLeader)
      ensures started == (old(started) || loads)
    {
      if isLeader {
        return false;
      }
      isLeader := true;
      if !started {
        started := true;
      }
      return true;
    }

    /** Loads the listed tasks, until the leadership is lost after `leaderFor` of them. */
    method LoadAndRegisterTasks(tasks: seq<Task>, leaderFor: nat)
      requires Valid()
      modifies this`taskEntries, cron
      ensures Valid()
      ensures View() == After(old(View()), Loading(tasks[..Min(leaderFor, |tasks|)]))
    {
      for i := 0 to |tasks|
        invariant Valid() && i <= leaderFor && View() == After(old(View()), Loading(tasks[..i]))
      {
        if i == leaderFor {
          return;
        }
        LoadingOneMore(old(View()), tasks, i);
        if tasks[i].scheduled {
          RegisterTask(tasks[i].id, tasks[i].sixFields, tasks[i].fiveFields);
        }
      }
      assert tasks[..|tasks|] == tasks;
    }

    /** Losing leadership removes every entry; a node that is not the leader does nothing. */
    method OnLoseLeader()
      requires Valid()
      modifies this, cron`entries
      ensures Valid() && View() == Apply(old(View()), Lose)
      ensures old(isLeader) ==> taskEntries == map[] && cron.entries == map[]
      ensures !old(isLeader) ==> taskEntries == old(taskEntries) && cron.entries == old(cron.entries)
    {
      if !isLeader {
        return;
      }
      isLeader := false;
      var todo := taskEntries.Keys;
      while todo != {}
        invariant todo <= taskEntries.Keys && taskEntries == old(taskEntries) && !isLeader && cron.Valid()
        invariant forall t :: t in todo ==> taskEntries[t] in cron.entries && cron.entries[taskEntries[t]] == t
        invariant forall e :: e in cron.entries ==> cron.entries[e] in todo && taskEntries[cron.entries[e]] == e
        decreases todo
      {
        var t :| t in todo;
        cron.Remove(taskEntries[t]);
        todo := todo - {t};
      }
      assert forall e :: e !in cron.entries;
      taskEntries := map[];
    }
  }
}
