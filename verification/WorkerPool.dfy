/** The executor's resizable worker pool. The functions on `Pool` values give the effect
    of each operation; the class performs it with the loops of the pool. Workers are
    numbered in the order in which they are started. */
module WorkerPool {
  import opened Prelude

  /** `accepted` lists every task a `Submit` took; `taken` what workers have received. */
  datatype PoolState<T> = PoolState(
    capacity: nat, started: bool, workers: seq<nat>, spawned: nat, cancelled: seq<nat>,
    queue: seq<T>, accepted: seq<T>, taken: seq<T>, dropped: seq<T>)

  datatype Op<T> = Start | Submit(task: T) | Take | Resize(capacity: int)

  function Numbers(from: nat, n: nat): seq<nat> {
    seq(n, i => from + i)
  }

  function Spawn<T>(p: PoolState<T>, n: nat): PoolState<T> {
    p.(workers := p.workers + Numbers(p.spawned, n), spawned := p.spawned + n)
  }

  function Reverse(s: seq<nat>): seq<nat> {
    seq(|s|, i requires 0 <= i < |s| => s[|s| - 1 - i])
  }

  /** The number of workers that shrinking by `excess` stops when w are recorded: the loop
      compares its counter with a length that shrinks as it runs. */
  function Stopped(excess: nat, w: nat): nat {
    Min(excess, (w + 1) / 2)
  }

  function Cancel<T>(p: PoolState<T>, n: nat): PoolState<T>
    requires n <= |p.workers|
  {
    var keep := |p.workers| - n;
    p.(workers := p.workers[..keep], cancelled := p.cancelled + Reverse(p.workers[keep..]))
  }

  /** Moving the queue into a new one of the given room, dropping what does not fit. */
  function Migrate<T>(p: PoolState<T>, room: nat): PoolState<T> {
    var n := Min(|p.queue|, room);
    p.(queue := p.queue[..n], dropped := p.dropped + p.queue[n..])
  }

  function Resized<T>(p: PoolState<T>, capacity: int): PoolState<T> {
    if capacity <= 0 || capacity == p.capacity then p
    else
      var q := if capacity > p.capacity then Spawn(p, capacity - p.capacity)
               else Cancel(p, Stopped(p.capacity - capacity, |p.workers|));
      Migrate(q.(capacity := capacity), 2 * capacity)
  }

  predicate Full<T>(p: PoolState<T>) {
    |p.queue| >= 2 * p.capacity
  }

  function Apply<T>(p: PoolState<T>, op: Op<T>): PoolState<T> {
    match op
    case Start => Spawn(p, p.capacity).(started := true)
    case Submit(t) =>
      // a full queue refuses the task
      if Full(p) then p else p.(queue := p.queue + [t], accepted := p.accepted + [t])
    case Take =>
      if p.queue == [] then p else p.(queue := p.queue[1..], taken := p.taken + [p.queue[0]])
    case Resize(n) => Resized(p, n)
  }

  function New<T>(capacity: nat): PoolState<T> {
    PoolState(capacity, false, [], 0, [], [], [], [], [])
  }

  function After<T>(p: PoolState<T>, ops: seq<Op<T>>): PoolState<T>
    decreases |ops|
  {
    if ops == [] then p else After(Apply(p, ops[0]), ops[1..])
  }

  // ---------------------------------------------------------------- the class

  class Pool<T> {
    var capacity: nat
    var workers: seq<nat>
    var spawned: nat
    var taskCh: seq<T>
    ghost var started: bool
    ghost var cancelled: seq<nat>
    ghost var accepted: seq<T>
    ghost var taken: seq<T>
    ghost var dropped: seq<T>

    constructor (capacity: nat)
      ensures View() == New(capacity)
    {
      this.capacity, workers, spawned, taskCh := capacity, [], 0, [];
      started, cancelled, accepted, taken, dropped := false, [], [], [], [];
    }

    ghost function View(): PoolState<T>
      reads this
    {
      PoolState(capacity, started, workers, spawned, cancelled, taskCh, accepted, taken, dropped)
    }

    method StartWorker()
      modifies this`workers, this`spawned
      ensures View() == Spawn(old(View()), 1)
    {
      workers := workers + [spawned];
      spawned := spawned + 1;
    }

    method Start()
      modifies this`workers, this`spawned, this`started
      ensures View() == Apply(old(View()), Op.Start)
      ensures |workers| == |old(workers)| + capacity && old(workers) <= workers
    {
      started := true;
      ghost var p := View();
      for i := 0 to capacity
        invariant View() == Spawn(p, i)
      {
        StartWorker();
        SpawnOneMore(p, i);
      }
    }

    method Submit(task: T) returns (ok: bool)
      modifies this`taskCh, this`accepted
      ensures View() == Apply(old(View()), Op.Submit(task))
      ensures ok <==> |old(taskCh)| < 2 * capacity
      ensures taskCh == if ok then old(taskCh) + [task] else old(taskCh)
    {
      if |taskCh| < 2 * capacity {
        taskCh := taskCh + [task];
        accepted := accepted + [task];
        return true;
      }
      return false;
    }

    /** A worker receives the head of the queue, if there is one. */
    method Take() returns (task: Option<T>)
      modifies this`taskCh, this`taken
      ensures View() == Apply(old(View()), Op.Take)
      ensures task == if old(taskCh) == [] then None else Some(old(taskCh)[0])
    {
      if |taskCh| == 0 {
        return None;
      }
      task := Some(taskCh[0]);
      taken := taken + [taskCh[0]];
      taskCh := taskCh[1..];
    }

    method UpdateCapacity(newCapacity: int) returns (ok: bool)
      modifies this
      ensures View() == Apply(old(View()), Op.Resize(newCapacity))
      ensures ok == (newCapacity > 0)
      ensures capacity == if ok then newCapacity else old(capacity)
    {
      if newCapacity <= 0 {
        return false;
      }
      var oldCapacity := capacity;
      if newCapacity == oldCapacity {
        return true;
      }
      ghost var p := View();
      if newCapacity > oldCapacity {
        for i := oldCapacity to newCapacity
          invariant View() == Spawn(p, i - oldCapacity)
        {
          StartWorker();
          SpawnOneMore(p, i - oldCapacity);
        }
      } else {
        StopWorkers(oldCapacity - newCapacity);
      }
      capacity := newCapacity;
      MigrateQueue(newCapacity);
      return true;
    }

    /** The shrink loop: both the counter and the number of workers move. */
    method StopWorkers(workersToStop: nat)
      modifies this`workers, this`cancelled
      ensures View() == Cancel(old(View()), Stopped(workersToStop, |old(workers)|))
    {
      ghost var p := View();
      var i := 0;
      while i < workersToStop && i < |workers|
        invariant 0 <= i <= workersToStop && i <= |p.workers| && 2 * i <= |p.workers| + 1
        invariant View() == Cancel(p, i)
        decreases workersToStop - i
      {
        if |workers| > 0 {
          CancelOneMore(p, i);
          cancelled := cancelled + [workers[|workers| - 1]];
          workers := workers[..|workers| - 1];
        }
        i := i + 1;
      }
    }

    /** Draining the closed queue into the new one. */
    method MigrateQueue(newCapacity: nat)
      modifies this`taskCh, this`dropped
      ensures View() == Migrate(old(View()), 2 * newCapacity)
    {
      var oldQueue := taskCh;
      ghost var p := View();
      taskCh := [];
      for i := 0 to |oldQueue|
        invariant taskCh == oldQueue[..Min(i, 2 * newCapacity)]
        invariant dropped == p.dropped + oldQueue[Min(i, 2 * newCapacity)..i]
      {
        var task := oldQueue[i];
        if |taskCh| < 2 * newCapacity {
          taskCh := taskCh + [task];
        } else {
          dropped := dropped + [task];
        }
      }
      ghost var n := Min(|oldQueue|, 2 * newCapacity);
      assert oldQueue[n..|oldQueue|] == oldQueue[n..];
      assert View() == p.(queue := oldQueue[..n], dropped := p.dropped + oldQueue[n..]);
    }
  }

  lemma SpawnOneMore<T>(p: PoolState<T>, n: nat)
    ensures Spawn(Spawn(p, n), 1) == Spawn(p, n + 1)
  {
    assert Numbers(p.spawned, n) + Numbers(p.spawned + n, 1) == Numbers(p.spawned, n + 1);
  }

  lemma CancelOneMore<T>(p: PoolState<T>, n: nat)
    requires n < |p.workers|
    ensures var q := Cancel(p, n);
      && |q.workers| == |p.workers| - n
      && Cancel(p, n + 1) == q.(workers := q.workers[..|q.workers| - 1],
                                cancelled := q.cancelled + [q.workers[|q.workers| - 1]])
  {
    var keep := |p.workers| - n;
    assert Reverse(p.workers[keep - 1..]) == Reverse(p.workers[keep..]) + [p.workers[keep - 1]];
  }

  // ---------------------------------------------------------------- runs

  /** `xs` is what remains of `ys` after leaving some elements out. */
  predicate Subsequence<T(==)>(xs: seq<T>, ys: seq<T>)
    decreases |ys|
  {
    if ys == [] then xs == []
    else
      || (xs != [] && xs[|xs| - 1] == ys[|ys| - 1] && Subsequence(xs[..|xs| - 1], ys[..|ys| - 1]))
      || Subsequence(xs, ys[..|ys| - 1])
  }

  lemma {:induction false} SubsequenceDropLast<T>(xs: seq<T>, ys: seq<T>)
    requires xs != [] && Subsequence(xs, ys)
    ensures Subsequence(xs[..|xs| - 1], ys)
    decreases |ys|
  {
    if Subsequence(xs, ys[..|ys| - 1]) {
      SubsequenceDropLast(xs, ys[..|ys| - 1]);
    }
  }

  lemma {:induction false} SubsequencePrefix<T>(xs: seq<T>, ys: seq<T>, n: nat)
    requires n <= |xs| && Subsequence(xs, ys)
    ensures Subsequence(xs[..n], ys)
    decreases |xs|
  {
    if n < |xs| {
      SubsequenceDropLast(xs, ys);
      SubsequencePrefix(xs[..|xs| - 1], ys, n);
      assert xs[..|xs| - 1][..n] == xs[..n];
    } else {
      assert xs[..n] == xs;
    }
  }

  lemma SubsequenceAppend<T>(xs: seq<T>, ys: seq<T>, t: T)
    requires Subsequence(xs, ys)
    ensures Subsequence(xs + [t], ys + [t])
  {
    assert (xs + [t])[..|xs|] == xs && (ys + [t])[..|ys|] == ys;
  }

  /** Workers are recorded oldest first; every worker ever started is recorded or cancelled. */
  ghost predicate WorkersFit<T>(p: PoolState<T>) {
    && (p.started ==> |p.workers| >= p.capacity)
    && |p.workers| + |p.cancelled| == p.spawned
    && (forall i :: 0 <= i < |p.workers| ==> p.workers[i] < p.spawned)
    && (forall i, j :: 0 <= i < j < |p.workers| ==> p.workers[i] < p.workers[j])
  }

  /** No task is lost or invented, and tasks are taken in the order of acceptance. */
  ghost predicate TasksFit<T>(p: PoolState<T>) {
    && |p.queue| <= 2 * p.capacity
    && multiset(p.accepted) == multiset(p.queue) + multiset(p.taken) + multiset(p.dropped)
    && Subsequence(p.taken + p.queue, p.accepted)
  }

  lemma MigrateFits<T>(p: PoolState<T>, capacity: nat)
    requires multiset(p.accepted) == multiset(p.queue) + multiset(p.taken) + multiset(p.dropped)
    requires Subsequence(p.taken + p.queue, p.accepted)
    ensures TasksFit(Migrate(p.(capacity := capacity), 2 * capacity))
  {
    var n := Min(|p.queue|, 2 * capacity);
    assert p.queue == p.queue[..n] + p.queue[n..];
    SubsequencePrefix(p.taken + p.queue, p.accepted, |p.taken| + n);
    assert (p.taken + p.queue)[..|p.taken| + n] == p.taken + p.queue[..n];
  }

  lemma SubmitKeepsTasks<T>(p: PoolState<T>, t: T)
    requires TasksFit(p)
    ensures TasksFit(Apply(p, Submit(t)))
  {
    SubsequenceAppend(p.taken + p.queue, p.accepted, t);
    assert p.taken + p.queue + [t] == p.taken + (p.queue + [t]);
  }

  lemma TakeKeepsTasks<T>(p: PoolState<T>)
    requires TasksFit(p)
    ensures TasksFit(Apply(p, Take))
  {
    if p.queue != [] {
      assert p.queue == [p.queue[0]] + p.queue[1..];
      assert p.taken + [p.queue[0]] + p.queue[1..] == p.taken + p.queue;
    }
  }

  lemma ResizeKeepsTasks<T>(p: PoolState<T>, n: int)
    requires TasksFit(p)
    ensures TasksFit(Apply(p, Resize(n)))
  {
    if n > 0 && n != p.capacity {
      var q := if n > p.capacity then Spawn(p, n - p.capacity)
               else Cancel(p, Stopped(p.capacity - n, |p.workers|));
      MigrateFits(q, n);
    }
  }

  lemma ApplyKeepsTasks<T>(p: PoolState<T>, op: Op<T>)
    requires TasksFit(p)
    ensures TasksFit(Apply(p, op))
  {
    match op
    case Start =>
    case Submit(t) => SubmitKeepsTasks(p, t);
    case Take => TakeKeepsTasks(p);
    case Resize(n) => ResizeKeepsTasks(p, n);
  }

  lemma ApplyKeepsWorkers<T>(p: PoolState<T>, op: Op<T>)
    requires WorkersFit(p)
    ensures WorkersFit(Apply(p, op))
  {
  }

  lemma {:induction false} RunFits<T>(p: PoolState<T>, ops: seq<Op<T>>)
    requires WorkersFit(p) && TasksFit(p)
    ensures WorkersFit(After(p, ops)) && TasksFit(After(p, ops))
    decreases |ops|
  {
    if ops != [] {
      ApplyKeepsTasks(p, ops[0]);
      ApplyKeepsWorkers(p, ops[0]);
      RunFits(Apply(p, ops[0]), ops[1..]);
    }
  }

  /** In every run of a new pool, each accepted task is exactly one of queued, taken or
      dropped, tasks leave in the order in which they were accepted, and once started the
      pool records at least as many workers as its capacity. */
  lemma EveryRunFits<T>(capacity: nat, ops: seq<Op<T>>)
    ensures WorkersFit(After(New(capacity), ops)) && TasksFit(After(New(capacity), ops))
  {
    var p: PoolState<T> := New(capacity);
    assert p.taken + p.queue == [];
    RunFits(p, ops);
  }

  /** What a resize does to the queue: it keeps the longest prefix that fits, and drops
      something exactly when more than twice the new capacity is waiting, so never by growing. */
  lemma ResizeKeepsPrefix<T>(p: PoolState<T>, n: int)
    requires TasksFit(p) && n > 0 && n != p.capacity
    ensures var q := Apply(p, Resize(n));
      && p.queue == q.queue + q.dropped[|p.dropped|..]
      && |q.queue| == Min(|p.queue|, 2 * n)
      && (q.dropped == p.dropped <==> |p.queue| <= 2 * n)
      && (n > p.capacity ==> q.dropped == p.dropped)
  {
  }

  /** Growing starts one worker for each unit of capacity and stops none. */
  lemma GrowStartsWorkers<T>(p: PoolState<T>, n: int)
    requires n > p.capacity
    ensures var q := Apply(p, Resize(n));
      && p.workers <= q.workers && |q.workers| == |p.workers| + n - p.capacity
      && q.cancelled == p.cancelled && q.capacity == n
      && forall i :: |p.workers| <= i < |q.workers| ==> q.workers[i] == p.spawned + i - |p.workers|
  {
  }

  /** What shrinking does to the workers: of w recorded it stops min(c - n, ceil(w / 2)),
      the newest ones, newest first. */
  lemma ShrinkStopsNewest<T>(p: PoolState<T>, n: int)
    requires 0 < n < p.capacity
    ensures var q := Apply(p, Resize(n)); var k := |p.workers| - |q.workers|;
      && k == Min(p.capacity - n, (|p.workers| + 1) / 2)
      && q.workers == p.workers[..|p.workers| - k]
      && |q.cancelled| == |p.cancelled| + k
      && (forall j :: |p.cancelled| <= j < |q.cancelled| ==>
            q.cancelled[j] == p.workers[|p.workers| - 1 - (j - |p.cancelled|)])
  {
  }

  /** With as many workers as its capacity, a pool keeps that equality through a resize if
      and only if it does not shrink below half its capacity. */
  lemma EqualityKeptExactly<T>(p: PoolState<T>, n: int)
    requires |p.workers| == p.capacity && n > 0
    ensures |Apply(p, Resize(n)).workers| == Apply(p, Resize(n)).capacity <==> n >= p.capacity / 2
  {
  }

  predicate GentleOp<T>(p: PoolState<T>, op: Op<T>) {
    !op.Start? && (op.Resize? ==> op.capacity <= 0 || op.capacity >= p.capacity / 2)
  }

  predicate Gentle<T>(p: PoolState<T>, ops: seq<Op<T>>)
    decreases |ops|
  {
    ops == [] || (GentleOp(p, ops[0]) && Gentle(Apply(p, ops[0]), ops[1..]))
  }

  /** A pool that never shrinks below half records exactly as many workers as its capacity. */
  lemma {:induction false} GentleRunsAreExact<T>(p: PoolState<T>, ops: seq<Op<T>>)
    requires |p.workers| == p.capacity && Gentle(p, ops)
    ensures |After(p, ops).workers| == After(p, ops).capacity
    decreases |ops|
  {
    if ops != [] {
      if ops[0].Resize? && ops[0].capacity > 0 {
        EqualityKeptExactly(p, ops[0].capacity);
      }
      GentleRunsAreExact(Apply(p, ops[0]), ops[1..]);
    }
  }
}
