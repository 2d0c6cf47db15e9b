/** How an executor picks a scheduler: it probes the configured addresses in rotation,
    prefers the first leader, and otherwise falls back on the first scheduler that answers. */
module SchedulerProbe {
  import opened Prelude

  /** What probing an address brings: no connection, a connection whose heartbeat fails, or
      an answer. `probes[i]` is the outcome of the i-th attempt of one call. */
  datatype Probe = Unreachable | Silent | Leader | Follower {
    predicate Opens() {
      !Unreachable?
    }
  }

  /** The first attempt with the given outcome. */
  function First(probes: seq<Probe>, p: Probe): (i: Option<nat>)
    ensures i.Some? ==> i.value < |probes| && probes[i.value] == p
    ensures i.Some? ==> forall j :: 0 <= j < i.value ==> probes[j] != p
    ensures i.None? ==> p !in probes
  {
    if probes == [] then None
    else
      var n := |probes| - 1;
      var r := First(probes[..n], p);
      if r.Some? then r else if probes[n] == p then Some(n) else None
  }

  class MultiClient {
    const schedulerAddrs: seq<string>
    var currentIndex: nat
    var isConnected: bool
    var conn: Option<nat>       // the attempt whose connection is stored
    ghost var open: set<nat>    // attempts of the last call whose connection is still open
    ghost var probed: seq<string>

    constructor (addrs: seq<string>)
      requires addrs != []
      ensures schedulerAddrs == addrs && currentIndex == 0 && !isConnected && conn == None
    {
      schedulerAddrs, currentIndex, isConnected, conn := addrs, 0, false, None;
      open, probed := {}, [];
    }

    function CurrentAddr(): string
      requires schedulerAddrs != []
      reads this`currentIndex
    {
      schedulerAddrs[currentIndex % |schedulerAddrs|]
    }

    /** Address of the i-th attempt of a call that starts at index `from`. */
    function Rotation(from: nat, i: nat): string
      requires schedulerAddrs != []
    {
      schedulerAddrs[(from + i) % |schedulerAddrs|]
    }

    function Rotations(from: nat, n: nat): seq<string>
      requires schedulerAddrs != []
    {
      if n == 0 then [] else Rotations(from, n - 1) + [Rotation(from, n - 1)]
    }

    lemma {:induction false} RotationsAre(from: nat, n: nat)
      requires schedulerAddrs != []
      ensures |Rotations(from, n)| == n && InRotation(schedulerAddrs, from, Rotations(from, n))
      ensures forall i :: 0 <= i < n ==> Rotations(from, n)[i] == Rotation(from, i)
    {
      if n > 0 {
        RotationsAre(from, n - 1);
      }
    }

    /** One attempt, the i-th of its call: a leader is stored at once, a follower's
        connection stays open when the call has no fallback yet. */
    method TryScheduler(probe: Probe, i: nat, keep: bool) returns (addr: string)
      requires schedulerAddrs != [] && i !in open
      modifies this
      ensures addr == Rotation(old(currentIndex), 0) && probed == old(probed) + [addr]
      ensures addr == schedulerAddrs[old(currentIndex) % |schedulerAddrs|]
      ensures open == if probe == Leader || (probe == Follower && keep) then old(open) + {i} else old(open)
      ensures currentIndex == old(currentIndex) + if probe == Leader then 0 else 1
      ensures conn == if probe == Leader then Some(i) else old(conn)
      ensures isConnected == (old(isConnected) || probe == Leader)
    {
      addr := CurrentAddr();
      probed := probed + [addr];
      if probe == Unreachable {
        currentIndex := currentIndex + 1;
        return;
      }
      open := open + {i};
      if probe == Silent {
        open := open - {i};
        currentIndex := currentIndex + 1;
        return;
      }
      if probe == Leader {
        conn := Some(i);
        isConnected := true;
        return;
      }
      if !keep {
        open := open - {i};
      }
      currentIndex := currentIndex + 1;
    }

    /** One call: probes in rotation order, each address position once, until a leader
        answers. Every other connection is closed again, except that of the first follower
        met before a leader. */
    method ConnectToScheduler(probes: seq<Probe>) returns (addr: string)
      requires schedulerAddrs != [] && |probes| == |schedulerAddrs|
      modifies this
      ensures probed == Rotations(old(currentIndex), Attempts(probes))
      ensures currentIndex == old(currentIndex) + Moves(probes)
      ensures isConnected == Chosen(probes).Some?
      ensures conn == (if Chosen(probes).Some? then Chosen(probes) else old(conn))
      ensures addr == if Chosen(probes).Some? then Rotation(old(currentIndex), Chosen(probes).value) else ""
      ensures open == Elements(First(probes, Leader)) + Elements(First(probes[..Attempts(probes)], Follower))
      ensures InRotation(schedulerAddrs, old(currentIndex), probed)
      ensures forall i :: 0 <= i < |probes| && probes[i] == Leader && Leader !in probes[..i] ==>
        && |probed| == i + 1 && currentIndex == old(currentIndex) + i
        && isConnected && conn == Some(i) && addr == probed[i]
      ensures Leader !in probes ==> |probed| == |probes| && currentIndex == old(currentIndex) + |probes|
      ensures Leader !in probes ==>
        forall i :: 0 <= i < |probes| && probes[i] == Follower && Follower !in probes[..i] ==>
          isConnected && conn == Some(i) && addr == probed[i]
      ensures Leader !in probes && Follower !in probes ==> !isConnected && conn == old(conn) && addr == ""
    {
      open, probed := {}, [];
      ghost var from := currentIndex;
      Chooses(probes);
      RotationsAre(from, Attempts(probes));
      var leader, fallback, fallbackAddr := SeekLeader(probes);
      if leader.Some? {
        return leader.value;
      }
      if fallback.Some? {
        conn := fallback;
        isConnected := true;
        return fallbackAddr;
      }
      isConnected := false;
      return "";
    }

    /** The loop over the addresses: the address of the first leader, or else the first
        follower, if any. */
    method SeekLeader(probes: seq<Probe>)
      returns (leader: Option<string>, fallback: Option<nat>, fallbackAddr: string)
      requires schedulerAddrs != [] && |probes| == |schedulerAddrs| && open == {} && probed == []
      modifies this
      ensures probed == Rotations(old(currentIndex), Attempts(probes))
      ensures currentIndex == old(currentIndex) + Moves(probes)
      ensures open == Elements(First(probes, Leader)) + Elements(First(probes[..Attempts(probes)], Follower))
      ensures leader.Some? == First(probes, Leader).Some?
      ensures leader.Some? ==>
        && conn == Chosen(probes) && isConnected
        && leader.value == Rotation(old(currentIndex), First(probes, Leader).value)
      ensures leader.None? ==> conn == old(conn) && fallback == Chosen(probes)
      ensures leader.None? && fallback.Some? ==> fallbackAddr == Rotation(old(currentIndex), fallback.value)
    {
      ghost var from := currentIndex;
      leader, fallback, fallbackAddr := None, None, "";
      for i := 0 to |schedulerAddrs|
        invariant currentIndex == from + i && conn == old(conn)
        invariant probed == Rotations(from, i)
        invariant First(probes[..i], Leader) == None && leader == None
        invariant fallback == First(probes[..i], Follower) && open == Elements(fallback)
        invariant fallback.Some? ==> fallbackAddr == Rotation(from, fallback.value)
      {
        FirstOfLonger(probes, i, Leader);
        FirstOfLonger(probes, i, Follower);
        var addr := TryScheduler(probes[i], i, fallback == None);
        if probes[i] == Leader {
          LeaderEnds(probes, i);
          leader := Some(addr);
          return;
        }
        if probes[i] == Follower && fallback == None {
          fallback := Some(i);
          fallbackAddr := addr;
        }
      }
      NoLeaderEnds(probes);
    }
  }

  /** The i-th address is the one i positions after `from`, counted round the list. */
  ghost predicate InRotation(addrs: seq<string>, from: nat, probed: seq<string>) {
    |addrs| > 0 && forall i :: 0 <= i < |probed| ==> probed[i] == addrs[(from + i) % |addrs|]
  }

  /** Which attempt counts: the first leader, else the first follower. */
  lemma Chooses(probes: seq<Probe>)
    ensures forall i :: 0 <= i < |probes| && probes[i] == Leader && Leader !in probes[..i] ==>
      Attempts(probes) == i + 1 && Moves(probes) == i && Chosen(probes) == Some(i)
    ensures Leader !in probes ==> Attempts(probes) == |probes| && Moves(probes) == |probes|
    ensures Leader !in probes ==> forall i :: 0 <= i < |probes| && probes[i] == Follower && Follower !in probes[..i] ==>
      Chosen(probes) == Some(i)
    ensures Leader !in probes && Follower !in probes ==> Chosen(probes) == None
  {
    forall i, p | 0 <= i < |probes| && probes[i] == p && p !in probes[..i]
      ensures First(probes, p) == Some(i)
    {
      assert forall j :: 0 <= j < i ==> probes[j] == probes[..i][j];
      FirstIs(probes, i);
    }
  }

  /** How many attempts a call makes, and by how much it moves the index. */
  function Attempts(probes: seq<Probe>): (n: nat)
    ensures n <= |probes|
  {
    var leader := First(probes, Leader);
    if leader.Some? then leader.value + 1 else |probes|
  }

  function Moves(probes: seq<Probe>): nat {
    First(probes, Leader).GetOr(|probes|)
  }

  /** The attempt whose connection a call keeps for use. */
  function Chosen(probes: seq<Probe>): Option<nat> {
    var leader := First(probes, Leader);
    if leader.Some? then leader else First(probes, Follower)
  }

  function Elements(o: Option<nat>): set<nat> {
    if o.Some? then {o.value} else {}
  }

  lemma {:induction false} FirstIs(probes: seq<Probe>, i: nat)
    requires i < |probes| && forall j :: 0 <= j < i ==> probes[j] != probes[i]
    ensures First(probes, probes[i]) == Some(i)
  {
    var r := First(probes, probes[i]);
    assert probes[i] in probes;
    assert !(r.value < i) && !(i < r.value);
  }

  /** One more outcome. */
  lemma FirstOfLonger(probes: seq<Probe>, i: nat, p: Probe)
    requires i < |probes|
    ensures First(probes[..i + 1], p)
         == if First(probes[..i], p).Some? then First(probes[..i], p) else if probes[i] == p then Some(i) else None
  {
    var longer := probes[..i + 1];
    assert longer[..i] == probes[..i];
  }

  lemma LeaderEnds(probes: seq<Probe>, i: nat)
    requires i < |probes| && probes[i] == Leader && First(probes[..i], Leader) == None
    ensures First(probes, Leader) == Some(i)
    ensures Attempts(probes) == i + 1 && Moves(probes) == i && Chosen(probes) == Some(i)
  {
    forall j | 0 <= j < i
      ensures probes[j] != Leader
    {
      assert probes[j] in probes[..i];
    }
    FirstIs(probes, i);
  }

  lemma NoLeaderEnds(probes: seq<Probe>)
    requires First(probes[..|probes|], Leader) == None
    ensures First(probes, Leader) == None && probes[..|probes|] == probes
    ensures Attempts(probes) == Moves(probes) == |probes| && Chosen(probes) == First(probes, Follower)
  {
    assert probes[..|probes|] == probes;
  }

  lemma Multiples(k: int, n: nat)
    ensures k >= 1 ==> k * n >= n
    ensures k <= 0 ==> k * n <= 0
  {
  }

  /** Two numbers less than a round apart, or a full round, share the remainder only if they
      are equal or a full round apart. */
  lemma SameRemainder(n: nat, x: nat, y: nat)
    requires x < y <= x + n
    ensures x % n == y % n <==> y == x + n
  {
    var k := y / n - x / n;
    assert y - x == k * n + (y % n - x % n) by {
      assert x == (x / n) * n + x % n && y == (y / n) * n + y % n;
      assert k * n == (y / n) * n - (x / n) * n;
    }
    Multiples(k, n);
    Multiples(k - 1, n);
    assert (k - 1) * n == k * n - n;
  }

  /** Within one call no two attempts use the same position of the list, and a full round
      without a leader starts the next call at the same position. */
  lemma RotationIsFair(n: nat, from: nat, i: nat, j: nat)
    requires i < j <= n
    ensures (from + i) % n == (from + j) % n <==> i == 0 && j == n
  {
    SameRemainder(n, from + i, from + j);
  }

  /** A quotient and a remainder are unique. */
  lemma RemainderOf(n: nat, q: nat, k: nat)
    requires k < n
    ensures (q * n + k) % n == k
  {
    var y := q * n + k;
    var d := q - y / n;
    assert d * n == y % n - k by {
      assert y == (y / n) * n + y % n;
      assert d * n == q * n - (y / n) * n;
    }
    Multiples(d, n);
    Multiples(-d, n);
    assert -d * n == -(d * n);
  }

  /** What a call probes: with distinct addresses no address twice, and in a round without a
      leader every address. */
  lemma ProbesCoverTheList(addrs: seq<string>, from: nat, probed: seq<string>)
    requires InRotation(addrs, from, probed) && |probed| <= |addrs|
    requires forall i, j :: 0 <= i < j < |addrs| ==> addrs[i] != addrs[j]
    ensures forall i, j :: 0 <= i < j < |probed| ==> probed[i] != probed[j]
    ensures |probed| == |addrs| ==> forall a :: a in addrs ==> a in probed
  {
    var n := |addrs|;
    forall i, j | 0 <= i < j < |probed|
      ensures probed[i] != probed[j]
    {
      RotationIsFair(n, from, i, j);
    }
    forall k | 0 <= k < n && |probed| == n
      ensures addrs[k] in probed
    {
      var r := from % n;
      var i := if k >= r then k - r else k - r + n;
      var q := from / n + if k >= r then 0 else 1;
      assert from + i == q * n + k by {
        assert from == (from / n) * n + r;
        assert q * n == (from / n) * n + if k >= r then 0 else n;
      }
      RemainderOf(n, q, k);
      assert probed[i] == addrs[k];
    }
  }
}
