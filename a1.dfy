/**
 * a1/A1RuntimeInterface.java: a registry of runtimes that run in one
 * process, started one after another at their start times. Sleeping is
 * replaced by the sequence of delays the start loop would sleep.
 */
module A1 {
  import opened Wrappers
  import opened Throwables
  import opened Runtimes

  // ------------------------------------------------ ordering by start time

  /** Every runtime in rs has a start time. */
  predicate Keyed<R>(rs: seq<R>, key: map<R, int>) {
    forall i :: 0 <= i < |rs| ==> rs[i] in key
  }

  predicate SortedBy<R>(rs: seq<R>, key: map<R, int>)
    requires Keyed(rs, key)
  {
    forall i, j :: 0 <= i < j < |rs| ==> key[rs[i]] <= key[rs[j]]
  }

  /** Each runtime starts no earlier than the one before it. */
  predicate Ascending<R>(rs: seq<R>, key: map<R, int>)
    requires Keyed(rs, key)
  {
    forall k :: 0 < k < |rs| ==> key[rs[k - 1]] <= key[rs[k]]
  }

  /** Insert x before the first element with a later start, i.e. after every equal one. */
  function InsertByStart<R>(x: R, sorted: seq<R>, key: map<R, int>): (r: seq<R>)
    requires x in key && Keyed(sorted, key)
    ensures |r| == |sorted| + 1 && Keyed(r, key)
    ensures multiset(r) == multiset(sorted) + multiset{x}
    decreases |sorted|
  {
    if sorted == [] then [x]
    else if key[x] < key[sorted[0]] then [x] + sorted
    else
      assert sorted == [sorted[0]] + sorted[1..];
      [sorted[0]] + InsertByStart(x, sorted[1..], key)
  }

  lemma {:induction false} InsertKeepsSorted<R>(x: R, sorted: seq<R>, key: map<R, int>)
    requires x in key && Keyed(sorted, key) && SortedBy(sorted, key)
    ensures SortedBy(InsertByStart(x, sorted, key), key)
    decreases |sorted|
  {
    if sorted != [] && key[x] >= key[sorted[0]] {
      InsertKeepsSorted(x, sorted[1..], key);
      var rest := InsertByStart(x, sorted[1..], key);
      assert forall i :: 0 <= i < |rest| ==> key[sorted[0]] <= key[rest[i]] by {
        forall i | 0 <= i < |rest| ensures key[sorted[0]] <= key[rest[i]] {
          assert rest[i] in multiset(sorted[1..]) + multiset{x} by {
            assert rest[i] in multiset(rest);
          }
          if rest[i] != x {
            assert rest[i] in multiset(sorted[1..]);
            var k :| 0 <= k < |sorted[1..]| && sorted[1..][k] == rest[i];
            assert sorted[k + 1] == rest[i];
          }
        }
      }
    }
  }

  /** Collections.sort by start time: a stable insertion of each runtime in list order. */
  function SortByStart<R>(rs: seq<R>, key: map<R, int>): (r: seq<R>)
    requires Keyed(rs, key)
    ensures |r| == |rs| && Keyed(r, key)
    ensures multiset(r) == multiset(rs)
    decreases |rs|
  {
    if rs == [] then []
    else
      assert rs == rs[..|rs| - 1] + [rs[|rs| - 1]];
      InsertByStart(rs[|rs| - 1], SortByStart(rs[..|rs| - 1], key), key)
  }

  /** The sorted order is ascending in start time. */
  lemma {:induction false} SortByStartSorted<R>(rs: seq<R>, key: map<R, int>)
    requires Keyed(rs, key)
    ensures SortedBy(SortByStart(rs, key), key)
    decreases |rs|
  {
    if rs != [] {
      SortByStartSorted(rs[..|rs| - 1], key);
      InsertKeepsSorted(rs[|rs| - 1], SortByStart(rs[..|rs| - 1], key), key);
    }
  }

  /** The runtimes of rs whose start time is k, in their order in rs. */
  function OfKey<R>(rs: seq<R>, key: map<R, int>, k: int): (r: seq<R>)
    requires Keyed(rs, key)
    ensures forall x :: x in r ==> x in rs && key[x] == k
    decreases |rs|
  {
    if rs == [] then []
    else (if key[rs[0]] == k then [rs[0]] else []) + OfKey(rs[1..], key, k)
  }

  lemma {:induction false} OfKeyAppend<R>(a: seq<R>, b: seq<R>, key: map<R, int>, k: int)
    requires Keyed(a, key) && Keyed(b, key)
    ensures Keyed(a + b, key) && OfKey(a + b, key, k) == OfKey(a, key, k) + OfKey(b, key, k)
    decreases |a|
  {
    assert Keyed(a + b, key) by {
      forall i | 0 <= i < |a + b| ensures (a + b)[i] in key {
        if i < |a| { assert (a + b)[i] == a[i]; } else { assert (a + b)[i] == b[i - |a|]; }
      }
    }
    if a == [] {
      assert a + b == b;
    } else {
      assert (a + b)[0] == a[0] && (a + b)[1..] == a[1..] + b;
      OfKeyAppend(a[1..], b, key, k);
    }
  }

  lemma OfKeySingle<R>(x: R, key: map<R, int>, k: int)
    requires x in key
    ensures OfKey([x], key, k) == if key[x] == k then [x] else []
  {
    assert OfKey([x], key, k) == (if key[x] == k then [x] else []) + OfKey([x][1..], key, k);
  }

  /** No runtime of rs starts at k. */
  lemma {:induction false} OfKeyNone<R>(rs: seq<R>, key: map<R, int>, k: int)
    requires Keyed(rs, key) && forall i :: 0 <= i < |rs| ==> key[rs[i]] != k
    ensures OfKey(rs, key, k) == []
    decreases |rs|
  {
    if rs != [] {
      OfKeyNone(rs[1..], key, k);
    }
  }

  /** Inserting x into a sorted registry places it after every runtime with its start time. */
  lemma {:induction false} InsertAfterEqual<R>(x: R, sorted: seq<R>, key: map<R, int>, k: int)
    requires x in key && Keyed(sorted, key) && SortedBy(sorted, key)
    ensures OfKey(InsertByStart(x, sorted, key), key, k)
            == OfKey(sorted, key, k) + (if key[x] == k then [x] else [])
    decreases |sorted|
  {
    if sorted == [] {
      assert OfKey([x], key, k) == (if key[x] == k then [x] else []) + OfKey([x][1..], key, k);
    } else if key[x] < key[sorted[0]] {
      var r := [x] + sorted;
      assert r[1..] == sorted;
      if key[x] == k {
        OfKeyNone(sorted, key, k);
      }
    } else {
      var r := [sorted[0]] + InsertByStart(x, sorted[1..], key);
      assert r[1..] == InsertByStart(x, sorted[1..], key);
      InsertAfterEqual(x, sorted[1..], key, k);
    }
  }

  /** Collections.sort is stable: runtimes with equal start times keep their registration order. */
  lemma {:induction false} SortByStartStable<R>(rs: seq<R>, key: map<R, int>, k: int)
    requires Keyed(rs, key)
    ensures OfKey(SortByStart(rs, key), key, k) == OfKey(rs, key, k)
    decreases |rs|
  {
    if rs != [] {
      var init, last := rs[..|rs| - 1], rs[|rs| - 1];
      SortByStartSnoc(rs, key);
      var sorted := SortByStart(init, key);
      SortByStartStable(init, key, k);
      SortByStartSorted(init, key);
      InsertAfterEqual(last, sorted, key, k);
      OfKeyAppend(init, [last], key, k);
      OfKeySingle(last, key, k);
    }
  }

  lemma SortByStartSnoc<R>(rs: seq<R>, key: map<R, int>)
    requires Keyed(rs, key) && rs != []
    ensures Keyed(rs[..|rs| - 1], key) && rs == rs[..|rs| - 1] + [rs[|rs| - 1]]
    ensures SortByStart(rs, key) == InsertByStart(rs[|rs| - 1], SortByStart(rs[..|rs| - 1], key), key)
  {
    assert rs == rs[..|rs| - 1] + [rs[|rs| - 1]];
  }

  /** The start times of rs, in order. */
  function Times<R>(rs: seq<R>, key: map<R, int>): (ts: seq<int>)
    requires Keyed(rs, key)
    ensures |ts| == |rs| && forall i :: 0 <= i < |rs| ==> ts[i] == key[rs[i]]
  {
    if rs == [] then [] else [key[rs[0]]] + Times(rs[1..], key)
  }

  // ---------------------------------------------------- the start schedule

  /** The start time of the runtime started before the k-th one, 0 before the first. */
  function Previous(ts: seq<int>, k: nat): int
    requires k < |ts|
  {
    if k == 0 then 0 else ts[k - 1]
  }

  /** What the start loop sleeps before each start: `t1 - t0`, with t0 the previous start time. */
  function StartDelays(ts: seq<int>): (ds: seq<int>)
    ensures |ds| == |ts|
  {
    seq(|ts|, k requires 0 <= k < |ts| => ts[k] - Previous(ts, k))
  }

  /** The delays up to the k-th start extend those before it by the k-th delay. */
  lemma DelaysStep(ts: seq<int>, k: nat)
    requires k < |ts|
    ensures StartDelays(ts)[..k + 1] == StartDelays(ts)[..k] + [ts[k] - Previous(ts, k)]
  {
    assert StartDelays(ts)[k] == ts[k] - Previous(ts, k);
  }

  function Sum(xs: seq<int>): int {
    if xs == [] then 0 else Sum(xs[..|xs| - 1]) + xs[|xs| - 1]
  }

  /** The delays slept up to and including the k-th start add up to its start time. */
  lemma {:induction false} CumulativeDelay(ts: seq<int>, k: nat)
    requires k < |ts|
    ensures Sum(StartDelays(ts)[..k + 1]) == ts[k]
    decreases k
  {
    var ds := StartDelays(ts);
    assert ds[..k + 1][..k] == ds[..k];
    if k > 0 {
      CumulativeDelay(ts, k - 1);
    }
  }

  /** With ascending, non-negative start times no delay is negative, and runtime k starts after exactly its start time. */
  lemma StartSchedule(ts: seq<int>, k: nat)
    requires forall a, b :: 0 <= a < b < |ts| ==> ts[a] <= ts[b]
    requires |ts| > 0 && ts[0] >= 0 && k < |ts|
    ensures StartDelays(ts)[k] >= 0
    ensures Sum(StartDelays(ts)[..k + 1]) == ts[k]
  {
    CumulativeDelay(ts, k);
  }

  // ---------------------------------------------------------- the registry

  class A1RuntimeInterface<P> {
    var runtimes: seq<Runtime<P>>
    var startTimes: map<Runtime<P>, int>
    var running: bool
    /** The current-runtime slot behind setRuntime (ThreadLocalRuntimeMechanism). */
    var current: Option<Runtime<P>>
    /** The runtimes whose start() has been called, in call order. */
    var startLog: seq<Runtime<P>>

    ghost predicate Valid()
      reads this`runtimes, this`startTimes
    {
      Distinct(runtimes) && Keyed(runtimes, startTimes) && startTimes.Keys == Elements(runtimes)
    }

    constructor ()
      ensures Valid() && runtimes == [] && startTimes == map[] && !running && current == None && startLog == []
    {
      runtimes := [];
      startTimes := map[];
      running := false;
      current := None;
      startLog := [];
    }

    /** addRuntime: one fresh runtime, configured while it is current, appended with its start time. */
    method AddRuntime(address: Address, protocol: P, randomSeed: int, roundLength: int, startTime: int, lockTimeout: int)
      returns (rt: Runtime<P>)
      requires Valid()
      modifies this
      ensures Valid() && fresh(rt)
      ensures runtimes == old(runtimes) + [rt]
      ensures startTimes == old(startTimes)[rt := startTime]
      ensures running == old(running) && current == None
      ensures rt.address == address && rt.instance == Some(protocol)
      ensures rt.randomSeed == randomSeed && rt.roundLength == roundLength && rt.lockTimeout == lockTimeout
      ensures rt.stopCalls == 0 && startLog == old(startLog)
    {
      rt := new Runtime(address);
      ElementsSnoc(runtimes, rt);
      DistinctSnoc(runtimes, rt);
      current := Some(rt);
      startTimes := startTimes[rt := startTime];
      rt.SetProtocolInstance(protocol);
      rt.Configure(randomSeed, roundLength, lockTimeout);
      current := None;
      runtimes := runtimes + [rt];
    }

    /**
     * run, up to the wait for shutdown: sort by start time, then for each
     * runtime sleep t1 - t0, make it current, start it and clear the slot.
     * `runtimes.get(0)` throws on an empty registry, and Thread.sleep throws
     * on a negative delay, which only the first start can have.
     */
    method Run() returns (s: Status, delays: seq<int>)
      requires Valid()
      modifies this
      ensures Valid() && startTimes == old(startTimes)
      ensures old(runtimes) == [] ==>
                s == Threw(IndexOutOfBoundsException) && runtimes == [] && delays == []
                && running == old(running) && current == old(current) && startLog == old(startLog)
      ensures old(runtimes) != [] ==>
                running && multiset(runtimes) == multiset(old(runtimes)) && Ascending(runtimes, startTimes)
                && runtimes == SortByStart(old(runtimes), startTimes)
      ensures old(runtimes) != [] && startTimes[runtimes[0]] < 0 ==>
                s == Threw(IllegalArgumentException) && delays == [] && current == old(current)
                && startLog == old(startLog)
      ensures old(runtimes) != [] && startTimes[runtimes[0]] >= 0 ==>
                s == Done && delays == StartDelays(Times(runtimes, startTimes)) && current == None
                && startLog == old(startLog) + runtimes
    {
      if runtimes == [] {
        return Threw(IndexOutOfBoundsException), [];
      }
      running := true;
      SortRegistry();
      s, delays := StartInOrder();
    }

    /** Collections.sort(runtimes, by start time). */
    method SortRegistry()
      requires Valid()
      modifies this`runtimes
      ensures Valid() && Ascending(runtimes, startTimes)
      ensures runtimes == SortByStart(old(runtimes), startTimes)
      ensures multiset(runtimes) == multiset(old(runtimes))
    {
      ghost var unsorted := runtimes;
      runtimes := SortByStart(runtimes, startTimes);
      PermutationKeepsRegistry(unsorted, runtimes);
      SortByStartSorted(unsorted, startTimes);
    }

    /** The start loop of run, over the registry already sorted by start time. */
    method StartInOrder() returns (s: Status, delays: seq<int>)
      requires Keyed(runtimes, startTimes) && runtimes != [] && Ascending(runtimes, startTimes)
      modifies this`current, this`startLog
      ensures runtimes == old(runtimes) && startTimes == old(startTimes)
      ensures startTimes[runtimes[0]] < 0 ==>
                s == Threw(IllegalArgumentException) && delays == [] && current == old(current)
                && startLog == old(startLog)
      ensures startTimes[runtimes[0]] >= 0 ==>
                s == Done && delays == StartDelays(Times(runtimes, startTimes)) && current == None
                && startLog == old(startLog) + runtimes
    {
      delays := [];
      ghost var ts := Times(runtimes, startTimes);
      var t0 := 0;
      var rs := runtimes;
      ghost var log0 := startLog;
      var i := 0;
      while i < |rs|
        invariant 0 <= i <= |rs| && rs == runtimes
        invariant i > 0 ==> current == None && ts[0] >= 0
        invariant i == 0 ==> current == old(current)
        invariant i < |rs| ==> t0 == Previous(ts, i)
        invariant delays == StartDelays(ts)[..i]
        invariant startLog == log0 + rs[..i]
      {
        var rt := rs[i];
        var t1 := startTimes[rt];
        assert t1 == ts[i];
        assert i > 0 ==> t0 == ts[i - 1] <= t1 by {
          if i > 0 { assert startTimes[rs[i - 1]] <= startTimes[rs[i]]; }
        }
        if t1 - t0 < 0 {
          assert i == 0 && rs[..i] == [];
          return Threw(IllegalArgumentException), delays;
        }
        DelaysStep(ts, i);
        delays := delays + [t1 - t0];
        t0 := t1;
        current := Some(rt);
        startLog := startLog + [rt];
        current := None;
        assert rs[..i + 1] == rs[..i] + [rt];
        i := i + 1;
      }
      assert rs[..i] == rs;
      return Done, delays;
    }

    /** stop: clears the running flag and stops every registered runtime once. */
    method Stop()
      requires Valid()
      modifies this`running, runtimes`stopCalls
      ensures !running
      ensures forall r :: r in runtimes ==> r.stopCalls == old(r.stopCalls) + 1
    {
      running := false;
      var i := 0;
      while i < |runtimes|
        invariant 0 <= i <= |runtimes| && !running
        invariant forall r :: r in runtimes[..i] ==> r.stopCalls == old(r.stopCalls) + 1
        invariant forall r :: r in runtimes[i..] ==> r.stopCalls == old(r.stopCalls)
      {
        runtimes[i].Stop();
        assert runtimes[..i + 1] == runtimes[..i] + [runtimes[i]];
        i := i + 1;
      }
      assert runtimes[..i] == runtimes;
    }

    /** reset: stop everything, then forget every runtime and start time. */
    method Reset()
      requires Valid()
      modifies this`runtimes, this`startTimes, this`running, runtimes`stopCalls
      ensures Valid() && runtimes == [] && startTimes == map[] && !running
      ensures forall r :: r in old(runtimes) ==> r.stopCalls == old(r.stopCalls) + 1
    {
      Stop();
      runtimes := [];
      startTimes := map[];
      running := false;
    }
  }

  ghost predicate Distinct<R>(rs: seq<R>) {
    forall i, j :: 0 <= i < j < |rs| ==> rs[i] != rs[j]
  }

  function Elements<R>(rs: seq<R>): set<R> {
    set i | 0 <= i < |rs| :: rs[i]
  }

  lemma ElementsSnoc<R>(rs: seq<R>, x: R)
    ensures Elements(rs + [x]) == Elements(rs) + {x}
  {
    assert (rs + [x])[|rs|] == x;
    forall y | y in Elements(rs) ensures y in Elements(rs + [x]) {
      var i :| 0 <= i < |rs| && rs[i] == y;
      assert (rs + [x])[i] == y;
    }
  }

  lemma DistinctSnoc<R>(rs: seq<R>, x: R)
    requires Distinct(rs) && x !in rs
    ensures Distinct(rs + [x])
  {
  }

  /** Reordering the registry keeps it distinct and keeps its set of runtimes. */
  lemma PermutationKeepsRegistry<R>(a: seq<R>, b: seq<R>)
    requires multiset(a) == multiset(b) && Distinct(a)
    ensures Distinct(b) && Elements(b) == Elements(a)
  {
    DistinctAfterPermutation(a, b);
    forall y ensures y in Elements(a) <==> y in multiset(a) {
      if y in multiset(a) { var i :| 0 <= i < |a| && a[i] == y; }
    }
    forall y ensures y in Elements(b) <==> y in multiset(b) {
      if y in multiset(b) { var i :| 0 <= i < |b| && b[i] == y; }
    }
  }

  lemma DistinctAfterPermutation<R>(a: seq<R>, b: seq<R>)
    requires multiset(a) == multiset(b)
    requires forall i, j :: 0 <= i < j < |a| ==> a[i] != a[j]
    ensures forall i, j :: 0 <= i < j < |b| ==> b[i] != b[j]
  {
    forall i, j | 0 <= i < j < |b| ensures b[i] != b[j] {
      if b[i] == b[j] {
        assert multiset(b)[b[i]] >= 2 by {
          assert multiset([b[i], b[j]]) <= multiset(b) by {
            MultisetPairIn(b, i, j);
          }
        }
        DistinctCountsOne(a, b[i]);
        assert false;
      }
    }
  }

  lemma {:induction false} MultisetPairIn<R>(b: seq<R>, i: nat, j: nat)
    requires i < j < |b|
    ensures multiset([b[i], b[j]]) <= multiset(b)
  {
    assert b == b[..i] + [b[i]] + b[i + 1..j] + [b[j]] + b[j + 1..];
  }

  lemma {:induction false} DistinctCountsOne<R>(a: seq<R>, x: R)
    requires forall i, j :: 0 <= i < j < |a| ==> a[i] != a[j]
    ensures multiset(a)[x] <= 1
    decreases |a|
  {
    if a != [] {
      assert a == [a[0]] + a[1..];
      DistinctCountsOne(a[1..], x);
      if a[0] == x {
        assert x !in a[1..];
      }
    }
  }
}
